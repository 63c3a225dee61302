/** Values shared by every component: sides, order attributes, orders, fills and price levels.

    Prices and quantities are the integer mantissas of the engine's fixed-point decimals, one
    precision per kind, so that ordinary integer arithmetic is the engine's arithmetic. */
module Domain {

  type OrderId = string
  type UserId = string

  datatype Side = Bid | Ask {
    function Opposite(): Side {
      if this == Bid then Ask else Bid
    }
  }

  datatype TIF = GTC | IOC | FOK | GTD | DAY {
    predicate CanRest() {
      GTC? || GTD? || DAY?
    }
  }

  datatype OrderType = Limit | Market

  datatype STPMode = STPDisabled | STPCancelBoth | STPCancelMaker | STPCancelTaker | STPDecrementCancel

  /** The scalar fields of a book node. `remain` is the working slice; an iceberg keeps its
      reserve in `hidden` and its lot size in `origDisplay`. */
  datatype Order = Order(
    id: OrderId, user: UserId, side: Side, typ: OrderType, tif: TIF, stp: STPMode, iceberg: bool,
    price: int, origQty: int, remain: int, filled: int, display: int, hidden: int, origDisplay: int,
    seqNum: nat, expireAt: int)

  /** What depth subscribers see of one price. */
  datatype LevelInfo = NoLevel | LevelInfo(total: int, display: int, count: nat)

  datatype Fill = Fill(
    makerId: OrderId, takerId: OrderId, makerUser: UserId, takerUser: UserId, makerSide: Side,
    price: int, qty: int, makerRemain: int, takerRemain: int, makerSeq: nat, takerSeq: nat,
    level: LevelInfo)

  /** A maker removed by self-trade prevention, as reported to the processor. */
  datatype STPCanceled = STPCanceled(
    id: OrderId, user: UserId, side: Side, price: int, remain: int, filled: int)

  datatype Disposition =
    | FullyFilled | PartialFillRested | PartialFillCanceled | Rested | Canceled | Rejected | STPCanceledTaker

  function Min(a: int, b: int): int {
    if a <= b then a else b
  }

  /** `p` has strictly better priority than `q` in the tree of `side`: bids descend, asks ascend. */
  predicate Better(side: Side, p: int, q: int) {
    if side == Bid then p > q else p < q
  }

  // Quantities summed over queues of orders. Each projection is named so that sums are comparable.

  function RemainOf(o: Order): int { o.remain }

  function DisplayOf(o: Order): int { o.display }

  function One(o: Order): int { 1 }

  function SumOf(os: seq<Order>, f: Order -> int): int {
    if os == [] then 0 else f(os[0]) + SumOf(os[1..], f)
  }

  lemma {:induction false} SumOfConcat(a: seq<Order>, b: seq<Order>, f: Order -> int)
    ensures SumOf(a + b, f) == SumOf(a, f) + SumOf(b, f)
  {
    if a == [] {
      assert a + b == b;
    } else {
      assert (a + b)[1..] == a[1..] + b;
      SumOfConcat(a[1..], b, f);
    }
  }

  lemma SumOfSingle(o: Order, f: Order -> int)
    ensures SumOf([o], f) == f(o)
  {
    assert [o][1..] == [];
  }

  lemma {:induction false} SumOfOne(os: seq<Order>)
    ensures SumOf(os, One) == |os|
  {
    if os != [] {
      SumOfOne(os[1..]);
    }
  }
}
