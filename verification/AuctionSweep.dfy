/** Execution of an auction at one uniform price. */
module AuctionSweep {
  import opened Domain
  import opened Auctions
  import opened MatchQuantities

  // ----- Who takes part -----

  /** An order of `side` accepts the price `p`. */
  predicate Accepts(side: Side, o: AuctionOrder, p: int) {
    if side == Bid then o.price >= p else o.price <= p
  }

  function Eligible(side: Side, os: seq<AuctionOrder>, p: int): seq<AuctionOrder> {
    if os == [] then []
    else
      var r, o := Eligible(side, os[..|os| - 1], p), os[|os| - 1];
      if Accepts(side, o, p) then r + [o] else r
  }

  function Excluded(side: Side, os: seq<AuctionOrder>, p: int): seq<AuctionOrder> {
    if os == [] then []
    else
      var r, o := Excluded(side, os[..|os| - 1], p), os[|os| - 1];
      if Accepts(side, o, p) then r else r + [o]
  }

  function Total(os: seq<AuctionOrder>): int {
    if os == [] then 0 else os[0].qty + Total(os[1..])
  }

  // ----- The uniform-price execution as a value -----

  function AuctionFill(bid: AuctionOrder, ask: AuctionOrder, p: int, q: int): Fill {
    Fill(ask.id, bid.id, ask.user, bid.user, Ask, p, q, ask.qty - q, bid.qty - q, ask.seqNum, bid.seqNum, NoLevel)
  }

  /** Serve bids and asks from the front, whichever is smaller first used up. */
  function PairUp(bids: seq<AuctionOrder>, asks: seq<AuctionOrder>, p: int): seq<Fill>
    decreases |bids| + |asks|
  {
    if bids == [] || asks == [] then []
    else if bids[0].qty == 0 then PairUp(bids[1..], asks, p)
    else if asks[0].qty == 0 then PairUp(bids, asks[1..], p)
    else
      var b, a := bids[0], asks[0];
      var q := Min(b.qty, a.qty);
      [AuctionFill(b, a, p, q)]
      + if b.qty <= a.qty then PairUp(bids[1..], [a.(qty := a.qty - q)] + asks[1..], p)
        else PairUp([b.(qty := b.qty - q)] + bids[1..], asks[1..], p)
  }

  /** What is left of each order after `t` was taken from the front. */
  function Consume(os: seq<AuctionOrder>, t: int): seq<int> {
    if os == [] then [] else [os[0].qty - Min(os[0].qty, t)] + Consume(os[1..], t - Min(os[0].qty, t))
  }

  lemma {:induction false} ConsumeLength(os: seq<AuctionOrder>, t: int)
    ensures |Consume(os, t)| == |os|
  {
    if os != [] {
      ConsumeLength(os[1..], t - Min(os[0].qty, t));
    }
  }

  /** The orders with these quantities left. */
  function Live(os: seq<AuctionOrder>, left: seq<int>): seq<AuctionOrder>
    requires |os| == |left|
  {
    if os == [] then [] else [os[0].(qty := left[0])] + Live(os[1..], left[1..])
  }

  /** Those of them with something left. */
  function Left(os: seq<AuctionOrder>, left: seq<int>): seq<AuctionOrder>
    requires |os| == |left|
  {
    if os == [] then []
    else
      var r, q := Left(os[..|os| - 1], left[..|os| - 1]), left[|os| - 1];
      if q != 0 then r + [os[|os| - 1].(qty := q)] else r
  }

  function GoodTillCanceled(os: seq<AuctionOrder>): seq<AuctionOrder> {
    if os == [] then []
    else
      var r, o := GoodTillCanceled(os[..|os| - 1]), os[|os| - 1];
      if o.tif == GTC then r + [o] else r
  }

  function Immediate(os: seq<AuctionOrder>): seq<AuctionOrder> {
    if os == [] then []
    else
      var r, o := Immediate(os[..|os| - 1]), os[|os| - 1];
      if o.tif == GTC then r else r + [o]
  }

  /** Volume executed at `p`. */
  function Volume(bids: seq<AuctionOrder>, asks: seq<AuctionOrder>, p: int): int {
    Min(Total(Eligible(Bid, bids, p)), Total(Eligible(Ask, asks, p)))
  }

  /** What a side's participants have left. */
  function SideLeft(side: Side, os: seq<AuctionOrder>, p: int, t: int): seq<AuctionOrder> {
    var es := Eligible(side, os, p);
    ConsumeLength(es, t);
    Left(es, Consume(es, t))
  }

  /** Everything left after the sweep, in the order it is handed on. */
  function Residual(bids: seq<AuctionOrder>, asks: seq<AuctionOrder>, p: int): seq<AuctionOrder> {
    var t := Volume(bids, asks, p);
    SideLeft(Bid, bids, p, t) + SideLeft(Ask, asks, p, t) + Excluded(Bid, bids, p) + Excluded(Ask, asks, p)
  }

  // ----- Facts about taking from the front -----

  /** Every order is on exactly one of the two sides of the price. */
  lemma {:induction false} EligibleMembers(side: Side, os: seq<AuctionOrder>, p: int)
    ensures forall o :: o in Eligible(side, os, p) <==> o in os && Accepts(side, o, p)
    ensures forall o :: o in Excluded(side, os, p) <==> o in os && !Accepts(side, o, p)
  {
    hide Accepts;
    if os != [] {
      EligibleMembers(side, os[..|os| - 1], p);
      assert os == os[..|os| - 1] + [os[|os| - 1]];
    }
  }

  lemma EligiblePositive(side: Side, os: seq<AuctionOrder>, p: int)
    requires Positive(os)
    ensures Positive(Eligible(side, os, p)) && Positive(Excluded(side, os, p))
  {
    hide Eligible, Excluded;
    EligibleMembers(side, os, p);
    AllPositive(os, Eligible(side, os, p));
    AllPositive(os, Excluded(side, os, p));
  }

  lemma AllPositive(os: seq<AuctionOrder>, es: seq<AuctionOrder>)
    requires Positive(os) && forall o :: o in es ==> o in os
    ensures Positive(es)
  {
    forall i | 0 <= i < |es|
      ensures es[i].qty > 0 && es[i].price > 0
    {
      assert es[i] in os;
    }
  }

  lemma {:induction false} TotalPositive(os: seq<AuctionOrder>)
    requires Positive(os)
    ensures Total(os) >= 0
  {
    if os != [] {
      TotalPositive(os[1..]);
    }
  }

  /** Taking `q` more from the first order with anything left. */
  lemma ConsumeCons(os: seq<AuctionOrder>, t: int)
    requires os != []
    ensures Consume(os, t) == [os[0].qty - Min(os[0].qty, t)] + Consume(os[1..], t - Min(os[0].qty, t))
  {
  }

  lemma {:induction false} ConsumeMore(os: seq<AuctionOrder>, t: int, i: nat, q: int)
    requires Positive(os) && t >= 0 && q > 0 && i < |os| && |Consume(os, t)| == |os|
    requires forall j :: 0 <= j < i ==> Consume(os, t)[j] == 0
    requires Consume(os, t)[i] >= q
    ensures Consume(os, t + q) == Consume(os, t)[i := Consume(os, t)[i] - q] && t + q <= Total(os)
  {
    hide Consume;
    var u := t - Min(os[0].qty, t);
    ConsumeCons(os, t);
    ConsumeCons(os, t + q);
    ConsumeLength(os[1..], u);
    TotalPositive(os[1..]);
    if i == 0 {
      assert u == 0;
    } else {
      assert Consume(os, t)[0] == 0;
      forall j | 0 <= j < i - 1
        ensures Consume(os[1..], u)[j] == 0
      {
        assert Consume(os, t)[j + 1] == Consume(os[1..], u)[j];
      }
      ConsumeMore(os[1..], u, i - 1, q);
    }
  }

  /** When nothing is left, everything was taken. */
  lemma {:induction false} ConsumedAll(os: seq<AuctionOrder>, t: int)
    requires Positive(os) && 0 <= t <= Total(os) && |Consume(os, t)| == |os|
    requires forall j :: 0 <= j < |os| ==> Consume(os, t)[j] == 0
    ensures t == Total(os)
  {
    if os != [] {
      var u := t - Min(os[0].qty, t);
      ConsumeLength(os[1..], u);
      TotalPositive(os[1..]);
      assert Consume(os, t)[0] == 0;
      assert forall j :: 0 <= j < |os| - 1 ==> Consume(os[1..], u)[j] == Consume(os, t)[j + 1];
      ConsumedAll(os[1..], u);
    }
  }

  /** What is left is between nothing and all, and nothing is taken from an order before those ahead of it are used up. */
  lemma {:induction false} ConsumeInOrder(os: seq<AuctionOrder>, t: int)
    requires Positive(os) && t >= 0
    ensures |Consume(os, t)| == |os|
    ensures forall i :: 0 <= i < |os| ==> 0 <= Consume(os, t)[i] <= os[i].qty
    ensures forall i, j :: 0 <= i < j < |os| && Consume(os, t)[j] < os[j].qty ==> Consume(os, t)[i] == 0
  {
    if os != [] {
      var u := t - Min(os[0].qty, t);
      ConsumeInOrder(os[1..], u);
      var c, d := Consume(os, t), Consume(os[1..], u);
      assert forall i :: 0 < i < |os| ==> c[i] == d[i - 1];
      if u == 0 {
        ConsumeNone(os[1..]);
      }
    }
  }

  lemma {:induction false} ConsumeNone(os: seq<AuctionOrder>)
    requires Positive(os)
    ensures |Consume(os, 0)| == |os| && forall i :: 0 <= i < |os| ==> Consume(os, 0)[i] == os[i].qty
  {
    if os != [] {
      ConsumeNone(os[1..]);
    }
  }

  lemma {:induction false} LiveAt(os: seq<AuctionOrder>, left: seq<int>)
    requires |os| == |left|
    ensures |Live(os, left)| == |os| && forall i :: 0 <= i < |os| ==> Live(os, left)[i] == os[i].(qty := left[i])
  {
    if os != [] {
      LiveAt(os[1..], left[1..]);
    }
  }

  // ----- The sweep -----

  method SelectEligible(side: Side, os: seq<AuctionOrder>, p: int) returns (es: seq<AuctionOrder>)
    ensures es == Eligible(side, os, p)
  {
    es := [];
    for i := 0 to |os|
      invariant es == Eligible(side, os[..i], p)
    {
      assert os[..i + 1][..i] == os[..i];
      if Accepts(side, os[i], p) {
        es := es + [os[i]];
      }
    }
    assert os[..|os|] == os;
  }

  method Quantities(os: seq<AuctionOrder>) returns (left: array<int>)
    ensures fresh(left) && left.Length == |os| && forall i :: 0 <= i < |os| ==> left[i] == os[i].qty
  {
    left := new int[|os|];
    for i := 0 to |os|
      invariant forall j :: 0 <= j < i ==> left[j] == os[j].qty
    {
      left[i] := os[i].qty;
    }
  }

  /** Pairing from position `bi` and `ai` on, with these quantities left. */
  function PairFrom(bids: seq<AuctionOrder>, br: seq<int>, bi: nat, asks: seq<AuctionOrder>, ar: seq<int>, ai: nat, p: int): seq<Fill>
    requires |bids| == |br| && |asks| == |ar| && bi <= |bids| && ai <= |asks|
  {
    LiveAt(bids, br);
    LiveAt(asks, ar);
    PairUp(Live(bids, br)[bi..], Live(asks, ar)[ai..], p)
  }

  lemma PairSkip(bids: seq<AuctionOrder>, br: seq<int>, bi: nat, asks: seq<AuctionOrder>, ar: seq<int>, ai: nat, p: int)
    requires |bids| == |br| && |asks| == |ar| && bi < |bids| && ai < |asks|
    ensures br[bi] == 0 ==> PairFrom(bids, br, bi, asks, ar, ai, p) == PairFrom(bids, br, bi + 1, asks, ar, ai, p)
    ensures br[bi] != 0 && ar[ai] == 0 ==> PairFrom(bids, br, bi, asks, ar, ai, p) == PairFrom(bids, br, bi, asks, ar, ai + 1, p)
  {
    LiveAt(bids, br);
    LiveAt(asks, ar);
    assert Live(bids, br)[bi..][1..] == Live(bids, br)[bi + 1..];
    assert Live(asks, ar)[ai..][1..] == Live(asks, ar)[ai + 1..];
  }

  /** Only what is still to be served matters. */
  lemma LiveUpdate(os: seq<AuctionOrder>, left: seq<int>, i: nat, v: int)
    requires |os| == |left| && i < |os|
    ensures |Live(os, left)| == |os| && |Live(os, left[i := v])| == |os|
    ensures Live(os, left[i := v])[i..] == [os[i].(qty := v)] + Live(os, left)[i + 1..]
    ensures Live(os, left)[i..] == [os[i].(qty := left[i])] + Live(os, left)[i + 1..]
  {
    LiveAt(os, left);
    LiveAt(os, left[i := v]);
  }

  lemma PairFill(bids: seq<AuctionOrder>, br: seq<int>, bi: nat, asks: seq<AuctionOrder>, ar: seq<int>, ai: nat, p: int, q: int)
    requires |bids| == |br| && |asks| == |ar| && bi < |bids| && ai < |asks|
    requires br[bi] > 0 && ar[ai] > 0 && q == Min(br[bi], ar[ai])
    ensures PairFrom(bids, br, bi, asks, ar, ai, p)
         == [AuctionFill(bids[bi].(qty := br[bi]), asks[ai].(qty := ar[ai]), p, q)]
            + PairFrom(bids, br[bi := br[bi] - q], bi, asks, ar[ai := ar[ai] - q], ai, p)
  {
    hide Live;
    LiveUpdate(bids, br, bi, br[bi] - q);
    LiveUpdate(asks, ar, ai, ar[ai] - q);
    var b, a := bids[bi].(qty := br[bi]), asks[ai].(qty := ar[ai]);
    PairHeads(b, Live(bids, br)[bi + 1..], a, Live(asks, ar)[ai + 1..], p);
  }

  /** The two heads trade; one of them is then skipped. */
  lemma PairHeads(b: AuctionOrder, bs: seq<AuctionOrder>, a: AuctionOrder, as': seq<AuctionOrder>, p: int)
    requires b.qty > 0 && a.qty > 0
    ensures var q := Min(b.qty, a.qty);
            var rest := PairUp([b.(qty := b.qty - q)] + bs, [a.(qty := a.qty - q)] + as', p);
            PairUp([b] + bs, [a] + as', p) == [AuctionFill(b, a, p, q)] + rest
  {
    var q := Min(b.qty, a.qty);
    var b', a' := b.(qty := b.qty - q), a.(qty := a.qty - q);
    assert ([b] + bs)[1..] == bs && ([a] + as')[1..] == as';
    assert ([b'] + bs)[1..] == bs && ([a'] + as')[1..] == as';
  }

  /** `t` was taken from the front of `os`, leaving `left`, and the first `i` orders are used up. */
  ghost predicate Taken(os: seq<AuctionOrder>, left: seq<int>, t: int, i: int) {
    && left == Consume(os, t) && |left| == |os| && 0 <= t <= Total(os)
    && (forall j :: 0 <= j < |os| ==> left[j] >= 0)
    && (forall j :: 0 <= j < i && j < |os| ==> left[j] == 0)
  }

  lemma TakenStart(os: seq<AuctionOrder>, left: seq<int>)
    requires Positive(os) && |left| == |os| && forall i :: 0 <= i < |os| ==> left[i] == os[i].qty
    ensures Taken(os, left, 0, 0)
  {
    ConsumeNone(os);
    TotalPositive(os);
  }

  lemma TakenSkip(os: seq<AuctionOrder>, left: seq<int>, t: int, i: nat)
    requires Taken(os, left, t, i) && i < |os|
    ensures left[i] >= 0 && (left[i] == 0 ==> Taken(os, left, t, i + 1))
  {
  }

  lemma TakenFill(os: seq<AuctionOrder>, left: seq<int>, t: int, i: nat, q: int)
    requires Positive(os) && Taken(os, left, t, i) && i < |os| && 0 < q <= left[i]
    ensures Taken(os, left[i := left[i] - q], t + q, i)
  {
    hide Consume;
    ConsumeMore(os, t, i, q);
  }

  /** `done` and then `rest` make up `all`. */
  ghost predicate Made(all: seq<Fill>, done: seq<Fill>, rest: seq<Fill>) {
    all == done + rest
  }

  lemma MadeOne(all: seq<Fill>, done: seq<Fill>, f: Fill, rest: seq<Fill>)
    requires Made(all, done, [f] + rest)
    ensures Made(all, done + [f], rest)
  {
  }

  lemma MadeEnds(all: seq<Fill>)
    ensures Made(all, [], all) && forall done :: Made(all, done, []) ==> all == done
  {
  }

  lemma TakenEnd(os: seq<AuctionOrder>, left: seq<int>, t: int, i: int)
    requires Positive(os) && Taken(os, left, t, i)
    ensures t <= Total(os) && left == Consume(os, t) && (i == |os| ==> t == Total(os))
  {
    hide Consume;
    if i == |os| {
      ConsumedAll(os, t);
    }
  }

  method TradeHeads(b: AuctionOrder, a: AuctionOrder, bidRemain: array<int>, bi: nat, askRemain: array<int>, ai: nat, p: int, q: int)
    returns (fill: Fill)
    requires bi < bidRemain.Length && ai < askRemain.Length && bidRemain != askRemain
    modifies bidRemain, askRemain
    ensures bidRemain[..] == old(bidRemain[..])[bi := old(bidRemain[bi]) - q]
    ensures askRemain[..] == old(askRemain[..])[ai := old(askRemain[ai]) - q]
    ensures fill == AuctionFill(b.(qty := old(bidRemain[bi])), a.(qty := old(askRemain[ai])), p, q)
  {
    fill := Fill(a.id, b.id, a.user, b.user, Ask, p, q, askRemain[ai] - q, bidRemain[bi] - q, a.seqNum, b.seqNum, NoLevel);
    bidRemain[bi] := bidRemain[bi] - q;
    askRemain[ai] := askRemain[ai] - q;
  }

  /** The two-pointer loop over what each order has left. */
  method Execute(bids: seq<AuctionOrder>, asks: seq<AuctionOrder>, p: int) returns (fills: seq<Fill>, bidRemain: array<int>, askRemain: array<int>)
    requires Positive(bids) && Positive(asks)
    ensures fresh(bidRemain) && fresh(askRemain)
    ensures fills == PairUp(bids, asks, p)
    ensures var t := Min(Total(bids), Total(asks));
            bidRemain[..] == Consume(bids, t) && askRemain[..] == Consume(asks, t) && TotalQty(fills) == t
  {
    hide PairUp, PairFrom, Taken, Consume, TotalQty, Total, Made;
    bidRemain := Quantities(bids);
    askRemain := Quantities(asks);
    fills := [];
    ghost var t, all := 0, PairUp(bids, asks, p);
    StartPairs(bids, asks, bidRemain[..], askRemain[..], p);
    TakenStart(bids, bidRemain[..]);
    TakenStart(asks, askRemain[..]);
    MadeEnds(all);
    var bi, ai := 0, 0;
    while bi < |bids| && ai < |asks|
      invariant 0 <= bi <= |bids| && 0 <= ai <= |asks|
      invariant bidRemain.Length == |bids| && askRemain.Length == |asks| && bidRemain != askRemain
      invariant Made(all, fills, PairFrom(bids, bidRemain[..], bi, asks, askRemain[..], ai, p))
      invariant Taken(bids, bidRemain[..], t, bi) && Taken(asks, askRemain[..], t, ai) && t == TotalQty(fills) <= Total(bids)
      decreases |bids| - bi + |asks| - ai, Total(bids) - t
    {
      ghost var br, ar := bidRemain[..], askRemain[..];
      PairSkip(bids, br, bi, asks, ar, ai, p);
      TakenSkip(bids, br, t, bi);
      TakenSkip(asks, ar, t, ai);
      if bidRemain[bi] == 0 {
        bi := bi + 1;
        continue;
      }
      if askRemain[ai] == 0 {
        ai := ai + 1;
        continue;
      }
      var fillQty := bidRemain[bi];
      if askRemain[ai] < fillQty {
        fillQty := askRemain[ai];
      }
      PairFill(bids, br, bi, asks, ar, ai, p, fillQty);
      TakenFill(bids, br, t, bi, fillQty);
      TakenFill(asks, ar, t, ai, fillQty);
      var fill := TradeHeads(bids[bi], asks[ai], bidRemain, bi, askRemain, ai, p, fillQty);
      TotalAdded(fills, fill);
      MadeOne(all, fills, fill, PairFrom(bids, bidRemain[..], bi, asks, askRemain[..], ai, p));
      fills := fills + [fill];
      t := t + fillQty;
      TakenEnd(bids, bidRemain[..], t, bi);
    }
    PairsDone(bids, bidRemain[..], bi, asks, askRemain[..], ai, p);
    TakenEnd(bids, bidRemain[..], t, bi);
    TakenEnd(asks, askRemain[..], t, ai);
  }

  lemma TotalAdded(fills: seq<Fill>, f: Fill)
    ensures TotalQty(fills + [f]) == TotalQty(fills) + f.qty && TotalQty([]) == 0
  {
    assert (fills + [f])[..|fills|] == fills;
  }

  lemma PairsDone(bids: seq<AuctionOrder>, br: seq<int>, bi: nat, asks: seq<AuctionOrder>, ar: seq<int>, ai: nat, p: int)
    requires |bids| == |br| && |asks| == |ar| && bi <= |bids| && ai <= |asks| && (bi == |bids| || ai == |asks|)
    ensures PairFrom(bids, br, bi, asks, ar, ai, p) == []
  {
    LiveAt(bids, br);
    LiveAt(asks, ar);
  }

  lemma StartPairs(bids: seq<AuctionOrder>, asks: seq<AuctionOrder>, br: seq<int>, ar: seq<int>, p: int)
    requires |br| == |bids| && |ar| == |asks|
    requires (forall i :: 0 <= i < |bids| ==> br[i] == bids[i].qty) && forall i :: 0 <= i < |asks| ==> ar[i] == asks[i].qty
    ensures PairUp(bids, asks, p) == PairFrom(bids, br, 0, asks, ar, 0, p) && TotalQty([]) == 0
  {
    hide PairUp;
    LiveAt(bids, br);
    LiveAt(asks, ar);
    assert Live(bids, br)[0..] == bids && Live(asks, ar)[0..] == asks;
  }

  /** What a side's participants have left, split by time in force. */
  method HandOn(os: seq<AuctionOrder>, left: array<int>) returns (u: seq<AuctionOrder>, c: seq<AuctionOrder>)
    requires left.Length == |os|
    ensures SplitInto(Left(os, left[..]), u, c)
  {
    hide Left, SplitInto;
    u, c := [], [];
    NothingSplit();
    for i := 0 to |os|
      invariant SplitInto(Left(os[..i], left[..i]), u, c)
    {
      LeftNext(os, left[..], i, u, c);
      assert left[..][..i] == left[..i] && left[..][..i + 1] == left[..i + 1];
      if left[i] != 0 {
        var remaining := os[i].(qty := left[i]);
        if os[i].tif == GTC {
          u := u + [remaining];
        } else {
          c := c + [remaining];
        }
      }
    }
    assert os[..|os|] == os && left[..|os|] == left[..];
  }

  lemma NothingSplit()
    ensures SplitInto(Left([], []), [], []) && forall side: Side, p :: SplitInto(Excluded(side, [], p), [], [])
  {
  }

  lemma SplitAdds(os: seq<AuctionOrder>, o: AuctionOrder)
    ensures GoodTillCanceled(os + [o]) == if o.tif == GTC then GoodTillCanceled(os) + [o] else GoodTillCanceled(os)
    ensures Immediate(os + [o]) == if o.tif == GTC then Immediate(os) else Immediate(os) + [o]
  {
    assert (os + [o])[..|os|] == os;
  }

  /** The split of `os`: good-till-canceled orders and the others. */
  ghost predicate SplitInto(os: seq<AuctionOrder>, u: seq<AuctionOrder>, c: seq<AuctionOrder>) {
    u == GoodTillCanceled(os) && c == Immediate(os)
  }

  /** One order further: what is left of it joins its part of the split. */
  lemma LeftNext(os: seq<AuctionOrder>, left: seq<int>, i: nat, u: seq<AuctionOrder>, c: seq<AuctionOrder>)
    requires |os| == |left| && i < |os| && SplitInto(Left(os[..i], left[..i]), u, c)
    ensures var o := os[i].(qty := left[i]);
            SplitInto(Left(os[..i + 1], left[..i + 1]),
                      if left[i] != 0 && o.tif == GTC then u + [o] else u, if left[i] != 0 && o.tif != GTC then c + [o] else c)
  {
    assert os[..i + 1][..i] == os[..i] && left[..i + 1][..i] == left[..i];
    hide GoodTillCanceled, Immediate;
    if left[i] != 0 {
      SplitAdds(Left(os[..i], left[..i]), os[i].(qty := left[i]));
    }
  }

  lemma ExcludedNext(side: Side, os: seq<AuctionOrder>, p: int, i: nat, u: seq<AuctionOrder>, c: seq<AuctionOrder>)
    requires i < |os| && SplitInto(Excluded(side, os[..i], p), u, c)
    ensures var o, out := os[i], !Accepts(side, os[i], p);
            SplitInto(Excluded(side, os[..i + 1], p), if out && o.tif == GTC then u + [o] else u, if out && o.tif != GTC then c + [o] else c)
  {
    hide GoodTillCanceled, Immediate, Accepts;
    assert os[..i + 1][..i] == os[..i];
    if !Accepts(side, os[i], p) {
      SplitAdds(Excluded(side, os[..i], p), os[i]);
    }
  }

  /** The orders whose limit the price is outside of, split by time in force. */
  method HandBack(side: Side, os: seq<AuctionOrder>, p: int) returns (u: seq<AuctionOrder>, c: seq<AuctionOrder>)
    ensures SplitInto(Excluded(side, os, p), u, c)
  {
    hide Excluded, SplitInto, Accepts;
    u, c := [], [];
    NothingSplit();
    assert os[..0] == [];
    for i := 0 to |os|
      invariant SplitInto(Excluded(side, os[..i], p), u, c)
    {
      ExcludedNext(side, os, p, i, u, c);
      if !Accepts(side, os[i], p) {
        if os[i].tif == GTC {
          u := u + [os[i]];
        } else {
          c := c + [os[i]];
        }
      }
    }
    assert os[..|os|] == os;
  }

  lemma {:induction false} SplitConcat(a: seq<AuctionOrder>, b: seq<AuctionOrder>)
    ensures GoodTillCanceled(a + b) == GoodTillCanceled(a) + GoodTillCanceled(b)
    ensures Immediate(a + b) == Immediate(a) + Immediate(b)
  {
    if b == [] {
      assert a + b == a;
    } else {
      var f := b[..|b| - 1];
      SplitConcat(a, f);
      SplitAdds(a + f, b[|b| - 1]);
      assert a + b == (a + f) + [b[|b| - 1]];
    }
  }

  /** Execute every participant at the clearing price and hand on what is left. */
  method Sweep(bids: seq<AuctionOrder>, asks: seq<AuctionOrder>, clearingPrice: int)
    returns (fills: seq<Fill>, unmatched: seq<AuctionOrder>, canceled: seq<AuctionOrder>)
    requires Positive(bids) && Positive(asks)
    ensures fills == PairUp(Eligible(Bid, bids, clearingPrice), Eligible(Ask, asks, clearingPrice), clearingPrice)
    ensures TotalQty(fills) == Volume(bids, asks, clearingPrice)
    ensures unmatched == GoodTillCanceled(Residual(bids, asks, clearingPrice))
    ensures canceled == Immediate(Residual(bids, asks, clearingPrice))
  {
    hide PairUp, Eligible, Excluded, Consume, Left, GoodTillCanceled, Immediate;
    EligiblePositive(Bid, bids, clearingPrice);
    EligiblePositive(Ask, asks, clearingPrice);
    var eligBids := SelectEligible(Bid, bids, clearingPrice);
    var eligAsks := SelectEligible(Ask, asks, clearingPrice);
    var bidRemain, askRemain;
    fills, bidRemain, askRemain := Execute(eligBids, eligAsks, clearingPrice);
    ghost var t := Volume(bids, asks, clearingPrice);
    ConsumeLength(eligBids, t);
    ConsumeLength(eligAsks, t);
    var u1, c1 := HandOn(eligBids, bidRemain);
    var u2, c2 := HandOn(eligAsks, askRemain);
    var u3, c3 := HandBack(Bid, bids, clearingPrice);
    var u4, c4 := HandBack(Ask, asks, clearingPrice);
    unmatched, canceled := u1 + u2 + u3 + u4, c1 + c2 + c3 + c4;
    ghost var w, x := SideLeft(Bid, bids, clearingPrice, t), SideLeft(Ask, asks, clearingPrice, t);
    SplitConcat(w, x);
    SplitConcat(w + x, Excluded(Bid, bids, clearingPrice));
    SplitConcat(w + x + Excluded(Bid, bids, clearingPrice), Excluded(Ask, asks, clearingPrice));
  }
}
