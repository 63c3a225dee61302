/** The call auction: orders accumulated in priority order, and the price that clears them. */
module Auctions {
  import opened Domain

  datatype AuctionOrder = AuctionOrder(
    id: OrderId, user: UserId, side: Side, price: int, qty: int, tif: TIF, seqNum: nat)

  /** Every accepted order has a positive price and quantity. */
  ghost predicate Positive(os: seq<AuctionOrder>) {
    forall i :: 0 <= i < |os| ==> os[i].qty > 0 && os[i].price > 0
  }

  // ----- Accumulation -----

  /** `a` goes strictly before `b`: better price, then earlier number. */
  predicate Precedes(side: Side, a: AuctionOrder, b: AuctionOrder) {
    if a.price == b.price then a.seqNum < b.seqNum else Better(side, a.price, b.price)
  }

  /** No order is preceded by a later one. */
  ghost predicate InPriority(side: Side, os: seq<AuctionOrder>) {
    forall i, j :: 0 <= i < j < |os| ==> !Precedes(side, os[j], os[i])
  }

  /** Behind every order that goes before it. */
  function Joined(side: Side, os: seq<AuctionOrder>, o: AuctionOrder): seq<AuctionOrder> {
    if os == [] || !Precedes(side, o, os[|os| - 1]) then os + [o]
    else Joined(side, os[..|os| - 1], o) + [os[|os| - 1]]
  }

  class AuctionBook {
    var bids: seq<AuctionOrder>
    var asks: seq<AuctionOrder>

    ghost predicate Valid()
      reads this
    {
      InPriority(Bid, bids) && InPriority(Ask, asks)
    }

    constructor ()
      ensures Valid() && bids == [] && asks == []
    {
      bids, asks := [], [];
    }

    /** Append and sort. Only the new order can be out of place, so sorting moves it alone. */
    static method Sorted(os: seq<AuctionOrder>, order: AuctionOrder) returns (r: seq<AuctionOrder>)
      requires InPriority(order.side, os)
      ensures r == Joined(order.side, os, order)
      ensures InPriority(order.side, r) && multiset(r) == multiset(os) + multiset{order}
    {
      r := os + [order];
      var k := |os|;
      while k > 0 && Precedes(order.side, order, r[k - 1])
        invariant 0 <= k < |r| == |os| + 1
        invariant r == os[..k] + [order] + os[k..]
        invariant forall j :: k <= j < |os| ==> Precedes(order.side, order, os[j])
      {
        assert os[..k] == os[..k - 1] + [os[k - 1]] && os[k - 1..] == [os[k - 1]] + os[k..];
        r := r[k := r[k - 1]][k - 1 := order];
        k := k - 1;
      }
      Placed(order.side, os, k, order);
      JoinedAt(order.side, os, k, order);
    }

    /** Both sides stay in priority order; the new order joins its own. */
    method AddOrder(order: AuctionOrder)
      requires Valid()
      modifies this
      ensures Valid()
      ensures bids == if order.side == Bid then Joined(Bid, old(bids), order) else old(bids)
      ensures asks == if order.side == Ask then Joined(Ask, old(asks), order) else old(asks)
      ensures multiset(bids) + multiset(asks) == multiset(old(bids)) + multiset(old(asks)) + multiset{order}
    {
      if order.side == Bid {
        bids := Sorted(bids, order);
      } else {
        asks := Sorted(asks, order);
      }
    }

    method Has(id: OrderId) returns (found: bool)
      ensures found == exists i :: 0 <= i < |bids + asks| && (bids + asks)[i].id == id
    {
      for i := 0 to |bids|
        invariant forall j :: 0 <= j < i ==> bids[j].id != id
      {
        if bids[i].id == id {
          assert (bids + asks)[i].id == id;
          return true;
        }
      }
      for i := 0 to |asks|
        invariant forall j :: 0 <= j < i ==> asks[j].id != id
      {
        if asks[i].id == id {
          assert (bids + asks)[|bids| + i].id == id;
          return true;
        }
      }
      found := false;
    }
  }

  /** Sorting after an append puts the new order behind every order that goes before it. */
  lemma {:induction false} JoinedAt(side: Side, os: seq<AuctionOrder>, k: nat, o: AuctionOrder)
    requires k <= |os| && (k > 0 ==> !Precedes(side, o, os[k - 1]))
    requires forall j :: k <= j < |os| ==> Precedes(side, o, os[j])
    ensures Joined(side, os, o) == os[..k] + [o] + os[k..]
  {
    hide Precedes;
    if k < |os| {
      var f := os[..|os| - 1];
      JoinedAt(side, f, k, o);
      assert f[..k] == os[..k] && f[k..] + [os[|os| - 1]] == os[k..];
    } else {
      assert os[..k] + [o] + os[k..] == os + [o];
    }
  }

  lemma Placed(side: Side, os: seq<AuctionOrder>, k: nat, o: AuctionOrder)
    requires InPriority(side, os) && k <= |os| && (k > 0 ==> !Precedes(side, o, os[k - 1]))
    requires forall j :: k <= j < |os| ==> Precedes(side, o, os[j])
    ensures InPriority(side, os[..k] + [o] + os[k..])
    ensures multiset(os[..k] + [o] + os[k..]) == multiset(os) + multiset{o}
  {
    PlacedMembers(os, k, o);
    PlacedOrder(side, os, k, o);
  }

  lemma PlacedMembers(os: seq<AuctionOrder>, k: nat, o: AuctionOrder)
    requires k <= |os|
    ensures multiset(os[..k] + [o] + os[k..]) == multiset(os) + multiset{o}
  {
    assert os == os[..k] + os[k..];
  }

  lemma PlacedOrder(side: Side, os: seq<AuctionOrder>, k: nat, o: AuctionOrder)
    requires InPriority(side, os) && k <= |os| && (k > 0 ==> !Precedes(side, o, os[k - 1]))
    requires forall j :: k <= j < |os| ==> Precedes(side, o, os[j])
    ensures InPriority(side, os[..k] + [o] + os[k..])
  {
    hide Precedes;
    var r := os[..k] + [o] + os[k..];
    assert r[k] == o && forall i :: 0 <= i < |r| && i != k ==> r[i] == os[if i < k then i else i - 1];
    forall i, j | 0 <= i < j < |r|
      ensures !Precedes(side, r[j], r[i])
    {
      if i == k {
        Asymmetric(side, o, r[j]);
      } else if j == k && i < k - 1 {
        Chain(side, o, os[k - 1], os[i]);
      }
    }
  }

  lemma Chain(side: Side, a: AuctionOrder, b: AuctionOrder, c: AuctionOrder)
    requires !Precedes(side, a, b) && !Precedes(side, b, c)
    ensures !Precedes(side, a, c)
  {
  }

  lemma Asymmetric(side: Side, a: AuctionOrder, b: AuctionOrder)
    ensures !(Precedes(side, a, b) && Precedes(side, b, a))
  {
  }

  // ----- Supply and demand -----

  /** Quantity bid at `p` or above. */
  function CumBid(bids: seq<AuctionOrder>, p: int): int {
    if bids == [] then 0 else CumBid(bids[..|bids| - 1], p) + if bids[|bids| - 1].price >= p then bids[|bids| - 1].qty else 0
  }

  /** Quantity asked at `p` or below. */
  function CumAsk(asks: seq<AuctionOrder>, p: int): int {
    if asks == [] then 0 else CumAsk(asks[..|asks| - 1], p) + if asks[|asks| - 1].price <= p then asks[|asks| - 1].qty else 0
  }

  /** The volume a price executes. */
  function Exec(bids: seq<AuctionOrder>, asks: seq<AuctionOrder>, p: int): int {
    Min(CumBid(bids, p), CumAsk(asks, p))
  }

  function Gap(x: int, y: int): int {
    if x >= y then x - y else y - x
  }

  function Imbalance(bids: seq<AuctionOrder>, asks: seq<AuctionOrder>, p: int): int {
    Gap(CumBid(bids, p), CumAsk(asks, p))
  }

  /** Some order has the price `p`. */
  ghost predicate OrderPrice(bids: seq<AuctionOrder>, asks: seq<AuctionOrder>, p: int) {
    (exists i :: 0 <= i < |bids| && bids[i].price == p) || (exists i :: 0 <= i < |asks| && asks[i].price == p)
  }

  // ----- The clearing price -----

  /** The merit of a price: what it executes, what it leaves over, and how far it is from the reference. */
  datatype Merit = Merit(price: int, exec: int, imbalance: int, distance: int)

  function MeritOf(bids: seq<AuctionOrder>, asks: seq<AuctionOrder>, ref: int, p: int): Merit {
    Merit(p, Exec(bids, asks, p), Imbalance(bids, asks, p), if ref == 0 then 0 else Gap(p, ref))
  }

  /** More volume, then less imbalance, then closer to the reference, then the lower price. */
  predicate Beats(x: Merit, y: Merit) {
    if x.exec != y.exec then x.exec > y.exec
    else if x.imbalance != y.imbalance then x.imbalance < y.imbalance
    else if x.distance != y.distance then x.distance < y.distance
    else x.price < y.price
  }

  datatype Clearing = NoPrice | Clearing(price: int, qty: int)

  /** `c` is the order price that beats every other executable order price, or there is none. */
  ghost predicate Clears(bids: seq<AuctionOrder>, asks: seq<AuctionOrder>, ref: int, c: Clearing) {
    match c
    case NoPrice => forall p :: OrderPrice(bids, asks, p) ==> Exec(bids, asks, p) == 0
    case Clearing(price, qty) =>
      && OrderPrice(bids, asks, price) && qty == Exec(bids, asks, price) && qty > 0
      && forall p :: OrderPrice(bids, asks, p) && p != price && Exec(bids, asks, p) > 0 ==>
           Beats(MeritOf(bids, asks, ref, price), MeritOf(bids, asks, ref, p))
  }

  /** The in-place exchange sort. */
  method SortAscending(prices: array<int>)
    modifies prices
    ensures forall i, j :: 0 <= i < j < prices.Length ==> prices[i] <= prices[j]
    ensures multiset(prices[..]) == multiset(old(prices[..]))
  {
    var i := 0;
    while i < prices.Length - 1
      invariant 0 <= i <= prices.Length
      invariant SortedTo(prices[..], i)
      invariant multiset(prices[..]) == multiset(old(prices[..]))
    {
      var j := i + 1;
      while j < prices.Length
        invariant i < j <= prices.Length
        invariant SortedTo(prices[..], i) && forall k :: i < k < j ==> prices[i] <= prices[k]
        invariant multiset(prices[..]) == multiset(old(prices[..]))
      {
        if prices[i] > prices[j] {
          Exchange(prices, i, j);
        }
        j := j + 1;
      }
      i := i + 1;
    }
  }

  /** The first `i` prices are in order and none of the others is below them. */
  ghost predicate SortedTo(s: seq<int>, i: int) {
    forall a, b :: 0 <= a < i && a < b < |s| ==> s[a] <= s[b]
  }

  method Exchange(prices: array<int>, i: nat, j: nat)
    requires i < j < prices.Length && prices[i] > prices[j] && SortedTo(prices[..], i)
    requires forall k :: i < k < j ==> prices[i] <= prices[k]
    modifies prices
    ensures SortedTo(prices[..], i) && forall k :: i < k <= j ==> prices[i] <= prices[k]
    ensures multiset(prices[..]) == multiset(old(prices[..]))
  {
    prices[i], prices[j] := prices[j], prices[i];
    assert prices[..] == old(prices[..])[i := old(prices[j])][j := old(prices[i])];
  }

  /** The distinct order prices, collected in whatever order the set is ranged over. */
  method CollectPrices(bids: seq<AuctionOrder>, asks: seq<AuctionOrder>) returns (prices: array<int>)
    ensures fresh(prices)
    ensures forall p :: p in prices[..] <==> OrderPrice(bids, asks, p)
    ensures forall i, j :: 0 <= i < j < prices.Length ==> prices[i] != prices[j]
  {
    var priceSet := {};
    for i := 0 to |bids|
      invariant forall p :: p in priceSet <==> OrderPrice(bids[..i], [], p)
    {
      priceSet := priceSet + {bids[i].price};
      assert forall p :: OrderPrice(bids[..i + 1], [], p) ==> p == bids[i].price || OrderPrice(bids[..i], [], p);
      assert bids[..i + 1][i].price == bids[i].price;
      assert forall j :: 0 <= j < i ==> bids[..i + 1][j] == bids[..i][j];
    }
    assert bids[..|bids|] == bids;
    for i := 0 to |asks|
      invariant forall p :: p in priceSet <==> OrderPrice(bids, asks[..i], p)
    {
      priceSet := priceSet + {asks[i].price};
      assert forall p :: OrderPrice(bids, asks[..i + 1], p) ==> p == asks[i].price || OrderPrice(bids, asks[..i], p);
      assert asks[..i + 1][i].price == asks[i].price;
      assert forall j :: 0 <= j < i ==> asks[..i + 1][j] == asks[..i][j];
    }
    assert asks[..|asks|] == asks;
    prices := Listed(priceSet);
  }

  lemma SomeMember(s: set<int>)
    ensures s == {} || exists p :: p in s
  {
    if forall p :: p !in s {
      assert s == {};
    }
  }

  method Listed(all: set<int>) returns (a: array<int>)
    ensures fresh(a) && a.Length == |all|
    ensures forall p :: p in a[..] <==> p in all
    ensures forall i, j :: 0 <= i < j < a.Length ==> a[i] != a[j]
  {
    a := new int[|all|];
    var todo, n := all, 0;
    while todo != {}
      invariant todo <= all && n + |todo| == a.Length == |all|
      invariant forall p :: p in a[..n] <==> p in all && p !in todo
      invariant forall i, j :: 0 <= i < j < n ==> a[i] != a[j]
    {
      SomeMember(todo);
      var p :| p in todo;
      a[n] := p;
      assert a[..n + 1] == a[..n] + [p];
      assert forall i :: 0 <= i < n ==> a[i] in a[..n];
      todo, n := todo - {p}, n + 1;
    }
    assert a[..n] == a[..];
  }

  method CumBidAt(bids: seq<AuctionOrder>, candidate: int) returns (cumBid: int)
    ensures cumBid == CumBid(bids, candidate)
  {
    cumBid := 0;
    for i := 0 to |bids|
      invariant cumBid == CumBid(bids[..i], candidate)
    {
      assert bids[..i + 1][..i] == bids[..i];
      if bids[i].price >= candidate {
        cumBid := cumBid + bids[i].qty;
      }
    }
    assert bids[..|bids|] == bids;
  }

  method CumAskAt(asks: seq<AuctionOrder>, candidate: int) returns (cumAsk: int)
    ensures cumAsk == CumAsk(asks, candidate)
  {
    cumAsk := 0;
    for i := 0 to |asks|
      invariant cumAsk == CumAsk(asks[..i], candidate)
    {
      assert asks[..i + 1][..i] == asks[..i];
      if asks[i].price <= candidate {
        cumAsk := cumAsk + asks[i].qty;
      }
    }
    assert asks[..|asks|] == asks;
  }

  /** The best of the first `k` prices so far. */
  ghost predicate BestOf(bids: seq<AuctionOrder>, asks: seq<AuctionOrder>, ref: int, prices: seq<int>, c: Clearing) {
    match c
    case NoPrice => forall i :: 0 <= i < |prices| ==> Exec(bids, asks, prices[i]) == 0
    case Clearing(price, qty) =>
      && price in prices && qty == Exec(bids, asks, price) && qty > 0
      && forall i :: 0 <= i < |prices| && prices[i] != price && Exec(bids, asks, prices[i]) > 0 ==>
           Beats(MeritOf(bids, asks, ref, price), MeritOf(bids, asks, ref, prices[i]))
  }

  /** Does the candidate, above the best price so far, take its place? */
  predicate TakesOver(best: Merit, cand: Merit, ref: int) {
    || cand.exec > best.exec
    || (cand.exec == best.exec && cand.imbalance < best.imbalance)
    || (ref != 0 && cand.exec == best.exec && cand.imbalance == best.imbalance
        && (Gap(cand.price, ref) < Gap(best.price, ref) || (Gap(cand.price, ref) == Gap(best.price, ref) && cand.price == ref)))
  }

  /** One more candidate, above all earlier ones. */
  lemma Consider(bids: seq<AuctionOrder>, asks: seq<AuctionOrder>, ref: int, ps: seq<int>, p: int, c: Clearing)
    requires BestOf(bids, asks, ref, ps, c) && (forall i :: 0 <= i < |ps| ==> ps[i] < p) && Exec(bids, asks, p) >= 0
    ensures Exec(bids, asks, p) == 0 ==> BestOf(bids, asks, ref, ps + [p], c)
    ensures Exec(bids, asks, p) != 0 ==>
              var cand := Merit(p, Exec(bids, asks, p), Imbalance(bids, asks, p), 0);
              BestOf(bids, asks, ref, ps + [p],
                     if c.NoPrice? || TakesOver(Merit(c.price, c.qty, Imbalance(bids, asks, c.price), 0), cand, ref) then Clearing(p, cand.exec) else c)
  {
    hide Exec, Imbalance;
    assert (ps + [p])[|ps|] == p;
    forall i | 0 <= i < |ps + [p]|
      ensures (ps + [p])[i] == if i < |ps| then ps[i] else p
    {
    }
    if c.Clearing? {
      assert c.price in ps && c.price in ps + [p];
    }
  }

  lemma BestIsClearing(bids: seq<AuctionOrder>, asks: seq<AuctionOrder>, ref: int, ps: seq<int>, c: Clearing)
    requires BestOf(bids, asks, ref, ps, c) && forall p :: p in ps <==> OrderPrice(bids, asks, p)
    ensures Clears(bids, asks, ref, c)
  {
    hide Exec, MeritOf, Beats;
    forall p | OrderPrice(bids, asks, p)
      ensures exists i :: 0 <= i < |ps| && ps[i] == p
    {
      assert p in ps;
    }
  }

  /** Scan the order prices upward for the one with the most merit. */
  method ComputeClearingPrice(bids: seq<AuctionOrder>, asks: seq<AuctionOrder>, refPrice: int) returns (c: Clearing)
    requires Positive(bids) && Positive(asks)
    ensures Clears(bids, asks, refPrice, c)
  {
    hide Clears, BestOf, OrderPrice, CumBid, CumAsk, TakesOver;
    if |bids| == 0 || |asks| == 0 {
      NoneClears(bids, asks, refPrice);
      return NoPrice;
    }
    var prices := CollectPrices(bids, asks);
    ghost var listed := prices[..];
    SortAscending(prices);
    SameMembers(listed, prices[..]);
    StrictlyAscending(listed, prices[..]);
    c := NoPrice;
    NothingBest(bids, asks, refPrice);
    var bestImbalance := 0;
    for k := 0 to prices.Length
      invariant BestOf(bids, asks, refPrice, prices[..k], c)
      invariant c.Clearing? ==> bestImbalance == Imbalance(bids, asks, c.price)
      invariant forall i, j :: 0 <= i < j < prices.Length ==> prices[i] < prices[j]
      invariant forall p :: p in prices[..] <==> OrderPrice(bids, asks, p)
    {
      var candidate := prices[k];
      assert prices[..k + 1] == prices[..k] + [candidate];
      var cumBid := CumBidAt(bids, candidate);
      var cumAsk := CumAskAt(asks, candidate);
      var execQty := cumBid;
      if cumAsk < execQty {
        execQty := cumAsk;
      }
      CumNonNegative(bids, asks, candidate);
      Consider(bids, asks, refPrice, prices[..k], candidate, c);
      if execQty != 0 {
        var imbalance := Gap(cumBid, cumAsk);
        var cand := Merit(candidate, execQty, imbalance, 0);
        if c.NoPrice? || TakesOver(Merit(c.price, c.qty, bestImbalance, 0), cand, refPrice) {
          c, bestImbalance := Clearing(candidate, execQty), imbalance;
        }
      }
    }
    assert prices[..prices.Length] == prices[..];
    BestIsClearing(bids, asks, refPrice, prices[..], c);
  }

  lemma NothingBest(bids: seq<AuctionOrder>, asks: seq<AuctionOrder>, ref: int)
    ensures BestOf(bids, asks, ref, [], NoPrice)
  {
  }

  lemma NoneClears(bids: seq<AuctionOrder>, asks: seq<AuctionOrder>, ref: int)
    requires Positive(bids) && Positive(asks) && (bids == [] || asks == [])
    ensures Clears(bids, asks, ref, NoPrice)
  {
    NoneWithout(bids, asks);
  }

  lemma SameMembers(a: seq<int>, b: seq<int>)
    requires multiset(a) == multiset(b)
    ensures forall p :: p in a <==> p in b
  {
    forall p
      ensures p in a <==> p in b
    {
      assert p in multiset(a) <==> p in multiset(b);
    }
  }

  lemma StrictlyAscending(a: seq<int>, b: seq<int>)
    requires multiset(a) == multiset(b)
    requires forall i, j :: 0 <= i < j < |a| ==> a[i] != a[j]
    requires forall i, j :: 0 <= i < j < |b| ==> b[i] <= b[j]
    ensures forall i, j :: 0 <= i < j < |b| ==> b[i] < b[j]
  {
    forall i, j | 0 <= i < j < |b|
      ensures b[i] < b[j]
    {
      if b[i] == b[j] {
        assert b == b[..i] + [b[i]] + b[i + 1..j] + [b[j]] + b[j + 1..];
        assert multiset(b)[b[i]] >= 2;
        DistinctOnce(a, b[i]);
      }
    }
  }

  lemma {:induction false} DistinctOnce(a: seq<int>, x: int)
    requires forall i, j :: 0 <= i < j < |a| ==> a[i] != a[j]
    ensures multiset(a)[x] <= 1
  {
    if a != [] {
      DistinctOnce(a[1..], x);
      assert a == [a[0]] + a[1..];
      assert a[0] == x ==> x !in a[1..];
    }
  }

  lemma {:induction false} NoneWithout(bids: seq<AuctionOrder>, asks: seq<AuctionOrder>)
    requires Positive(bids) && Positive(asks) && (bids == [] || asks == [])
    ensures forall p :: Exec(bids, asks, p) == 0
  {
    forall p
      ensures Exec(bids, asks, p) == 0
    {
      CumNonNegative(bids, asks, p);
    }
  }

  lemma {:induction false} CumNonNegative(bids: seq<AuctionOrder>, asks: seq<AuctionOrder>, p: int)
    requires Positive(bids) && Positive(asks)
    ensures CumBid(bids, p) >= 0 && CumAsk(asks, p) >= 0
    decreases |bids| + |asks|
  {
    if bids != [] {
      CumNonNegative(bids[..|bids| - 1], asks, p);
    }
    if asks != [] {
      CumNonNegative(bids, asks[..|asks| - 1], p);
    }
  }
}
