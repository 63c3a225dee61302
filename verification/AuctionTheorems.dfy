/** What the clearing price guarantees over all prices, not only those of the orders. */
module AuctionTheorems {
  import opened Domain
  import opened Auctions

  function BidPart(o: AuctionOrder, p: int): int {
    if o.price >= p then o.qty else 0
  }

  function AskPart(o: AuctionOrder, p: int): int {
    if o.price <= p then o.qty else 0
  }

  // ----- The curves -----

  /** Demand falls and supply rises with the price. */
  lemma {:induction false} BidsFall(bids: seq<AuctionOrder>, p: int, q: int)
    requires Positive(bids) && p <= q
    ensures CumBid(bids, q) <= CumBid(bids, p)
    ensures (forall i :: 0 <= i < |bids| ==> !(p <= bids[i].price < q)) ==> CumBid(bids, q) == CumBid(bids, p)
  {
    if bids != [] {
      BidsFall(bids[..|bids| - 1], p, q);
    }
  }

  lemma {:induction false} AsksRise(asks: seq<AuctionOrder>, p: int, q: int)
    requires Positive(asks) && p <= q
    ensures CumAsk(asks, p) <= CumAsk(asks, q)
    ensures (forall i :: 0 <= i < |asks| ==> !(p < asks[i].price <= q)) ==> CumAsk(asks, q) == CumAsk(asks, p)
  {
    if asks != [] {
      AsksRise(asks[..|asks| - 1], p, q);
    }
  }

  /** The lowest bid price at or above `p`: demand is the same there. */
  lemma LowestBid(bids: seq<AuctionOrder>, p: int) returns (i: nat)
    requires Positive(bids) && CumBid(bids, p) > 0
    ensures i < |bids| && bids[i].price >= p && CumBid(bids, bids[i].price) == CumBid(bids, p)
  {
    i := SomeBid(bids, p);
    for k := 0 to |bids|
      invariant i < |bids| && bids[i].price >= p
      invariant forall j :: 0 <= j < k && bids[j].price >= p ==> bids[j].price >= bids[i].price
    {
      if p <= bids[k].price < bids[i].price {
        i := k;
      }
    }
    BidsFall(bids, p, bids[i].price);
  }

  lemma {:induction false} SomeBid(bids: seq<AuctionOrder>, p: int) returns (i: nat)
    requires CumBid(bids, p) > 0
    ensures i < |bids| && bids[i].price >= p
  {
    if bids[|bids| - 1].price >= p {
      i := |bids| - 1;
    } else {
      i := SomeBid(bids[..|bids| - 1], p);
    }
  }

  /** The highest ask price at or below `p`: supply is the same there. */
  lemma HighestAsk(asks: seq<AuctionOrder>, p: int) returns (i: nat)
    requires Positive(asks) && CumAsk(asks, p) > 0
    ensures i < |asks| && asks[i].price <= p && CumAsk(asks, asks[i].price) == CumAsk(asks, p)
  {
    i := SomeAsk(asks, p);
    for k := 0 to |asks|
      invariant i < |asks| && asks[i].price <= p
      invariant forall j :: 0 <= j < k && asks[j].price <= p ==> asks[j].price <= asks[i].price
    {
      if asks[i].price < asks[k].price <= p {
        i := k;
      }
    }
    AsksRise(asks, asks[i].price, p);
  }

  lemma {:induction false} SomeAsk(asks: seq<AuctionOrder>, p: int) returns (i: nat)
    requires CumAsk(asks, p) > 0
    ensures i < |asks| && asks[i].price <= p
  {
    if asks[|asks| - 1].price <= p {
      i := |asks| - 1;
    } else {
      i := SomeAsk(asks[..|asks| - 1], p);
    }
  }

  // ----- Optimality -----

  /** The volume of the clearing price is the most any price at all can execute; without one, no price executes anything. */
  lemma MaximalVolume(bids: seq<AuctionOrder>, asks: seq<AuctionOrder>, ref: int, c: Clearing, p: int)
    requires Positive(bids) && Positive(asks) && Clears(bids, asks, ref, c)
    ensures Exec(bids, asks, p) <= if c.Clearing? then c.qty else 0
  {
    if Exec(bids, asks, p) > 0 {
      var i := LowestBid(bids, p);
      var b := bids[i].price;
      AsksRise(asks, p, b);
      assert OrderPrice(bids, asks, b);
      assert Exec(bids, asks, b) >= Exec(bids, asks, p);
    }
  }

  /** One is found exactly when some bid price is at least some ask price. */
  lemma FoundExactly(bids: seq<AuctionOrder>, asks: seq<AuctionOrder>, ref: int, c: Clearing)
    requires Positive(bids) && Positive(asks) && Clears(bids, asks, ref, c)
    ensures c.Clearing? <==> exists i, j :: 0 <= i < |bids| && 0 <= j < |asks| && bids[i].price >= asks[j].price
  {
    if c.Clearing? {
      CumNonNegative(bids, asks, c.price);
      var i := LowestBid(bids, c.price);
      var j := HighestAsk(asks, c.price);
      assert bids[i].price >= asks[j].price;
    }
    if i, j :| 0 <= i < |bids| && 0 <= j < |asks| && bids[i].price >= asks[j].price {
      PartOf(bids, asks, bids[i].price);
      AsksRise(asks, asks[j].price, bids[i].price);
      MaximalVolume(bids, asks, ref, c, bids[i].price);
    }
  }

  /** Whoever is within a price counts toward it. */
  lemma {:induction false} PartOf(bids: seq<AuctionOrder>, asks: seq<AuctionOrder>, p: int)
    requires Positive(bids) && Positive(asks)
    ensures forall i :: 0 <= i < |bids| && bids[i].price >= p ==> CumBid(bids, p) >= bids[i].qty
    ensures forall i :: 0 <= i < |asks| && asks[i].price <= p ==> CumAsk(asks, p) >= asks[i].qty
    decreases |bids| + |asks|
  {
    CumNonNegative(bids, asks, p);
    if bids != [] {
      var f := bids[..|bids| - 1];
      PartOf(f, asks, p);
      CumNonNegative(f, asks, p);
      assert forall i :: 0 <= i < |f| ==> f[i] == bids[i];
    }
    if asks != [] {
      var f := asks[..|asks| - 1];
      PartOf(bids, f, p);
      CumNonNegative(bids, f, p);
      assert forall i :: 0 <= i < |f| ==> f[i] == asks[i];
    }
  }

  // ----- Uniqueness -----

  lemma BeatsIsTotal(x: Merit, y: Merit)
    ensures !(Beats(x, y) && Beats(y, x))
  {
  }

  /** At most one result clears, so neither the order of iteration nor the sort matters. */
  lemma ClearingUnique(bids: seq<AuctionOrder>, asks: seq<AuctionOrder>, ref: int, c: Clearing, d: Clearing)
    requires Clears(bids, asks, ref, c) && Clears(bids, asks, ref, d)
    ensures c == d
  {
    if c.Clearing? && d.Clearing? && c.price != d.price {
      BeatsIsTotal(MeritOf(bids, asks, ref, c.price), MeritOf(bids, asks, ref, d.price));
    }
  }

  lemma CumSplit(a: seq<AuctionOrder>, b: seq<AuctionOrder>, p: int)
    ensures CumBid(a + b, p) == CumBid(a, p) + CumBid(b, p)
    ensures CumAsk(a + b, p) == CumAsk(a, p) + CumAsk(b, p)
  {
    if b == [] {
      assert a + b == a;
    } else {
      var f := b[..|b| - 1];
      assert (a + b)[..|a + b| - 1] == a + f;
      CumSplit(a, f, p);
    }
  }

  lemma CumOne(o: AuctionOrder, p: int)
    ensures CumBid([o], p) == BidPart(o, p) && CumAsk([o], p) == AskPart(o, p)
  {
    assert [o][..0] == [];
  }

  /** Both curves, and the multiset of orders, without the order in place `k`. */
  lemma CumWithout(s: seq<AuctionOrder>, k: nat, p: int)
    requires k < |s|
    ensures var rest := s[..k] + s[k + 1..];
            CumBid(s, p) == CumBid(rest, p) + BidPart(s[k], p) && CumAsk(s, p) == CumAsk(rest, p) + AskPart(s[k], p)
  {
    hide CumBid, CumAsk;
    assert s == s[..k] + ([s[k]] + s[k + 1..]);
    CumSplit(s[..k], [s[k]] + s[k + 1..], p);
    CumSplit([s[k]], s[k + 1..], p);
    CumSplit(s[..k], s[k + 1..], p);
    CumOne(s[k], p);
  }

  lemma MembersWithout(s: seq<AuctionOrder>, k: nat)
    requires k < |s|
    ensures multiset(s[..k] + s[k + 1..]) == multiset(s) - multiset{s[k]}
  {
    assert s == s[..k] + [s[k]] + s[k + 1..];
  }

  /** The curves do not depend on the order in which the orders came. */
  lemma {:induction false} CumReordered(a: seq<AuctionOrder>, b: seq<AuctionOrder>, p: int)
    requires multiset(a) == multiset(b)
    ensures CumBid(a, p) == CumBid(b, p) && CumAsk(a, p) == CumAsk(b, p)
  {
    hide CumBid, CumAsk, BidPart, AskPart;
    if a == [] {
      assert |multiset(b)| == 0;
    } else {
      var k := PlaceOf(a, b);
      CumWithout(a, 0, p);
      CumWithout(b, k, p);
      MembersWithout(a, 0);
      MembersWithout(b, k);
      CumReordered(a[..0] + a[1..], b[..k] + b[k + 1..], p);
    }
  }

  lemma PlaceOf(a: seq<AuctionOrder>, b: seq<AuctionOrder>) returns (k: nat)
    requires multiset(a) == multiset(b) && a != []
    ensures k < |b| && b[k] == a[0]
  {
    assert a[0] in multiset(b);
    k :| 0 <= k < |b| && b[k] == a[0];
  }

  lemma SamePrices(a: seq<AuctionOrder>, b: seq<AuctionOrder>, p: int)
    requires multiset(a) == multiset(b) && exists i :: 0 <= i < |a| && a[i].price == p
    ensures exists i :: 0 <= i < |b| && b[i].price == p
  {
    var i :| 0 <= i < |a| && a[i].price == p;
    assert a[i] in multiset(b);
  }

  /** The result is the same for any arrival order of the same orders. */
  lemma ClearingReordered(bids: seq<AuctionOrder>, asks: seq<AuctionOrder>, bids': seq<AuctionOrder>, asks': seq<AuctionOrder>,
                          ref: int, c: Clearing, d: Clearing)
    requires multiset(bids) == multiset(bids') && multiset(asks) == multiset(asks')
    requires Clears(bids, asks, ref, c) && Clears(bids', asks', ref, d)
    ensures c == d
  {
    forall p
      ensures Exec(bids, asks, p) == Exec(bids', asks', p) && MeritOf(bids, asks, ref, p) == MeritOf(bids', asks', ref, p)
      ensures OrderPrice(bids, asks, p) <==> OrderPrice(bids', asks', p)
    {
      CumReordered(bids, bids', p);
      CumReordered(asks, asks', p);
      if OrderPrice(bids, asks, p) || OrderPrice(bids', asks', p) {
        if exists i :: 0 <= i < |bids| && bids[i].price == p { SamePrices(bids, bids', p); }
        if exists i :: 0 <= i < |asks| && asks[i].price == p { SamePrices(asks, asks', p); }
        if exists i :: 0 <= i < |bids'| && bids'[i].price == p { SamePrices(bids', bids, p); }
        if exists i :: 0 <= i < |asks'| && asks'[i].price == p { SamePrices(asks', asks, p); }
      }
    }
    ClearsSame(bids, asks, bids', asks', ref, d);
    ClearingUnique(bids, asks, ref, c, d);
  }

  lemma ClearsSame(bids: seq<AuctionOrder>, asks: seq<AuctionOrder>, bids': seq<AuctionOrder>, asks': seq<AuctionOrder>,
                   ref: int, d: Clearing)
    requires Clears(bids', asks', ref, d)
    requires forall p :: Exec(bids, asks, p) == Exec(bids', asks', p) && MeritOf(bids, asks, ref, p) == MeritOf(bids', asks', ref, p)
    requires forall p :: OrderPrice(bids, asks, p) <==> OrderPrice(bids', asks', p)
    ensures Clears(bids, asks, ref, d)
  {
    hide Exec, MeritOf, Beats, OrderPrice;
  }

  // ----- The imbalance tie-break looks at order prices only -----

  /** Demand and supply meet at `p`. */
  predicate Balanced(bids: seq<AuctionOrder>, asks: seq<AuctionOrder>, p: int) {
    CumBid(bids, p) == CumAsk(asks, p) > 0
  }

  /** A price between the orders' own can do better on imbalance only by balancing perfectly. */
  lemma BetweenPrices(bids: seq<AuctionOrder>, asks: seq<AuctionOrder>, ref: int, c: Clearing, p: int)
    requires Positive(bids) && Positive(asks) && Clears(bids, asks, ref, c) && c.Clearing?
    requires Exec(bids, asks, p) == c.qty
    ensures Imbalance(bids, asks, p) >= Imbalance(bids, asks, c.price) || Balanced(bids, asks, p)
  {
    var i := LowestBid(bids, p);
    var j := HighestAsk(asks, p);
    var b, a := bids[i].price, asks[j].price;
    AsksRise(asks, p, b);
    BidsFall(bids, a, p);
    assert OrderPrice(bids, asks, a) && OrderPrice(bids, asks, b);
    MaximalVolume(bids, asks, ref, c, a);
    MaximalVolume(bids, asks, ref, c, b);
  }

  /** If demand and supply meet at all, they do so at some order price. */
  ghost predicate MeetsAtOrderPrice(bids: seq<AuctionOrder>, asks: seq<AuctionOrder>) {
    (exists p :: Balanced(bids, asks, p)) ==> exists p :: OrderPrice(bids, asks, p) && Balanced(bids, asks, p)
  }

  /** The chosen price is least imbalanced among all prices of that volume exactly when demand and supply
      meet at some order price or at no price. */
  lemma LeastImbalance(bids: seq<AuctionOrder>, asks: seq<AuctionOrder>, ref: int, c: Clearing)
    requires Positive(bids) && Positive(asks) && Clears(bids, asks, ref, c) && c.Clearing?
    ensures (forall p :: Exec(bids, asks, p) == c.qty ==> Imbalance(bids, asks, p) >= Imbalance(bids, asks, c.price))
       <==> MeetsAtOrderPrice(bids, asks)
  {
    forall p | Balanced(bids, asks, p)
      ensures Exec(bids, asks, p) == c.qty && Imbalance(bids, asks, p) == 0
    {
      MaximalVolume(bids, asks, ref, c, p);
      if c.price >= p {
        BidsFall(bids, p, c.price);
      } else {
        AsksRise(asks, c.price, p);
      }
    }
    forall p | Exec(bids, asks, p) == c.qty
      ensures Imbalance(bids, asks, p) >= Imbalance(bids, asks, c.price) || Balanced(bids, asks, p)
    {
      BetweenPrices(bids, asks, ref, c, p);
    }
    forall p | OrderPrice(bids, asks, p) && Balanced(bids, asks, p)
      ensures Balanced(bids, asks, c.price)
    {
      assert p == c.price || Beats(MeritOf(bids, asks, ref, c.price), MeritOf(bids, asks, ref, p));
    }
  }

  // ----- So does the reference tie-break -----

  /** `p` executes as much as the chosen price and leaves as much over. */
  predicate Tied(bids: seq<AuctionOrder>, asks: seq<AuctionOrder>, c: Clearing, p: int) {
    c.Clearing? && Exec(bids, asks, p) == c.qty && Imbalance(bids, asks, p) == Imbalance(bids, asks, c.price)
  }

  /** The reference itself, an order price, or a tick beside one. */
  ghost predicate Candidate(bids: seq<AuctionOrder>, asks: seq<AuctionOrder>, ref: int, p: int) {
    p == ref || OrderPrice(bids, asks, p) || OrderPrice(bids, asks, p - 1) || OrderPrice(bids, asks, p + 1)
  }

  /** Where neither a bid nor an ask stands between two ticks, nothing changes from one to the other. */
  lemma {:induction false} QuietTick(bids: seq<AuctionOrder>, asks: seq<AuctionOrder>, p: int)
    requires (forall i :: 0 <= i < |bids| ==> bids[i].price != p) && forall i :: 0 <= i < |asks| ==> asks[i].price != p + 1
    ensures CumBid(bids, p) == CumBid(bids, p + 1) && CumAsk(asks, p) == CumAsk(asks, p + 1)
  {
    QuietBids(bids, p);
    QuietAsks(asks, p);
  }

  lemma {:induction false} QuietBids(bids: seq<AuctionOrder>, p: int)
    requires forall i :: 0 <= i < |bids| ==> bids[i].price != p
    ensures CumBid(bids, p) == CumBid(bids, p + 1)
  {
    if bids != [] {
      QuietBids(bids[..|bids| - 1], p);
    }
  }

  lemma {:induction false} QuietAsks(asks: seq<AuctionOrder>, p: int)
    requires forall i :: 0 <= i < |asks| ==> asks[i].price != p + 1
    ensures CumAsk(asks, p) == CumAsk(asks, p + 1)
  {
    if asks != [] {
      QuietAsks(asks[..|asks| - 1], p);
    }
  }

  /** From a tied price, walking towards the reference, one ends at a tied candidate that is no farther. */
  lemma {:induction false} WalkTo(bids: seq<AuctionOrder>, asks: seq<AuctionOrder>, ref: int, c: Clearing, p: int) returns (q: int)
    requires Tied(bids, asks, c, p)
    ensures Tied(bids, asks, c, q) && Candidate(bids, asks, ref, q) && Gap(q, ref) <= Gap(p, ref)
    decreases Gap(p, ref)
  {
    hide CumBid, CumAsk;
    var next := if p < ref then p + 1 else p - 1;
    if Candidate(bids, asks, ref, p) {
      q := p;
    } else {
      assert !OrderPrice(bids, asks, p) && !OrderPrice(bids, asks, p + 1) && !OrderPrice(bids, asks, p - 1);
      QuietTick(bids, asks, if p < ref then p else p - 1);
      q := WalkTo(bids, asks, ref, c, next);
    }
  }

  /** An order price that no order price beats on volume and then on imbalance. */
  ghost predicate Best(bids: seq<AuctionOrder>, asks: seq<AuctionOrder>, q: int) {
    OrderPrice(bids, asks, q) && forall p :: OrderPrice(bids, asks, p) ==>
      Exec(bids, asks, p) < Exec(bids, asks, q)
      || (Exec(bids, asks, p) == Exec(bids, asks, q) && Imbalance(bids, asks, p) >= Imbalance(bids, asks, q))
  }

  /** `p` executes as much as the best order prices and leaves as much over. */
  ghost predicate AsGood(bids: seq<AuctionOrder>, asks: seq<AuctionOrder>, p: int) {
    exists q :: Best(bids, asks, q) && Exec(bids, asks, p) == Exec(bids, asks, q) && Imbalance(bids, asks, p) == Imbalance(bids, asks, q)
  }

  /** Some best order price is as near to the reference as `p`. */
  ghost predicate Matched(bids: seq<AuctionOrder>, asks: seq<AuctionOrder>, ref: int, p: int) {
    exists q :: Best(bids, asks, q) && Gap(q, ref) <= Gap(p, ref)
  }

  /** The chosen price is a best order price, the nearest of them, and they all do equally well. */
  lemma ChosenBest(bids: seq<AuctionOrder>, asks: seq<AuctionOrder>, ref: int, c: Clearing)
    requires Clears(bids, asks, ref, c) && c.Clearing? && ref != 0
    ensures Best(bids, asks, c.price)
    ensures forall q :: Best(bids, asks, q) ==> Tied(bids, asks, c, q) && Gap(c.price, ref) <= Gap(q, ref)
  {
    hide Exec, Imbalance, OrderPrice, Gap;
    forall p | OrderPrice(bids, asks, p)
      ensures Exec(bids, asks, p) < c.qty
              || (Exec(bids, asks, p) == c.qty && Imbalance(bids, asks, p) >= Imbalance(bids, asks, c.price))
    {
      assert p == c.price || Exec(bids, asks, p) <= 0 || Beats(MeritOf(bids, asks, ref, c.price), MeritOf(bids, asks, ref, p));
    }
    forall q | Best(bids, asks, q)
      ensures Tied(bids, asks, c, q) && Gap(c.price, ref) <= Gap(q, ref)
    {
      assert q == c.price || Exec(bids, asks, q) <= 0 || Beats(MeritOf(bids, asks, ref, c.price), MeritOf(bids, asks, ref, q));
    }
  }

  /** The chosen price is the nearest to the reference among all prices that do as well - quoted or not - exactly
      when every candidate that does as well as the best order prices has one of these at least as near. */
  lemma NearestExactly(bids: seq<AuctionOrder>, asks: seq<AuctionOrder>, ref: int, c: Clearing)
    requires Positive(bids) && Positive(asks) && Clears(bids, asks, ref, c) && c.Clearing? && ref != 0
    ensures (forall p :: Exec(bids, asks, p) == c.qty && Imbalance(bids, asks, p) == Imbalance(bids, asks, c.price) ==>
                           Gap(c.price, ref) <= Gap(p, ref))
       <==> forall p :: Candidate(bids, asks, ref, p) && AsGood(bids, asks, p) ==> Matched(bids, asks, ref, p)
  {
    hide Candidate, Best, Exec, Imbalance, Gap, Clears;
    ChosenBest(bids, asks, ref, c);
    PriceAndVolume(bids, asks, ref, c);
    if forall p :: Candidate(bids, asks, ref, p) && AsGood(bids, asks, p) ==> Matched(bids, asks, ref, p) {
      forall p | Exec(bids, asks, p) == c.qty && Imbalance(bids, asks, p) == Imbalance(bids, asks, c.price)
        ensures Gap(c.price, ref) <= Gap(p, ref)
      {
        var x := WalkTo(bids, asks, ref, c, p);
        assert AsGood(bids, asks, x);
        var q :| Best(bids, asks, q) && Gap(q, ref) <= Gap(x, ref);
      }
    }
    if forall p :: Exec(bids, asks, p) == c.qty && Imbalance(bids, asks, p) == Imbalance(bids, asks, c.price) ==> Gap(c.price, ref) <= Gap(p, ref) {
      forall p | Candidate(bids, asks, ref, p) && AsGood(bids, asks, p)
        ensures Matched(bids, asks, ref, p)
      {
        var q :| Best(bids, asks, q) && Exec(bids, asks, p) == Exec(bids, asks, q) && Imbalance(bids, asks, p) == Imbalance(bids, asks, q);
        assert Tied(bids, asks, c, q);
      }
    }
  }

  lemma PriceAndVolume(bids: seq<AuctionOrder>, asks: seq<AuctionOrder>, ref: int, c: Clearing)
    requires Clears(bids, asks, ref, c) && c.Clearing?
    ensures c.qty == Exec(bids, asks, c.price)
  {
  }

  function Simple(id: OrderId, side: Side, price: int, qty: int, seqNum: nat): AuctionOrder {
    AuctionOrder(id, id, side, price, qty, GTC, seqNum)
  }

  /** Bids 10 at 105 and 5 at 95 against asks 10 at 95 and 5 at 105: the order prices execute 10 and leave
      5 over, while every price between them executes the same 10 and leaves nothing. */
  lemma ImbalanceBetweenOrderPrices()
    ensures var bids, asks := [Simple("a", Bid, 105, 10, 1), Simple("b", Bid, 95, 5, 2)], [Simple("c", Ask, 95, 10, 3), Simple("d", Ask, 105, 5, 4)];
            && Clears(bids, asks, 0, Clearing(95, 10)) && Imbalance(bids, asks, 95) == 5
            && Exec(bids, asks, 100) == 10 && Imbalance(bids, asks, 100) == 0
  {
    var x, y, u, v := Simple("a", Bid, 105, 10, 1), Simple("b", Bid, 95, 5, 2), Simple("c", Ask, 95, 10, 3), Simple("d", Ask, 105, 5, 4);
    var bids, asks := [x] + [y], [u] + [v];
    forall p
      ensures CumBid(bids, p) == BidPart(x, p) + BidPart(y, p) && CumAsk(asks, p) == AskPart(u, p) + AskPart(v, p)
    {
      CumSplit([x], [y], p);
      CumSplit([u], [v], p);
      CumOne(x, p);
      CumOne(y, p);
      CumOne(u, p);
      CumOne(v, p);
    }
    assert bids == [x, y] && asks == [u, v];
    assert bids[1].price == 95;
    assert forall p :: OrderPrice(bids, asks, p) ==> p == 95 || p == 105;
  }

  /** A bid 10 at 105 against an ask 10 at 95, with the reference at 100: the choice is 95, five away, while 100
      itself executes the same 10 and leaves as little over. */
  lemma ReferenceBetweenOrderPrices()
    ensures var bids, asks := [Simple("a", Bid, 105, 10, 1)], [Simple("b", Ask, 95, 10, 2)];
            && Clears(bids, asks, 100, Clearing(95, 10)) && Gap(95, 100) == 5 && Gap(100, 100) == 0
            && Exec(bids, asks, 100) == 10 && Imbalance(bids, asks, 100) == Imbalance(bids, asks, 95)
  {
    var x, u := Simple("a", Bid, 105, 10, 1), Simple("b", Ask, 95, 10, 2);
    forall p
      ensures CumBid([x], p) == BidPart(x, p) && CumAsk([u], p) == AskPart(u, p)
    {
      CumOne(x, p);
      CumOne(u, p);
    }
    assert [u][0].price == 95;
    assert forall p :: OrderPrice([x], [u], p) ==> p == 95 || p == 105;
    hide CumBid, CumAsk;
  }
}
