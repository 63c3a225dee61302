/** What the sweep does with the orders at the computed price. */
module AuctionResults {
  import opened Domain
  import opened Auctions
  import opened AuctionTheorems
  import opened AuctionSweep
  import opened MatchQuantities

  // ----- The announced quantity -----

  lemma {:induction false} TotalConcat(a: seq<AuctionOrder>, b: seq<AuctionOrder>)
    ensures Total(a + b) == Total(a) + Total(b)
  {
    if a == [] {
      assert a + b == b;
    } else {
      assert (a + b)[1..] == a[1..] + b;
      TotalConcat(a[1..], b);
    }
  }

  lemma {:induction false} TotalEligible(os: seq<AuctionOrder>, p: int)
    ensures Total(Eligible(Bid, os, p)) == CumBid(os, p) && Total(Eligible(Ask, os, p)) == CumAsk(os, p)
  {
    if os != [] {
      var f, o := os[..|os| - 1], os[|os| - 1];
      TotalEligible(f, p);
      TotalConcat(Eligible(Bid, f, p), [o]);
      TotalConcat(Eligible(Ask, f, p), [o]);
    }
  }

  /** The sweep at the computed price executes exactly the announced quantity, and without a price nothing. */
  lemma AnnouncedVolume(bids: seq<AuctionOrder>, asks: seq<AuctionOrder>, ref: int, c: Clearing)
    requires Positive(bids) && Positive(asks) && Clears(bids, asks, ref, c)
    ensures c.Clearing? ==> Volume(bids, asks, c.price) == c.qty
    ensures c.NoPrice? ==> Volume(bids, asks, 0) == 0
  {
    TotalEligible(bids, if c.Clearing? then c.price else 0);
    TotalEligible(asks, if c.Clearing? then c.price else 0);
    CumNonNegative(bids, asks, 0);
    MaximalVolume(bids, asks, ref, c, 0);
  }

  // ----- Where each order's quantity went -----

  function QtyOf(os: seq<AuctionOrder>, id: OrderId): int {
    if os == [] then 0 else QtyOf(os[..|os| - 1], id) + if os[|os| - 1].id == id then os[|os| - 1].qty else 0
  }

  lemma {:induction false} QtyConcat(a: seq<AuctionOrder>, b: seq<AuctionOrder>, id: OrderId)
    ensures QtyOf(a + b, id) == QtyOf(a, id) + QtyOf(b, id)
  {
    if b == [] {
      assert a + b == a;
    } else {
      assert (a + b)[..|a + b| - 1] == a + b[..|b| - 1];
      QtyConcat(a, b[..|b| - 1], id);
    }
  }

  lemma {:induction false} FillsConcat(a: seq<Fill>, b: seq<Fill>, id: OrderId)
    ensures TakerQty(a + b, id) == TakerQty(a, id) + TakerQty(b, id)
    ensures MakerQty(a + b, id) == MakerQty(a, id) + MakerQty(b, id)
  {
    if b == [] {
      assert a + b == a;
    } else {
      assert (a + b)[..|a + b| - 1] == a + b[..|b| - 1];
      FillsConcat(a, b[..|b| - 1], id);
    }
  }

  lemma FillsCons(f: Fill, b: seq<Fill>, id: OrderId)
    ensures TakerQty([f] + b, id) == (if f.takerId == id then f.qty else 0) + TakerQty(b, id)
    ensures MakerQty([f] + b, id) == (if f.makerId == id then f.qty else 0) + MakerQty(b, id)
  {
    FillsConcat([f], b, id);
    assert [f][..0] == [];
  }

  /** Quantity left under `id`, order by order. */
  function LeftQty(os: seq<AuctionOrder>, left: seq<int>, id: OrderId): int
    requires |os| == |left|
  {
    if os == [] then 0 else (if os[0].id == id then left[0] else 0) + LeftQty(os[1..], left[1..], id)
  }

  /** ... after `t` was taken from the front. */
  function LeftAfter(os: seq<AuctionOrder>, t: int, id: OrderId): int {
    ConsumeLength(os, t);
    LeftQty(os, Consume(os, t), id)
  }

  lemma LeftAfterCons(o: AuctionOrder, os: seq<AuctionOrder>, t: int, id: OrderId)
    ensures LeftAfter([o] + os, t, id) == (if o.id == id then o.qty - Min(o.qty, t) else 0) + LeftAfter(os, t - Min(o.qty, t), id)
  {
    assert ([o] + os)[1..] == os;
    ConsumeLength(os, t - Min(o.qty, t));
    ConsumeLength([o] + os, t);
    assert Consume([o] + os, t)[1..] == Consume(os, t - Min(o.qty, t));
  }

  lemma {:induction false} NothingTaken(os: seq<AuctionOrder>, id: OrderId)
    requires Positive(os)
    ensures LeftAfter(os, 0, id) == QtyOf(os, id)
  {
    if os != [] {
      assert os == [os[0]] + os[1..];
      LeftAfterCons(os[0], os[1..], 0, id);
      NothingTaken(os[1..], id);
      QtyConcat([os[0]], os[1..], id);
      assert [os[0]][..0] == [];
    }
  }

  /** A queue whose first order may have been reduced, its total and its quantities by id. */
  lemma Heads(o: AuctionOrder, os: seq<AuctionOrder>, id: OrderId)
    ensures Total([o] + os) == o.qty + Total(os)
    ensures QtyOf([o] + os, id) == (if o.id == id then o.qty else 0) + QtyOf(os, id)
  {
    assert ([o] + os)[1..] == os;
    QtyConcat([o], os, id);
    assert [o][..0] == [];
  }

  /** The volume both queues have. */
  function Both(bs: seq<AuctionOrder>, as': seq<AuctionOrder>): int {
    Min(Total(bs), Total(as'))
  }

  /** One trade between the heads: what it gives and takes is what the rest is short of. */
  lemma HeadsTrade(b: AuctionOrder, bs: seq<AuctionOrder>, a: AuctionOrder, as': seq<AuctionOrder>, id: OrderId)
    requires b.qty > 0 && a.qty > 0 && Positive(bs) && Positive(as')
    ensures var q, t := Min(b.qty, a.qty), Both([b] + bs, [a] + as');
            && (b.qty <= a.qty ==> t == q + Both(bs, [a.(qty := a.qty - q)] + as'))
            && (b.qty > a.qty ==> t == q + Both([b.(qty := b.qty - q)] + bs, as'))
            && LeftAfter([b] + bs, t, id) == (if b.qty <= a.qty then LeftAfter(bs, t - q, id) else LeftAfter([b.(qty := b.qty - q)] + bs, t - q, id))
            && LeftAfter([a] + as', t, id) == (if b.qty <= a.qty then LeftAfter([a.(qty := a.qty - q)] + as', t - q, id) else LeftAfter(as', t - q, id))
  {
    hide LeftAfter, Total, QtyOf;
    var q, t := Min(b.qty, a.qty), Both([b] + bs, [a] + as');
    TotalPositive(bs);
    TotalPositive(as');
    Heads(b, bs, id);
    Heads(a, as', id);
    Heads(b.(qty := b.qty - q), bs, id);
    Heads(a.(qty := a.qty - q), as', id);
    LeftAfterCons(b, bs, t, id);
    LeftAfterCons(a, as', t, id);
    LeftAfterCons(b.(qty := b.qty - q), bs, t - q, id);
    LeftAfterCons(a.(qty := a.qty - q), as', t - q, id);
  }

  /** One step of the pairing, on the heads. */
  lemma PairStep(b: AuctionOrder, br: seq<AuctionOrder>, a: AuctionOrder, ar: seq<AuctionOrder>, p: int)
    ensures var q, pairs := Min(b.qty, a.qty), PairUp([b] + br, [a] + ar, p);
            && (b.qty == 0 ==> pairs == PairUp(br, [a] + ar, p))
            && (b.qty != 0 && a.qty == 0 ==> pairs == PairUp([b] + br, ar, p))
            && (b.qty != 0 && a.qty != 0 && b.qty <= a.qty ==>
                  pairs == [AuctionFill(b, a, p, q)] + PairUp(br, [a.(qty := a.qty - q)] + ar, p))
            && (b.qty != 0 && a.qty != 0 && b.qty > a.qty ==>
                  pairs == [AuctionFill(b, a, p, q)] + PairUp([b.(qty := b.qty - q)] + br, ar, p))
  {
    assert ([b] + br)[1..] == br && ([a] + ar)[1..] == ar;
  }

  lemma PairNone(bs: seq<AuctionOrder>, as': seq<AuctionOrder>, p: int)
    requires bs == [] || as' == []
    ensures PairUp(bs, as', p) == []
  {
  }

  /** Positive but for a first order that may be used up. */
  ghost predicate Queue(os: seq<AuctionOrder>) {
    os != [] ==> os[0].qty >= 0 && Positive(os[1..])
  }

  /** What each order of either side had is what its fills took and what it has left. */
  lemma {:induction false} PairConserves(bs: seq<AuctionOrder>, as': seq<AuctionOrder>, p: int, id: OrderId)
    requires Queue(bs) && Queue(as')
    ensures Conserved(bs, as', p, id)
    decreases |bs| + |as'|
  {
    hide LeftAfter, Total, QtyOf, TakerQty, MakerQty, PairUp, Positive;
    QueueFacts(bs, id);
    QueueFacts(as', id);
    if bs == [] || as' == [] {
      NoFills(id);
      PairNone(bs, as', p);
    } else {
      var b, a, br, ar := bs[0], as'[0], bs[1..], as'[1..];
      PairStep(b, br, a, ar, p);
      PositiveQueue(br);
      PositiveQueue(ar);
      QueueFacts(br, id);
      QueueFacts(ar, id);
      if b.qty == 0 {
        PairConserves(br, as', p, id);
        LeftAfterCons(b, br, Both(bs, as'), id);
      } else if a.qty == 0 {
        PairConserves(bs, ar, p, id);
        LeftAfterCons(a, ar, Both(bs, as'), id);
      } else {
        PairTrade(b, br, a, ar, p, id);
        var q := Min(b.qty, a.qty);
        if b.qty <= a.qty {
          PairConserves(br, [a.(qty := a.qty - q)] + ar, p, id);
        } else {
          PairConserves([b.(qty := b.qty - q)] + br, ar, p, id);
        }
      }
    }
  }

  lemma PositiveQueue(os: seq<AuctionOrder>)
    requires Positive(os)
    ensures Queue(os)
  {
  }

  /** The pairing of `bs` and `as'` conserves the quantities under `id`. */
  ghost predicate Conserved(bs: seq<AuctionOrder>, as': seq<AuctionOrder>, p: int, id: OrderId) {
    && TakerQty(PairUp(bs, as', p), id) + LeftAfter(bs, Both(bs, as'), id) == QtyOf(bs, id)
    && MakerQty(PairUp(bs, as', p), id) + LeftAfter(as', Both(bs, as'), id) == QtyOf(as', id)
  }

  /** Conservation of the rest gives conservation with the heads' trade in front. */
  lemma PairTrade(b: AuctionOrder, br: seq<AuctionOrder>, a: AuctionOrder, ar: seq<AuctionOrder>, p: int, id: OrderId)
    requires b.qty > 0 && a.qty > 0 && Positive(br) && Positive(ar)
    ensures var q := Min(b.qty, a.qty);
            var b', a' := b.(qty := b.qty - q), a.(qty := a.qty - q);
            && Queue([b'] + br) && Queue([a'] + ar)
            && (b.qty <= a.qty && Conserved(br, [a'] + ar, p, id) ==> Conserved([b] + br, [a] + ar, p, id))
            && (b.qty > a.qty && Conserved([b'] + br, ar, p, id) ==> Conserved([b] + br, [a] + ar, p, id))
  {
    hide LeftAfter, Total, QtyOf, TakerQty, MakerQty, PairUp, Positive;
    var q := Min(b.qty, a.qty);
    var b', a' := b.(qty := b.qty - q), a.(qty := a.qty - q);
    assert ([b'] + br)[1..] == br && ([a'] + ar)[1..] == ar;
    PairStep(b, br, a, ar, p);
    HeadsTrade(b, br, a, ar, id);
    Heads(b, br, id);
    Heads(a, ar, id);
    Heads(b', br, id);
    Heads(a', ar, id);
    FillsCons(AuctionFill(b, a, p, q), PairUp(br, [a'] + ar, p), id);
    FillsCons(AuctionFill(b, a, p, q), PairUp([b'] + br, ar, p), id);
  }

  lemma NoFills(id: OrderId)
    ensures TakerQty([], id) == 0 && MakerQty([], id) == 0
  {
  }

  lemma QueueFacts(os: seq<AuctionOrder>, id: OrderId)
    requires Queue(os)
    ensures Total(os) >= 0 && LeftAfter(os, 0, id) == QtyOf(os, id)
    ensures os == [] ==> Total(os) == 0
    ensures os != [] ==> os == [os[0]] + os[1..] && Total(os) == os[0].qty + Total(os[1..])
                         && QtyOf(os, id) == (if os[0].id == id then os[0].qty else 0) + QtyOf(os[1..], id)
  {
    if os != [] {
      assert os == [os[0]] + os[1..];
      Heads(os[0], os[1..], id);
      TotalPositive(os[1..]);
      LeftAfterCons(os[0], os[1..], 0, id);
      NothingTaken(os[1..], id);
    }
  }

  lemma {:induction false} LeftCounts(os: seq<AuctionOrder>, left: seq<int>, id: OrderId)
    requires |os| == |left|
    ensures QtyOf(Left(os, left), id) == LeftQty(os, left, id)
  {
    if os != [] {
      var n := |os| - 1;
      LeftCounts(os[..n], left[..n], id);
      LeftQtyLast(os, left, id);
      if left[n] != 0 {
        QtyConcat(Left(os[..n], left[..n]), [os[n].(qty := left[n])], id);
        assert [os[n].(qty := left[n])][..0] == [];
      }
    }
  }

  lemma {:induction false} LeftQtyLast(os: seq<AuctionOrder>, left: seq<int>, id: OrderId)
    requires |os| == |left| && os != []
    ensures var n := |os| - 1; LeftQty(os, left, id) == LeftQty(os[..n], left[..n], id) + if os[n].id == id then left[n] else 0
  {
    var n := |os| - 1;
    if n > 0 {
      assert os[1..][..n - 1] == os[..n][1..] && left[1..][..n - 1] == left[..n][1..];
      LeftQtyLast(os[1..], left[1..], id);
    } else {
      assert LeftQty(os[1..], left[1..], id) == 0;
      assert LeftQty(os[..0], left[..0], id) == 0;
    }
  }

  lemma {:induction false} SidesSplit(side: Side, os: seq<AuctionOrder>, p: int, id: OrderId)
    ensures QtyOf(Eligible(side, os, p), id) + QtyOf(Excluded(side, os, p), id) == QtyOf(os, id)
  {
    if os != [] {
      var f, o := os[..|os| - 1], os[|os| - 1];
      SidesSplit(side, f, p, id);
      QtyConcat(Eligible(side, f, p), [o], id);
      QtyConcat(Excluded(side, f, p), [o], id);
      assert [o][..0] == [];
    }
  }

  lemma {:induction false} TimesSplit(os: seq<AuctionOrder>, id: OrderId)
    ensures QtyOf(GoodTillCanceled(os), id) + QtyOf(Immediate(os), id) == QtyOf(os, id)
  {
    if os != [] {
      var f, o := os[..|os| - 1], os[|os| - 1];
      TimesSplit(f, id);
      QtyConcat(GoodTillCanceled(f), [o], id);
      QtyConcat(Immediate(f), [o], id);
      assert [o][..0] == [];
    }
  }

  /** Each side: what an order came with is what it traded plus what it has left. */
  lemma SideConserves(bids: seq<AuctionOrder>, asks: seq<AuctionOrder>, p: int, id: OrderId)
    requires Positive(bids) && Positive(asks)
    ensures var fills, t := PairUp(Eligible(Bid, bids, p), Eligible(Ask, asks, p), p), Volume(bids, asks, p);
            && QtyOf(bids, id) == TakerQty(fills, id) + QtyOf(SideLeft(Bid, bids, p, t), id) + QtyOf(Excluded(Bid, bids, p), id)
            && QtyOf(asks, id) == MakerQty(fills, id) + QtyOf(SideLeft(Ask, asks, p, t), id) + QtyOf(Excluded(Ask, asks, p), id)
  {
    hide Eligible, Excluded, QtyOf, TakerQty, MakerQty, Consume, Left, PairUp;
    var eb, ea, t := Eligible(Bid, bids, p), Eligible(Ask, asks, p), Volume(bids, asks, p);
    EligiblePositive(Bid, bids, p);
    EligiblePositive(Ask, asks, p);
    PairConserves(eb, ea, p, id);
    SidesSplit(Bid, bids, p, id);
    SidesSplit(Ask, asks, p, id);
    ConsumeLength(eb, t);
    ConsumeLength(ea, t);
    LeftCounts(eb, Consume(eb, t), id);
    LeftCounts(ea, Consume(ea, t), id);
  }

  /** Every order's quantity is its fills plus its residual, and the residual is either carried on or canceled. */
  lemma SweepConserves(bids: seq<AuctionOrder>, asks: seq<AuctionOrder>, p: int, id: OrderId)
    requires Positive(bids) && Positive(asks)
    ensures var fills, rest := PairUp(Eligible(Bid, bids, p), Eligible(Ask, asks, p), p), Residual(bids, asks, p);
            QtyOf(bids, id) + QtyOf(asks, id) ==
              TakerQty(fills, id) + MakerQty(fills, id) + QtyOf(GoodTillCanceled(rest), id) + QtyOf(Immediate(rest), id)
  {
    hide Eligible, Excluded, QtyOf, TakerQty, MakerQty, GoodTillCanceled, Immediate, PairUp, SideLeft, Volume;
    var t := Volume(bids, asks, p);
    SideConserves(bids, asks, p, id);
    TimesSplit(Residual(bids, asks, p), id);
    var w, x, y, z := SideLeft(Bid, bids, p, t), SideLeft(Ask, asks, p, t), Excluded(Bid, bids, p), Excluded(Ask, asks, p);
    QtyConcat(w, x, id);
    QtyConcat(w + x, y, id);
    QtyConcat(w + x + y, z, id);
  }

  // ----- Limits and priority -----

  /** Some order of `os` with this id accepts `p`. */
  ghost predicate Willing(side: Side, os: seq<AuctionOrder>, id: OrderId, p: int) {
    exists o :: o in os && o.id == id && Accepts(side, o, p)
  }

  ghost predicate AllAccept(side: Side, os: seq<AuctionOrder>, p: int) {
    forall o :: o in os ==> Accepts(side, o, p)
  }

  /** A fill at `p`, between a bid and an ask of these that accept it. */
  ghost predicate Fair(f: Fill, bs: seq<AuctionOrder>, as': seq<AuctionOrder>, p: int) {
    f.price == p && f.qty > 0 && Willing(Bid, bs, f.takerId, p) && Willing(Ask, as', f.makerId, p)
  }

  /** Fair for part of the orders is fair for all, and for a head that was only reduced. */
  lemma FairTail(f: Fill, b: AuctionOrder, br: seq<AuctionOrder>, a: AuctionOrder, ar: seq<AuctionOrder>, p: int, bq: int, aq: int)
    ensures Fair(f, br, [a.(qty := aq)] + ar, p) ==> Fair(f, [b] + br, [a] + ar, p)
    ensures Fair(f, [b.(qty := bq)] + br, ar, p) ==> Fair(f, [b] + br, [a] + ar, p)
  {
    hide Willing;
    WillingTail(Bid, b, bq, br, f.takerId, p);
    WillingTail(Ask, a, aq, ar, f.makerId, p);
  }

  lemma WillingTail(side: Side, o: AuctionOrder, q: int, os: seq<AuctionOrder>, id: OrderId, p: int)
    ensures Willing(side, os, id, p) ==> Willing(side, [o] + os, id, p)
    ensures Willing(side, [o.(qty := q)] + os, id, p) ==> Willing(side, [o] + os, id, p)
  {
    if Willing(side, os, id, p) {
      var x :| x in os && x.id == id && Accepts(side, x, p);
      assert x in [o] + os;
    }
    if Willing(side, [o.(qty := q)] + os, id, p) {
      var x :| x in [o.(qty := q)] + os && x.id == id && Accepts(side, x, p);
      assert (if x in os then x else o) in [o] + os;
      assert x in os || x == o.(qty := q);
      assert Accepts(side, o.(qty := q), p) == Accepts(side, o, p);
    }
  }

  lemma FairHead(b: AuctionOrder, br: seq<AuctionOrder>, a: AuctionOrder, ar: seq<AuctionOrder>, p: int)
    requires b.qty > 0 && a.qty > 0 && Accepts(Bid, b, p) && Accepts(Ask, a, p)
    ensures Fair(AuctionFill(b, a, p, Min(b.qty, a.qty)), [b] + br, [a] + ar, p)
  {
    assert b in [b] + br && a in [a] + ar;
  }

  lemma AcceptParts(side: Side, o: AuctionOrder, q: int, os: seq<AuctionOrder>, p: int)
    requires AllAccept(side, [o] + os, p)
    ensures Accepts(side, o, p) && AllAccept(side, os, p) && AllAccept(side, [o.(qty := q)] + os, p)
  {
    assert forall x :: x in os ==> x in [o] + os;
    assert o in [o] + os;
  }

  ghost predicate AllFair(fills: seq<Fill>, bs: seq<AuctionOrder>, as': seq<AuctionOrder>, p: int) {
    forall k :: 0 <= k < |fills| ==> Fair(fills[k], bs, as', p)
  }

  lemma FairCons(f: Fill, fills: seq<Fill>, b: AuctionOrder, br: seq<AuctionOrder>, a: AuctionOrder, ar: seq<AuctionOrder>, p: int, bq: int, aq: int)
    requires AllFair(fills, br, [a.(qty := aq)] + ar, p) || AllFair(fills, [b.(qty := bq)] + br, ar, p)
    ensures AllFair(fills, [b] + br, [a] + ar, p)
    ensures Fair(f, [b] + br, [a] + ar, p) ==> AllFair([f] + fills, [b] + br, [a] + ar, p)
  {
    hide Fair;
    forall k | 0 <= k < |fills|
      ensures Fair(fills[k], [b] + br, [a] + ar, p)
    {
      FairTail(fills[k], b, br, a, ar, p, bq, aq);
    }
  }

  lemma {:induction false} PairWithin(bs: seq<AuctionOrder>, as': seq<AuctionOrder>, p: int)
    requires AllAccept(Bid, bs, p) && AllAccept(Ask, as', p) && Queue(bs) && Queue(as')
    ensures AllFair(PairUp(bs, as', p), bs, as', p)
    decreases |bs| + |as'|
  {
    hide PairUp, Positive, Accepts, AllAccept, Fair;
    if bs == [] || as' == [] {
      PairNone(bs, as', p);
    } else {
      var b, a, br, ar := bs[0], as'[0], bs[1..], as'[1..];
      assert bs == [b] + br && as' == [a] + ar;
      PairStep(b, br, a, ar, p);
      PositiveQueue(br);
      PositiveQueue(ar);
      var q := Min(b.qty, a.qty);
      var b', a' := b.(qty := b.qty - q), a.(qty := a.qty - q);
      assert ([b'] + br)[1..] == br && ([a'] + ar)[1..] == ar;
      AcceptParts(Bid, b, b.qty - q, br, p);
      AcceptParts(Ask, a, a.qty - q, ar, p);
      assert b.(qty := b.qty) == b && a.(qty := a.qty) == a;
      if b.qty == 0 {
        PairWithin(br, as', p);
        FairCons(AuctionFill(b, a, p, q), PairUp(br, as', p), b, br, a, ar, p, b.qty, a.qty);
      } else if a.qty == 0 {
        PairWithin(bs, ar, p);
        FairCons(AuctionFill(b, a, p, q), PairUp(bs, ar, p), b, br, a, ar, p, b.qty, a.qty);
      } else {
        FairHead(b, br, a, ar, p);
        if b.qty <= a.qty {
          PairWithin(br, [a'] + ar, p);
          FairCons(AuctionFill(b, a, p, q), PairUp(br, [a'] + ar, p), b, br, a, ar, p, b'.qty, a'.qty);
        } else {
          PairWithin([b'] + br, ar, p);
          FairCons(AuctionFill(b, a, p, q), PairUp([b'] + br, ar, p), b, br, a, ar, p, b'.qty, a'.qty);
        }
      }
    }
  }

  /** No order trades beyond its limit: every fill is at the one price, for orders that accept it. */
  lemma WithinLimits(bids: seq<AuctionOrder>, asks: seq<AuctionOrder>, p: int, k: nat)
    requires Positive(bids) && Positive(asks)
    requires k < |PairUp(Eligible(Bid, bids, p), Eligible(Ask, asks, p), p)|
    ensures var f := PairUp(Eligible(Bid, bids, p), Eligible(Ask, asks, p), p)[k];
            f.price == p && f.qty > 0 && Willing(Bid, bids, f.takerId, p) && Willing(Ask, asks, f.makerId, p)
  {
    hide Accepts, PairUp;
    EligibleMembers(Bid, bids, p);
    EligibleMembers(Ask, asks, p);
    EligiblePositive(Bid, bids, p);
    EligiblePositive(Ask, asks, p);
    PairWithin(Eligible(Bid, bids, p), Eligible(Ask, asks, p), p);
  }

  lemma {:induction false} EligibleInPriority(side: Side, os: seq<AuctionOrder>, p: int)
    requires InPriority(side, os)
    ensures InPriority(side, Eligible(side, os, p))
  {
    if os != [] {
      var f, o := os[..|os| - 1], os[|os| - 1];
      EligibleInPriority(side, f, p);
      EligibleMembers(side, f, p);
      var r := Eligible(side, f, p);
      forall i | 0 <= i < |r|
        ensures !Precedes(side, o, r[i])
      {
        assert r[i] in f;
        var j :| 0 <= j < |f| && f[j] == r[i];
        assert os[j] == r[i];
      }
    }
  }

  /** Of two participants of a side, the one behind trades only when the one ahead is used up; and
      everyone excluded is behind every participant. */
  lemma PriorityKept(side: Side, os: seq<AuctionOrder>, p: int, t: int)
    requires Positive(os) && InPriority(side, os) && t >= 0
    ensures |Consume(Eligible(side, os, p), t)| == |Eligible(side, os, p)|
    ensures var es := Eligible(side, os, p);
            && (forall i, j :: 0 <= i < |es| && 0 <= j < |es| && Precedes(side, es[i], es[j]) && Consume(es, t)[j] < es[j].qty ==>
                  Consume(es, t)[i] == 0)
            && (forall i, o :: 0 <= i < |es| && o in Excluded(side, os, p) ==> Precedes(side, es[i], o))
  {
    var es := Eligible(side, os, p);
    EligiblePositive(side, os, p);
    EligibleInPriority(side, os, p);
    EligibleMembers(side, os, p);
    ConsumeInOrder(es, t);
    forall i, o | 0 <= i < |es| && o in Excluded(side, os, p)
      ensures Precedes(side, es[i], o)
    {
      assert es[i] in es && Accepts(side, es[i], p) && !Accepts(side, o, p);
    }
  }

  // ----- Nothing left crosses -----

  /** Something left of an order means less was taken than the orders up to it have. */
  lemma {:induction false} LeftMeansMore(os: seq<AuctionOrder>, t: int, j: nat)
    requires Positive(os) && t >= 0 && j < |os| && |Consume(os, t)| == |os| && Consume(os, t)[j] != 0
    ensures t < Total(os[..j + 1])
  {
    var u := t - Min(os[0].qty, t);
    ConsumeLength(os[1..], u);
    assert os[..j + 1][0] == os[0] && os[..j + 1][1..] == os[1..][..j];
    if j > 0 {
      assert Consume(os, t)[j] == Consume(os[1..], u)[j - 1];
      LeftMeansMore(os[1..], u, j - 1);
    } else {
      assert os[1..][..0] == [];
    }
  }

  /** Who is left of a side: an eligible order that was not used up. */
  lemma {:induction false} LeftMember(os: seq<AuctionOrder>, left: seq<int>, o: AuctionOrder) returns (i: nat)
    requires |os| == |left| && o in Left(os, left)
    ensures i < |os| && left[i] != 0 && o == os[i].(qty := left[i])
  {
    var n := |os| - 1;
    if o in Left(os[..n], left[..n]) {
      i := LeftMember(os[..n], left[..n], o);
    } else {
      i := n;
    }
  }

  lemma CumLast(f: seq<AuctionOrder>, o: AuctionOrder, q: int)
    ensures CumBid(f + [o], q) == CumBid(f, q) + BidPart(o, q) && CumAsk(f + [o], q) == CumAsk(f, q) + AskPart(o, q)
  {
    hide CumBid, CumAsk;
    CumSplit(f, [o], q);
    CumOne(o, q);
  }

  /** Within a price only the orders that accept it count, at any stricter price too. */
  lemma {:induction false} CumEligible(os: seq<AuctionOrder>, p: int, q: int)
    ensures q >= p ==> CumBid(Eligible(Bid, os, p), q) == CumBid(os, q)
    ensures q <= p ==> CumAsk(Eligible(Ask, os, p), q) == CumAsk(os, q)
  {
    hide CumBid, CumAsk;
    if os != [] {
      var f, o := os[..|os| - 1], os[|os| - 1];
      assert os == f + [o];
      CumEligible(f, p, q);
      CumLast(f, o, q);
      CumLast(Eligible(Bid, f, p), o, q);
      CumLast(Eligible(Ask, f, p), o, q);
    }
  }

  /** Orders in priority order count in full up to any one of them. */
  lemma {:induction false} PrefixCounts(side: Side, os: seq<AuctionOrder>, q: int)
    requires forall o :: o in os ==> Accepts(side, o, q)
    ensures side == Bid ==> CumBid(os, q) == Total(os)
    ensures side == Ask ==> CumAsk(os, q) == Total(os)
  {
    if os != [] {
      var f, o := os[..|os| - 1], os[|os| - 1];
      assert os == f + [o] && forall x :: x in f ==> x in os;
      assert o in os;
      PrefixCounts(side, f, q);
      TotalConcat(f, [o]);
    }
  }

  /** An order of the side that is not used up leaves more at its own price than was executed. */
  lemma SupplyBeyond(side: Side, os: seq<AuctionOrder>, p: int, t: int, o: AuctionOrder)
    requires Positive(os) && InPriority(side, os) && t >= 0 && o in SideLeft(side, os, p, t)
    ensures Accepts(side, o, p) && t < if side == Bid then CumBid(os, o.price) else CumAsk(os, o.price)
  {
    hide Eligible, Consume, Left;
    var es := Eligible(side, os, p);
    ConsumeLength(es, t);
    var j := LeftMember(es, Consume(es, t), o);
    EligiblePositive(side, os, p);
    EligibleMembers(side, os, p);
    EligibleInPriority(side, os, p);
    assert es[j] in es;
    LeftMeansMore(es, t, j);
    var front := es[..j + 1];
    forall x | x in front
      ensures Accepts(side, x, es[j].price)
    {
      var i :| 0 <= i <= j && es[i] == x;
      assert i < j ==> !Precedes(side, es[j], es[i]);
    }
    PrefixCounts(side, front, es[j].price);
    assert es == front + es[j + 1..];
    CumSplit(front, es[j + 1..], es[j].price);
    PositiveParts(es, j + 1);
    CumNonNegative(es[j + 1..], es[j + 1..], es[j].price);
    CumEligible(os, p, es[j].price);
  }

  lemma PositiveParts(os: seq<AuctionOrder>, k: nat)
    requires Positive(os) && k <= |os|
    ensures Positive(os[..k]) && Positive(os[k..])
  {
  }

  /** An excluded order adds to its side's quantity at its own price. */
  lemma {:induction false} ExcludedBeyond(os: seq<AuctionOrder>, p: int, o: AuctionOrder)
    requires Positive(os)
    ensures o in Excluded(Bid, os, p) ==> o.price < p && CumBid(os, o.price) > CumBid(os, p)
    ensures o in Excluded(Ask, os, p) ==> o.price > p && CumAsk(os, o.price) > CumAsk(os, p)
  {
    if os != [] {
      var f, last := os[..|os| - 1], os[|os| - 1];
      ExcludedBeyond(f, p, o);
      BidsFall(f, if o.price < p then o.price else p, p);
      AsksRise(f, p, if o.price > p then o.price else p);
    }
  }

  /** When all of a side's participants are used up, none of it is left. */
  lemma {:induction false} AllTaken(side: Side, os: seq<AuctionOrder>, p: int)
    requires Positive(os)
    ensures SideLeft(side, os, p, Total(Eligible(side, os, p))) == []
  {
    hide Eligible, Consume, Left;
    var es := Eligible(side, os, p);
    EligiblePositive(side, os, p);
    ConsumeEverything(es);
    var left := Consume(es, Total(es));
    if Left(es, left) != [] {
      var i := LeftMember(es, left, Left(es, left)[0]);
    }
  }

  lemma {:induction false} ConsumeEverything(os: seq<AuctionOrder>)
    requires Positive(os)
    ensures |Consume(os, Total(os))| == |os| && forall i :: 0 <= i < |os| ==> Consume(os, Total(os))[i] == 0
  {
    if os != [] {
      TotalPositive(os[1..]);
      ConsumeEverything(os[1..]);
    }
  }

  /** A bid that is left of the auction, and an ask that is. */
  ghost predicate LeftOn(side: Side, os: seq<AuctionOrder>, p: int, t: int, o: AuctionOrder) {
    o in SideLeft(side, os, p, t) || o in Excluded(side, os, p)
  }

  /** After the sweep at the computed price no bid left crosses any ask left. */
  lemma NoCrossingLeft(bids: seq<AuctionOrder>, asks: seq<AuctionOrder>, ref: int, c: Clearing, b: AuctionOrder, a: AuctionOrder)
    requires Positive(bids) && Positive(asks) && InPriority(Bid, bids) && InPriority(Ask, asks)
    requires Clears(bids, asks, ref, c) && c.Clearing?
    requires LeftOn(Bid, bids, c.price, c.qty, b) && LeftOn(Ask, asks, c.price, c.qty, a)
    ensures b.price < a.price
  {
    hide SideLeft, Excluded, Eligible, Positive, InPriority, Clears;
    var p := c.price;
    AnnouncedVolume(bids, asks, ref, c);
    TotalEligible(bids, p);
    TotalEligible(asks, p);
    Positivity(bids, asks, ref, c);
    if b in SideLeft(Bid, bids, p, c.qty) {
      SupplyBeyond(Bid, bids, p, c.qty, b);
    } else {
      ExcludedBeyond(bids, p, b);
    }
    if a in SideLeft(Ask, asks, p, c.qty) {
      SupplyBeyond(Ask, asks, p, c.qty, a);
    } else {
      ExcludedBeyond(asks, p, a);
    }
    if b.price >= a.price {
      var x := if Total(Eligible(Bid, bids, p)) == c.qty then b.price else a.price;
      AllTaken(Bid, bids, p);
      AllTaken(Ask, asks, p);
      BidsFall(bids, a.price, b.price);
      AsksRise(asks, a.price, b.price);
      MaximalVolume(bids, asks, ref, c, x);
    }
  }

  lemma Positivity(bids: seq<AuctionOrder>, asks: seq<AuctionOrder>, ref: int, c: Clearing)
    requires Clears(bids, asks, ref, c) && c.Clearing?
    ensures c.qty > 0 && c.qty == Exec(bids, asks, c.price)
  {
  }

  /** Without a clearing price nothing crossed in the first place. */
  lemma NoCrossingEver(bids: seq<AuctionOrder>, asks: seq<AuctionOrder>, ref: int, t: int, b: AuctionOrder, a: AuctionOrder)
    requires Positive(bids) && Positive(asks) && Clears(bids, asks, ref, NoPrice)
    requires LeftOn(Bid, bids, 0, t, b) && LeftOn(Ask, asks, 0, t, a)
    ensures b.price < a.price
  {
    FoundExactly(bids, asks, ref, NoPrice);
    var i := LeftOrigin(Bid, bids, 0, t, b);
    var j := LeftOrigin(Ask, asks, 0, t, a);
    assert !(bids[i].price >= asks[j].price);
  }

  /** Whatever is left came in at the same price, side by side. */
  lemma LeftOrigin(side: Side, os: seq<AuctionOrder>, p: int, t: int, o: AuctionOrder) returns (i: nat)
    requires LeftOn(side, os, p, t, o)
    ensures i < |os| && o == os[i].(qty := o.qty)
  {
    var es := Eligible(side, os, p);
    ConsumeLength(es, t);
    EligibleMembers(side, os, p);
    if o in SideLeft(side, os, p, t) {
      var j := LeftMember(es, Consume(es, t), o);
      assert es[j] in es;
      i :| i < |os| && os[i] == es[j];
    } else {
      i :| i < |os| && os[i] == o;
    }
  }
}
