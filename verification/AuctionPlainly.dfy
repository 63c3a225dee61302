/** The auction's order of service and its choice of price in plain comparisons. */
module AuctionPlainly {
  import opened Domain
  import opened Auctions
  import opened AuctionSweep
  import opened AuctionResults
  import opened AuctionCarry
  import opened AuctionHandover
  import opened EngineSpec
  import opened BookSpec
  import Admission

  /** A better price, or the same price and an earlier number. */
  predicate Ahead(side: Side, a: AuctionOrder, b: AuctionOrder) {
    match side
    case Bid => a.price > b.price || (a.price == b.price && a.seqNum < b.seqNum)
    case Ask => a.price < b.price || (a.price == b.price && a.seqNum < b.seqNum)
  }

  /** At one clearing price: an order has something executed only if it accepts the price, and only when everybody ahead
      of it on its side is used up. */
  lemma ServedInOrder(side: Side, os: seq<AuctionOrder>, p: int, t: int)
    requires Positive(os) && InPriority(side, os) && t >= 0
    ensures var es := Eligible(side, os, p); var left := Consume(es, t);
            && |left| == |es|
            && (forall o :: o in es <==> o in os && if side == Bid then o.price >= p else o.price <= p)
            && (forall i, j :: 0 <= i < |es| && 0 <= j < |es| && Ahead(side, es[i], es[j]) && left[j] < es[j].qty ==> left[i] == 0)
  {
    hide Consume, Eligible, Excluded;
    PriorityKept(side, os, p, t);
    EligibleMembers(side, os, p);
    var es := Eligible(side, os, p);
    forall i, j | 0 <= i < |es| && 0 <= j < |es| && Ahead(side, es[i], es[j])
      ensures Precedes(side, es[i], es[j])
    {
    }
  }

  /** Collected orders stand in that order: of two, the one behind is not ahead. */
  lemma StandInOrder(side: Side, os: seq<AuctionOrder>, o: AuctionOrder)
    requires InPriority(side, os)
    ensures var r := Joined(side, os, o);
            (forall i, j :: 0 <= i < j < |r| ==> !Ahead(side, r[j], r[i])) && multiset(r) == multiset(os) + multiset{o}
  {
    JoinedInPriority(side, os, o);
    var r := Joined(side, os, o);
    forall i, j | 0 <= i < j < |r|
      ensures !Ahead(side, r[j], r[i])
    {
      assert !Precedes(side, r[j], r[i]);
    }
  }

  /** In the auction a limit order that breaks no rule is announced and collected as submitted, on its side, under a new
      number; the book, the stops, the positions and the other side are as they were. */
  lemma CollectedAsSubmitted(e: Engine, c: LimitCmd, hook: HookAnswer, now: int)
    requires SoundBook(e.book) && e.state == Auction && e.cfg.auctions && Admission.FirstBroken(Admission.LimitRules(e, c, hook, now)) == Pass
    ensures var r, o := ProcessLimit(e, c, hook, now), AuctionOrder(c.id, c.user, c.side, c.price, c.qty, c.tif, e.clock + 1);
            && (if c.side == Bid then multiset(r.auctionBids) == multiset(e.auctionBids) + multiset{o} && r.auctionAsks == e.auctionAsks
                else multiset(r.auctionAsks) == multiset(e.auctionAsks) + multiset{o} && r.auctionBids == e.auctionBids)
            && r == e.(clock := e.clock + 1, auctionBids := r.auctionBids, auctionAsks := r.auctionAsks,
                       log := e.log + [OrderAccepted(c.id, c.user, c.side, Limit, 0, c.price, c.qty, c.qty, c.tif, e.clock + 1)])
  {
    hide SoundBook, CheckLimit, Admission.FirstBroken, Admission.LimitRules, Joined;
    Admission.LimitChecked(e, c, hook, now);
    var o := AuctionOf(c, e.clock + 1);
    JoinedMembers(Bid, e.auctionBids, o);
    JoinedMembers(Ask, e.auctionAsks, o);
  }

  // ----- What the fills of an auction say -----

  /** The ask makes and the bid takes. */
  ghost predicate Names(f: Fill, side: Side, o: AuctionOrder, remain: int) {
    match side
    case Ask => f.makerSide == Ask && f.makerId == o.id && f.makerUser == o.user && f.makerSeq == o.seqNum && f.makerRemain == remain
    case Bid => f.takerId == o.id && f.takerUser == o.user && f.takerSeq == o.seqNum && f.takerRemain == remain
  }

  /** What these fills execute of the order `id` of one side. */
  function Executed(fills: seq<Fill>, side: Side, id: OrderId): int {
    if fills == [] then 0
    else Executed(fills[1..], side, id) + if (if side == Ask then fills[0].makerId else fills[0].takerId) == id then fills[0].qty else 0
  }

  /** Every fill names an order of this side, and what that order has left after everything executed so far. */
  ghost predicate SideTold(fills: seq<Fill>, side: Side, os: seq<AuctionOrder>) {
    forall k :: 0 <= k < |fills| ==> ToldAt(fills, k, side, os)
  }

  ghost predicate ToldAt(fills: seq<Fill>, k: nat, side: Side, os: seq<AuctionOrder>)
    requires k < |fills|
  {
    exists o :: o in os && Names(fills[k], side, o, o.qty - Executed(fills[..k + 1], side, o.id))
  }

  ghost predicate Distinct(os: seq<AuctionOrder>) {
    forall i, j :: 0 <= i < j < |os| ==> os[i].id != os[j].id
  }

  lemma ExecutedNext(f: Fill, fills: seq<Fill>, k: nat, side: Side, id: OrderId)
    requires 0 < k <= |fills| + 1
    ensures ([f] + fills)[..k] == [f] + fills[..k - 1]
    ensures Executed(([f] + fills)[..k], side, id)
         == Executed(fills[..k - 1], side, id) + if (if side == Ask then f.makerId else f.takerId) == id then f.qty else 0
  {
    assert ([f] + fills)[..k] == [f] + fills[..k - 1];
    assert ([f] + fills[..k - 1])[1..] == fills[..k - 1];
  }

  /** One fill in front, for the first order of the side; that order, if it stays, is left with less. */
  lemma ToldNext(f: Fill, fills: seq<Fill>, side: Side, o: AuctionOrder, rest: seq<AuctionOrder>)
    requires Distinct([o] + rest) && Names(f, side, o, o.qty - f.qty)
    requires SideTold(fills, side, [o.(qty := o.qty - f.qty)] + rest) || SideTold(fills, side, rest)
    ensures SideTold([f] + fills, side, [o] + rest)
  {
    hide Distinct, Names, ToldAt;
    forall k | 0 <= k < |[f] + fills|
      ensures ToldAt([f] + fills, k, side, [o] + rest)
    {
      if k == 0 {
        FirstTold(f, fills, side, o, rest);
      } else {
        LaterTold(f, fills, k - 1, side, o, rest);
      }
    }
  }

  lemma FirstTold(f: Fill, fills: seq<Fill>, side: Side, o: AuctionOrder, rest: seq<AuctionOrder>)
    requires Names(f, side, o, o.qty - f.qty)
    ensures ToldAt([f] + fills, 0, side, [o] + rest)
  {
    ExecutedNext(f, fills, 1, side, o.id);
    assert o in [o] + rest && fills[..0] == [];
  }

  lemma LaterTold(f: Fill, fills: seq<Fill>, k: nat, side: Side, o: AuctionOrder, rest: seq<AuctionOrder>)
    requires Distinct([o] + rest) && Names(f, side, o, o.qty - f.qty) && k < |fills|
    requires ToldAt(fills, k, side, [o.(qty := o.qty - f.qty)] + rest) || ToldAt(fills, k, side, rest)
    ensures ToldAt([f] + fills, k + 1, side, [o] + rest)
  {
    hide Executed;
    var less := o.(qty := o.qty - f.qty);
    OthersApart(o, rest);
    var x :| (x == less || x in rest) && Names(fills[k], side, x, x.qty - Executed(fills[..k + 1], side, x.id));
    ExecutedNext(f, fills, k + 2, side, x.id);
    assert ([f] + fills)[k + 1] == fills[k] && fills[..k + 2 - 1] == fills[..k + 1];
    if x in rest {
      assert x in [o] + rest;
    } else {
      assert o in [o] + rest && x == less;
      assert Names(fills[k], side, less, less.qty - Executed(fills[..k + 1], side, o.id));
      assert Names(fills[k], side, o, less.qty - Executed(fills[..k + 1], side, o.id));
    }
  }

  lemma OthersApart(o: AuctionOrder, rest: seq<AuctionOrder>)
    requires Distinct([o] + rest)
    ensures forall x :: x in rest ==> x.id != o.id
  {
    var os := [o] + rest;
    forall x | x in rest
      ensures x.id != o.id
    {
      var i :| 0 <= i < |rest| && rest[i] == x;
      assert os[0].id != os[i + 1].id;
    }
  }

  /** An order with nothing left is passed over. */
  lemma ToldBefore(fills: seq<Fill>, side: Side, o: AuctionOrder, rest: seq<AuctionOrder>)
    requires SideTold(fills, side, rest)
    ensures SideTold(fills, side, [o] + rest)
  {
    forall k | 0 <= k < |fills|
      ensures ToldAt(fills, k, side, [o] + rest)
    {
      assert ToldAt(fills, k, side, rest);
      var x :| x in rest && Names(fills[k], side, x, x.qty - Executed(fills[..k + 1], side, x.id));
      assert x in [o] + rest;
    }
  }

  lemma DistinctParts(o: AuctionOrder, rest: seq<AuctionOrder>, q: int)
    requires Distinct([o] + rest)
    ensures Distinct(rest) && Distinct([o.(qty := q)] + rest)
  {
    var os := [o] + rest;
    assert forall i :: 0 <= i < |rest| ==> os[i + 1] == rest[i];
    forall i, j | 0 <= i < j < |rest|
      ensures rest[i].id != rest[j].id
    {
      assert os[i + 1].id != os[j + 1].id;
    }
    var less := [o.(qty := q)] + rest;
    forall i, j | 0 <= i < j < |less|
      ensures less[i].id != less[j].id
    {
      assert os[i].id != os[j].id && less[i].id == os[i].id;
    }
  }

  lemma {:induction false} PairTold(bs: seq<AuctionOrder>, as': seq<AuctionOrder>, p: int)
    requires Distinct(bs) && Distinct(as')
    ensures SideTold(PairUp(bs, as', p), Bid, bs) && SideTold(PairUp(bs, as', p), Ask, as')
    decreases |bs| + |as'|
  {
    hide PairUp, Distinct, SideTold;
    if bs == [] || as' == [] {
      PairNone(bs, as', p);
      NothingTold(Bid, bs);
      NothingTold(Ask, as');
    } else {
      var b, a, br, ar := bs[0], as'[0], bs[1..], as'[1..];
      assert bs == [b] + br && as' == [a] + ar;
      PairStep(b, br, a, ar, p);
      var q := Min(b.qty, a.qty);
      var b', a' := b.(qty := b.qty - q), a.(qty := a.qty - q);
      DistinctParts(b, br, b.qty - q);
      DistinctParts(a, ar, a.qty - q);
      if b.qty == 0 {
        PairTold(br, as', p);
        ToldBefore(PairUp(br, as', p), Bid, b, br);
      } else if a.qty == 0 {
        PairTold(bs, ar, p);
        ToldBefore(PairUp(bs, ar, p), Ask, a, ar);
      } else {
        var f := AuctionFill(b, a, p, q);
        if b.qty <= a.qty {
          PairTold(br, [a'] + ar, p);
          ToldNext(f, PairUp(br, [a'] + ar, p), Bid, b, br);
          ToldNext(f, PairUp(br, [a'] + ar, p), Ask, a, ar);
        } else {
          PairTold([b'] + br, ar, p);
          ToldNext(f, PairUp([b'] + br, ar, p), Bid, b, br);
          ToldNext(f, PairUp([b'] + br, ar, p), Ask, a, ar);
        }
      }
    }
  }

  lemma NothingTold(side: Side, os: seq<AuctionOrder>)
    ensures SideTold([], side, os)
  {
  }

  lemma {:induction false} EligibleDistinct(side: Side, os: seq<AuctionOrder>, p: int)
    requires Distinct(os)
    ensures Distinct(Eligible(side, os, p)) && forall o :: o in Eligible(side, os, p) ==> o in os
  {
    if os != [] {
      EligibleDistinct(side, os[..|os| - 1], p);
      var r := Eligible(side, os[..|os| - 1], p);
      forall i | 0 <= i < |r|
        ensures r[i].id != os[|os| - 1].id
      {
        assert r[i] in os[..|os| - 1];
      }
    }
  }

  lemma {:induction false} NamedOften(os: seq<AuctionOrder>, id: OrderId)
    ensures (exists i :: 0 <= i < |os| && os[i].id == id) ==> Named(os, id) >= 1
    ensures (exists i, j :: 0 <= i < j < |os| && os[i].id == id && os[j].id == id) ==> Named(os, id) >= 2
  {
    if os != [] {
      var f := os[..|os| - 1];
      NamedOften(f, id);
      NamedPositive(f, id);
      assert forall i :: 0 <= i < |f| ==> f[i] == os[i];
    }
  }

  lemma NamedOnce(os: seq<AuctionOrder>)
    requires forall id :: Named(os, id) <= 1
    ensures Distinct(os)
  {
    forall i, j | 0 <= i < j < |os|
      ensures os[i].id != os[j].id
    {
      NamedOften(os, os[i].id);
    }
  }

  /** Every fill of an auction names an ask as maker and a bid as taker, both among those that accept the price, and what
      each has left of its quantity after all that was executed of it so far. */
  lemma AuctionFillsTold(bids: seq<AuctionOrder>, asks: seq<AuctionOrder>, p: int)
    requires forall id :: Named(bids, id) <= 1 && Named(asks, id) <= 1
    ensures var fills := PairUp(Eligible(Bid, bids, p), Eligible(Ask, asks, p), p);
            SideTold(fills, Bid, Eligible(Bid, bids, p)) && SideTold(fills, Ask, Eligible(Ask, asks, p))
  {
    NamedOnce(bids);
    NamedOnce(asks);
    EligibleDistinct(Bid, bids, p);
    EligibleDistinct(Ask, asks, p);
    PairTold(Eligible(Bid, bids, p), Eligible(Ask, asks, p), p);
  }

  /** How far a price is from the reference; without one, every price is as near. */
  function Far(p: int, ref: int): int {
    if ref == 0 then 0 else if p >= ref then p - ref else ref - p
  }

  /** Among the order prices, the chosen one executes most; of those the one with least left over; of those the nearest
      to the reference; of those the lowest. */
  lemma ChosenPlainly(bids: seq<AuctionOrder>, asks: seq<AuctionOrder>, ref: int, c: Clearing, p: int)
    requires Positive(bids) && Positive(asks) && Clears(bids, asks, ref, c) && c.Clearing?
    requires (exists i :: 0 <= i < |bids| && bids[i].price == p) || (exists i :: 0 <= i < |asks| && asks[i].price == p)
    ensures c.qty == Exec(bids, asks, c.price) >= Exec(bids, asks, p)
    ensures Exec(bids, asks, p) == c.qty ==>
              && Imbalance(bids, asks, c.price) <= Imbalance(bids, asks, p)
              && (Imbalance(bids, asks, c.price) == Imbalance(bids, asks, p) ==>
                    && Far(c.price, ref) <= Far(p, ref)
                    && (Far(c.price, ref) == Far(p, ref) ==> c.price <= p))
  {
    assert OrderPrice(bids, asks, p);
  }
}
