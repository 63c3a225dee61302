/** What becomes of the orders an auction leaves over: the patient ones rest, the others are canceled. */
module AuctionLeftovers {
  import opened Domain
  import opened BookSpec
  import opened BookLemmas
  import opened MatchSpec
  import opened Slices
  import opened Auctions
  import opened AuctionSweep
  import opened AuctionCarry
  import opened AuctionPhase
  import opened AuctionOpening
  import opened EngineSpec
  import EngineSlices

  /** The resting order is what is left of the auction order: a plain limit order, good till canceled, under its old number. */
  predicate AsLeft(o: Order, x: AuctionOrder) {
    && o.id == x.id && o.user == x.user && o.side == x.side && o.price == x.price && o.seqNum == x.seqNum
    && o.typ == Limit && o.tif == GTC && o.stp == STPDisabled && !o.iceberg && o.expireAt == 0
    && o.remain == o.display == o.origQty == x.qty && o.filled == 0 && o.hidden == 0
  }

  /** Part or all of an order that was collected. */
  ghost predicate PartOf(x: AuctionOrder, collected: seq<AuctionOrder>) {
    exists o :: o in collected && x == o.(qty := x.qty) && 0 < x.qty <= o.qty
  }

  /** Nothing rests but these. */
  ghost predicate OnlyThese(b: Book, os: seq<AuctionOrder>) {
    forall side: Side, o :: Rests(o, b.Of(side)) ==> exists x :: x in os && AsLeft(o, x)
  }

  /** Each of these rests. */
  ghost predicate AllThese(b: Book, os: seq<AuctionOrder>) {
    forall x :: x in os ==> exists o :: Rests(o, b.Of(x.side)) && AsLeft(o, x)
  }

  // ----- Resting one more -----

  lemma RestsInFront(l: Level, ls: seq<Level>, p: Order)
    ensures Rests(p, [l] + ls) <==> p in l.orders || Rests(p, ls)
  {
    var r := [l] + ls;
    if p in l.orders {
      var k :| 0 <= k < |l.orders| && l.orders[k] == p;
      RestsHere(r, 0, k);
    } else if Rests(p, ls) {
      var i, k :| 0 <= i < |ls| && 0 <= k < |ls[i].orders| && ls[i].orders[k] == p;
      RestsHere(r, i + 1, k);
    }
  }

  lemma {:induction false} InsertRests(ls: seq<Level>, o: Order, p: Order)
    ensures Rests(p, Insert(ls, o)) <==> p == o || Rests(p, ls)
  {
    assert !Rests(p, []);
    hide Rests;
    if ls == [] {
      assert [] + [Level(o.price, [o])] == [Level(o.price, [o])];
      RestsInFront(Level(o.price, [o]), [], p);
    } else {
      assert ls == [ls[0]] + ls[1..];
      RestsInFront(ls[0], ls[1..], p);
      if ls[0].price == o.price {
        RestsInFront(Level(o.price, ls[0].orders + [o]), ls[1..], p);
      } else if Better(o.side, o.price, ls[0].price) {
        RestsInFront(Level(o.price, [o]), ls, p);
      } else {
        InsertRests(ls[1..], o, p);
        RestsInFront(ls[0], Insert(ls[1..], o), p);
      }
    }
  }

  lemma OneMore(b: Book, os: seq<AuctionOrder>, x: AuctionOrder)
    requires OnlyThese(b, os)
    ensures OnlyThese(Rest(b, Carried(x)), os + [x]) && OnlyThese(b, os + [x])
    ensures AllThese(b, os) ==> AllThese(Rest(b, Carried(x)), os + [x])
  {
    hide Rests, Insert;
    var c, r := Carried(x), Rest(b, Carried(x));
    assert AsLeft(c, x);
    forall side: Side, o
      ensures Rests(o, r.Of(side)) <==> (side == x.side && o == c) || Rests(o, b.Of(side))
    {
      InsertRests(b.Of(x.side), c, o);
    }
    if AllThese(b, os) {
      forall y | y in os + [x]
        ensures exists o :: Rests(o, r.Of(y.side)) && AsLeft(o, y)
      {
        if y in os {
          var o :| Rests(o, b.Of(y.side)) && AsLeft(o, y);
          assert Rests(o, r.Of(y.side));
        } else {
          assert Rests(c, r.Of(x.side));
        }
      }
    }
  }

  lemma OneCounted(b: Book, o: Order)
    ensures Levels(Rest(b, o)) <= Levels(b) + 1 && CountOrders(Rest(b, o)) == CountOrders(b) + 1
  {
    hide Insert;
    InsertSum(b.Of(o.side), o, One);
    AtMostOneLevel(b.Of(o.side), o);
  }

  lemma {:induction false} AtMostOneLevel(ls: seq<Level>, o: Order)
    ensures |Insert(ls, o)| <= |ls| + 1
  {
    if ls != [] {
      AtMostOneLevel(ls[1..], o);
    }
  }

  /** Carrying orders that cross nothing rests them, and nobody else; each of them when the pools have room for all. */
  lemma {:induction false} CarriedRest(e: Engine, all: seq<AuctionOrder>, k: nat)
    requires Separate(all) && Positive(all) && e.book == EMPTY_BOOK && LevelsFrom(e.book, all) && k <= |all|
    ensures var r := CarryOver(e, all[..k]);
            && r.cfg == e.cfg && OnlyThese(r.book, all[..k]) && LevelsFrom(r.book, all)
            && (|all| <= e.cfg.nodeCap && |all| <= e.cfg.levelCap ==> AllThese(r.book, all[..k]) && Levels(r.book) <= k && CountOrders(r.book) <= k)
  {
    hide Separate, LevelsFrom, CarryOne, CarryOver, OnlyThese, AllThese, SumBook, Rest;
    CarriedQuietly(e, all, k);
    if k == 0 {
      assert all[..0] == [];
      CarryNone(e);
      NothingRests(all);
    } else {
      CarriedRest(e, all, k - 1);
      CarryLast(e, all, k);
      CarriedQuietly(e, all, k - 1);
      var was := CarryOver(e, all[..k - 1]);
      assert all[..k] == all[..k - 1] + [all[k - 1]];
      CarriedBook(was, all[k - 1], all);
      OneMore(was.book, all[..k - 1], all[k - 1]);
      OneCounted(was.book, Carried(all[k - 1]));
    }
  }

  lemma NothingRests(all: seq<AuctionOrder>)
    ensures OnlyThese(EMPTY_BOOK, []) && AllThese(EMPTY_BOOK, []) && Levels(EMPTY_BOOK) == 0 && CountOrders(EMPTY_BOOK) == 0
  {
  }

  // ----- Everything left over -----

  lemma {:induction false} SplitByTime(os: seq<AuctionOrder>)
    ensures forall x :: x in GoodTillCanceled(os) <==> x in os && x.tif == GTC
    ensures forall x :: x in Immediate(os) <==> x in os && x.tif != GTC
    ensures |GoodTillCanceled(os)| <= |os|
  {
    if os != [] {
      SplitByTime(os[..|os| - 1]);
      assert os == os[..|os| - 1] + [os[|os| - 1]];
    }
  }

  lemma {:induction false} EachCanceled(os: seq<AuctionOrder>)
    ensures forall x :: x in os ==> OrderCanceled(x.id, x.user, x.side, x.price, x.qty, 0, NotFilled) in CanceledLog(os)
  {
    if os != [] {
      EachCanceled(os[..|os| - 1]);
      assert os == os[..|os| - 1] + [os[|os| - 1]];
    }
  }

  lemma PartsLeft(bids: seq<AuctionOrder>, asks: seq<AuctionOrder>, p: int)
    requires Positive(bids) && Positive(asks)
    ensures forall x :: x in Residual(bids, asks, p) ==> PartOf(x, bids + asks)
  {
    hide SideLeft, Excluded, Eligible, Total;
    var t := Volume(bids, asks, p);
    EligiblePositive(Bid, bids, p);
    EligiblePositive(Ask, asks, p);
    TotalPositive(Eligible(Bid, bids, p));
    TotalPositive(Eligible(Ask, asks, p));
    forall x | x in Residual(bids, asks, p)
      ensures PartOf(x, bids + asks)
    {
      var o: AuctionOrder;
      if x in SideLeft(Bid, bids, p, t) || x in Excluded(Bid, bids, p) {
        o := EngineSlices.SideOrigin(Bid, bids, p, t, x);
      } else {
        o := EngineSlices.SideOrigin(Ask, asks, p, t, x);
      }
      assert o in bids + asks;
    }
  }

  /** After clearing into an empty book: whatever is left over is part of a collected order. What is good till canceled rests
      as what is left of it, all of it if the pools have room, and nothing else rests. Anything else is canceled with what
      is left of it. */
  lemma LeftoversHandedOn(e: Engine, c: Clearing)
    requires InPhase(e) && !e.state.Halted? && e.book == EMPTY_BOOK && Clears(e.auctionBids, e.auctionAsks, e.cfg.reference, c)
    ensures var r, rest := ProcessClearAuction(e, c), Residual(e.auctionBids, e.auctionAsks, ClearedAt(c));
            && (forall x :: x in rest ==> PartOf(x, e.auctionBids + e.auctionAsks))
            && (forall side: Side, o :: Rests(o, r.book.Of(side)) ==> exists x :: x in rest && x.tif == GTC && AsLeft(o, x))
            && (|rest| <= e.cfg.nodeCap && |rest| <= e.cfg.levelCap ==>
                  forall x :: x in rest && x.tif == GTC ==> exists o :: Rests(o, r.book.Of(x.side)) && AsLeft(o, x))
            && (forall x :: x in rest && x.tif != GTC ==> OrderCanceled(x.id, x.user, x.side, x.price, x.qty, 0, NotFilled) in r.log)
  {
    hide InPhase, Clears, Carrying, Separate, LevelsFrom, AfterSweep, Residual, GoodTillCanceled, Immediate, CarryOver, CanceledLog, Rests, Positive;
    OpenedInPhase(e);
    var e0, rest := Opened(e), Residual(e.auctionBids, e.auctionAsks, ClearedAt(c));
    var os := Unmatched(e0, c);
    ReadyToCarry(e0, c);
    CarryingPositive(AfterSweep(e0, ClearedAt(c)), os);
    SweepParts(e0, ClearedAt(c));
    SplitByTime(rest);
    EachCanceled(Unserved(e0, c));
    PhasePositive(e0);
    PartsLeft(e.auctionBids, e.auctionAsks, ClearedAt(c));
    CarriedRest(AfterSweep(e0, ClearedAt(c)), os, |os|);
    assert os[..|os|] == os;
    ClearingParts(e0, c);
    SameClearing(e, c);
  }

  lemma CarryingPositive(e: Engine, os: seq<AuctionOrder>)
    requires Carrying(e, os)
    ensures Positive(os)
  {
    hide Positive;
  }

  lemma PhasePositive(e: Engine)
    requires InPhase(e)
    ensures Positive(e.auctionBids) && Positive(e.auctionAsks)
  {
    hide Positive;
  }
}
