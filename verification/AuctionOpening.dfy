/** Clearing the auction into an empty continuous book hands over a market in which every invariant of
    continuous trading holds: well-formed, in time priority, with feed, ledger and positions in step. */
module AuctionOpening {
  import opened Domain
  import opened BookSpec
  import opened BookLemmas
  import opened MatchSpec
  import opened MatchTheorems
  import opened MatchQuantities
  import opened PlaceEffects
  import opened StopSpec
  import opened Auctions
  import opened AuctionSweep
  import opened AuctionResults
  import opened AuctionCarry
  import opened AuctionHandover
  import opened AuctionPhase
  import opened Positions
  import opened EngineSpec
  import opened EngineInvariants
  import opened EngineSteps
  import opened EngineCommands
  import opened EngineRuns
  import opened EngineReserves

  // ----- Carrying one order -----

  /** The orders still to be carried into a good market: apart by id, in time order behind what rests already. */
  ghost predicate Carrying(e: Engine, os: seq<AuctionOrder>) {
    && Good(e, []) && Positive(os) && TimeOrdered(os)
    && (forall id :: IdCount(e, [], id) + Named(os, id) <= 1)
    && (forall i :: 0 <= i < |os| ==> os[i].seqNum <= e.clock && OlderAt(e.book.Of(os[i].side), os[i].price, os[i].seqNum))
  }

  /** An order that crosses nothing is carried over by resting it, or finds no level. */
  lemma CarryRests(e: Engine, o: AuctionOrder, all: seq<AuctionOrder>)
    requires Separate(all) && LevelsFrom(e.book, all) && o in all && o.qty > 0 && CountOrders(e.book) < e.cfg.nodeCap
    ensures CarryOne(e, o) == RestOnly(e, Carried(o))
  {
    hide Place, Insert, SumLevels, InfoAt, Find, CanRestIn, LevelsFrom;
    var c := Carried(o);
    var opp := e.book.Of(o.side.Opposite());
    BestApart(e.book, o, all);
    NothingCrossed(e.book, c, e.clock, e.cfg.stpDefault, e.cfg.levelCap);
    assert e.log + ([] + [] + DispositionEvents(Outcomes(e, c).book, c, [], Outcomes(e, c).disposition))
        == e.log + DispositionEvents(Outcomes(e, c).book, c, [], Outcomes(e, c).disposition);
  }

  lemma BestApart(b: Book, o: AuctionOrder, all: seq<AuctionOrder>)
    requires Separate(all) && LevelsFrom(b, all) && o in all
    ensures var opp := b.Of(o.side.Opposite()); opp == [] || !Crosses(Carried(o), opp[0].price)
  {
    var opp := b.Of(o.side.Opposite());
    if opp != [] {
      assert PricedBy(all, o.side.Opposite(), opp[0].price);
      var x :| x in all && x.side == o.side.Opposite() && x.price == opp[0].price;
    }
  }

  lemma {:induction false} InsertOlder(ls: seq<Level>, o: Order, price: int, seqNum: int)
    requires OlderAt(ls, price, seqNum) && (o.price == price ==> o.seqNum < seqNum)
    ensures OlderAt(Insert(ls, o), price, seqNum)
  {
    if ls == [] {
    } else if ls[0].price == o.price {
    } else if Better(o.side, o.price, ls[0].price) {
    } else {
      InsertOlder(ls[1..], o, price, seqNum);
    }
  }

  /** What carrying one order changes. */
  lemma CarryKeeps(e: Engine, o: AuctionOrder, rest: seq<AuctionOrder>, all: seq<AuctionOrder>)
    requires Carrying(e, [o] + rest) && Separate(all) && LevelsFrom(e.book, all) && o in all
    ensures var r := CarryOne(e, o);
            && Carrying(r, rest) && LevelsFrom(r.book, all) && SameElse(e, r)
            && (NoSTP(e, []) ==> NoSTP(r, [])) && (SumBook(e.book, Unflagged) == 0 ==> SumBook(r.book, Unflagged) == 0)
            && Reserves(r) == Reserves(e)
  {
    hide SumLevels, SumStops, WFBook, WFStops, RestOnly, CarryOne, Rest, CanRestIn, Named, LevelsFrom, OlderAt, TimeOrdered, Separate;
    var r, c := CarryOne(e, o), Carried(o);
    NextOut(e, o, rest);
    CarryStep(e, all, o);
    CarriedBook(e, o, all);
    if CountOrders(e.book) < e.cfg.nodeCap && CanRestIn(e.book, c, e.cfg.levelCap) {
      RestKeeps(e, c, e.clock);
      StillOlder(e.book, c, rest);
    }
    forall id
      ensures IdCount(r, [], id) + Named(rest, id) <= 1 && Named(rest, id) >= 0
    {
      NamedPositive(rest, id);
      assert IdCount(e, [], id) + Named([o] + rest, id) <= 1;
      NamedConcat([o], rest, id);
      NamedOne(o, id);
      assert r.book == e.book || SumBook(r.book, HasId(id)) == SumBook(e.book, HasId(id)) + HasId(id)(c);
    }
    assert r.book == e.book || (SumBook(r.book, STPOn) == SumBook(e.book, STPOn) && SumBook(r.book, Unflagged) == SumBook(e.book, Unflagged)
                                && SumBook(r.book, HasReserve) == SumBook(e.book, HasReserve));
  }

  /** All but book and log is as it was. */
  ghost predicate SameElse(e: Engine, r: Engine) {
    r == e.(book := r.book, log := r.log)
  }

  /** The first order's part of the invariant, and the others'. */
  lemma NextOut(e: Engine, o: AuctionOrder, rest: seq<AuctionOrder>)
    requires Carrying(e, [o] + rest)
    ensures o.qty > 0 && o.seqNum <= e.clock && OlderAt(e.book.Of(o.side), o.price, o.seqNum) && WFOrder(Carried(o))
    ensures Positive(rest) && TimeOrdered(rest) && (forall i :: 0 <= i < |rest| ==> InTurn(o, rest[i]))
    ensures forall i :: 0 <= i < |rest| ==> rest[i].seqNum <= e.clock && OlderAt(e.book.Of(rest[i].side), rest[i].price, rest[i].seqNum)
  {
    hide Good, OlderAt, IdCount, Named;
    var os := [o] + rest;
    assert os[0] == o && forall i :: 0 <= i < |rest| ==> os[i + 1] == rest[i];
    forall i | 0 <= i < |rest|
      ensures InTurn(o, rest[i]) && rest[i].seqNum <= e.clock && OlderAt(e.book.Of(rest[i].side), rest[i].price, rest[i].seqNum)
    {
      assert InTurn(os[0], os[i + 1]);
    }
    forall i, j | 0 <= i < j < |rest|
      ensures InTurn(rest[i], rest[j])
    {
      assert InTurn(os[i + 1], os[j + 1]);
    }
  }

  lemma StillOlder(b: Book, c: Order, rest: seq<AuctionOrder>)
    requires forall i :: 0 <= i < |rest| ==> OlderAt(b.Of(rest[i].side), rest[i].price, rest[i].seqNum)
    requires forall i :: 0 <= i < |rest| && rest[i].side == c.side && rest[i].price == c.price ==> c.seqNum < rest[i].seqNum
    ensures forall i :: 0 <= i < |rest| ==> OlderAt(Rest(b, c).Of(rest[i].side), rest[i].price, rest[i].seqNum)
  {
    hide OlderAt, Insert;
    forall i | 0 <= i < |rest|
      ensures OlderAt(Rest(b, c).Of(rest[i].side), rest[i].price, rest[i].seqNum)
    {
      if rest[i].side == c.side {
        InsertOlder(b.Of(c.side), c, rest[i].price, rest[i].seqNum);
      }
    }
  }

  /** The book and the rest of the market after one order. */
  lemma CarriedBook(e: Engine, o: AuctionOrder, all: seq<AuctionOrder>)
    requires Separate(all) && LevelsFrom(e.book, all) && o in all && o.qty > 0
    ensures var r, c := CarryOne(e, o), Carried(o);
            && SameElse(e, r)
            && r.book == if CountOrders(e.book) < e.cfg.nodeCap && CanRestIn(e.book, c, e.cfg.levelCap) then Rest(e.book, c) else e.book
  {
    hide Rest, CanRestIn, SumLevels, Submit, LevelsFrom, Separate, DispositionEvents;
    if CountOrders(e.book) < e.cfg.nodeCap {
      CarryRests(e, o, all);
    }
  }

  // ----- Carrying them all -----

  /** Every order carried into a market built from them alone: it stays good throughout. */
  lemma {:induction false} CarryAll(e: Engine, all: seq<AuctionOrder>, k: nat)
    requires Carrying(e, all) && Separate(all) && LevelsFrom(e.book, all) && k <= |all|
    ensures var r := CarryOver(e, all[..k]);
            && Carrying(r, all[k..]) && LevelsFrom(r.book, all) && SameElse(e, r)
            && (NoSTP(e, []) ==> NoSTP(r, [])) && (SumBook(e.book, Unflagged) == 0 ==> SumBook(r.book, Unflagged) == 0)
            && Reserves(r) == Reserves(e)
  {
    hide Carrying, LevelsFrom, CarryOne, NoSTP, SumBook, Separate, Reserves;
    if k > 0 {
      CarryAll(e, all, k - 1);
      assert all[..k][..k - 1] == all[..k - 1] && all[k - 1..] == [all[k - 1]] + all[k..];
      CarryKeeps(CarryOver(e, all[..k - 1]), all[k - 1], all[k..], all);
    } else {
      assert all[..0] == [] && all[0..] == all;
    }
  }

  // ----- Clearing -----

  /** The market once the phase is the auction's. */
  function Opened(e: Engine): Engine {
    if e.state.PreOpen? then ProcessOpenAuction(e) else e
  }

  function ClearedAt(c: Clearing): int {
    if c.Clearing? then c.price else 0
  }

  function Unmatched(e: Engine, c: Clearing): seq<AuctionOrder> {
    GoodTillCanceled(Residual(e.auctionBids, e.auctionAsks, ClearedAt(c)))
  }

  function Unserved(e: Engine, c: Clearing): seq<AuctionOrder> {
    Immediate(Residual(e.auctionBids, e.auctionAsks, ClearedAt(c)))
  }

  lemma OpenedInPhase(e: Engine)
    requires InPhase(e) && !e.state.Halted?
    ensures InPhase(Opened(e)) && Opened(e).state.Auction? && SameBooks(e, Opened(e)) && Opened(e).positions == e.positions
  {
    hide InPhase;
    PhaseState(e);
    SamePhase(e, Opened(e));
  }

  /** What is left after the sweep is ready to be carried into the empty book. */
  lemma ReadyToCarry(e: Engine, c: Clearing)
    requires InPhase(e) && e.book == EMPTY_BOOK && Clears(e.auctionBids, e.auctionAsks, e.cfg.reference, c)
    ensures Carrying(AfterSweep(e, ClearedAt(c)), Unmatched(e, c)) && Separate(Unmatched(e, c)) && LevelsFrom(e.book, Unmatched(e, c))
  {
    hide Good, Residual, GoodTillCanceled, Named, TimeOrdered, Positive, Clears, InPriority, Numbered, PairUp, Eligible, FillsLog, ApplyFills, Separate;
    var p := ClearedAt(c);
    var rest := Residual(e.auctionBids, e.auctionAsks, p);
    var os, e1 := Unmatched(e, c), AfterSweep(e, p);
    StateAloneStays(e);
    PositionsAloneStay(e, e1);
    ResidualSeparate(e.auctionBids, e.auctionAsks, e.cfg.reference, c);
    KeptOrders(rest);
    SeparatePart(rest, os);
    ResidualPositive(e.auctionBids, e.auctionAsks, p);
    AllPositive(rest, os);
    CarriedInTime(e.auctionBids, e.auctionAsks, p, e.clock);
    SameIds(e, e1, []);
    forall id
      ensures IdCount(e1, [], id) + Named(os, id) <= 1
    {
      CarriedOnce(e.auctionBids, e.auctionAsks, p, id);
      NamedPositive([], id);
      assert IdCount(e, [], id) + Named(e.auctionBids, id) + Named(e.auctionAsks, id) + Named([], id) <= 1;
    }
  }

  lemma PositionsAloneStay(e: Engine, r: Engine)
    requires Good(e, []) && r == e.(positions := r.positions, log := r.log)
    ensures Good(r, [])
  {
    hide SumLevels, SumStops, WFBook, WFStops;
    SameIds(e, r, []);
  }

  /** Best bid below best ask, since all levels are at prices that do not cross. */
  lemma CarriedUncrossed(b: Book, all: seq<AuctionOrder>)
    requires Separate(all) && LevelsFrom(b, all)
    ensures Uncrossed(b)
  {
    if b.bids != [] && b.asks != [] {
      assert PricedBy(all, Bid, b.bids[0].price) && PricedBy(all, Ask, b.asks[0].price);
    }
  }

  /** The cleared market, seen through what was carried over. */
  lemma ClearingParts(e: Engine, c: Clearing)
    requires e.state.Auction?
    ensures var e2 := CarryOver(AfterSweep(e, ClearedAt(c)), Unmatched(e, c));
            ProcessClearAuction(e, c) == e2.(state := Open)
              .Emit(CanceledLog(Unserved(e, c)) + [AuctionCleared(ClearedAt(c), if c.Clearing? then c.qty else 0)])
  {
    hide Residual, GoodTillCanceled, Immediate, PairUp, Eligible, FillsLog, CarryOver, CanceledLog;
  }

  /** Clearing into an empty continuous book leaves a good market, open and uncrossed. */
  lemma ClearedGood(e: Engine, c: Clearing)
    requires InPhase(e) && !e.state.Halted? && e.book == EMPTY_BOOK && Clears(e.auctionBids, e.auctionAsks, e.cfg.reference, c)
    ensures var r := ProcessClearAuction(e, c);
            Good(r, []) && r.state.Open? && Uncrossed(r.book) && r.cfg == e.cfg && r.preHalt == e.preHalt && r.stops == e.stops
  {
    hide Good, Clears, Carrying, Separate, LevelsFrom, AfterSweep, Unmatched, Unserved, CarryOver, CanceledLog, NoSTP, SumBook, InPhase;
    OpenedInPhase(e);
    var e0 := Opened(e);
    var os := Unmatched(e0, c);
    ReadyToCarry(e0, c);
    var e1 := AfterSweep(e0, ClearedAt(c));
    SweepParts(e0, ClearedAt(c));
    CarryAll(e1, os, |os|);
    assert os[..|os|] == os;
    var e2 := CarryOver(e1, os);
    CarryingGood(e2, os[|os|..]);
    CarriedUncrossed(e2.book, os);
    ClearingParts(e0, c);
    StateAloneStays(e2);
    SameClearing(e, c);
  }

  lemma SweepParts(e: Engine, p: int)
    ensures var r := AfterSweep(e, p);
            r == e.(positions := r.positions, log := r.log)
  {
  }

  lemma CarryingGood(e: Engine, os: seq<AuctionOrder>)
    requires Carrying(e, os)
    ensures Good(e, [])
  {
  }

  lemma SameClearing(e: Engine, c: Clearing)
    requires !e.state.Halted?
    ensures e.state.PreOpen? ==> ProcessClearAuction(e, c) == ProcessClearAuction(Opened(e), c)
    ensures !e.state.PreOpen? ==> Opened(e) == e
  {
    hide Residual, GoodTillCanceled, Immediate, PairUp, Eligible, FillsLog, CarryOver, CanceledLog;
  }
}
