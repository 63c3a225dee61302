/** The placement of one order keeps every invariant of the processor. */
module EngineSteps {
  import opened Domain
  import opened BookSpec
  import opened BookLemmas
  import opened MatchSpec
  import opened MatchLemmas
  import opened MatchTheorems
  import opened MatchQuantities
  import opened MatchScans
  import opened PlaceEffects
  import opened StopSpec
  import opened Positions
  import opened EngineSpec
  import opened EventFolds
  import opened EngineInvariants

  // ----- What the closing events say -----

  lemma DispositionDepth(known: LevelInfo, b: Book, o: Order, fills: seq<Fill>, d: Disposition, side: Side, price: int)
    ensures DepthAfter(known, DispositionEvents(b, o, fills, d), side, price)
         == if Resting(d) && side == o.side && price == o.price then InfoAt(b.Of(side), price) else known
  {
    hide DepthAfter, InfoAt, Find, TotalQty;
    var es := DispositionEvents(b, o, fills, d);
    if Resting(d) {
      assert es == [es[0], es[1]];
      DepthFew(known, es[0], es[1], side, price);
    } else if es != [] {
      DepthFew(known, es[0], es[0], side, price);
    } else {
      DepthFew(known, TradeExecuted(NO_FILL), TradeExecuted(NO_FILL), side, price);
    }
  }

  const NO_FILL := Fill("", "", "", "", Bid, 0, 0, 0, 0, 0, 0, NoLevel)

  /** The quantity a disposition takes off a taker that has `open` left. */
  lemma DispositionOpen(open: int, b: Book, o: Order, fills: seq<Fill>, d: Disposition, id: OrderId)
    ensures OpenAfter(open, DispositionEvents(b, o, fills, d), id)
         == if id != o.id || Resting(d) || d == FullyFilled then open
            else if d == Rejected then 0 else open - (o.origQty - TotalQty(fills))
  {
    hide OpenAfter, InfoAt, Find, TotalQty;
    var es := DispositionEvents(b, o, fills, d);
    if Resting(d) {
      assert es == [es[0], es[1]];
      OpenFew(open, es[0], es[1], id);
    } else if es != [] {
      OpenFew(open, es[0], es[0], id);
    } else {
      OpenFew(open, TradeExecuted(NO_FILL), TradeExecuted(NO_FILL), id);
    }
  }

  /** A count of events that only trades, triggers or halts contribute to. */
  ghost predicate Ignores(f: Event -> int) {
    forall ev: Event :: !ev.TradeFill? && !ev.StopTriggered? && !ev.MarketHalted? ==> f(ev) == 0
  }

  lemma DispositionSums(b: Book, o: Order, fills: seq<Fill>, d: Disposition, f: Event -> int)
    requires Ignores(f)
    ensures SumEvents(DispositionEvents(b, o, fills, d), f) == 0
  {
    hide SumEvents, InfoAt, Find, TotalQty;
    var es := DispositionEvents(b, o, fills, d);
    if Resting(d) {
      assert es == [es[0], es[1]];
      SumFew(es[0], es[1], f);
    } else if es != [] {
      SumFew(es[0], es[0], f);
    } else {
      SumFew(TradeExecuted(NO_FILL), TradeExecuted(NO_FILL), f);
    }
  }

  // ----- The log of a whole placement -----

  /** The log after letting `o` in and placing it. */
  lemma EnterLog(e: Engine, o: Order)
    ensures var e1 := Accept(e, o); var out := Outcomes(e1, o);
            Enter(e, o).log == e1.log + FillsLog(out.fills) + STPLog(out.cancels) + DispositionEvents(out.book, o, out.fills, out.disposition)
  {
    hide Place, FillsLog, STPLog, DispositionEvents;
    var e1 := Accept(e, o);
    var out := Outcomes(e1, o);
    var a, b, c := FillsLog(out.fills), STPLog(out.cancels), DispositionEvents(out.book, o, out.fills, out.disposition);
    assert e1.log + (a + b + c) == e1.log + a + b + c;
  }

  lemma EnterSums(e: Engine, o: Order, f: Event -> int, id: OrderId, user: UserId)
    requires f == IsTrigger(id) || f == IsHalt || f == BoughtByAll || f == Bought(user)
    ensures SumEvents(Enter(e, o).log, f) == SumEvents(e.log, f) + SumEvents(FillsLog(Outcomes(Accept(e, o), o).fills), f)
    ensures f == IsTrigger(id) || f == IsHalt || f == BoughtByAll ==> SumEvents(FillsLog(Outcomes(Accept(e, o), o).fills), f) == 0
  {
    hide SumEvents, FillsLog, STPLog, DispositionEvents, Place, DepthAfter;
    var e1 := Accept(e, o);
    var out := Outcomes(e1, o);
    EnterLog(e, o);
    LogStep(e.log, OrderAccepted(o.id, o.user, o.side, o.typ, 0, o.price, o.origQty, o.display, o.tif, o.seqNum), id, user, Bid, 0);
    var a, b, c := FillsLog(out.fills), STPLog(out.cancels), DispositionEvents(out.book, o, out.fills, out.disposition);
    SumEventsConcat(e1.log + a + b, c, f);
    SumEventsConcat(e1.log + a, b, f);
    SumEventsConcat(e1.log, a, f);
    FillsNeutral(out.fills, id);
    STPNeutral(NoLevel, out.cancels, id, user, Bid, 0);
    DispositionSums(out.book, o, out.fills, out.disposition, f);
  }

  lemma EnterDepth(e: Engine, o: Order, side: Side, price: int)
    requires MakersOn(Outcomes(Accept(e, o), o).fills, o.side.Opposite())
    ensures var out := Outcomes(Accept(e, o), o);
            var known := DepthAfter(NoLevel, e.log, side, price);
            DepthAfter(NoLevel, Enter(e, o).log, side, price) ==
              if side != o.side then Announced(out.fills, price, known)
              else if Resting(out.disposition) && price == o.price then InfoAt(out.book.Of(side), price) else known
  {
    hide DepthAfter, FillsLog, STPLog, DispositionEvents, Place, Announced, InfoAt, MakersOn;
    var e1 := Accept(e, o);
    var out := Outcomes(e1, o);
    EnterLog(e, o);
    LogStep(e.log, OrderAccepted(o.id, o.user, o.side, o.typ, 0, o.price, o.origQty, o.display, o.tif, o.seqNum), "", "", side, price);
    var a, b, c := FillsLog(out.fills), STPLog(out.cancels), DispositionEvents(out.book, o, out.fills, out.disposition);
    DepthConcat(NoLevel, e1.log + a + b, c, side, price);
    DepthConcat(NoLevel, e1.log + a, b, side, price);
    DepthConcat(NoLevel, e1.log, a, side, price);
    var known := DepthAfter(NoLevel, e.log, side, price);
    FillsDepth(known, out.fills, o.side.Opposite(), side, price);
    STPNeutral(DepthAfter(known, a, side, price), out.cancels, "", "", side, price);
    DispositionDepth(DepthAfter(known, a, side, price), out.book, o, out.fills, out.disposition, side, price);
  }

  lemma EnterOpen(e: Engine, o: Order, id: OrderId)
    requires Outcomes(Accept(e, o), o).cancels == []
    ensures var out := Outcomes(Accept(e, o), o);
            var open := if id == o.id then o.origQty else OpenAfter(0, e.log, id);
            var left := open - MakerQty(out.fills, id) - TakerQty(out.fills, id);
            OpenAfter(0, Enter(e, o).log, id) ==
              if id != o.id || Resting(out.disposition) || out.disposition == FullyFilled then left
              else if out.disposition == Rejected then 0 else left - (o.origQty - TotalQty(out.fills))
  {
    hide OpenAfter, FillsLog, DispositionEvents, Place, MakerQty, TakerQty, TotalQty;
    var e1 := Accept(e, o);
    var out := Outcomes(e1, o);
    EnterLog(e, o);
    LogStep(e.log, OrderAccepted(o.id, o.user, o.side, o.typ, 0, o.price, o.origQty, o.display, o.tif, o.seqNum), id, "", Bid, 0);
    var a, c := FillsLog(out.fills), DispositionEvents(out.book, o, out.fills, out.disposition);
    assert STPLog([]) == [];
    assert e1.log + a + [] == e1.log + a;
    OpenConcat(0, e1.log + a, c, id);
    OpenConcat(0, e1.log, a, id);
    FillsOpen(OpenAfter(0, e1.log, id), out.fills, id);
    DispositionOpen(OpenAfter(0, e1.log + a, id), out.book, o, out.fills, out.disposition, id);
  }

  // ----- Invariant by invariant -----

  /** What the processor makes sure of before it lets an order in. */
  ghost predicate Admissible(e: Engine, o: Order, pending: seq<Stop>) {
    && WFOrder(o) && o.seqNum == e.clock + 1 && o.filled == 0 && o.origQty == o.remain + o.hidden
    && CountOrders(e.book) < e.cfg.nodeCap && IdCount(e, pending, o.id) == 0
  }

  lemma EnterParts(e: Engine, o: Order)
    ensures var out := Place(e.book, o, e.clock + 1, e.cfg.stpDefault, e.cfg.levelCap); var r := Enter(e, o);
            && out == Outcomes(Accept(e, o), o)
            && r.book == out.book && r.clock == out.clock && r.stops == e.stops && r.cfg == e.cfg && r.state == e.state && r.preHalt == e.preHalt
            && r.positions == ApplyFills(e.positions, out.fills)
  {
    hide Place, FillsLog, STPLog, DispositionEvents, ApplyFills;
  }

  lemma EnterGood(e: Engine, o: Order, p: seq<Stop>)
    requires Good(e, p) && Admissible(e, o, p)
    ensures Good(Enter(e, o), p) && e.clock < Enter(e, o).clock
    ensures Uncrossed(e.book) ==> Uncrossed(Enter(e, o).book)
  {
    hide Place, Enter, WFSide, SoundBook, SumLevels, SumStops, WFStopSide, Uncrossed;
    EnterParts(e, o);
    var r := Enter(e, o);
    PlaceWF(e.book, o, e.clock + 1, e.cfg.stpDefault, e.cfg.levelCap);
    WFSound(e.book, e.clock);
    if Uncrossed(e.book) {
      PlaceUncrossed(e.book, o, e.clock + 1, e.cfg.stpDefault, e.cfg.levelCap);
    }
    PlaceLevels(e.book, o, e.clock + 1, e.cfg.stpDefault, e.cfg.levelCap);
    LaterStops(e.stops, e.clock, r.clock);
    StableCounts(o.id);
    PlaceSums(e.book, o, e.clock + 1, e.cfg.stpDefault, e.cfg.levelCap, One);
    forall id
      ensures IdCount(r, p, id) <= 1
    {
      StableCounts(id);
      PlaceSums(e.book, o, e.clock + 1, e.cfg.stpDefault, e.cfg.levelCap, HasId(id));
      assert IdCount(e, p, id) <= if id == o.id then 0 else 1;
    }
  }

  lemma LaterBook(b: Book, clock: nat, later: nat)
    requires WFBook(b, clock) && clock <= later
    ensures WFBook(b, later)
  {
    LaterClock(b.bids, Bid, clock, later);
    LaterClock(b.asks, Ask, clock, later);
  }

  lemma LaterStops(b: Stops, clock: nat, later: nat)
    requires WFStops(b, clock) && clock <= later
    ensures WFStops(b, later)
  {
  }

  /** No self-trade prevention: the order clashes with nobody, and neither will anybody later. */
  lemma EnterNoSTP(e: Engine, o: Order, p: seq<Stop>)
    requires NoSTP(e, p) && o.stp == STPDisabled
    ensures NoSTP(Enter(e, o), p) && NoClash(o, e.book.Of(o.side.Opposite()), e.cfg.stpDefault)
  {
    hide Place, Enter, SumLevels, SumStops, NoClash;
    EnterParts(e, o);
    StableCounts(o.id);
    PlaceSums(e.book, o, e.clock + 1, e.cfg.stpDefault, e.cfg.levelCap, STPOn);
    NoneInSide(Enter(e, o).book.bids, STPOn);
    NoneInSide(Enter(e, o).book.asks, STPOn);
    NoModeNoClash(e.book, o);
  }

  lemma EnterTracked(e: Engine, o: Order, p: seq<Stop>)
    requires Good(e, p) && Tracked(e, p) && o.stp == STPDisabled
    ensures Tracked(Enter(e, o), p)
  {
    hide Place, Enter, DepthAfter, InfoAt, Announced, WFBook, SoundBook, NoSTP, NoClash, MakersOn;
    EnterNoSTP(e, o, p);
    EnterParts(e, o);
    WFSound(e.book, e.clock);
    var r := Enter(e, o);
    forall side: Side, price
      ensures DepthAfter(NoLevel, r.log, side, price) == InfoAt(r.book.Of(side), price)
    {
      PlaceDepth(e.book, o, e.clock + 1, e.cfg.stpDefault, e.cfg.levelCap, price);
      PlaceOwnDepth(e.book, o, e.clock + 1, e.cfg.stpDefault, e.cfg.levelCap, price);
      EnterDepth(e, o, side, price);
      assert side == o.side || side == o.side.Opposite();
    }
  }

  /** The order's working slice is used up on arrival while it still has a reserve, which is dropped
      without an event: enough rests at the prices it crosses, and a fill-or-kill passes its dry run. */
  predicate DropsReserve(e: Engine, o: Order) {
    o.hidden > 0 && FillsAtOnce(e.book, o)
  }

  lemma EnterLedgered(e: Engine, o: Order, p: seq<Stop>)
    requires Good(e, p) && Admissible(e, o, p) && o.stp == STPDisabled && (o.hidden == 0 || o.iceberg) && !DropsReserve(e, o)
    requires NoSTP(e, p) && SumBook(e.book, Unflagged) == 0
    requires forall id :: id != o.id ==> OpenAfter(0, e.log, id) == OpenQty(e, p, id)
    ensures Ledgered(Enter(e, o), p)
  {
    hide Place, Enter, OpenAfter, WFBook, SoundBook, NoSTP, NoClash, SumLevels, SumStops, MakerQty, TotalQty, TakerQty, FillsAtOnce;
    EnterNoSTP(e, o, p);
    EnterParts(e, o);
    WFSound(e.book, e.clock);
    StableCounts(o.id);
    PlaceSums(e.book, o, e.clock + 1, e.cfg.stpDefault, e.cfg.levelCap, Unflagged);
    NoneInSide(Enter(e, o).book.bids, Unflagged);
    NoneInSide(Enter(e, o).book.asks, Unflagged);
    IdUnused(e, p, o.id);
    forall id
      ensures OpenAfter(0, Enter(e, o).log, id) == OpenQty(Enter(e, o), p, id)
    {
      EnterOneLedger(e, o, p, id);
    }
  }

  /** Icebergs included, a placement leaves every order accounted for exactly when it drops no reserve. */
  lemma EnterLedgerExactly(e: Engine, o: Order, p: seq<Stop>)
    requires Good(e, p) && Ledgered(e, p) && Admissible(e, o, p) && o.stp == STPDisabled
    ensures LedgerAgrees(Enter(e, o), p) <==> !DropsReserve(e, o)
  {
    hide Place, Enter, OpenAfter, WFBook, SoundBook, NoSTP, NoClash, SumLevels, SumStops, MakerQty, TotalQty, TakerQty, FillsAtOnce;
    EnterNoSTP(e, o, p);
    WFSound(e.book, e.clock);
    IdUnused(e, p, o.id);
    forall id
      ensures OpenAfter(0, Enter(e, o).log, id) == OpenQty(Enter(e, o), p, id) <==> !(id == o.id && DropsReserve(e, o))
    {
      EnterOneLedger(e, o, p, id);
    }
    EnterOneLedger(e, o, p, o.id);
  }

  /** An id nobody has: not in the book, nothing open under it. */
  lemma IdUnused(e: Engine, p: seq<Stop>, id: OrderId)
    requires IdCount(e, p, id) == 0
    ensures !Holds(e.book, id) && OpenQty(e, p, id) == 0
  {
    SideCount(e.book.bids, id);
    SideCount(e.book.asks, id);
    StopCount(e.stops.sells, id);
    StopCount(e.stops.buys, id);
    StopCount(p, id);
    NothingOpen(e.book.bids, id);
    NothingOpen(e.book.asks, id);
    NoStopOpen(e.stops.sells, id);
    NoStopOpen(e.stops.buys, id);
    NoStopOpen(p, id);
  }

  lemma {:induction false} NothingOpen(ls: seq<Level>, id: OrderId)
    requires SumLevels(ls, HasId(id)) == 0
    ensures SumLevels(ls, OpenOf(id)) == 0
  {
    if ls != [] {
      SideCount(ls[1..], id);
      QueueCount(ls[0].orders, id);
      NothingOpenHere(ls[0].orders, id);
      NothingOpen(ls[1..], id);
    }
  }

  lemma {:induction false} NothingOpenHere(os: seq<Order>, id: OrderId)
    requires SumOf(os, HasId(id)) == 0
    ensures SumOf(os, OpenOf(id)) == 0
  {
    if os != [] {
      QueueCount(os[1..], id);
      NothingOpenHere(os[1..], id);
    }
  }

  lemma {:induction false} NoStopOpen(ss: seq<Stop>, id: OrderId)
    requires SumStops(ss, IsStop(id)) == 0
    ensures SumStops(ss, StopOpen(id)) == 0
  {
    if ss != [] {
      StopCount(ss[1..], id);
      NoStopOpen(ss[1..], id);
    }
  }

  lemma EnterOneLedger(e: Engine, o: Order, p: seq<Stop>, id: OrderId)
    requires SoundBook(e.book) && NoClash(o, e.book.Of(o.side.Opposite()), e.cfg.stpDefault)
    requires WFOrder(o) && o.origQty == o.remain + o.hidden && !Holds(e.book, o.id)
    requires OpenQty(e, p, o.id) == 0 && (id != o.id ==> OpenAfter(0, e.log, id) == OpenQty(e, p, id))
    ensures OpenAfter(0, Enter(e, o).log, id) == OpenQty(Enter(e, o), p, id) <==> !(id == o.id && DropsReserve(e, o))
  {
    hide Place, Enter, OpenAfter, SoundBook, NoClash, SumLevels, SumStops, MakerQty, TotalQty, TakerQty, Holds, FillsAtOnce;
    EnterParts(e, o);
    var out := Outcomes(Accept(e, o), o);
    FilledExactly(e.book, o, e.clock + 1, e.cfg.stpDefault, e.cfg.levelCap);
    PlaceOpen(e.book, o, e.clock + 1, e.cfg.stpDefault, e.cfg.levelCap, id);
    EnterOpen(e, o, id);
    OneTaker(out.fills, o.id, id);
    NoFillsQty(id);
  }

  lemma NoFillsQty(id: OrderId)
    ensures MakerQty([], id) == 0 && TakerQty([], id) == 0 && TotalQty([]) == 0
  {
  }

  lemma EnterPositions(e: Engine, o: Order)
    requires PositionsAgree(e)
    ensures PositionsAgree(Enter(e, o))
  {
    hide Place, Enter, SumEvents, FillsLog, ApplyFills, Position, Net;
    EnterParts(e, o);
    var out := Outcomes(Accept(e, o), o);
    FillsKeepNet(e.positions, out.fills);
    EnterSums(e, o, BoughtByAll, "", "");
    forall user
      ensures Position(Enter(e, o).positions, user) == SumEvents(Enter(e, o).log, Bought(user))
    {
      EnterSums(e, o, Bought(user), "", user);
      FillsMovePositions(e.positions, out.fills, user);
    }
  }

  // ----- One step of the cascade -----

  /** Firing takes stops from the stop book to the list of those to be placed. */
  lemma FireKeeps(e: Engine, p: seq<Stop>, price: int)
    ensures Keeps(e, p, e.(stops := AllUnfired(e.stops, price)), AllFired(e.stops, price) + p)
  {
    hide DepthAfter, OpenAfter, SumEvents, InfoAt, WFBook, SumLevels, SumStops, AllFired, AllUnfired, WFStops;
    var e' := e.(stops := AllUnfired(e.stops, price));
    var p' := AllFired(e.stops, price) + p;
    forall id
      ensures IdCount(e', p', id) == IdCount(e, p, id) && OpenQty(e', p', id) == OpenQty(e, p, id)
      ensures TriggerTotal(e', p', id) == TriggerTotal(e, p, id)
    {
      AllFiredSum(e.stops, price, IsStop(id));
      SumStopsConcat(AllFired(e.stops, price), p, IsStop(id));
      AllFiredSum(e.stops, price, StopOpen(id));
      SumStopsConcat(AllFired(e.stops, price), p, StopOpen(id));
    }
    FireSTP(e, p, price);
    if WFStops(e.stops, e.clock) {
      FireWF(e.stops, e.clock, price);
    }
  }

  lemma FireWF(b: Stops, clock: nat, price: int)
    requires WFStops(b, clock)
    ensures WFStops(AllUnfired(b, price), clock)
    ensures forall i :: 0 <= i < |AllFired(b, price)| ==> AllFired(b, price)[i].qty > 0
  {
    FiresExactly(b.sells, Ask, clock, price);
    FiresExactly(b.buys, Bid, clock, price);
    hide Fired, Unfired;
  }

  lemma {:induction false} STPNonNegative(ss: seq<Stop>)
    ensures SumStops(ss, StopSTPOn) >= 0
  {
    if ss != [] {
      STPNonNegative(ss[1..]);
    }
  }

  lemma FireSTP(e: Engine, p: seq<Stop>, price: int)
    ensures NoSTP(e, p) ==> NoSTP(e.(stops := AllUnfired(e.stops, price)), AllFired(e.stops, price) + p)
  {
    hide SumStops, SumLevels, Fired, Unfired;
    FiredSum(e.stops.sells, Ask, price, StopSTPOn);
    FiredSum(e.stops.buys, Bid, price, StopSTPOn);
    SumStopsConcat(Fired(e.stops.sells, Ask, price), Fired(e.stops.buys, Bid, price), StopSTPOn);
    SumStopsConcat(AllFired(e.stops, price), p, StopSTPOn);
    STPNonNegative(Fired(e.stops.sells, Ask, price));
    STPNonNegative(Fired(e.stops.buys, Bid, price));
    STPNonNegative(Unfired(e.stops.sells, Ask, price));
    STPNonNegative(Unfired(e.stops.buys, Bid, price));
  }

  /** Off the list: the first stop's share of every sum. */
  lemma PendingHead(s: Stop, rest: seq<Stop>, f: Stop -> int)
    ensures SumStops([s] + rest, f) == f(s) + SumStops(rest, f)
  {
    assert ([s] + rest)[1..] == rest;
  }

  /** The announcement of a triggered stop moves it from the list to the log. */
  lemma AnnounceFolds(e: Engine, s: Stop, price: int, id: OrderId, user: UserId, side: Side, p: int)
    ensures var log := Announce(e, s, price).log;
            && DepthAfter(NoLevel, log, side, p) == DepthAfter(NoLevel, e.log, side, p)
            && OpenAfter(0, log, id) == OpenAfter(0, e.log, id)
            && SumEvents(log, Bought(user)) == SumEvents(e.log, Bought(user))
            && SumEvents(log, BoughtByAll) == SumEvents(e.log, BoughtByAll)
            && SumEvents(log, IsHalt) == SumEvents(e.log, IsHalt)
            && SumEvents(log, IsTrigger(id)) == SumEvents(e.log, IsTrigger(id)) + if s.id == id then 1 else 0
  {
    hide DepthAfter, OpenAfter, SumEvents;
    LogStep(e.log, StopTriggered(s.id, s.user, price, s.typ, s.limit), id, user, side, p);
  }
}
