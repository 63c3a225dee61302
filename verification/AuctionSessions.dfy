/** An opening auction from the empty market and the trading after it: nothing is lost on the way. */
module AuctionSessions {
  import opened Domain
  import opened BookSpec
  import opened BookLemmas
  import opened MatchSpec
  import opened MatchQuantities
  import opened PlaceEffects
  import opened StopSpec
  import opened Auctions
  import opened AuctionSweep
  import opened AuctionResults
  import opened AuctionCarry
  import opened AuctionHandover
  import opened AuctionPhase
  import opened AuctionOpening
  import opened Positions
  import opened EngineSpec
  import opened EventFolds
  import opened EngineInvariants
  import opened EngineSteps
  import opened EngineCommands
  import opened EngineRuns
  import opened EngineReserves
  import opened EngineTheorems

  // ----- Collecting -----

  /** In the auction or halted in it, with nothing resting: what each order has open is what was collected under its id. */
  ghost predicate InSession(e: Engine) {
    && InPhase(e) && !e.crashed && !e.state.PreOpen? && e.book == EMPTY_BOOK && e.stops == NO_STOPS
    && PositionsAgree(e) && FeedAgrees(e) && CollectedOpen(e)
  }

  ghost predicate CollectedOpen(e: Engine) {
    forall id :: OpenAfter(0, e.log, id) == QtyOf(e.auctionBids, id) + QtyOf(e.auctionAsks, id)
  }

  /** While halted an order or a stop is let in, to rest or wait beside the auction. */
  predicate LetIn(e: Engine, c: Command, now: int) {
    e.state.Halted? && ((c.PlaceLimit? && CheckLimit(e, c.limit, c.hook, now).Pass?) || (c.PlaceStop? && CheckStop(e, c.stop, now).Pass?))
  }

  /** Neither clears the auction, nor leaves its phase, nor lets anything in beside it. */
  predicate SessionCommand(e: Engine, c: Command, now: int) {
    !c.ClearAuction? && !LeavesPhase(e, c, now) && !LetIn(e, c, now)
  }

  lemma SessionOpens(cfg: Config, firstSeq: nat, now: int)
    requires cfg.auctions
    ensures InSession(Process(Initial(cfg, firstSeq), OpenAuction, now))
  {
    hide InPhase, DepthAfter, OpenAfter, SumEvents, InfoAt, SumLevels, SumStops, QtyOf, Named, Process, Good, PositionsAgree, Tracked, Ledgered,
      FeedAgrees;
    var e := Initial(cfg, firstSeq);
    var r := Process(e, OpenAuction, now);
    AuctionOpens(cfg, firstSeq, now);
    PhaseStarts(cfg, firstSeq);
    InitialFacts(cfg, firstSeq);
    NothingKnown(cfg, firstSeq);
    SamePhase(e, r);
    OneEvent(e, AuctionOpened, r);
    forall id
      ensures OpenAfter(0, r.log, id) == QtyOf(r.auctionBids, id) + QtyOf(r.auctionAsks, id)
    {
      NothingLogged(id);
      NoQty([], id);
    }
  }

  lemma AuctionOpens(cfg: Config, firstSeq: nat, now: int)
    requires cfg.auctions
    ensures Process(Initial(cfg, firstSeq), OpenAuction, now) == Initial(cfg, firstSeq).(state := Auction, log := [] + [AuctionOpened])
  {
  }

  lemma NothingKnown(cfg: Config, firstSeq: nat)
    ensures FeedAgrees(Initial(cfg, firstSeq))
  {
  }

  lemma NothingLogged(id: OrderId)
    ensures OpenAfter(0, [], id) == 0 && Named([], id) == 0
  {
  }

  lemma {:induction false} QtyJoined(side: Side, os: seq<AuctionOrder>, o: AuctionOrder, id: OrderId)
    ensures QtyOf(Joined(side, os, o), id) == QtyOf(os, id) + if o.id == id then o.qty else 0
  {
    if os == [] || !Precedes(side, o, os[|os| - 1]) {
      assert (os + [o])[..|os|] == os;
    } else {
      var f, last := os[..|os| - 1], os[|os| - 1];
      QtyJoined(side, f, o, id);
      assert (Joined(side, f, o) + [last])[..|Joined(side, f, o)|] == Joined(side, f, o);
    }
  }

  lemma {:induction false} NoQty(os: seq<AuctionOrder>, id: OrderId)
    requires Named(os, id) == 0
    ensures QtyOf(os, id) == 0
  {
    if os != [] {
      NamedPositive(os[..|os| - 1], id);
      NoQty(os[..|os| - 1], id);
    }
  }

  /** Whether an event changes what is open under an id, by how much, and that it changes nothing else. */
  lemma OneEvent(e: Engine, ev: Event, r: Engine)
    requires r.log == e.log + [ev] && r.book == e.book && r.positions == e.positions
    requires ev.OrderRejected? || ev.OrderAccepted? || ev.AuctionOpened? || ev.MarketHalted? || ev.MarketResumed?
    ensures FeedAgrees(e) ==> FeedAgrees(r)
    ensures PositionsAgree(e) ==> PositionsAgree(r)
    ensures forall id :: OpenAfter(0, r.log, id) == OpenStep(OpenAfter(0, e.log, id), ev, id)
  {
    hide DepthAfter, OpenAfter, SumEvents, InfoAt;
    forall id
      ensures OpenAfter(0, r.log, id) == OpenStep(OpenAfter(0, e.log, id), ev, id)
    {
      LogStep(e.log, ev, id, "", Bid, 0);
    }
    forall user
      ensures SumEvents(r.log, Bought(user)) == SumEvents(e.log, Bought(user))
    {
      LogStep(e.log, ev, "", user, Bid, 0);
    }
    forall side: Side, price
      ensures DepthAfter(NoLevel, r.log, side, price) == DepthAfter(NoLevel, e.log, side, price)
    {
      LogStep(e.log, ev, "", "", side, price);
    }
    LogStep(e.log, ev, "", "", Bid, 0);
  }

  /** A refusal that ends an order names one that was never collected. */
  lemma RefusalSession(e: Engine, id: OrderId, user: UserId, reason: Reason)
    requires InSession(e) && ((reason == FOKFailed || reason == PoolExhausted) ==> QtyOf(e.auctionBids, id) + QtyOf(e.auctionAsks, id) == 0)
    ensures InSession(Reject(e, id, user, reason))
  {
    hide InPhase, FeedAgrees, PositionsAgree, OpenAfter, QtyOf;
    var r := Reject(e, id, user, reason);
    SessionPhase(e);
    SamePhase(e, r);
    OneEvent(e, OrderRejected(id, user, reason), r);
  }

  /** A change of the market's state within the phase, with the event that says so. */
  lemma StateSession(e: Engine, r: Engine, ev: Event)
    requires InSession(e) && (r.state.Auction? || r.state.Halted?) && r == e.(state := r.state, preHalt := r.preHalt).Emit([ev])
    requires ev.MarketHalted? || ev.MarketResumed? || ev.AuctionOpened?
    ensures InSession(r)
  {
    hide InPhase, FeedAgrees, PositionsAgree, OpenAfter, QtyOf;
    SessionPhase(e);
    SamePhase(e, r);
    OneEvent(e, ev, r);
  }

  /** A second halt only changes what is remembered. */
  lemma SilentSession(e: Engine, r: Engine)
    requires InSession(e) && r == e.(preHalt := r.preHalt)
    ensures InSession(r)
  {
    hide InPhase, FeedAgrees, PositionsAgree, OpenAfter, QtyOf;
    SessionPhase(e);
    SamePhase(e, r);
    SameFolds(e, r);
  }

  lemma SameFolds(e: Engine, r: Engine)
    requires r.book == e.book && r.log == e.log && r.positions == e.positions
    ensures FeedAgrees(e) ==> FeedAgrees(r)
    ensures PositionsAgree(e) ==> PositionsAgree(r)
  {
  }

  lemma SessionPhase(e: Engine)
    requires InSession(e)
    ensures InPhase(e) && !e.crashed && (e.state.Auction? || e.state.Halted?) && e.cfg.auctions && e.book == EMPTY_BOOK && e.stops == NO_STOPS
  {
  }

  lemma LimitSession(e: Engine, c: LimitCmd, hook: HookAnswer, now: int)
    requires InSession(e) && !(e.state.Halted? && CheckLimit(e, c, hook, now).Pass?)
    ensures InSession(ProcessLimit(e, c, hook, now))
  {
    hide InPhase, FeedAgrees, PositionsAgree, OpenAfter, QtyOf, CheckLimit, Named, Joined;
    var v := CheckLimit(e, c, hook, now);
    SessionPhase(e);
    if v.Fail? {
      RefusedFree(e, c, hook, now);
      RefusalSession(e, c.id, c.user, v.reason);
    } else {
      var r, o := Collect(e, c), AuctionOf(c, e.clock + 1);
      CollectInPhase(e, c, hook, now);
      FreeEverywhere(e, c, hook, now);
      UnusedQty(e, c.id);
      OneEvent(e, OrderAccepted(c.id, c.user, c.side, Limit, 0, c.price, c.qty, c.qty, c.tif, e.clock + 1), r);
      forall id
        ensures OpenAfter(0, r.log, id) == QtyOf(r.auctionBids, id) + QtyOf(r.auctionAsks, id)
      {
        QtyJoined(c.side, if c.side == Bid then e.auctionBids else e.auctionAsks, o, id);
      }
    }
  }

  lemma UnusedQty(e: Engine, id: OrderId)
    requires Named(e.auctionBids, id) + Named(e.auctionAsks, id) + Named([], id) == 0
    ensures QtyOf(e.auctionBids, id) + QtyOf(e.auctionAsks, id) == 0
  {
    NamedPositive(e.auctionBids, id);
    NamedPositive(e.auctionAsks, id);
    NamedPositive([], id);
    NoQty(e.auctionBids, id);
    NoQty(e.auctionAsks, id);
  }

  /** Reasons that end an order come after the check that its id is free. */
  lemma RefusedFree(e: Engine, c: LimitCmd, hook: HookAnswer, now: int)
    requires e.cfg.auctions
    ensures var v := CheckLimit(e, c, hook, now);
            v.Fail? && (v.reason == FOKFailed || v.reason == PoolExhausted) ==> QtyOf(e.auctionBids, c.id) + QtyOf(e.auctionAsks, c.id) == 0
  {
    hide SumLevels, FindStop, HasLevel, OverValue, QtyOf, Named;
    InAuctionNamed(e, c.id);
    if !InAuction(e, c.id) {
      NamedPositive(e.auctionBids, c.id);
      NamedPositive(e.auctionAsks, c.id);
      NoQty(e.auctionBids, c.id);
      NoQty(e.auctionAsks, c.id);
    }
  }

  lemma {:induction false} NothingExpires(e: Engine, orders: seq<OrderId>, stops: seq<OrderId>)
    requires e.book == EMPTY_BOOK && e.stops == NO_STOPS
    ensures ExpireOrders(e, orders) == e && ExpireStops(e, stops) == e
    decreases |orders| + |stops|
  {
    if orders != [] {
      NothingExpires(e, orders[..|orders| - 1], stops);
    } else if stops != [] {
      NothingExpires(e, orders, stops[..|stops| - 1]);
    }
  }

  lemma NothingThere(e: Engine, id: OrderId)
    requires e.book == EMPTY_BOOK && e.stops == NO_STOPS
    ensures Find(e.book, id) == Missing && FindStop(e.stops, id) == NoStop
  {
  }

  /** Every command of a session keeps it. */
  lemma SessionKept(e: Engine, c: Command, now: int)
    requires InSession(e) && SessionCommand(e, c, now)
    ensures InSession(Process(e, c, now)) && Process(e, c, now).cfg == e.cfg
  {
    hide InSession, ProcessLimit, CheckLimit, CheckMarket, CheckStop, ExpireOrders, ExpireStops, Find, FindStop, StopShares;
    SessionPhase(e);
    match c
    case PlaceLimit(l, hook) =>
      LimitSession(e, l, hook, now);
      LimitConfig(e, l, hook, now);
    case PlaceMarket(m) => RefusalSession(e, m.id, m.user, MarketNotOpen);
      NotOpenFails(e, m);
    case PlaceStop(s) =>
      StopRefused(e, s, now);
      RefusalSession(e, s.id, s.user, CheckStop(e, s, now).reason);
    case CancelOrder(id, user) =>
      NothingThere(e, id);
      RefusalSession(e, id, user, OrderNotFound);
    case ExpiryTick(orders, stops) => NothingExpires(e, orders, stops);
    case AdminHalt =>
      if e.state.Auction? {
        StateSession(e, Halt(e, HaltAdmin), MarketHalted(HaltAdmin));
      } else {
        SilentSession(e, Halt(e, HaltAdmin));
      }
    case AdminResume =>
      if e.state.Halted? {
        StateSession(e, ProcessResume(e), MarketResumed);
      }
    case OpenAuction =>
      if e.state.Halted? {
        StateSession(e, ProcessOpenAuction(e), AuctionOpened);
      }
  }

  lemma LimitConfig(e: Engine, c: LimitCmd, hook: HookAnswer, now: int)
    requires InSession(e) && !(e.state.Halted? && CheckLimit(e, c, hook, now).Pass?)
    ensures ProcessLimit(e, c, hook, now).cfg == e.cfg
  {
    hide InSession, CheckLimit, Joined;
    SessionPhase(e);
  }

  lemma NotOpenFails(e: Engine, m: MarketCmd)
    requires !e.state.Open?
    ensures CheckMarket(e, m) == Fail(MarketNotOpen)
  {
  }

  /** No stop is let in, and none is refused for a reason that ends an order. */
  lemma StopRefused(e: Engine, c: StopCmd, now: int)
    requires (e.state.Auction? || e.state.Halted?) && !(e.state.Halted? && CheckStop(e, c, now).Pass?)
    ensures var v := CheckStop(e, c, now); v.Fail? && v.reason != FOKFailed && v.reason != PoolExhausted
  {
    hide Holds, StopHeld, OverValue;
  }

  /** Every input of a session's run is a command of the session. */
  ghost predicate SessionInputs(e: Engine, inputs: seq<Input>) {
    forall k :: 0 <= k < |inputs| ==> SessionCommand(StateAt(e, inputs, k), inputs[k].cmd, inputs[k].now)
  }

  lemma {:induction false} SessionRuns(e: Engine, inputs: seq<Input>)
    requires InSession(e) && SessionInputs(e, inputs)
    ensures InSession(RunAll(e, inputs)) && RunAll(e, inputs).cfg == e.cfg
  {
    hide InSession, Process, SessionCommand;
    if inputs != [] {
      var k := |inputs| - 1;
      StateNext(e, inputs);
      SessionRuns(e, inputs[..k]);
      SessionKept(StateAt(e, inputs, k), inputs[k].cmd, inputs[k].now);
    }
  }

  // ----- Carrying over, event by event -----

  /** What each order has open is what rests or waits, what is still to be carried, and what is still to be canceled. */
  ghost predicate OpenWith(e: Engine, os: seq<AuctionOrder>, imm: seq<AuctionOrder>) {
    forall id :: OpenAfter(0, e.log, id) == OpenQty(e, [], id) + QtyOf(os, id) + QtyOf(imm, id)
  }

  /** One order carried over keeps feed, ledger and positions in step. */
  lemma CarryFolds(e: Engine, o: AuctionOrder, rest: seq<AuctionOrder>, all: seq<AuctionOrder>, imm: seq<AuctionOrder>)
    requires Carrying(e, [o] + rest) && Separate(all) && LevelsFrom(e.book, all) && o in all
    requires Named(imm, o.id) == 0 && OpenWith(e, [o] + rest, imm) && FeedAgrees(e) && PositionsAgree(e)
    ensures var r := CarryOne(e, o); OpenWith(r, rest, imm) && FeedAgrees(r) && PositionsAgree(r)
  {
    hide Carrying, DepthAfter, OpenAfter, SumEvents, InfoAt, SumLevels, SumStops, RestOnly, Rest, CanRestIn, Named, QtyOf, LevelsFrom, Separate, WFBook, WFStops;
    var r, c := CarryOne(e, o), Carried(o);
    NextOut(e, o, rest);
    NextFree(e, o, rest, imm);
    CarriedBook(e, o, all);
    CarryingGood(e, [o] + rest);
    forall id
      ensures QtyOf([o] + rest, id) == (if o.id == id then o.qty else 0) + QtyOf(rest, id)
    {
      QtyOfCons(o, rest, id);
    }
    if CountOrders(e.book) >= e.cfg.nodeCap {
      OneEvent(e, OrderRejected(o.id, o.user, PoolExhausted), r);
      SameIds(e, r, []);
    } else {
      CarryRests(e, o, all);
      CarryLog(e, o, all);
      if CanRestIn(e.book, c, e.cfg.levelCap) {
        RestKeeps(e, c, e.clock);
        forall id
          ensures OpenQty(r, [], id) == OpenQty(e, [], id) + OpenOf(id)(c)
        {
          assert SumBook(r.book, OpenOf(id)) == SumBook(e.book, OpenOf(id)) + OpenOf(id)(c);
        }
      } else {
        SameIds(e, r, []);
      }
    }
  }

  /** The log of an order that rests, or finds no level. */
  lemma CarryLog(e: Engine, o: AuctionOrder, all: seq<AuctionOrder>)
    requires CarryOne(e, o) == RestOnly(e, Carried(o)) && PositionsAgree(e)
    ensures var r, c := CarryOne(e, o), Carried(o);
            var rested := CanRestIn(e.book, c, e.cfg.levelCap);
            && PositionsAgree(r)
            && (forall id :: OpenAfter(0, r.log, id) == OpenAfter(0, e.log, id) - if id == o.id && !rested then o.qty else 0)
            && (forall side: Side, price :: DepthAfter(NoLevel, r.log, side, price)
                  == if rested && side == o.side && price == o.price then InfoAt(r.book.Of(side), price) else DepthAfter(NoLevel, e.log, side, price))
  {
    hide DepthAfter, OpenAfter, SumEvents, InfoAt, CanRestIn, DispositionEvents, Rest, CarryOne;
    var r := CarryOne(e, o);
    forall id
      ensures OpenAfter(0, r.log, id) == OpenAfter(0, e.log, id) - if id == o.id && !CanRestIn(e.book, Carried(o), e.cfg.levelCap) then o.qty else 0
    {
      RestOnlyFolds(e, Carried(o), id, "", Bid, 0);
    }
    forall user
      ensures SumEvents(r.log, Bought(user)) == SumEvents(e.log, Bought(user))
    {
      RestOnlyFolds(e, Carried(o), "", user, Bid, 0);
    }
    forall side: Side, price
      ensures DepthAfter(NoLevel, r.log, side, price)
           == if CanRestIn(e.book, Carried(o), e.cfg.levelCap) && side == o.side && price == o.price then InfoAt(r.book.Of(side), price)
              else DepthAfter(NoLevel, e.log, side, price)
    {
      RestOnlyFolds(e, Carried(o), "", "", side, price);
    }
    RestOnlyFolds(e, Carried(o), "", "", Bid, 0);
  }

  lemma QtyOfCons(o: AuctionOrder, rest: seq<AuctionOrder>, id: OrderId)
    ensures QtyOf([o] + rest, id) == (if o.id == id then o.qty else 0) + QtyOf(rest, id)
  {
    QtyConcat([o], rest, id);
    assert [o][..0] == [];
  }

  /** The next order's id has nothing else open. */
  lemma NextFree(e: Engine, o: AuctionOrder, rest: seq<AuctionOrder>, imm: seq<AuctionOrder>)
    requires Carrying(e, [o] + rest) && Named(imm, o.id) == 0
    ensures OpenQty(e, [], o.id) == 0 && QtyOf(rest, o.id) == 0 && QtyOf(imm, o.id) == 0
  {
    hide Good, Named, OlderAt, QtyOf, OpenQty, IdCount, TimeOrdered, Positive;
    IdsPositive(e, o.id);
    assert IdCount(e, [], o.id) + Named([o] + rest, o.id) <= 1;
    NamedConcat([o], rest, o.id);
    NamedOne(o, o.id);
    NamedPositive(rest, o.id);
    NoQty(rest, o.id);
    NoQty(imm, o.id);
    IdUnused(e, [], o.id);
  }

  lemma IdsPositive(e: Engine, id: OrderId)
    ensures IdCount(e, [], id) >= 0
  {
    SideCount(e.book.bids, id);
    SideCount(e.book.asks, id);
    StopCount(e.stops.sells, id);
    StopCount(e.stops.buys, id);
  }

  /** No order is both carried over and canceled. */
  ghost predicate Disjoint(os: seq<AuctionOrder>, imm: seq<AuctionOrder>) {
    forall o :: o in os ==> Named(imm, o.id) == 0
  }

  lemma {:induction false} CarryAllFolds(e: Engine, all: seq<AuctionOrder>, imm: seq<AuctionOrder>, k: nat)
    requires Carrying(e, all) && Separate(all) && LevelsFrom(e.book, all) && k <= |all| && Disjoint(all, imm)
    requires OpenWith(e, all, imm) && FeedAgrees(e) && PositionsAgree(e)
    ensures var r := CarryOver(e, all[..k]); OpenWith(r, all[k..], imm) && FeedAgrees(r) && PositionsAgree(r)
  {
    hide Carrying, LevelsFrom, CarryOne, Separate, OpenWith, FeedAgrees, PositionsAgree, Named, NoSTP, SumBook;
    if k > 0 {
      CarryAllFolds(e, all, imm, k - 1);
      CarryAll(e, all, k - 1);
      assert all[..k][..k - 1] == all[..k - 1] && all[k - 1..] == [all[k - 1]] + all[k..];
      CarryFolds(CarryOver(e, all[..k - 1]), all[k - 1], all[k..], all, imm);
    } else {
      assert all[..0] == [] && all[0..] == all;
    }
  }

  // ----- Clearing, event by event -----

  /** Cancels alone: they take from what is open, and change nothing else. */
  lemma {:induction false} CancelsFold(e: Engine, os: seq<AuctionOrder>, id: OrderId, user: UserId, side: Side, price: int)
    ensures var log := e.log + CanceledLog(os);
            && OpenAfter(0, log, id) == OpenAfter(0, e.log, id) - QtyOf(os, id)
            && SumEvents(log, Bought(user)) == SumEvents(e.log, Bought(user)) && SumEvents(log, BoughtByAll) == SumEvents(e.log, BoughtByAll)
            && DepthAfter(NoLevel, log, side, price) == DepthAfter(NoLevel, e.log, side, price)
  {
    hide OpenAfter, SumEvents, DepthAfter;
    if os == [] {
      assert e.log + [] == e.log;
    } else {
      var f, o := os[..|os| - 1], os[|os| - 1];
      CancelsFold(e, f, id, user, side, price);
      var ev := OrderCanceled(o.id, o.user, o.side, o.price, o.qty, 0, NotFilled);
      assert e.log + (CanceledLog(f) + [ev]) == (e.log + CanceledLog(f)) + [ev];
      LogStep(e.log + CanceledLog(f), ev, id, user, side, price);
    }
  }

  /** All fills of an auction are against asks, and announce that nothing is known of the level. */
  ghost predicate Blank(fills: seq<Fill>) {
    forall i :: 0 <= i < |fills| ==> fills[i].makerSide == Ask && fills[i].level == NoLevel
  }

  lemma {:induction false} PairsBlank(bs: seq<AuctionOrder>, as': seq<AuctionOrder>, p: int)
    ensures Blank(PairUp(bs, as', p))
    decreases |bs| + |as'|
  {
    if bs == [] || as' == [] {
    } else if bs[0].qty == 0 {
      PairsBlank(bs[1..], as', p);
    } else if as'[0].qty == 0 {
      PairsBlank(bs, as'[1..], p);
    } else {
      var q := Min(bs[0].qty, as'[0].qty);
      PairsBlank(bs[1..], [as'[0].(qty := as'[0].qty - q)] + as'[1..], p);
      PairsBlank([bs[0].(qty := bs[0].qty - q)] + bs[1..], as'[1..], p);
    }
  }

  lemma {:induction false} BlankAnnounces(fills: seq<Fill>, price: int)
    requires Blank(fills)
    ensures Announced(fills, price, NoLevel) == NoLevel && MakersOn(fills, Ask)
  {
    if fills != [] {
      BlankAnnounces(fills[..|fills| - 1], price);
    }
  }

  /** The sweep's fills move positions and take from what was collected; the feed goes on showing nothing. */
  lemma SweepFolds(e: Engine, c: Clearing)
    requires InSession(e)
    ensures var r := AfterSweep(e, ClearedAt(c));
            OpenWith(r, Unmatched(e, c), Unserved(e, c)) && FeedAgrees(r) && PositionsAgree(r)
  {
    hide InPhase, OpenAfter, SumEvents, DepthAfter, FillsLog, ApplyFills, PairUp, Eligible, Residual, QtyOf, TakerQty, MakerQty, GoodTillCanceled,
      Immediate, Announced, Position, Net, MakersOn, Blank;
    var p := ClearedAt(c);
    var r := AfterSweep(e, p);
    var fills := PairUp(Eligible(Bid, e.auctionBids, p), Eligible(Ask, e.auctionAsks, p), p);
    SessionPhase(e);
    PhasePositive(e);
    PairsBlank(Eligible(Bid, e.auctionBids, p), Eligible(Ask, e.auctionAsks, p), p);
    forall id
      ensures OpenAfter(0, r.log, id) == OpenQty(r, [], id) + QtyOf(Unmatched(e, c), id) + QtyOf(Unserved(e, c), id)
    {
      SweepConserves(e.auctionBids, e.auctionAsks, p, id);
      OpenConcat(0, e.log, FillsLog(fills), id);
      FillsOpen(OpenAfter(0, e.log, id), fills, id);
      NothingRests(r, id);
    }
    forall side: Side, price
      ensures DepthAfter(NoLevel, r.log, side, price) == InfoAt(r.book.Of(side), price)
    {
      BlankAnnounces(fills, price);
      DepthConcat(NoLevel, e.log, FillsLog(fills), side, price);
      assert DepthAfter(NoLevel, e.log, side, price) == InfoAt(e.book.Of(side), price) == NoLevel;
      FillsDepth(NoLevel, fills, Ask, side, price);
    }
    FillsKeepNet(e.positions, fills);
    FillsNeutral(fills, "");
    SumEventsConcat(e.log, FillsLog(fills), BoughtByAll);
    forall user
      ensures Position(r.positions, user) == SumEvents(r.log, Bought(user))
    {
      FillsMovePositions(e.positions, fills, user);
      SumEventsConcat(e.log, FillsLog(fills), Bought(user));
    }
  }

  lemma PhasePositive(e: Engine)
    requires InPhase(e)
    ensures Positive(e.auctionBids) && Positive(e.auctionAsks)
  {
  }

  lemma NothingRests(e: Engine, id: OrderId)
    requires e.book == EMPTY_BOOK && e.stops == NO_STOPS
    ensures OpenQty(e, [], id) == 0
  {
  }

  /** The closing cancels and the announcement of the result. */
  lemma CloseFolds(e: Engine, c: Clearing, e2: Engine)
    requires OpenWith(e2, [], Unserved(e, c)) && FeedAgrees(e2) && PositionsAgree(e2)
    ensures var r := e2.(state := Open).Emit(CanceledLog(Unserved(e, c)) + [AuctionCleared(ClearedAt(c), if c.Clearing? then c.qty else 0)]);
            LedgerAgrees(r, []) && FeedAgrees(r) && PositionsAgree(r)
  {
    hide OpenAfter, SumEvents, DepthAfter, InfoAt, QtyOf, SumLevels, SumStops, CanceledLog, Unserved;
    var imm, ev := Unserved(e, c), AuctionCleared(ClearedAt(c), if c.Clearing? then c.qty else 0);
    var r := e2.(state := Open).Emit(CanceledLog(imm) + [ev]);
    assert r.log == (e2.log + CanceledLog(imm)) + [ev];
    SameIds(e2, r, []);
    forall id
      ensures OpenAfter(0, r.log, id) == OpenQty(r, [], id)
    {
      CancelsFold(e2, imm, id, "", Bid, 0);
      LogStep(e2.log + CanceledLog(imm), ev, id, "", Bid, 0);
      NoneOpen(id);
    }
    forall user
      ensures SumEvents(r.log, Bought(user)) == SumEvents(e2.log, Bought(user))
    {
      CancelsFold(e2, imm, "", user, Bid, 0);
      LogStep(e2.log + CanceledLog(imm), ev, "", user, Bid, 0);
    }
    forall side: Side, price
      ensures DepthAfter(NoLevel, r.log, side, price) == DepthAfter(NoLevel, e2.log, side, price)
    {
      CancelsFold(e2, imm, "", "", side, price);
      LogStep(e2.log + CanceledLog(imm), ev, "", "", side, price);
    }
    CancelsFold(e2, imm, "", "", Bid, 0);
    LogStep(e2.log + CanceledLog(imm), ev, "", "", Bid, 0);
  }

  lemma NoneOpen(id: OrderId)
    ensures QtyOf([], id) == 0
  {
  }

  /** An order is carried over or canceled, never both. */
  lemma CarriedOrCanceled(e: Engine, c: Clearing)
    requires InPhase(e)
    ensures Disjoint(Unmatched(e, c), Unserved(e, c))
  {
    hide Good, Residual, Named, GoodTillCanceled, Immediate, Numbered, Collected;
    var p := ClearedAt(c);
    var rest := Residual(e.auctionBids, e.auctionAsks, p);
    forall o | o in Unmatched(e, c)
      ensures Named(Unserved(e, c), o.id) == 0
    {
      NamedParts(rest, o.id);
      NamedRest(e.auctionBids, e.auctionAsks, p, o.id);
      NamedSome(GoodTillCanceled(rest), o.id);
      NamedSome(Immediate(rest), o.id);
      NamedSome([], o.id);
      IdsPositive(e, o.id);
      assert IdCount(e, [], o.id) + Named(e.auctionBids, o.id) + Named(e.auctionAsks, o.id) + Named([], o.id) <= 1;
    }
  }

  lemma {:induction false} NamedParts(os: seq<AuctionOrder>, id: OrderId)
    ensures Named(GoodTillCanceled(os), id) + Named(Immediate(os), id) == Named(os, id)
  {
    if os != [] {
      var f, o := os[..|os| - 1], os[|os| - 1];
      NamedParts(f, id);
      NamedConcat(GoodTillCanceled(f), [o], id);
      NamedConcat(Immediate(f), [o], id);
      NamedOne(o, id);
    }
  }

  /** From a session, clearing hands over a market in which every order is accounted for, the depth feed is
      right, positions balance, and best bid is below best ask. */
  lemma SessionCleared(e: Engine, c: Clearing)
    requires InSession(e) && e.state.Auction? && Clears(e.auctionBids, e.auctionAsks, e.cfg.reference, c)
    ensures var r := ProcessClearAuction(e, c);
            && Good(r, []) && LedgerAgrees(r, []) && FeedAgrees(r) && PositionsAgree(r) && Uncrossed(r.book) && OutOfAuction(r)
            && r.cfg == e.cfg && SumBook(r.book, Unflagged) == 0 && Reserves(r) == 0 && (e.cfg.stpDefault == STPDisabled ==> NoSTP(r, []))
  {
    hide InPhase, Good, OpenWith, FeedAgrees, PositionsAgree, LedgerAgrees, Clears, Carrying, Separate, LevelsFrom, Residual, AfterSweep, Unmatched,
      Unserved, CarryOver, CanceledLog, Disjoint, NoSTP, CollectedOpen;
    var p, os, imm := ClearedAt(c), Unmatched(e, c), Unserved(e, c);
    var e1 := AfterSweep(e, p);
    ClearedGood(e, c);
    ReadyToCarry(e, c);
    SweepFolds(e, c);
    SweepParts(e, p);
    CarriedOrCanceled(e, c);
    CarryAll(e1, os, |os|);
    CarryAllFolds(e1, os, imm, |os|);
    assert os[..|os|] == os && os[|os|..] == [];
    var e2 := CarryOver(e1, os);
    CloseFolds(e, c, e2);
    ClearingParts(e, c);
    EmptyPlain(e1);
    PlainParts(e2, ProcessClearAuction(e, c));
  }

  lemma EmptyPlain(e: Engine)
    requires e.book == EMPTY_BOOK && e.stops == NO_STOPS
    ensures SumBook(e.book, Unflagged) == 0 && Reserves(e) == 0 && (e.cfg.stpDefault == STPDisabled ==> NoSTP(e, []))
  {
  }

  lemma PlainParts(e: Engine, r: Engine)
    requires r.book == e.book && r.stops == e.stops && r.cfg == e.cfg
    ensures NoSTP(e, []) ==> NoSTP(r, [])
    ensures SumBook(e.book, Unflagged) == 0 ==> SumBook(r.book, Unflagged) == 0
    ensures Reserves(r) == Reserves(e)
  {
  }

  // ----- The whole day -----

  /** The market when its auction has opened. */
  function AuctionMarket(cfg: Config, firstSeq: nat): Engine {
    Process(Initial(cfg, firstSeq), OpenAuction, 0)
  }

  /** The market when the auction is over: opened from the empty market, orders collected, then cleared at the
      price found - there is exactly one that `Clears` admits. */
  function AfterAuction(cfg: Config, firstSeq: nat, collect: seq<Input>, c: Clearing): Engine {
    Process(RunAll(AuctionMarket(cfg, firstSeq), collect), ClearAuction(c), 0)
  }

  /** These inputs collect orders - with halts and resumes, as long as nothing else is let in - and the market is
      in the auction when it is cleared, at the price that clears it. */
  ghost predicate Session(cfg: Config, firstSeq: nat, collect: seq<Input>, c: Clearing) {
    var e := RunAll(AuctionMarket(cfg, firstSeq), collect);
    SessionInputs(AuctionMarket(cfg, firstSeq), collect) && e.state.Auction? && Clears(e.auctionBids, e.auctionAsks, cfg.reference, c)
  }

  lemma AuctionHandsOver(cfg: Config, firstSeq: nat, collect: seq<Input>, c: Clearing)
    requires cfg.auctions && Session(cfg, firstSeq, collect, c)
    ensures var r := AfterAuction(cfg, firstSeq, collect, c);
            && Good(r, []) && LedgerAgrees(r, []) && FeedAgrees(r) && PositionsAgree(r) && Uncrossed(r.book) && OutOfAuction(r)
            && r.cfg == cfg && SumBook(r.book, Unflagged) == 0 && Reserves(r) == 0 && (cfg.stpDefault == STPDisabled ==> NoSTP(r, []))
  {
    hide InSession, RunAll, Handle, Clears, Good, LedgerAgrees, FeedAgrees, PositionsAgree, Uncrossed, NoSTP, Reserves, SumBook, OutOfAuction,
      ProcessClearAuction, AuctionMarket, SessionInputs;
    var start := AuctionMarket(cfg, firstSeq);
    SessionOpens(cfg, firstSeq, 0);
    StartConfig(cfg, firstSeq);
    SessionRuns(start, collect);
    var e := RunAll(start, collect);
    SessionPhase(e);
    SessionCleared(e, c);
    ClearHandled(e, c);
  }

  lemma StartConfig(cfg: Config, firstSeq: nat)
    ensures AuctionMarket(cfg, firstSeq).cfg == cfg && AuctionMarket(cfg, firstSeq) == Process(Initial(cfg, firstSeq), OpenAuction, 0)
  {
  }

  lemma ClearHandled(e: Engine, c: Clearing)
    requires !e.crashed && e.cfg.auctions
    ensures Process(e, ClearAuction(c), 0) == ProcessClearAuction(e, c)
  {
  }

  /** From the empty market through its opening auction and any continuous trading after it: the market stays
      good and positions balance whatever is submitted; without self-trade modes every order of either phase is
      accounted for as long as no reserve is lost - never without icebergs - and the feed reproduces the book as
      long as nothing that rests expires. */
  lemma DayAccountedFor(cfg: Config, firstSeq: nat, collect: seq<Input>, c: Clearing, trade: seq<Input>)
    requires cfg.auctions && Session(cfg, firstSeq, collect, c) && forall k :: 0 <= k < |trade| ==> !AuctionCommand(trade[k].cmd)
    ensures var e := AfterAuction(cfg, firstSeq, collect, c); var r := RunAll(e, trade);
            && Good(r, []) && PositionsAgree(r)
            && (cfg.stpDefault == STPDisabled && (LedgerInputs(e, trade) || SimpleInputs(trade)) ==> LedgerAgrees(r, []))
            && (cfg.stpDefault == STPDisabled && FeedInputs(e, trade) ==> FeedAgrees(r))
  {
    hide Good, LedgerAgrees, FeedAgrees, PositionsAgree, NoSTP, Reserves, SumBook, OutOfAuction, AfterAuction, RunAll, Session, FeedInputs,
      SimpleInputs, LedgerInputs;
    var e := AfterAuction(cfg, firstSeq, collect, c);
    AuctionHandsOver(cfg, firstSeq, collect, c);
    RunsStayGood(e, trade);
    if cfg.stpDefault == STPDisabled {
      if LedgerInputs(e, trade) {
        RunsKeepLedger(e, trade);
      } else if SimpleInputs(trade) {
        SimpleRunsKeepLedger(e, trade);
      }
      if FeedInputs(e, trade) {
        RunsKeepFeed(e, trade);
      }
    }
  }

  // ----- The phase over runs -----

  ghost predicate PhaseThroughout(e: Engine, inputs: seq<Input>) {
    forall k :: 0 <= k <= |inputs| ==> InPhase(StateAt(e, inputs, k))
  }

  ghost predicate NoneLeaves(e: Engine, inputs: seq<Input>) {
    forall k :: 0 <= k < |inputs| ==> !LeavesPhase(StateAt(e, inputs, k), inputs[k].cmd, inputs[k].now)
  }

  lemma NextInPhase(e: Engine, inputs: seq<Input>, k: nat)
    requires k < |inputs| && InPhase(StateAt(e, inputs, k)) && !inputs[k].cmd.ClearAuction?
    ensures InPhase(StateAt(e, inputs, k + 1)) <==> !LeavesPhase(StateAt(e, inputs, k), inputs[k].cmd, inputs[k].now)
  {
    hide InPhase, Process, LeavesPhase;
    var part := inputs[..k + 1];
    assert part[..k] == inputs[..k] && part[k] == inputs[k];
    StateNext(e, part);
    PhaseKept(StateAt(e, inputs, k), inputs[k].cmd, inputs[k].now);
  }

  lemma {:induction false} PhaseUpTo(e: Engine, inputs: seq<Input>, k: nat)
    requires InPhase(e) && NoneLeaves(e, inputs) && k <= |inputs| && forall j :: 0 <= j < |inputs| ==> !inputs[j].cmd.ClearAuction?
    ensures InPhase(StateAt(e, inputs, k))
  {
    hide InPhase, LeavesPhase;
    if k > 0 {
      PhaseUpTo(e, inputs, k - 1);
      NextInPhase(e, inputs, k - 1);
    } else {
      assert inputs[..0] == [];
    }
  }

  /** Up to clearing, a run stays in the phase exactly when none of its inputs leaves it. */
  lemma PhaseRuns(e: Engine, inputs: seq<Input>)
    requires InPhase(e) && forall j :: 0 <= j < |inputs| ==> !inputs[j].cmd.ClearAuction?
    ensures PhaseThroughout(e, inputs) <==> NoneLeaves(e, inputs)
  {
    hide InPhase, LeavesPhase, StateAt;
    if PhaseThroughout(e, inputs) {
      forall k | 0 <= k < |inputs|
        ensures !LeavesPhase(StateAt(e, inputs, k), inputs[k].cmd, inputs[k].now)
      {
        assert InPhase(StateAt(e, inputs, k)) && InPhase(StateAt(e, inputs, k + 1));
        NextInPhase(e, inputs, k);
      }
    }
    if NoneLeaves(e, inputs) {
      forall k | 0 <= k <= |inputs|
        ensures InPhase(StateAt(e, inputs, k))
      {
        PhaseUpTo(e, inputs, k);
      }
    }
  }

  /** From the empty market, whatever came before - orders rested and canceled, stops, halts - clearing at a time
      when the book is empty leaves a good, open and uncrossed market. */
  lemma PhaseRunsClear(cfg: Config, firstSeq: nat, inputs: seq<Input>, c: Clearing)
    requires cfg.auctions && NoneLeaves(Initial(cfg, firstSeq), inputs) && forall j :: 0 <= j < |inputs| ==> !inputs[j].cmd.ClearAuction?
    requires var e := RunAll(Initial(cfg, firstSeq), inputs);
             !e.state.Halted? && e.book == EMPTY_BOOK && Clears(e.auctionBids, e.auctionAsks, e.cfg.reference, c)
    ensures var r := ProcessClearAuction(RunAll(Initial(cfg, firstSeq), inputs), c); Good(r, []) && r.state.Open? && Uncrossed(r.book)
  {
    hide InPhase, RunAll, Clears, Good, ProcessClearAuction, LeavesPhase;
    var start := Initial(cfg, firstSeq);
    PhaseStarts(cfg, firstSeq);
    PhaseUpTo(start, inputs, |inputs|);
    assert inputs[..|inputs|] == inputs;
    ClearedGood(RunAll(start, inputs), c);
  }
}
