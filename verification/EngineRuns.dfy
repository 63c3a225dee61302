/** Theorems about whole runs of the command processor. */
module EngineRuns {
  import opened Domain
  import opened BookSpec
  import opened BookLemmas
  import opened MatchSpec
  import opened MatchTheorems
  import opened MatchQuantities
  import opened MatchScans
  import opened PlaceEffects
  import opened StopSpec
  import opened Circuit
  import opened Auctions
  import opened Positions
  import opened EngineSpec
  import opened EventFolds
  import opened EngineInvariants
  import opened EngineSteps
  import opened EngineCascade
  import opened EngineCommands

  // ----- Orders that pass the checks are admissible -----

  lemma FreeId(e: Engine, id: OrderId)
    requires !Holds(e.book, id) && !StopHeld(e.stops, id)
    ensures IdCount(e, [], id) == 0
  {
    SideCount(e.book.bids, id);
    SideCount(e.book.asks, id);
    StopCount(e.stops.sells, id);
    StopCount(e.stops.buys, id);
  }

  lemma LimitAdmissible(e: Engine, c: LimitCmd, hook: HookAnswer, now: int)
    requires CheckLimit(e, c, hook, now) == Pass && CountOrders(e.book) < e.cfg.nodeCap
    ensures var o := LimitOrder(e.cfg, c, e.clock + 1);
            Admissible(e, o, []) && (o.hidden == 0 || o.iceberg) && o.stp == c.stp
  {
    hide SumLevels, FindStop, HasLevel, OverValue;
    FreeId(e, c.id);
  }

  lemma MarketAdmissible(e: Engine, c: MarketCmd)
    requires CheckMarket(e, c) == Pass && CountOrders(e.book) < e.cfg.nodeCap
    ensures Admissible(e, MarketOrder(c, e.clock + 1), [])
  {
    hide SumLevels, FindStop;
    FreeId(e, c.id);
  }

  // ----- Resting without matching -----

  /** An order that is newer than everything at its price rests: what becomes of the book. */
  lemma RestKeeps(e: Engine, o: Order, later: nat)
    requires Good(e, []) && WFOrder(o) && e.clock <= later && o.seqNum <= later && OlderAt(e.book.Of(o.side), o.price, o.seqNum)
    requires CanRestIn(e.book, o, e.cfg.levelCap) && CountOrders(e.book) < e.cfg.nodeCap
    ensures var b := Rest(e.book, o);
            && WFBook(b, later) && Levels(b) <= e.cfg.levelCap && CountOrders(b) <= e.cfg.nodeCap
            && (forall f: Order -> int :: SumBook(b, f) == SumBook(e.book, f) + f(o))
            && (forall side: Side, price :: side != o.side || price != o.price ==> InfoAt(b.Of(side), price) == InfoAt(e.book.Of(side), price))
  {
    hide SumLevels, HasLevel, Insert, WFLevel, InfoAt;
    var ls := e.book.Of(o.side);
    LaterBook(e.book, e.clock, later);
    InsertInTime(ls, o, o.side, later);
    InsertLevels(ls, o);
    var b := Rest(e.book, o);
    forall f: Order -> int
      ensures SumBook(b, f) == SumBook(e.book, f) + f(o)
    {
      InsertSum(ls, o, f);
    }
    assert CountOrders(b) == CountOrders(e.book) + One(o);
    forall side: Side, price | side != o.side || price != o.price
      ensures InfoAt(b.Of(side), price) == InfoAt(e.book.Of(side), price)
    {
      if side == o.side {
        InsertInfo(ls, o, price);
      }
    }
  }

  /** Before the open and while halted: a new order is newer than everything. */
  lemma RestGood(e: Engine, o: Order)
    requires Good(e, []) && Admissible(e, o, []) && CanRestIn(e.book, o, e.cfg.levelCap)
    ensures var b := Rest(e.book, o);
            && WFBook(b, e.clock + 1) && Levels(b) <= e.cfg.levelCap && CountOrders(b) <= e.cfg.nodeCap
            && (forall f: Order -> int :: SumBook(b, f) == SumBook(e.book, f) + f(o))
            && (forall side: Side, price :: side != o.side || price != o.price ==> InfoAt(b.Of(side), price) == InfoAt(e.book.Of(side), price))
  {
    hide SumLevels, HasLevel, Insert, SoundLevel, InfoAt, CanRestIn;
    RestKeeps(e, o, e.clock + 1);
  }

  /** The log after an order rests, or not, without matching. */
  lemma RestOnlyFolds(e: Engine, o: Order, id: OrderId, user: UserId, side: Side, price: int)
    ensures var r := RestOnly(e, o);
            var rested := CanRestIn(e.book, o, e.cfg.levelCap);
            && DepthAfter(NoLevel, r.log, side, price)
               == (if rested && side == o.side && price == o.price then InfoAt(r.book.Of(side), price) else DepthAfter(NoLevel, e.log, side, price))
            && OpenAfter(0, r.log, id) == OpenAfter(0, e.log, id) - (if id == o.id && !rested then o.origQty else 0)
            && SumEvents(r.log, Bought(user)) == SumEvents(e.log, Bought(user))
            && SumEvents(r.log, BoughtByAll) == SumEvents(e.log, BoughtByAll)
            && SumEvents(r.log, IsHalt) == SumEvents(e.log, IsHalt)
            && SumEvents(r.log, IsTrigger(id)) == SumEvents(e.log, IsTrigger(id))
  {
    hide DepthAfter, OpenAfter, SumEvents, InfoAt, DispositionEvents, Rest, CanRestIn;
    var d := if CanRestIn(e.book, o, e.cfg.levelCap) then Rested else Canceled;
    var b := if CanRestIn(e.book, o, e.cfg.levelCap) then Rest(e.book, o) else e.book;
    var es := DispositionEvents(b, o, [], d);
    assert RestOnly(e, o).log == e.log + es;
    DepthConcat(NoLevel, e.log, es, side, price);
    OpenConcat(0, e.log, es, id);
    SumEventsConcat(e.log, es, Bought(user));
    SumEventsConcat(e.log, es, BoughtByAll);
    SumEventsConcat(e.log, es, IsHalt);
    SumEventsConcat(e.log, es, IsTrigger(id));
    DispositionDepth(DepthAfter(NoLevel, e.log, side, price), b, o, [], d, side, price);
    DispositionOpen(OpenAfter(0, e.log, id), b, o, [], d, id);
    DispositionSums(b, o, [], d, Bought(user));
    DispositionSums(b, o, [], d, BoughtByAll);
    DispositionSums(b, o, [], d, IsHalt);
    DispositionSums(b, o, [], d, IsTrigger(id));
    NoFillsQty(id);
  }

  /** ... after it was let in. */
  lemma RestFolds(e: Engine, o: Order, id: OrderId, user: UserId, side: Side, price: int)
    ensures var r := RestOnly(Accept(e, o), o);
            var rested := CanRestIn(e.book, o, e.cfg.levelCap);
            && DepthAfter(NoLevel, r.log, side, price)
               == (if rested && side == o.side && price == o.price then InfoAt(r.book.Of(side), price) else DepthAfter(NoLevel, e.log, side, price))
            && OpenAfter(0, r.log, id) == (if id != o.id then OpenAfter(0, e.log, id) else if rested then o.origQty else 0)
            && SumEvents(r.log, Bought(user)) == SumEvents(e.log, Bought(user))
            && SumEvents(r.log, BoughtByAll) == SumEvents(e.log, BoughtByAll)
            && SumEvents(r.log, IsHalt) == SumEvents(e.log, IsHalt)
            && SumEvents(r.log, IsTrigger(id)) == SumEvents(e.log, IsTrigger(id))
  {
    hide DepthAfter, OpenAfter, SumEvents, InfoAt, RestOnly, CanRestIn;
    LogStep(e.log, OrderAccepted(o.id, o.user, o.side, o.typ, 0, o.price, o.origQty, o.display, o.tif, o.seqNum), id, user, side, price);
    RestOnlyFolds(Accept(e, o), o, id, user, side, price);
  }

  lemma RestMaintains(e: Engine, o: Order)
    requires Good(e, []) && Admissible(e, o, []) && (o.hidden == 0 || o.iceberg)
    ensures var r := RestOnly(Accept(e, o), o);
            && Good(r, []) && (PositionsAgree(e) ==> PositionsAgree(r)) && HaltBudget(r) == HaltBudget(e)
            && (o.stp == STPDisabled && Tracked(e, []) ==> Tracked(r, []))
            && (o.stp == STPDisabled && Ledgered(e, []) ==> Ledgered(r, []))
            && (forall id :: TriggerTotal(r, [], id) == TriggerTotal(e, [], id))
  {
    hide DepthAfter, OpenAfter, SumEvents, InfoAt, DispositionEvents, Rest, CanRestIn, WFBook, WFStops, SumLevels, SumStops, WFOrder;
    var r := RestOnly(Accept(e, o), o);
    if CanRestIn(e.book, o, e.cfg.levelCap) {
      RestGood(e, o);
    }
    IdUnused(e, [], o.id);
    LaterBook(e.book, e.clock, e.clock + 1);
    LaterStops(e.stops, e.clock, e.clock + 1);
    forall id
      ensures IdCount(r, [], id) <= 1
      ensures OpenQty(r, [], id) == OpenQty(e, [], id) + if CanRestIn(e.book, o, e.cfg.levelCap) && id == o.id then o.remain + o.hidden else 0
      ensures OpenAfter(0, r.log, id) == (if id != o.id then OpenAfter(0, e.log, id) else if CanRestIn(e.book, o, e.cfg.levelCap) then o.origQty else 0)
      ensures TriggerTotal(r, [], id) == TriggerTotal(e, [], id)
    {
      assert IdCount(e, [], id) <= if id == o.id then 0 else 1;
      if CanRestIn(e.book, o, e.cfg.levelCap) {
        assert SumBook(r.book, HasId(id)) == SumBook(e.book, HasId(id)) + HasId(id)(o);
        assert SumBook(r.book, OpenOf(id)) == SumBook(e.book, OpenOf(id)) + OpenOf(id)(o);
      }
      RestFolds(e, o, id, "", Bid, 0);
    }
    forall side: Side, price
      ensures DepthAfter(NoLevel, r.log, side, price)
           == if CanRestIn(e.book, o, e.cfg.levelCap) && side == o.side && price == o.price then InfoAt(r.book.Of(side), price)
              else DepthAfter(NoLevel, e.log, side, price)
    {
      RestFolds(e, o, "", "", side, price);
    }
    forall user
      ensures SumEvents(r.log, Bought(user)) == SumEvents(e.log, Bought(user))
    {
      RestFolds(e, o, "", user, Bid, 0);
    }
    RestFolds(e, o, "", "", Bid, 0);
    if CanRestIn(e.book, o, e.cfg.levelCap) {
      assert SumBook(r.book, STPOn) == SumBook(e.book, STPOn) + STPOn(o);
      assert SumBook(r.book, Unflagged) == SumBook(e.book, Unflagged) + Unflagged(o);
    }
  }

  // ----- Matching orders -----

  /** Letting an order in, matching it, and everything that its trades set off. */
  lemma FollowMaintains(e: Engine, o: Order, now: int)
    requires Good(e, []) && Admissible(e, o, []) && (o.hidden == 0 || o.iceberg)
    ensures var r := PlaceAndFollow(e, o, now);
            && Good(r, []) && r.cfg == e.cfg && (PositionsAgree(e) ==> PositionsAgree(r)) && HaltBudget(r) <= HaltBudget(e)
            && (o.stp == STPDisabled && Tracked(e, []) ==> Tracked(r, []))
            && (o.stp == STPDisabled && Ledgered(e, []) && !DropsReserve(e, o) ==> Ledgered(r, []))
            && (Uncrossed(e.book) ==> Uncrossed(r.book)) && (OutOfAuction(e) ==> OutOfAuction(r))
            && (forall id :: TriggerTotal(r, [], id) == TriggerTotal(e, [], id))
  {
    hide Good, Tracked, LedgerAgrees, PositionsAgree, HaltBudget, TriggerTotal, Enter, Admissible, Uncrossed, CheckStops, SumLevels, SumStops;
    var e1 := Enter(e, o);
    EnterParts(e, o);
    EnterGood(e, o, []);
    EnterCounts(e, o, []);
    if PositionsAgree(e) {
      EnterPositions(e, o);
    }
    if o.stp == STPDisabled && Tracked(e, []) {
      EnterTracked(e, o, []);
    }
    if o.stp == STPDisabled && Ledgered(e, []) && !DropsReserve(e, o) {
      AllLedgers(e);
      EnterLedgered(e, o, []);
    }
    match Traded(Accept(e, o), o)
    case NoTrade =>
    case LastPrice(p) => CascadeKeeps(e1, [], p, 0, now);
  }

  lemma AllLedgers(e: Engine)
    requires LedgerAgrees(e, [])
    ensures forall id :: OpenAfter(0, e.log, id) == OpenQty(e, [], id)
  {
  }

  // ----- One command -----

  /** Without auctions these commands do nothing; with them they start and end one. */
  predicate AuctionCommand(c: Command) {
    c.OpenAuction? || c.ClearAuction?
  }

  /** A command without a self-trade mode of its own. */
  predicate PlainCommand(c: Command) {
    match c
    case PlaceLimit(l, _) => l.stp == STPDisabled
    case PlaceMarket(m) => m.stp == STPDisabled
    case PlaceStop(s) => s.stp == STPDisabled
    case _ => true
  }

  /** The command expires no resting order. */
  predicate ExpiresNothing(e: Engine, c: Command) {
    c.ExpiryTick? ==> NoneRests(e.book, c.orders)
  }

  /** The command ends an order while it still has a reserve: an iceberg whose first slice is filled on
      arrival, or one that expires. */
  predicate LosesReserve(e: Engine, c: Command, now: int) {
    match c
    case PlaceLimit(l, hook) =>
      && !e.state.Halted? && !e.state.PreOpen? && CheckLimit(e, l, hook, now) == Pass && CountOrders(e.book) < e.cfg.nodeCap
      && DropsReserve(e, LimitOrder(e.cfg, l, e.clock + 1))
    case ExpiryTick(orders, _) => ExpiresReserve(e, orders)
    case _ => false
  }

  /** The order is let in to rest without matching, at a price at which it would have traded. */
  predicate RestsAcross(e: Engine, c: LimitCmd, hook: HookAnswer, now: int) {
    && (e.state.Halted? || e.state.PreOpen?) && CheckLimit(e, c, hook, now) == Pass && CountOrders(e.book) < e.cfg.nodeCap
    && CanRestIn(e.book, LimitOrder(e.cfg, c, e.clock + 1), e.cfg.levelCap) && WouldCross(e.book, c.side, c.price)
  }

  predicate CrossesAtRest(e: Engine, c: Command, now: int) {
    !e.crashed && c.PlaceLimit? && RestsAcross(e, c.limit, c.hook, now)
  }

  lemma LimitMaintains(e: Engine, c: LimitCmd, hook: HookAnswer, now: int)
    requires Good(e, []) && !(e.state.Auction? && e.cfg.auctions)
    ensures var r := ProcessLimit(e, c, hook, now);
            && Good(r, []) && r.cfg == e.cfg && (PositionsAgree(e) ==> PositionsAgree(r)) && HaltBudget(r) <= HaltBudget(e)
            && (c.stp == STPDisabled && Tracked(e, []) ==> Tracked(r, []))
            && (c.stp == STPDisabled && Ledgered(e, []) && !LosesReserve(e, PlaceLimit(c, hook), now) ==> Ledgered(r, []))
            && (Uncrossed(e.book) ==> (Uncrossed(r.book) <==> !RestsAcross(e, c, hook, now))) && (OutOfAuction(e) ==> OutOfAuction(r))
            && (forall id :: TriggerTotal(r, [], id) == TriggerTotal(e, [], id))
  {
    hide Good, Tracked, Ledgered, PositionsAgree, HaltBudget, TriggerTotal, Admissible, Uncrossed, PlaceAndFollow, RestOnly, CheckLimit, LimitOrder, SumBook, IdCount,
      DropsReserve, CanRestIn, WouldCross, Rest;
    var v := CheckLimit(e, c, hook, now);
    if v.Fail? || CountOrders(e.book) >= e.cfg.nodeCap {
      var reason := if v.Fail? then v.reason else PoolExhausted;
      RefusalHarmless(e, c, hook, now);
      RejectMaintains(e, [], c.id, c.user, reason);
      RejectQuiet(e, c.id, c.user, reason);
    } else {
      var o := LimitOrder(e.cfg, c, e.clock + 1);
      LimitAdmissible(e, c, hook, now);
      if e.state.Halted? || e.state.PreOpen? {
        RestMaintains(e, o);
        RestConfig(e, o);
        LimitFields(e, c);
        if Uncrossed(e.book) {
          RestUncrossed(e.book, o);
        }
      } else {
        FollowMaintains(e, o, now);
      }
    }
  }

  /** Collecting an order for the auction leaves the continuous market as it was. */
  lemma CollectGood(e: Engine, c: LimitCmd)
    requires Good(e, [])
    ensures var r := Collect(e, c);
            && Good(r, []) && r.cfg == e.cfg && r.book == e.book && r.stops == e.stops && r.positions == e.positions && r.state == e.state
  {
    hide SumLevels, SumStops, WFSide, WFStopSide, Joined;
    LaterBook(e.book, e.clock, e.clock + 1);
    LaterStops(e.stops, e.clock, e.clock + 1);
    SameIds(e, Collect(e, c), []);
  }

  /** Collecting triggers no stop and halts nothing. */
  lemma CollectQuiet(e: Engine, c: LimitCmd)
    ensures var r := Collect(e, c);
            && SumEvents(r.log, IsHalt) == SumEvents(e.log, IsHalt) && r.stops == e.stops
            && (forall id :: SumEvents(r.log, IsTrigger(id)) == SumEvents(e.log, IsTrigger(id)))
  {
    hide SumEvents, Joined;
    var ev := OrderAccepted(c.id, c.user, c.side, Limit, 0, c.price, c.qty, c.qty, c.tif, e.clock + 1);
    forall id
      ensures SumEvents(Collect(e, c).log, IsTrigger(id)) == SumEvents(e.log, IsTrigger(id))
    {
      LogStep(e.log, ev, id, "", Bid, 0);
    }
    LogStep(e.log, ev, "", "", Bid, 0);
  }

  lemma LimitFields(e: Engine, c: LimitCmd)
    ensures var o := LimitOrder(e.cfg, c, e.clock + 1); o.side == c.side && o.price == c.price
  {
  }

  lemma RestConfig(e: Engine, o: Order)
    ensures var r := RestOnly(Accept(e, o), o);
            && r.cfg == e.cfg && r.state == e.state && r.preHalt == e.preHalt && r.stops == e.stops
            && r.book == if CanRestIn(e.book, o, e.cfg.levelCap) then Rest(e.book, o) else e.book
  {
    hide Rest, CanRestIn, DispositionEvents;
  }

  /** A refusal halts nothing and triggers nothing. */
  lemma RejectQuiet(e: Engine, id: OrderId, user: UserId, reason: Reason)
    ensures var r := Reject(e, id, user, reason);
            && HaltBudget(r) == HaltBudget(e) && r.book == e.book && r.cfg == e.cfg && r.state == e.state && r.preHalt == e.preHalt
            && (forall i :: TriggerTotal(r, [], i) == TriggerTotal(e, [], i))
  {
    hide SumEvents, SumStops;
    forall i
      ensures TriggerTotal(Reject(e, id, user, reason), [], i) == TriggerTotal(e, [], i)
    {
      LogStep(e.log, OrderRejected(id, user, reason), i, "", Bid, 0);
    }
    LogStep(e.log, OrderRejected(id, user, reason), "", "", Bid, 0);
  }

  /** Reasons that end an order come after the check that its id is free. */
  lemma RefusalHarmless(e: Engine, c: LimitCmd, hook: HookAnswer, now: int)
    ensures var v := CheckLimit(e, c, hook, now);
            v.Pass? || v.reason == FOKFailed || v.reason == PoolExhausted ==> IdCount(e, [], c.id) == 0
  {
    hide SumLevels, FindStop, HasLevel, OverValue, IdCount;
    if !Holds(e.book, c.id) && !StopHeld(e.stops, c.id) {
      FreeId(e, c.id);
    }
  }

  lemma MarketMaintains(e: Engine, c: MarketCmd, now: int)
    requires Good(e, [])
    ensures var r := ProcessMarket(e, c, now);
            && Good(r, []) && r.cfg == e.cfg && (PositionsAgree(e) ==> PositionsAgree(r)) && HaltBudget(r) <= HaltBudget(e)
            && (c.stp == STPDisabled && Tracked(e, []) ==> Tracked(r, []))
            && (c.stp == STPDisabled && Ledgered(e, []) ==> Ledgered(r, []))
            && (Uncrossed(e.book) ==> Uncrossed(r.book)) && (OutOfAuction(e) ==> OutOfAuction(r))
            && (forall id :: TriggerTotal(r, [], id) == TriggerTotal(e, [], id))
  {
    hide Good, Tracked, Ledgered, PositionsAgree, HaltBudget, TriggerTotal, Admissible, Uncrossed, PlaceAndFollow, SumLevels, IdCount, FindStop;
    var v := CheckMarket(e, c);
    if v.Fail? || CountOrders(e.book) >= e.cfg.nodeCap {
      var reason := if v.Fail? then v.reason else PoolExhausted;
      if v.Pass? {
        FreeId(e, c.id);
      }
      RejectMaintains(e, [], c.id, c.user, reason);
      RejectQuiet(e, c.id, c.user, reason);
    } else {
      MarketAdmissible(e, c);
      FollowMaintains(e, MarketOrder(c, e.clock + 1), now);
    }
  }

  lemma StopMaintains(e: Engine, c: StopCmd, now: int)
    requires Good(e, [])
    ensures var r := ProcessStop(e, c, now);
            && Good(r, []) && r.cfg == e.cfg && r.state == e.state && r.preHalt == e.preHalt && r.book == e.book
            && (PositionsAgree(e) ==> PositionsAgree(r))
            && (c.stp == STPDisabled && Tracked(e, []) ==> Tracked(r, []))
            && (c.stp == STPDisabled && Ledgered(e, []) ==> Ledgered(r, []))
  {
    hide Good, Tracked, Ledgered, PositionsAgree, SumLevels, IdCount, FindStop, Enlist, Crash, NoStopLevel, OverValue, SumStops;
    var v := CheckStop(e, c, now);
    if v.Fail? || SumBoth(e.stops, OneStop) >= e.cfg.stopCap {
      var reason := if v.Fail? then v.reason else PoolExhausted;
      if v.Pass? {
        FreeId(e, c.id);
      }
      RejectMaintains(e, [], c.id, c.user, reason);
      RejectQuiet(e, c.id, c.user, reason);
    } else if NoStopLevel(e, c.side, c.trigger) {
      CrashMaintains(e);
    } else {
      FreeId(e, c.id);
      var s := StopOf(e.cfg, c, e.clock + 1);
      EnlistMaintains(e, s);
      EnlistParts(e, s);
    }
  }

  /** Whatever the crash leaves is as consistent as before. */
  lemma CrashMaintains(e: Engine)
    requires Good(e, [])
    ensures var r := Crash(e);
            && Good(r, []) && r.cfg == e.cfg && r.state == e.state && r.preHalt == e.preHalt && r.book == e.book
            && (PositionsAgree(e) ==> PositionsAgree(r)) && (Tracked(e, []) ==> Tracked(r, [])) && (Ledgered(e, []) ==> Ledgered(r, []))
  {
    hide SumLevels, SumStops, WFSide, WFStopSide, DepthAfter, OpenAfter, SumEvents, InfoAt;
    LaterBook(e.book, e.clock, e.clock + 1);
    LaterStops(e.stops, e.clock, e.clock + 1);
    SameIds(e, Crash(e), []);
  }

  lemma EnlistParts(e: Engine, s: Stop)
    ensures var r := Enlist(e, s); r.cfg == e.cfg && r.state == e.state && r.preHalt == e.preHalt && r.book == e.book
  {
  }

  lemma CancelCommandMaintains(e: Engine, id: OrderId, user: UserId)
    requires Good(e, [])
    ensures var r := ProcessCancel(e, id, user);
            && Maintains(e, [], r, []) && r.state == e.state && r.preHalt == e.preHalt && (Uncrossed(e.book) ==> Uncrossed(r.book))
  {
    hide Good, Maintains, Uncrossed, FindStop, Find, RemoveId, RemoveStop, InfoAt;
    RejectMaintains(e, [], id, user, OrderNotFound);
    if Find(e.book, id).Found? {
      CancelMaintains(e, id);
    } else if FindStop(e.stops, id).FoundStop? {
      var s := FindStop(e.stops, id).stop;
      StopIds(e.stops, id);
      StopLeaves(e, id, OrderCanceled(s.id, s.user, s.side, s.trigger, s.qty, 0, UserRequested));
    }
  }

  lemma StopIds(b: Stops, id: OrderId)
    requires FindStop(b, id).FoundStop?
    ensures FindStop(b, id).stop.id == id
  {
    StopCount(b.sells, id);
    StopCount(b.buys, id);
  }

  /** Admin commands only change the state and say so. */
  lemma ResumeMaintains(e: Engine)
    requires OutOfAuction(e)
    ensures Maintains(e, [], ProcessResume(e), []) && ProcessResume(e).book == e.book
  {
    var r := ProcessResume(e);
    if r != e {
      StateKeeps(e, r, MarketResumed);
    } else {
      SelfMaintains(e);
    }
  }

  lemma StateKeeps(e: Engine, r: Engine, ev: Event)
    requires ev == MarketResumed && r == e.(state := r.state).Emit([ev]) && r.state.Open?
    ensures Maintains(e, [], r, [])
  {
    var mid := e.(state := Closed);
    var mid' := r.(state := Closed);
    SilentKeeps(mid, [], ev, mid');
    hide DepthAfter, OpenAfter, SumEvents, InfoAt, WFBook, WFStops, SumLevels, SumStops;
    SameIds(e, mid, []);
    SameIds(mid', r, []);
  }

  lemma ExpiryMaintains(e: Engine, orders: seq<OrderId>, stops: seq<OrderId>)
    requires Good(e, [])
    ensures var r := ExpireStops(ExpireOrders(e, orders), stops);
            && Good(r, []) && r.cfg == e.cfg && r.state == e.state && r.preHalt == e.preHalt && r.book == ExpireOrders(e, orders).book
            && (PositionsAgree(e) ==> PositionsAgree(r)) && (Uncrossed(e.book) ==> Uncrossed(r.book))
            && (Tracked(e, []) && NoneRests(e.book, orders) ==> Tracked(r, []))
            && (Ledgered(e, []) && !ExpiresReserve(e, orders) ==> Ledgered(r, []))
            && (NoSTP(e, []) ==> NoSTP(ExpireOrders(e, orders), []))
            && (forall side: Side, price :: DepthAfter(NoLevel, ExpireOrders(e, orders).log, side, price) == DepthAfter(NoLevel, e.log, side, price))
  {
    hide Good, Ledgered, PositionsAgree, Uncrossed, NoSTP, ExpireOrders, ExpireStops, ExpiresReserve, NoneRests, DepthAfter, InfoAt;
    ExpireAll(e, orders);
    ExpiryChangesBook(e, orders);
    ExpireAllStops(ExpireOrders(e, orders), stops);
  }

  /** Every command keeps the market well-formed; without self-trade prevention it keeps the depth feed in
      step unless it expires orders, and every order accounted for unless it loses a reserve. */
  lemma CommandMaintains(e: Engine, c: Command, now: int)
    requires Good(e, []) && OutOfAuction(e) && (e.cfg.auctions ==> !AuctionCommand(c))
    ensures var r := Process(e, c, now);
            && Good(r, []) && OutOfAuction(r) && r.cfg == e.cfg && (PositionsAgree(e) ==> PositionsAgree(r))
            && (Tracked(e, []) && PlainCommand(c) && ExpiresNothing(e, c) ==> Tracked(r, []))
            && (Ledgered(e, []) && PlainCommand(c) && !LosesReserve(e, c, now) ==> Ledgered(r, []))
            && (Uncrossed(e.book) ==> (Uncrossed(r.book) <==> !CrossesAtRest(e, c, now)))
  {
    hide Good, Tracked, Ledgered, PositionsAgree, HaltBudget, TriggerTotal, Uncrossed, ProcessLimit, ProcessMarket, ProcessStop,
      ProcessCancel, ProcessResume, ExpireOrders, ExpireStops, ExpiresReserve, DropsReserve, CheckLimit, LimitOrder, Halt, RestsAcross;
    if e.crashed {
      return;
    }
    match c
    case PlaceLimit(l, hook) => LimitMaintains(e, l, hook, now);
    case PlaceMarket(m) => MarketMaintains(e, m, now);
    case PlaceStop(s) => StopMaintains(e, s, now);
    case CancelOrder(id, user) => CancelCommandMaintains(e, id, user);
    case AdminHalt => HaltKeeps(e, [], HaltAdmin);
    case AdminResume => ResumeMaintains(e);
    case ExpiryTick(orders, stops) => ExpiryMaintains(e, orders, stops);
    case OpenAuction =>
    case ClearAuction(_) =>
  }
}
