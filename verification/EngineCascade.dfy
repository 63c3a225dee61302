/** The stop cascade: however triggers, trades and halts nest, the invariants hold. */
module EngineCascade {
  import opened Domain
  import opened BookSpec
  import opened MatchSpec
  import opened MatchTheorems
  import opened PlaceEffects
  import opened StopSpec
  import opened Positions
  import opened EngineSpec
  import opened EventFolds
  import opened EngineInvariants
  import opened EngineSteps

  // ----- Placing a triggered stop -----

  /** With the stop announced and off the list, its id is free and everything else is as it was. */
  lemma AnnounceGood(e: Engine, s: Stop, rest: seq<Stop>, price: int)
    requires Good(e, [s] + rest)
    ensures var e1 := Announce(e, s, price);
            Good(e1, rest) && IdCount(e1, rest, s.id) == 0 && s.qty > 0 && OpenQty(e1, rest, s.id) == 0
    ensures forall id :: id != s.id ==> OpenQty(Announce(e, s, price), rest, id) == OpenQty(e, [s] + rest, id)
  {
    hide SumLevels, SumStops, WFBook, WFStops;
    var e1 := Announce(e, s, price);
    assert ([s] + rest)[0] == s;
    forall id
      ensures IdCount(e1, rest, id) == IdCount(e, [s] + rest, id) - IsStop(id)(s)
      ensures OpenQty(e1, rest, id) == OpenQty(e, [s] + rest, id) - StopOpen(id)(s)
    {
      PendingHead(s, rest, IsStop(id));
      PendingHead(s, rest, StopOpen(id));
    }
    CountsNonNegative(e1, rest, s.id);
    IdUnused(e1, rest, s.id);
    forall i | 0 <= i < |rest|
      ensures rest[i].qty > 0
    {
      assert ([s] + rest)[i + 1] == rest[i];
    }
  }

  lemma CountsNonNegative(e: Engine, p: seq<Stop>, id: OrderId)
    ensures IdCount(e, p, id) >= 0
  {
    SideCount(e.book.bids, id);
    SideCount(e.book.asks, id);
    StopCount(e.stops.sells, id);
    StopCount(e.stops.buys, id);
    StopCount(p, id);
  }

  lemma AnnounceNoSTP(e: Engine, s: Stop, rest: seq<Stop>, price: int)
    requires NoSTP(e, [s] + rest)
    ensures NoSTP(Announce(e, s, price), rest) && s.stp == STPDisabled
  {
    hide SumLevels, SumStops;
    PendingHead(s, rest, StopSTPOn);
    STPNonNegative(rest);
  }

  lemma AnnounceFeed(e: Engine, s: Stop, price: int)
    ensures FeedAgrees(e) ==> FeedAgrees(Announce(e, s, price))
    ensures PositionsAgree(e) ==> PositionsAgree(Announce(e, s, price))
    ensures HaltBudget(Announce(e, s, price)) == HaltBudget(e)
    ensures forall id :: OpenAfter(0, Announce(e, s, price).log, id) == OpenAfter(0, e.log, id)
  {
    hide DepthAfter, OpenAfter, SumEvents, InfoAt, Position;
    forall side: Side, p
      ensures DepthAfter(NoLevel, Announce(e, s, price).log, side, p) == DepthAfter(NoLevel, e.log, side, p)
    {
      AnnounceFolds(e, s, price, "", "", side, p);
    }
    forall id
      ensures OpenAfter(0, Announce(e, s, price).log, id) == OpenAfter(0, e.log, id)
    {
      AnnounceFolds(e, s, price, id, "", Bid, 0);
    }
    forall user
      ensures SumEvents(Announce(e, s, price).log, Bought(user)) == SumEvents(e.log, Bought(user))
    {
      AnnounceFolds(e, s, price, "", user, Bid, 0);
    }
    AnnounceFolds(e, s, price, "", "", Bid, 0);
  }

  /** One trigger announced for one stop off the list. */
  lemma AnnounceTriggers(e: Engine, s: Stop, rest: seq<Stop>, price: int, id: OrderId)
    ensures TriggerTotal(Announce(e, s, price), rest, id) == TriggerTotal(e, [s] + rest, id)
  {
    hide SumStops, SumEvents;
    PendingHead(s, rest, IsStop(id));
    AnnounceFolds(e, s, price, id, "", Bid, 0);
  }

  /** The pool is exhausted: the stop is announced, refused and gone. */
  lemma RefuseKeeps(e: Engine, s: Stop, rest: seq<Stop>, price: int)
    ensures Keeps(e, [s] + rest, Reject(Announce(e, s, price), s.id, s.user, PoolExhausted), rest)
  {
    hide DepthAfter, OpenAfter, SumEvents, InfoAt, Position, SumLevels, SumStops, Announce, WFBook, WFStops, Uncrossed;
    var e1 := Announce(e, s, price);
    var r := Reject(e1, s.id, s.user, PoolExhausted);
    var ev := OrderRejected(s.id, s.user, PoolExhausted);
    AnnounceParts(e, s, price);
    AnnounceFeed(e, s, price);
    forall side: Side, p
      ensures DepthAfter(NoLevel, r.log, side, p) == DepthAfter(NoLevel, e1.log, side, p)
    {
      LogStep(e1.log, ev, "", "", side, p);
    }
    forall user
      ensures SumEvents(r.log, Bought(user)) == SumEvents(e1.log, Bought(user))
    {
      LogStep(e1.log, ev, "", user, Bid, 0);
    }
    forall id
      ensures OpenAfter(0, r.log, id) == if id == s.id then 0 else OpenAfter(0, e1.log, id)
      ensures TriggerTotal(r, rest, id) == TriggerTotal(e, [s] + rest, id)
    {
      LogStep(e1.log, ev, id, "", Bid, 0);
      AnnounceTriggers(e, s, rest, price, id);
    }
    LogStep(e1.log, ev, "", "", Bid, 0);
    SameIds(e1, r, rest);
    if Good(e, [s] + rest) {
      AnnounceGood(e, s, rest, price);
    }
    if NoSTP(e, [s] + rest) {
      AnnounceNoSTP(e, s, rest, price);
    }
  }

  lemma AnnounceParts(e: Engine, s: Stop, price: int)
    ensures var e1 := Announce(e, s, price);
            e1.cfg == e.cfg && e1.book == e.book && e1.clock == e.clock && e1.stops == e.stops && e1.state == e.state && e1.preHalt == e.preHalt
            && e1.positions == e.positions
  {
  }

  /** The stop is announced, let in and matched. */
  lemma ConvertKeeps(e: Engine, s: Stop, rest: seq<Stop>, price: int)
    requires CountOrders(e.book) < e.cfg.nodeCap
    ensures Keeps(e, [s] + rest, Enter(Announce(e, s, price), Converted(s, e.clock + 1)), rest)
  {
    hide DepthAfter, OpenAfter, SumEvents, InfoAt, Position, SumLevels, SumStops, Announce, WFBook, WFStops, Uncrossed, Enter, Place;
    var e1 := Announce(e, s, price);
    var o := Converted(s, e.clock + 1);
    var r := Enter(e1, o);
    AnnounceParts(e, s, price);
    AnnounceFeed(e, s, price);
    EnterParts(e1, o);
    EnterCounts(e1, o, rest);
    forall id
      ensures TriggerTotal(r, rest, id) == TriggerTotal(e, [s] + rest, id)
    {
      AnnounceTriggers(e, s, rest, price, id);
    }
    if PositionsAgree(e) {
      EnterPositions(e1, o);
    }
    EnterClock(e1, o);
    if Good(e, [s] + rest) {
      AnnounceGood(e, s, rest, price);
      EnterGood(e1, o, rest);
      if NoSTP(e, [s] + rest) {
        AnnounceNoSTP(e, s, rest, price);
        if FeedAgrees(e) {
          EnterTracked(e1, o, rest);
        }
        if Ledgered(e, [s] + rest) {
          EnterLedgered(e1, o, rest);
        }
      }
    }
  }

  /** Placing an order triggers nothing by itself and does not halt. */
  lemma EnterCounts(e: Engine, o: Order, p: seq<Stop>)
    ensures HaltBudget(Enter(e, o)) == HaltBudget(e)
    ensures forall id :: TriggerTotal(Enter(e, o), p, id) == TriggerTotal(e, p, id)
  {
    hide SumEvents, SumStops, Enter, FillsLog, Place;
    EnterParts(e, o);
    EnterSums(e, o, IsHalt, "", "");
    forall id
      ensures TriggerTotal(Enter(e, o), p, id) == TriggerTotal(e, p, id)
    {
      EnterSums(e, o, IsTrigger(id), id, "");
    }
  }

  /** The order counter only goes up. */
  lemma EnterClock(e: Engine, o: Order)
    ensures e.clock < Enter(e, o).clock
  {
    hide Run, Enter, Available, CanRestIn;
    EnterParts(e, o);
    RunClock(Start(o, e.book, e.clock + 1), e.cfg.stpDefault);
  }

  lemma {:induction false} RunClock(m: Match, default: STPMode)
    ensures m.clock <= Run(m, default).clock
    decreases if m.taker.remain > 0 then m.taker.remain else 0, SumLevels(m.opp, One)
  {
    if Live(m) {
      Descend(m, default);
      RunClock(Step(m, default), default);
    }
  }

  lemma TriggerKeeps(e: Engine, s: Stop, rest: seq<Stop>, price: int)
    ensures Keeps(e, [s] + rest, Trigger(e, s, price), rest)
  {
    hide Keeps, Enter, SumBook, Announce, Converted, Reject;
    AnnounceParts(e, s, price);
    RefuseKeeps(e, s, rest, price);
    if CountOrders(e.book) < e.cfg.nodeCap {
      ConvertKeeps(e, s, rest, price);
    }
  }

  // ----- The whole cascade -----

  /** Checking the stops after a trade keeps every invariant, at any depth and whatever is still pending around it. */
  lemma {:induction false} CascadeKeeps(e: Engine, p: seq<Stop>, price: int, depth: nat, now: int)
    requires depth <= e.cfg.maxCascade
    ensures Keeps(e, p, CheckStops(e, price, depth, now), p)
    decreases e.cfg.maxCascade - depth, 1, 0
  {
    hide Keeps, Halt, CheckBreaker, AllFired, AllUnfired, FireAll;
    HaltKeeps(e, p, HaltCascadeLimit);
    if depth < e.cfg.maxCascade {
      var fired := AllFired(e.stops, price);
      var e1 := e.(stops := AllUnfired(e.stops, price));
      var e2 := FireAll(e1, fired, price, depth, now);
      FireKeeps(e, p, price);
      FiringKeeps(e1, fired, p, price, depth, now);
      BreakerKeeps(e2, p, price, now);
      KeepsTwice(e, p, e1, fired + p, e2, p);
      KeepsTwice(e, p, e2, p, CheckBreaker(e2, price, now), p);
    }
  }

  lemma {:induction false} FiringKeeps(e: Engine, fired: seq<Stop>, p: seq<Stop>, price: int, depth: nat, now: int)
    requires depth < e.cfg.maxCascade
    ensures Keeps(e, fired + p, FireAll(e, fired, price, depth, now), p)
    decreases e.cfg.maxCascade - depth, 0, |fired|
  {
    hide Keeps, Trigger, TriggerTraded, CheckStops;
    if fired == [] {
      assert [] + p == p;
      KeepsSelf(e, p);
    } else {
      var rest := fired[1..] + p;
      assert fired + p == [fired[0]] + rest;
      var e1 := Trigger(e, fired[0], price);
      TriggerKeeps(e, fired[0], rest, price);
      SameConfig(e, fired + p, e1, rest);
      match TriggerTraded(e, fired[0], price)
      case NoTrade =>
        FiringKeeps(e1, fired[1..], p, price, depth, now);
        KeepsTwice(e, fired + p, e1, rest, FireAll(e1, fired[1..], price, depth, now), p);
      case LastPrice(q) =>
        var e2 := CheckStops(e1, q, depth + 1, now);
        CascadeKeeps(e1, rest, q, depth + 1, now);
        KeepsTwice(e, fired + p, e1, rest, e2, rest);
        FiringKeeps(e2, fired[1..], p, price, depth, now);
        KeepsTwice(e, fired + p, e2, rest, FireAll(e2, fired[1..], price, depth, now), p);
    }
  }

  lemma SameConfig(e: Engine, p: seq<Stop>, e': Engine, p': seq<Stop>)
    requires Keeps(e, p, e', p')
    ensures e'.cfg == e.cfg
  {
  }
}
