/** Which stops a trade sets off and in which order, told by prices and numbers alone, and what they turn into. */
module StopFiring {
  import opened Domain
  import opened BookSpec
  import opened MatchSpec
  import opened MatchLemmas
  import opened MatchTheorems
  import opened MatchQuantities
  import MatchScans
  import opened PlaceEffects
  import opened PlacementResults
  import opened StopSpec
  import Circuit
  import opened EngineSpec
  import Admission
  import TradeReports

  lemma InOrderOfTrigger(ss: seq<Stop>, side: Side, clock: nat)
    requires WFStopSide(ss, side, clock)
    ensures ByTrigger(ss, side)
  {
    forall i, j | 0 <= i < j < |ss|
      ensures if side == Ask then ss[i].trigger >= ss[j].trigger else ss[i].trigger <= ss[j].trigger
    {
      assert FiresBefore(side, ss[i], ss[j]);
    }
  }

  // ----- Both sides -----

  /** A trade at `price` sets off exactly the waiting sells with a trigger there or above and the waiting buys with one
      there or below; every sell left has its trigger below the price, every buy above. */
  lemma TriggeredExactly(b: Stops, clock: nat, price: int)
    requires WFStops(b, clock)
    ensures var fired, left := AllFired(b, price), AllUnfired(b, price);
            && (forall s :: s in fired <==> (s in b.sells && s.trigger >= price) || (s in b.buys && s.trigger <= price))
            && (forall s :: s in left.sells <==> s in b.sells && s.trigger < price)
            && (forall s :: s in left.buys <==> s in b.buys && s.trigger > price)
  {
    hide Fired, Unfired;
    InOrderOfTrigger(b.sells, Ask, clock);
    InOrderOfTrigger(b.buys, Bid, clock);
    FiredAreDue(b.sells, Ask, price);
    FiredAreDue(b.buys, Bid, price);
  }

  /** All sells before all buys; sells by falling, buys by rising trigger; at one trigger the older first. */
  predicate Precedes(s: Stop, t: Stop) {
    match (s.side, t.side)
    case (Ask, Bid) => true
    case (Ask, Ask) => s.trigger > t.trigger || (s.trigger == t.trigger && s.seqNum < t.seqNum)
    case (Bid, Bid) => s.trigger < t.trigger || (s.trigger == t.trigger && s.seqNum < t.seqNum)
    case (Bid, Ask) => false
  }

  lemma FiringOrder(b: Stops, clock: nat, price: int)
    requires WFStops(b, clock)
    ensures var fired := AllFired(b, price); forall i, j :: 0 <= i < j < |fired| ==> Precedes(fired[i], fired[j])
  {
    hide Fired, Unfired;
    FiresExactly(b.sells, Ask, clock, price);
    FiresExactly(b.buys, Bid, clock, price);
    var sells, buys := Fired(b.sells, Ask, price), Fired(b.buys, Bid, price);
    forall i, j | 0 <= i < j < |sells + buys|
      ensures Precedes((sells + buys)[i], (sells + buys)[j])
    {
      if j < |sells| {
        assert FiresBefore(Ask, sells[i], sells[j]) && WFStop(sells[i], Ask) && WFStop(sells[j], Ask);
      } else if i >= |sells| {
        assert FiresBefore(Bid, buys[i - |sells|], buys[j - |sells|]) && WFStop(buys[i - |sells|], Bid) && WFStop(buys[j - |sells|], Bid);
      } else {
        assert WFStop(sells[i], Ask) && WFStop(buys[j - |sells|], Bid);
      }
    }
  }

  // ----- None is left behind -----

  /** Stops leave the stop book in a cascade; none comes. */
  ghost predicate Fewer(r: Stops, b: Stops) {
    (forall s :: s in r.sells ==> s in b.sells) && (forall s :: s in r.buys ==> s in b.buys)
  }

  /** No waiting stop is due at this price. */
  ghost predicate NoneDue(b: Stops, price: int) {
    (forall s :: s in b.sells ==> s.trigger < price) && (forall s :: s in b.buys ==> s.trigger > price)
  }

  lemma StopsKept(e: Engine, s: Stop, price: int, why: HaltType, now: int)
    ensures Trigger(e, s, price).stops == e.stops && Trigger(e, s, price).cfg == e.cfg
    ensures Halt(e, why).stops == e.stops && CheckBreaker(e, price, now).stops == e.stops
  {
    hide Place, SumBook, Circuit.Trips, Circuit.Recorded, FillsLog, STPLog, DispositionEvents;
  }

  lemma {:induction false} CheckFewer(e: Engine, price: int, depth: nat, now: int)
    requires depth <= e.cfg.maxCascade
    ensures Fewer(CheckStops(e, price, depth, now).stops, e.stops)
    decreases e.cfg.maxCascade - depth, 1, 0
  {
    hide FireAll, Fired, Unfired, Halt, CheckBreaker;
    var any := Stop("", "", Bid, 0, 0, 0, Limit, GTC, STPDisabled, 0, 0);
    StopsKept(e, any, price, HaltCascadeLimit, now);
    if depth < e.cfg.maxCascade {
      var e1 := e.(stops := AllUnfired(e.stops, price));
      LeftBehind(e.stops, price);
      FireFewer(e1, AllFired(e.stops, price), price, depth, now);
      StopsKept(FireAll(e1, AllFired(e.stops, price), price, depth, now), any, price, HaltCascadeLimit, now);
    }
  }

  lemma LeftBehind(b: Stops, price: int)
    ensures Fewer(AllUnfired(b, price), b)
  {
    hide Fired, Unfired;
    FiredThenRest(b.sells, Ask, price);
    FiredThenRest(b.buys, Bid, price);
    assert forall s :: s in Unfired(b.sells, Ask, price) ==> s in Fired(b.sells, Ask, price) + Unfired(b.sells, Ask, price);
    assert forall s :: s in Unfired(b.buys, Bid, price) ==> s in Fired(b.buys, Bid, price) + Unfired(b.buys, Bid, price);
  }

  lemma {:induction false} FireFewer(e: Engine, fired: seq<Stop>, price: int, depth: nat, now: int)
    requires depth < e.cfg.maxCascade
    ensures Fewer(FireAll(e, fired, price, depth, now).stops, e.stops)
    decreases e.cfg.maxCascade - depth, 0, |fired|
  {
    hide Trigger, TriggerTraded, CheckStops;
    if fired != [] {
      StopsKept(e, fired[0], price, HaltCascadeLimit, now);
      var e1 := Trigger(e, fired[0], price);
      match TriggerTraded(e, fired[0], price)
      case NoTrade => FireFewer(e1, fired[1..], price, depth, now);
      case LastPrice(q) =>
        CheckFewer(e1, q, depth + 1, now);
        FireFewer(CheckStops(e1, q, depth + 1, now), fired[1..], price, depth, now);
    }
  }

  /** Below the depth limit no stop due at the price is left waiting, however its cascade went. */
  lemma CheckLeavesNone(e: Engine, clock: nat, price: int, depth: nat, now: int)
    requires WFStops(e.stops, clock) && depth < e.cfg.maxCascade
    ensures NoneDue(CheckStops(e, price, depth, now).stops, price)
  {
    hide FireAll, AllFired, AllUnfired, Halt, CheckBreaker, WFStops;
    var e1 := e.(stops := AllUnfired(e.stops, price));
    TriggeredExactly(e.stops, clock, price);
    FireFewer(e1, AllFired(e.stops, price), price, depth, now);
    var any := Stop("", "", Bid, 0, 0, 0, Limit, GTC, STPDisabled, 0, 0);
    StopsKept(FireAll(e1, AllFired(e.stops, price), price, depth, now), any, price, HaltCascadeLimit, now);
  }

  /** After an order has been matched and followed up, no waiting stop is due at the price of its last trade. */
  lemma NoStopLeftBehind(e: Engine, o: Order, now: int)
    requires WFStops(e.stops, e.clock) && e.cfg.maxCascade > 0
    ensures var fills, r := Place(e.book, o, e.clock + 1, e.cfg.stpDefault, e.cfg.levelCap).fills, PlaceAndFollow(e, o, now);
            fills != [] ==> (forall s :: s in r.stops.sells ==> s.trigger < fills[|fills| - 1].price)
                            && (forall s :: s in r.stops.buys ==> s.trigger > fills[|fills| - 1].price)
  {
    hide Place, CheckStops, FillsLog, STPLog, DispositionEvents, WFStops;
    var fills := Outcomes(Accept(e, o), o).fills;
    if fills != [] {
      CheckLeavesNone(Enter(e, o), e.clock, fills[|fills| - 1].price, 0, now);
    }
  }

  // ----- What a triggered stop turns into -----

  /** A triggered stop is announced with the price that set it off; then it comes in as an order of its side, user and
      quantity. A stop limit trades at its limit or better and rests at its limit with what is left; a stop market trades
      and never rests. */
  lemma TriggeredStopEnters(e: Engine, s: Stop, price: int)
    requires SoundBook(e.book) && s.qty > 0 && !Holds(e.book, s.id) && CountOrders(e.book) < e.cfg.nodeCap
    ensures var r := Trigger(e, s, price); var out := Place(e.book, Converted(s, e.clock + 1), e.clock + 1, e.cfg.stpDefault, e.cfg.levelCap);
            && |e.log| + 1 < |r.log| && r.log[..|e.log|] == e.log && r.book == out.book
            && r.log[|e.log|] == StopTriggered(s.id, s.user, price, s.typ, s.limit)
            && r.log[|e.log| + 1] == OrderAccepted(s.id, s.user, s.side, s.typ, 0, if s.typ == Market then 0 else s.limit,
                                                   s.qty, s.qty, s.tif, e.clock + 1)
            && (forall i :: 0 <= i < |out.fills| ==> out.fills[i].takerId == s.id && out.fills[i].makerSide == s.side.Opposite())
            && 0 <= TotalQty(out.fills) <= s.qty
            && (s.stp != STPDisabled || e.cfg.stpDefault != STPDisabled ==> forall i :: 0 <= i < |out.fills| ==> out.fills[i].makerUser != s.user)
            && (s.typ == Limit ==> forall i :: 0 <= i < |out.fills| ==>
                  if s.side == Bid then out.fills[i].price <= s.limit else out.fills[i].price >= s.limit)
            && (r.book.Of(s.side) == e.book.Of(s.side)
                || (s.typ == Limit && exists p :: Stays(p, s) && p.remain <= s.qty - TotalQty(out.fills)
                                                  && r.book.Of(s.side) == Insert(e.book.Of(s.side), p)))
  {
    hide Run, Insert, Available, CanRestIn, SoundSide, Holds, SumBook, TotalQty, MakersOn, TakersAre, Trigger;
    var o := Converted(s, e.clock + 1);
    var m := Start(o, e.book, e.clock + 1);
    if s.stp != STPDisabled || e.cfg.stpDefault != STPDisabled {
      TradeReports.NoSelfTrades(e.book, o, e.clock + 1, e.cfg.stpDefault, e.cfg.levelCap);
    }
    PlaceFillPrices(e.book, o, e.clock + 1, e.cfg.stpDefault, e.cfg.levelCap);
    PlaceShape(e.book, o, e.clock + 1, e.cfg.stpDefault, e.cfg.levelCap);
    NoParties(s.side.Opposite(), s.id);
    RunParties(m, e.cfg.stpDefault, s.side.Opposite());
    TriggerAnswered(e, s, price);
    NothingYet(s.id);
    RunTaker(m, e.cfg.stpDefault);
    MatchScans.RunTotals(m, e.cfg.stpDefault);
    FillsPositive(m, e.cfg.stpDefault, s.side.Opposite());
    Parties(Run(m, e.cfg.stpDefault).fills, s.side.Opposite(), s.id);
    if s.typ == Market {
      TakersNeverRest(e.book, o, e.clock + 1, e.cfg.stpDefault, e.cfg.levelCap);
    }
    assert Stays(Run(m, e.cfg.stpDefault).taker, s);
  }

  /** The order a stop limit leaves in the book. */
  predicate Stays(p: Order, s: Stop) {
    p.id == s.id && p.user == s.user && p.side == s.side && p.typ == s.typ && p.tif == s.tif && p.stp == s.stp && p.origQty == s.qty && p.hidden == 0 && p.expireAt == 0
    && (s.typ == Limit ==> p.price == s.limit)
  }

  lemma NoParties(side: Side, id: OrderId)
    ensures MakersOn([], side) && TakersAre([], id)
  {
  }

  lemma Parties(fills: seq<Fill>, side: Side, id: OrderId)
    requires MakersOn(fills, side) && TakersAre(fills, id)
    ensures forall i :: 0 <= i < |fills| ==> fills[i].takerId == id && fills[i].makerSide == side
  {
  }

  lemma {:induction false} FillsPositive(m: Match, default: STPMode, side: Side)
    requires SoundSide(m.opp, side)
    ensures TotalQty(Run(m, default).fills) >= TotalQty(m.fills)
    decreases if m.taker.remain > 0 then m.taker.remain else 0, SumLevels(m.opp, One)
  {
    hide Step, SoundSide, TotalQty;
    if Live(m) {
      Descend(m, default);
      StepSound(m, default, side);
      StepPositive(m, default);
      FillsPositive(Step(m, default), default, side);
    }
  }

  lemma StepPositive(m: Match, default: STPMode)
    requires Live(m)
    ensures TotalQty(Step(m, default).fills) >= TotalQty(m.fills)
  {
    StepLists(m, EffectiveSTP(m.taker, m.opp[0].orders[0], default));
    var n := Trade(m);
    assert n.fills[..|n.fills| - 1] == m.fills;
  }

  /** First the announcement, then the acceptance; or, when there is no node for it, the refusal and nothing else. */
  lemma TriggerAnswered(e: Engine, s: Stop, price: int)
    ensures var r := Trigger(e, s, price);
            && |e.log| + 1 < |r.log| && r.log[..|e.log|] == e.log
            && r.log[|e.log|] == StopTriggered(s.id, s.user, price, s.typ, s.limit)
            && (if CountOrders(e.book) < e.cfg.nodeCap then
                  && r.log[|e.log| + 1] == OrderAccepted(s.id, s.user, s.side, s.typ, 0, if s.typ == Market then 0 else s.limit,
                                                      s.qty, s.qty, s.tif, e.clock + 1)
                  && r.book == Place(e.book, Converted(s, e.clock + 1), e.clock + 1, e.cfg.stpDefault, e.cfg.levelCap).book
                else r == e.(log := r.log) && r.log[|e.log| + 1..] == [OrderRejected(s.id, s.user, PoolExhausted)])
  {
    hide Place, SumBook, FillsLog, STPLog, DispositionEvents;
  }

  // ----- In which order stops are announced -----

  /** These stops, in this order, are announced from the `n`-th event on. */
  ghost predicate Announced(log: seq<Event>, n: nat, fired: seq<Stop>, price: int)
    decreases |fired|
  {
    fired == [] || exists k :: n <= k < |log| && Announces(log[k], fired[0], price) && Announced(log, k + 1, fired[1..], price)
  }

  predicate Announces(ev: Event, s: Stop, price: int) {
    ev == StopTriggered(s.id, s.user, price, s.typ, s.limit)
  }

  lemma AnnouncedFirst(log: seq<Event>, n: nat, k: nat, fired: seq<Stop>, price: int)
    requires fired != [] && n <= k < |log| && Announces(log[k], fired[0], price) && Announced(log, k + 1, fired[1..], price)
    ensures Announced(log, n, fired, price)
  {
  }

  lemma {:induction false} AnnouncedBefore(log: seq<Event>, n: nat, m: nat, fired: seq<Stop>, price: int)
    requires Announced(log, n, fired, price) && m <= n
    ensures Announced(log, m, fired, price)
  {
    if fired != [] {
      var k :| n <= k < |log| && Announces(log[k], fired[0], price) && Announced(log, k + 1, fired[1..], price);
      AnnouncedFirst(log, m, k, fired, price);
    }
  }

  lemma {:induction false} AnnouncedMore(log: seq<Event>, more: seq<Event>, n: nat, fired: seq<Stop>, price: int)
    requires |log| <= |more| && more[..|log|] == log && Announced(log, n, fired, price)
    ensures Announced(more, n, fired, price)
    decreases |fired|
  {
    if fired != [] {
      var k :| n <= k < |log| && Announces(log[k], fired[0], price) && Announced(log, k + 1, fired[1..], price);
      AnnouncedMore(log, more, k + 1, fired[1..], price);
      assert more[k] == log[k];
      AnnouncedFirst(more, n, k, fired, price);
    }
  }

  lemma {:induction false} FireAnnounces(e: Engine, fired: seq<Stop>, price: int, depth: nat, now: int)
    requires depth < e.cfg.maxCascade
    ensures Announced(FireAll(e, fired, price, depth, now).log, |e.log|, fired, price)
    decreases |fired|
  {
    hide Trigger, TriggerTraded, CheckStops;
    if fired != [] {
      var s, rest := fired[0], fired[1..];
      TriggerAnswered(e, s, price);
      StopsKept(e, s, price, HaltCascadeLimit, now);
      var e2 := Trigger(e, s, price);
      match TriggerTraded(e, s, price) {
        case NoTrade =>
        case LastPrice(q) =>
          Admission.CheckExtends(e2, q, depth + 1, now);
          e2 := CheckStops(e2, q, depth + 1, now);
      }
      FireAnnounces(e2, rest, price, depth, now);
      Admission.FireExtends(e2, rest, price, depth, now);
      FirstAnnounced(e, e2, FireAll(e2, rest, price, depth, now), fired, price);
    }
  }

  lemma FirstAnnounced(e: Engine, e2: Engine, r: Engine, fired: seq<Stop>, price: int)
    requires fired != [] && |e.log| < |e2.log| <= |r.log| && r.log[..|e2.log|] == e2.log && Announces(e2.log[|e.log|], fired[0], price)
    requires Announced(r.log, |e2.log|, fired[1..], price)
    ensures Announced(r.log, |e.log|, fired, price)
  {
    assert r.log[|e.log|] == e2.log[|e.log|];
    AnnouncedBefore(r.log, |e2.log|, |e.log| + 1, fired[1..], price);
    AnnouncedFirst(r.log, |e.log|, |e.log|, fired, price);
  }

  /** Below the depth limit, the stops a trade sets off are announced one after the other as they fire, whatever their
      cascades announce in between. */
  lemma AnnouncedInOrder(e: Engine, price: int, depth: nat, now: int)
    requires depth < e.cfg.maxCascade
    ensures Announced(CheckStops(e, price, depth, now).log, |e.log|, AllFired(e.stops, price), price)
  {
    hide FireAll, AllFired, AllUnfired, Halt, CheckBreaker, Announced;
    var e1, fired := e.(stops := AllUnfired(e.stops, price)), AllFired(e.stops, price);
    var e2 := FireAll(e1, fired, price, depth, now);
    FireAnnounces(e1, fired, price, depth, now);
    Admission.HaltExtends(e2, HaltCascadeLimit, price, now);
    AnnouncedMore(e2.log, CheckBreaker(e2, price, now).log, |e.log|, fired, price);
  }

  // ----- Levels in use -----

  /** The different triggers of these stops. */
  ghost function TriggersOf(ss: seq<Stop>): set<int> {
    set s | s in ss :: s.trigger
  }

  /** A side in order of its triggers has a level for each different trigger. */
  lemma {:induction false} LevelPerTrigger(ss: seq<Stop>, side: Side)
    requires ByTrigger(ss, side)
    ensures TriggerLevels(ss) == |TriggersOf(ss)|
  {
    if ss == [] {
      assert TriggersOf(ss) == {};
    } else {
      assert ByTrigger(ss[1..], side);
      LevelPerTrigger(ss[1..], side);
      SharedTrigger(ss, side);
    }
  }

  lemma SharedTrigger(ss: seq<Stop>, side: Side)
    requires ss != [] && ByTrigger(ss, side)
    ensures TriggersOf(ss) == TriggersOf(ss[1..]) + {ss[0].trigger}
    ensures ss[0].trigger in TriggersOf(ss[1..]) <==> |ss| > 1 && ss[1].trigger == ss[0].trigger
  {
    assert ss == [ss[0]] + ss[1..];
    if |ss| > 1 {
      assert ss[1] in ss[1..];
    }
  }

  /** A stop finds no level exactly when its side has none at its trigger and the different triggers of both sides are as
      many as there are slots. */
  lemma NoLevelExactly(e: Engine, side: Side, trigger: int)
    requires WFStops(e.stops, e.clock)
    ensures NoStopLevel(e, side, trigger) <==>
              trigger !in TriggersOf(e.stops.Of(side)) && |TriggersOf(e.stops.sells)| + |TriggersOf(e.stops.buys)| >= e.cfg.stopLevelCap
  {
    hide TriggerLevels;
    InOrderOfTrigger(e.stops.sells, Ask, e.clock);
    InOrderOfTrigger(e.stops.buys, Bid, e.clock);
    LevelPerTrigger(e.stops.sells, Ask);
    LevelPerTrigger(e.stops.buys, Bid);
    var ss := e.stops.Of(side);
    if i :| 0 <= i < |ss| && ss[i].trigger == trigger {
      assert ss[i] in ss;
    }
  }
}
