/** Over any run: every resting order is a limit order that was accepted as such, accounts for its quantity, and
    shows no more than the display it was accepted with. */
module EngineSlices {
  import opened Domain
  import opened BookSpec
  import opened BookLemmas
  import opened MatchSpec
  import opened MatchLemmas
  import opened MatchTheorems
  import opened PlaceEffects
  import opened PlacementResults
  import opened Slices
  import opened StopSpec
  import Circuit
  import Positions
  import EngineTraces
  import EngineSteps
  import MatchScans
  import Auctions
  import AuctionSweep
  import AuctionResults
  import AuctionCarry
  import opened EngineSpec

  type AuctionOrder = Auctions.AuctionOrder

  // ----- The log vouches for orders -----

  /** The acceptance of this very order, under any number: nothing it has or shows is more than was accepted. */
  predicate Vouches(ev: Event, o: Order) {
    && ev.OrderAccepted? && ev.id == o.id && ev.user == o.user && ev.side == o.side && ev.price == o.price && ev.typ == o.typ
    && o.origQty <= ev.origQty && o.origDisplay <= ev.display
  }

  ghost predicate Vouched(log: seq<Event>, o: Order) {
    exists k :: 0 <= k < |log| && Vouches(log[k], o)
  }

  predicate VouchesFor(ev: Event, o: AuctionOrder) {
    && ev.OrderAccepted? && ev.id == o.id && ev.user == o.user && ev.side == o.side && ev.price == o.price && ev.typ == Limit
    && o.qty <= ev.origQty && o.qty <= ev.display
  }

  ghost predicate Collected(log: seq<Event>, o: AuctionOrder) {
    o.qty > 0 && o.price > 0 && exists k :: 0 <= k < |log| && VouchesFor(log[k], o)
  }

  ghost predicate SideVouched(ls: seq<Level>, log: seq<Event>) {
    forall i, k :: 0 <= i < |ls| && 0 <= k < |ls[i].orders| ==> Sliced(ls[i].orders[k]) && Vouched(log, ls[i].orders[k])
  }

  ghost predicate BookVouched(b: Book, log: seq<Event>) {
    SideVouched(b.bids, log) && SideVouched(b.asks, log)
  }

  ghost predicate AllPositive(ss: seq<Stop>) {
    forall s :: s in ss ==> s.qty > 0
  }

  /** Of the whole market, with these triggered stops still to be placed. */
  ghost predicate Attested(e: Engine, pending: seq<Stop>) {
    && BookVouched(e.book, e.log)
    && AllPositive(e.stops.sells) && AllPositive(e.stops.buys) && AllPositive(pending)
    && (forall o :: o in e.auctionBids || o in e.auctionAsks ==> Collected(e.log, o))
  }

  lemma VouchedMore(log: seq<Event>, more: seq<Event>, o: Order)
    requires Vouched(log, o)
    ensures Vouched(log + more, o)
  {
    var k :| 0 <= k < |log| && Vouches(log[k], o);
    assert (log + more)[k] == log[k];
  }

  lemma SideMore(ls: seq<Level>, log: seq<Event>, more: seq<Event>)
    requires SideVouched(ls, log)
    ensures SideVouched(ls, log + more)
  {
    forall i, k | 0 <= i < |ls| && 0 <= k < |ls[i].orders|
      ensures Vouched(log + more, ls[i].orders[k])
    {
      VouchedMore(log, more, ls[i].orders[k]);
    }
  }

  lemma CollectedMore(log: seq<Event>, more: seq<Event>, o: AuctionOrder)
    requires Collected(log, o)
    ensures Collected(log + more, o)
  {
    var k :| 0 <= k < |log| && VouchesFor(log[k], o);
    assert (log + more)[k] == log[k];
  }

  /** Whatever else happens in a market, more events take nothing back. */
  lemma MoreEvents(e: Engine, p: seq<Stop>, r: Engine, q: seq<Stop>, more: seq<Event>)
    requires Attested(e, p) && r.log == e.log + more && BookVouched(r.book, r.log)
    requires (forall s :: s in r.stops.sells ==> s in e.stops.sells || s.qty > 0) && (forall s :: s in r.stops.buys ==> s in e.stops.buys || s.qty > 0)
    requires forall s :: s in q ==> s in p || s.qty > 0
    requires r.auctionBids == e.auctionBids && r.auctionAsks == e.auctionAsks
    ensures Attested(r, q)
  {
    forall o | o in r.auctionBids || o in r.auctionAsks
      ensures Collected(r.log, o)
    {
      CollectedMore(e.log, more, o);
    }
  }

  lemma SameBook(e: Engine, p: seq<Stop>, r: Engine, q: seq<Stop>, more: seq<Event>)
    requires Attested(e, p) && r.log == e.log + more && r.book == e.book
    requires (forall s :: s in r.stops.sells ==> s in e.stops.sells || s.qty > 0) && (forall s :: s in r.stops.buys ==> s in e.stops.buys || s.qty > 0)
    requires forall s :: s in q ==> s in p || s.qty > 0
    requires r.auctionBids == e.auctionBids && r.auctionAsks == e.auctionAsks
    ensures Attested(r, q)
  {
    SideMore(e.book.bids, e.log, more);
    SideMore(e.book.asks, e.log, more);
    MoreEvents(e, p, r, q, more);
  }

  // ----- Orders that change or move -----

  lemma WorkedVouched(log: seq<Event>, o: Order, p: Order)
    requires SameOrder(o, p) && Vouched(log, o)
    ensures Vouched(log, p)
  {
    var k :| 0 <= k < |log| && Vouches(log[k], o);
    assert Vouches(log[k], p);
  }

  lemma FromVouched(ls: seq<Level>, was: seq<Level>, log: seq<Event>)
    requires From(ls, was) && SideVouched(was, log)
    ensures SideVouched(ls, log)
  {
    forall i, k | 0 <= i < |ls| && 0 <= k < |ls[i].orders|
      ensures Vouched(log, ls[i].orders[k])
    {
      var p := ls[i].orders[k];
      assert Comes(p, was);
      var i', k' :| 0 <= i' < |was| && 0 <= k' < |was[i'].orders| && SameOrder(was[i'].orders[k'], p);
      WorkedVouched(log, was[i'].orders[k'], p);
    }
  }

  lemma WithinVouched(ls: seq<Level>, was: seq<Level>, more: set<Order>, log: seq<Event>)
    requires Within(ls, was, more) && SideVouched(was, log) && forall o :: o in more ==> Sliced(o) && Vouched(log, o)
    ensures SideVouched(ls, log)
  {
    forall i, k | 0 <= i < |ls| && 0 <= k < |ls[i].orders|
      ensures Sliced(ls[i].orders[k]) && Vouched(log, ls[i].orders[k])
    {
      var p := ls[i].orders[k];
      if p !in more {
        assert Rests(p, was);
        var i', k' :| 0 <= i' < |was| && 0 <= k' < |was[i'].orders| && was[i'].orders[k'] == p;
      }
    }
  }

  lemma RemoveVouched(ls: seq<Level>, id: OrderId, log: seq<Event>)
    requires SideVouched(ls, log)
    ensures SideVouched(Remove(ls, id), log)
  {
    RemoveWithin(ls, id);
    WithinVouched(Remove(ls, id), ls, {}, log);
  }

  // ----- A placement -----

  /** Matching moves quantity from what remains to what is filled, until the taker is ended. */
  lemma {:induction false} RunFilled(m: Match, default: STPMode)
    ensures var n := Run(m, default); n.taker.remain > 0 ==> n.taker.filled + n.taker.remain == m.taker.filled + m.taker.remain
    decreases if m.taker.remain > 0 then m.taker.remain else 0, SumLevels(m.opp, One)
  {
    if Live(m) {
      Descend(m, default);
      StepFilled(m, default);
      if Step(m, default).stopped {
        MatchScans.StoppedEnds(Step(m, default), default);
      }
      RunFilled(Step(m, default), default);
    }
  }

  lemma StepFilled(m: Match, default: STPMode)
    requires Live(m)
    ensures var n := Step(m, default);
            (n.stopped && n.taker.remain == 0) || n.taker.filled + n.taker.remain == m.taker.filled + m.taker.remain
  {
    hide TradedQueue, WithHead, Info;
  }

  /** What an order is like when it comes in: all of its working slice is shown, and a market order never rests. */
  predicate Fresh(o: Order) {
    TakesOnly(o) || (Sliced(o) && o.display == o.remain)
  }

  lemma PlaceVouched(b: Book, o: Order, clock: nat, default: STPMode, cap: nat, log: seq<Event>)
    requires BookVouched(b, log) && Fresh(o) && Vouched(log, o)
    ensures BookVouched(Place(b, o, clock, default, cap).book, log)
  {
    hide Run, Insert, Available, CanRestIn, SideVouched, From, Within, Place, AllSliced, Sliced;
    var m := Start(o, b, clock);
    var n := Run(m, default);
    PlaceShape(b, o, clock, default, cap);
    SlicedSides(b, log);
    RunFrom(m, default);
    FromVouched(n.opp, b.Of(o.side.Opposite()), log);
    var out := Place(b, o, clock, default, cap);
    if Resting(out.disposition) {
      RestsWith(b, o, clock, default, cap);
      SlicedPositive(o);
      RunFilled(m, default);
      StillSliced(o, n.taker);
      WorkedVouched(log, o, n.taker);
      InsertWithin(b.Of(o.side), n.taker);
      WithinVouched(Insert(b.Of(o.side), n.taker), b.Of(o.side), {n.taker}, log);
    }
  }

  lemma SlicedSides(b: Book, log: seq<Event>)
    requires BookVouched(b, log)
    ensures AllSliced(b.bids) && AllSliced(b.asks)
  {
  }

  /** Who rests is no taker only, and has something left. */
  lemma RestsWith(b: Book, o: Order, clock: nat, default: STPMode, cap: nat)
    requires Resting(Place(b, o, clock, default, cap).disposition)
    ensures !TakesOnly(o) && Run(Start(o, b, clock), default).taker.remain != 0
    ensures o.remain > 0 ==> Run(Start(o, b, clock), default).taker.remain > 0
    ensures Run(Start(o, b, clock), default).taker.remain <= o.remain || o.remain <= 0
  {
    hide Run, Insert, Available, CanRestIn;
    RunTaker(Start(o, b, clock), default);
    if o.remain > 0 {
      MatchScans.RunTotals(Start(o, b, clock), default);
      Lowers(Start(o, b, clock), default);
    }
  }

  lemma {:induction false} Lowers(m: Match, default: STPMode)
    ensures m.taker.remain >= 0 ==> Run(m, default).taker.remain <= m.taker.remain
    decreases if m.taker.remain > 0 then m.taker.remain else 0, SumLevels(m.opp, One)
  {
    if Live(m) {
      Descend(m, default);
      Lowers(Step(m, default), default);
    }
  }

  lemma SlicedPositive(o: Order)
    ensures Sliced(o) ==> o.remain > 0
  {
  }

  lemma StillSliced(o: Order, p: Order)
    requires Sliced(o) && o.display == o.remain && p == o.(remain := p.remain, filled := p.filled)
    requires 0 < p.remain <= o.remain && p.filled + p.remain == o.filled + o.remain
    ensures Sliced(p) && SameOrder(o, p)
  {
  }

  // ----- The steps of a command -----

  lemma EnterAttested(e: Engine, p: seq<Stop>, o: Order)
    requires Attested(e, p) && Fresh(o) && o.origDisplay <= o.display
    ensures Attested(Enter(e, o), p)
  {
    hide Place, BookVouched, FillsLog, STPLog, DispositionEvents, Vouched, Fresh;
    var e1 := Accept(e, o);
    var ev := OrderAccepted(o.id, o.user, o.side, o.typ, 0, o.price, o.origQty, o.display, o.tif, o.seqNum);
    SameBook(e, p, e1, p, [ev]);
    AcceptedVouched(e.log, ev, o);
    var out := Outcomes(e1, o);
    PlaceVouched(e1.book, o, e1.clock, e1.cfg.stpDefault, e1.cfg.levelCap, e1.log);
    var more := FillsLog(out.fills) + STPLog(out.cancels) + DispositionEvents(out.book, o, out.fills, out.disposition);
    BookMore(out.book, e1.log, more);
    MoreEvents(e1, p, Enter(e, o), p, more);
  }

  lemma AcceptedVouched(log: seq<Event>, ev: Event, o: Order)
    requires Vouches(ev, o)
    ensures Vouched(log + [ev], o)
  {
    assert (log + [ev])[|log|] == ev;
  }

  lemma BookMore(b: Book, log: seq<Event>, more: seq<Event>)
    requires BookVouched(b, log)
    ensures BookVouched(b, log + more)
  {
    SideMore(b.bids, log, more);
    SideMore(b.asks, log, more);
  }

  lemma ConvertedFresh(s: Stop, n: nat)
    requires s.qty > 0
    ensures Fresh(Converted(s, n)) && Converted(s, n).origDisplay <= Converted(s, n).display
  {
  }

  lemma TriggerAttested(e: Engine, s: Stop, rest: seq<Stop>, price: int)
    requires Attested(e, [s] + rest)
    ensures Attested(Trigger(e, s, price), rest)
  {
    hide BookVouched, SumBook, Enter, Fresh, Converted;
    var e1 := Announce(e, s, price);
    assert ([s] + rest)[0] == s && forall x :: x in rest ==> x in [s] + rest;
    SameBook(e, [s] + rest, e1, rest, [StopTriggered(s.id, s.user, price, s.typ, s.limit)]);
    if CountOrders(e1.book) >= e1.cfg.nodeCap {
      SameBook(e1, rest, Trigger(e, s, price), rest, [OrderRejected(s.id, s.user, PoolExhausted)]);
    } else {
      ConvertedFresh(s, e1.clock + 1);
      EnterAttested(e1, rest, Converted(s, e1.clock + 1));
    }
  }

  lemma HaltAttested(e: Engine, p: seq<Stop>, why: HaltType, price: int, now: int)
    requires Attested(e, p)
    ensures Attested(Halt(e, why), p) && Attested(CheckBreaker(e, price, now), p)
  {
    hide Attested, Circuit.Trips, Circuit.Recorded;
    assert e.log + [] == e.log;
    SameBook(e, p, e.(preHalt := e.state), p, []);
    SameBook(e, p, Halt(e, why), p, if CanTransition(e.state, Halted) then [MarketHalted(why)] else []);
    SameBook(e, p, CheckBreaker(e, price, now), p, CheckBreaker(e, price, now).log[|e.log|..]);
  }

  lemma {:induction false} FiredSplit(ss: seq<Stop>, side: Side, price: int)
    ensures forall s :: s in Fired(ss, side, price) || s in Unfired(ss, side, price) ==> s in ss
  {
    FiredThenRest(ss, side, price);
    assert forall s :: s in Fired(ss, side, price) + Unfired(ss, side, price) <==> s in Fired(ss, side, price) || s in Unfired(ss, side, price);
  }

  lemma FireAttestedStart(e: Engine, p: seq<Stop>, price: int)
    requires Attested(e, p)
    ensures Attested(e.(stops := AllUnfired(e.stops, price)), AllFired(e.stops, price) + p)
  {
    hide BookVouched, Fired, Unfired;
    FiredSplit(e.stops.sells, Ask, price);
    FiredSplit(e.stops.buys, Bid, price);
    assert e.log + [] == e.log;
    SameBook(e, p, e.(stops := AllUnfired(e.stops, price)), AllFired(e.stops, price) + p, []);
  }

  lemma {:induction false} CheckAttested(e: Engine, p: seq<Stop>, price: int, depth: nat, now: int)
    requires Attested(e, p) && depth <= e.cfg.maxCascade
    ensures Attested(CheckStops(e, price, depth, now), p)
    decreases e.cfg.maxCascade - depth, 1, 0
  {
    hide Attested, FireAll, AllFired, AllUnfired, Halt, CheckBreaker;
    HaltAttested(e, p, HaltCascadeLimit, price, now);
    if depth < e.cfg.maxCascade {
      var e1 := e.(stops := AllUnfired(e.stops, price));
      FireAttestedStart(e, p, price);
      FireAttested(e1, AllFired(e.stops, price), p, price, depth, now);
      HaltAttested(FireAll(e1, AllFired(e.stops, price), price, depth, now), p, HaltCascadeLimit, price, now);
    }
  }

  lemma {:induction false} FireAttested(e: Engine, fired: seq<Stop>, p: seq<Stop>, price: int, depth: nat, now: int)
    requires Attested(e, fired + p) && depth < e.cfg.maxCascade
    ensures Attested(FireAll(e, fired, price, depth, now), p)
    decreases e.cfg.maxCascade - depth, 0, |fired|
  {
    hide Attested, Trigger, TriggerTraded, CheckStops;
    if fired == [] {
      assert fired + p == p;
    } else {
      var s, rest := fired[0], fired[1..];
      assert fired + p == [s] + (rest + p);
      TriggerAttested(e, s, rest + p, price);
      EngineTraces.TriggerConfig(e, s, price);
      var e1 := Trigger(e, s, price);
      match TriggerTraded(e, s, price)
      case NoTrade => FireAttested(e1, rest, p, price, depth, now);
      case LastPrice(q) =>
        CheckAttested(e1, rest + p, q, depth + 1, now);
        FireAttested(CheckStops(e1, q, depth + 1, now), rest, p, price, depth, now);
    }
  }

  lemma FollowAttested(e: Engine, o: Order, now: int)
    requires Attested(e, []) && Fresh(o) && o.origDisplay <= o.display
    ensures Attested(PlaceAndFollow(e, o, now), [])
  {
    hide Attested, Enter, Traded, CheckStops, Fresh;
    EnterAttested(e, [], o);
    EngineSteps.EnterParts(e, o);
    match Traded(Accept(e, o), o)
    case NoTrade =>
    case LastPrice(p) => CheckAttested(Enter(e, o), [], p, 0, now);
  }

  /** A limit order that passed its checks comes in as one slice, and a reserve if it is an iceberg. */
  lemma PassedFresh(e: Engine, c: LimitCmd, hook: HookAnswer, now: int)
    requires CheckLimit(e, c, hook, now).Pass?
    ensures var o := LimitOrder(e.cfg, c, e.clock + 1); Sliced(o) && o.display == o.remain && o.origDisplay == o.display
  {
    hide Holds, StopHeld, InAuction, WouldCross, NoLevelLeft, LimitDisabled, OverValue, ValidateExpiry;
  }

  lemma RestAttested(e: Engine, o: Order)
    requires Attested(e, []) && Sliced(o) && o.origDisplay <= o.display
    ensures Attested(RestOnly(Accept(e, o), o), [])
  {
    hide BookVouched, SideVouched, DispositionEvents, Vouched, Sliced, Insert, CanRestIn, Within;
    var e1 := Accept(e, o);
    var ev := OrderAccepted(o.id, o.user, o.side, o.typ, 0, o.price, o.origQty, o.display, o.tif, o.seqNum);
    SameBook(e, [], e1, [], [ev]);
    AcceptedVouched(e.log, ev, o);
    if CanRestIn(e1.book, o, e1.cfg.levelCap) {
      var b := Rest(e1.book, o);
      var more := DispositionEvents(b, o, [], Rested);
      RestVouched(e1.book, o, e1.log);
      BookMore(b, e1.log, more);
      MoreEvents(e1, [], RestOnly(e1, o), [], more);
    } else {
      SameBook(e1, [], RestOnly(e1, o), [], DispositionEvents(e1.book, o, [], Canceled));
    }
  }

  lemma RestVouched(b: Book, o: Order, log: seq<Event>)
    requires BookVouched(b, log) && Sliced(o) && Vouched(log, o)
    ensures BookVouched(Rest(b, o), log)
  {
    hide SideVouched, Insert, Within;
    InsertWithin(b.Of(o.side), o);
    WithinVouched(Insert(b.Of(o.side), o), b.Of(o.side), {o}, log);
  }

  lemma CollectAttested(e: Engine, c: LimitCmd, hook: HookAnswer, now: int)
    requires Attested(e, []) && CheckLimit(e, c, hook, now).Pass?
    ensures Attested(Collect(e, c), [])
  {
    hide BookVouched, CheckLimit, Auctions.Joined;
    PassedFresh(e, c, hook, now);
    var o := AuctionOf(c, e.clock + 1);
    var ev := OrderAccepted(c.id, c.user, c.side, Limit, 0, c.price, c.qty, c.qty, c.tif, e.clock + 1);
    SameBook(e, [], e.(clock := e.clock + 1).Emit([ev]), [], [ev]);
    assert Collected(e.log + [ev], o) by {
      PassedQty(e, c, hook, now);
      assert (e.log + [ev])[|e.log|] == ev;
    }
    AuctionCarry.JoinedMembers(Bid, e.auctionBids, o);
    AuctionCarry.JoinedMembers(Ask, e.auctionAsks, o);
  }

  lemma PassedQty(e: Engine, c: LimitCmd, hook: HookAnswer, now: int)
    requires CheckLimit(e, c, hook, now).Pass?
    ensures c.qty > 0 && c.price > 0
  {
    hide Holds, StopHeld, InAuction, WouldCross, NoLevelLeft, LimitDisabled, OverValue, ValidateExpiry;
  }

  lemma LimitAttested(e: Engine, c: LimitCmd, hook: HookAnswer, now: int)
    requires Attested(e, [])
    ensures Attested(ProcessLimit(e, c, hook, now), [])
  {
    hide Attested, CheckLimit, SumBook, PlaceAndFollow, RestOnly, Accept, Collect, LimitOrder, Sliced, Fresh;
    match CheckLimit(e, c, hook, now)
    case Fail(reason) => SameBook(e, [], Reject(e, c.id, c.user, reason), [], [OrderRejected(c.id, c.user, reason)]);
    case Pass =>
      if e.state.Auction? && e.cfg.auctions {
        CollectAttested(e, c, hook, now);
      } else if CountOrders(e.book) >= e.cfg.nodeCap {
        SameBook(e, [], Reject(e, c.id, c.user, PoolExhausted), [], [OrderRejected(c.id, c.user, PoolExhausted)]);
      } else {
        PassedFresh(e, c, hook, now);
        var o := LimitOrder(e.cfg, c, e.clock + 1);
        SlicedFresh(o);
        RestAttested(e, o);
        FollowAttested(e, o, now);
      }
  }

  lemma SlicedFresh(o: Order)
    requires Sliced(o) && o.display == o.remain
    ensures Fresh(o)
  {
  }

  lemma MarketAttested(e: Engine, c: MarketCmd, now: int)
    requires Attested(e, [])
    ensures Attested(ProcessMarket(e, c, now), [])
  {
    hide Attested, CheckMarket, SumBook, PlaceAndFollow;
    match CheckMarket(e, c)
    case Fail(reason) => SameBook(e, [], Reject(e, c.id, c.user, reason), [], [OrderRejected(c.id, c.user, reason)]);
    case Pass =>
      if CountOrders(e.book) >= e.cfg.nodeCap {
        SameBook(e, [], Reject(e, c.id, c.user, PoolExhausted), [], [OrderRejected(c.id, c.user, PoolExhausted)]);
      } else {
        FollowAttested(e, MarketOrder(c, e.clock + 1), now);
      }
  }

  lemma StopAttested(e: Engine, c: StopCmd, now: int)
    requires Attested(e, [])
    ensures Attested(ProcessStop(e, c, now), [])
  {
    hide BookVouched, CheckStop, SumStops, NoStopLevel, AddTo;
    match CheckStop(e, c, now)
    case Fail(reason) => SameBook(e, [], Reject(e, c.id, c.user, reason), [], [OrderRejected(c.id, c.user, reason)]);
    case Pass =>
      if SumBoth(e.stops, OneStop) >= e.cfg.stopCap {
        SameBook(e, [], Reject(e, c.id, c.user, PoolExhausted), [], [OrderRejected(c.id, c.user, PoolExhausted)]);
      } else if NoStopLevel(e, c.side, c.trigger) {
        assert e.log + [] == e.log;
        SameBook(e, [], Crash(e), [], []);
      } else {
        var s := StopOf(e.cfg, c, e.clock + 1);
        StopPositive(e, c, now);
        AddedMembers(e.stops.Of(s.side), s);
        SameBook(e, [], Enlist(e, s), [], [OrderAccepted(s.id, s.user, s.side, s.typ, s.trigger, s.limit, s.qty, s.qty, s.tif, s.seqNum)]);
      }
  }

  lemma StopPositive(e: Engine, c: StopCmd, now: int)
    requires CheckStop(e, c, now).Pass?
    ensures c.qty > 0
  {
    hide Holds, StopHeld, OverValue, ValidateExpiry;
  }

  /** Without the order, or the stop, `id`. */
  lemma OrderOffAttested(e: Engine, id: OrderId, ev: Event)
    requires Attested(e, [])
    ensures Attested(e.(book := RemoveId(e.book, id)).Emit([ev]), []) && Attested(e.Emit([ev]), [])
  {
    hide SideVouched, Find, Remove;
    RemoveVouched(e.book.bids, id, e.log);
    RemoveVouched(e.book.asks, id, e.log);
    BookMore(RemoveId(e.book, id), e.log, [ev]);
    MoreEvents(e, [], e.(book := RemoveId(e.book, id)).Emit([ev]), [], [ev]);
    SameBook(e, [], e.Emit([ev]), [], [ev]);
  }

  lemma {:induction false} LessStops(ss: seq<Stop>, id: OrderId)
    ensures forall s :: s in RemoveStopFrom(ss, id) ==> s in ss
  {
    if ss != [] && ss[0].id != id {
      LessStops(ss[1..], id);
      assert ss == [ss[0]] + ss[1..];
    }
  }

  lemma StopOffAttested(e: Engine, id: OrderId, ev: Event)
    requires Attested(e, [])
    ensures Attested(e.(stops := RemoveStop(e.stops, id)).Emit([ev]), [])
  {
    hide BookVouched, FindStop;
    LessStops(e.stops.sells, id);
    LessStops(e.stops.buys, id);
    SameBook(e, [], e.(stops := RemoveStop(e.stops, id)).Emit([ev]), [], [ev]);
  }

  lemma CancelAttested(e: Engine, id: OrderId, user: UserId)
    requires Attested(e, [])
    ensures Attested(ProcessCancel(e, id, user), [])
  {
    hide Attested, RemoveId, RemoveStop, Find, FindStop, InfoAt;
    OrderOffAttested(e, id, OrderRejected(id, user, OrderNotFound));
    match Find(e.book, id)
    case Found(o) =>
      if o.user == user {
        var ev := OrderCanceled(o.id, o.user, o.side, o.price, if o.iceberg then o.remain + o.hidden else o.remain, o.filled, UserRequested);
        var b := RemoveId(e.book, o.id);
        OrderOffAttested(e, o.id, ev);
        var mid := e.(book := b).Emit([ev]);
        SameBook(mid, [], ProcessCancel(e, id, user), [], [DepthUpdate(o.side, o.price, InfoAt(b.Of(o.side), o.price))]);
      }
    case Missing =>
      match FindStop(e.stops, id)
      case FoundStop(s) => StopOffAttested(e, s.id, OrderCanceled(s.id, s.user, s.side, s.trigger, s.qty, 0, UserRequested));
      case NoStop =>
  }

  lemma {:induction false} OrdersExpireAttested(e: Engine, ids: seq<OrderId>)
    requires Attested(e, [])
    ensures Attested(ExpireOrders(e, ids), [])
  {
    hide Attested, RemoveId, Find;
    if ids != [] {
      var front, last := ids[..|ids| - 1], ids[|ids| - 1];
      OrdersExpireAttested(e, front);
      var mid := ExpireOrders(e, front);
      match Find(mid.book, last)
      case Missing =>
      case Found(o) => OrderOffAttested(mid, last, OrderExpired(o.id, o.user, o.side, o.price, o.remain));
    }
  }

  lemma {:induction false} StopsExpireAttested(e: Engine, ids: seq<OrderId>)
    requires Attested(e, [])
    ensures Attested(ExpireStops(e, ids), [])
  {
    hide Attested, RemoveStop, FindStop;
    if ids != [] {
      var front, last := ids[..|ids| - 1], ids[|ids| - 1];
      StopsExpireAttested(e, front);
      var mid := ExpireStops(e, front);
      match FindStop(mid.stops, last)
      case NoStop =>
      case FoundStop(s) => StopOffAttested(mid, last, OrderExpired(s.id, s.user, s.side, s.trigger, s.qty));
    }
  }

  // ----- The auction -----

  /** What an auction order carries over is vouched for by the acceptance it was collected under. */
  lemma CarriedVouched(log: seq<Event>, o: AuctionOrder, x: AuctionOrder)
    requires Collected(log, o) && x == o.(qty := x.qty) && 0 < x.qty <= o.qty
    ensures Vouched(log, Carried(x)) && Sliced(Carried(x)) && Collected(log, x)
  {
    var k :| 0 <= k < |log| && VouchesFor(log[k], o);
    assert Vouches(log[k], Carried(x)) && VouchesFor(log[k], x);
  }

  lemma CarryAttested(e: Engine, o: AuctionOrder)
    requires Attested(e, []) && Collected(e.log, o)
    ensures Attested(CarryOne(e, o), []) && exists more :: CarryOne(e, o).log == e.log + more
  {
    hide BookVouched, Place, SumBook, FillsLog, STPLog, DispositionEvents, Vouched;
    if CountOrders(e.book) >= e.cfg.nodeCap {
      SameBook(e, [], CarryOne(e, o), [], [OrderRejected(o.id, o.user, PoolExhausted)]);
    } else {
      var c := Carried(o);
      CarriedVouched(e.log, o, o);
      var out := Outcomes(e, c);
      PlaceVouched(e.book, c, e.clock, e.cfg.stpDefault, e.cfg.levelCap, e.log);
      var more := FillsLog(out.fills) + STPLog(out.cancels) + DispositionEvents(out.book, c, out.fills, out.disposition);
      BookMore(out.book, e.log, more);
      MoreEvents(e, [], CarryOne(e, o), [], more);
    }
  }

  lemma {:induction false} CarryAllAttested(e: Engine, os: seq<AuctionOrder>)
    requires Attested(e, []) && forall o :: o in os ==> Collected(e.log, o)
    ensures Attested(CarryOver(e, os), []) && exists more :: CarryOver(e, os).log == e.log + more
  {
    hide Attested, Collected, CarryOne;
    if os == [] {
      assert e.log + [] == e.log;
    } else {
      var front, last := os[..|os| - 1], os[|os| - 1];
      CarryAllAttested(e, front);
      var mid := CarryOver(e, front);
      var more :| mid.log == e.log + more;
      CollectedMore(e.log, more, last);
      CarryAttested(mid, last);
      var yet :| CarryOne(mid, last).log == mid.log + yet;
      assert CarryOne(mid, last).log == e.log + (more + yet);
    }
  }

  /** Whatever is left of one side is what an order of that side has left. */
  lemma SideOrigin(side: Side, os: seq<AuctionOrder>, price: int, t: int, x: AuctionOrder) returns (o: AuctionOrder)
    requires Auctions.Positive(os) && t >= 0
    requires x in AuctionSweep.SideLeft(side, os, price, t) || x in AuctionSweep.Excluded(side, os, price)
    ensures o in os && x == o.(qty := x.qty) && 0 < x.qty <= o.qty
  {
    hide AuctionSweep.Eligible, AuctionSweep.Excluded, AuctionSweep.Consume, AuctionSweep.Left;
    AuctionSweep.EligibleMembers(side, os, price);
    if x in AuctionSweep.Excluded(side, os, price) {
      o := x;
      assert o in os;
      var k :| 0 <= k < |os| && os[k] == o;
    } else {
      var es := AuctionSweep.Eligible(side, os, price);
      AuctionSweep.EligiblePositive(side, os, price);
      AuctionSweep.ConsumeInOrder(es, t);
      var j := AuctionResults.LeftMember(es, AuctionSweep.Consume(es, t), x);
      o := es[j];
    }
  }

  /** Whatever is left of the auction was collected. */
  lemma ResidualCollected(bids: seq<AuctionOrder>, asks: seq<AuctionOrder>, price: int, log: seq<Event>)
    requires forall o :: o in bids || o in asks ==> Collected(log, o)
    ensures forall x :: x in AuctionSweep.GoodTillCanceled(AuctionSweep.Residual(bids, asks, price)) ==> Collected(log, x)
  {
    hide Collected, AuctionSweep.SideLeft, AuctionSweep.Excluded, AuctionSweep.Total, AuctionSweep.Eligible;
    var rest := AuctionSweep.Residual(bids, asks, price);
    var t := AuctionSweep.Volume(bids, asks, price);
    AllPriced(bids, log);
    AllPriced(asks, log);
    AuctionSweep.EligiblePositive(Bid, bids, price);
    AuctionSweep.EligiblePositive(Ask, asks, price);
    AuctionSweep.TotalPositive(AuctionSweep.Eligible(Bid, bids, price));
    AuctionSweep.TotalPositive(AuctionSweep.Eligible(Ask, asks, price));
    AuctionCarry.KeptOrders(rest);
    forall x | x in AuctionSweep.GoodTillCanceled(rest)
      ensures Collected(log, x)
    {
      var o: AuctionOrder;
      if x in AuctionSweep.SideLeft(Bid, bids, price, t) || x in AuctionSweep.Excluded(Bid, bids, price) {
        o := SideOrigin(Bid, bids, price, t, x);
      } else {
        o := SideOrigin(Ask, asks, price, t, x);
      }
      CarriedVouched(log, o, x);
    }
  }

  lemma AllPriced(os: seq<AuctionOrder>, log: seq<Event>)
    requires forall o :: o in os ==> Collected(log, o)
    ensures Auctions.Positive(os)
  {
    forall i | 0 <= i < |os|
      ensures os[i].qty > 0 && os[i].price > 0
    {
      assert os[i] in os;
    }
  }

  lemma ClearAttested(e: Engine, c: Auctions.Clearing)
    requires Attested(e, [])
    ensures Attested(ProcessClearAuction(e, c), [])
  {
    hide Attested, CarryOver, FillsLog, CanceledLog, AuctionSweep.PairUp, AuctionSweep.Eligible, AuctionSweep.Residual, AuctionSweep.GoodTillCanceled,
      AuctionSweep.Immediate, Collected;
    var e0 := if e.state.PreOpen? then ProcessOpenAuction(e) else e;
    OpenAttested(e);
    if e0.state.Auction? {
      var price := if c.Clearing? then c.price else 0;
      var qty := if c.Clearing? then c.qty else 0;
      var fills := AuctionSweep.PairUp(AuctionSweep.Eligible(Bid, e0.auctionBids, price), AuctionSweep.Eligible(Ask, e0.auctionAsks, price), price);
      var rest := AuctionSweep.Residual(e0.auctionBids, e0.auctionAsks, price);
      var e1 := e0.(positions := Positions.ApplyFills(e0.positions, fills)).Emit(FillsLog(fills));
      SameBook(e0, [], e1, [], FillsLog(fills));
      AllCollected(e1);
      ResidualCollected(e0.auctionBids, e0.auctionAsks, price, e1.log);
      CarryAllAttested(e1, AuctionSweep.GoodTillCanceled(rest));
      var e2 := CarryOver(e1, AuctionSweep.GoodTillCanceled(rest));
      SameBook(e2, [], ProcessClearAuction(e, c), [], CanceledLog(AuctionSweep.Immediate(rest)) + [AuctionCleared(price, qty)]);
    }
  }

  lemma AllCollected(e: Engine)
    requires Attested(e, [])
    ensures forall o :: o in e.auctionBids || o in e.auctionAsks ==> Collected(e.log, o)
  {
  }

  lemma OpenAttested(e: Engine)
    requires Attested(e, [])
    ensures Attested(ProcessOpenAuction(e), [])
  {
    hide Attested;
    SameBook(e, [], e.(state := Auction).Emit([AuctionOpened]), [], [AuctionOpened]);
  }

  lemma ResumeAttested(e: Engine)
    requires Attested(e, [])
    ensures Attested(ProcessResume(e), [])
  {
    hide Attested;
    var r := ProcessResume(e);
    if r != e {
      SameBook(e, [], r, [], [MarketResumed]);
    }
  }

  // ----- Every run -----

  lemma CommandAttested(e: Engine, c: Command, now: int)
    requires Attested(e, [])
    ensures Attested(Process(e, c, now), [])
  {
    hide Attested, ProcessLimit, ProcessMarket, ProcessStop, ProcessCancel, Halt, ProcessResume, ExpireOrders, ExpireStops, ProcessOpenAuction,
      ProcessClearAuction;
    match c
    case PlaceLimit(limit, hook) => LimitAttested(e, limit, hook, now);
    case PlaceMarket(market) => MarketAttested(e, market, now);
    case PlaceStop(stop) => StopAttested(e, stop, now);
    case CancelOrder(id, user) => CancelAttested(e, id, user);
    case AdminHalt => HaltAttested(e, [], HaltAdmin, 0, now);
    case AdminResume => ResumeAttested(e);
    case ExpiryTick(orders, stops) =>
      OrdersExpireAttested(e, orders);
      StopsExpireAttested(ExpireOrders(e, orders), stops);
    case OpenAuction => OpenAttested(e);
    case ClearAuction(clearing) => ClearAttested(e, clearing);
  }

  lemma {:induction false} RunsAttested(e: Engine, inputs: seq<Input>)
    requires Attested(e, [])
    ensures Attested(RunAll(e, inputs), [])
  {
    hide Attested, Process;
    if inputs != [] {
      RunsAttested(e, inputs[..|inputs| - 1]);
      CommandAttested(RunAll(e, inputs[..|inputs| - 1]), inputs[|inputs| - 1].cmd, inputs[|inputs| - 1].now);
    }
  }

  /** From the empty market, after any commands at all - auctions, halts, cascades and expiry included: every resting
      order is a limit order whose accepted quantity is what it has filled, works and keeps back; it shows at least
      what it works, and never more than the display it was accepted with. */
  lemma NothingShowsMoreThanAccepted(cfg: Config, firstSeq: nat, inputs: seq<Input>, side: Side, i: nat, k: nat)
    requires var ls := RunAll(Initial(cfg, firstSeq), inputs).book.Of(side); i < |ls| && k < |ls[i].orders|
    ensures var e := RunAll(Initial(cfg, firstSeq), inputs); var o := e.book.Of(side)[i].orders[k];
            && o.typ == Limit && 0 < o.remain <= o.display && o.hidden >= 0 && o.filled + o.remain + o.hidden == o.origQty
            && exists j :: 0 <= j < |e.log| && e.log[j].OrderAccepted? && e.log[j].id == o.id && e.log[j].user == o.user && e.log[j].side == o.side
                           && e.log[j].price == o.price && o.origQty <= e.log[j].origQty && o.display <= e.log[j].display
  {
    hide RunAll, Vouched;
    RunsAttested(Initial(cfg, firstSeq), inputs);
    var e := RunAll(Initial(cfg, firstSeq), inputs);
    OneVouched(e.log, e.book.Of(side)[i].orders[k]);
  }

  lemma OneVouched(log: seq<Event>, o: Order)
    requires Sliced(o) && Vouched(log, o)
    ensures exists j :: 0 <= j < |log| && log[j].OrderAccepted? && log[j].id == o.id && log[j].user == o.user && log[j].side == o.side
                        && log[j].price == o.price && o.origQty <= log[j].origQty && o.display <= log[j].display
  {
    var k :| 0 <= k < |log| && Vouches(log[k], o);
  }
}
