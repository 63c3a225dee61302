/** When the market halts, opens and resumes: the breaker's decision and the depth limit brought to the state and the
    log, and every move between market states. */
module Halts {
  import opened Domain
  import opened BookSpec
  import opened MatchSpec
  import opened StopSpec
  import opened Decimals
  import opened Circuit
  import opened EngineSpec
  import Auctions

  // ----- The circuit breaker -----

  /** Only states from which a halt is taken: before the open, in an auction, and open. */
  predicate Haltable(e: Engine) {
    e.state == PreOpen || e.state == Auction || e.state == Open
  }

  /** Nothing but the state, the breaker and the log differs. */
  predicate SameMarket(e: Engine, r: Engine) {
    && r.cfg == e.cfg && r.book == e.book && r.clock == e.clock && r.stops == e.stops && r.positions == e.positions
    && r.auctionBids == e.auctionBids && r.auctionAsks == e.auctionAsks && r.crashed == e.crashed
  }

  function Distance(a: int, b: int): int {
    if a >= b then a - b else b - a
  }

  /** The prices traded since the last halt, the newest with this trade: what `BreakerHalts` needs of them. */
  ghost predicate History(e: Engine, h: seq<Sample>, price: int, now: int) {
    && h != [] && h[|h| - 1] == Sample(Decimal(price, e.cfg.pricePrecision), now) && Ordered(h)
    && (forall i :: 0 <= i < |h| ==> h[i].price.value > 0 && h[i].price.precision == h[0].price.precision)
    && (forall i :: 0 <= i < |h| ==> NoOverflow(h[|h| - 1].price, h[i].price))
    && e.gauge.samples == After(h[..|h| - 1], e.cfg.breaker.window)
  }

  /** Outside the cooldown, with two samples kept, the move against the oldest exceeds the limit. */
  predicate Moved(e: Engine, h: seq<Sample>, k: nat, price: int, now: int) {
    && !(e.cfg.breaker.cooldown > 0 && e.gauge.lastHalt > 0 && now < e.gauge.lastHalt + e.cfg.breaker.cooldown)
    && k + 2 <= |h|
    && Distance(price, h[k].price.value) * 10_000 >= (e.cfg.breaker.maxMove.value + 1) * h[k].price.value
  }

  /** After a trade the market is halted by the breaker, says so, remembers what it was and starts a new window and
      cooldown, exactly when the price has moved too far; otherwise only the sample is recorded. `h[k..]` are the
      recent samples among the last ten thousand. */
  lemma BreakerHalts(e: Engine, h: seq<Sample>, price: int, now: int) returns (k: nat)
    requires e.cfg.hasBreaker && Haltable(e) && History(e, h, price, now)
    ensures k <= |h| && Kept(h, e.cfg.breaker.window, k)
    ensures var r := CheckBreaker(e, price, now);
            && SameMarket(e, r)
            && (Moved(e, h, k, price, now) ==>
                  r.state == Halted && r.preHalt == e.state && r.log == e.log + [MarketHalted(HaltCircuitBreaker)] && r.gauge == Gauge([], now))
            && (!Moved(e, h, k, price, now) ==>
                  r.state == e.state && r.preHalt == e.preHalt && r.log == e.log && r.gauge == Gauge(h[k..], e.gauge.lastHalt))
  {
    hide After, Exceeds, NoOverflow, Kept, Ordered;
    k := HaltsExactly(e.cfg.breaker, h, e.gauge.lastHalt);
    AfterAdded(h, e.cfg.breaker.window);
    KeptIs(h, e.cfg.breaker.window, k);
  }

  lemma AfterAdded(h: seq<Sample>, window: int)
    requires h != []
    ensures After(h, window) == Record(After(h[..|h| - 1], window), h[|h| - 1], window)
  {
  }

  /** There is only one place from which the samples are kept. */
  lemma KeptOnce(h: seq<Sample>, window: int, j: nat, k: nat)
    requires j <= |h| && k <= |h| && Kept(h, window, j) && Kept(h, window, k)
    ensures j == k
  {
    hide Kept;
    if j < |h| {
      KeptAt(h, window, j, j);
      KeptAt(h, window, k, j);
    }
    if k < |h| {
      KeptAt(h, window, k, k);
      KeptAt(h, window, j, k);
    }
  }

  lemma KeptAt(h: seq<Sample>, window: int, k: nat, i: nat)
    requires Kept(h, window, k) && i < |h|
    ensures i >= k <==> h[i].time >= h[|h| - 1].time - window && i >= |h| - MAX_SAMPLES
  {
    var s := h[i];
    assert s == h[i];
  }

  lemma KeptIs(h: seq<Sample>, window: int, k: nat)
    requires Ordered(h) && k <= |h| && Kept(h, window, k)
    ensures After(h, window) == h[k..]
  {
    var j := WindowHolds(h, window);
    KeptOnce(h, window, j, k);
  }

  /** A market without a breaker, or one that is halted or closed, is never halted by it. */
  lemma BreakerIdle(e: Engine, price: int, now: int)
    requires !e.cfg.hasBreaker || !Haltable(e)
    ensures var r := CheckBreaker(e, price, now); SameMarket(e, r) && r.state == e.state && r.log == e.log
  {
    hide Trips, Recorded;
  }

  /** The very first trade, or the first after a halt, never halts. */
  lemma FirstTradeNeverHalts(e: Engine, price: int, now: int)
    requires e.gauge.samples == []
    ensures var r := CheckBreaker(e, price, now); r.state == e.state && r.log == e.log
  {
    if e.cfg.hasBreaker {
      OneSample(Sample(Decimal(price, e.cfg.pricePrecision), now), e.cfg.breaker.window);
    }
  }

  lemma OneSample(s: Sample, window: int)
    ensures |Record([], s, window)| <= 1
  {
    assert [] + [s] == [s] && [s][1..] == [];
    assert Newest([s]) == [s];
    assert DropStale([s], s.time - window) == [s] || DropStale([s], s.time - window) == DropStale([], s.time - window);
  }

  // ----- The depth limit -----

  /** At the depth limit no stop is looked at any more: the market halts and says why, once. */
  lemma DepthLimitHalts(e: Engine, price: int, depth: nat, now: int)
    requires depth == e.cfg.maxCascade
    ensures var r := CheckStops(e, price, depth, now);
            && SameMarket(e, r) && r.gauge == e.gauge && r.preHalt == e.state
            && (Haltable(e) ==> r.state == Halted && r.log == e.log + [MarketHalted(HaltCascadeLimit)])
            && (!Haltable(e) ==> r.state == e.state && r.log == e.log)
  {
  }

  /** Below it, once the stops it set off are through, a trade is judged by the breaker. */
  lemma StopsThenBreaker(e: Engine, h: seq<Sample>, price: int, depth: nat, now: int) returns (k: nat)
    requires depth < e.cfg.maxCascade
    requires var e1 := FireAll(e.(stops := AllUnfired(e.stops, price)), AllFired(e.stops, price), price, depth, now);
             e1.cfg.hasBreaker && Haltable(e1) && History(e1, h, price, now)
    ensures k <= |h| && Kept(h, e.cfg.breaker.window, k)
    ensures var e1 := FireAll(e.(stops := AllUnfired(e.stops, price)), AllFired(e.stops, price), price, depth, now);
            var r := CheckStops(e, price, depth, now);
            && SameMarket(e1, r)
            && (r.state == Halted <==> Moved(e1, h, k, price, now))
            && r.log == if Moved(e1, h, k, price, now) then e1.log + [MarketHalted(HaltCircuitBreaker)] else e1.log
  {
    hide FireAll, History, Moved, CheckBreaker, AllFired, AllUnfired;
    var e1 := FireAll(e.(stops := AllUnfired(e.stops, price)), AllFired(e.stops, price), price, depth, now);
    k := BreakerHalts(e1, h, price, now);
  }

  /** An order that trades and sets off no stop: the market halts after it exactly when its last price has moved too far. */
  lemma TradeHaltsExactly(e: Engine, o: Order, h: seq<Sample>, price: int, now: int) returns (k: nat)
    requires e.state == Open && e.cfg.hasBreaker && e.cfg.maxCascade > 0 && History(e, h, price, now)
    requires Traded(Accept(e, o), o) == LastPrice(price) && AllFired(e.stops, price) == []
    ensures k <= |h| && Kept(h, e.cfg.breaker.window, k)
    ensures var r := PlaceAndFollow(e, o, now);
            && (r.state == Halted <==> Moved(e, h, k, price, now)) && (r.state == Open <==> !Moved(e, h, k, price, now))
            && r.log == if Moved(e, h, k, price, now) then Enter(e, o).log + [MarketHalted(HaltCircuitBreaker)] else Enter(e, o).log
  {
    hide History, Moved, CheckBreaker, AllFired, AllUnfired, Place, FillsLog, STPLog, DispositionEvents;
    var e1 := Enter(e, o);
    var e2 := e1.(stops := AllUnfired(e1.stops, price));
    SameHistory(e, e2, h, price, now);
    NoneFired(e2, price, now);
    k := StopsThenBreaker(e1, h, price, 0, now);
    SameMove(e, e2, h, k, price, now);
    var k' := BreakerHalts(e2, h, price, now);
    KeptOnce(h, e.cfg.breaker.window, k, k');
  }

  lemma NoneFired(e: Engine, price: int, now: int)
    requires e.cfg.maxCascade > 0
    ensures FireAll(e, [], price, 0, now) == e
  {
  }

  lemma SameHistory(e: Engine, r: Engine, h: seq<Sample>, price: int, now: int)
    requires History(e, h, price, now) && r.cfg == e.cfg && r.gauge == e.gauge
    ensures History(r, h, price, now)
  {
  }

  lemma SameMove(e: Engine, r: Engine, h: seq<Sample>, k: nat, price: int, now: int)
    requires r.cfg == e.cfg && r.gauge == e.gauge
    ensures Moved(r, h, k, price, now) == Moved(e, h, k, price, now)
  {
  }

  // ----- Moves between market states -----

  /** The state after a command that does not trade. */
  function Moves(e: Engine, c: Command): MarketState {
    match (c, e.state)
    case (AdminHalt, PreOpen) => Halted
    case (AdminHalt, Auction) => Halted
    case (AdminHalt, Open) => Halted
    case (AdminResume, PreOpen) => if e.preHalt == Auction then Auction else Open
    case (AdminResume, Halted) => if e.preHalt == Auction then Auction else Open
    case (AdminResume, Auction) => if e.preHalt == Auction then Auction else Open
    case (OpenAuction, PreOpen) => if e.cfg.auctions then Auction else PreOpen
    case (OpenAuction, Halted) => if e.cfg.auctions then Auction else Halted
    case (ClearAuction(_), PreOpen) => if e.cfg.auctions then Open else PreOpen
    case (ClearAuction(_), Auction) => if e.cfg.auctions then Open else Auction
    case (_, s) => s
  }

  /** Commands that do not trade move the market by that table, trades only ever halt an open market, and whatever
      halts it adds to the log. */
  lemma StateMoves(e: Engine, c: Command, now: int)
    requires !e.crashed
    ensures var r := Process(e, c, now);
            if c.PlaceLimit? || c.PlaceMarket? then
              r.state == e.state || (r.state == Halted && (e.state == Open || e.state == Auction))
            else r.state == Moves(e, c)
  {
    hide CheckLimit, Holds, StopHeld, CheckStop, PlaceAndFollow, RestOnly, Accept, LimitOrder, SumBook, SumStops, NoStopLevel, FindStop, ExpireOrders,
      ExpireStops, CarryOver;
    match c {
      case PlaceLimit(l, hook) =>
        FollowMoves(e, LimitOrder(e.cfg, l, e.clock + 1), now);
        RestMoves(e, LimitOrder(e.cfg, l, e.clock + 1));
      case PlaceMarket(m) => FollowMoves(e, MarketOrder(m, e.clock + 1), now);
      case ExpiryTick(orders, stops) =>
        ExpiryMoves(e, orders, []);
        ExpiryMoves(ExpireOrders(e, orders), [], stops);
      case _ =>
    }
  }

  lemma RestMoves(e: Engine, o: Order)
    ensures RestOnly(Accept(e, o), o).state == e.state
  {
  }

  lemma {:induction false} ExpiryMoves(e: Engine, orders: seq<OrderId>, stops: seq<OrderId>)
    ensures ExpireOrders(e, orders).state == e.state && ExpireStops(e, stops).state == e.state
    decreases |orders| + |stops|
  {
    hide Find, FindStop;
    if orders != [] {
      ExpiryMoves(e, orders[..|orders| - 1], stops);
    } else if stops != [] {
      ExpiryMoves(e, orders, stops[..|stops| - 1]);
    }
  }

  lemma FollowMoves(e: Engine, o: Order, now: int)
    ensures var r := PlaceAndFollow(e, o, now); r.state == e.state || (r.state == Halted && Haltable(e))
  {
    hide Outcomes, CheckStops, FillsLog, STPLog, DispositionEvents;
    match Traded(Accept(e, o), o)
    case NoTrade =>
    case LastPrice(p) => CheckMoves(Enter(e, o), p, 0, now);
  }

  lemma HaltMoves(e: Engine, why: HaltType, price: int, now: int)
    ensures Halt(e, why).state == if Haltable(e) then Halted else e.state
    ensures CheckBreaker(e, price, now).state == e.state || (CheckBreaker(e, price, now).state == Halted && Haltable(e))
  {
    hide Trips, Recorded;
  }

  lemma {:induction false} CheckMoves(e: Engine, price: int, depth: nat, now: int)
    requires depth <= e.cfg.maxCascade
    ensures var r := CheckStops(e, price, depth, now); r.state == e.state || (r.state == Halted && Haltable(e))
    decreases e.cfg.maxCascade - depth, 1, 0
  {
    hide FireAll, AllFired, AllUnfired, Halt, CheckBreaker;
    HaltMoves(e, HaltCascadeLimit, price, now);
    if depth < e.cfg.maxCascade {
      var e1 := e.(stops := AllUnfired(e.stops, price));
      FireMoves(e1, AllFired(e.stops, price), price, depth, now);
      HaltMoves(FireAll(e1, AllFired(e.stops, price), price, depth, now), HaltCascadeLimit, price, now);
    }
  }

  lemma {:induction false} FireMoves(e: Engine, fired: seq<Stop>, price: int, depth: nat, now: int)
    requires depth < e.cfg.maxCascade
    ensures var r := FireAll(e, fired, price, depth, now); r.state == e.state || (r.state == Halted && Haltable(e))
    decreases e.cfg.maxCascade - depth, 0, |fired|
  {
    hide Trigger, TriggerTraded, CheckStops;
    if fired != [] {
      TriggerMoves(e, fired[0], price);
      var e1 := Trigger(e, fired[0], price);
      match TriggerTraded(e, fired[0], price)
      case NoTrade => FireMoves(e1, fired[1..], price, depth, now);
      case LastPrice(q) =>
        CheckMoves(e1, q, depth + 1, now);
        FireMoves(CheckStops(e1, q, depth + 1, now), fired[1..], price, depth, now);
    }
  }

  lemma TriggerMoves(e: Engine, s: Stop, price: int)
    ensures Trigger(e, s, price).state == e.state && Trigger(e, s, price).cfg == e.cfg
  {
    hide Outcomes, SumBook, FillsLog, STPLog, DispositionEvents;
  }

  /** Halting an open market or an auction by hand and resuming it changes nothing but the two announcements. */
  lemma HaltThenResume(e: Engine, now: int, later: int)
    requires !e.crashed && (e.state == Open || e.state == Auction)
    ensures var h := Process(e, AdminHalt, now);
            && h == e.(state := Halted, preHalt := e.state, log := e.log + [MarketHalted(HaltAdmin)])
            && Process(h, AdminResume, later) == e.(preHalt := e.state, log := h.log + [MarketResumed])
  {
  }

  /** A hand cannot halt what is halted or closed, but the market then forgets what it was halted from. */
  lemma HaltAgain(e: Engine, now: int)
    requires !e.crashed && !Haltable(e)
    ensures Process(e, AdminHalt, now) == e.(preHalt := e.state)
  {
  }

  /** Each such move is announced once, as what it is; a command that does not move the market announces none. */
  lemma MovesAnnounced(e: Engine, c: Command, now: int)
    requires !e.crashed && (c.AdminHalt? || c.AdminResume? || c.OpenAuction?)
    ensures Process(e, c, now).log == e.log + if Moves(e, c) == e.state then []
                                              else [if c.AdminHalt? then MarketHalted(HaltAdmin) else if c.AdminResume? then MarketResumed else AuctionOpened]
  {
    assert e.log + [] == e.log;
  }

  /** Clearing opens the market with its result as the last word: the price and the volume, or zeros when nothing traded. */
  lemma ClearingAnnounced(e: Engine, c: Auctions.Clearing, now: int)
    requires !e.crashed && e.cfg.auctions && e.state == Auction
    ensures var r := Process(e, ClearAuction(c), now);
            && r.state == Open && |r.log| > 0
            && r.log[|r.log| - 1] == AuctionCleared(if c.Clearing? then c.price else 0, if c.Clearing? then c.qty else 0)
  {
    hide CarryOver, FillsLog, CanceledLog;
  }
}
