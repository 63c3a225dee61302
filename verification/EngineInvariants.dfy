/** What the processor keeps true between any two steps, with or without triggered stops still to be placed. */
module EngineInvariants {
  import opened Domain
  import opened BookSpec
  import opened BookLemmas
  import opened MatchSpec
  import opened MatchTheorems
  import opened MatchQuantities
  import opened PlaceEffects
  import opened StopSpec
  import Circuit
  import Decimals
  import opened Positions
  import opened EngineSpec
  import opened EventFolds

  // ----- Sums over stops -----

  /** The quantity a stop with this id waits with. */
  function StopOpen(id: OrderId): Stop -> int {
    (s: Stop) => if s.id == id then s.qty else 0
  }

  function StopSTPOn(s: Stop): int {
    if s.stp != STPDisabled then 1 else 0
  }

  /** How many resting orders, waiting stops and pending triggered stops have this id. */
  function IdCount(e: Engine, pending: seq<Stop>, id: OrderId): int {
    SumBook(e.book, HasId(id)) + SumBoth(e.stops, IsStop(id)) + SumStops(pending, IsStop(id))
  }

  /** The quantity still open under this id, wherever it is. */
  function OpenQty(e: Engine, pending: seq<Stop>, id: OrderId): int {
    SumBook(e.book, OpenOf(id)) + SumBoth(e.stops, StopOpen(id)) + SumStops(pending, StopOpen(id))
  }

  // ----- The invariants -----

  /** The state is well-formed: sorted books in time priority, pools within capacity, and no id shared by
      the book, the stop book and the triggered stops still to be placed. */
  ghost predicate Good(e: Engine, pending: seq<Stop>) {
    && WFBook(e.book, e.clock) && WFStops(e.stops, e.clock)
    && (forall i :: 0 <= i < |pending| ==> pending[i].qty > 0)
    && Levels(e.book) <= e.cfg.levelCap && CountOrders(e.book) <= e.cfg.nodeCap
    && (forall id :: IdCount(e, pending, id) <= 1)
  }

  /** Nobody asks for self-trade prevention. */
  ghost predicate NoSTP(e: Engine, pending: seq<Stop>) {
    && e.cfg.stpDefault == STPDisabled && SumBook(e.book, STPOn) == 0
    && SumStops(e.stops.sells, StopSTPOn) == 0 && SumStops(e.stops.buys, StopSTPOn) == 0 && SumStops(pending, StopSTPOn) == 0
  }

  /** Folding the depth updates gives every level of the book. */
  ghost predicate FeedAgrees(e: Engine) {
    forall side: Side, price :: DepthAfter(NoLevel, e.log, side, price) == InfoAt(e.book.Of(side), price)
  }

  ghost predicate Tracked(e: Engine, pending: seq<Stop>) {
    NoSTP(e, pending) && FeedAgrees(e)
  }

  /** Replaying the events of any order gives the quantity it still has open. */
  ghost predicate LedgerAgrees(e: Engine, pending: seq<Stop>) {
    forall id :: OpenAfter(0, e.log, id) == OpenQty(e, pending, id)
  }

  ghost predicate Ledgered(e: Engine, pending: seq<Stop>) {
    NoSTP(e, pending) && SumBook(e.book, Unflagged) == 0 && LedgerAgrees(e, pending)
  }

  /** Positions are bought minus sold, and sum to zero. */
  ghost predicate PositionsAgree(e: Engine) {
    && (forall user :: Position(e.positions, user) == SumEvents(e.log, Bought(user)))
    && SumEvents(e.log, BoughtByAll) == 0 && Net(e.positions) == 0
  }

  /** One while the market can still be halted. */
  function Gate(e: Engine): int {
    if CanTransition(e.state, Halted) then 1 else 0
  }

  /** Halts so far, and the one that may come. */
  function HaltBudget(e: Engine): int {
    SumEvents(e.log, IsHalt) + Gate(e)
  }

  /** Stops announced as triggered, waiting, or about to be announced, under one id. */
  function TriggerTotal(e: Engine, pending: seq<Stop>, id: OrderId): int {
    SumEvents(e.log, IsTrigger(id)) + SumBoth(e.stops, IsStop(id)) + SumStops(pending, IsStop(id))
  }

  /** The market is not in an auction, and not where it could resume into one. */
  predicate OutOfAuction(e: Engine) {
    !e.state.Auction? && (e.preHalt.Auction? ==> e.state.Open? || e.state.Closed?)
  }

  /** What every step keeps. */
  ghost predicate Maintains(e: Engine, p: seq<Stop>, e': Engine, p': seq<Stop>) {
    && e'.cfg == e.cfg && e.clock <= e'.clock && (OutOfAuction(e) ==> OutOfAuction(e'))
    && (Good(e, p) ==> Good(e', p'))
    && (Good(e, p) && Tracked(e, p) ==> Tracked(e', p'))
    && (Good(e, p) && Ledgered(e, p) ==> Ledgered(e', p'))
    && (PositionsAgree(e) ==> PositionsAgree(e'))
  }

  /** What a step of the cascade keeps besides: best bid below best ask, at most one halt more, and one
      announcement for every stop that fires. */
  ghost predicate Keeps(e: Engine, p: seq<Stop>, e': Engine, p': seq<Stop>) {
    && Maintains(e, p, e', p')
    && (Good(e, p) && Uncrossed(e.book) ==> Uncrossed(e'.book))
    && HaltBudget(e') <= HaltBudget(e)
    && (forall id :: TriggerTotal(e', p', id) == TriggerTotal(e, p, id))
  }

  lemma KeepsSelf(e: Engine, p: seq<Stop>)
    ensures Keeps(e, p, e, p)
  {
  }

  lemma KeepsTwice(e: Engine, p: seq<Stop>, e': Engine, p': seq<Stop>, e'': Engine, p'': seq<Stop>)
    requires Keeps(e, p, e', p') && Keeps(e', p', e'', p'')
    ensures Keeps(e, p, e'', p'')
  {
    hide Good, Tracked, Ledgered, PositionsAgree, HaltBudget, TriggerTotal, Uncrossed;
  }

  // ----- Events that say nothing -----

  /** Events that move no depth, no open quantity, no position and trigger nothing. */
  ghost predicate Silent(ev: Event) {
    || ev.MarketHalted? || ev.MarketResumed? || ev.AuctionOpened?
    || (ev.OrderRejected? && ev.reason != FOKFailed && ev.reason != PoolExhausted)
  }

  /** The folds over the log with one more event. */
  lemma LogStep(log: seq<Event>, ev: Event, id: OrderId, user: UserId, side: Side, price: int)
    ensures DepthAfter(NoLevel, log + [ev], side, price) == DepthStep(DepthAfter(NoLevel, log, side, price), ev, side, price)
    ensures OpenAfter(0, log + [ev], id) == OpenStep(OpenAfter(0, log, id), ev, id)
    ensures SumEvents(log + [ev], Bought(user)) == SumEvents(log, Bought(user)) + Bought(user)(ev)
    ensures SumEvents(log + [ev], BoughtByAll) == SumEvents(log, BoughtByAll) + BoughtByAll(ev)
    ensures SumEvents(log + [ev], IsHalt) == SumEvents(log, IsHalt) + IsHalt(ev)
    ensures SumEvents(log + [ev], IsTrigger(id)) == SumEvents(log, IsTrigger(id)) + IsTrigger(id)(ev)
  {
    hide DepthAfter, OpenAfter, SumEvents, DepthStep, OpenStep;
    DepthConcat(NoLevel, log, [ev], side, price);
    DepthFew(DepthAfter(NoLevel, log, side, price), ev, ev, side, price);
    OpenConcat(0, log, [ev], id);
    OpenFew(OpenAfter(0, log, id), ev, ev, id);
    SumEventsConcat(log, [ev], Bought(user));
    SumFew(ev, ev, Bought(user));
    SumEventsConcat(log, [ev], BoughtByAll);
    SumFew(ev, ev, BoughtByAll);
    SumEventsConcat(log, [ev], IsHalt);
    SumFew(ev, ev, IsHalt);
    SumEventsConcat(log, [ev], IsTrigger(id));
    SumFew(ev, ev, IsTrigger(id));
  }

  /** The same market but for its state, its breaker and one silent event. */
  lemma SilentKeeps(e: Engine, p: seq<Stop>, ev: Event, e': Engine)
    requires Silent(ev) && e'.log == e.log + [ev]
    requires e'.cfg == e.cfg && e'.book == e.book && e'.clock == e.clock && e'.stops == e.stops && e'.positions == e.positions
    requires (if ev.MarketHalted? then 1 else 0) + Gate(e') <= Gate(e) && (OutOfAuction(e) ==> OutOfAuction(e'))
    ensures Keeps(e, p, e', p)
  {
    hide DepthAfter, OpenAfter, SumEvents, InfoAt, WFBook, WFStops, SumLevels, SumStops, Gate;
    forall side: Side, price
      ensures DepthAfter(NoLevel, e'.log, side, price) == DepthAfter(NoLevel, e.log, side, price)
    {
      LogStep(e.log, ev, "", "", side, price);
    }
    forall id
      ensures OpenAfter(0, e'.log, id) == OpenAfter(0, e.log, id)
      ensures SumEvents(e'.log, IsTrigger(id)) == SumEvents(e.log, IsTrigger(id))
      ensures SumBook(e'.book, HasId(id)) == SumBook(e.book, HasId(id))
    {
      LogStep(e.log, ev, id, "", Bid, 0);
    }
    forall user
      ensures SumEvents(e'.log, Bought(user)) == SumEvents(e.log, Bought(user))
    {
      LogStep(e.log, ev, "", user, Bid, 0);
    }
    LogStep(e.log, ev, "", "", Bid, 0);
    SameIds(e, e', p);
  }

  lemma SameIds(e: Engine, e': Engine, p: seq<Stop>)
    requires e'.book == e.book && e'.stops == e.stops
    ensures forall id :: IdCount(e', p, id) == IdCount(e, p, id) && OpenQty(e', p, id) == OpenQty(e, p, id)
  {
  }

  /** Nothing changed but the state before the halt and the breaker's memory. */
  lemma QuietKeeps(e: Engine, p: seq<Stop>, e': Engine)
    requires e' == e.(preHalt := e'.preHalt, gauge := e'.gauge) && (OutOfAuction(e) ==> OutOfAuction(e'))
    ensures Keeps(e, p, e', p)
  {
    hide DepthAfter, OpenAfter, SumEvents, InfoAt, WFBook, WFStops, SumLevels, SumStops;
    SameIds(e, e', p);
  }

  lemma HaltKeeps(e: Engine, p: seq<Stop>, why: HaltType)
    ensures Keeps(e, p, Halt(e, why), p)
  {
    hide Keeps;
    var was := e.(preHalt := e.state);
    QuietKeeps(e, p, was);
    if CanTransition(e.state, Halted) {
      SilentKeeps(was, p, MarketHalted(why), Halt(e, why));
      KeepsTwice(e, p, was, p, Halt(e, why), p);
    }
  }

  lemma BreakerKeeps(e: Engine, p: seq<Stop>, price: int, now: int)
    ensures Keeps(e, p, CheckBreaker(e, price, now), p)
  {
    hide Keeps, Circuit.Trips, Circuit.Recorded, Halt;
    var r := CheckBreaker(e, price, now);
    if e.cfg.hasBreaker {
      var d := Decimals.Decimal(price, e.cfg.pricePrecision);
      var e1 := e.(gauge := Circuit.Recorded(e.cfg.breaker, e.gauge, d, now));
      QuietKeeps(e, p, e1);
      var h := Halt(e1, HaltCircuitBreaker);
      HaltKeeps(e1, p, HaltCircuitBreaker);
      KeepsTwice(e, p, e1, p, h, p);
      var r' := h.(gauge := Circuit.Gauge([], now));
      QuietKeeps(h, p, r');
      KeepsTwice(e, p, h, p, r', p);
    } else {
      KeepsSelf(e, p);
    }
  }
}
