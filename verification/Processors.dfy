/** The command processor: sole owner of the book, the stop book and the event stream. */
module Processors {
  import opened Domain
  import opened BookSpec
  import opened BookLemmas
  import opened MatchSpec
  import opened MatchTheorems
  import opened MatchQuantities
  import opened StopSpec
  import opened Auctions
  import opened AuctionSweep
  import opened AuctionHandover
  import opened AuctionPhase
  import opened Circuit
  import opened Positions
  import opened EngineSpec
  import opened EventFolds
  import opened EngineInvariants
  import opened EngineSteps
  import opened EngineCascade
  import opened EngineCommands
  import opened EngineRuns
  import opened EngineTheorems
  import opened PriceLevels
  import opened OrderBooks
  import opened StopFiling
  import opened StopLevels
  import opened StopBooks
  import Decimals

  class CommandProcessor {
    const cfg: Config
    const book: OrderBook
    const stopBook: StopBook
    const auctionBook: AuctionBook
    const breaker: CircuitBreaker
    const tracker: PositionTracker
    var state: MarketState
    var preHaltState: MarketState
    /** The event channel: everything sent so far. */
    var events: seq<Event>
    /** The goroutine has panicked. */
    var crashed: bool

    /** The parts other than the book. */
    ghost function Others(): set<object> {
      Plain() + stopBook.Footprint()
    }

    /** ... and those that are not books of nodes. */
    ghost function Plain(): set<object> {
      {this, auctionBook, breaker, breaker.window, breaker.window.buffer, tracker}
    }

    /** How the parts were put together. */
    ghost predicate Wired() {
      && |book.nodePool.store| == cfg.nodeCap && |book.levelPool.store| == cfg.levelCap && book.stpDefault == cfg.stpDefault
      && |stopBook.nodePool.store| == cfg.stopCap && |stopBook.levelPool.store| == cfg.stopLevelCap && stopBook.maxDepth == cfg.maxCascade
      && breaker.cfg == cfg.breaker
      && book.Footprint() !! Others() && stopBook.Footprint() !! Plain()
    }

    /** The processor as a value. */
    ghost function Value(): Engine
      reads this, stopBook`view, auctionBook, breaker, breaker.window, breaker.window.buffer, tracker, book`view, book.orderSeq
      requires breaker.Valid()
    {
      Engine(cfg, book.view, book.orderSeq.n, stopBook.View(), state, preHaltState, tracker.positions, breaker.State(),
             auctionBook.bids, auctionBook.asks, events, crashed)
    }

    /** The books own nothing of each other's and nothing of the rest. */
    lemma PartsApart()
      requires Wired()
      ensures book.Footprint() !! stopBook.Footprint() && stopBook in stopBook.Footprint() && allocated(stopBook.Footprint())
      ensures this !in book.Footprint() && this !in stopBook.Footprint()
      ensures auctionBook !in book.Footprint() && auctionBook !in stopBook.Footprint()
      ensures breaker !in book.Footprint() && breaker !in stopBook.Footprint()
      ensures breaker.window !in book.Footprint() && breaker.window !in stopBook.Footprint()
      ensures breaker.window.buffer !in book.Footprint() && breaker.window.buffer !in stopBook.Footprint()
      ensures tracker !in book.Footprint() && tracker !in stopBook.Footprint()
    {
    }

    /** Objects of different classes are different objects; only the free stacks of the pools could be shared. */
    static lemma StacksApart(b: OrderBook, sb: StopBook)
      requires b.nodePool.free != sb.nodePool.free && b.nodePool.free != sb.levelPool.free
      requires b.levelPool.free != sb.nodePool.free && b.levelPool.free != sb.levelPool.free
      ensures b.Footprint() !! sb.Footprint()
    {
    }

    lemma Sizes()
      requires Wired()
      ensures |book.nodePool.store| == cfg.nodeCap && |book.levelPool.store| == cfg.levelCap && book.stpDefault == cfg.stpDefault
      ensures |stopBook.nodePool.store| == cfg.stopCap && |stopBook.levelPool.store| == cfg.stopLevelCap && stopBook.maxDepth == cfg.maxCascade
      ensures breaker.cfg == cfg.breaker
    {
    }

    lemma PlainApart()
      ensures book.Footprint() !! Plain() && stopBook.Footprint() !! Plain()
    {
    }

    ghost predicate Sound()
      reads Others(), book.Footprint()
    {
      Wired() && book.Inv() && book.spare == {} && stopBook.Valid() && (crashed || stopBook.spare == {}) && breaker.Valid() && auctionBook.Valid()
    }

    /** Between any two steps, with these triggered stops still to be placed. */
    ghost predicate Ready(pending: seq<Stop>)
      reads Others(), book.Footprint()
    {
      Sound() && Good(Value(), pending)
    }

    /** Put the parts together; only the position tracker is the processor's own. */
    constructor (b: OrderBook, sb: StopBook, ab: AuctionBook, br: CircuitBreaker, cfg: Config)
      requires b.Inv() && b.view == EMPTY_BOOK && b.spare == {}
      requires |b.nodePool.store| == cfg.nodeCap && |b.levelPool.store| == cfg.levelCap && b.stpDefault == cfg.stpDefault
      requires sb.Valid() && sb.View() == NO_STOPS && sb.spare == {} && |sb.nodePool.store| == cfg.stopCap && |sb.levelPool.store| == cfg.stopLevelCap && sb.maxDepth == cfg.maxCascade
      requires br.Valid() && br.State() == Gauge([], 0) && br.cfg == cfg.breaker
      requires ab.Valid() && ab.bids == [] && ab.asks == []
      requires b.nodePool.free != sb.nodePool.free && b.nodePool.free != sb.levelPool.free
      requires b.levelPool.free != sb.nodePool.free && b.levelPool.free != sb.levelPool.free
      ensures Ready([]) && Value() == Initial(cfg, b.orderSeq.n)
    {
      hide OrderBook.Inv, Wired, StopBook.Valid, CircuitBreaker.Valid, AuctionBook.Valid, Ready, Value, StopBook.View, CircuitBreaker.State,
        OrderBook.Footprint, StopBook.Footprint;
      sb.Owned();
      StacksApart(b, sb);
      var tr := new PositionTracker();
      this.cfg, book, stopBook, auctionBook, breaker, tracker := cfg, b, sb, ab, br, tr;
      state, preHaltState, events, crashed := PreOpen, PreOpen, [], false;
      new;
      PlainApart();
      Assembled(b.orderSeq.n);
    }

    /** Fresh parts make a ready processor. */
    lemma Assembled(firstSeq: nat)
      requires book.Inv() && book.view == EMPTY_BOOK && book.spare == {} && book.orderSeq.n == firstSeq
      requires |book.nodePool.store| == cfg.nodeCap && |book.levelPool.store| == cfg.levelCap && book.stpDefault == cfg.stpDefault
      requires stopBook.Valid() && stopBook.View() == NO_STOPS && stopBook.spare == {}
      requires |stopBook.nodePool.store| == cfg.stopCap && |stopBook.levelPool.store| == cfg.stopLevelCap
      requires stopBook.maxDepth == cfg.maxCascade && !crashed
      requires breaker.Valid() && breaker.State() == Gauge([], 0) && breaker.cfg == cfg.breaker
      requires auctionBook.Valid() && auctionBook.bids == [] && auctionBook.asks == []
      requires tracker.positions == map[] && state == PreOpen && preHaltState == PreOpen && events == []
      requires book.Footprint() !! Others() && stopBook.Footprint() !! Plain()
      ensures Ready([]) && Value() == Initial(cfg, firstSeq)
    {
      hide Others, Plain, OrderBook.Inv, Good, StopBook.Valid, OrderBook.Footprint, StopBook.Footprint, CircuitBreaker.Valid, AuctionBook.Valid, StopBook.View, CircuitBreaker.State;
      InitiallyGood(cfg, firstSeq);
    }

    // ----- Emission -----

    method Emit(e: Event)
      modifies `events
      ensures events == old(events) + [e]
    {
      events := events + [e];
    }

    method RejectOrder(id: OrderId, user: UserId, reason: Reason)
      modifies `events
      ensures events == old(events) + [OrderRejected(id, user, reason)]
    {
      Emit(OrderRejected(id, user, reason));
    }

    /** Two fill events, the trade and the level it leaves, per fill; positions follow. */
    method EmitFillEvents(fills: seq<Fill>) returns (last: LastPrice)
      modifies `events, tracker
      ensures events == old(events) + FillsLog(fills) && tracker.positions == ApplyFills(old(tracker.positions), fills)
      ensures last == LastOf(fills)
    {
      for i := 0 to |fills|
        invariant events == old(events) + FillsLog(fills[..i]) && tracker.positions == ApplyFills(old(tracker.positions), fills[..i])
      {
        var f := fills[i];
        assert fills[..i + 1][..i] == fills[..i];
        tracker.ApplyOne(f);
        Emit(TradeFill(f.makerId, f.makerUser, true, f.makerSide, f.price, f.qty, f.makerRemain));
        Emit(TradeFill(f.takerId, f.takerUser, false, f.makerSide.Opposite(), f.price, f.qty, f.takerRemain));
        Emit(TradeExecuted(f));
        Emit(DepthUpdate(f.makerSide, f.price, f.level));
        assert events == old(events) + (FillsLog(fills[..i]) + FillEvents(f));
      }
      assert fills[..|fills|] == fills;
      last := if fills == [] then NoTrade else LastPrice(fills[|fills| - 1].price);
    }

    method EmitSTPCancels(cancels: seq<STPCanceled>)
      modifies `events
      ensures events == old(events) + STPLog(cancels)
    {
      for i := 0 to |cancels|
        invariant events == old(events) + STPLog(cancels[..i])
      {
        var c := cancels[i];
        assert cancels[..i + 1][..i] == cancels[..i];
        Emit(OrderCanceled(c.id, c.user, c.side, c.price, c.remain, c.filled, SelfTrade));
      }
      assert cancels[..|cancels|] == cancels;
    }

    method SumFills(fills: seq<Fill>) returns (filled: int)
      ensures filled == TotalQty(fills)
    {
      filled := 0;
      for i := 0 to |fills|
        invariant filled == TotalQty(fills[..i])
      {
        assert fills[..i + 1][..i] == fills[..i];
        filled := filled + fills[i].qty;
      }
      assert fills[..|fills|] == fills;
    }

    /** The event that rests or closes an order. */
    method EmitDisposition(o: Order, fills: seq<Fill>, d: Disposition)
      requires book.Inv() && Wired() && SoundBook(book.view)
      modifies `events
      ensures events == old(events) + DispositionEvents(book.view, o, fills, d)
    {
      hide Others, Plain, OrderBook.Inv, CircuitBreaker.Valid, Wired, Find, InfoAt, TotalQty, SoundBook;
      match d {
        case Rested => EmitRested(o);
        case PartialFillRested => EmitRested(o);
        case FullyFilled =>
        case Rejected => Emit(OrderRejected(o.id, o.user, FOKFailed));
        case _ =>
          var filled := SumFills(fills);
          Emit(OrderCanceled(o.id, o.user, o.side, o.price, o.origQty - filled, filled, if d == STPCanceledTaker then SelfTrade else NotFilled));
      }
    }

    method EmitRested(o: Order)
      requires book.Inv() && Wired() && SoundBook(book.view)
      modifies `events
      ensures events == old(events) + RestedEvents(book.view, o)
    {
      hide Others, Plain, OrderBook.Inv, CircuitBreaker.Valid, Wired, Find, InfoAt;
      var remain, display, ok := book.OrderRestInfo(o.id);
      var info := book.LevelInfoAt(o.side, o.price);
      Emit(OrderRested(o.id, o.user, o.side, o.price, remain, display));
      Emit(DepthUpdate(o.side, o.price, info));
    }

    // ----- Orders entering the book -----

    /** Sound, but for a node in the processor's hands. */
    ghost predicate Holding(node: OrderNode)
      reads Others(), book.Footprint()
    {
      Wired() && book.Inv() && book.spare == {node} && stopBook.Valid() && (crashed || stopBook.spare == {}) && breaker.Valid() && auctionBook.Valid()
    }

    /** Acquire a node for `o`; null when the pool is exhausted. */
    method TakeNode(o: Order) returns (node: OrderNode?)
      requires Sound()
      modifies book.nodePool`top, book.nodePool`used, book.nodePool.store, book`spare
      ensures node == null <==> CountOrders(book.view) >= cfg.nodeCap
      ensures node == null ==> Sound()
      ensures node != null ==> Holding(node) && node.o == o
    {
      hide Others, Plain, OrderBook.Inv, StopBook.Valid, AuctionBook.Valid, CircuitBreaker.Valid, SumBook, OrderBook.Footprint, StopBook.Footprint;
      PartsApart();
      book.Owned();
      book.WithinPool();
      node := book.AcquireNode(o);
    }

    /** Number the order in hand and announce it. */
    method NumberOrder(o: Order, ghost node: OrderNode)
      requires Holding(node) && o.seqNum == book.orderSeq.n + 1
      modifies book.orderSeq, `events
      ensures Holding(node) && Value() == Accept(old(Value()), o)
    {
      hide Others, Plain, OrderBook.Inv, Wired, StopBook.Valid, AuctionBook.Valid, CircuitBreaker.Valid, OrderBook.Footprint, StopBook.Footprint;
      PartsApart();
      book.Owned();
      var n := book.orderSeq.Next();
      Emit(OrderAccepted(o.id, o.user, o.side, o.typ, 0, o.price, o.origQty, o.display, o.tif, n));
    }

    /** Acquire and number a node for `o` and announce it; null when the pool is exhausted. */
    method Admit(o: Order) returns (node: OrderNode?)
      requires Sound() && o.seqNum == book.orderSeq.n + 1
      modifies book.Footprint(), `events
      ensures node == null <==> old(CountOrders(book.view)) >= cfg.nodeCap
      ensures node == null ==> Sound() && Value() == old(Value())
      ensures node != null ==> Holding(node) && node.o == o && Value() == Accept(old(Value()), o)
    {
      hide Others, Plain, OrderBook.Inv, Wired, StopBook.Valid, AuctionBook.Valid, CircuitBreaker.Valid, SumBook, OrderBook.Footprint, StopBook.Footprint, Accept;
      PartsApart();
      book.Owned();
      node := TakeNode(o);
      if node != null {
        NumberOrder(o, node);
      }
    }

    /** Match the held node and emit fills, self-trade cancels and disposition. */
    method PlaceNode(node: OrderNode) returns (last: LastPrice)
      requires Holding(node) && SoundBook(book.view) && WFOrder(node.o) && !Holds(book.view, node.o.id)
      modifies book.Footprint(), `events, tracker
      ensures Sound() && Value() == Submit(old(Value()), old(node.o)) && last == Traded(old(Value()), old(node.o))
    {
      hide Others, Plain, Wired, CircuitBreaker.Valid, OrderBook.Inv, OrderBook.Footprint, StopBook.Footprint, StopBook.Valid, AuctionBook.Valid, Place, SoundBook, WFOrder, Holds, DispositionEvents, FillsLog, STPLog, ApplyFills;
      PartsApart();
      book.Owned();
      Sizes();
      var o := node.o;
      PlaceSound(book.view, o, book.orderSeq.n, book.stpDefault, |book.levelPool.store|);
      var fills, cancels, d := book.MatchOrder(node);
      last := EmitFillEvents(fills);
      EmitSTPCancels(cancels);
      EmitDisposition(o, fills, d);
      LogParts(old(events), FillsLog(fills), STPLog(cancels), DispositionEvents(book.view, o, fills, d));
    }

    // ----- Halts and the circuit breaker -----

    /** Halt if the state machine allows it; the state to resume to is remembered either way. */
    method HaltMarket(why: HaltType) returns (halted: bool)
      modifies `state, `preHaltState, `events
      ensures halted == CanTransition(old(state), Halted) && preHaltState == old(state)
      ensures state == (if halted then Halted else old(state)) 
      ensures events == if halted then old(events) + [MarketHalted(why)] else old(events)
    {
      preHaltState := state;
      halted := CanTransition(state, Halted);
      if halted {
        state := Halted;
        Emit(MarketHalted(why));
      }
    }

    method ConsultBreaker(lastTradePrice: int, now: int)
      requires Sound()
      modifies breaker, breaker.window, breaker.window.buffer, `state, `preHaltState, `events
      ensures Sound() && Value() == CheckBreaker(old(Value()), lastTradePrice, now)
    {
      hide Others, Plain, OrderBook.Inv, StopBook.Valid, AuctionBook.Valid, OrderBook.Footprint, StopBook.Footprint, Trips, Recorded;
      PartsApart();
      if !cfg.hasBreaker {
        return;
      }
      var shouldHalt := breaker.Check(Decimals.Decimal(lastTradePrice, cfg.pricePrecision), now);
      if shouldHalt {
        var halted := HaltMarket(HaltCircuitBreaker);
        if halted {
          breaker.SetLastHalt(now);
        }
      }
    }

    // ----- The stop cascade -----

    /** Announce a triggered stop and place what it turns into. */
    method PlaceTriggered(s: Stop, price: int) returns (last: LastPrice)
      requires Sound() && SoundBook(book.view) && !Holds(book.view, s.id) && WFOrder(Converted(s, book.orderSeq.n + 1))
      modifies book.Footprint(), tracker, `events
      ensures Sound() && Value() == Trigger(old(Value()), s, price) && last == TriggerTraded(old(Value()), s, price)
    {
      hide Others, Plain, OrderBook.Inv, Wired, StopBook.Valid, AuctionBook.Valid, CircuitBreaker.Valid, OrderBook.Footprint, StopBook.Footprint, SumBook, Submit, Traded, Holds, SoundBook,
        WFOrder;
      PartsApart();
      Emit(StopTriggered(s.id, s.user, price, s.typ, s.limit));
      var o := Converted(s, book.orderSeq.n + 1);
      var node := Admit(o);
      if node == null {
        RejectOrder(s.id, s.user, PoolExhausted);
        last := NoTrade;
      } else {
        last := PlaceNode(node);
      }
    }

    /** Place a triggered stop, and follow up on its trades one level deeper. */
    method ProcessTriggered(s: Stop, price: int, depth: nat, now: int, ghost rest: seq<Stop>)
      requires Ready([s] + rest) && depth < cfg.maxCascade
      modifies book.Footprint(), stopBook.Footprint(), breaker, breaker.window, breaker.window.buffer, tracker, `state, `preHaltState, `events
      ensures Ready(rest) && Value() == AfterTrigger(old(Value()), s, price, depth, now)
      decreases cfg.maxCascade - depth, 0
    {
      hide Others, Plain, OrderBook.Inv, Wired, StopBook.Valid, AuctionBook.Valid, CircuitBreaker.Valid, OrderBook.Footprint, StopBook.Footprint, Good, Trigger, TriggerTraded, CheckStops,
        Holds, SoundBook, WFOrder;
      PartsApart();
      AdmitTriggered(Value(), s, rest, price);
      var last := PlaceTriggered(s, price);
      match last {
        case NoTrade =>
        case LastPrice(p) => CheckStopsAndBreaker(p, depth + 1, now, rest);
      }
    }

    /** Place the triggered stops one after the other, each with its own cascade. */
    method FireTriggered(triggered: seq<Stop>, lastTradePrice: int, depth: nat, now: int, ghost pending: seq<Stop>)
      requires Ready(triggered + pending) && depth < cfg.maxCascade
      modifies book.Footprint(), stopBook.Footprint(), breaker, breaker.window, breaker.window.buffer, tracker, `state, `preHaltState, `events
      ensures Ready(pending) && Value() == FireAll(old(Value()), triggered, lastTradePrice, depth, now)
      decreases cfg.maxCascade - depth, 1
    {
      hide Others, Plain, OrderBook.Inv, Wired, StopBook.Valid, AuctionBook.Valid, CircuitBreaker.Valid, OrderBook.Footprint, StopBook.Footprint, Good, FireAll, AfterTrigger;
      PartsApart();
      ghost var e := Value();
      assert triggered[0..] == triggered;
      for i := 0 to |triggered|
        invariant Ready(triggered[i..] + pending)
        invariant Value().cfg == cfg
        invariant FireAll(e, triggered, lastTradePrice, depth, now) == FireAll(Value(), triggered[i..], lastTradePrice, depth, now)
      {
        assert triggered[i..] == [triggered[i]] + triggered[i + 1..];
        assert triggered[i..] + pending == [triggered[i]] + (triggered[i + 1..] + pending);
        FireStep(Value(), triggered[i], triggered[i + 1..], lastTradePrice, depth, now);
        ProcessTriggered(triggered[i], lastTradePrice, depth, now, triggered[i + 1..] + pending);
      }
      assert triggered[|triggered|..] == [] && [] + pending == pending;
      FireEnd(Value(), lastTradePrice, depth, now);
    }

    /** Fire the stops a trade triggers, then consult the breaker. */
    method CheckStopsAndBreaker(lastTradePrice: int, depth: nat, now: int, ghost pending: seq<Stop>)
      requires Ready(pending) && depth <= cfg.maxCascade
      modifies book.Footprint(), stopBook.Footprint(), breaker, breaker.window, breaker.window.buffer, tracker, `state, `preHaltState, `events
      ensures Ready(pending) && Value() == CheckStops(old(Value()), lastTradePrice, depth, now)
      decreases cfg.maxCascade - depth, 2
    {
      hide Others, Plain, Wired, OrderBook.Inv, StopBook.Valid, AuctionBook.Valid, CircuitBreaker.Valid, OrderBook.Footprint, StopBook.Footprint, Good, FireAll, AllFired, AllUnfired, CheckBreaker;
      PartsApart();
      Sizes();
      book.Owned();
      CascadeGood(Value(), pending, lastTradePrice, depth, now);
      var limited, triggered := stopBook.CheckTriggers(lastTradePrice, depth);
      if limited {
        var halted := HaltMarket(HaltCascadeLimit);
        return;
      }
      FireTriggered(triggered, lastTradePrice, depth, now, pending);
      ConsultBreaker(lastTradePrice, now);
    }

    // ----- Limit orders -----

    /** Every check before a limit order is let in, in the order in which it is made. */
    method CheckLimitOrder(c: LimitCmd, hook: HookAnswer, now: int) returns (v: Verdict)
      requires Sound()
      ensures v == CheckLimit(Value(), c, hook, now)
    {
      hide Others, Plain, OrderBook.Inv, CircuitBreaker.Valid, Wired, StopBook.Valid, AuctionBook.Valid, OrderBook.Footprint, StopBook.Footprint, Holds, StopHeld, ValidateLimit, LimitDisabled, WouldIncrease, NoLevelLeft, WouldCross;
      if state.Closed? {
        return Fail(MarketNotOpen);
      }
      if LimitDisabled(cfg, c) {
        return Fail(FeatureDisabled);
      }
      if c.flags.reduceOnly && WouldIncrease(tracker.positions, c.user, c.side, c.qty) {
        return Fail(ReduceOnlyIncreases);
      }
      PartsApart();
      var resting := book.HasOrder(c.id);
      var collected := auctionBook.Has(c.id);
      StopKnown(c.id);
      if resting || stopBook.Has(c.id) || (cfg.auctions && collected) {
        return Fail(DuplicateOrderID);
      }
      v := ValidateLimit(cfg, c, now);
      if v.Fail? {
        return;
      }
      var crosses := book.CrossesBest(c.price, c.side);
      if c.flags.postOnly && !state.Auction? && crosses {
        return Fail(PostOnlyWouldCross);
      }
      var full := LevelsShort(c, crosses);
      if full {
        return Fail(PoolExhausted);
      }
      if hook.HookRefuses? {
        return Fail(hook.reason);
      }
      v := Pass;
    }

    /** The capacity guard: the order would need a level the pool cannot supply. */
    method LevelsShort(c: LimitCmd, crosses: bool) returns (short: bool)
      requires Sound() && crosses == WouldCross(book.view, c.side, c.price)
      ensures short == NoLevelLeft(Value(), c)
    {
      hide Others, Plain, OrderBook.Inv, StopBook.Valid, AuctionBook.Valid, OrderBook.Footprint, StopBook.Footprint, HasLevel, WouldCross;
      if !c.tif.CanRest() {
        return false;
      }
      var full := book.LevelPoolFull();
      var there := book.HasLevelAt(c.side, c.price);
      if full && !there {
        match state {
          case Halted => return true;
          case PreOpen => return true;
          case Open => return !crosses;
          case _ => return false;
        }
      }
      short := false;
    }

    lemma StopKnown(id: OrderId)
      requires stopBook.Valid()
      ensures stopBook.Has(id) <==> StopHeld(stopBook.View(), id)
    {
      stopBook.IndexFind(id);
    }

    method ProcessLimitOrder(c: LimitCmd, hook: HookAnswer, now: int)
      requires Ready([])
      modifies book.Footprint(), stopBook.Footprint(), auctionBook, breaker, breaker.window, breaker.window.buffer, tracker, `state, `preHaltState, `events
      ensures Ready([]) && Value() == ProcessLimit(old(Value()), c, hook, now)
    {
      hide Others, Plain, OrderBook.Inv, CircuitBreaker.Valid, Wired, StopBook.Valid, AuctionBook.Valid, OrderBook.Footprint, StopBook.Footprint, Good, CheckLimit, LimitOrder, PlaceAndFollow, RestOnly,
        SumBook, WFBook, WFTaker, Holds, Joined, Collect, Enterable;
      PartsApart();
      ghost var e := Value();
      LimitStays(e, c, hook, now);
      var v := CheckLimitOrder(c, hook, now);
      if v.Fail? {
        RejectOrder(c.id, c.user, v.reason);
        return;
      }
      if state.Auction? && cfg.auctions {
        CollectOrder(c);
        return;
      }
      var o := LimitOrder(cfg, c, book.orderSeq.n + 1);
      LimitReady(e, c, hook, now);
      if state.Halted? || state.PreOpen? {
        LetRest(o);
      } else {
        LetMatch(o, now);
      }
    }

    /** Take an order into a market that is not matching. */
    method LetRest(o: Order)
      requires Sound() && SoundBook(book.view) && WFOrder(o) && o.seqNum == book.orderSeq.n + 1
      requires CountOrders(book.view) <= cfg.nodeCap && !Holds(book.view, o.id)
      modifies book.Footprint(), `events
      ensures Sound()
      ensures Value() == if CountOrders(old(book.view)) >= cfg.nodeCap then Reject(old(Value()), o.id, o.user, PoolExhausted)
                         else RestOnly(Accept(old(Value()), o), o)
    {
      hide Others, Plain, OrderBook.Inv, CircuitBreaker.Valid, Wired, StopBook.Valid, AuctionBook.Valid, OrderBook.Footprint, StopBook.Footprint, DispositionEvents, CanRestIn, Rest, SumBook, WFBook, Holds;
      PartsApart();
      var node := Admit(o);
      if node == null {
        RejectOrder(o.id, o.user, PoolExhausted);
      } else {
        RestOrder(node);
      }
    }

    /** Take an order into a trading market, and follow up on its trades. */
    method LetMatch(o: Order, now: int)
      requires Ready([]) && WFOrder(o) && o.seqNum == book.orderSeq.n + 1 && !Holds(book.view, o.id) && Enterable(Value(), o)
      modifies book.Footprint(), stopBook.Footprint(), breaker, breaker.window, breaker.window.buffer, tracker, `state, `preHaltState, `events
      ensures Sound()
      ensures Value() == if CountOrders(old(book.view)) >= cfg.nodeCap then Reject(old(Value()), o.id, o.user, PoolExhausted)
                         else PlaceAndFollow(old(Value()), o, now)
    {
      hide Others, Plain, OrderBook.Inv, CircuitBreaker.Valid, Wired, StopBook.Valid, AuctionBook.Valid, OrderBook.Footprint, StopBook.Footprint, Good, CheckStops, Submit, SumBook, WFBook, WFOrder, Holds;
      PartsApart();
      GoodBounds(Value());
      var node := Admit(o);
      if node == null {
        RejectOrder(o.id, o.user, PoolExhausted);
        return;
      }
      var last := PlaceNode(node);
      match last {
        case NoTrade =>
        case LastPrice(p) => CheckStopsAndBreaker(p, 0, now, []);
      }
    }

    /** In the auction phase the order is numbered, announced and collected. */
    method CollectOrder(c: LimitCmd)
      requires Sound()
      modifies book.Footprint(), auctionBook, `events
      ensures Sound() && Value() == Collect(old(Value()), c)
    {
      hide Others, Plain, OrderBook.Inv, CircuitBreaker.Valid, Wired, StopBook.Valid, OrderBook.Footprint, StopBook.Footprint, Joined, InPriority;
      PartsApart();
      book.Owned();
      var n := book.orderSeq.Next();
      Emit(OrderAccepted(c.id, c.user, c.side, Limit, 0, c.price, c.qty, c.qty, c.tif, n));
      auctionBook.AddOrder(AuctionOrder(c.id, c.user, c.side, c.price, c.qty, c.tif, n));
    }

    /** Before the open and while halted: rest without matching. */
    method RestOrder(node: OrderNode)
      requires Holding(node) && !Holds(book.view, node.o.id)
      requires SoundBook(book.view) && WFOrder(node.o)
      modifies book.Footprint(), `events
      ensures Sound() && Value() == RestOnly(old(Value()), old(node.o))
    {
      hide Others, Plain, OrderBook.Inv, StopBook.Valid, AuctionBook.Valid, OrderBook.Footprint, StopBook.Footprint, DispositionEvents, CanRestIn, Rest, WFBook, Holds, WFTaker;
      PartsApart();
      book.Owned();
      book.IndexHolds(node.o.id);
      var o := node.o;
      RestKeepsSound(book.view, o);
      var ok := book.RestNode(node);
      if !ok {
        book.ReleaseNode(node);
        EmitDisposition(o, [], Canceled);
      } else {
        EmitDisposition(o, [], Rested);
      }
    }

    // ----- Market orders -----

    method ProcessMarketOrder(c: MarketCmd, now: int)
      requires Ready([])
      modifies book.Footprint(), stopBook.Footprint(), breaker, breaker.window, breaker.window.buffer, tracker, `state, `preHaltState, `events
      ensures Ready([]) && Value() == ProcessMarket(old(Value()), c, now)
    {
      hide Others, Plain, OrderBook.Inv, CircuitBreaker.Valid, Wired, StopBook.Valid, AuctionBook.Valid, OrderBook.Footprint, StopBook.Footprint, Good, CheckMarket, PlaceAndFollow, MarketOrder,
        SumBook, WFBook, WFTaker, Holds, Enterable;
      PartsApart();
      ghost var e := Value();
      MarketStays(e, c, now);
      var v := CheckMarketOrder(c);
      if v.Fail? {
        RejectOrder(c.id, c.user, v.reason);
        return;
      }
      MarketReady(e, c);
      LetMatch(MarketOrder(c, book.orderSeq.n + 1), now);
    }

    method CheckMarketOrder(c: MarketCmd) returns (v: Verdict)
      requires Sound()
      ensures v == CheckMarket(Value(), c)
    {
      hide Others, Plain, OrderBook.Inv, CircuitBreaker.Valid, Wired, StopBook.Valid, AuctionBook.Valid, OrderBook.Footprint, StopBook.Footprint, Holds, StopHeld, WouldIncrease;
      PartsApart();
      var resting := book.HasOrder(c.id);
      StopKnown(c.id);
      if !state.Open? {
        return Fail(MarketNotOpen);
      }
      if !cfg.marketOrders || c.flags.iceberg || (c.flags.reduceOnly && !cfg.reduceOnly) {
        return Fail(FeatureDisabled);
      }
      if c.flags.reduceOnly && WouldIncrease(tracker.positions, c.user, c.side, c.qty) {
        return Fail(ReduceOnlyIncreases);
      }
      if resting || stopBook.Has(c.id) {
        return Fail(DuplicateOrderID);
      }
      if c.qty <= 0 || (cfg.minQty != 0 && c.qty < cfg.minQty) {
        return Fail(BelowMinQty);
      }
      if cfg.maxQty != 0 && c.qty > cfg.maxQty {
        return Fail(AboveMaxQty);
      }
      if c.tif.CanRest() {
        return Fail(FeatureDisabled);
      }
      v := Pass;
    }

    // ----- Stop orders -----

    method ProcessStopOrder(c: StopCmd, now: int)
      requires Ready([]) && !crashed
      modifies book.Footprint(), stopBook.Footprint(), `events, `crashed
      ensures Ready([]) && Value() == ProcessStop(old(Value()), c, now)
    {
      hide Others, Plain, Wired, OrderBook.Inv, StopBook.Valid, AuctionBook.Valid, OrderBook.Footprint, StopBook.Footprint, Good, CheckStop, SumBoth, Enlist, Crash,
        NoStopLevel, StopOf, Holds, StopHeld, CircuitBreaker.Valid;
      PartsApart();
      Sizes();
      book.Owned();
      ghost var e := Value();
      StopStays(e, c, now);
      var v := CheckStopOrder(c, now);
      if v.Fail? {
        RejectOrder(c.id, c.user, v.reason);
        return;
      }
      var node := stopBook.AcquireNode(StopOf(cfg, c, book.orderSeq.n + 1));
      if node == null {
        RejectOrder(c.id, c.user, PoolExhausted);
        return;
      }
      EnlistStop(c, node);
    }

    /** Hand the stop in: it is filed, or the stop book panics for want of a level slot. */
    method FileStop(node: StopNode) returns (ok: bool)
      requires Wired() && book.Inv() && book.spare == {} && stopBook.Valid() && stopBook.spare == {node} && breaker.Valid() && auctionBook.Valid()
      requires !StopHeld(stopBook.View(), node.s.id)
      modifies stopBook.Footprint()
      ensures book.Inv() && stopBook.Valid() && breaker.Valid() && auctionBook.Valid() && node.s == old(node.s)
      ensures ok == !NoStopLevel(old(Value()), node.s.side, node.s.trigger) && (ok ==> stopBook.spare == {})
      ensures var e, s := old(Value()), node.s;
              Value() == if ok then e.(stops := e.stops.With(s.side, AddTo(e.stops.Of(s.side), s))) else e
    {
      hide Others, Plain, Wired, OrderBook.Inv, StopBook.Valid, AuctionBook.Valid, OrderBook.Footprint, StopBook.Footprint, AddTo, StopHeld,
        TriggersInUse, HasStopAt, CircuitBreaker.Valid;
      PartsApart();
      Sizes();
      book.Owned();
      StopKnown(node.s.id);
      ok := stopBook.AddStop(node);
    }

    /** Number the stop in hand, file it and announce it - or panic: a new trigger price finds no level slot. */
    method EnlistStop(c: StopCmd, node: StopNode)
      requires Wired() && book.Inv() && book.spare == {} && stopBook.Valid() && stopBook.spare == {node} && breaker.Valid() && auctionBook.Valid()
      requires node.s == StopOf(cfg, c, book.orderSeq.n + 1) && !StopHeld(stopBook.View(), c.id)
      modifies book.orderSeq, stopBook.Footprint(), `events, `crashed
      ensures Sound()
      ensures Value() == if NoStopLevel(old(Value()), c.side, c.trigger) then Crash(old(Value()))
                         else Enlist(old(Value()), StopOf(cfg, c, old(book.orderSeq.n) + 1))
    {
      hide Others, Plain, Wired, OrderBook.Inv, StopBook.Valid, AuctionBook.Valid, OrderBook.Footprint, StopBook.Footprint, AddTo, StopHeld,
        TriggersInUse, HasStopAt, CircuitBreaker.Valid;
      PartsApart();
      book.Owned();
      var n := book.orderSeq.Next();
      var s := node.s;
      var ok := FileStop(node);
      if ok {
        Emit(OrderAccepted(s.id, s.user, s.side, s.typ, s.trigger, s.limit, s.qty, s.qty, s.tif, n));
      } else {
        crashed := true;
      }
    }

    method CheckStopOrder(c: StopCmd, now: int) returns (v: Verdict)
      requires Sound()
      ensures v == CheckStop(Value(), c, now) && (v.Pass? ==> !StopHeld(stopBook.View(), c.id))
    {
      hide Others, Plain, OrderBook.Inv, CircuitBreaker.Valid, Wired, StopBook.Valid, AuctionBook.Valid, OrderBook.Footprint, StopBook.Footprint, Holds, StopHeld, ValidateQty, ValidateExpiry, Multiple;
      PartsApart();
      var resting := book.HasOrder(c.id);
      StopKnown(c.id);
      if !state.Open? && !state.Halted? {
        return Fail(MarketNotOpen);
      }
      if !cfg.stopOrders || (c.flags.reduceOnly && !cfg.reduceOnly) {
        return Fail(FeatureDisabled);
      }
      if resting || stopBook.Has(c.id) {
        return Fail(DuplicateOrderID);
      }
      v := ValidateExpiry(cfg, c.tif, c.expireAt, now);
      if v.Fail? {
        return;
      }
      v := ValidateQty(cfg, c.trigger, c.qty);
      if v.Fail? {
        return;
      }
      if !Multiple(c.qty, cfg.lot) {
        return Fail(InvalidLot);
      }
      if !Multiple(c.trigger, cfg.tick) || (c.typ == Limit && !Multiple(c.limit, cfg.tick)) {
        return Fail(InvalidTick);
      }
      v := Pass;
    }

    // ----- Cancel -----

    /** Announce a canceled order and what its level became, and give its node back. */
    method EmitCanceled(node: OrderNode)
      requires Holding(node) && SoundBook(book.view)
      modifies book.Footprint(), `events
      ensures Sound() && unchanged(book.orderSeq) && book.view == old(book.view)
      ensures events == old(events) + CanceledEvents(book.view, old(node.o))
    {
      hide Others, Plain, OrderBook.Inv, CircuitBreaker.Valid, Wired, StopBook.Valid, AuctionBook.Valid, OrderBook.Footprint, StopBook.Footprint, InfoAt, WFBook;
      PartsApart();
      book.Owned();
      var o := node.o;
      var canceledQty := o.remain;
      if o.iceberg {
        canceledQty := canceledQty + o.hidden;
      }
      Emit(OrderCanceled(o.id, o.user, o.side, o.price, canceledQty, o.filled, UserRequested));
      var info := book.LevelInfoAt(o.side, o.price);
      Emit(DepthUpdate(o.side, o.price, info));
      book.ReleaseNode(node);
    }

    method ProcessCancelOrder(id: OrderId, user: UserId)
      requires Ready([])
      modifies book.Footprint(), stopBook.Footprint(), `events
      ensures Ready([]) && Value() == ProcessCancel(old(Value()), id, user)
    {
      hide Others, Plain, OrderBook.Inv, CircuitBreaker.Valid, Wired, StopBook.Valid, AuctionBook.Valid, OrderBook.Footprint, StopBook.Footprint, Good, Find, FindStop, RemoveId, RemoveStop, InfoAt, WFBook;
      PartsApart();
      book.Owned();
      ghost var e := Value();
      CancelStays(e, id, user);
      var r := book.Cancel(id, user);
      match r {
        case Removed(node) => EmitCanceled(node);
        case Mismatch => RejectOrder(id, user, OrderNotFound);
        case NotFound => CancelWaiting(id, user);
      }
    }

    /** An id the book does not know may be a waiting stop. */
    method CancelWaiting(id: OrderId, user: UserId)
      requires Sound() && Find(book.view, id) == Missing
      requires FindStop(stopBook.View(), id).FoundStop? ==> FindStop(stopBook.View(), id).stop.id == id
      modifies stopBook.Footprint(), `events
      ensures Sound() && Value() == ProcessCancel(old(Value()), id, user)
    {
      hide Others, Plain, OrderBook.Inv, CircuitBreaker.Valid, Wired, StopBook.Valid, AuctionBook.Valid, OrderBook.Footprint, StopBook.Footprint, Find, FindStop, RemoveStop;
      PartsApart();
      book.Owned();
      var r := stopBook.CancelStop(id, user);
      match r {
        case StopRemoved(node) =>
          Emit(OrderCanceled(id, user, node.s.side, node.s.trigger, node.s.qty, 0, UserRequested));
          stopBook.ReleaseNode(node);
        case _ => RejectOrder(id, user, OrderNotFound);
      }
    }

    // ----- Administration -----

    method ProcessAdminHalt()
      requires Ready([])
      modifies `state, `preHaltState, `events
      ensures Ready([]) && Value() == Halt(old(Value()), HaltAdmin)
    {
      hide Others, Plain, OrderBook.Inv, CircuitBreaker.Valid, Wired, StopBook.Valid, AuctionBook.Valid, OrderBook.Footprint, StopBook.Footprint, Good;
      PartsApart();
      HaltStays(Value());
      var halted := HaltMarket(HaltAdmin);
    }

    method ProcessAdminResume()
      requires Ready([])
      modifies `state, `events
      ensures Ready([]) && Value() == ProcessResume(old(Value()))
    {
      hide Others, Plain, OrderBook.Inv, CircuitBreaker.Valid, Wired, StopBook.Valid, AuctionBook.Valid, OrderBook.Footprint, StopBook.Footprint, Good;
      PartsApart();
      StateAloneStays(Value());
      var target := preHaltState;
      if target != Open && target != Auction {
        target := Open;
      }
      if CanTransition(state, target) {
        state := target;
        Emit(MarketResumed);
      }
    }

    // ----- The call auction -----

    method OpenAuctionPhase()
      requires Sound()
      modifies `state, `events
      ensures Sound() && Value() == ProcessOpenAuction(old(Value()))
      ensures old(Ready([])) ==> Ready([])
    {
      hide Others, Plain, OrderBook.Inv, CircuitBreaker.Valid, Wired, StopBook.Valid, AuctionBook.Valid, OrderBook.Footprint, StopBook.Footprint, Good;
      PartsApart();
      if Ready([]) {
        StateAloneStays(Value());
      }
      if CanTransition(state, Auction) {
        state := Auction;
        Emit(AuctionOpened);
      }
    }

    /** Put an order left over from the auction into the continuous book, under its old number. */
    method CarryOrder(ao: AuctionOrder, ghost rest: seq<AuctionOrder>)
      requires Sound() && SoundBook(book.view) && Unshared(book.view, [ao] + rest) && ao.qty > 0
      modifies book.Footprint(), `events, tracker
      ensures Sound() && Value() == CarryOne(old(Value()), ao)
      ensures SoundBook(book.view) && Unshared(book.view, rest)
    {
      hide Others, Plain, OrderBook.Inv, CircuitBreaker.Valid, Wired, StopBook.Valid, AuctionBook.Valid, SumBook, OrderBook.Footprint, StopBook.Footprint, SoundBook, WFOrder, Unshared, Holds, Submit;
      PartsApart();
      book.Owned();
      CarryKeepsIds(Value(), ao, rest);
      var node := TakeNode(Carried(ao));
      if node == null {
        RejectOrder(ao.id, ao.user, PoolExhausted);
      } else {
        var last := PlaceNode(node);
      }
    }

    /** Carry them over one after the other. */
    method CarryOrders(unmatched: seq<AuctionOrder>)
      requires Sound() && SoundBook(book.view) && Unshared(book.view, unmatched) && Positive(unmatched)
      modifies book.Footprint(), `events, tracker
      ensures Sound() && Value() == CarryOver(old(Value()), unmatched) && SoundBook(book.view)
    {
      hide Others, Plain, OrderBook.Inv, CircuitBreaker.Valid, Wired, StopBook.Valid, AuctionBook.Valid, OrderBook.Footprint, StopBook.Footprint, SoundBook, Unshared, CarryOne;
      PartsApart();
      ghost var e := Value();
      for i := 0 to |unmatched|
        invariant Sound() && Value() == CarryOver(e, unmatched[..i])
        invariant SoundBook(book.view) && Unshared(book.view, unmatched[i..])
      {
        assert unmatched[i..] == [unmatched[i]] + unmatched[i + 1..];
        assert unmatched[..i + 1][..i] == unmatched[..i];
        CarryOrder(unmatched[i], unmatched[i + 1..]);
      }
      assert unmatched[..|unmatched|] == unmatched;
    }

    method EmitAuctionCancels(canceled: seq<AuctionOrder>)
      modifies `events
      ensures events == old(events) + CanceledLog(canceled)
    {
      for i := 0 to |canceled|
        invariant events == old(events) + CanceledLog(canceled[..i])
      {
        var o := canceled[i];
        assert canceled[..i + 1][..i] == canceled[..i];
        Emit(OrderCanceled(o.id, o.user, o.side, o.price, o.qty, 0, NotFilled));
      }
      assert canceled[..|canceled|] == canceled;
    }

    /** Execute the auction at its clearing price, carry over what is good till canceled, cancel the rest, open. */
    method ClearNow() returns (c: Clearing)
      requires Sound() && state.Auction? && Clearable()
      modifies book.Footprint(), tracker, `state, `events
      ensures Sound() && SoundBook(book.view) && Value() == ProcessClearAuction(old(Value()), c)
      ensures Clears(auctionBook.bids, auctionBook.asks, cfg.reference, c)
    {
      hide Others, Plain, OrderBook.Inv, CircuitBreaker.Valid, Wired, StopBook.Valid, AuctionBook.Valid, OrderBook.Footprint, StopBook.Footprint, SoundBook,
        Unshared, Clears, CarryOver, Residual, PairUp, Eligible, GoodTillCanceled, Immediate, ApplyFills, FillsLog, CanceledLog, Positive;
      PartsApart();
      c := ComputeClearingPrice(auctionBook.bids, auctionBook.asks, cfg.reference);
      var price, qty := 0, 0;
      if c.Clearing? {
        price, qty := c.price, c.qty;
      }
      var canceled := SweepAndCarry(price);
      CloseAuction(canceled, price, qty);
    }

    /** Execute the auction at `price` and hand on what is good till canceled. */
    method SweepAndCarry(price: int) returns (canceled: seq<AuctionOrder>)
      requires Sound() && Clearable()
      modifies book.Footprint(), tracker, `events
      ensures Sound() && SoundBook(book.view)
      ensures var e, fills, rest := old(Value()),
                  PairUp(Eligible(Bid, auctionBook.bids, price), Eligible(Ask, auctionBook.asks, price), price),
                  Residual(auctionBook.bids, auctionBook.asks, price);
        && canceled == Immediate(rest)
        && Value() == CarryOver(e.(positions := ApplyFills(e.positions, fills)).Emit(FillsLog(fills)), GoodTillCanceled(rest))
    {
      hide Others, Plain, OrderBook.Inv, CircuitBreaker.Valid, Wired, StopBook.Valid, AuctionBook.Valid, OrderBook.Footprint, StopBook.Footprint, SoundBook,
        Unshared, CarryOver, Residual, PairUp, Eligible, GoodTillCanceled, Immediate, ApplyFills, FillsLog, Positive;
      PartsApart();
      var fills, unmatched;
      fills, unmatched, canceled := Sweep(auctionBook.bids, auctionBook.asks, price);
      var last := EmitFillEvents(fills);
      CarriedUnshared(book.view, auctionBook.bids, auctionBook.asks, price);
      CarryOrders(unmatched);
    }

    method CloseAuction(canceled: seq<AuctionOrder>, price: int, qty: int)
      modifies `state, `events
      ensures state == if CanTransition(old(state), Open) then Open else old(state)
      ensures events == old(events) + (CanceledLog(canceled) + [AuctionCleared(price, qty)])
    {
      EmitAuctionCancels(canceled);
      Emit(AuctionCleared(price, qty));
      if CanTransition(state, Open) {
        state := Open;
      }
    }

    /** What clearing needs: accepted orders are positive, and no id is used twice among them and the book. */
    ghost predicate Clearable()
      reads book`view, auctionBook
    {
      && SoundBook(book.view) && Positive(auctionBook.bids) && Positive(auctionBook.asks)
      && Unshared(book.view, auctionBook.bids + auctionBook.asks)
    }

    /** Throughout the auction phase, which every command keeps, the auction can be cleared. */
    lemma PhaseReady()
      requires Sound() && InPhase(Value())
      ensures Clearable()
    {
      hide InPhase, SoundBook, Positive, Unshared;
      PhaseClearable(Value());
    }

    /** The call auction's end, from its phase or straight from before the open. The continuous book may
        hold orders rested before the auction. */
    method ClearAuction() returns (ghost c: Clearing)
      requires Sound() && Clearable()
      modifies book.Footprint(), tracker, `state, `events
      ensures Sound() && SoundBook(book.view) && Value() == ProcessClearAuction(old(Value()), c)
      ensures old(state).PreOpen? || old(state).Auction? ==> Clears(auctionBook.bids, auctionBook.asks, cfg.reference, c)
    {
      hide Others, Plain, OrderBook.Inv, CircuitBreaker.Valid, Wired, StopBook.Valid, AuctionBook.Valid, OrderBook.Footprint, StopBook.Footprint, SoundBook, Unshared, Clears, Ready, CarryOver, Residual, PairUp,
        Eligible, GoodTillCanceled, Immediate, ApplyFills, FillsLog, CanceledLog, Positive;
      PartsApart();
      c := NoPrice;
      if state.PreOpen? {
        OpenAuctionPhase();
      }
      if state.Auction? {
        c := ClearNow();
      }
    }

    // ----- Expiry -----

    /** Take every expired order off the book, then announce each and give its node back. */
    method ExpireResting(now: int) returns (ghost ids: seq<OrderId>, ghost os: seq<Order>)
      requires Sound() && SoundBook(book.view)
      modifies book.Footprint(), `events
      ensures Sound() && Value() == ExpireOrders(old(Value()), ids) && Expires(old(book.view), ids, os, now)
    {
      hide Others, Plain, OrderBook.Inv, CircuitBreaker.Valid, Wired, StopBook.Valid, AuctionBook.Valid, OrderBook.Footprint, StopBook.Footprint, Find, RemoveAll, Swept, ExpiredLog, Expires, ExpireOrders, Expired, WFBook;
      PartsApart();
      book.Owned();
      ghost var e := Value();
      ghost var was := book.Entries();
      IndexedOrders();
      var expired;
      expired, ids := book.ExpireGTD(now);
      SweptKnown(was, ids, now);
      os := seq(|ids|, j requires 0 <= j < |ids| => was[ids[j]]);
      SweptExpires(e.book, was, ids, os, now);
      DistinctExpired(e.book, ids, os, now);
      ReleaseExpired(expired, os);
      ExpireAsList(e, ids, os);
    }

    /** What the index says is what the book holds. */
    lemma IndexedOrders()
      requires Sound()
      ensures forall id :: Find(book.view, id) == if id in book.Entries() then Found(book.Entries()[id]) else Missing
    {
      hide Others, Plain, OrderBook.Inv, CircuitBreaker.Valid, Wired, Find;
      forall id
        ensures Find(book.view, id) == if id in book.Entries() then Found(book.Entries()[id]) else Missing
      {
        book.IndexFind(id);
      }
    }

    /** Announce the expired orders, held by the processor, and release their nodes. */
    method ReleaseExpired(expired: seq<OrderNode>, ghost os: seq<Order>)
      requires book.Inv() && book.spare == book.NodeSet(expired)
      requires |os| == |expired| && (forall j :: 0 <= j < |os| ==> expired[j].o == os[j]) && forall i, j :: 0 <= i < j < |os| ==> os[i].id != os[j].id
      modifies book.nodePool`top, book.nodePool`used, book.nodePool.free, book`spare, `events
      ensures book.Inv() && book.spare == {} && events == old(events) + ExpiredLog(os)
    {
      hide Others, Plain, OrderBook.Inv;
      for k := 0 to |expired|
        invariant book.Inv() && events == old(events) + ExpiredLog(os[..k])
        invariant book.spare == book.NodeSet(expired[k..])
        invariant forall j :: 0 <= j < |os| ==> expired[j].o == os[j]
      {
        var o := expired[k].o;
        assert os[..k + 1][..k] == os[..k];
        Emit(OrderExpired(o.id, o.user, o.side, o.price, o.remain));
        assert expired[k..] == [expired[k]] + expired[k + 1..];
        assert forall j :: k < j < |os| ==> expired[j] != expired[k];
        book.ReleaseNode(expired[k]);
      }
      assert os[..|os|] == os;
    }

    /** Take every expired stop off the stop book, then announce each and give its node back. */
    method ExpireWaiting(now: int) returns (ghost ids: seq<OrderId>)
      requires Sound()
      modifies stopBook.Footprint(), `events
      ensures Sound() && Value() == ExpireStops(old(Value()), ids) && StopsExpire(old(stopBook.View()), ids, now)
    {
      hide Others, Plain, OrderBook.Inv, Wired, StopBook.Valid, AuctionBook.Valid, OrderBook.Footprint, StopBook.Footprint, FindStop, RemoveStops, ExpireStops, Overdue,
        StopExpired, StopExpiredLog, CircuitBreaker.Valid;
      PartsApart();
      book.Owned();
      ghost var e := Value();
      ghost var was := stopBook.Entries();
      var expired;
      expired, ids := stopBook.ExpireGTD(now);
      OverdueIds(was, ids, now);
      ghost var ss := seq(|ids|, j requires 0 <= j < |ids| => was[ids[j]]);
      ReleaseExpiredStops(expired, ss, old(stopBook.spare));
      ExpireStopsAsList(e, ids, ss);
    }

    /** Announce the expired stops, held by the processor, and release their nodes. */
    method ReleaseExpiredStops(expired: seq<StopNode>, ghost ss: seq<Stop>, ghost others: set<StopNode>)
      requires Wired() && stopBook.Valid() && stopBook.spare == others + stopBook.NodeSet(expired) && forall j :: 0 <= j < |expired| ==> expired[j] !in others
      requires |ss| == |expired| && (forall j :: 0 <= j < |ss| ==> expired[j] in stopBook.nodePool.store && expired[j].s == ss[j])
      requires forall i, j :: 0 <= i < j < |ss| ==> ss[i].id != ss[j].id
      modifies stopBook.Footprint(), `events
      ensures stopBook.Valid() && stopBook.spare == others && stopBook.View() == old(stopBook.View()) && events == old(events) + StopExpiredLog(ss)
    {
      hide Wired, StopBook.Valid, StopBook.Footprint, OrderBook.Footprint, StopBook.NodeSet, StopExpiredLog;
      stopBook.NodeSetEmpty();
      NoStopExpired();
      assert ss[..0] == [] && expired[0..] == expired;
      PartsApart();
      for k := 0 to |expired|
        invariant stopBook.Valid() && events == old(events) + StopExpiredLog(ss[..k]) && stopBook.View() == old(stopBook.View())
        invariant stopBook.spare == others + stopBook.NodeSet(expired[k..])
        invariant forall j :: 0 <= j < |ss| ==> expired[j].s == ss[j]
      {
        var s := expired[k].s;
        StopExpiredStep(ss, k);
        Emit(OrderExpired(s.id, s.user, s.side, s.trigger, s.qty));
        stopBook.NodeSetRest(expired, k, others);
        stopBook.ReleaseNode(expired[k]);
      }
      assert ss[..|ss|] == ss && expired[|expired|..] == [];
    }

    /** The once-a-second check: exactly the orders and stops past their expiry go, each once. */
    method RunExpiryCheck(now: int) returns (ghost orders: seq<OrderId>, ghost stops: seq<OrderId>)
      requires Ready([])
      modifies book.Footprint(), stopBook.Footprint(), `events
      ensures Ready([]) && Value() == ExpireStops(ExpireOrders(old(Value()), orders), stops)
      ensures (exists os :: Expires(old(book.view), orders, os, now)) && StopsExpire(old(stopBook.View()), stops, now)
    {
      hide Others, Plain, OrderBook.Inv, CircuitBreaker.Valid, Wired, StopBook.Valid, AuctionBook.Valid, OrderBook.Footprint, StopBook.Footprint, Good, ExpireOrders, ExpireStops, Expires, StopsExpire, WFBook;
      PartsApart();
      ghost var e := Value();
      GoodBounds(e);
      ghost var os;
      orders, os := ExpireResting(now);
      stops := ExpireWaiting(now);
      ExpiryStays(e, orders, stops);
    }

    // ----- Dispatch -----

    /** The command is one the processor takes from its channel; expiry and auctions come from timers. */
    predicate Queued(c: Command) {
      !c.ExpiryTick? && !c.OpenAuction? && !c.ClearAuction?
    }

    lemma ReadyWired()
      requires Ready([])
      ensures Wired()
    {
      hide Others, Plain, OrderBook.Inv, CircuitBreaker.Valid, StopBook.Valid, Good, Wired;
    }

    method Dispatch(c: Command, now: int)
      requires Ready([]) && Queued(c)
      modifies book.Footprint(), stopBook.Footprint(), auctionBook, breaker, breaker.window, breaker.window.buffer, tracker, `state, `preHaltState, `events, `crashed
      ensures Ready([]) && Value() == Process(old(Value()), c, now)
    {
      hide Ready, ProcessLimit, ProcessMarket, ProcessStop, ProcessCancel, Halt, ProcessResume, OrderBook.Footprint, StopBook.Footprint;
      ReadyWired();
      PartsApart();
      if crashed {
        return;
      }
      match c {
        case PlaceLimit(l, hook) => ProcessLimitOrder(l, hook, now);
        case PlaceMarket(m) => ProcessMarketOrder(m, now);
        case PlaceStop(s) => ProcessStopOrder(s, now);
        case CancelOrder(id, user) => ProcessCancelOrder(id, user);
        case AdminHalt => ProcessAdminHalt();
        case AdminResume => ProcessAdminResume();
      }
    }
  }

  /** A market with all its parts: empty, and before the open. */
  method NewMarket(cfg: Config, firstSeq: nat) returns (p: CommandProcessor)
    ensures p.Ready([]) && p.Value() == Initial(cfg, firstSeq)
  {
    hide OrderBook.Inv, StopBook.Valid, CircuitBreaker.Valid, AuctionBook.Valid, CommandProcessor.Ready, CommandProcessor.Value,
      StopBook.View, CircuitBreaker.State;
    var b := new OrderBook(cfg.stpDefault, cfg.nodeCap, cfg.levelCap, firstSeq);
    var sb := new StopBook(cfg.stopCap, cfg.stopLevelCap, cfg.maxCascade);
    sb.Owned();
    var ab := new AuctionBook();
    var br := new CircuitBreaker(cfg.breaker);
    p := new CommandProcessor(b, sb, ab, br, cfg);
  }

  // ----- Facts about the state as a value -----

  lemma LimitStays(e: Engine, c: LimitCmd, hook: HookAnswer, now: int)
    requires Good(e, [])
    ensures Good(ProcessLimit(e, c, hook, now), [])
  {
    hide Good, ProcessLimit, CheckLimit;
    if e.state.Auction? && e.cfg.auctions {
      CollectStays(e, c, hook, now);
    } else {
      LimitMaintains(e, c, hook, now);
    }
  }

  lemma CollectStays(e: Engine, c: LimitCmd, hook: HookAnswer, now: int)
    requires Good(e, []) && e.state.Auction? && e.cfg.auctions
    ensures Good(ProcessLimit(e, c, hook, now), [])
  {
    hide Good, CheckLimit, Collect, Maintains, IdCount;
    var v := CheckLimit(e, c, hook, now);
    if v.Fail? {
      RefusalHarmless(e, c, hook, now);
      RejectMaintains(e, [], c.id, c.user, v.reason);
      MaintainsGood(e, Reject(e, c.id, c.user, v.reason));
    } else {
      CollectGood(e, c);
    }
  }

  lemma MaintainsGood(e: Engine, r: Engine)
    requires Maintains(e, [], r, []) && Good(e, [])
    ensures Good(r, [])
  {
    hide Good;
  }

  /** What the book needs to know of an order that passed the checks. */
  lemma LimitReady(e: Engine, c: LimitCmd, hook: HookAnswer, now: int)
    requires Good(e, []) && CheckLimit(e, c, hook, now) == Pass
    ensures CountOrders(e.book) <= e.cfg.nodeCap && SoundBook(e.book) && !Holds(e.book, c.id)
    ensures WFOrder(LimitOrder(e.cfg, c, e.clock + 1)) && Enterable(e, LimitOrder(e.cfg, c, e.clock + 1))
    ensures var o := LimitOrder(e.cfg, c, e.clock + 1); o.id == c.id && o.user == c.user && o.seqNum == e.clock + 1
  {
    hide SumLevels, FindStop, OverValue, HasLevel, WFBook, SoundBook, Enter, WFStops;
    GoodBounds(e);
    if CountOrders(e.book) < e.cfg.nodeCap {
      LimitAdmissible(e, c, hook, now);
      EnterGood(e, LimitOrder(e.cfg, c, e.clock + 1), []);
    }
  }

  /** If there is a node for it, the order leaves the state good. */
  ghost predicate Enterable(e: Engine, o: Order) {
    CountOrders(e.book) < e.cfg.nodeCap ==> Good(Enter(e, o), [])
  }

  lemma BookOfPending(e: Engine, p: seq<Stop>)
    requires Good(e, p)
    ensures SoundBook(e.book)
  {
  }

  lemma GoodBounds(e: Engine)
    requires Good(e, [])
    ensures CountOrders(e.book) <= e.cfg.nodeCap && SoundBook(e.book)
  {
  }

  lemma RestKeepsSound(b: Book, o: Order)
    requires SoundBook(b) && WFOrder(o)
    ensures SoundBook(Rest(b, o))
  {
    hide SoundSide, Insert;
    InsertSound(b.Of(o.side), o, o.side);
  }

  lemma MarketStays(e: Engine, c: MarketCmd, now: int)
    requires Good(e, [])
    ensures Good(ProcessMarket(e, c, now), [])
  {
    hide Good, ProcessMarket;
    MarketMaintains(e, c, now);
  }

  lemma MarketReady(e: Engine, c: MarketCmd)
    requires Good(e, []) && CheckMarket(e, c) == Pass
    ensures CountOrders(e.book) <= e.cfg.nodeCap && SoundBook(e.book) && !Holds(e.book, c.id)
    ensures WFOrder(MarketOrder(c, e.clock + 1)) && Enterable(e, MarketOrder(c, e.clock + 1))
    ensures var o := MarketOrder(c, e.clock + 1); o.id == c.id && o.user == c.user && o.seqNum == e.clock + 1
  {
    hide SumLevels, FindStop, WFBook, SoundBook, Enter, WFStops;
    GoodBounds(e);
    if CountOrders(e.book) < e.cfg.nodeCap {
      MarketAdmissible(e, c);
      EnterGood(e, MarketOrder(c, e.clock + 1), []);
    }
  }

  lemma StopStays(e: Engine, c: StopCmd, now: int)
    requires Good(e, [])
    ensures Good(ProcessStop(e, c, now), [])
  {
    hide Good, ProcessStop;
    StopMaintains(e, c, now);
  }

  lemma CancelStays(e: Engine, id: OrderId, user: UserId)
    requires Good(e, [])
    ensures Good(ProcessCancel(e, id, user), []) && SoundBook(e.book)
    ensures Find(e.book, id).Found? ==> SoundBook(RemoveId(e.book, id)) && Find(e.book, id).order.id == id
    ensures FindStop(e.stops, id).FoundStop? ==> FindStop(e.stops, id).stop.id == id
  {
    hide Good, ProcessCancel, WFBook, SoundBook, RemoveId, Find, FindStop;
    CancelCommandMaintains(e, id, user);
    MaintainsGood(e, ProcessCancel(e, id, user));
    GoodBook(e);
    WFSound(e.book, e.clock);
    if Find(e.book, id).Found? {
      FoundFacts(e.book, e.clock, id);
      WFSound(RemoveId(e.book, id), e.clock);
    }
    if FindStop(e.stops, id).FoundStop? {
      StopIds(e.stops, id);
    }
  }

  function CanceledEvents(b: Book, o: Order): seq<Event> {
    [OrderCanceled(o.id, o.user, o.side, o.price, if o.iceberg then o.remain + o.hidden else o.remain, o.filled, UserRequested),
     DepthUpdate(o.side, o.price, InfoAt(b.Of(o.side), o.price))]
  }

  // ----- Expiry as a list -----

  /** These ids, each once, are exactly the resting orders past their expiry. */
  ghost predicate Expires(b: Book, ids: seq<OrderId>, os: seq<Order>, now: int) {
    && |os| == |ids|
    && (forall j :: 0 <= j < |ids| ==> Find(b, ids[j]) == Found(os[j]) && Expired(os[j], now))
    && (forall i, j :: 0 <= i < j < |ids| ==> ids[i] != ids[j])
    && (forall id :: Find(b, id).Found? && Expired(Find(b, id).order, now) ==> id in ids)
  }

  /** ... and these the waiting stops. */
  ghost predicate StopsExpire(b: Stops, ids: seq<OrderId>, now: int) {
    && (forall j :: 0 <= j < |ids| ==> FindStop(b, ids[j]).FoundStop? && StopExpired(FindStop(b, ids[j]).stop, now))
    && (forall i, j :: 0 <= i < j < |ids| ==> ids[i] != ids[j])
    && (forall id :: FindStop(b, id).FoundStop? && StopExpired(FindStop(b, id).stop, now) ==> id in ids)
  }

  function ExpiredLog(os: seq<Order>): seq<Event> {
    if os == [] then []
    else
      var o := os[|os| - 1];
      ExpiredLog(os[..|os| - 1]) + [OrderExpired(o.id, o.user, o.side, o.price, o.remain)]
  }

  function StopExpiredLog(ss: seq<Stop>): seq<Event> {
    if ss == [] then []
    else
      var s := ss[|ss| - 1];
      StopExpiredLog(ss[..|ss| - 1]) + [OrderExpired(s.id, s.user, s.side, s.trigger, s.qty)]
  }

  lemma StopExpiredStep(ss: seq<Stop>, k: nat)
    requires k < |ss|
    ensures StopExpiredLog(ss[..k + 1]) == StopExpiredLog(ss[..k]) + [OrderExpired(ss[k].id, ss[k].user, ss[k].side, ss[k].trigger, ss[k].qty)]
  {
    assert ss[..k + 1][..k] == ss[..k];
  }

  lemma NoStopExpired()
    ensures StopExpiredLog([]) == []
  {
  }

  /** After an expiry check the depth feed is right exactly when no resting order had expired. */
  lemma CheckFeedExactly(e: Engine, ids: seq<OrderId>, os: seq<Order>, now: int)
    requires Good(e, []) && FeedAgrees(e) && Expires(e.book, ids, os, now)
    ensures FeedAgrees(ExpireOrders(e, ids)) <==> forall id :: Find(e.book, id).Found? ==> !Expired(Find(e.book, id).order, now)
  {
    hide Good, FeedAgrees, ExpireOrders, Find, Expired;
    ExpiryFeedExactly(e, ids);
    if ids != [] {
      assert Find(e.book, ids[0]) == Found(os[0]) && Expired(os[0], now);
    }
  }

  lemma SweptKnown(was: map<OrderId, Order>, ids: seq<OrderId>, now: int)
    requires Swept(was, ids, {}, now)
    ensures forall j :: 0 <= j < |ids| ==> ids[j] in was
  {
  }

  lemma SweptExpires(b: Book, was: map<OrderId, Order>, ids: seq<OrderId>, os: seq<Order>, now: int)
    requires Swept(was, ids, {}, now) && |os| == |ids| && forall j :: 0 <= j < |ids| ==> ids[j] in was && os[j] == was[ids[j]]
    requires forall id :: Find(b, id) == if id in was then Found(was[id]) else Missing
    ensures Expires(b, ids, os, now)
  {
    hide Find, Expired;
    forall j | 0 <= j < |ids|
      ensures Find(b, ids[j]) == Found(os[j]) && Expired(os[j], now)
    {
      assert ids[j] in ids;
    }
  }

  /** Orders found under different ids are different orders. */
  lemma DistinctExpired(b: Book, ids: seq<OrderId>, os: seq<Order>, now: int)
    requires Expires(b, ids, os, now)
    ensures forall i, j :: 0 <= i < j < |os| ==> os[i].id != os[j].id
    ensures forall j :: 0 <= j < |os| ==> os[j].id == ids[j] && Find(b, ids[j]) == Found(os[j])
    ensures |os| == |ids| && forall i, j :: 0 <= i < j < |ids| ==> ids[i] != ids[j]
  {
    hide Find, Expired;
    forall j | 0 <= j < |os|
      ensures os[j].id == ids[j]
    {
      assert Find(b, ids[j]) == Found(os[j]);
      FindsOwnId(b, ids[j]);
    }
  }

  lemma FindsOwnId(b: Book, id: OrderId)
    ensures Find(b, id).Found? ==> Find(b, id).order.id == id
  {
    FindInOwnId(b.bids, id);
    FindInOwnId(b.asks, id);
  }

  lemma {:induction false} FindInOwnId(ls: seq<Level>, id: OrderId)
    ensures FindIn(ls, id).Found? ==> FindIn(ls, id).order.id == id
  {
    if ls != [] {
      FoundId(ls[0].orders, id);
      FindInOwnId(ls[1..], id);
    }
  }

  /** Taking other orders off does not change what is found under an id. */
  lemma {:induction false} FindAfterAll(b: Book, ids: seq<OrderId>, id: OrderId)
    requires id !in ids
    ensures Find(RemoveAll(b, ids), id) == Find(b, id)
  {
    if ids != [] {
      var front, last := ids[..|ids| - 1], ids[|ids| - 1];
      FindAfterAll(b, front, id);
      var mid := RemoveAll(b, front);
      FindOther(mid, last, id);
    }
  }

  lemma {:induction false} ExpireAsList(e: Engine, ids: seq<OrderId>, os: seq<Order>)
    requires |os| == |ids| && (forall j :: 0 <= j < |ids| ==> Find(e.book, ids[j]) == Found(os[j]))
    requires forall i, j :: 0 <= i < j < |ids| ==> ids[i] != ids[j]
    ensures ExpireOrders(e, ids) == e.(book := RemoveAll(e.book, ids)).Emit(ExpiredLog(os))
  {
    hide Find, RemoveId;
    if ids != [] {
      var n := |ids| - 1;
      ExpireAsList(e, ids[..n], os[..n]);
      FindAfterAll(e.book, ids[..n], ids[n]);
    }
  }

  lemma {:induction false} FindStopOther(ss: seq<Stop>, i: OrderId, id: OrderId)
    requires i != id
    ensures FindStopIn(RemoveStopFrom(ss, i), id) == FindStopIn(ss, id)
  {
    if ss != [] && ss[0].id != i {
      FindStopOther(ss[1..], i, id);
      assert RemoveStopFrom(ss, i)[1..] == RemoveStopFrom(ss[1..], i);
    }
  }

  lemma {:induction false} FindStopAfterAll(b: Stops, ids: seq<OrderId>, id: OrderId)
    requires id !in ids
    ensures FindStop(RemoveStops(b, ids), id) == FindStop(b, id)
  {
    if ids != [] {
      var front, last := ids[..|ids| - 1], ids[|ids| - 1];
      FindStopAfterAll(b, front, id);
      var mid := RemoveStops(b, front);
      FindStopOther(mid.sells, last, id);
      FindStopOther(mid.buys, last, id);
    }
  }

  lemma {:induction false} ExpireStopsAsList(e: Engine, ids: seq<OrderId>, ss: seq<Stop>)
    requires |ss| == |ids| && (forall j :: 0 <= j < |ids| ==> FindStop(e.stops, ids[j]) == FoundStop(ss[j]))
    requires forall i, j :: 0 <= i < j < |ids| ==> ids[i] != ids[j]
    ensures ExpireStops(e, ids) == e.(stops := RemoveStops(e.stops, ids)).Emit(StopExpiredLog(ss))
  {
    hide FindStop, RemoveStop;
    if ids != [] {
      var n := |ids| - 1;
      ExpireStopsAsList(e, ids[..n], ss[..n]);
      FindStopAfterAll(e.stops, ids[..n], ids[n]);
    }
  }

  lemma ExpiryStays(e: Engine, orders: seq<OrderId>, stops: seq<OrderId>)
    requires Good(e, [])
    ensures Good(ExpireStops(ExpireOrders(e, orders), stops), [])
  {
    hide Good, ExpireOrders, ExpireStops, Tracked, Ledgered, PositionsAgree, ExpiresReserve, DepthAfter;
    ExpiryMaintains(e, orders, stops);
  }

  lemma HaltStays(e: Engine)
    requires Good(e, [])
    ensures Good(Halt(e, HaltAdmin), [])
  {
    hide Good, Halt, Tracked, Ledgered, PositionsAgree, TriggerTotal, HaltBudget;
    HaltKeeps(e, [], HaltAdmin);
  }

  /** The market after one triggered stop and everything its trades set off. */
  ghost function AfterTrigger(e: Engine, s: Stop, price: int, depth: nat, now: int): (r: Engine)
    requires depth < e.cfg.maxCascade
    ensures r.cfg == e.cfg
  {
    match TriggerTraded(e, s, price)
    case NoTrade => Trigger(e, s, price)
    case LastPrice(p) => CheckStops(Trigger(e, s, price), p, depth + 1, now)
  }

  lemma FireStep(e: Engine, s: Stop, rest: seq<Stop>, price: int, depth: nat, now: int)
    requires depth < e.cfg.maxCascade
    ensures FireAll(e, [s] + rest, price, depth, now) == FireAll(AfterTrigger(e, s, price, depth, now), rest, price, depth, now)
  {
    hide Trigger, TriggerTraded, CheckStops;
    assert ([s] + rest)[1..] == rest;
  }

  lemma FireEnd(e: Engine, price: int, depth: nat, now: int)
    requires depth < e.cfg.maxCascade
    ensures FireAll(e, [], price, depth, now) == e
  {
  }

  /** What is known before a triggered stop is placed, and that the state stays good after each outcome. */
  lemma AdmitTriggered(e: Engine, s: Stop, rest: seq<Stop>, price: int)
    requires Good(e, [s] + rest)
    ensures var e1 := Announce(e, s, price); var o := Converted(s, e.clock + 1);
            && CountOrders(e.book) <= e.cfg.nodeCap && SoundBook(e.book) && WFOrder(o) && !Holds(e.book, s.id)
            && Good(Trigger(e, s, price), rest) && Trigger(e, s, price).cfg == e.cfg
  {
    hide SumLevels, SumStops, WFBook, SoundBook, Trigger, Announce, WFStops;
    BookOfPending(e, [s] + rest);
    AnnounceGood(e, s, rest, price);
    AnnounceParts(e, s, price);
    IdUnused(Announce(e, s, price), rest, s.id);
    TriggerKeeps(e, s, rest, price);
  }

  /** The cascade keeps the state good, from its first step to its last. */
  lemma CascadeGood(e: Engine, p: seq<Stop>, price: int, depth: nat, now: int)
    requires Good(e, p) && depth <= e.cfg.maxCascade
    ensures Good(CheckStops(e, price, depth, now), p)
    ensures Good(e.(stops := AllUnfired(e.stops, price)), AllFired(e.stops, price) + p)
  {
    hide Good, CheckStops, AllFired, AllUnfired, Tracked, Ledgered, PositionsAgree, TriggerTotal, HaltBudget;
    CascadeKeeps(e, p, price, depth, now);
    FireKeeps(e, p, price);
  }

  lemma LogParts(log: seq<Event>, a: seq<Event>, b: seq<Event>, c: seq<Event>)
    ensures log + (a + b + c) == log + a + b + c
  {
  }

  lemma InitiallyGood(cfg: Config, firstSeq: nat)
    ensures Good(Initial(cfg, firstSeq), [])
  {
  }
}
