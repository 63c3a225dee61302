/** Theorems about whole runs of the command processor, from an empty market on. */
module EngineTheorems {
  import opened Domain
  import opened BookSpec
  import opened BookLemmas
  import opened MatchSpec
  import opened MatchLemmas
  import opened MatchTheorems
  import opened MatchQuantities
  import opened MatchPriority
  import opened PlaceEffects
  import opened StopSpec
  import opened Circuit
  import opened Positions
  import opened EngineSpec
  import opened EventFolds
  import opened EngineInvariants
  import opened EngineSteps
  import opened EngineCascade
  import opened EngineCommands
  import opened EngineRuns
  import opened EngineReserves

  // ----- Every reachable state -----

  lemma InitialFacts(cfg: Config, firstSeq: nat)
    ensures var e := Initial(cfg, firstSeq);
            && Good(e, []) && OutOfAuction(e) && PositionsAgree(e) && Uncrossed(e.book)
            && (cfg.stpDefault == STPDisabled ==> Tracked(e, []) && Ledgered(e, []))
  {
  }

  /** The state before the `k`-th input. */
  function StateAt(e: Engine, inputs: seq<Input>, k: nat): Engine
    requires k <= |inputs|
  {
    RunAll(e, inputs[..k])
  }

  lemma StateNext(e: Engine, inputs: seq<Input>)
    requires inputs != []
    ensures var k := |inputs| - 1;
            && RunAll(e, inputs) == Process(StateAt(e, inputs, k), inputs[k].cmd, inputs[k].now)
            && (forall j :: 0 <= j < k ==> StateAt(e, inputs[..k], j) == StateAt(e, inputs, j) && inputs[..k][j] == inputs[j])
  {
    hide RunAll, Process;
    LastInput(e, inputs);
    var k := |inputs| - 1;
    forall j | 0 <= j < k
      ensures StateAt(e, inputs[..k], j) == StateAt(e, inputs, j)
    {
      assert inputs[..k][..j] == inputs[..j];
    }
  }

  lemma LastInput(e: Engine, inputs: seq<Input>)
    requires inputs != []
    ensures var k := |inputs| - 1; RunAll(e, inputs) == Process(RunAll(e, inputs[..k]), inputs[k].cmd, inputs[k].now)
  {
    hide Process;
  }

  /** The market is out of any auction, and these inputs start none. */
  ghost predicate Continuous(e: Engine, inputs: seq<Input>) {
    OutOfAuction(e) && (e.cfg.auctions ==> forall k :: 0 <= k < |inputs| ==> !AuctionCommand(inputs[k].cmd))
  }

  /** Whatever is submitted - icebergs, every self-trade mode, stops, cancels, halts, expiries - the book stays
      sorted and in time priority, the pools within capacity, every id unique across the book and the stop
      book, and positions are what the trades say and sum to zero. */
  lemma {:induction false} RunsStayGood(e: Engine, inputs: seq<Input>)
    requires Good(e, []) && Continuous(e, inputs) && PositionsAgree(e)
    ensures var r := RunAll(e, inputs); Good(r, []) && OutOfAuction(r) && PositionsAgree(r) && r.cfg == e.cfg
  {
    hide Good, PositionsAgree, Process, OutOfAuction;
    if inputs != [] {
      var k := |inputs| - 1;
      StateNext(e, inputs);
      RunsStayGood(e, inputs[..k]);
      CommandMaintains(StateAt(e, inputs, k), inputs[k].cmd, inputs[k].now);
    }
  }

  /** Every input is without a self-trade mode, and none of them expires a resting order. */
  ghost predicate FeedInputs(e: Engine, inputs: seq<Input>) {
    forall k :: 0 <= k < |inputs| ==> PlainCommand(inputs[k].cmd) && ExpiresNothing(StateAt(e, inputs, k), inputs[k].cmd)
  }

  /** Folding the depth updates of any such run - cascades and icebergs included - gives every level of the book. */
  lemma {:induction false} RunsKeepFeed(e: Engine, inputs: seq<Input>)
    requires Good(e, []) && Continuous(e, inputs) && PositionsAgree(e) && Tracked(e, []) && FeedInputs(e, inputs)
    ensures Tracked(RunAll(e, inputs), [])
  {
    hide Good, PositionsAgree, Process, OutOfAuction, Tracked, ExpiresNothing;
    if inputs != [] {
      var k := |inputs| - 1;
      StateNext(e, inputs);
      RunsStayGood(e, inputs[..k]);
      RunsKeepFeed(e, inputs[..k]);
      CommandMaintains(StateAt(e, inputs, k), inputs[k].cmd, inputs[k].now);
    }
  }

  /** ... from the empty market. */
  lemma DepthFeedAgrees(cfg: Config, firstSeq: nat, inputs: seq<Input>, side: Side, price: int)
    requires !cfg.auctions && cfg.stpDefault == STPDisabled && FeedInputs(Initial(cfg, firstSeq), inputs)
    ensures var r := RunAll(Initial(cfg, firstSeq), inputs);
            DepthAfter(NoLevel, r.log, side, price) == InfoAt(r.book.Of(side), price)
  {
    InitialFacts(cfg, firstSeq);
    RunsKeepFeed(Initial(cfg, firstSeq), inputs);
    hide DepthAfter, InfoAt;
  }

  /** Every input is without a self-trade mode, and none of them ends an order that still has a reserve. */
  ghost predicate LedgerInputs(e: Engine, inputs: seq<Input>) {
    forall k :: 0 <= k < |inputs| ==>
      PlainCommand(inputs[k].cmd) && !LosesReserve(StateAt(e, inputs, k), inputs[k].cmd, inputs[k].now)
  }

  /** Replaying the events of any order gives what it still has open, in the book or as a stop. */
  lemma {:induction false} RunsKeepLedger(e: Engine, inputs: seq<Input>)
    requires Good(e, []) && Continuous(e, inputs) && PositionsAgree(e) && Ledgered(e, []) && LedgerInputs(e, inputs)
    ensures Ledgered(RunAll(e, inputs), [])
  {
    hide Good, PositionsAgree, Process, OutOfAuction, Ledgered, LosesReserve;
    if inputs != [] {
      var k := |inputs| - 1;
      StateNext(e, inputs);
      RunsStayGood(e, inputs[..k]);
      RunsKeepLedger(e, inputs[..k]);
      CommandMaintains(StateAt(e, inputs, k), inputs[k].cmd, inputs[k].now);
    }
  }

  /** ... from the empty market: accepted quantity is filled, canceled, expired, refused or still open. */
  lemma OrdersAccountedFor(cfg: Config, firstSeq: nat, inputs: seq<Input>, id: OrderId)
    requires !cfg.auctions && cfg.stpDefault == STPDisabled && LedgerInputs(Initial(cfg, firstSeq), inputs)
    ensures var r := RunAll(Initial(cfg, firstSeq), inputs); OpenAfter(0, r.log, id) == OpenQty(r, [], id)
  {
    InitialFacts(cfg, firstSeq);
    RunsKeepLedger(Initial(cfg, firstSeq), inputs);
    hide OpenAfter;
  }

  /** No input submits an iceberg or asks for self-trade prevention. */
  predicate SimpleInputs(inputs: seq<Input>) {
    forall k :: 0 <= k < |inputs| ==> PlainCommand(inputs[k].cmd) && !Iceberg(inputs[k].cmd)
  }

  lemma {:induction false} SimpleRunsKeepLedger(e: Engine, inputs: seq<Input>)
    requires Good(e, []) && Continuous(e, inputs) && PositionsAgree(e) && Ledgered(e, []) && Reserves(e) == 0 && SimpleInputs(inputs)
    ensures Ledgered(RunAll(e, inputs), []) && Reserves(RunAll(e, inputs)) == 0
  {
    hide Good, PositionsAgree, Process, OutOfAuction, Ledgered, LosesReserve, Reserves, PlainCommand, Iceberg;
    if inputs != [] {
      var k := |inputs| - 1;
      var mid := StateAt(e, inputs, k);
      StateNext(e, inputs);
      RunsStayGood(e, inputs[..k]);
      SimpleRunsKeepLedger(e, inputs[..k]);
      NothingToLose(mid, inputs[k].cmd, inputs[k].now);
      CommandMaintains(mid, inputs[k].cmd, inputs[k].now);
      CommandReserves(mid, inputs[k].cmd, inputs[k].now);
      SomeReserves(RunAll(e, inputs));
    }
  }

  lemma SomeReserves(e: Engine)
    ensures Reserves(e) >= 0
  {
    ReservesNonNegative(e.book.bids);
    ReservesNonNegative(e.book.asks);
  }

  /** From the empty market, on the inputs alone: without icebergs and self-trade modes every order's accepted
      quantity is filled, canceled, expired, refused or still open. */
  lemma SimpleOrdersAccountedFor(cfg: Config, firstSeq: nat, inputs: seq<Input>, id: OrderId)
    requires !cfg.auctions && cfg.stpDefault == STPDisabled && SimpleInputs(inputs)
    ensures var r := RunAll(Initial(cfg, firstSeq), inputs); OpenAfter(0, r.log, id) == OpenQty(r, [], id)
  {
    InitialFacts(cfg, firstSeq);
    SimpleRunsKeepLedger(Initial(cfg, firstSeq), inputs);
    hide OpenAfter;
  }

  /** From the empty market: each position is bought minus sold, and all of them sum to zero. */
  lemma PositionsBalance(cfg: Config, firstSeq: nat, inputs: seq<Input>, user: UserId)
    requires !cfg.auctions
    ensures var r := RunAll(Initial(cfg, firstSeq), inputs);
            Position(r.positions, user) == SumEvents(r.log, Bought(user)) && Net(r.positions) == 0
  {
    InitialFacts(cfg, firstSeq);
    RunsStayGood(Initial(cfg, firstSeq), inputs);
    hide SumEvents, Net;
  }

  /** From the empty market: no id is ever shared by the book and the stop book, or used twice in either. */
  lemma IdsStayUnique(cfg: Config, firstSeq: nat, inputs: seq<Input>, id: OrderId)
    requires !cfg.auctions
    ensures var r := RunAll(Initial(cfg, firstSeq), inputs); SumBook(r.book, HasId(id)) + SumBoth(r.stops, IsStop(id)) <= 1
  {
    InitialFacts(cfg, firstSeq);
    RunsStayGood(Initial(cfg, firstSeq), inputs);
    var r := RunAll(Initial(cfg, firstSeq), inputs);
    assert IdCount(r, [], id) <= 1;
    hide RunAll;
  }

  // ----- Best bid below best ask -----

  /** No input rests an order across the book: only before the open and while halted can one. */
  ghost predicate NoneRestsAcross(e: Engine, inputs: seq<Input>) {
    forall k :: 0 <= k < |inputs| ==> !CrossesAtRest(StateAt(e, inputs, k), inputs[k].cmd, inputs[k].now)
  }

  /** Best bid below best ask throughout the run. */
  ghost predicate AlwaysUncrossed(e: Engine, inputs: seq<Input>) {
    forall k :: 0 <= k <= |inputs| ==> Uncrossed(StateAt(e, inputs, k).book)
  }

  /** One input further. */
  lemma NextUncrossed(e: Engine, inputs: seq<Input>, k: nat)
    requires Good(e, []) && Continuous(e, inputs) && PositionsAgree(e) && k < |inputs| && Uncrossed(StateAt(e, inputs, k).book)
    ensures Uncrossed(StateAt(e, inputs, k + 1).book) <==> !CrossesAtRest(StateAt(e, inputs, k), inputs[k].cmd, inputs[k].now)
  {
    hide Good, PositionsAgree, Process, OutOfAuction, Uncrossed, CrossesAtRest;
    var part := inputs[..k + 1];
    assert part[..k] == inputs[..k] && part[k] == inputs[k];
    StateNext(e, part);
    RunsStayGood(e, inputs[..k]);
    CommandMaintains(StateAt(e, inputs, k), inputs[k].cmd, inputs[k].now);
  }

  lemma {:induction false} UncrossedUpTo(e: Engine, inputs: seq<Input>, k: nat)
    requires Good(e, []) && Continuous(e, inputs) && PositionsAgree(e) && Uncrossed(e.book) && NoneRestsAcross(e, inputs) && k <= |inputs|
    ensures Uncrossed(StateAt(e, inputs, k).book)
  {
    hide Good, PositionsAgree, OutOfAuction, Uncrossed, CrossesAtRest;
    if k > 0 {
      UncrossedUpTo(e, inputs, k - 1);
      NextUncrossed(e, inputs, k - 1);
    } else {
      assert inputs[..0] == [];
    }
  }

  /** A run - cascades, cancels, expiries and all - keeps best bid below best ask throughout exactly when no
      order is rested across the book without matching. */
  lemma RunsStayUncrossed(e: Engine, inputs: seq<Input>)
    requires Good(e, []) && Continuous(e, inputs) && PositionsAgree(e) && Uncrossed(e.book)
    ensures AlwaysUncrossed(e, inputs) <==> NoneRestsAcross(e, inputs)
  {
    hide Good, PositionsAgree, OutOfAuction, Uncrossed, CrossesAtRest, StateAt;
    if AlwaysUncrossed(e, inputs) {
      forall k | 0 <= k < |inputs|
        ensures !CrossesAtRest(StateAt(e, inputs, k), inputs[k].cmd, inputs[k].now)
      {
        assert Uncrossed(StateAt(e, inputs, k).book) && Uncrossed(StateAt(e, inputs, k + 1).book);
        NextUncrossed(e, inputs, k);
      }
    }
    if NoneRestsAcross(e, inputs) {
      forall k | 0 <= k <= |inputs|
        ensures Uncrossed(StateAt(e, inputs, k).book)
      {
        UncrossedUpTo(e, inputs, k);
      }
    }
  }

  // ----- Price-time priority over runs -----

  /** In every reachable state, whatever order is let in is matched by serving the opposite side strictly by
      best price, then smallest sequence number. */
  lemma RunsServePriority(e: Engine, inputs: seq<Input>, o: Order)
    requires Good(e, []) && Continuous(e, inputs) && PositionsAgree(e)
    ensures var r := RunAll(e, inputs);
            var m := Start(o, r.book, r.clock + 1);
            Flatten(Run(m, r.cfg.stpDefault)) == FlatRun(Flatten(m), r.cfg.stpDefault)
  {
    hide RunAll, Flatten, FlatRun, Run, PositionsAgree, OutOfAuction;
    RunsStayGood(e, inputs);
    var r := RunAll(e, inputs);
    GoodBook(r);
    LaterBook(r.book, r.clock, r.clock + 1);
    RunRefinesFlat(Start(o, r.book, r.clock + 1), r.cfg.stpDefault);
  }

  // ----- Capacity -----

  /** A limit order with a resting time in force that the processor lets into an open market is never
      canceled for want of a price level: it rests, fills, or is stopped by self-trade prevention. */
  lemma NeverCanceledForCapacity(e: Engine, c: LimitCmd, hook: HookAnswer, now: int)
    requires Good(e, []) && e.state.Open? && CheckLimit(e, c, hook, now) == Pass && c.tif.CanRest() && CountOrders(e.book) < e.cfg.nodeCap
    ensures var o := LimitOrder(e.cfg, c, e.clock + 1);
            Outcomes(Accept(e, o), o).disposition in {Rested, PartialFillRested, FullyFilled, STPCanceledTaker}
  {
    hide Good, CheckLimit, Place, WFBook, SoundBook, HasLevel, Run, CanRestIn, SumBook;
    var o := LimitOrder(e.cfg, c, e.clock + 1);
    LimitAdmissible(e, c, hook, now);
    PassedGuard(e, c, hook, now);
    GoodParts(e);
    WFSound(e.book, e.clock);
    GuardedOrderRests(e.book, o, e.clock + 1, e.cfg.stpDefault, e.cfg.levelCap);
    SettledBy(e.book, o, e.clock + 1, e.cfg.stpDefault, e.cfg.levelCap);
  }

  lemma GoodParts(e: Engine)
    requires Good(e, [])
    ensures WFBook(e.book, e.clock) && Levels(e.book) <= e.cfg.levelCap
  {
  }

  lemma PassedGuard(e: Engine, c: LimitCmd, hook: HookAnswer, now: int)
    requires CheckLimit(e, c, hook, now) == Pass && e.state.Open? && c.tif.CanRest()
    ensures HasLevel(e.book.Of(c.side), c.price) || Levels(e.book) < e.cfg.levelCap || WouldCross(e.book, c.side, c.price)
  {
    hide SumLevels, FindStop, OverValue;
  }

  /** An order that can rest ends in one of these ways. */
  lemma SettledBy(b: Book, o: Order, clock: nat, default: STPMode, cap: nat)
    requires o.tif.CanRest() && o.typ == Limit && SoundBook(b) && WFOrder(o)
    requires var m := Run(Start(o, b, clock), default);
             !m.stopped && m.taker.remain > 0 ==> CanRestIn(b.With(o.side.Opposite(), m.opp), m.taker, cap)
    ensures Place(b, o, clock, default, cap).disposition in {Rested, PartialFillRested, FullyFilled, STPCanceledTaker}
  {
    hide Run, CanRestIn, Insert, SoundSide;
    RunTaker(Start(o, b, clock), default);
    RunTakerWF(Start(o, b, clock), default, o.side.Opposite());
  }

  // ----- Stops and halts -----

  /** The only commands that trade, and so the only ones that can trigger stops. */
  predicate Trades(c: Command) {
    c.PlaceLimit? || c.PlaceMarket?
  }

  /** A limit order, collected for an auction or not: nothing halts twice, and every stop is accounted for. */
  lemma LimitQuiet(e: Engine, c: LimitCmd, hook: HookAnswer, now: int)
    requires Good(e, [])
    ensures var r := ProcessLimit(e, c, hook, now);
            HaltBudget(r) <= HaltBudget(e) && forall id :: TriggerTotal(r, [], id) == TriggerTotal(e, [], id)
  {
    hide Good, SumEvents, SumLevels, SumStops, CheckLimit, PositionsAgree, Tracked, Ledgered, Uncrossed, LosesReserve, RestsAcross, Collect, PlaceAndFollow,
      RestOnly;
    if e.state.Auction? && e.cfg.auctions {
      var v := CheckLimit(e, c, hook, now);
      if v.Fail? {
        RejectQuiet(e, c.id, c.user, v.reason);
      } else {
        CollectQuiet(e, c);
        CollectGood(e, c);
      }
    } else {
      LimitMaintains(e, c, hook, now);
    }
  }

  /** In any one command each waiting stop fires at most once, and the stops that leave the stop book are
      exactly those that are announced as triggered, each once. */
  lemma StopsFireOnce(e: Engine, c: Command, now: int, id: OrderId)
    requires Good(e, []) && Trades(c)
    ensures var r := Process(e, c, now);
            var announced := SumEvents(r.log, IsTrigger(id)) - SumEvents(e.log, IsTrigger(id));
            && announced == SumBoth(e.stops, IsStop(id)) - SumBoth(r.stops, IsStop(id))
            && 0 <= SumBoth(r.stops, IsStop(id)) && announced <= 1
  {
    hide Good, SumEvents, SumLevels, ProcessLimit, ProcessMarket, PositionsAgree, Tracked, Ledgered, HaltBudget, Uncrossed, LosesReserve;
    match c {
      case PlaceLimit(l, hook) => LimitQuiet(e, l, hook, now);
      case PlaceMarket(m) => MarketMaintains(e, m, now);
      case _ =>
    }
    var r := Process(e, c, now);
    assert TriggerTotal(r, [], id) == TriggerTotal(e, [], id);
    StopCount(r.stops.sells, id);
    StopCount(r.stops.buys, id);
    CountAtMostOne(e, id);
  }

  lemma CountAtMostOne(e: Engine, id: OrderId)
    requires Good(e, [])
    ensures SumBoth(e.stops, IsStop(id)) <= 1
  {
    assert IdCount(e, [], id) <= 1;
    SideCount(e.book.bids, id);
    SideCount(e.book.asks, id);
  }

  /** At most one halt is announced per trading command - the state machine admits no second one - and none
      when the market is halted already. */
  lemma HaltsOnce(e: Engine, c: Command, now: int)
    requires Good(e, []) && (Trades(c) || c.AdminHalt?)
    ensures SumEvents(Process(e, c, now).log, IsHalt) <= SumEvents(e.log, IsHalt) + if CanTransition(e.state, Halted) then 1 else 0
  {
    hide Good, SumEvents, ProcessLimit, ProcessMarket, PositionsAgree, Tracked, Ledgered, TriggerTotal, Uncrossed, LosesReserve, Halt;
    match c {
      case PlaceLimit(l, hook) => LimitQuiet(e, l, hook, now);
      case PlaceMarket(m) => MarketMaintains(e, m, now);
      case AdminHalt => HaltKeeps(e, [], HaltAdmin);
      case _ =>
    }
  }

  // ----- Expiry and the depth feed -----

  /** A level's worth of orders is visible in its public state. */
  lemma {:induction false} SameDepthSameCount(a: seq<Level>, b: seq<Level>, side: Side, clock: nat)
    requires WFSide(a, side, clock) && WFSide(b, side, clock)
    requires forall price :: InfoAt(a, price) == InfoAt(b, price)
    ensures SumLevels(a, One) == SumLevels(b, One)
  {
    if a == [] && b == [] {
    } else {
      if a != [] { BestSeen(a, b, side, clock); }
      if b != [] { BestSeen(b, a, side, clock); }
      var p := a[0].price;
      assert InfoAt(a, p) == InfoAt(b, p);
      SumOfOne(a[0].orders);
      SumOfOne(b[0].orders);
      TailWF(a, side, clock);
      TailWF(b, side, clock);
      forall price
        ensures InfoAt(a[1..], price) == InfoAt(b[1..], price)
      {
        if price == p {
          NoInfo(a[1..], p);
          NoInfo(b[1..], p);
        } else {
          assert InfoAt(a, price) == InfoAt(b, price);
        }
      }
      SameDepthSameCount(a[1..], b[1..], side, clock);
    }
  }

  /** The best level of one side is a level of the other, and no worse than its best. */
  lemma BestSeen(a: seq<Level>, b: seq<Level>, side: Side, clock: nat)
    requires WFSide(a, side, clock) && WFSide(b, side, clock) && a != [] && InfoAt(a, a[0].price) == InfoAt(b, a[0].price)
    ensures b != [] && !Better(side, a[0].price, b[0].price)
  {
    if b == [] || Better(side, a[0].price, b[0].price) {
      NoInfo(b, a[0].price);
    }
  }

  /** Taking an order off leaves one order less. */
  lemma {:induction false} ExpiryCounts(e: Engine, ids: seq<OrderId>)
    requires Good(e, [])
    ensures var r := ExpireOrders(e, ids);
            Good(r, []) && r.clock == e.clock && (r.book == e.book || CountOrders(r.book) < CountOrders(e.book))
  {
    hide Good, SumLevels, Find, RemoveId, WFBook;
    if ids != [] {
      var k := |ids| - 1;
      var mid := ExpireOrders(e, ids[..k]);
      ExpiryCounts(e, ids[..k]);
      ExpireFacts(mid, ids[k]);
      if Find(mid.book, ids[k]).Found? {
        GoodBook(mid);
        RemovedSum(mid.book, mid.clock, ids[k], One);
      }
    }
  }

  /** Expiry emits no depth update, so the feed is right afterwards exactly when none of the ids rests. */
  lemma ExpiryFeedExactly(e: Engine, ids: seq<OrderId>)
    requires Good(e, []) && FeedAgrees(e)
    ensures FeedAgrees(ExpireOrders(e, ids)) <==> NoneRests(e.book, ids)
  {
    hide Good, DepthAfter, InfoAt, SumLevels, WFSide, ExpireOrders, NoneRests, Tracked, Ledgered, PositionsAgree, Uncrossed, NoSTP;
    var r := ExpireOrders(e, ids);
    ExpireAll(e, ids);
    ExpiryCounts(e, ids);
    ExpiryChangesBook(e, ids);
    GoodBook(e);
    GoodBook(r);
    if FeedAgrees(r) {
      forall side: Side, price
        ensures InfoAt(r.book.Of(side), price) == InfoAt(e.book.Of(side), price)
      {
        assert DepthAfter(NoLevel, r.log, side, price) == DepthAfter(NoLevel, e.log, side, price);
      }
      assert forall price :: InfoAt(r.book.Of(Bid), price) == InfoAt(e.book.Of(Bid), price);
      assert forall price :: InfoAt(r.book.Of(Ask), price) == InfoAt(e.book.Of(Ask), price);
      SameDepthSameCount(r.book.bids, e.book.bids, Bid, e.clock);
      SameDepthSameCount(r.book.asks, e.book.asks, Ask, e.clock);
    }
  }

  lemma {:induction false} StopExpirySilent(e: Engine, ids: seq<OrderId>, side: Side, price: int)
    ensures var r := ExpireStops(e, ids);
            r.book == e.book && DepthAfter(NoLevel, r.log, side, price) == DepthAfter(NoLevel, e.log, side, price)
  {
    hide DepthAfter, FindStop, RemoveStop;
    if ids != [] {
      var mid, last := ExpireStops(e, ids[..|ids| - 1]), ids[|ids| - 1];
      StopExpirySilent(e, ids[..|ids| - 1], side, price);
      if FindStop(mid.stops, last).FoundStop? {
        var s := FindStop(mid.stops, last).stop;
        LogStep(mid.log, OrderExpired(s.id, s.user, s.side, s.trigger, s.qty), "", "", side, price);
      }
    }
  }

  lemma TickFeedExactly(e: Engine, orders: seq<OrderId>, stops: seq<OrderId>)
    requires Good(e, []) && FeedAgrees(e)
    ensures FeedAgrees(ExpireStops(ExpireOrders(e, orders), stops)) <==> NoneRests(e.book, orders)
  {
    hide Good, ExpireOrders, ExpireStops, NoneRests, DepthAfter, InfoAt;
    var mid := ExpireOrders(e, orders);
    var r := ExpireStops(mid, stops);
    ExpiryFeedExactly(e, orders);
    forall side: Side, price
      ensures r.book == mid.book && DepthAfter(NoLevel, r.log, side, price) == DepthAfter(NoLevel, mid.log, side, price)
    {
      StopExpirySilent(mid, stops, side, price);
    }
    assert r.book == mid.book by { StopExpirySilent(mid, stops, Bid, 0); }
    if FeedAgrees(r) {
      forall side: Side, price
        ensures DepthAfter(NoLevel, mid.log, side, price) == InfoAt(mid.book.Of(side), price)
      {
        assert DepthAfter(NoLevel, r.log, side, price) == InfoAt(r.book.Of(side), price);
      }
    }
  }

  // ----- The depth feed over runs, exactly -----

  /** A running processor takes resting orders off for having expired. */
  predicate ExpiresResting(e: Engine, c: Command) {
    !e.crashed && !ExpiresNothing(e, c)
  }

  /** Without self-trade modes one command leaves the feed right exactly when no resting order expires. */
  lemma CommandFeedExactly(e: Engine, c: Command, now: int)
    requires Good(e, []) && OutOfAuction(e) && (e.cfg.auctions ==> !AuctionCommand(c)) && Tracked(e, []) && PlainCommand(c)
    ensures Tracked(Process(e, c, now), []) <==> !ExpiresResting(e, c)
  {
    hide Good, PositionsAgree, OutOfAuction, NoSTP, FeedAgrees, NoneRests, Handle, Uncrossed, Ledgered;
    if !ExpiresResting(e, c) {
      if !e.crashed {
        CommandMaintains(e, c, now);
      }
    } else {
      TickFeedExactly(e, c.orders, c.stops);
      TickHandled(e, c, now);
    }
  }

  lemma TickHandled(e: Engine, c: Command, now: int)
    requires !e.crashed && c.ExpiryTick?
    ensures Process(e, c, now) == ExpireStops(ExpireOrders(e, c.orders), c.stops)
  {
    hide ProcessLimit, ProcessMarket, ProcessStop, ProcessCancel, Halt, ProcessResume, ExpireStops, ExpireOrders, ProcessOpenAuction, ProcessClearAuction;
  }

  ghost predicate AlwaysTracked(e: Engine, inputs: seq<Input>) {
    forall k :: 0 <= k <= |inputs| ==> Tracked(StateAt(e, inputs, k), [])
  }

  ghost predicate NoneExpires(e: Engine, inputs: seq<Input>) {
    forall k :: 0 <= k < |inputs| ==> !ExpiresResting(StateAt(e, inputs, k), inputs[k].cmd)
  }

  lemma NextTracked(e: Engine, inputs: seq<Input>, k: nat)
    requires Good(e, []) && Continuous(e, inputs) && PositionsAgree(e) && k < |inputs| && Tracked(StateAt(e, inputs, k), [])
    requires PlainCommand(inputs[k].cmd)
    ensures Tracked(StateAt(e, inputs, k + 1), []) <==> !ExpiresResting(StateAt(e, inputs, k), inputs[k].cmd)
  {
    hide Good, PositionsAgree, Process, OutOfAuction, Tracked, ExpiresResting;
    var part := inputs[..k + 1];
    assert part[..k] == inputs[..k] && part[k] == inputs[k];
    StateNext(e, part);
    RunsStayGood(e, inputs[..k]);
    CommandFeedExactly(StateAt(e, inputs, k), inputs[k].cmd, inputs[k].now);
  }

  lemma {:induction false} TrackedUpTo(e: Engine, inputs: seq<Input>, k: nat)
    requires Good(e, []) && Continuous(e, inputs) && PositionsAgree(e) && Tracked(e, []) && NoneExpires(e, inputs) && k <= |inputs|
    requires forall j :: 0 <= j < |inputs| ==> PlainCommand(inputs[j].cmd)
    ensures Tracked(StateAt(e, inputs, k), [])
  {
    hide Good, PositionsAgree, OutOfAuction, Tracked, ExpiresResting;
    if k > 0 {
      TrackedUpTo(e, inputs, k - 1);
      NextTracked(e, inputs, k - 1);
    } else {
      assert inputs[..0] == [];
    }
  }

  /** Without self-trade modes the depth feed reproduces every level of the book throughout a run - icebergs,
      cascades, cancels and halts included - exactly when no resting order expires in it. */
  lemma RunsTrackedExactly(e: Engine, inputs: seq<Input>)
    requires Good(e, []) && Continuous(e, inputs) && PositionsAgree(e) && Tracked(e, [])
    requires forall k :: 0 <= k < |inputs| ==> PlainCommand(inputs[k].cmd)
    ensures AlwaysTracked(e, inputs) <==> NoneExpires(e, inputs)
  {
    hide Good, PositionsAgree, OutOfAuction, Tracked, ExpiresResting, StateAt;
    if AlwaysTracked(e, inputs) {
      forall k | 0 <= k < |inputs|
        ensures !ExpiresResting(StateAt(e, inputs, k), inputs[k].cmd)
      {
        assert Tracked(StateAt(e, inputs, k), []) && Tracked(StateAt(e, inputs, k + 1), []);
        NextTracked(e, inputs, k);
      }
    }
    if NoneExpires(e, inputs) {
      forall k | 0 <= k <= |inputs|
        ensures Tracked(StateAt(e, inputs, k), [])
      {
        TrackedUpTo(e, inputs, k);
      }
    }
  }

  // ----- A reserve dropped -----

  const SMALL_ASK := Order("ask", "bob", Ask, Limit, GTC, STPDisabled, false, 100, 5, 5, 0, 5, 0, 5, 1, 0)
  const ICEBERG_BID := Order("ice", "eve", Bid, Limit, GTC, STPDisabled, true, 100, 10, 5, 0, 5, 5, 5, 2, 0)

  /** An iceberg of 10 showing 5 meets an ask of 5: it counts as filled, and the other 5 are gone. */
  lemma IcebergReserveDropped()
    ensures var out := Place(Book([], [Level(100, [SMALL_ASK])]), ICEBERG_BID, 2, STPDisabled, 10);
            out.disposition == FullyFilled && TotalQty(out.fills) == 5 && out.book == EMPTY_BOOK
  {
    var ls := [Level(100, [SMALL_ASK])];
    var m := Start(ICEBERG_BID, Book([], ls), 2);
    assert ls[1..] == [] && ls[0].orders[1..] == [];
    var n := Step(m, STPDisabled);
    assert n.opp == [] && n.taker.remain == 0 && |n.fills| == 1 && n.fills[0].qty == 5;
    assert Run(m, STPDisabled) == Run(n, STPDisabled) == n;
    assert n.fills[..0] == [];
    assert TotalQty(n.fills) == TotalQty([]) + 5;
  }

  // ----- A self-trade removal goes unannounced -----

  /** A market showing one ask of alice's, which its depth feed has announced. */
  function OneAsk(cfg: Config): Engine {
    Initial(cfg, 1).(book := Book([], [Level(100, [OWN_ASK])]), state := Open)
                   .Emit([DepthUpdate(Ask, 100, LevelInfo(5, 5, 1))])
  }

  const OWN_BID := OWN_FOK.(tif := GTC)

  /** Alice's bid cancels her own ask by self-trade prevention: the level is gone, the feed still shows it. */
  lemma SelfTradeRemovalUnannounced(cfg: Config)
    requires cfg.stpDefault == STPDisabled && cfg.levelCap >= 10
    ensures var e := OneAsk(cfg); var r := Enter(e, OWN_BID);
            && DepthAfter(NoLevel, e.log, Ask, 100) == InfoAt(e.book.asks, 100)
            && DepthAfter(NoLevel, r.log, Ask, 100) == LevelInfo(5, 5, 1) && InfoAt(r.book.asks, 100) == NoLevel
  {
    var e := OneAsk(cfg);
    var dv := DepthUpdate(Ask, 100, LevelInfo(5, 5, 1));
    DepthFew(NoLevel, dv, dv, Ask, 100);
    assert e.log == [dv];
    var ls := [Level(100, [OWN_ASK])];
    assert ls[1..] == [] && ls[0].orders[1..] == [];
    OwnAskInfo(ls);
    var m := Start(OWN_BID, e.book, 2);
    var n := Step(m, STPDisabled);
    assert n.opp == [] && n.taker == OWN_BID && n.fills == [];
    assert Run(m, STPDisabled) == Run(n, STPDisabled) == n;
    var out := Outcomes(Accept(e, OWN_BID), OWN_BID);
    assert out.fills == [] && out.book.asks == [];
    EnterParts(e, OWN_BID);
    EnterDepth(e, OWN_BID, Ask, 100);
  }

  lemma OwnAskInfo(ls: seq<Level>)
    requires ls == [Level(100, [OWN_ASK])]
    ensures InfoAt(ls, 100) == LevelInfo(5, 5, 1)
  {
    var os := [OWN_ASK];
    assert os[1..] == [];
    assert SumOf(os, RemainOf) == 5 + SumOf([], RemainOf);
    assert SumOf(os, DisplayOf) == 5 + SumOf([], DisplayOf);
  }
}
