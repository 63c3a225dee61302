/** The command processor as a value: what each command does to the market and which events it emits. */
module EngineSpec {
  import opened Domain
  import opened BookSpec
  import opened MatchSpec
  import opened MatchQuantities
  import opened StopSpec
  import opened Circuit
  import opened Decimals
  import opened Auctions
  import opened AuctionSweep
  import opened Positions

  // ----- Commands -----

  datatype Flags = Flags(postOnly: bool, reduceOnly: bool, iceberg: bool)

  datatype LimitCmd = LimitCmd(
    id: OrderId, user: UserId, side: Side, price: int, qty: int, display: int, tif: TIF, flags: Flags,
    expireAt: int, stp: STPMode)

  datatype MarketCmd = MarketCmd(id: OrderId, user: UserId, side: Side, qty: int, tif: TIF, flags: Flags, stp: STPMode)

  datatype StopCmd = StopCmd(
    id: OrderId, user: UserId, side: Side, trigger: int, limit: int, qty: int, typ: OrderType, tif: TIF,
    expireAt: int, flags: Flags, stp: STPMode)

  datatype HookAnswer = HookOK | HookRefuses(reason: Reason)

  /** What the processor is asked to do. The pre-order hook's answer, the order in which the two index
      maps are ranged over, and the clearing price found, come with the command. */
  datatype Command =
    | PlaceLimit(limit: LimitCmd, hook: HookAnswer)
    | PlaceMarket(market: MarketCmd)
    | PlaceStop(stop: StopCmd)
    | CancelOrder(id: OrderId, user: UserId)
    | AdminHalt
    | AdminResume
    | ExpiryTick(orders: seq<OrderId>, stops: seq<OrderId>)
    | OpenAuction
    | ClearAuction(clearing: Clearing)

  // ----- Events -----

  datatype Reason =
    | MarketNotOpen | FeatureDisabled | ReduceOnlyIncreases | DuplicateOrderID | InvalidPrice | BelowMinQty | AboveMaxQty
    | AboveMaxValue | InvalidTick | InvalidLot | InvalidExpiry | PostOnlyWouldCross | PoolExhausted | FOKFailed
    | OrderNotFound | HookRefused

  datatype CancelReason = UserRequested | NotFilled | SelfTrade

  datatype HaltType = HaltAdmin | HaltCascadeLimit | HaltCircuitBreaker

  datatype Event =
    | OrderAccepted(id: OrderId, user: UserId, side: Side, typ: OrderType, stopPrice: int, price: int, origQty: int,
                    display: int, tif: TIF, seqNum: nat)
    | OrderRested(id: OrderId, user: UserId, side: Side, price: int, remain: int, display: int)
    | TradeFill(id: OrderId, user: UserId, maker: bool, side: Side, price: int, qty: int, remain: int)
    | TradeExecuted(fill: Fill)
    | DepthUpdate(side: Side, price: int, info: LevelInfo)
    | OrderCanceled(id: OrderId, user: UserId, side: Side, price: int, qty: int, filled: int, why: CancelReason)
    | OrderRejected(id: OrderId, user: UserId, reason: Reason)
    | OrderExpired(id: OrderId, user: UserId, side: Side, price: int, qty: int)
    | StopTriggered(id: OrderId, user: UserId, price: int, convertedTo: OrderType, convertedPrice: int)
    | MarketHalted(halt: HaltType)
    | MarketResumed
    | AuctionOpened
    | AuctionCleared(price: int, qty: int)

  // ----- State -----

  datatype MarketState = PreOpen | Auction | Open | Halted | Closed

  predicate CanTransition(src: MarketState, dst: MarketState) {
    match src
    case PreOpen => dst != PreOpen
    case Auction => dst.Open? || dst.Halted? || dst.Closed?
    case Open => dst.Halted? || dst.Closed?
    case Halted => dst != Halted
    case Closed => dst.PreOpen?
  }

  datatype Config = Config(
    marketOrders: bool, ioc: bool, fok: bool, stopOrders: bool, icebergs: bool, postOnly: bool, reduceOnly: bool, auctions: bool,
    minQty: int, maxQty: int, maxValue: int, qtyPrecision: nat, pricePrecision: nat, tick: int, lot: int, sessionEnd: int,
    stpDefault: STPMode, maxCascade: nat, hasBreaker: bool, breaker: BreakerConfig, reference: int,
    nodeCap: nat, levelCap: nat, stopCap: nat, stopLevelCap: nat)

  datatype Engine = Engine(
    cfg: Config, book: Book, clock: nat, stops: Stops, state: MarketState, preHalt: MarketState,
    positions: map<UserId, int>, gauge: Gauge, auctionBids: seq<AuctionOrder>, auctionAsks: seq<AuctionOrder>,
    log: seq<Event>, crashed: bool)
  {
    function Emit(es: seq<Event>): Engine {
      this.(log := log + es)
    }
  }

  /** A market as it starts: before the open, with nothing resting. */
  function Initial(cfg: Config, firstSeq: nat): Engine {
    Engine(cfg, EMPTY_BOOK, firstSeq, NO_STOPS, PreOpen, PreOpen, map[], Gauge([], 0), [], [], [], false)
  }

  // ----- Emission -----

  /** Both sides of the trade, the trade, and the level it leaves behind. */
  function FillEvents(f: Fill): seq<Event> {
    [TradeFill(f.makerId, f.makerUser, true, f.makerSide, f.price, f.qty, f.makerRemain),
     TradeFill(f.takerId, f.takerUser, false, f.makerSide.Opposite(), f.price, f.qty, f.takerRemain),
     TradeExecuted(f),
     DepthUpdate(f.makerSide, f.price, f.level)]
  }

  function FillsLog(fills: seq<Fill>): seq<Event> {
    if fills == [] then [] else FillsLog(fills[..|fills| - 1]) + FillEvents(fills[|fills| - 1])
  }

  function STPLog(cancels: seq<STPCanceled>): seq<Event> {
    if cancels == [] then []
    else
      var c := cancels[|cancels| - 1];
      STPLog(cancels[..|cancels| - 1]) + [OrderCanceled(c.id, c.user, c.side, c.price, c.remain, c.filled, SelfTrade)]
  }

  /** How an order rests, as the book's index knows it. */
  function RestedEvents(b: Book, o: Order): seq<Event> {
    var (remain, display) := match Find(b, o.id)
      case Missing => (0, 0)
      case Found(n) => (if n.hidden > 0 then n.remain + n.hidden else n.remain, n.display);
    [OrderRested(o.id, o.user, o.side, o.price, remain, display),
     DepthUpdate(o.side, o.price, InfoAt(b.Of(o.side), o.price))]
  }

  /** The event that closes or rests an order of quantity `o.origQty`. */
  function DispositionEvents(b: Book, o: Order, fills: seq<Fill>, d: Disposition): seq<Event> {
    var filled := TotalQty(fills);
    match d
    case Rested => RestedEvents(b, o)
    case PartialFillRested => RestedEvents(b, o)
    case FullyFilled => []
    case Canceled => [OrderCanceled(o.id, o.user, o.side, o.price, o.origQty - filled, filled, NotFilled)]
    case PartialFillCanceled => [OrderCanceled(o.id, o.user, o.side, o.price, o.origQty - filled, filled, NotFilled)]
    case STPCanceledTaker => [OrderCanceled(o.id, o.user, o.side, o.price, o.origQty - filled, filled, SelfTrade)]
    case Rejected => [OrderRejected(o.id, o.user, FOKFailed)]
  }

  function Reject(e: Engine, id: OrderId, user: UserId, reason: Reason): Engine {
    e.Emit([OrderRejected(id, user, reason)])
  }

  // ----- Placing an order -----

  datatype LastPrice = NoTrade | LastPrice(price: int)

  function LastOf(fills: seq<Fill>): LastPrice {
    if fills == [] then NoTrade else LastPrice(fills[|fills| - 1].price)
  }

  function Outcomes(e: Engine, o: Order): Outcome {
    Place(e.book, o, e.clock, e.cfg.stpDefault, e.cfg.levelCap)
  }

  /** Match `o` and emit everything that follows from it. */
  function Submit(e: Engine, o: Order): Engine {
    var out := Outcomes(e, o);
    e.(book := out.book, clock := out.clock, positions := ApplyFills(e.positions, out.fills))
     .Emit(FillsLog(out.fills) + STPLog(out.cancels) + DispositionEvents(out.book, o, out.fills, out.disposition))
  }

  function Traded(e: Engine, o: Order): LastPrice {
    LastOf(Outcomes(e, o).fills)
  }

  function CountOrders(b: Book): int {
    SumBook(b, One)
  }

  /** The event under which an order enters, and the clock that numbers it. */
  function Accept(e: Engine, o: Order): Engine {
    e.(clock := e.clock + 1)
     .Emit([OrderAccepted(o.id, o.user, o.side, o.typ, 0, o.price, o.origQty, o.display, o.tif, o.seqNum)])
  }

  /** Let `o` in and match it. */
  function Enter(e: Engine, o: Order): Engine {
    Submit(Accept(e, o), o)
  }

  // ----- Stop triggers and circuit breaker -----

  /** Halt for `why` if the market is not halted or closed already. */
  function Halt(e: Engine, why: HaltType): Engine {
    var was := e.(preHalt := e.state);
    if CanTransition(e.state, Halted) then was.(state := Halted).Emit([MarketHalted(why)]) else was
  }

  function CheckBreaker(e: Engine, price: int, now: int): Engine {
    if !e.cfg.hasBreaker then e
    else
      var p := Decimal(price, e.cfg.pricePrecision);
      var g := Recorded(e.cfg.breaker, e.gauge, p, now);
      var e1 := e.(gauge := g);
      if !Trips(e.cfg.breaker, g, p, now) then e1
      else if CanTransition(e1.state, Halted) then Halt(e1, HaltCircuitBreaker).(gauge := Gauge([], now))
      else Halt(e1, HaltCircuitBreaker)
  }

  /** The order a triggered stop turns into: no reserve, and no expiry of its own. */
  function Converted(s: Stop, seqNum: nat): Order {
    Order(s.id, s.user, s.side, s.typ, s.tif, s.stp, false, if s.typ == Market then 0 else s.limit,
          s.qty, s.qty, 0, s.qty, 0, s.qty, seqNum, 0)
  }

  function Announce(e: Engine, s: Stop, price: int): Engine {
    e.Emit([StopTriggered(s.id, s.user, price, s.typ, s.limit)])
  }

  /** Announce one triggered stop and place what it turned into. */
  function Trigger(e: Engine, s: Stop, price: int): Engine {
    var e1 := Announce(e, s, price);
    if CountOrders(e1.book) >= e1.cfg.nodeCap then Reject(e1, s.id, s.user, PoolExhausted)
    else
      Enter(e1, Converted(s, e1.clock + 1))
  }

  /** The last price it traded at, which is checked for further triggers. */
  function TriggerTraded(e: Engine, s: Stop, price: int): LastPrice {
    var e1 := Announce(e, s, price);
    if CountOrders(e1.book) >= e1.cfg.nodeCap then NoTrade
    else
      var o := Converted(s, e1.clock + 1);
      Traded(Accept(e1, o), o)
  }

  /** After a trade: fire the stops it triggers, each with its own cascade, then consult the breaker. */
  function CheckStops(e: Engine, price: int, depth: nat, now: int): (r: Engine)
    requires depth <= e.cfg.maxCascade
    ensures r.cfg == e.cfg && r.crashed == e.crashed
    decreases e.cfg.maxCascade - depth, 1, 0
  {
    if depth >= e.cfg.maxCascade then Halt(e, HaltCascadeLimit)
    else
      var fired := AllFired(e.stops, price);
      CheckBreaker(FireAll(e.(stops := AllUnfired(e.stops, price)), fired, price, depth, now), price, now)
  }

  function FireAll(e: Engine, fired: seq<Stop>, price: int, depth: nat, now: int): (r: Engine)
    requires depth < e.cfg.maxCascade
    ensures r.cfg == e.cfg && r.crashed == e.crashed
    decreases e.cfg.maxCascade - depth, 0, |fired|
  {
    if fired == [] then e
    else
      var e1 := Trigger(e, fired[0], price);
      match TriggerTraded(e, fired[0], price)
      case NoTrade => FireAll(e1, fired[1..], price, depth, now)
      case LastPrice(p) => FireAll(CheckStops(e1, p, depth + 1, now), fired[1..], price, depth, now)
  }

  /** Let an order in, match it and follow up on its last trade. */
  function PlaceAndFollow(e: Engine, o: Order, now: int): Engine {
    match Traded(Accept(e, o), o)
    case NoTrade => Enter(e, o)
    case LastPrice(p) => CheckStops(Enter(e, o), p, 0, now)
  }

  // ----- Limit orders -----

  /** A positive multiple of the step. */
  predicate Multiple(x: int, step: int) {
    x > 0 && step > 0 && x % step == 0
  }

  datatype Verdict = Pass | Fail(reason: Reason)

  predicate OverValue(cfg: Config, price: int, qty: int) {
    cfg.maxValue != 0 && GoDiv(price * qty, Pow10(cfg.qtyPrecision)) > cfg.maxValue
  }

  function ValidateQty(cfg: Config, price: int, qty: int): Verdict {
    if qty <= 0 then Fail(BelowMinQty)
    else if cfg.minQty != 0 && qty < cfg.minQty then Fail(BelowMinQty)
    else if cfg.maxQty != 0 && qty > cfg.maxQty then Fail(AboveMaxQty)
    else if OverValue(cfg, price, qty) then Fail(AboveMaxValue)
    else Pass
  }

  function ValidateExpiry(cfg: Config, tif: TIF, expireAt: int, now: int): Verdict {
    if tif == GTD && expireAt <= now then Fail(InvalidExpiry)
    else if tif == DAY && cfg.sessionEnd == 0 then Fail(FeatureDisabled)
    else if tif == DAY && cfg.sessionEnd <= now then Fail(InvalidExpiry)
    else Pass
  }

  function ValidateLimit(cfg: Config, c: LimitCmd, now: int): Verdict {
    if c.price <= 0 then Fail(InvalidPrice)
    else if ValidateQty(cfg, c.price, c.qty).Fail? then ValidateQty(cfg, c.price, c.qty)
    else if !Multiple(c.price, cfg.tick) then Fail(InvalidTick)
    else if !Multiple(c.qty, cfg.lot) then Fail(InvalidLot)
    else if c.flags.iceberg && (!Multiple(c.display, cfg.lot) || c.display >= c.qty) then Fail(InvalidLot)
    else ValidateExpiry(cfg, c.tif, c.expireAt, now)
  }

  predicate StopHeld(b: Stops, id: OrderId) {
    FindStop(b, id).FoundStop?
  }

  predicate InAuction(e: Engine, id: OrderId) {
    exists i :: 0 <= i < |e.auctionBids + e.auctionAsks| && (e.auctionBids + e.auctionAsks)[i].id == id
  }

  /** The up-front refusal when the order would need a price level the pool cannot supply. */
  predicate NoLevelLeft(e: Engine, c: LimitCmd) {
    && c.tif.CanRest() && Levels(e.book) >= e.cfg.levelCap && !HasLevel(e.book.Of(c.side), c.price)
    && (e.state.Halted? || e.state.PreOpen? || (e.state.Open? && !WouldCross(e.book, c.side, c.price)))
  }

  predicate LimitDisabled(cfg: Config, c: LimitCmd) {
    || (c.tif == IOC && !cfg.ioc) || (c.tif == FOK && !cfg.fok) || (c.flags.postOnly && !cfg.postOnly)
    || (c.flags.iceberg && !cfg.icebergs) || (c.flags.reduceOnly && !cfg.reduceOnly)
  }

  /** Every check before a limit order is let in, in order. */
  function CheckLimit(e: Engine, c: LimitCmd, hook: HookAnswer, now: int): Verdict {
    if e.state.Closed? then Fail(MarketNotOpen)
    else if LimitDisabled(e.cfg, c) then Fail(FeatureDisabled)
    else if c.flags.reduceOnly && WouldIncrease(e.positions, c.user, c.side, c.qty) then Fail(ReduceOnlyIncreases)
    else if Holds(e.book, c.id) || StopHeld(e.stops, c.id) || (e.cfg.auctions && InAuction(e, c.id)) then Fail(DuplicateOrderID)
    else if ValidateLimit(e.cfg, c, now).Fail? then ValidateLimit(e.cfg, c, now)
    else if c.flags.postOnly && !e.state.Auction? && WouldCross(e.book, c.side, c.price) then Fail(PostOnlyWouldCross)
    else if NoLevelLeft(e, c) then Fail(PoolExhausted)
    else if hook.HookRefuses? then Fail(hook.reason)
    else Pass
  }

  function ExpiryOf(cfg: Config, tif: TIF, expireAt: int): int {
    if tif == DAY then cfg.sessionEnd else expireAt
  }

  /** The book node for a limit command: an iceberg works its display slice and keeps the rest in reserve. */
  function LimitOrder(cfg: Config, c: LimitCmd, seqNum: nat): Order {
    var slice := if c.flags.iceberg then c.display else c.qty;
    Order(c.id, c.user, c.side, Limit, c.tif, c.stp, c.flags.iceberg, c.price, c.qty, slice, 0, slice,
          c.qty - slice, slice, seqNum, ExpiryOf(cfg, c.tif, c.expireAt))
  }

  function AuctionOf(c: LimitCmd, seqNum: nat): AuctionOrder {
    AuctionOrder(c.id, c.user, c.side, c.price, c.qty, c.tif, seqNum)
  }

  /** In the auction phase an order is only collected. */
  function Collect(e: Engine, c: LimitCmd): Engine {
    var o := AuctionOf(c, e.clock + 1);
    var e1 := e.(clock := e.clock + 1)
               .Emit([OrderAccepted(c.id, c.user, c.side, Limit, 0, c.price, c.qty, c.qty, c.tif, e.clock + 1)]);
    if c.side == Bid then e1.(auctionBids := Joined(Bid, e.auctionBids, o)) else e1.(auctionAsks := Joined(Ask, e.auctionAsks, o))
  }

  /** Before the open and while halted an order rests without matching, whatever its time in force. */
  function RestOnly(e: Engine, o: Order): Engine {
    if !CanRestIn(e.book, o, e.cfg.levelCap) then e.Emit(DispositionEvents(e.book, o, [], Canceled))
    else
      var b := Rest(e.book, o);
      e.(book := b).Emit(DispositionEvents(b, o, [], Rested))
  }

  function ProcessLimit(e: Engine, c: LimitCmd, hook: HookAnswer, now: int): Engine {
    match CheckLimit(e, c, hook, now)
    case Fail(reason) => Reject(e, c.id, c.user, reason)
    case Pass =>
      if e.state.Auction? && e.cfg.auctions then Collect(e, c)
      else if CountOrders(e.book) >= e.cfg.nodeCap then Reject(e, c.id, c.user, PoolExhausted)
      else
        var o := LimitOrder(e.cfg, c, e.clock + 1);
        if e.state.Halted? || e.state.PreOpen? then RestOnly(Accept(e, o), o) else PlaceAndFollow(e, o, now)
  }

  // ----- Market orders -----

  function CheckMarket(e: Engine, c: MarketCmd): Verdict {
    if !e.state.Open? then Fail(MarketNotOpen)
    else if !e.cfg.marketOrders || c.flags.iceberg || (c.flags.reduceOnly && !e.cfg.reduceOnly) then Fail(FeatureDisabled)
    else if c.flags.reduceOnly && WouldIncrease(e.positions, c.user, c.side, c.qty) then Fail(ReduceOnlyIncreases)
    else if Holds(e.book, c.id) || StopHeld(e.stops, c.id) then Fail(DuplicateOrderID)
    else if c.qty <= 0 || (e.cfg.minQty != 0 && c.qty < e.cfg.minQty) then Fail(BelowMinQty)
    else if e.cfg.maxQty != 0 && c.qty > e.cfg.maxQty then Fail(AboveMaxQty)
    else if c.tif.CanRest() then Fail(FeatureDisabled)
    else Pass
  }

  function MarketOrder(c: MarketCmd, seqNum: nat): Order {
    Order(c.id, c.user, c.side, Market, c.tif, c.stp, false, 0, c.qty, c.qty, 0, c.qty, 0, c.qty, seqNum, 0)
  }

  function ProcessMarket(e: Engine, c: MarketCmd, now: int): Engine {
    match CheckMarket(e, c)
    case Fail(reason) => Reject(e, c.id, c.user, reason)
    case Pass =>
      if CountOrders(e.book) >= e.cfg.nodeCap then Reject(e, c.id, c.user, PoolExhausted)
      else
        var o := MarketOrder(c, e.clock + 1);
        PlaceAndFollow(e, o, now)
  }

  // ----- Stop orders -----

  function CheckStop(e: Engine, c: StopCmd, now: int): Verdict {
    if !e.state.Open? && !e.state.Halted? then Fail(MarketNotOpen)
    else if !e.cfg.stopOrders || (c.flags.reduceOnly && !e.cfg.reduceOnly) then Fail(FeatureDisabled)
    else if Holds(e.book, c.id) || StopHeld(e.stops, c.id) then Fail(DuplicateOrderID)
    else if ValidateExpiry(e.cfg, c.tif, c.expireAt, now).Fail? then ValidateExpiry(e.cfg, c.tif, c.expireAt, now)
    else if ValidateQty(e.cfg, c.trigger, c.qty).Fail? then ValidateQty(e.cfg, c.trigger, c.qty)
    else if !Multiple(c.qty, e.cfg.lot) then Fail(InvalidLot)
    else if !Multiple(c.trigger, e.cfg.tick) then Fail(InvalidTick)
    else if c.typ == Limit && !Multiple(c.limit, e.cfg.tick) then Fail(InvalidTick)
    else Pass
  }

  function StopOf(cfg: Config, c: StopCmd, seqNum: nat): Stop {
    Stop(c.id, c.user, c.side, c.trigger, c.limit, c.qty, c.typ, c.tif, c.stp, seqNum, ExpiryOf(cfg, c.tif, c.expireAt))
  }

  function Enlist(e: Engine, s: Stop): Engine {
    e.(clock := e.clock + 1, stops := e.stops.With(s.side, AddTo(e.stops.Of(s.side), s)))
     .Emit([OrderAccepted(s.id, s.user, s.side, s.typ, s.trigger, s.limit, s.qty, s.qty, s.tif, s.seqNum)])
  }

  /** A new trigger price, and no slot left in the stop book's level pool. */
  predicate NoStopLevel(e: Engine, side: Side, trigger: int) {
    TriggersInUse(e.stops) >= e.cfg.stopLevelCap && !HasStopAt(e.stops.Of(side), trigger)
  }

  /** The stop book panics, and the processor with it; the stop's number is taken by then. */
  function Crash(e: Engine): Engine {
    e.(clock := e.clock + 1, crashed := true)
  }

  function ProcessStop(e: Engine, c: StopCmd, now: int): Engine {
    match CheckStop(e, c, now)
    case Fail(reason) => Reject(e, c.id, c.user, reason)
    case Pass =>
      if SumBoth(e.stops, OneStop) >= e.cfg.stopCap then Reject(e, c.id, c.user, PoolExhausted)
      else if NoStopLevel(e, c.side, c.trigger) then Crash(e)
      else Enlist(e, StopOf(e.cfg, c, e.clock + 1))
  }

  // ----- Cancel, administration, expiry -----

  /** Cancel a resting order and announce what its level became. */
  function CancelResting(e: Engine, o: Order): Engine {
    var b := RemoveId(e.book, o.id);
    e.(book := b).Emit(
      [OrderCanceled(o.id, o.user, o.side, o.price, if o.iceberg then o.remain + o.hidden else o.remain, o.filled, UserRequested),
       DepthUpdate(o.side, o.price, InfoAt(b.Of(o.side), o.price))])
  }

  function CancelPending(e: Engine, s: Stop): Engine {
    e.(stops := RemoveStop(e.stops, s.id)).Emit([OrderCanceled(s.id, s.user, s.side, s.trigger, s.qty, 0, UserRequested)])
  }

  function ProcessCancel(e: Engine, id: OrderId, user: UserId): Engine {
    match Find(e.book, id)
    case Found(o) => if o.user == user then CancelResting(e, o) else Reject(e, id, user, OrderNotFound)
    case Missing =>
      match FindStop(e.stops, id)
      case FoundStop(s) => if s.user == user then CancelPending(e, s) else Reject(e, id, user, OrderNotFound)
      case NoStop => Reject(e, id, user, OrderNotFound)
  }

  function ProcessResume(e: Engine): Engine {
    var target := if e.preHalt.Open? || e.preHalt.Auction? then e.preHalt else Open;
    if CanTransition(e.state, target) then e.(state := target).Emit([MarketResumed]) else e
  }

  /** Take an expired order off the book; only its working slice is reported. */
  function ExpireOrder(e: Engine, id: OrderId): Engine {
    match Find(e.book, id)
    case Missing => e
    case Found(o) => e.(book := RemoveId(e.book, id)).Emit([OrderExpired(o.id, o.user, o.side, o.price, o.remain)])
  }

  function ExpireOrders(e: Engine, ids: seq<OrderId>): Engine {
    if ids == [] then e else ExpireOrder(ExpireOrders(e, ids[..|ids| - 1]), ids[|ids| - 1])
  }

  function ExpireStop(e: Engine, id: OrderId): Engine {
    match FindStop(e.stops, id)
    case NoStop => e
    case FoundStop(s) => e.(stops := RemoveStop(e.stops, id)).Emit([OrderExpired(s.id, s.user, s.side, s.trigger, s.qty)])
  }

  function ExpireStops(e: Engine, ids: seq<OrderId>): Engine {
    if ids == [] then e else ExpireStop(ExpireStops(e, ids[..|ids| - 1]), ids[|ids| - 1])
  }

  // ----- Auction -----

  function ProcessOpenAuction(e: Engine): Engine {
    if CanTransition(e.state, Auction) then e.(state := Auction).Emit([AuctionOpened]) else e
  }

  /** The continuous-book order for what is left of an auction order; it keeps its old number. */
  function Carried(o: AuctionOrder): Order {
    Order(o.id, o.user, o.side, Limit, GTC, STPDisabled, false, o.price, o.qty, o.qty, 0, o.qty, 0, o.qty, o.seqNum, 0)
  }

  function CarryOne(e: Engine, o: AuctionOrder): Engine {
    if CountOrders(e.book) >= e.cfg.nodeCap then Reject(e, o.id, o.user, PoolExhausted)
    else Submit(e, Carried(o))
  }

  function CarryOver(e: Engine, os: seq<AuctionOrder>): Engine {
    if os == [] then e else CarryOne(CarryOver(e, os[..|os| - 1]), os[|os| - 1])
  }

  function CanceledLog(os: seq<AuctionOrder>): seq<Event> {
    if os == [] then []
    else
      var o := os[|os| - 1];
      CanceledLog(os[..|os| - 1]) + [OrderCanceled(o.id, o.user, o.side, o.price, o.qty, 0, NotFilled)]
  }

  /** Execute the auction at the price found (zero when none was), carry what is good till canceled into
      the continuous book, cancel the rest, and open. */
  function ProcessClearAuction(e: Engine, c: Clearing): Engine {
    var e0 := if e.state.PreOpen? then ProcessOpenAuction(e) else e;
    if !e0.state.Auction? then e0
    else
      var (price, qty) := if c.Clearing? then (c.price, c.qty) else (0, 0);
      var fills := PairUp(Eligible(Bid, e0.auctionBids, price), Eligible(Ask, e0.auctionAsks, price), price);
      var rest := Residual(e0.auctionBids, e0.auctionAsks, price);
      var e1 := e0.(positions := ApplyFills(e0.positions, fills)).Emit(FillsLog(fills));
      var e2 := CarryOver(e1, GoodTillCanceled(rest));
      e2.Emit(CanceledLog(Immediate(rest)) + [AuctionCleared(price, qty)]).(state := Open)
  }

  // ----- One command, and runs -----

  /** A crashed processor does nothing any more. */
  function Process(e: Engine, c: Command, now: int): Engine {
    if e.crashed then e else Handle(e, c, now)
  }

  function Handle(e: Engine, c: Command, now: int): Engine {
    match c
    case PlaceLimit(limit, hook) => ProcessLimit(e, limit, hook, now)
    case PlaceMarket(market) => ProcessMarket(e, market, now)
    case PlaceStop(stop) => ProcessStop(e, stop, now)
    case CancelOrder(id, user) => ProcessCancel(e, id, user)
    case AdminHalt => Halt(e, HaltAdmin)
    case AdminResume => ProcessResume(e)
    case ExpiryTick(orders, stops) => ExpireStops(ExpireOrders(e, orders), stops)
    case OpenAuction => if e.cfg.auctions then ProcessOpenAuction(e) else e
    case ClearAuction(c) => if e.cfg.auctions then ProcessClearAuction(e, c) else e
  }

  datatype Input = Input(cmd: Command, now: int)

  function RunAll(e: Engine, inputs: seq<Input>): Engine {
    if inputs == [] then e
    else Process(RunAll(e, inputs[..|inputs| - 1]), inputs[|inputs| - 1].cmd, inputs[|inputs| - 1].now)
  }
}
