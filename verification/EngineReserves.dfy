/** Reserves enter the book only with iceberg orders. */
module EngineReserves {
  import opened Domain
  import opened BookSpec
  import opened BookLemmas
  import opened MatchSpec
  import opened MatchScans
  import opened PlaceEffects
  import opened StopSpec
  import opened EngineSpec
  import opened EngineInvariants
  import opened EngineSteps
  import opened EngineCommands
  import opened EngineRuns

  function HasReserve(o: Order): int {
    if o.hidden > 0 then 1 else 0
  }

  /** How many resting orders have a reserve. */
  function Reserves(e: Engine): int {
    SumBook(e.book, HasReserve)
  }

  /** The command submits an iceberg order. */
  predicate Iceberg(c: Command) {
    c.PlaceLimit? && c.limit.flags.iceberg
  }

  lemma ReserveStable()
    ensures Stable(HasReserve)
  {
  }

  lemma {:induction false} ReservesNonNegative(ls: seq<Level>)
    ensures SumLevels(ls, HasReserve) >= 0
  {
    if ls != [] {
      QueueReserves(ls[0].orders);
      ReservesNonNegative(ls[1..]);
    }
  }

  lemma {:induction false} QueueReserves(os: seq<Order>)
    ensures SumOf(os, HasReserve) >= 0
  {
    if os != [] {
      QueueReserves(os[1..]);
    }
  }

  lemma EnterReserves(e: Engine, o: Order)
    ensures Reserves(Enter(e, o)) <= Reserves(e) + HasReserve(o) && Enter(e, o).cfg == e.cfg
  {
    hide Place, Enter, SumLevels, Stable;
    ReserveStable();
    EnterParts(e, o);
    PlaceSums(e.book, o, e.clock + 1, e.cfg.stpDefault, e.cfg.levelCap, HasReserve);
    QueueReserves([o]);
  }

  lemma TriggerReserves(e: Engine, s: Stop, price: int)
    ensures Reserves(Trigger(e, s, price)) <= Reserves(e) && Trigger(e, s, price).cfg == e.cfg
  {
    hide Enter, SumLevels;
    EnterReserves(Announce(e, s, price), Converted(s, e.clock + 1));
  }

  lemma HaltReserves(e: Engine, why: HaltType, price: int, now: int)
    ensures Halt(e, why).book == e.book && CheckBreaker(e, price, now).book == e.book
  {
  }

  /** A cascade brings no reserve into the book: what stops turn into has none. */
  lemma {:induction false} CascadeReserves(e: Engine, price: int, depth: nat, now: int)
    requires depth <= e.cfg.maxCascade
    ensures Reserves(CheckStops(e, price, depth, now)) <= Reserves(e)
    decreases e.cfg.maxCascade - depth, 1, 0
  {
    hide Reserves, Halt, CheckBreaker, AllFired, AllUnfired, FireAll;
    HaltReserves(e, HaltCascadeLimit, price, now);
    SameReserves(e, Halt(e, HaltCascadeLimit));
    if depth < e.cfg.maxCascade {
      var mid := e.(stops := AllUnfired(e.stops, price));
      var fired := AllFired(e.stops, price);
      FiringReserves(mid, fired, price, depth, now);
      SameReserves(e, mid);
      var r := FireAll(mid, fired, price, depth, now);
      HaltReserves(r, HaltCascadeLimit, price, now);
      SameReserves(r, CheckBreaker(r, price, now));
    }
  }

  lemma SameReserves(e: Engine, r: Engine)
    ensures r.book == e.book ==> Reserves(r) == Reserves(e)
  {
  }

  lemma {:induction false} FiringReserves(e: Engine, fired: seq<Stop>, price: int, depth: nat, now: int)
    requires depth < e.cfg.maxCascade
    ensures Reserves(FireAll(e, fired, price, depth, now)) <= Reserves(e)
    decreases e.cfg.maxCascade - depth, 0, |fired|
  {
    hide Reserves, Trigger, TriggerTraded, CheckStops;
    if fired != [] {
      var e1 := Trigger(e, fired[0], price);
      TriggerReserves(e, fired[0], price);
      match TriggerTraded(e, fired[0], price)
      case NoTrade => FiringReserves(e1, fired[1..], price, depth, now);
      case LastPrice(p) =>
        CascadeReserves(e1, p, depth + 1, now);
        FiringReserves(CheckStops(e1, p, depth + 1, now), fired[1..], price, depth, now);
    }
  }

  lemma FollowReserves(e: Engine, o: Order, now: int)
    ensures Reserves(PlaceAndFollow(e, o, now)) <= Reserves(e) + HasReserve(o)
  {
    hide Reserves, Enter, CheckStops, Traded, HasReserve;
    EnterReserves(e, o);
    match Traded(Accept(e, o), o)
    case NoTrade =>
    case LastPrice(p) => CascadeReserves(Enter(e, o), p, 0, now);
  }

  lemma RestReserves(e: Engine, o: Order)
    ensures Reserves(RestOnly(Accept(e, o), o)) <= Reserves(e) + HasReserve(o)
  {
    hide SumLevels, Insert, CanRestIn, DispositionEvents;
    InsertSum(e.book.Of(o.side), o, HasReserve);
  }

  lemma LimitReserves(e: Engine, c: LimitCmd, hook: HookAnswer, now: int)
    requires !c.flags.iceberg
    ensures Reserves(ProcessLimit(e, c, hook, now)) <= Reserves(e)
  {
    hide Reserves, CheckLimit, PlaceAndFollow, RestOnly;
    var o := LimitOrder(e.cfg, c, e.clock + 1);
    FollowReserves(e, o, now);
    RestReserves(e, o);
    SameReserves(e, ProcessLimit(e, c, hook, now));
  }

  lemma MarketReserves(e: Engine, c: MarketCmd, now: int)
    ensures Reserves(ProcessMarket(e, c, now)) <= Reserves(e)
  {
    hide Reserves, CheckMarket, PlaceAndFollow;
    FollowReserves(e, MarketOrder(c, e.clock + 1), now);
    SameReserves(e, ProcessMarket(e, c, now));
  }

  /** Taking an order off brings no reserve in. */
  lemma RemovalReserves(b: Book, id: OrderId)
    ensures SumBook(RemoveId(b, id), HasReserve) <= SumBook(b, HasReserve)
  {
    hide SumLevels, Remove, FindIn;
    if Find(b, id).Found? {
      var side := Find(b, id).order.side;
      RemoveSum(b.Of(side), id, HasReserve);
    }
  }

  lemma {:induction false} ExpiryReserves(e: Engine, ids: seq<OrderId>)
    ensures Reserves(ExpireOrders(e, ids)) <= Reserves(e)
  {
    hide SumBook, RemoveId, Find;
    if ids != [] {
      ExpiryReserves(e, ids[..|ids| - 1]);
      RemovalReserves(ExpireOrders(e, ids[..|ids| - 1]).book, ids[|ids| - 1]);
    }
  }

  lemma {:induction false} StopExpiryReserves(e: Engine, ids: seq<OrderId>)
    ensures ExpireStops(e, ids).book == e.book
  {
    hide FindStop, RemoveStop;
    if ids != [] {
      StopExpiryReserves(e, ids[..|ids| - 1]);
    }
  }

  /** Outside an auction's end, only an iceberg command raises the number of reserves. */
  lemma CommandReserves(e: Engine, c: Command, now: int)
    requires !Iceberg(c) && (e.cfg.auctions ==> !AuctionCommand(c))
    ensures Reserves(Process(e, c, now)) <= Reserves(e)
  {
    hide Reserves, ProcessLimit, ProcessMarket, ExpireOrders, ExpireStops, Find, FindStop, RemoveId, RemoveStop, CheckStop;
    match c
    case PlaceLimit(l, hook) => LimitReserves(e, l, hook, now);
    case PlaceMarket(m) => MarketReserves(e, m, now);
    case CancelOrder(id, user) =>
      CancelReserves(e, id, user);
    case ExpiryTick(orders, stops) =>
      ExpiryReserves(e, orders);
      StopExpiryReserves(ExpireOrders(e, orders), stops);
      SameReserves(ExpireOrders(e, orders), Process(e, c, now));
    case _ => SameReserves(e, Process(e, c, now));
  }

  lemma CancelReserves(e: Engine, id: OrderId, user: UserId)
    ensures Reserves(ProcessCancel(e, id, user)) <= Reserves(e)
  {
    hide SumBook, Find, FindStop, RemoveId, RemoveStop, InfoAt;
    RemovalReserves(e.book, id);
    if Find(e.book, id).Found? {
      RemovalReserves(e.book, Find(e.book, id).order.id);
    }
  }

  /** Without resting reserves, a command that is no iceberg loses none. */
  lemma NothingToLose(e: Engine, c: Command, now: int)
    requires Good(e, []) && Reserves(e) == 0 && !Iceberg(c)
    ensures !LosesReserve(e, c, now)
  {
    hide Good, Find, CheckLimit, SumLevels, FillsAtOnce;
    if c.ExpiryTick? && ExpiresReserve(e, c.orders) {
      var i :| 0 <= i < |c.orders| && Reserved(e.book, c.orders[i]);
      var id := c.orders[i];
      GoodBook(e);
      RemovedSum(e.book, e.clock, id, HasReserve);
      ReservesNonNegative(RemoveId(e.book, id).bids);
      ReservesNonNegative(RemoveId(e.book, id).asks);
    }
  }
}
