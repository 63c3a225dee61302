/** The one command that can take the processor down: a stop order at a new trigger price once the stop
    book's level pool is exhausted. */
module EngineCrash {
  import opened Domain
  import opened BookSpec
  import opened MatchSpec
  import opened StopSpec
  import Auctions
  import AuctionSweep
  import opened EngineSpec

  lemma {:induction false} ExpiryStands(e: Engine, ids: seq<OrderId>)
    ensures ExpireOrders(e, ids).crashed == e.crashed && ExpireStops(e, ids).crashed == e.crashed
  {
    hide Find, FindStop, RemoveId, RemoveStop;
    if ids != [] {
      ExpiryStands(e, ids[..|ids| - 1]);
    }
  }

  lemma {:induction false} CarryStands(e: Engine, os: seq<Auctions.AuctionOrder>)
    ensures CarryOver(e, os).crashed == e.crashed
  {
    hide Submit;
    if os != [] {
      CarryStands(e, os[..|os| - 1]);
      SubmitStands(CarryOver(e, os[..|os| - 1]), Carried(os[|os| - 1]));
    }
  }

  lemma SubmitStands(e: Engine, o: Order)
    ensures Submit(e, o).crashed == e.crashed && Enter(e, o).crashed == e.crashed
  {
  }

  lemma ClearingStands(e: Engine, c: Auctions.Clearing)
    ensures ProcessClearAuction(e, c).crashed == e.crashed
  {
    hide CarryOver, AuctionSweep.PairUp, AuctionSweep.Eligible, AuctionSweep.Residual, AuctionSweep.GoodTillCanceled, AuctionSweep.Immediate;
    forall e': Engine, os | e'.crashed == e.crashed
      ensures CarryOver(e', os).crashed == e.crashed
    {
      CarryStands(e', os);
    }
  }

  lemma PlacingStands(e: Engine, o: Order, now: int)
    ensures PlaceAndFollow(e, o, now).crashed == e.crashed && RestOnly(Accept(e, o), o).crashed == e.crashed
  {
    hide Submit, CheckStops, Rest, CanRestIn;
    SubmitStands(e, o);
  }

  /** What takes the processor down: the stop passes its checks, a node is free for it, its trigger price is
      new, and the level pool is exhausted. */
  predicate Fatal(e: Engine, c: Command, now: int) {
    && c.PlaceStop? && CheckStop(e, c.stop, now).Pass? && SumBoth(e.stops, OneStop) < e.cfg.stopCap
    && NoStopLevel(e, c.stop.side, c.stop.trigger)
  }

  /** A command crashes a running processor exactly when it is fatal. */
  lemma CrashesExactly(e: Engine, c: Command, now: int)
    requires !e.crashed
    ensures Process(e, c, now).crashed <==> Fatal(e, c, now)
  {
    hide CheckLimit, CheckMarket, CheckStop, PlaceAndFollow, RestOnly, ExpireOrders, ExpireStops, ProcessClearAuction, ProcessCancel, SumStops, TriggersInUse,
      HasStopAt;
    match c
    case PlaceLimit(l, hook) => PlacingStands(e, LimitOrder(e.cfg, l, e.clock + 1), now);
    case PlaceMarket(m) => PlacingStands(e, MarketOrder(m, e.clock + 1), now);
    case CancelOrder(id, user) => CancelStands(e, id, user);
    case ExpiryTick(orders, stops) =>
      ExpiryStands(e, orders);
      ExpiryStands(ExpireOrders(e, orders), stops);
    case ClearAuction(clearing) => ClearingStands(e, clearing);
    case _ =>
  }

  lemma CancelStands(e: Engine, id: OrderId, user: UserId)
    ensures ProcessCancel(e, id, user).crashed == e.crashed
  {
    hide Find, FindStop, RemoveId, RemoveStop;
  }

  // ----- A run that does it -----

  /** The `k`-th of a series of stop buys, one tick above the one before. */
  function StopNo(k: nat): StopCmd {
    StopCmd(seq(k, _ => 'x'), "u", Bid, k + 1, 0, 1, Market, IOC, 0, Flags(false, false, false), STPDisabled)
  }

  /** Open the market, then submit `n` of them. */
  function Climb(n: nat): seq<Input> {
    if n == 0 then [Input(AdminResume, 0)] else Climb(n - 1) + [Input(PlaceStop(StopNo(n - 1)), 0)]
  }

  function Waiting(cfg: Config, first: nat, n: nat): seq<Stop> {
    if n == 0 then [] else Waiting(cfg, first, n - 1) + [StopOf(cfg, StopNo(n - 1), first + n)]
  }

  lemma {:induction false} Appends(ss: seq<Stop>, s: Stop)
    requires forall i :: 0 <= i < |ss| ==> !Sooner(s.side, s.trigger, ss[i].trigger)
    ensures AddTo(ss, s) == ss + [s]
  {
    if ss != [] {
      Appends(ss[1..], s);
    }
  }

  lemma {:induction false} OneLevelMore(ss: seq<Stop>, s: Stop)
    requires forall i :: 0 <= i < |ss| ==> ss[i].trigger != s.trigger
    ensures TriggerLevels(ss + [s]) == TriggerLevels(ss) + 1
  {
    if ss == [] {
      assert ss + [s] == [s] && [s][1..] == [];
    } else {
      assert (ss + [s])[1..] == ss[1..] + [s] && (ss + [s])[0] == ss[0];
      assert (ss + [s])[1] == if |ss| > 1 then ss[1] else s;
      OneLevelMore(ss[1..], s);
    }
  }

  lemma {:induction false} NotThere(ss: seq<Stop>, id: OrderId)
    requires forall i :: 0 <= i < |ss| ==> ss[i].id != id
    ensures FindStopIn(ss, id) == NoStop
  {
    if ss != [] {
      NotThere(ss[1..], id);
    }
  }

  lemma {:induction false} WaitingFacts(cfg: Config, first: nat, n: nat)
    ensures var ss := Waiting(cfg, first, n);
            && |ss| == n && TriggerLevels(ss) == n && SumStops(ss, OneStop) == n
            && (forall i :: 0 <= i < n ==> ss[i].trigger == i + 1 && |ss[i].id| == i)
  {
    if n > 0 {
      var ss, s := Waiting(cfg, first, n - 1), StopOf(cfg, StopNo(n - 1), first + n);
      WaitingFacts(cfg, first, n - 1);
      OneLevelMore(ss, s);
      SumStopsConcat(ss, [s], OneStop);
      assert SumStops([s], OneStop) == 1 + SumStops([], OneStop);
    }
  }

  /** A market that takes any positive whole quantity and trigger, with fewer level slots than stop nodes. */
  predicate Plain(cfg: Config) {
    && cfg.stopOrders && cfg.tick == 1 && cfg.lot == 1 && cfg.minQty == 0 && cfg.maxQty == 0 && cfg.maxValue == 0
    && cfg.stopLevelCap < cfg.stopCap
  }

  /** Up to the capacity of the level pool the stops wait, one level each. */
  lemma {:induction false} ClimbWaits(cfg: Config, first: nat, n: nat)
    requires Plain(cfg) && n <= cfg.stopLevelCap
    ensures var e := RunAll(Initial(cfg, first), Climb(n));
            && !e.crashed && e.state == Open && e.book == EMPTY_BOOK && e.cfg == cfg && e.clock == first + n
            && e.stops == Stops([], Waiting(cfg, first, n))
  {
    hide Waiting, Handle;
    var start := Initial(cfg, first);
    if n == 0 {
      NoneWait(cfg, first);
      assert Climb(0)[..0] == [];
      assert RunAll(start, []) == start;
      Opens(cfg, first);
    } else {
      ClimbWaits(cfg, first, n - 1);
      assert Climb(n)[..|Climb(n)| - 1] == Climb(n - 1);
      NextStop(RunAll(start, Climb(n - 1)), cfg, first, n - 1);
    }
  }

  lemma NoneWait(cfg: Config, first: nat)
    ensures Waiting(cfg, first, 0) == []
  {
  }

  lemma Opens(cfg: Config, first: nat)
    ensures Handle(Initial(cfg, first), AdminResume, 0) == Initial(cfg, first).(state := Open, log := [] + [MarketResumed])
  {
  }

  /** The next one of the series waits behind the others if a level slot is left, and is fatal otherwise. */
  lemma NextStop(e: Engine, cfg: Config, first: nat, n: nat)
    requires Plain(cfg) && n <= cfg.stopLevelCap && !e.crashed && e.state == Open && e.book == EMPTY_BOOK && e.cfg == cfg
    requires e.clock == first + n && e.stops == Stops([], Waiting(cfg, first, n))
    ensures n < cfg.stopLevelCap ==>
              Process(e, PlaceStop(StopNo(n)), 0) == Enlist(e, StopOf(cfg, StopNo(n), first + n + 1))
              && Enlist(e, StopOf(cfg, StopNo(n), first + n + 1)).stops == Stops([], Waiting(cfg, first, n + 1))
    ensures n == cfg.stopLevelCap ==> Fatal(e, PlaceStop(StopNo(n)), 0)
  {
    hide CheckStop, FindStop, TriggerLevels, SumStops, Waiting;
    var c := StopNo(n);
    var ss := Waiting(cfg, first, n);
    WaitingFacts(cfg, first, n);
    NextPasses(e, ss, n);
    Appends(ss, StopOf(cfg, c, first + n + 1));
    WaitingNext(cfg, first, n);
    NoneOnSells();
  }

  lemma WaitingNext(cfg: Config, first: nat, n: nat)
    ensures Waiting(cfg, first, n + 1) == Waiting(cfg, first, n) + [StopOf(cfg, StopNo(n), first + n + 1)]
  {
  }

  lemma NoneOnSells()
    ensures TriggerLevels([]) == 0 && SumStops([], OneStop) == 0
  {
  }

  /** The next one passes every check. */
  lemma NextPasses(e: Engine, ss: seq<Stop>, n: nat)
    requires Plain(e.cfg) && e.state == Open && e.book == EMPTY_BOOK && e.stops == Stops([], ss)
    requires forall i :: 0 <= i < |ss| ==> |ss[i].id| < n
    ensures CheckStop(e, StopNo(n), 0) == Pass
  {
    NotThere(ss, StopNo(n).id);
    assert FindStopIn([], StopNo(n).id) == NoStop;
    assert !Holds(e.book, StopNo(n).id);
  }

  /** Whatever the two capacities, one stop more than there are level slots, each at a trigger price of its
      own, takes the processor down. */
  lemma ClimbCrashes(cfg: Config, first: nat)
    requires Plain(cfg)
    ensures !RunAll(Initial(cfg, first), Climb(cfg.stopLevelCap)).crashed && RunAll(Initial(cfg, first), Climb(cfg.stopLevelCap + 1)).crashed
  {
    var n := cfg.stopLevelCap;
    var e := RunAll(Initial(cfg, first), Climb(n));
    ClimbWaits(cfg, first, n);
    NextStop(e, cfg, first, n);
    CrashesExactly(e, PlaceStop(StopNo(n)), 0);
    assert Climb(n + 1)[..|Climb(n + 1)| - 1] == Climb(n);
  }
}
