/** The time until the auction is cleared: orders rest without matching or are collected, and every command
    keeps what clearing relies on. */
module AuctionPhase {
  import opened Domain
  import opened BookSpec
  import opened BookLemmas
  import opened MatchSpec
  import opened MatchTheorems
  import opened PlaceEffects
  import opened StopSpec
  import opened Auctions
  import AuctionSweep
  import opened AuctionCarry
  import opened AuctionHandover
  import opened EngineSpec
  import EventFolds
  import opened EngineInvariants
  import opened EngineSteps
  import opened EngineCommands
  import opened EngineRuns

  /** Before the open, in the auction, or halted: nothing matches. The collected orders are positive, in priority,
      on their own sides and numbered apart, and no id is shared by them, the book and the stop book. */
  ghost predicate InPhase(e: Engine) {
    && Good(e, []) && e.cfg.auctions && (e.state.PreOpen? || e.state.Auction? || e.state.Halted?)
    && Collected(e.auctionBids, e.auctionAsks) && Numbered(e.auctionBids, e.clock) && Numbered(e.auctionAsks, e.clock)
    && UnsharedWith(e, [])
  }

  /** No id is used twice among the resting orders, the waiting stops, the collected orders and `more`. */
  ghost predicate UnsharedWith(e: Engine, more: seq<AuctionOrder>) {
    forall id :: IdCount(e, [], id) + Named(e.auctionBids, id) + Named(e.auctionAsks, id) + Named(more, id) <= 1
  }

  /** A market starts in this phase. */
  lemma PhaseStarts(cfg: Config, firstSeq: nat)
    requires cfg.auctions
    ensures InPhase(Initial(cfg, firstSeq))
  {
  }

  // ----- Collected ids and numbers -----

  lemma {:induction false} NamedSome(os: seq<AuctionOrder>, id: OrderId)
    ensures Named(os, id) >= 0 && (Named(os, id) > 0 <==> exists i :: 0 <= i < |os| && os[i].id == id)
  {
    if os != [] {
      var f := os[..|os| - 1];
      NamedSome(f, id);
      if i :| 0 <= i < |f| && f[i].id == id {
        assert os[i].id == id;
      }
      if i :| 0 <= i < |os| && os[i].id == id {
        assert i < |f| ==> f[i].id == id;
      }
    }
  }

  lemma InAuctionNamed(e: Engine, id: OrderId)
    ensures InAuction(e, id) <==> Named(e.auctionBids, id) + Named(e.auctionAsks, id) > 0
  {
    NamedConcat(e.auctionBids, e.auctionAsks, id);
    NamedSome(e.auctionBids + e.auctionAsks, id);
  }

  lemma {:induction false} NamedJoined(side: Side, os: seq<AuctionOrder>, o: AuctionOrder, id: OrderId)
    ensures Named(Joined(side, os, o), id) == Named(os, id) + if o.id == id then 1 else 0
  {
    if os == [] || !Precedes(side, o, os[|os| - 1]) {
      NamedConcat(os, [o], id);
      NamedOne(o, id);
    } else {
      var f, last := os[..|os| - 1], os[|os| - 1];
      NamedJoined(side, f, o, id);
      NamedConcat(Joined(side, f, o), [last], id);
      NamedOne(last, id);
    }
  }

  lemma NumberedAppend(os: seq<AuctionOrder>, o: AuctionOrder, clock: nat)
    requires Numbered(os, clock) && o.seqNum <= clock && forall x :: x in os ==> x.seqNum != o.seqNum
    ensures Numbered(os + [o], clock)
  {
    forall i | 0 <= i < |os|
      ensures os[i].seqNum != o.seqNum
    {
      assert os[i] in os;
    }
  }

  lemma {:induction false} NumberedJoined(side: Side, os: seq<AuctionOrder>, o: AuctionOrder, clock: nat)
    requires Numbered(os, clock) && o.seqNum == clock + 1
    ensures Numbered(Joined(side, os, o), clock + 1)
  {
    hide Precedes;
    assert Numbered(os, clock + 1);
    if os == [] || !Precedes(side, o, os[|os| - 1]) {
      NumberedAppend(os, o, clock + 1);
    } else {
      var f, last := os[..|os| - 1], os[|os| - 1];
      NumberedJoined(side, f, o, clock);
      JoinedMembers(side, f, o);
      forall x | x in Joined(side, f, o)
        ensures x.seqNum != last.seqNum
      {
        if x in f {
          var i :| 0 <= i < |f| && f[i] == x;
          assert os[i] == x;
        }
      }
      NumberedAppend(Joined(side, f, o), last, clock + 1);
    }
  }

  // ----- Every command keeps the phase -----

  /** The same market but for its state, its breaker, its log and a later clock. */
  ghost predicate SameBooks(e: Engine, r: Engine) {
    && r.cfg == e.cfg && r.book == e.book && r.stops == e.stops && e.clock <= r.clock
    && r.auctionBids == e.auctionBids && r.auctionAsks == e.auctionAsks
  }

  lemma SamePhase(e: Engine, r: Engine)
    requires InPhase(e) && SameBooks(e, r) && (r.state.PreOpen? || r.state.Auction? || r.state.Halted?)
    ensures InPhase(r)
  {
    hide SumLevels, SumStops, WFSide, WFStopSide, Named, Collected;
    LaterBook(e.book, e.clock, r.clock);
    LaterStops(e.stops, e.clock, r.clock);
    SameIds(e, r, []);
    forall id
      ensures IdCount(r, [], id) + Named(r.auctionBids, id) + Named(r.auctionAsks, id) + Named([], id) <= 1
    {
      assert IdCount(e, [], id) + Named(e.auctionBids, id) + Named(e.auctionAsks, id) + Named([], id) <= 1;
    }
  }

  /** A good market whose resting orders and stops use no more ids than before. */
  lemma LessPhase(e: Engine, r: Engine)
    requires InPhase(e) && Good(r, []) && r.cfg == e.cfg && r.state == e.state && e.clock <= r.clock
    requires r.auctionBids == e.auctionBids && r.auctionAsks == e.auctionAsks
    requires forall id :: IdCount(r, [], id) <= IdCount(e, [], id)
    ensures InPhase(r)
  {
    hide Good, IdCount, Named, Collected;
    forall id
      ensures IdCount(r, [], id) + Named(r.auctionBids, id) + Named(r.auctionAsks, id) + Named([], id) <= 1
    {
      assert IdCount(e, [], id) + Named(e.auctionBids, id) + Named(e.auctionAsks, id) + Named([], id) <= 1;
    }
  }

  lemma CollectInPhase(e: Engine, c: LimitCmd, hook: HookAnswer, now: int)
    requires InPhase(e) && CheckLimit(e, c, hook, now) == Pass
    ensures InPhase(Collect(e, c))
  {
    hide Good, SumLevels, SumStops, Named, Collected, Numbered, CheckLimit, Joined;
    var r, o := Collect(e, c), AuctionOf(c, e.clock + 1);
    CollectGood(e, c);
    CollectKeeps(e, c, hook, now);
    if c.side == Bid {
      NumberedJoined(Bid, e.auctionBids, o, e.clock);
      LaterNumbers(e.auctionAsks, e.clock);
    } else {
      NumberedJoined(Ask, e.auctionAsks, o, e.clock);
      LaterNumbers(e.auctionBids, e.clock);
    }
    FreeEverywhere(e, c, hook, now);
    forall id
      ensures IdCount(r, [], id) + Named(r.auctionBids, id) + Named(r.auctionAsks, id) + Named([], id) <= 1
    {
      NamedJoined(c.side, if c.side == Bid then e.auctionBids else e.auctionAsks, o, id);
      assert IdCount(e, [], id) + Named(e.auctionBids, id) + Named(e.auctionAsks, id) + Named([], id) <= 1;
    }
  }

  lemma LaterNumbers(os: seq<AuctionOrder>, clock: nat)
    requires Numbered(os, clock)
    ensures Numbered(os, clock + 1)
  {
  }

  /** An order that passes the checks has an id used nowhere. */
  lemma FreeEverywhere(e: Engine, c: LimitCmd, hook: HookAnswer, now: int)
    requires e.cfg.auctions && CheckLimit(e, c, hook, now) == Pass
    ensures IdCount(e, [], c.id) == 0 && Named(e.auctionBids, c.id) + Named(e.auctionAsks, c.id) + Named([], c.id) == 0
  {
    hide SumLevels, FindStop, HasLevel, OverValue, Named;
    FreeId(e, c.id);
    InAuctionNamed(e, c.id);
    NamedSome(e.auctionBids, c.id);
    NamedSome(e.auctionAsks, c.id);
    NamedSome([], c.id);
  }

  lemma RestInPhase(e: Engine, c: LimitCmd, hook: HookAnswer, now: int)
    requires InPhase(e) && CheckLimit(e, c, hook, now) == Pass && CountOrders(e.book) < e.cfg.nodeCap
    ensures InPhase(RestOnly(Accept(e, LimitOrder(e.cfg, c, e.clock + 1)), LimitOrder(e.cfg, c, e.clock + 1)))
  {
    hide Good, SumLevels, SumStops, Named, Collected, CheckLimit, CanRestIn, DispositionEvents, Rest;
    var o := LimitOrder(e.cfg, c, e.clock + 1);
    var r := RestOnly(Accept(e, o), o);
    LimitAdmissible(e, c, hook, now);
    RestMaintains(e, o);
    FreeEverywhere(e, c, hook, now);
    if CanRestIn(e.book, o, e.cfg.levelCap) {
      RestGood(e, o);
    }
    forall id
      ensures IdCount(r, [], id) + Named(r.auctionBids, id) + Named(r.auctionAsks, id) + Named([], id) <= 1
    {
      assert IdCount(e, [], id) + Named(e.auctionBids, id) + Named(e.auctionAsks, id) + Named([], id) <= 1;
      assert CanRestIn(e.book, o, e.cfg.levelCap) ==> SumBook(r.book, HasId(id)) == SumBook(e.book, HasId(id)) + HasId(id)(o);
    }
    RestConfig(e, o);
  }

  lemma LimitInPhase(e: Engine, c: LimitCmd, hook: HookAnswer, now: int)
    requires InPhase(e)
    ensures InPhase(ProcessLimit(e, c, hook, now))
  {
    hide InPhase, CheckLimit, Collect, RestOnly;
    var v := CheckLimit(e, c, hook, now);
    PhaseState(e);
    if v.Fail? {
      SamePhase(e, Reject(e, c.id, c.user, v.reason));
    } else if e.state.Auction? {
      CollectInPhase(e, c, hook, now);
    } else if CountOrders(e.book) >= e.cfg.nodeCap {
      SamePhase(e, Reject(e, c.id, c.user, PoolExhausted));
    } else {
      RestInPhase(e, c, hook, now);
    }
  }

  lemma PhaseState(e: Engine)
    requires InPhase(e)
    ensures Good(e, []) && e.cfg.auctions && (e.state.PreOpen? || e.state.Auction? || e.state.Halted?)
  {
  }

  /** A stop is let in while halted under the id of a collected order: these are not looked up. */
  predicate StopShares(e: Engine, c: StopCmd, now: int) {
    && e.state.Halted? && CheckStop(e, c, now) == Pass && SumBoth(e.stops, OneStop) < e.cfg.stopCap && !NoStopLevel(e, c.side, c.trigger)
    && InAuction(e, c.id)
  }

  lemma StopInPhase(e: Engine, c: StopCmd, now: int)
    requires InPhase(e)
    ensures InPhase(ProcessStop(e, c, now)) <==> !StopShares(e, c, now)
  {
    hide InPhase, CheckStop, Enlist, NoStopLevel, InAuction, SumStops;
    PhaseState(e);
    var v := CheckStop(e, c, now);
    if v.Fail? {
      SamePhase(e, Reject(e, c.id, c.user, v.reason));
    } else if SumBoth(e.stops, OneStop) >= e.cfg.stopCap {
      SamePhase(e, Reject(e, c.id, c.user, PoolExhausted));
    } else if NoStopLevel(e, c.side, c.trigger) {
      SamePhase(e, Crash(e));
    } else {
      StopPasses(e, c, now);
      EnlistInPhase(e, c, now);
    }
  }

  lemma EnlistInPhase(e: Engine, c: StopCmd, now: int)
    requires InPhase(e) && CheckStop(e, c, now) == Pass
    ensures InPhase(Enlist(e, StopOf(e.cfg, c, e.clock + 1))) <==> !InAuction(e, c.id)
  {
    hide Good, SumLevels, SumStops, Named, Collected, InAuction, AddTo;
    var s := StopOf(e.cfg, c, e.clock + 1);
    var r := Enlist(e, s);
    StopPasses(e, c, now);
    FreeId(e, c.id);
    EnlistGood(e, s);
    LaterNumbers(e.auctionBids, e.clock);
    LaterNumbers(e.auctionAsks, e.clock);
    InAuctionNamed(e, c.id);
    forall id
      ensures IdCount(r, [], id) == IdCount(e, [], id) + if id == s.id then 1 else 0
      ensures Named([], id) == 0
    {
      AddSum(e.stops.Of(s.side), s, IsStop(id));
      NamedSome([], id);
    }
    if InAuction(e, c.id) {
      assert IdCount(r, [], c.id) + Named(r.auctionBids, c.id) + Named(r.auctionAsks, c.id) + Named([], c.id) > 1;
    } else {
      NamedSome(e.auctionBids, c.id);
      NamedSome(e.auctionAsks, c.id);
      forall id
        ensures IdCount(r, [], id) + Named(r.auctionBids, id) + Named(r.auctionAsks, id) + Named([], id) <= 1
      {
        assert IdCount(e, [], id) + Named(e.auctionBids, id) + Named(e.auctionAsks, id) + Named([], id) <= 1;
      }
    }
  }

  lemma StopPasses(e: Engine, c: StopCmd, now: int)
    requires CheckStop(e, c, now) == Pass
    ensures !Holds(e.book, c.id) && !StopHeld(e.stops, c.id) && c.qty > 0 && (e.state.Open? || e.state.Halted?)
  {
    hide SumLevels, FindStop, OverValue;
  }

  // ----- Fewer ids -----

  lemma CancelLess(e: Engine, id: OrderId, user: UserId)
    requires Good(e, [])
    ensures var r := ProcessCancel(e, id, user);
            && Good(r, []) && e.clock == r.clock && r.cfg == e.cfg && r.state == e.state && (forall i :: IdCount(r, [], i) <= IdCount(e, [], i))
            && r.auctionBids == e.auctionBids && r.auctionAsks == e.auctionAsks
  {
    hide Good, Tracked, Ledgered, PositionsAgree, SumLevels, SumStops, Find, FindStop, RemoveId, RemoveStop, InfoAt;
    CancelCommandMaintains(e, id, user);
    GoodBook(e);
    if Find(e.book, id).Found? {
      FoundFacts(e.book, e.clock, id);
      forall i
        ensures IdCount(e.(book := RemoveId(e.book, id)), [], i) <= IdCount(e, [], i)
      {
        RemovedSum(e.book, e.clock, id, HasId(i));
      }
    } else if FindStop(e.stops, id).FoundStop? {
      StopIds(e.stops, id);
      forall i
        ensures SumBoth(RemoveStop(e.stops, id), IsStop(i)) <= SumBoth(e.stops, IsStop(i))
      {
        StopLess(e.stops, id, i);
      }
    }
  }

  lemma StopLess(b: Stops, id: OrderId, i: OrderId)
    ensures SumBoth(RemoveStop(b, id), IsStop(i)) <= SumBoth(b, IsStop(i))
  {
    hide SumStops, RemoveStopFrom, FindStopIn;
    if FindStop(b, id).FoundStop? {
      RemoveStopSum(b.Of(FindStop(b, id).stop.side), id, IsStop(i));
    }
  }

  lemma {:induction false} ExpiryLess(e: Engine, ids: seq<OrderId>)
    requires Good(e, [])
    ensures var r := ExpireOrders(e, ids);
            && Good(r, []) && (forall i :: IdCount(r, [], i) <= IdCount(e, [], i)) && r.clock == e.clock
            && r.auctionBids == e.auctionBids && r.auctionAsks == e.auctionAsks
  {
    hide Good, Tracked, Ledgered, PositionsAgree, SumLevels, SumStops, Find, RemoveId, EventFolds.DepthAfter, Uncrossed, NoSTP;
    if ids != [] {
      var mid, last := ExpireOrders(e, ids[..|ids| - 1]), ids[|ids| - 1];
      ExpiryLess(e, ids[..|ids| - 1]);
      ExpireFacts(mid, last);
      if Find(mid.book, last).Found? {
        GoodBook(mid);
        forall i
          ensures SumBook(RemoveId(mid.book, last), HasId(i)) <= SumBook(mid.book, HasId(i))
        {
          RemovedSum(mid.book, mid.clock, last, HasId(i));
        }
      }
      forall i
        ensures IdCount(ExpireOrder(mid, last), [], i) <= IdCount(mid, [], i) <= IdCount(e, [], i)
      {
      }
    }
  }

  lemma {:induction false} StopExpiryLess(e: Engine, ids: seq<OrderId>)
    ensures var r := ExpireStops(e, ids);
            && (forall i :: IdCount(r, [], i) <= IdCount(e, [], i)) && r.clock == e.clock
            && r.auctionBids == e.auctionBids && r.auctionAsks == e.auctionAsks
  {
    hide SumLevels, SumStops, FindStop, RemoveStop;
    if ids != [] {
      var mid, last := ExpireStops(e, ids[..|ids| - 1]), ids[|ids| - 1];
      StopExpiryLess(e, ids[..|ids| - 1]);
      forall i
        ensures IdCount(ExpireStop(mid, last), [], i) <= IdCount(mid, [], i) <= IdCount(e, [], i)
      {
        StopLess(mid.stops, last, i);
      }
    }
  }

  lemma ExpiryInPhase(e: Engine, orders: seq<OrderId>, stops: seq<OrderId>)
    requires InPhase(e)
    ensures InPhase(ExpireStops(ExpireOrders(e, orders), stops))
  {
    hide InPhase, Good, IdCount, Tracked, Ledgered, PositionsAgree, Uncrossed, NoSTP, ExpiresReserve, NoneRests, ExpireOrders, ExpireStops;
    PhaseState(e);
    var mid := ExpireOrders(e, orders);
    var r := ExpireStops(mid, stops);
    ExpiryMaintains(e, orders, stops);
    ExpiryLess(e, orders);
    StopExpiryLess(mid, stops);
    forall id
      ensures IdCount(r, [], id) <= IdCount(e, [], id)
    {
      assert IdCount(r, [], id) <= IdCount(mid, [], id) <= IdCount(e, [], id);
    }
    LessPhase(e, r);
  }

  /** What ends the phase before clearing, as the code allows: a resume when the state remembered from the last
      halt is not the auction's, and a halted stop that takes the id of a collected order. */
  predicate LeavesPhase(e: Engine, c: Command, now: int) {
    !e.crashed && ((c.AdminResume? && !e.preHalt.Auction?) || (c.PlaceStop? && StopShares(e, c.stop, now)))
  }

  /** Whatever else is submitted before clearing keeps the phase, and nothing less ends it. */
  lemma PhaseKept(e: Engine, c: Command, now: int)
    requires InPhase(e) && !c.ClearAuction?
    ensures InPhase(Process(e, c, now)) <==> !LeavesPhase(e, c, now)
  {
    hide InPhase, ProcessLimit, ProcessStop, ProcessCancel, ExpireOrders, ExpireStops, CheckMarket, Good, StopShares, IdCount;
    PhaseState(e);
    if e.crashed {
      return;
    }
    match c
    case PlaceLimit(l, hook) => LimitInPhase(e, l, hook, now);
    case PlaceMarket(m) => MarketRefused(e, m, now);
    case PlaceStop(s) => StopInPhase(e, s, now);
    case CancelOrder(id, user) =>
      CancelLess(e, id, user);
      LessPhase(e, ProcessCancel(e, id, user));
    case AdminHalt => SamePhase(e, Halt(e, HaltAdmin));
    case AdminResume =>
      ResumeLeaves(e, NoPrice);
      if e.preHalt.Auction? {
        SamePhase(e, ProcessResume(e));
      } else if InPhase(ProcessResume(e)) {
        PhaseState(ProcessResume(e));
      }
    case ExpiryTick(orders, stops) => ExpiryInPhase(e, orders, stops);
    case OpenAuction => SamePhase(e, ProcessOpenAuction(e));
  }

  lemma MarketRefused(e: Engine, c: MarketCmd, now: int)
    requires InPhase(e)
    ensures InPhase(ProcessMarket(e, c, now))
  {
    hide InPhase;
    PhaseState(e);
    SamePhase(e, Reject(e, c.id, c.user, MarketNotOpen));
  }

  /** While halted, an accepted stop keeps the phase exactly when its id is not that of a collected order. */
  lemma HaltedStopExactly(e: Engine, c: StopCmd, now: int)
    requires InPhase(e) && !e.crashed && CheckStop(e, c, now) == Pass && SumBoth(e.stops, OneStop) < e.cfg.stopCap
    requires !NoStopLevel(e, c.side, c.trigger)
    ensures InPhase(Process(e, PlaceStop(c), now)) <==> !InAuction(e, c.id)
  {
    hide InPhase, CheckStop, Enlist, NoStopLevel, InAuction, SumStops;
    EnlistInPhase(e, c, now);
  }

  /** Before the open, in the auction and halted alike: a resume opens the market over the collected orders, and
      clearing then does nothing, exactly when the state remembered from the last halt is not the auction's -
      none was halted yet, or the market was halted twice. */
  lemma ResumeStrandsAuction(e: Engine, c: Clearing, now: int, later: int)
    requires InPhase(e) && !e.crashed
    ensures var r := Process(e, AdminResume, now);
            && (r.state.Open? <==> !e.preHalt.Auction?)
            && (Process(r, ClearAuction(c), later) == r <==> !e.preHalt.Auction?)
  {
    hide InPhase, ProcessResume, ProcessClearAuction, SameBooks;
    PhaseState(e);
    ResumeLeaves(e, c);
    ResumeTakes(e, c, now, later);
  }

  lemma ResumeTakes(e: Engine, c: Clearing, now: int, later: int)
    requires !e.crashed && e.cfg.auctions && ProcessResume(e).cfg == e.cfg && !ProcessResume(e).crashed
    ensures var r := ProcessResume(e); Process(e, AdminResume, now) == r && Process(r, ClearAuction(c), later) == ProcessClearAuction(r, c)
  {
    hide ProcessResume, ProcessClearAuction;
  }

  lemma ResumeLeaves(e: Engine, c: Clearing)
    requires e.state.PreOpen? || e.state.Auction? || e.state.Halted?
    ensures var r := ProcessResume(e);
            && r.state == (if e.preHalt.Auction? then Auction else Open) && SameBooks(e, r) && r.crashed == e.crashed && r.cfg == e.cfg
            && (ProcessClearAuction(r, c) == r <==> !e.preHalt.Auction?)
  {
    hide CarryOver, AuctionSweep.Residual, AuctionSweep.GoodTillCanceled, AuctionSweep.Immediate, AuctionSweep.PairUp, AuctionSweep.Eligible;
  }

  /** What clearing relies on holds throughout the phase. */
  lemma PhaseClearable(e: Engine)
    requires InPhase(e)
    ensures SoundBook(e.book) && Positive(e.auctionBids) && Positive(e.auctionAsks) && Unshared(e.book, e.auctionBids + e.auctionAsks)
  {
    hide SumLevels, Named, Positive, InPriority, WFBook, SoundBook, Numbered;
    GoodBook(e);
    WFSound(e.book, e.clock);
    forall id
      ensures SumBook(e.book, HasId(id)) + Named(e.auctionBids + e.auctionAsks, id) <= 1
    {
      NamedConcat(e.auctionBids, e.auctionAsks, id);
      StopCount(e.stops.sells, id);
      StopCount(e.stops.buys, id);
      NamedSome([], id);
      assert IdCount(e, [], id) + Named(e.auctionBids, id) + Named(e.auctionAsks, id) + Named([], id) <= 1;
    }
  }
}
