/** Over whole runs, cascades included: exactly when the depth feed and the order ledger stay right throughout. */
module EngineExact {
  import opened Domain
  import opened BookSpec
  import opened BookLemmas
  import opened MatchSpec
  import opened MatchScans
  import opened MatchQuantities
  import opened PlaceEffects
  import opened StopSpec
  import opened Circuit
  import opened EngineSpec
  import opened EventFolds
  import opened EngineInvariants
  import opened EngineSteps
  import opened EngineCascade
  import opened EngineCommands
  import opened EngineRuns
  import opened EngineFeed
  import opened EngineTheorems
  import opened EngineTraces

  // ----- Steps that leave depth alone -----

  /** The same book, and a log longer by events that say nothing of depth. */
  ghost predicate Quietly(e: Engine, r: Engine) {
    && r.book == e.book && |e.log| <= |r.log| && r.log[..|e.log|] == e.log
    && forall i :: |e.log| <= i < |r.log| ==> !r.log[i].DepthUpdate?
  }

  lemma {:induction false} NoDepth(known: LevelInfo, es: seq<Event>, side: Side, price: int)
    requires forall i :: 0 <= i < |es| ==> !es[i].DepthUpdate?
    ensures DepthAfter(known, es, side, price) == known
    decreases es
  {
    if es != [] {
      NoDepth(known, es[1..], side, price);
    }
  }

  lemma QuietFeed(e: Engine, r: Engine)
    requires Quietly(e, r)
    ensures FeedAgrees(e) <==> FeedAgrees(r)
  {
    hide DepthAfter, InfoAt;
    var n := |e.log|;
    assert r.log == e.log + r.log[n..];
    forall side: Side, price
      ensures DepthAfter(NoLevel, r.log, side, price) == DepthAfter(NoLevel, e.log, side, price)
    {
      DepthConcat(NoLevel, e.log, r.log[n..], side, price);
      NoDepth(DepthAfter(NoLevel, e.log, side, price), r.log[n..], side, price);
    }
    assert r.book == e.book;
  }

  lemma QuietTwice(e: Engine, m: Engine, r: Engine)
    requires Quietly(e, m) && Quietly(m, r)
    ensures Quietly(e, r)
  {
  }

  lemma HaltQuiet(e: Engine, why: HaltType, price: int, now: int)
    ensures Quietly(e, Halt(e, why)) && Quietly(e, CheckBreaker(e, price, now))
  {
    hide Trips, Recorded;
  }

  // ----- The feed, through a cascade -----

  ghost predicate FeedAfterAll(xs: seq<Entry>) {
    forall i :: 0 <= i < |xs| ==> FeedAgrees(xs[i].After())
  }

  predicate AllSurvive(xs: seq<Entry>) {
    forall i :: 0 <= i < |xs| ==> FeedSurvives(xs[i].before.book, xs[i].order, xs[i].before.cfg.stpDefault)
  }

  lemma FeedParts(a: seq<Entry>, b: seq<Entry>)
    ensures FeedAfterAll(a + b) <==> FeedAfterAll(a) && FeedAfterAll(b)
    ensures AllSurvive(a + b) <==> AllSurvive(a) && AllSurvive(b)
  {
    hide FeedAgrees, FeedSurvives;
    assert forall i :: 0 <= i < |a| ==> (a + b)[i] == a[i];
    assert forall i :: 0 <= i < |b| ==> (a + b)[|a| + i] == b[i];
  }

  /** What one entry does to a right feed, and that it is the whole step. */
  lemma TriggerFeed(e: Engine, s: Stop, rest: seq<Stop>, price: int)
    requires Good(e, [s] + rest) && FeedAgrees(e)
    ensures var xs := TriggerTrace(e, s, rest, price);
            (FeedAfterAll(xs) <==> AllSurvive(xs)) && (AllSurvive(xs) ==> FeedAgrees(Trigger(e, s, price)))
  {
    hide Good, FeedAgrees, FeedSurvives, Enter, SumBook, Admissible;
    var e1 := Announce(e, s, price);
    AnnounceFeed(e, s, price);
    if CountOrders(e.book) >= e.cfg.nodeCap {
      assert Quietly(e, Trigger(e, s, price)) by { RefusedQuietly(e, s, price); }
      QuietFeed(e, Trigger(e, s, price));
    } else {
      TriggerProper(e, s, rest, price);
      var x := Entry(e1, rest, Converted(s, e.clock + 1));
      assert Proper(TriggerTrace(e, s, rest, price)[0]);
      FeedKeptExactly(x.before, x.order, rest);
    }
  }

  lemma RefusedQuietly(e: Engine, s: Stop, price: int)
    requires CountOrders(e.book) >= e.cfg.nodeCap
    ensures Quietly(e, Trigger(e, s, price))
  {
    hide SumBook;
  }

  lemma {:induction false} CheckFeed(e: Engine, p: seq<Stop>, price: int, depth: nat, now: int)
    requires Good(e, p) && FeedAgrees(e) && depth <= e.cfg.maxCascade
    ensures var xs := CheckTrace(e, p, price, depth, now);
            (FeedAfterAll(xs) <==> AllSurvive(xs)) && (AllSurvive(xs) ==> FeedAgrees(CheckStops(e, price, depth, now)))
    decreases e.cfg.maxCascade - depth, 1, 0
  {
    hide Good, Tracked, Ledgered, PositionsAgree, Uncrossed, HaltBudget, TriggerTotal, FeedAgrees, FeedSurvives, FireTrace, FireAll, AllFired, AllUnfired,
      Halt, CheckBreaker, Quietly;
    HaltQuiet(e, HaltCascadeLimit, price, now);
    QuietFeed(e, Halt(e, HaltCascadeLimit));
    if depth < e.cfg.maxCascade {
      var e1 := e.(stops := AllUnfired(e.stops, price));
      var fired := AllFired(e.stops, price);
      FireKeeps(e, p, price);
      FiredQuietly(e, e1);
      QuietFeed(e, e1);
      FireFeed(e1, fired, p, price, depth, now);
      var e2 := FireAll(e1, fired, price, depth, now);
      HaltQuiet(e2, HaltCascadeLimit, price, now);
      QuietFeed(e2, CheckBreaker(e2, price, now));
    }
  }

  lemma FiredQuietly(e: Engine, r: Engine)
    requires r == e.(stops := r.stops)
    ensures Quietly(e, r)
  {
  }

  lemma {:induction false} FireFeed(e: Engine, fired: seq<Stop>, p: seq<Stop>, price: int, depth: nat, now: int)
    requires Good(e, fired + p) && FeedAgrees(e) && depth < e.cfg.maxCascade
    ensures var xs := FireTrace(e, fired, p, price, depth, now);
            (FeedAfterAll(xs) <==> AllSurvive(xs)) && (AllSurvive(xs) ==> FeedAgrees(FireAll(e, fired, price, depth, now)))
    decreases e.cfg.maxCascade - depth, 0, |fired|
  {
    hide Good, FeedAgrees, AllSurvive, FeedAfterAll, Trigger, TriggerTraded, TriggerTrace, CheckStops, CheckTrace, AllProper;
    if fired == [] {
      NoEntries();
    } else {
      var s, rest := fired[0], fired[1..];
      assert fired + p == [s] + (rest + p);
      TriggerProper(e, s, rest + p, price);
      TriggerFeed(e, s, rest + p, price);
      var here, e1 := TriggerTrace(e, s, rest + p, price), Trigger(e, s, price);
      match TriggerTraded(e, s, price)
      case NoTrade =>
        FeedParts(here, FireTrace(e1, rest, p, price, depth, now));
        if AllSurvive(here) {
          FireFeed(e1, rest, p, price, depth, now);
        }
      case LastPrice(q) =>
        var inner := CheckTrace(e1, rest + p, q, depth + 1, now);
        var e2 := CheckStops(e1, q, depth + 1, now);
        var outer := FireTrace(e2, rest, p, price, depth, now);
        FeedParts(inner, outer);
        FeedParts(here, inner + outer);
        CheckProper(e1, rest + p, q, depth + 1, now);
        if AllSurvive(here) {
          CheckFeed(e1, rest + p, q, depth + 1, now);
          if AllSurvive(inner) {
            FireFeed(e2, rest, p, price, depth, now);
          }
        }
    }
  }

  lemma NoEntries()
    ensures FeedAfterAll([]) && AllSurvive([])
  {
  }

  lemma EntryFeed(e: Engine, o: Order, now: int)
    requires Good(e, []) && Admissible(e, o, []) && FeedAgrees(e)
    ensures var xs := EntryTrace(e, o, now);
            (FeedAfterAll(xs) <==> AllSurvive(xs)) && (AllSurvive(xs) ==> FeedAgrees(PlaceAndFollow(e, o, now)))
  {
    hide Good, Admissible, FeedAgrees, FeedSurvives, Enter, CheckTrace, CheckStops, Traded;
    var x := Entry(e, [], o);
    EnterParts(e, o);
    EnterGood(e, o, []);
    FeedKeptExactly(e, o, []);
    OneEntry(x);
    match Traded(Accept(e, o), o)
    case NoTrade => assert [x] + [] == [x];
    case LastPrice(p) =>
      FeedParts([x], CheckTrace(Enter(e, o), [], p, 0, now));
      if AllSurvive([x]) {
        CheckFeed(Enter(e, o), [], p, 0, now);
      }
  }

  lemma OneEntry(x: Entry)
    ensures FeedAfterAll([x]) <==> FeedAgrees(x.After())
    ensures AllSurvive([x]) <==> FeedSurvives(x.before.book, x.order, x.before.cfg.stpDefault)
  {
    hide FeedAgrees, FeedSurvives;
    assert [x][0] == x;
  }

  // ----- The feed, command by command -----

  lemma RestFeed(e: Engine, o: Order)
    requires Good(e, []) && Admissible(e, o, []) && FeedAgrees(e)
    ensures FeedAgrees(RestOnly(Accept(e, o), o))
  {
    hide DepthAfter, OpenAfter, SumEvents, InfoAt, DispositionEvents, Rest, CanRestIn, WFBook, SumLevels, SumStops;
    var r := RestOnly(Accept(e, o), o);
    RestConfig(e, o);
    if CanRestIn(e.book, o, e.cfg.levelCap) {
      RestGood(e, o);
    }
    forall side: Side, price
      ensures DepthAfter(NoLevel, r.log, side, price) == InfoAt(r.book.Of(side), price)
    {
      RestFolds(e, o, "", "", side, price);
      assert DepthAfter(NoLevel, e.log, side, price) == InfoAt(e.book.Of(side), price);
    }
  }

  lemma CancelFeed(e: Engine, id: OrderId)
    requires Good(e, []) && Find(e.book, id).Found? && FeedAgrees(e)
    ensures FeedAgrees(CancelResting(e, Find(e.book, id).order))
  {
    hide Good, DepthAfter, InfoAt, WFBook, Find, RemoveId, WFOrder;
    var o := Find(e.book, id).order;
    GoodBook(e);
    FoundFacts(e.book, e.clock, id);
    var r := CancelResting(e, o);
    var ev := OrderCanceled(o.id, o.user, o.side, o.price, if o.iceberg then o.remain + o.hidden else o.remain, o.filled, UserRequested);
    var dv := DepthUpdate(o.side, o.price, InfoAt(r.book.Of(o.side), o.price));
    assert r.log == (e.log + [ev]) + [dv];
    forall side: Side, price
      ensures DepthAfter(NoLevel, r.log, side, price) == InfoAt(r.book.Of(side), price)
    {
      LogStep(e.log, ev, "", "", side, price);
      LogStep(e.log + [ev], dv, "", "", side, price);
      if side != o.side || price != o.price {
        DepthOff(e.book, e.clock, id, side, price);
      }
      assert DepthAfter(NoLevel, e.log, side, price) == InfoAt(e.book.Of(side), price);
    }
  }

  /** The feed is right after the command and after every order it let in. */
  ghost predicate FeedThrough(e: Engine, c: Command, now: int) {
    FeedAgrees(Process(e, c, now)) && FeedAfterAll(CommandTrace(e, c, now))
  }

  /** No resting order expires, and no order let in breaks the feed. */
  predicate FeedSafe(e: Engine, c: Command, now: int) {
    !ExpiresResting(e, c) && AllSurvive(CommandTrace(e, c, now))
  }

  lemma LimitFeed(e: Engine, c: LimitCmd, hook: HookAnswer, now: int)
    requires Good(e, []) && !e.state.Auction? && FeedAgrees(e) && !e.crashed
    ensures FeedThrough(e, PlaceLimit(c, hook), now) <==> FeedSafe(e, PlaceLimit(c, hook), now)
  {
    hide Good, Admissible, FeedAgrees, FeedAfterAll, AllSurvive, PlaceAndFollow, RestOnly, EntryTrace, CheckLimit, LimitOrder, SumBook, Quietly;
    NoEntries();
    var v := CheckLimit(e, c, hook, now);
    if v.Fail? || CountOrders(e.book) >= e.cfg.nodeCap {
      var reason := if v.Fail? then v.reason else PoolExhausted;
      RejectedQuietly(e, c.id, c.user, reason);
      QuietFeed(e, Reject(e, c.id, c.user, reason));
    } else {
      var o := LimitOrder(e.cfg, c, e.clock + 1);
      LimitAdmissible(e, c, hook, now);
      if e.state.Halted? || e.state.PreOpen? {
        RestFeed(e, o);
      } else {
        EntryFeed(e, o, now);
      }
    }
  }

  lemma RejectedQuietly(e: Engine, id: OrderId, user: UserId, reason: Reason)
    ensures Quietly(e, Reject(e, id, user, reason))
  {
  }

  lemma MarketFeed(e: Engine, c: MarketCmd, now: int)
    requires Good(e, []) && FeedAgrees(e) && !e.crashed
    ensures FeedThrough(e, PlaceMarket(c), now) <==> FeedSafe(e, PlaceMarket(c), now)
  {
    hide Good, Admissible, FeedAgrees, FeedAfterAll, AllSurvive, PlaceAndFollow, EntryTrace, CheckMarket, MarketOrder, SumBook, Quietly;
    NoEntries();
    var v := CheckMarket(e, c);
    if v.Fail? || CountOrders(e.book) >= e.cfg.nodeCap {
      var reason := if v.Fail? then v.reason else PoolExhausted;
      RejectedQuietly(e, c.id, c.user, reason);
      QuietFeed(e, Reject(e, c.id, c.user, reason));
    } else {
      MarketAdmissible(e, c);
      EntryFeed(e, MarketOrder(c, e.clock + 1), now);
    }
  }

  lemma StopQuietly(e: Engine, c: StopCmd, now: int)
    ensures Quietly(e, ProcessStop(e, c, now))
  {
    hide CheckStop, NoStopLevel, SumStops, AddTo;
  }

  lemma StateQuietly(e: Engine)
    ensures Quietly(e, ProcessResume(e))
  {
  }

  lemma CancelCommandFeed(e: Engine, id: OrderId, user: UserId)
    requires Good(e, []) && FeedAgrees(e)
    ensures FeedAgrees(ProcessCancel(e, id, user))
  {
    hide Good, FeedAgrees, Find, FindStop, CancelResting, RemoveStop, Quietly;
    RejectedQuietly(e, id, user, OrderNotFound);
    QuietFeed(e, Reject(e, id, user, OrderNotFound));
    if Find(e.book, id).Found? {
      CancelFeed(e, id);
    } else if FindStop(e.stops, id).FoundStop? {
      PendingQuietly(e, FindStop(e.stops, id).stop);
      QuietFeed(e, CancelPending(e, FindStop(e.stops, id).stop));
    }
  }

  lemma PendingQuietly(e: Engine, s: Stop)
    ensures Quietly(e, CancelPending(e, s))
  {
    hide RemoveStop;
  }

  /** From a right feed, in every self-trade mode: the feed is right through a command and its whole cascade exactly
      when no resting order expires and each order let in passes the scan of the book it meets. */
  lemma CommandFeed(e: Engine, c: Command, now: int)
    requires Good(e, []) && OutOfAuction(e) && (e.cfg.auctions ==> !AuctionCommand(c)) && FeedAgrees(e)
    ensures FeedThrough(e, c, now) <==> FeedSafe(e, c, now)
  {
    hide Good, FeedAgrees, AllSurvive, FeedAfterAll, ProcessLimit, ProcessMarket, ProcessStop, ProcessCancel, ProcessResume, Halt, ExpireOrders, ExpireStops,
      NoneRests, Quietly, EntryTrace, CheckLimit, CheckMarket, SumBook;
    NoEntries();
    if e.crashed {
      return;
    }
    match c
    case PlaceLimit(l, hook) => LimitFeed(e, l, hook, now);
    case PlaceMarket(m) => MarketFeed(e, m, now);
    case PlaceStop(s) =>
      StopQuietly(e, s, now);
      QuietFeed(e, ProcessStop(e, s, now));
    case CancelOrder(id, user) => CancelCommandFeed(e, id, user);
    case AdminHalt =>
      HaltQuiet(e, HaltAdmin, 0, now);
      QuietFeed(e, Halt(e, HaltAdmin));
    case AdminResume =>
      StateQuietly(e);
      QuietFeed(e, ProcessResume(e));
    case ExpiryTick(orders, stops) => TickFeedExactly(e, orders, stops);
    case OpenAuction =>
    case ClearAuction(_) =>
  }

  // ----- The feed, over runs -----

  /** The feed is right before every input, after it, and after every order let in on the way. */
  ghost predicate FeedThroughout(e: Engine, inputs: seq<Input>) {
    FeedAgrees(e) && forall k :: 0 <= k < |inputs| ==> FeedThrough(StateAt(e, inputs, k), inputs[k].cmd, inputs[k].now)
  }

  ghost predicate FeedSafeThroughout(e: Engine, inputs: seq<Input>) {
    forall k :: 0 <= k < |inputs| ==> FeedSafe(StateAt(e, inputs, k), inputs[k].cmd, inputs[k].now)
  }

  lemma NextState(e: Engine, inputs: seq<Input>, k: nat)
    requires k < |inputs|
    ensures StateAt(e, inputs, k + 1) == Process(StateAt(e, inputs, k), inputs[k].cmd, inputs[k].now)
  {
    hide Process;
    var part := inputs[..k + 1];
    assert part[..k] == inputs[..k] && part[k] == inputs[k];
    StateNext(e, part);
  }

  lemma NextFeed(e: Engine, inputs: seq<Input>, k: nat)
    requires Good(e, []) && Continuous(e, inputs) && PositionsAgree(e) && k < |inputs| && FeedAgrees(StateAt(e, inputs, k))
    ensures var s, c, now := StateAt(e, inputs, k), inputs[k].cmd, inputs[k].now; FeedThrough(s, c, now) <==> FeedSafe(s, c, now)
  {
    hide Good, PositionsAgree, FeedAgrees, FeedThrough, FeedSafe;
    RunsStayGood(e, inputs[..k]);
    CommandFeed(StateAt(e, inputs, k), inputs[k].cmd, inputs[k].now);
  }

  ghost predicate ThroughOrSafe(e: Engine, c: Command, now: int) {
    FeedThrough(e, c, now) || FeedSafe(e, c, now)
  }

  lemma {:induction false} FeedUpTo(e: Engine, inputs: seq<Input>, k: nat)
    requires Good(e, []) && Continuous(e, inputs) && PositionsAgree(e) && FeedAgrees(e) && k <= |inputs|
    requires forall j :: 0 <= j < k ==> ThroughOrSafe(StateAt(e, inputs, j), inputs[j].cmd, inputs[j].now)
    ensures FeedAgrees(StateAt(e, inputs, k))
  {
    hide Good, PositionsAgree, OutOfAuction, FeedAgrees, FeedSafe, FeedAfterAll, Process, CommandTrace;
    if k > 0 {
      FeedUpTo(e, inputs, k - 1);
      NextFeed(e, inputs, k - 1);
      NextState(e, inputs, k - 1);
      assert FeedThrough(StateAt(e, inputs, k - 1), inputs[k - 1].cmd, inputs[k - 1].now);
    } else {
      assert inputs[..0] == [];
    }
  }

  /** Over any run, in every self-trade mode: the depth feed reproduces the book throughout - after every command and
      after every order let in, in mid-cascade too - exactly when no resting order expires and every order let in
      passes the scan of the book it meets. */
  lemma RunsFeedExactly(e: Engine, inputs: seq<Input>)
    requires Good(e, []) && Continuous(e, inputs) && PositionsAgree(e) && FeedAgrees(e)
    ensures FeedThroughout(e, inputs) <==> FeedSafeThroughout(e, inputs)
  {
    hide Good, PositionsAgree, OutOfAuction, FeedAgrees, FeedThrough, FeedSafe, StateAt;
    if FeedThroughout(e, inputs) || FeedSafeThroughout(e, inputs) {
      forall k | 0 <= k < |inputs|
        ensures FeedThrough(StateAt(e, inputs, k), inputs[k].cmd, inputs[k].now) && FeedSafe(StateAt(e, inputs, k), inputs[k].cmd, inputs[k].now)
      {
        FeedUpTo(e, inputs, k);
        NextFeed(e, inputs, k);
      }
    }
  }

  // ----- The ledger -----

  /** After each of these entries every order is accounted for. */
  ghost predicate LedgerAfterAll(xs: seq<Entry>) {
    forall i :: 0 <= i < |xs| ==> LedgerAgrees(xs[i].After(), xs[i].pending)
  }

  lemma LedgerParts(a: seq<Entry>, b: seq<Entry>)
    requires LedgerAfterAll(a) && LedgerAfterAll(b)
    ensures LedgerAfterAll(a + b)
  {
  }

  lemma TriggerLedger(e: Engine, s: Stop, rest: seq<Stop>, price: int)
    requires Good(e, [s] + rest) && Ledgered(e, [s] + rest)
    ensures LedgerAfterAll(TriggerTrace(e, s, rest, price)) && Ledgered(Trigger(e, s, price), rest)
  {
    hide Good, Tracked, PositionsAgree, Uncrossed, HaltBudget, TriggerTotal, LedgerAgrees, NoSTP, Enter, SumBook;
    TriggerKeeps(e, s, rest, price);
  }

  lemma {:induction false} CheckLedger(e: Engine, p: seq<Stop>, price: int, depth: nat, now: int)
    requires Good(e, p) && Ledgered(e, p) && depth <= e.cfg.maxCascade
    ensures LedgerAfterAll(CheckTrace(e, p, price, depth, now)) && Ledgered(CheckStops(e, price, depth, now), p)
    decreases e.cfg.maxCascade - depth, 1, 0
  {
    hide Good, Tracked, Ledgered, PositionsAgree, Uncrossed, HaltBudget, TriggerTotal, LedgerAfterAll, FireTrace, AllFired, AllUnfired, CheckStops;
    CascadeKeeps(e, p, price, depth, now);
    NoLedgerEntries();
    if depth < e.cfg.maxCascade {
      FireKeeps(e, p, price);
      FireLedger(e.(stops := AllUnfired(e.stops, price)), AllFired(e.stops, price), p, price, depth, now);
    }
  }

  lemma NoLedgerEntries()
    ensures LedgerAfterAll([])
  {
  }

  lemma {:induction false} FireLedger(e: Engine, fired: seq<Stop>, p: seq<Stop>, price: int, depth: nat, now: int)
    requires Good(e, fired + p) && Ledgered(e, fired + p) && depth < e.cfg.maxCascade
    ensures LedgerAfterAll(FireTrace(e, fired, p, price, depth, now))
    decreases e.cfg.maxCascade - depth, 0, |fired|
  {
    hide Good, Ledgered, LedgerAfterAll, Trigger, TriggerTraded, TriggerTrace, CheckStops, CheckTrace, AllProper;
    NoLedgerEntries();
    if fired != [] {
      var s, rest := fired[0], fired[1..];
      assert fired + p == [s] + (rest + p);
      TriggerProper(e, s, rest + p, price);
      TriggerLedger(e, s, rest + p, price);
      var here, e1 := TriggerTrace(e, s, rest + p, price), Trigger(e, s, price);
      match TriggerTraded(e, s, price)
      case NoTrade =>
        FireLedger(e1, rest, p, price, depth, now);
        LedgerParts(here, FireTrace(e1, rest, p, price, depth, now));
      case LastPrice(q) =>
        var inner := CheckTrace(e1, rest + p, q, depth + 1, now);
        var e2 := CheckStops(e1, q, depth + 1, now);
        var outer := FireTrace(e2, rest, p, price, depth, now);
        CheckProper(e1, rest + p, q, depth + 1, now);
        CheckLedger(e1, rest + p, q, depth + 1, now);
        FireLedger(e2, rest, p, price, depth, now);
        LedgerParts(inner, outer);
        LedgerParts(here, inner + outer);
    }
  }

  /** The entry itself decides: what its trades set off has no reserve to lose. */
  lemma EntryLedger(e: Engine, o: Order, now: int)
    requires Good(e, []) && Admissible(e, o, []) && Ledgered(e, []) && o.stp == STPDisabled && (o.hidden == 0 || o.iceberg)
    ensures LedgerAfterAll(EntryTrace(e, o, now)) <==> !DropsReserve(e, o)
  {
    hide Good, Admissible, Ledgered, LedgerAgrees, DropsReserve, Enter, CheckTrace, CheckStops, Traded;
    var x := Entry(e, [], o);
    EnterParts(e, o);
    EnterGood(e, o, []);
    EnterLedgerExactly(e, o, []);
    assert EntryTrace(e, o, now)[0] == x;
    if !DropsReserve(e, o) {
      LedgerBefore(e);
      EnterLedgered(e, o, []);
      OneLedger(x);
      match Traded(Accept(e, o), o) {
        case NoTrade => assert [x] + [] == [x];
        case LastPrice(p) =>
          CheckLedger(Enter(e, o), [], p, 0, now);
          LedgerParts([x], CheckTrace(Enter(e, o), [], p, 0, now));
      }
    } else {
      assert !LedgerAgrees(x.After(), x.pending);
    }
  }

  lemma LedgerBefore(e: Engine)
    requires Ledgered(e, [])
    ensures NoSTP(e, []) && SumBook(e.book, Unflagged) == 0 && forall id :: OpenAfter(0, e.log, id) == OpenQty(e, [], id)
  {
  }

  lemma OneLedger(x: Entry)
    requires LedgerAgrees(x.After(), x.pending)
    ensures LedgerAfterAll([x])
  {
    hide LedgerAgrees;
  }

  /** Expiring stops leaves every order as much, or as little, accounted for as before. */
  lemma {:induction false} StopExpiryBalanced(e: Engine, ids: seq<OrderId>, id: OrderId)
    requires Good(e, [])
    ensures var r := ExpireStops(e, ids);
            Good(r, []) && OpenAfter(0, r.log, id) - OpenQty(r, [], id) == OpenAfter(0, e.log, id) - OpenQty(e, [], id)
  {
    hide Good, Tracked, Ledgered, PositionsAgree, OpenAfter, OpenQty, ExpireStop;
    if ids != [] {
      var mid := ExpireStops(e, ids[..|ids| - 1]);
      StopExpiryBalanced(e, ids[..|ids| - 1], id);
      ExpireStopMaintains(mid, ids[|ids| - 1]);
      OneStopBalanced(mid, ids[|ids| - 1], id);
    }
  }

  lemma OneStopBalanced(e: Engine, i: OrderId, id: OrderId)
    requires Good(e, [])
    ensures var r := ExpireStop(e, i);
            OpenAfter(0, r.log, id) - OpenQty(r, [], id) == OpenAfter(0, e.log, id) - OpenQty(e, [], id)
  {
    hide OpenAfter, SumBook, SumBoth, SumStops, RemoveStop, FindStop, WFStops, WFBook, IdCount;
    if FindStop(e.stops, i).FoundStop? {
      var s := FindStop(e.stops, i).stop;
      FoundStopFacts(e.stops, e.clock, i, StopOpen(id));
      LogStep(e.log, OrderExpired(s.id, s.user, s.side, s.trigger, s.qty), id, "", Bid, 0);
    }
  }

  lemma TickLedger(e: Engine, orders: seq<OrderId>, stops: seq<OrderId>)
    requires Good(e, []) && LedgerAgrees(e, [])
    ensures LedgerAgrees(ExpireStops(ExpireOrders(e, orders), stops), []) <==> !ExpiresReserve(e, orders)
  {
    hide Good, ExpireOrders, ExpireStops, ExpiresReserve, OpenAfter, OpenQty, Tracked, Ledgered, PositionsAgree, Uncrossed, NoSTP;
    var mid := ExpireOrders(e, orders);
    var r := ExpireStops(mid, stops);
    ExpiryLedgerExactly(e, orders);
    ExpireAll(e, orders);
    forall id
      ensures OpenAfter(0, r.log, id) - OpenQty(r, [], id) == OpenAfter(0, mid.log, id) - OpenQty(mid, [], id)
    {
      StopExpiryBalanced(mid, stops, id);
    }
    if LedgerAgrees(r, []) {
      forall id
        ensures OpenAfter(0, mid.log, id) == OpenQty(mid, [], id)
      {
        assert OpenAfter(0, r.log, id) == OpenQty(r, [], id);
      }
    }
  }

  /** Every order is accounted for after the command and after every order it let in. */
  ghost predicate LedgerThrough(e: Engine, c: Command, now: int) {
    Ledgered(Process(e, c, now), []) && LedgerAfterAll(CommandTrace(e, c, now))
  }

  predicate LedgerSafe(e: Engine, c: Command, now: int) {
    e.crashed || !LosesReserve(e, c, now)
  }

  lemma LimitLedger(e: Engine, c: LimitCmd, hook: HookAnswer, now: int)
    requires Good(e, []) && !e.state.Auction? && Ledgered(e, []) && c.stp == STPDisabled && !e.crashed
    ensures LedgerAfterAll(CommandTrace(e, PlaceLimit(c, hook), now)) <==> LedgerSafe(e, PlaceLimit(c, hook), now)
  {
    hide Good, Admissible, Ledgered, LedgerAfterAll, EntryTrace, CheckLimit, LimitOrder, SumBook, DropsReserve;
    NoLedgerEntries();
    if CheckLimit(e, c, hook, now).Pass? && CountOrders(e.book) < e.cfg.nodeCap {
      LimitAdmissible(e, c, hook, now);
      if !e.state.Halted? && !e.state.PreOpen? {
        EntryLedger(e, LimitOrder(e.cfg, c, e.clock + 1), now);
      }
    }
  }

  lemma MarketLedger(e: Engine, c: MarketCmd, now: int)
    requires Good(e, []) && Ledgered(e, []) && c.stp == STPDisabled && !e.crashed
    ensures LedgerAfterAll(CommandTrace(e, PlaceMarket(c), now))
  {
    hide Good, Admissible, Ledgered, LedgerAfterAll, EntryTrace, CheckMarket, SumBook, FillsAtOnce;
    NoLedgerEntries();
    if CheckMarket(e, c).Pass? && CountOrders(e.book) < e.cfg.nodeCap {
      MarketAdmissible(e, c);
      EntryLedger(e, MarketOrder(c, e.clock + 1), now);
    }
  }

  /** Without self-trade modes every order is accounted for through a command and its whole cascade exactly when it
      loses no reserve, which is decided on the market before it. */
  lemma CommandLedger(e: Engine, c: Command, now: int)
    requires Good(e, []) && OutOfAuction(e) && (e.cfg.auctions ==> !AuctionCommand(c)) && Ledgered(e, []) && PlainCommand(c)
    ensures LedgerThrough(e, c, now) <==> LedgerSafe(e, c, now)
  {
    hide Good, Ledgered, LedgerAfterAll, CommandTrace, LosesReserve, Tracked, PositionsAgree, Uncrossed, Handle;
    NoLedgerEntries();
    NoTrace(e, c, now);
    CommandMaintains(e, c, now);
    if !e.crashed {
      match c
      case PlaceLimit(l, hook) => LimitLedger(e, l, hook, now);
      case PlaceMarket(m) =>
        MarketLedger(e, m, now);
        NothingLost(e, c, now);
      case ExpiryTick(orders, stops) => TickLost(e, orders, stops, now);
      case _ => NothingLost(e, c, now);
    }
  }

  lemma NoTrace(e: Engine, c: Command, now: int)
    ensures e.crashed || !Trades(c) ==> CommandTrace(e, c, now) == []
    ensures e.crashed ==> Process(e, c, now) == e
  {
  }

  lemma NothingLost(e: Engine, c: Command, now: int)
    requires !c.PlaceLimit? && !c.ExpiryTick?
    ensures !LosesReserve(e, c, now)
  {
  }

  lemma TickLost(e: Engine, orders: seq<OrderId>, stops: seq<OrderId>, now: int)
    requires Good(e, []) && Ledgered(e, []) && !e.crashed
    ensures Ledgered(Process(e, ExpiryTick(orders, stops), now), []) ==> !LosesReserve(e, ExpiryTick(orders, stops), now)
  {
    hide Good, ExpireOrders, ExpireStops, ExpiresReserve, LedgerAgrees, NoSTP;
    TickLedger(e, orders, stops);
  }

  // ----- The ledger, over runs -----

  ghost predicate LedgerThroughout(e: Engine, inputs: seq<Input>) {
    forall k :: 0 <= k < |inputs| ==> LedgerThrough(StateAt(e, inputs, k), inputs[k].cmd, inputs[k].now)
  }

  ghost predicate LedgerSafeThroughout(e: Engine, inputs: seq<Input>) {
    forall k :: 0 <= k < |inputs| ==> LedgerSafe(StateAt(e, inputs, k), inputs[k].cmd, inputs[k].now)
  }

  ghost predicate LedgerStep(e: Engine, c: Command, now: int) {
    LedgerThrough(e, c, now) || LedgerSafe(e, c, now)
  }

  lemma NextLedger(e: Engine, inputs: seq<Input>, k: nat)
    requires Good(e, []) && Continuous(e, inputs) && PositionsAgree(e) && k < |inputs| && Ledgered(StateAt(e, inputs, k), [])
    requires PlainCommand(inputs[k].cmd)
    ensures var s, c, now := StateAt(e, inputs, k), inputs[k].cmd, inputs[k].now; LedgerThrough(s, c, now) <==> LedgerSafe(s, c, now)
  {
    hide Good, PositionsAgree, Ledgered, LedgerThrough, LedgerSafe;
    RunsStayGood(e, inputs[..k]);
    CommandLedger(StateAt(e, inputs, k), inputs[k].cmd, inputs[k].now);
  }

  lemma {:induction false} LedgerUpTo(e: Engine, inputs: seq<Input>, k: nat)
    requires Good(e, []) && Continuous(e, inputs) && PositionsAgree(e) && Ledgered(e, []) && k <= |inputs|
    requires forall j :: 0 <= j < |inputs| ==> PlainCommand(inputs[j].cmd)
    requires forall j :: 0 <= j < k ==> LedgerStep(StateAt(e, inputs, j), inputs[j].cmd, inputs[j].now)
    ensures Ledgered(StateAt(e, inputs, k), [])
  {
    hide Good, PositionsAgree, OutOfAuction, Ledgered, LedgerSafe, LedgerAfterAll, Process, CommandTrace, PlainCommand;
    if k > 0 {
      LedgerUpTo(e, inputs, k - 1);
      NextLedger(e, inputs, k - 1);
      NextState(e, inputs, k - 1);
      assert LedgerThrough(StateAt(e, inputs, k - 1), inputs[k - 1].cmd, inputs[k - 1].now);
    } else {
      assert inputs[..0] == [];
    }
  }

  /** Over any run without self-trade modes: every order is accounted for throughout - after every command and after
      every order let in, in mid-cascade too - exactly when no command loses a reserve. */
  lemma RunsLedgerExactly(e: Engine, inputs: seq<Input>)
    requires Good(e, []) && Continuous(e, inputs) && PositionsAgree(e) && Ledgered(e, [])
    requires forall j :: 0 <= j < |inputs| ==> PlainCommand(inputs[j].cmd)
    ensures LedgerThroughout(e, inputs) <==> LedgerSafeThroughout(e, inputs)
  {
    hide Good, PositionsAgree, OutOfAuction, Ledgered, LedgerThrough, LedgerSafe, StateAt, PlainCommand;
    if LedgerThroughout(e, inputs) || LedgerSafeThroughout(e, inputs) {
      forall k | 0 <= k < |inputs|
        ensures LedgerThrough(StateAt(e, inputs, k), inputs[k].cmd, inputs[k].now)
        ensures LedgerSafe(StateAt(e, inputs, k), inputs[k].cmd, inputs[k].now)
      {
        LedgerUpTo(e, inputs, k);
        NextLedger(e, inputs, k);
      }
    }
  }
}
