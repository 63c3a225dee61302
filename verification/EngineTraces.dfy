/** Every order that enters the book in a run, those of triggered stops in mid-cascade included, and what
    holds at each of these moments. */
module EngineTraces {
  import opened Domain
  import opened BookSpec
  import opened BookLemmas
  import opened MatchSpec
  import opened MatchTheorems
  import opened MatchQuantities
  import opened MatchPriority
  import opened PlaceEffects
  import opened StopSpec
  import Circuit
  import opened EngineSpec
  import opened EventFolds
  import opened EngineInvariants
  import opened EngineSteps
  import opened EngineCascade
  import opened EngineCommands
  import opened EngineRuns
  import opened EngineFeed
  import opened EngineTheorems

  // ----- The orders that enter -----

  /** `order` enters the market as it is then, with these triggered stops still to be placed. */
  datatype Entry = Entry(before: Engine, pending: seq<Stop>, order: Order) {
    function After(): Engine {
      Enter(before, order)
    }
  }

  /** The order one triggered stop turns into, if a node is free for it. */
  function TriggerTrace(e: Engine, s: Stop, rest: seq<Stop>, price: int): seq<Entry> {
    if CountOrders(e.book) >= e.cfg.nodeCap then [] else [Entry(Announce(e, s, price), rest, Converted(s, e.clock + 1))]
  }

  function CheckTrace(e: Engine, p: seq<Stop>, price: int, depth: nat, now: int): seq<Entry>
    requires depth <= e.cfg.maxCascade
    decreases e.cfg.maxCascade - depth, 1, 0
  {
    if depth >= e.cfg.maxCascade then []
    else FireTrace(e.(stops := AllUnfired(e.stops, price)), AllFired(e.stops, price), p, price, depth, now)
  }

  function FireTrace(e: Engine, fired: seq<Stop>, p: seq<Stop>, price: int, depth: nat, now: int): seq<Entry>
    requires depth < e.cfg.maxCascade
    decreases e.cfg.maxCascade - depth, 0, |fired|
  {
    if fired == [] then []
    else
      var e1 := Trigger(e, fired[0], price);
      var here := TriggerTrace(e, fired[0], fired[1..] + p, price);
      match TriggerTraded(e, fired[0], price)
      case NoTrade => here + FireTrace(e1, fired[1..], p, price, depth, now)
      case LastPrice(q) =>
        here + (CheckTrace(e1, fired[1..] + p, q, depth + 1, now)
                + FireTrace(CheckStops(e1, q, depth + 1, now), fired[1..], p, price, depth, now))
  }

  /** An order let in, and every order its trades set off. */
  function EntryTrace(e: Engine, o: Order, now: int): seq<Entry> {
    [Entry(e, [], o)] + match Traded(Accept(e, o), o)
                        case NoTrade => []
                        case LastPrice(p) => CheckTrace(Enter(e, o), [], p, 0, now)
  }

  /** The orders one command lets into a matching market. */
  function CommandTrace(e: Engine, c: Command, now: int): seq<Entry> {
    if e.crashed || CountOrders(e.book) >= e.cfg.nodeCap then []
    else
      match c
      case PlaceLimit(l, hook) =>
        if CheckLimit(e, l, hook, now).Fail? || e.state.Auction? || e.state.Halted? || e.state.PreOpen? then []
        else EntryTrace(e, LimitOrder(e.cfg, l, e.clock + 1), now)
      case PlaceMarket(m) => if CheckMarket(e, m).Fail? then [] else EntryTrace(e, MarketOrder(m, e.clock + 1), now)
      case _ => []
  }

  // ----- Each enters a good market -----

  ghost predicate Proper(x: Entry) {
    Good(x.before, x.pending) && Admissible(x.before, x.order, x.pending)
  }

  ghost predicate AllProper(xs: seq<Entry>) {
    forall i :: 0 <= i < |xs| ==> Proper(xs[i])
  }

  lemma ProperParts(a: seq<Entry>, b: seq<Entry>)
    requires AllProper(a) && AllProper(b)
    ensures AllProper(a + b)
  {
  }

  lemma TriggerProper(e: Engine, s: Stop, rest: seq<Stop>, price: int)
    requires Good(e, [s] + rest)
    ensures AllProper(TriggerTrace(e, s, rest, price)) && Good(Trigger(e, s, price), rest) && Trigger(e, s, price).cfg == e.cfg
  {
    hide SumLevels, SumStops, WFBook, WFStops, Announce, Trigger;
    AnnounceGood(e, s, rest, price);
    AnnounceParts(e, s, price);
    TriggerKeeps(e, s, rest, price);
  }

  lemma {:induction false} CheckProper(e: Engine, p: seq<Stop>, price: int, depth: nat, now: int)
    requires Good(e, p) && depth <= e.cfg.maxCascade
    ensures AllProper(CheckTrace(e, p, price, depth, now)) && Good(CheckStops(e, price, depth, now), p)
    decreases e.cfg.maxCascade - depth, 1, 0
  {
    hide Good, Tracked, Ledgered, PositionsAgree, Uncrossed, HaltBudget, TriggerTotal, AllProper, FireTrace, AllFired, AllUnfired, CheckStops;
    CascadeKeeps(e, p, price, depth, now);
    NoneProper();
    if depth < e.cfg.maxCascade {
      FireKeeps(e, p, price);
      FireProper(e.(stops := AllUnfired(e.stops, price)), AllFired(e.stops, price), p, price, depth, now);
    }
  }

  lemma NoneProper()
    ensures AllProper([])
  {
  }

  lemma {:induction false} FireProper(e: Engine, fired: seq<Stop>, p: seq<Stop>, price: int, depth: nat, now: int)
    requires Good(e, fired + p) && depth < e.cfg.maxCascade
    ensures AllProper(FireTrace(e, fired, p, price, depth, now))
    decreases e.cfg.maxCascade - depth, 0, |fired|
  {
    hide Good, AllProper, Trigger, TriggerTraded, TriggerTrace, CheckStops, CheckTrace;
    NoneProper();
    if fired != [] {
      var s, rest := fired[0], fired[1..];
      assert fired + p == [s] + (rest + p);
      TriggerProper(e, s, rest + p, price);
      var here, e1 := TriggerTrace(e, s, rest + p, price), Trigger(e, s, price);
      match TriggerTraded(e, s, price)
      case NoTrade =>
        FireProper(e1, rest, p, price, depth, now);
        ProperParts(here, FireTrace(e1, rest, p, price, depth, now));
      case LastPrice(q) =>
        var inner := CheckTrace(e1, rest + p, q, depth + 1, now);
        var e2 := CheckStops(e1, q, depth + 1, now);
        CheckProper(e1, rest + p, q, depth + 1, now);
        FireProper(e2, rest, p, price, depth, now);
        ProperParts(inner, FireTrace(e2, rest, p, price, depth, now));
        ProperParts(here, inner + FireTrace(e2, rest, p, price, depth, now));
    }
  }

  lemma EntryProper(e: Engine, o: Order, now: int)
    requires Good(e, []) && Admissible(e, o, [])
    ensures AllProper(EntryTrace(e, o, now))
  {
    hide Good, Admissible, AllProper, Enter, CheckTrace, Traded;
    EnterParts(e, o);
    EnterGood(e, o, []);
    OneProper(Entry(e, [], o));
    NoneProper();
    match Traded(Accept(e, o), o)
    case NoTrade => ProperParts([Entry(e, [], o)], []);
    case LastPrice(p) =>
      CheckProper(Enter(e, o), [], p, 0, now);
      ProperParts([Entry(e, [], o)], CheckTrace(Enter(e, o), [], p, 0, now));
  }

  lemma OneProper(x: Entry)
    requires Proper(x)
    ensures AllProper([x])
  {
  }

  /** Every order that a command lets in, directly or in its cascade, enters a good market under a new number. */
  lemma CommandProper(e: Engine, c: Command, now: int)
    requires Good(e, [])
    ensures AllProper(CommandTrace(e, c, now))
  {
    hide Good, AllProper, Admissible, EntryTrace, CheckLimit, CheckMarket, SumBook;
    NoneProper();
    if !e.crashed && CountOrders(e.book) < e.cfg.nodeCap {
      match c
      case PlaceLimit(l, hook) =>
        if CheckLimit(e, l, hook, now).Pass? {
          LimitAdmissible(e, l, hook, now);
          EntryProper(e, LimitOrder(e.cfg, l, e.clock + 1), now);
        }
      case PlaceMarket(m) =>
        if CheckMarket(e, m).Pass? {
          MarketAdmissible(e, m);
          EntryProper(e, MarketOrder(m, e.clock + 1), now);
        }
      case _ =>
    }
  }

  // ----- Price-time priority, in mid-cascade too -----

  /** Every order that enters in a run - submitted, or from a stop triggered in the middle of a cascade - is
      matched by serving the opposite side strictly by best price, then smallest sequence number. */
  lemma EveryEntryServesPriority(e: Engine, inputs: seq<Input>, k: nat, i: nat)
    requires Good(e, []) && Continuous(e, inputs) && PositionsAgree(e) && k < |inputs|
    requires i < |CommandTrace(StateAt(e, inputs, k), inputs[k].cmd, inputs[k].now)|
    ensures var x := CommandTrace(StateAt(e, inputs, k), inputs[k].cmd, inputs[k].now)[i];
            var m := Start(x.order, x.before.book, x.before.clock + 1);
            Flatten(Run(m, x.before.cfg.stpDefault)) == FlatRun(Flatten(m), x.before.cfg.stpDefault)
  {
    hide RunAll, Flatten, FlatRun, Run, PositionsAgree, OutOfAuction, CommandTrace, Good, Admissible;
    RunsStayGood(e, inputs[..k]);
    CommandProper(StateAt(e, inputs, k), inputs[k].cmd, inputs[k].now);
    var x := CommandTrace(StateAt(e, inputs, k), inputs[k].cmd, inputs[k].now)[i];
    assert Proper(x);
    ServesPriority(x.before, x.pending, x.order);
  }

  /** From any good market, with or without triggered stops pending. */
  lemma ServesPriority(e: Engine, p: seq<Stop>, o: Order)
    requires Good(e, p)
    ensures var m := Start(o, e.book, e.clock + 1);
            Flatten(Run(m, e.cfg.stpDefault)) == FlatRun(Flatten(m), e.cfg.stpDefault)
  {
    LaterBook(e.book, e.clock, e.clock + 1);
    hide Flatten, FlatRun, Run;
    RunRefinesFlat(Start(o, e.book, e.clock + 1), e.cfg.stpDefault);
  }

  // ----- The entries are the acceptances -----

  /** The acceptances among these events, in order. */
  function AcceptedIn(es: seq<Event>): seq<Event> {
    if es == [] then []
    else
      var r, ev := AcceptedIn(es[..|es| - 1]), es[|es| - 1];
      if ev.OrderAccepted? then r + [ev] else r
  }

  lemma {:induction false} AcceptedConcat(a: seq<Event>, b: seq<Event>)
    ensures AcceptedIn(a + b) == AcceptedIn(a) + AcceptedIn(b)
  {
    if b == [] {
      assert a + b == a && AcceptedIn(a) + [] == AcceptedIn(a);
    } else {
      assert (a + b)[..|a + b| - 1] == a + b[..|b| - 1];
      AcceptedConcat(a, b[..|b| - 1]);
    }
  }

  ghost predicate NoneAccepted(es: seq<Event>) {
    forall i :: 0 <= i < |es| ==> !es[i].OrderAccepted?
  }

  lemma {:induction false} AcceptedNone(es: seq<Event>)
    requires NoneAccepted(es)
    ensures AcceptedIn(es) == []
  {
    if es != [] {
      AcceptedNone(es[..|es| - 1]);
    }
  }

  lemma {:induction false} FillsAcceptNone(fills: seq<Fill>, cancels: seq<STPCanceled>)
    ensures NoneAccepted(FillsLog(fills)) && NoneAccepted(STPLog(cancels))
    decreases |fills| + |cancels|
  {
    if fills != [] {
      FillsAcceptNone(fills[..|fills| - 1], cancels);
    } else if cancels != [] {
      FillsAcceptNone(fills, cancels[..|cancels| - 1]);
    }
  }

  lemma DispositionAcceptsNone(b: Book, o: Order, fills: seq<Fill>, d: Disposition)
    ensures NoneAccepted(DispositionEvents(b, o, fills, d))
  {
    hide Find, InfoAt, TotalQty;
  }

  /** The event under which an entry's order was let in. */
  function AcceptanceOf(x: Entry): Event {
    var o := x.order;
    OrderAccepted(o.id, o.user, o.side, o.typ, 0, o.price, o.origQty, o.display, o.tif, o.seqNum)
  }

  function Acceptances(xs: seq<Entry>): seq<Event> {
    if xs == [] then [] else [AcceptanceOf(xs[0])] + Acceptances(xs[1..])
  }

  lemma {:induction false} AcceptancesConcat(a: seq<Entry>, b: seq<Entry>)
    ensures Acceptances(a + b) == Acceptances(a) + Acceptances(b)
  {
    if a == [] {
      assert a + b == b;
    } else {
      assert (a + b)[0] == a[0] && (a + b)[1..] == a[1..] + b;
      AcceptancesConcat(a[1..], b);
    }
  }

  lemma EnterAccepts(e: Engine, o: Order, p: seq<Stop>)
    ensures AcceptedIn(Enter(e, o).log) == AcceptedIn(e.log) + [AcceptanceOf(Entry(e, p, o))]
  {
    hide AcceptedIn, FillsLog, STPLog, DispositionEvents, Place, NoneAccepted;
    var e1 := Accept(e, o);
    var out := Outcomes(e1, o);
    EnterLog(e, o);
    var a, b, c := FillsLog(out.fills), STPLog(out.cancels), DispositionEvents(out.book, o, out.fills, out.disposition);
    AcceptedConcat(e1.log + a + b, c);
    AcceptedConcat(e1.log + a, b);
    AcceptedConcat(e1.log, a);
    AcceptedConcat(e.log, [AcceptanceOf(Entry(e, p, o))]);
    FillsAcceptNone(out.fills, out.cancels);
    DispositionAcceptsNone(out.book, o, out.fills, out.disposition);
    AcceptedNone(a);
    AcceptedNone(b);
    AcceptedNone(c);
    OneAcceptance(AcceptanceOf(Entry(e, p, o)));
  }

  lemma OneAcceptance(ev: Event)
    ensures AcceptedIn([ev]) == if ev.OrderAccepted? then [ev] else []
  {
    assert [ev][..0] == [];
  }

  /** Nothing but the log's last event, no acceptance. */
  lemma OtherEvent(log: seq<Event>, ev: Event)
    requires !ev.OrderAccepted?
    ensures AcceptedIn(log + [ev]) == AcceptedIn(log)
  {
    AcceptedConcat(log, [ev]);
    OneAcceptance(ev);
  }

  lemma HaltAccepts(e: Engine, why: HaltType, price: int, now: int)
    ensures AcceptedIn(Halt(e, why).log) == AcceptedIn(e.log) && AcceptedIn(CheckBreaker(e, price, now).log) == AcceptedIn(e.log)
  {
    hide AcceptedIn, Circuit.Trips, Circuit.Recorded;
    OtherEvent(e.log, MarketHalted(why));
    OtherEvent(e.log, MarketHalted(HaltCircuitBreaker));
  }

  lemma TriggerAccepts(e: Engine, s: Stop, rest: seq<Stop>, price: int)
    ensures AcceptedIn(Trigger(e, s, price).log) == AcceptedIn(e.log) + Acceptances(TriggerTrace(e, s, rest, price))
  {
    hide AcceptedIn, Enter, SumBook;
    var e1 := Announce(e, s, price);
    OtherEvent(e.log, StopTriggered(s.id, s.user, price, s.typ, s.limit));
    if CountOrders(e.book) >= e.cfg.nodeCap {
      OtherEvent(e1.log, OrderRejected(s.id, s.user, PoolExhausted));
      assert AcceptedIn(e.log) + [] == AcceptedIn(e.log);
    } else {
      var x := Entry(e1, rest, Converted(s, e.clock + 1));
      EnterAccepts(e1, x.order, rest);
      assert [x][1..] == [];
      assert Acceptances([x]) == [AcceptanceOf(x)] + Acceptances([]);
    }
  }

  lemma {:induction false} CheckAccepts(e: Engine, p: seq<Stop>, price: int, depth: nat, now: int)
    requires depth <= e.cfg.maxCascade
    ensures AcceptedIn(CheckStops(e, price, depth, now).log) == AcceptedIn(e.log) + Acceptances(CheckTrace(e, p, price, depth, now))
    decreases e.cfg.maxCascade - depth, 1, 0
  {
    hide AcceptedIn, FireTrace, FireAll, AllFired, AllUnfired, Halt, CheckBreaker;
    HaltAccepts(e, HaltCascadeLimit, price, now);
    if depth < e.cfg.maxCascade {
      var e1 := e.(stops := AllUnfired(e.stops, price));
      FireAccepts(e1, AllFired(e.stops, price), p, price, depth, now);
      HaltAccepts(FireAll(e1, AllFired(e.stops, price), price, depth, now), HaltCascadeLimit, price, now);
    } else {
      assert AcceptedIn(e.log) + [] == AcceptedIn(e.log);
    }
  }

  lemma {:induction false} FireAccepts(e: Engine, fired: seq<Stop>, p: seq<Stop>, price: int, depth: nat, now: int)
    requires depth < e.cfg.maxCascade
    ensures AcceptedIn(FireAll(e, fired, price, depth, now).log) == AcceptedIn(e.log) + Acceptances(FireTrace(e, fired, p, price, depth, now))
    decreases e.cfg.maxCascade - depth, 0, |fired|
  {
    hide AcceptedIn, Acceptances, Trigger, TriggerTraded, TriggerTrace, CheckStops, CheckTrace;
    if fired == [] {
      NothingAccepted(e.log);
    } else {
      var s, rest := fired[0], fired[1..];
      TriggerConfig(e, s, price);
      TriggerAccepts(e, s, rest + p, price);
      var here, e1 := TriggerTrace(e, s, rest + p, price), Trigger(e, s, price);
      match TriggerTraded(e, s, price)
      case NoTrade =>
        FireAccepts(e1, rest, p, price, depth, now);
        AcceptancesConcat(here, FireTrace(e1, rest, p, price, depth, now));
      case LastPrice(q) =>
        var inner := CheckTrace(e1, rest + p, q, depth + 1, now);
        var e2 := CheckStops(e1, q, depth + 1, now);
        CheckAccepts(e1, rest + p, q, depth + 1, now);
        FireAccepts(e2, rest, p, price, depth, now);
        var outer := FireTrace(e2, rest, p, price, depth, now);
        AcceptancesConcat(inner, outer);
        AcceptancesConcat(here, inner + outer);
    }
  }

  lemma NothingAccepted(log: seq<Event>)
    ensures AcceptedIn(log) + Acceptances([]) == AcceptedIn(log)
  {
  }

  lemma TriggerConfig(e: Engine, s: Stop, price: int)
    ensures Trigger(e, s, price).cfg == e.cfg
  {
    hide Enter, SumBook;
    EnterParts(Announce(e, s, price), Converted(s, e.clock + 1));
  }

  lemma EntryAccepts(e: Engine, o: Order, now: int)
    ensures AcceptedIn(PlaceAndFollow(e, o, now).log) == AcceptedIn(e.log) + Acceptances(EntryTrace(e, o, now))
  {
    hide AcceptedIn, Enter, Accept, CheckTrace, CheckStops, Traded, Acceptances, AcceptanceOf;
    var x := Entry(e, [], o);
    EnterParts(e, o);
    EnterAccepts(e, o, []);
    AcceptanceAlone(x);
    match Traded(Accept(e, o), o)
    case NoTrade => assert [x] + [] == [x];
    case LastPrice(p) =>
      CheckAccepts(Enter(e, o), [], p, 0, now);
      AcceptancesConcat([x], CheckTrace(Enter(e, o), [], p, 0, now));
  }

  lemma AcceptanceAlone(x: Entry)
    ensures Acceptances([x]) == [AcceptanceOf(x)]
  {
    assert [x][1..] == [];
  }

  /** In an open market the entries of a command are exactly the orders it announces as accepted, in that order. */
  lemma EntriesAreAcceptances(e: Engine, c: Command, now: int)
    requires e.state.Open? && Trades(c)
    ensures AcceptedIn(Process(e, c, now).log) == AcceptedIn(e.log) + Acceptances(CommandTrace(e, c, now))
  {
    hide AcceptedIn, PlaceAndFollow, EntryTrace, CheckLimit, CheckMarket, SumBook;
    NothingAccepted(e.log);
    if !e.crashed {
      match c {
        case PlaceLimit(l, hook) =>
          if CheckLimit(e, l, hook, now).Pass? && CountOrders(e.book) < e.cfg.nodeCap {
            EntryAccepts(e, LimitOrder(e.cfg, l, e.clock + 1), now);
          } else {
            OtherEvent(e.log, OrderRejected(l.id, l.user, if CheckLimit(e, l, hook, now).Fail? then CheckLimit(e, l, hook, now).reason else PoolExhausted));
          }
        case PlaceMarket(m) =>
          if CheckMarket(e, m).Pass? && CountOrders(e.book) < e.cfg.nodeCap {
            EntryAccepts(e, MarketOrder(m, e.clock + 1), now);
          } else {
            OtherEvent(e.log, OrderRejected(m.id, m.user, if CheckMarket(e, m).Fail? then CheckMarket(e, m).reason else PoolExhausted));
          }
        case _ =>
      }
    }
  }
}
