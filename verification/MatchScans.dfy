/** Scans of the opposite side, made before matching, that decide exactly how matching ends when
    self-trade prevention may interfere. */
module MatchScans {
  import opened Domain
  import opened BookSpec
  import opened MatchSpec
  import opened MatchLemmas
  import opened MatchTheorems
  import opened MatchQuantities

  // ----- What a maker means to the taker -----

  /** Self-trade prevention between the two takes quantity from the taker without a trade, or ends it. */
  predicate Blocks(taker: Order, maker: Order, default: STPMode) {
    STPApplies(taker, maker, default) && EffectiveSTP(taker, maker, default) != STPCancelMaker
  }

  /** Some order of the queue blocks the taker. */
  predicate Blocked(taker: Order, os: seq<Order>, default: STPMode) {
    os != [] && (Blocks(taker, os[0], default) || Blocked(taker, os[1..], default))
  }

  /** What the taker can trade before the first order that blocks it: working slices only, since a
      refilled slice goes to the tail. */
  function SlicesAhead(taker: Order, os: seq<Order>, default: STPMode): int {
    if os == [] || Blocks(taker, os[0], default) then 0
    else (if STPApplies(taker, os[0], default) then 0 else os[0].remain) + SlicesAhead(taker, os[1..], default)
  }

  /** What a queue in which nothing blocks has to trade, reserves included. */
  function Stock(taker: Order, os: seq<Order>, default: STPMode): int {
    if os == [] then 0
    else (if STPApplies(taker, os[0], default) then 0 else os[0].remain + os[0].hidden) + Stock(taker, os[1..], default)
  }

  /** What the taker can trade over the levels it crosses, up to the first order that blocks it. */
  function Reach(taker: Order, ls: seq<Level>, default: STPMode): int {
    if ls == [] || !Crosses(taker, ls[0].price) then 0
    else if Blocked(taker, ls[0].orders, default) then SlicesAhead(taker, ls[0].orders, default)
    else Stock(taker, ls[0].orders, default) + Reach(taker, ls[1..], default)
  }

  // ----- The scan follows the match -----

  lemma {:induction false} Appended(taker: Order, os: seq<Order>, o: Order, default: STPMode)
    requires !STPApplies(taker, o, default)
    ensures Blocked(taker, os + [o], default) == Blocked(taker, os, default)
    ensures Blocked(taker, os, default) ==> SlicesAhead(taker, os + [o], default) == SlicesAhead(taker, os, default)
    ensures Stock(taker, os + [o], default) == Stock(taker, os, default) + o.remain + o.hidden
  {
    if os == [] {
      assert [o][1..] == [] && os + [o] == [o];
      assert Stock(taker, [o], default) == o.remain + o.hidden + Stock(taker, [], default);
    } else {
      assert (os + [o])[0] == os[0] && (os + [o])[1..] == os[1..] + [o];
      Appended(taker, os[1..], o, default);
    }
  }

  /** Only what decides crossing and self-trade prevention matters of the taker. */
  ghost predicate Alike(a: Order, b: Order) {
    a.typ == b.typ && a.side == b.side && a.price == b.price && a.user == b.user && a.stp == b.stp
  }

  lemma {:induction false} SameQueue(a: Order, b: Order, os: seq<Order>, default: STPMode)
    requires Alike(a, b)
    ensures Blocked(a, os, default) == Blocked(b, os, default)
    ensures SlicesAhead(a, os, default) == SlicesAhead(b, os, default) && Stock(a, os, default) == Stock(b, os, default)
  {
    if os != [] {
      SameQueue(a, b, os[1..], default);
    }
  }

  lemma {:induction false} SameReach(a: Order, b: Order, ls: seq<Level>, default: STPMode)
    requires Alike(a, b)
    ensures Reach(a, ls, default) == Reach(b, ls, default)
  {
    if ls != [] {
      SameQueue(a, b, ls[0].orders, default);
      SameReach(a, b, ls[1..], default);
    }
  }

  /** The scan on a queue and the levels behind it. */
  function ReachFrom(taker: Order, price: int, os: seq<Order>, behind: seq<Level>, default: STPMode): int {
    if !Crosses(taker, price) then 0
    else if Blocked(taker, os, default) then SlicesAhead(taker, os, default)
    else Stock(taker, os, default) + Reach(taker, behind, default)
  }

  lemma ReachHead(taker: Order, ls: seq<Level>, os: seq<Order>, default: STPMode)
    requires ls != [] && Crosses(taker, ls[0].price)
    ensures Reach(taker, WithHead(ls, os), default) == ReachFrom(taker, ls[0].price, os, ls[1..], default)
  {
    if os != [] {
      assert WithHead(ls, os)[1..] == ls[1..];
    }
  }

  /** One order further along the queue. */
  lemma QueueCons(taker: Order, o: Order, os: seq<Order>, default: STPMode)
    ensures Blocked(taker, [o] + os, default) <==> Blocks(taker, o, default) || Blocked(taker, os, default)
    ensures SlicesAhead(taker, [o] + os, default)
         == if Blocks(taker, o, default) then 0 else (if STPApplies(taker, o, default) then 0 else o.remain) + SlicesAhead(taker, os, default)
    ensures Stock(taker, [o] + os, default)
         == (if STPApplies(taker, o, default) then 0 else o.remain + o.hidden) + Stock(taker, os, default)
  {
    assert ([o] + os)[1..] == os;
  }

  /** A traded queue counts for exactly what was traded less. */
  lemma TradedScan(taker: Order, os: seq<Order>, q: int, clock: nat, default: STPMode)
    requires os != [] && WFOrder(os[0]) && 0 < q <= os[0].remain && !STPApplies(taker, os[0], default)
    ensures var os' := TradedQueue(os, q, clock);
            && Blocked(taker, os', default) == Blocked(taker, os, default)
            && (Blocked(taker, os, default) ==> SlicesAhead(taker, os', default) == SlicesAhead(taker, os, default) - q)
            && Stock(taker, os', default) == Stock(taker, os, default) - q
  {
    var maker, rest := Decrement(os[0], q), os[1..];
    assert os == [os[0]] + rest;
    QueueCons(taker, os[0], rest, default);
    QueueCons(taker, maker, rest, default);
    Appended(taker, rest, Replenish(maker, clock + 1), default);
    hide Blocked, SlicesAhead, Stock;
  }

  /** A trade uses up exactly what it trades. */
  lemma TradeReach(m: Match, default: STPMode, side: Side)
    requires Live(m) && SoundSide(m.opp, side) && !STPApplies(m.taker, m.opp[0].orders[0], default)
    ensures Reach(Trade(m).taker, Trade(m).opp, default) == Reach(m.taker, m.opp, default) - (m.taker.remain - Trade(m).taker.remain)
  {
    var os := m.opp[0].orders;
    var q := Min(os[0].remain, m.taker.remain);
    TradedScan(m.taker, os, q, m.clock, default);
    hide Blocked, SlicesAhead, Stock, TradedQueue;
    assert WithHead(m.opp, os) == m.opp;
    ReachHead(m.taker, m.opp, os, default);
    ReachHead(m.taker, m.opp, TradedQueue(os, q, m.clock), default);
    SameReach(m.taker, Trade(m).taker, Trade(m).opp, default);
  }

  /** A maker that is merely canceled counted for nothing; at one that blocks, the scan ends. */
  lemma PreventReach(m: Match, default: STPMode)
    requires Live(m) && STPApplies(m.taker, m.opp[0].orders[0], default)
    ensures !Blocks(m.taker, m.opp[0].orders[0], default) ==>
              var n := Step(m, default); Reach(n.taker, n.opp, default) == Reach(m.taker, m.opp, default) && n.taker == m.taker && !n.stopped
    ensures Blocks(m.taker, m.opp[0].orders[0], default) ==> Reach(m.taker, m.opp, default) == 0
  {
    var os := m.opp[0].orders;
    assert os == [os[0]] + os[1..] && WithHead(m.opp, os) == m.opp;
    ReachHead(m.taker, m.opp, os, default);
    ReachHead(m.taker, m.opp, os[1..], default);
    QueueCons(m.taker, os[0], os[1..], default);
    hide Reach, Blocked, SlicesAhead, Stock;
  }

  /** Trading only moves quantity to fills; nothing else adds to them. */
  lemma StepTotals(m: Match, default: STPMode)
    requires Live(m)
    ensures var n := Step(m, default);
            && 0 <= n.taker.remain <= m.taker.remain
            && TotalQty(n.fills) + n.taker.remain <= TotalQty(m.fills) + m.taker.remain
            && (!STPApplies(m.taker, m.opp[0].orders[0], default) ==>
                  TotalQty(n.fills) + n.taker.remain == TotalQty(m.fills) + m.taker.remain && n.stopped == m.stopped)
            && (STPApplies(m.taker, m.opp[0].orders[0], default) ==> n.fills == m.fills)
            && (Blocks(m.taker, m.opp[0].orders[0], default) ==> n.stopped || n.taker.remain < m.taker.remain)
  {
    StepLists(m, EffectiveSTP(m.taker, m.opp[0].orders[0], default));
    var n := Trade(m);
    assert n.fills[..|n.fills| - 1] == m.fills;
  }

  lemma {:induction false} RunTotals(m: Match, default: STPMode)
    requires m.taker.remain >= 0
    ensures var n := Run(m, default);
            n.taker.remain >= 0 && TotalQty(n.fills) + n.taker.remain <= TotalQty(m.fills) + m.taker.remain
    decreases m.taker.remain, SumLevels(m.opp, One)
  {
    if Live(m) {
      Descend(m, default);
      StepTotals(m, default);
      RunTotals(Step(m, default), default);
    }
  }

  lemma {:induction false} ReachNonNegative(taker: Order, ls: seq<Level>, side: Side, default: STPMode)
    requires SoundSide(ls, side)
    ensures Reach(taker, ls, default) >= 0
  {
    if ls != [] && Crosses(taker, ls[0].price) {
      StockNonNegative(taker, ls[0].orders, default);
      assert SoundSide(ls[1..], side);
      ReachNonNegative(taker, ls[1..], side, default);
    }
  }

  lemma {:induction false} StockNonNegative(taker: Order, os: seq<Order>, default: STPMode)
    requires forall k :: 0 <= k < |os| ==> WFOrder(os[k])
    ensures SlicesAhead(taker, os, default) >= 0 && Stock(taker, os, default) >= 0
  {
    if os != [] {
      StockNonNegative(taker, os[1..], default);
    }
  }

  /** The taker was filled in full, by trades alone. */
  ghost predicate AllTraded(m: Match, n: Match) {
    n.taker.remain == 0 && !n.stopped && TotalQty(n.fills) - TotalQty(m.fills) == m.taker.remain
  }

  /** In every mode: matching fills the taker in full, by trades alone, exactly when the scan reaches its quantity. */
  lemma {:induction false} RunFillsExactly(m: Match, default: STPMode, side: Side)
    requires SoundSide(m.opp, side) && m.taker.remain >= 0 && !m.stopped
    ensures AllTraded(m, Run(m, default)) <==> Reach(m.taker, m.opp, default) >= m.taker.remain
    decreases m.taker.remain, SumLevels(m.opp, One)
  {
    hide SoundSide, Step, Blocks, Blocked, Stock, SlicesAhead;
    ReachNonNegative(m.taker, m.opp, side, default);
    if Live(m) {
      var n := Step(m, default);
      Descend(m, default);
      StepSound(m, default, side);
      if STPApplies(m.taker, m.opp[0].orders[0], default) {
        PreventReach(m, default);
      } else {
        TradeReach(m, default, side);
        StepIsTrade(m, default);
      }
      StepTotals(m, default);
      if Blocks(m.taker, m.opp[0].orders[0], default) {
        RunTotals(n, default);
        if n.stopped {
          StoppedEnds(n, default);
        }
      } else {
        RunFillsExactly(n, default, side);
      }
    } else if m.taker.remain > 0 {
      IdleReach(m, default, side);
    }
  }

  lemma StepIsTrade(m: Match, default: STPMode)
    requires Live(m) && !STPApplies(m.taker, m.opp[0].orders[0], default)
    ensures Step(m, default) == Trade(m) && !Trade(m).stopped && !Blocks(m.taker, m.opp[0].orders[0], default)
  {
  }

  lemma StoppedEnds(m: Match, default: STPMode)
    requires m.stopped
    ensures Run(m, default) == m
  {
  }

  lemma IdleReach(m: Match, default: STPMode, side: Side)
    requires !Live(m) && !m.stopped && m.taker.remain > 0 && SoundSide(m.opp, side)
    ensures Reach(m.taker, m.opp, default) == 0
  {
  }

  // ----- Fill-or-kill -----

  /** Filled in full by trades, or rejected with the book untouched. */
  ghost predicate AllOrNothing(b: Book, taker: Order, clock: nat, out: Outcome) {
    || (out.disposition == FullyFilled && TotalQty(out.fills) == taker.remain)
    || out == Outcome(b, clock, [], [], Rejected)
  }

  /** Fill-or-kill keeps its promise exactly when the dry run refuses, or the scan - unlike the dry run, which
      counts the taker's own makers and stops at no mode - reaches the quantity. */
  lemma FillOrKillExactly(b: Book, taker: Order, clock: nat, default: STPMode, cap: nat)
    requires SoundBook(b) && taker.tif == FOK && taker.remain > 0
    ensures var opp := b.Of(taker.side.Opposite());
            AllOrNothing(b, taker, clock, Place(b, taker, clock, default, cap))
            <==> Available(taker, opp) < taker.remain || Reach(taker, opp, default) >= taker.remain
  {
    hide Run, Reach, Available, CanRestIn, Insert, SoundSide;
    var m := Start(taker, b, clock);
    RunFillsExactly(m, default, taker.side.Opposite());
    RunTaker(m, default);
  }

  // ----- Filled on arrival -----

  function OpenTotal(o: Order): int { o.remain + o.hidden }

  /** Everything resting at the prices the taker crosses, reserves included. */
  function Supply(taker: Order, ls: seq<Level>): int {
    if ls == [] || !Crosses(taker, ls[0].price) then 0 else SumOf(ls[0].orders, OpenTotal) + Supply(taker, ls[1..])
  }

  lemma {:induction false} StockWithoutClash(taker: Order, os: seq<Order>, default: STPMode)
    requires forall k :: 0 <= k < |os| ==> !STPApplies(taker, os[k], default)
    ensures !Blocked(taker, os, default) && Stock(taker, os, default) == SumOf(os, OpenTotal)
  {
    if os != [] {
      StockWithoutClash(taker, os[1..], default);
    }
  }

  /** Without clashes the scan reaches everything. */
  lemma {:induction false} ReachWithoutClash(taker: Order, ls: seq<Level>, default: STPMode)
    requires NoClash(taker, ls, default)
    ensures Reach(taker, ls, default) == Supply(taker, ls)
  {
    if ls != [] {
      assert forall k :: 0 <= k < |ls[0].orders| ==> !STPApplies(taker, ls[0].orders[k], default);
      StockWithoutClash(taker, ls[0].orders, default);
      assert NoClash(taker, ls[1..], default);
      ReachWithoutClash(taker, ls[1..], default);
    }
  }

  /** The order's working slice will be used up on arrival: enough rests at the prices it crosses. */
  predicate FillsAtOnce(b: Book, o: Order) {
    var opp := b.Of(o.side.Opposite());
    Supply(o, opp) >= o.remain && (o.tif == FOK ==> Available(o, opp) >= o.remain)
  }

  /** Without clashes an order is filled in full exactly when what it crosses, reserves included, suffices. */
  lemma FilledExactly(b: Book, o: Order, clock: nat, default: STPMode, cap: nat)
    requires SoundBook(b) && o.remain > 0 && NoClash(o, b.Of(o.side.Opposite()), default)
    ensures Place(b, o, clock, default, cap).disposition == FullyFilled <==> FillsAtOnce(b, o)
  {
    hide Run, Reach, Supply, Available, CanRestIn, Insert, SoundSide, NoClash;
    var side := o.side.Opposite();
    var m := Start(o, b, clock);
    RunFillsExactly(m, default, side);
    RunConserves(m, default, side, o.id);
    RunTotals(m, default);
    ReachWithoutClash(o, b.Of(side), default);
    RunTaker(m, default);
  }
}
