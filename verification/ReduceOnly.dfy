/** What the reduce-only check achieves: letting the order in brings its user's position towards zero and not beyond. */
module ReduceOnly {
  import opened Domain
  import opened BookSpec
  import opened MatchSpec
  import opened MatchLemmas
  import opened MatchTheorems
  import opened MatchQuantities
  import opened MatchScans
  import opened PlaceEffects
  import opened StopSpec
  import opened Positions
  import opened EngineSpec
  import opened EngineInvariants
  import opened EngineSteps
  import opened EngineRuns

  /** All fills are for one user as taker, and of something. */
  ghost predicate TakenBy(fills: seq<Fill>, user: UserId) {
    forall i :: 0 <= i < |fills| ==> fills[i].takerUser == user && fills[i].qty > 0
  }

  lemma {:induction false} RunTakenBy(m: Match, default: STPMode, side: Side)
    requires SoundSide(m.opp, side) && TakenBy(m.fills, m.taker.user)
    ensures TakenBy(Run(m, default).fills, m.taker.user)
    decreases if m.taker.remain > 0 then m.taker.remain else 0, SumLevels(m.opp, One)
  {
    if Live(m) {
      Descend(m, default);
      StepSound(m, default, side);
      StepTaker(m, default);
      StepTakenBy(m, default);
      RunTakenBy(Step(m, default), default, side);
    }
  }

  lemma StepTakenBy(m: Match, default: STPMode)
    requires Live(m) && TakenBy(m.fills, m.taker.user)
    ensures TakenBy(Step(m, default).fills, m.taker.user)
  {
    StepLists(m, EffectiveSTP(m.taker, m.opp[0].orders[0], default));
    hide WithHead, TradedQueue;
  }

  /** Whoever takes gains at most what the fills total, and less where he meets his own orders. */
  lemma {:induction false} TakerGains(ps: map<UserId, int>, fills: seq<Fill>, user: UserId, makers: Side)
    requires MakersOn(fills, makers) && TakenBy(fills, user)
    ensures var d := Position(ApplyFills(ps, fills), user) - Position(ps, user);
            && TotalQty(fills) >= 0
            && if makers == Ask then 0 <= d <= TotalQty(fills) else -TotalQty(fills) <= d <= 0
  {
    if fills != [] {
      TakerGains(ps, fills[..|fills| - 1], user, makers);
    }
  }

  /** One placement moves the taker's position in his direction, by no more than his order's working slice. */
  lemma EntryGains(e: Engine, o: Order, p: seq<Stop>)
    requires Good(e, p) && Admissible(e, o, p)
    ensures var d := Position(Enter(e, o).positions, o.user) - Position(e.positions, o.user);
            if o.side == Bid then 0 <= d <= o.remain else -o.remain <= d <= 0
  {
    hide Place, Enter, Run, WFBook, SoundBook, SumLevels, SumStops, ApplyFills, Position, TotalQty, WFStops, TakenBy;
    WFSound(e.book, e.clock);
    EnterParts(e, o);
    var opp := o.side.Opposite();
    var m := Start(o, e.book, e.clock + 1);
    PlaceShape(e.book, o, e.clock + 1, e.cfg.stpDefault, e.cfg.levelCap);
    PlaceOwnDepth(e.book, o, e.clock + 1, e.cfg.stpDefault, e.cfg.levelCap, 0);
    SideOf(e.book, opp);
    NothingTaken(o.user);
    RunTakenBy(m, e.cfg.stpDefault, opp);
    RunTotals(m, e.cfg.stpDefault);
    TakerGains(e.positions, Outcomes(Accept(e, o), o).fills, o.user, opp);
  }

  lemma SideOf(b: Book, side: Side)
    requires SoundBook(b)
    ensures SoundSide(b.Of(side), side)
  {
  }

  lemma NothingTaken(user: UserId)
    ensures TakenBy([], user) && TotalQty([]) == 0
  {
  }

  /** A reduce-only order that passes its check, matched on entry - against anybody, at any prices, in any self-trade
      mode - never takes its user's position across zero or further from it. */
  lemma ReducesOnEntry(e: Engine, c: LimitCmd, hook: HookAnswer, now: int)
    requires Good(e, []) && CheckLimit(e, c, hook, now) == Pass && c.flags.reduceOnly && CountOrders(e.book) < e.cfg.nodeCap
    ensures var was := Position(e.positions, c.user); var r := Position(Enter(e, LimitOrder(e.cfg, c, e.clock + 1)).positions, c.user);
            if c.side == Bid then was <= r <= 0 else 0 <= r <= was
  {
    hide Good, Enter, Admissible, Position;
    var o := LimitOrder(e.cfg, c, e.clock + 1);
    LimitAdmissible(e, c, hook, now);
    EntryGains(e, o, []);
    SliceWithin(e, c, hook, now);
  }

  lemma SliceWithin(e: Engine, c: LimitCmd, hook: HookAnswer, now: int)
    requires CheckLimit(e, c, hook, now) == Pass && c.flags.reduceOnly
    ensures var o := LimitOrder(e.cfg, c, e.clock + 1); o.remain <= c.qty && o.user == c.user && o.side == c.side
    ensures !WouldIncrease(e.positions, c.user, c.side, c.qty)
  {
    hide SumLevels, FindStop, HasLevel, OverValue;
  }
}
