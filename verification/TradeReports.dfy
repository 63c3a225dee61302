/** What the log says of trades and self-trades: who made and who took, what each had left, and that nobody trades with
    himself when prevention is on. */
module TradeReports {
  import opened Domain
  import opened BookSpec
  import opened BookLemmas
  import opened MatchSpec
  import opened MatchLemmas
  import opened MatchTheorems
  import opened MatchQuantities
  import opened MatchScans
  import opened PlaceEffects
  import opened PlacementResults
  import opened EngineSpec
  import opened EngineSteps
  import Submissions

  // ----- The fills of one placement -----

  /** What the fills of a match so far say. */
  ghost predicate Told(fills: seq<Fill>, taker: Order, ls: seq<Level>) {
    && (forall i :: 0 <= i < |fills| ==>
          && fills[i].takerId == taker.id && fills[i].takerUser == taker.user && fills[i].takerSeq == taker.seqNum
          && fills[i].qty > 0 && fills[i].makerRemain >= 0 && fills[i].takerRemain >= 0
          && (fills[i].makerRemain == 0 || fills[i].takerRemain == 0))
    && (forall i :: 0 <= i < |fills| - 1 ==> fills[i].takerRemain > 0)
    && (fills != [] && fills[|fills| - 1].makerRemain > 0 ==>
          ls != [] && ls[0].orders != [] && ls[0].orders[0].id == fills[|fills| - 1].makerId && ls[0].orders[0].remain == fills[|fills| - 1].makerRemain)
  }

  lemma StepTold(m: Match, default: STPMode)
    requires Live(m) && Told(m.fills, m.taker, m.opp) && (m.fills != [] ==> m.fills[|m.fills| - 1].takerRemain > 0)
    ensures var n := Step(m, default);
            Told(n.fills, n.taker, n.opp) && (n.taker.remain > 0 ==> n.fills == [] || n.fills[|n.fills| - 1].takerRemain > 0)
  {
    hide Told, Trade, Prevent;
    TradeTold(m);
    PreventTold(m, EffectiveSTP(m.taker, m.opp[0].orders[0], default));
  }

  lemma TradeTold(m: Match)
    requires Live(m) && Told(m.fills, m.taker, m.opp) && (m.fills != [] ==> m.fills[|m.fills| - 1].takerRemain > 0)
    ensures var n := Trade(m);
            Told(n.fills, n.taker, n.opp) && (n.taker.remain > 0 ==> n.fills == [] || n.fills[|n.fills| - 1].takerRemain > 0)
  {
    hide Info;
  }

  /** Prevention leaves the fills alone, and when it comes into play the last of them used up its maker's slice. */
  lemma PreventTold(m: Match, mode: STPMode)
    requires Live(m) && Told(m.fills, m.taker, m.opp) && (m.fills != [] ==> m.fills[|m.fills| - 1].takerRemain > 0)
    ensures var n := Prevent(m, mode);
            Told(n.fills, n.taker, n.opp) && (n.taker.remain > 0 ==> n.fills == [] || n.fills[|n.fills| - 1].takerRemain > 0)
  {
    assert m.fills != [] ==> m.fills[|m.fills| - 1].makerRemain == 0;
    hide Told, Prevent;
    PreventSame(m, mode);
    StillTold(m.fills, m.taker, m.opp, Prevent(m, mode).taker, Prevent(m, mode).opp);
  }

  lemma PreventSame(m: Match, mode: STPMode)
    requires Live(m)
    ensures var n := Prevent(m, mode);
            n.fills == m.fills && n.taker.id == m.taker.id && n.taker.user == m.taker.user && n.taker.seqNum == m.taker.seqNum
  {
  }

  lemma StillTold(fills: seq<Fill>, taker: Order, ls: seq<Level>, after: Order, left: seq<Level>)
    requires Told(fills, taker, ls) && (fills != [] ==> fills[|fills| - 1].makerRemain == 0)
    requires after.id == taker.id && after.user == taker.user && after.seqNum == taker.seqNum
    ensures Told(fills, after, left)
  {
  }

  lemma {:induction false} RunTold(m: Match, default: STPMode)
    requires Told(m.fills, m.taker, m.opp) && (m.taker.remain > 0 && m.fills != [] ==> m.fills[|m.fills| - 1].takerRemain > 0)
    ensures var n := Run(m, default); Told(n.fills, n.taker, n.opp)
    decreases if m.taker.remain > 0 then m.taker.remain else 0, SumLevels(m.opp, One)
  {
    hide Step, Told;
    if Live(m) {
      Descend(m, default);
      StepTold(m, default);
      RunTold(Step(m, default), default);
    }
  }

  /** Every fill of a placement is the entering order's, of some quantity, against the other side, and uses up the maker's
      slice or the taker; only the last uses up the taker; and the maker of the last, if it has anything left of its slice,
      is first in the book with just that. */
  lemma FillsTold(b: Book, o: Order, clock: nat, default: STPMode, cap: nat)
    requires SoundBook(b) && WFOrder(o)
    ensures var out := Place(b, o, clock, default, cap); var fills, opp := out.fills, out.book.Of(o.side.Opposite());
            && (forall i :: 0 <= i < |fills| ==>
                  && fills[i].takerId == o.id && fills[i].takerUser == o.user && fills[i].makerSide == o.side.Opposite() && fills[i].qty > 0
                  && (fills[i].makerRemain == 0 || fills[i].takerRemain == 0) && (i < |fills| - 1 ==> fills[i].takerRemain > 0))
            && (fills != [] && fills[|fills| - 1].makerRemain > 0 ==>
                  opp != [] && opp[0].orders != [] && opp[0].orders[0].id == fills[|fills| - 1].makerId
                  && opp[0].orders[0].remain == fills[|fills| - 1].makerRemain)
  {
    hide Run, Insert, Available, CanRestIn, SoundSide, MakersOn, TakersAre, Told;
    var m := Start(o, b, clock);
    PlaceShape(b, o, clock, default, cap);
    NothingTold(o, m.opp, o.side.Opposite());
    RunTold(m, default);
    RunParties(m, default, o.side.Opposite());
    WhatIsTold(Run(m, default), o, o.side.Opposite());
  }

  lemma NothingTold(o: Order, ls: seq<Level>, side: Side)
    ensures Told([], o, ls) && MakersOn([], side) && TakersAre([], o.id)
  {
  }

  lemma WhatIsTold(n: Match, o: Order, side: Side)
    requires Told(n.fills, n.taker, n.opp) && MakersOn(n.fills, side) && n.taker == Worked(o, n.taker.remain, n.taker.filled)
    ensures forall i :: 0 <= i < |n.fills| ==>
              && n.fills[i].takerId == o.id && n.fills[i].takerUser == o.user && n.fills[i].makerSide == side && n.fills[i].qty > 0
              && (n.fills[i].makerRemain == 0 || n.fills[i].takerRemain == 0) && (i < |n.fills| - 1 ==> n.fills[i].takerRemain > 0)
    ensures n.fills != [] && n.fills[|n.fills| - 1].makerRemain > 0 ==>
              n.opp != [] && n.opp[0].orders != [] && n.opp[0].orders[0].id == n.fills[|n.fills| - 1].makerId
              && n.opp[0].orders[0].remain == n.fills[|n.fills| - 1].makerRemain
  {
  }

  /** What the taker has left after each fill is its slice less the fills so far. */
  ghost predicate CountsDown(fills: seq<Fill>, slice: int) {
    forall i :: 0 <= i < |fills| ==> fills[i].takerRemain == slice - TotalQty(fills[..i + 1])
  }

  lemma CountsOne(fills: seq<Fill>, f: Fill, slice: int)
    requires CountsDown(fills, slice) && f.takerRemain == slice - TotalQty(fills) - f.qty
    ensures CountsDown(fills + [f], slice)
  {
    var r := fills + [f];
    forall i | 0 <= i < |r|
      ensures r[i].takerRemain == slice - TotalQty(r[..i + 1])
    {
      if i < |fills| {
        assert r[..i + 1] == fills[..i + 1];
      } else {
        assert r[..i + 1] == r && r[..|r| - 1] == fills;
      }
    }
  }

  lemma StepCounts(m: Match, default: STPMode, slice: int)
    requires Live(m) && CountsDown(m.fills, slice) && m.taker.remain == slice - TotalQty(m.fills)
    ensures CountsDown(Step(m, default).fills, slice)
  {
    hide Info, WithHead, TradedQueue, CountsDown, TotalQty;
    StepLists(m, EffectiveSTP(m.taker, m.opp[0].orders[0], default));
    CountsOne(m.fills, Trade(m).fills[|m.fills|], slice);
  }

  lemma {:induction false} RunCounts(m: Match, default: STPMode, slice: int)
    requires NeverDecremented(m.taker, m.opp, default) && CountsDown(m.fills, slice) && m.taker.remain == slice - TotalQty(m.fills)
    ensures CountsDown(Run(m, default).fills, slice)
    decreases if m.taker.remain > 0 then m.taker.remain else 0, SumLevels(m.opp, One)
  {
    hide Step, CountsDown, TotalQty, NeverDecremented;
    if Live(m) {
      Descend(m, default);
      StepNever(m, default);
      StepCounts(m, default, slice);
      if Step(m, default).stopped {
        StoppedEnds(Step(m, default), default);
      } else {
        RunCounts(Step(m, default), default, slice);
      }
    }
  }

  // ----- The log of one placement -----

  /** Fill by fill the log has: the maker's part, the taker's part, the trade, and the maker's level as it now is. The
      makers are on the other side and the taker is the entering order; both parts have the trade's price and quantity;
      the taker's remainder counts down from its slice, unless an own order is decremented on the way. */
  lemma TradesReported(e: Engine, o: Order, i: nat)
    requires SoundBook(e.book) && WFOrder(o)
    requires var fills := Place(e.book, o, e.clock + 1, e.cfg.stpDefault, e.cfg.levelCap).fills; i < |fills|
    ensures var fills, log, at := Place(e.book, o, e.clock + 1, e.cfg.stpDefault, e.cfg.levelCap).fills, Enter(e, o).log, |e.log| + 1 + 4 * i;
            var f := fills[i];
            && at + 3 < |log| && log[..|e.log|] == e.log
            && log[at] == TradeFill(f.makerId, f.makerUser, true, o.side.Opposite(), f.price, f.qty, f.makerRemain)
            && log[at + 1] == TradeFill(o.id, o.user, false, o.side, f.price, f.qty, f.takerRemain)
            && log[at + 2] == TradeExecuted(f) && log[at + 3] == DepthUpdate(o.side.Opposite(), f.price, f.level)
            && (NeverDecremented(o, e.book.Of(o.side.Opposite()), e.cfg.stpDefault) ==> f.takerRemain == o.remain - TotalQty(fills[..i + 1]))
  {
    hide Place, FillsLog, STPLog, DispositionEvents, SoundBook, NeverDecremented, TotalQty, WFOrder, Enter;
    FillsTold(e.book, o, e.clock + 1, e.cfg.stpDefault, e.cfg.levelCap);
    var out := Outcomes(Accept(e, o), o);
    EntryLogged(e, o, i);
    var at := |e.log| + 1 + 4 * i;
    var four := Enter(e, o).log[at..at + 4];
    assert four[0] == Enter(e, o).log[at] && four[1] == Enter(e, o).log[at + 1] && four[2] == Enter(e, o).log[at + 2] && four[3] == Enter(e, o).log[at + 3];
    if NeverDecremented(o, e.book.Of(o.side.Opposite()), e.cfg.stpDefault) {
      PlaceCounts(e.book, o, e.clock + 1, e.cfg.stpDefault, e.cfg.levelCap, i);
    }
  }

  lemma EntryLogged(e: Engine, o: Order, i: nat)
    requires i < |Outcomes(Accept(e, o), o).fills|
    ensures var log, at := Enter(e, o).log, |e.log| + 1 + 4 * i;
            at + 3 < |log| && log[..|e.log|] == e.log && log[at..at + 4] == FillEvents(Outcomes(Accept(e, o), o).fills[i])
  {
    hide Outcomes, FillsLog, STPLog, DispositionEvents;
    EnterLog(e, o);
    var out := Outcomes(Accept(e, o), o);
    FillsAt(out.fills, i);
    var a, b, c, d := Accept(e, o).log, FillsLog(out.fills), STPLog(out.cancels), DispositionEvents(out.book, o, out.fills, out.disposition);
    var at := |a| + 4 * i;
    assert (a + b + c + d)[at..at + 4] == b[4 * i..4 * i + 4];
    assert (a + b + c + d)[..|e.log|] == a[..|e.log|] == e.log;
  }

  lemma PlaceCounts(b: Book, o: Order, clock: nat, default: STPMode, cap: nat, i: nat)
    requires NeverDecremented(o, b.Of(o.side.Opposite()), default) && i < |Place(b, o, clock, default, cap).fills|
    ensures var fills := Place(b, o, clock, default, cap).fills; fills[i].takerRemain == o.remain - TotalQty(fills[..i + 1])
  {
    hide Run, Available, Insert, CanRestIn, NeverDecremented, TotalQty;
    PlaceShape(b, o, clock, default, cap);
    NothingYet(o.id);
    RunCounts(Start(o, b, clock), default, o.remain);
  }

  lemma {:induction false} FillsAt(fills: seq<Fill>, i: nat)
    requires i < |fills|
    ensures |FillsLog(fills)| == 4 * |fills| && FillsLog(fills)[4 * i..4 * i + 4] == FillEvents(fills[i])
  {
    FillsLength(fills);
    var n := |fills| - 1;
    FillsLength(fills[..n]);
    if i < n {
      FillsAt(fills[..n], i);
      assert FillsLog(fills)[4 * i..4 * i + 4] == FillsLog(fills[..n])[4 * i..4 * i + 4];
    }
  }

  lemma {:induction false} FillsLength(fills: seq<Fill>)
    ensures |FillsLog(fills)| == 4 * |fills|
  {
    if fills != [] {
      FillsLength(fills[..|fills| - 1]);
    }
  }

  // ----- Nobody trades with himself -----

  ghost predicate NoneWith(fills: seq<Fill>, user: UserId) {
    forall i :: 0 <= i < |fills| ==> fills[i].makerUser != user
  }

  lemma {:induction false} RunNoneWith(m: Match, default: STPMode)
    requires (m.taker.stp != STPDisabled || default != STPDisabled) && NoneWith(m.fills, m.taker.user)
    ensures NoneWith(Run(m, default).fills, m.taker.user)
    decreases if m.taker.remain > 0 then m.taker.remain else 0, SumLevels(m.opp, One)
  {
    if Live(m) {
      Descend(m, default);
      StepNoneWith(m, default);
      StepTaker(m, default);
      RunNoneWith(Step(m, default), default);
    }
  }

  lemma StepNoneWith(m: Match, default: STPMode)
    requires Live(m) && (m.taker.stp != STPDisabled || default != STPDisabled) && NoneWith(m.fills, m.taker.user)
    ensures NoneWith(Step(m, default).fills, m.taker.user)
  {
    hide Info, WithHead, TradedQueue;
    StepLists(m, EffectiveSTP(m.taker, m.opp[0].orders[0], default));
  }

  /** An order with a self-trade mode, or any order in a market that has one, never trades with its own user. */
  lemma NoSelfTrades(b: Book, o: Order, clock: nat, default: STPMode, cap: nat)
    requires o.stp != STPDisabled || default != STPDisabled
    ensures var fills := Place(b, o, clock, default, cap).fills; forall i :: 0 <= i < |fills| ==> fills[i].makerUser != o.user
  {
    hide Run, Available, Insert, CanRestIn;
    PlaceShape(b, o, clock, default, cap);
    RunNoneWith(Start(o, b, clock), default);
  }

  /** What each mode of the taker's may do, whatever modes its makers and the market have: cancel-maker never ends the
      taker, cancel-taker never cancels a maker, cancel-both cancels at most one and with it the taker. */
  ghost predicate ByMode(m: Match) {
    match m.taker.stp
    case STPCancelMaker => !m.stopped
    case STPCancelTaker => m.cancels == []
    case STPCancelBoth => if m.stopped then |m.cancels| == 1 else m.cancels == []
    case _ => true
  }

  lemma {:induction false} RunByMode(m: Match, default: STPMode)
    requires ByMode(m) && !m.stopped
    ensures ByMode(Run(m, default)) && Run(m, default).taker.stp == m.taker.stp
    decreases if m.taker.remain > 0 then m.taker.remain else 0, SumLevels(m.opp, One)
  {
    if Live(m) {
      Descend(m, default);
      StepTaker(m, default);
      StepByMode(m, default);
      if Step(m, default).stopped {
        StoppedEnds(Step(m, default), default);
      } else {
        RunByMode(Step(m, default), default);
      }
    }
  }

  lemma StepByMode(m: Match, default: STPMode)
    requires Live(m) && ByMode(m) && !m.stopped
    ensures ByMode(Step(m, default))
  {
    hide Info, WithHead, TradedQueue;
    StepLists(m, EffectiveSTP(m.taker, m.opp[0].orders[0], default));
  }

  lemma TakersModeWins(b: Book, o: Order, clock: nat, default: STPMode, cap: nat)
    ensures var out := Place(b, o, clock, default, cap);
            && (o.stp == STPCancelMaker ==> out.disposition != STPCanceledTaker)
            && (o.stp == STPCancelTaker ==> out.cancels == [])
            && (o.stp == STPCancelBoth ==> |out.cancels| == if out.disposition == STPCanceledTaker then 1 else 0)
  {
    hide Run, Available, Insert, CanRestIn;
    PlaceShape(b, o, clock, default, cap);
    RunByMode(Start(o, b, clock), default);
  }

  // ----- How an order's story ends in the log -----

  /** The last words on an order that enters: rejected, filled with nothing more to say, canceled with what was filled and
      what was not - by self-trade prevention or for want of a counterpart -, or resting with what it still has, reserve
      included, and what it shows. */
  lemma ClosingReported(e: Engine, o: Order)
    requires SoundBook(e.book) && WFOrder(o) && !Holds(e.book, o.id)
    ensures var out, log := Place(e.book, o, e.clock + 1, e.cfg.stpDefault, e.cfg.levelCap), Enter(e, o).log;
            var filled, left := TotalQty(out.fills), Unmatched(e.book, o, e.clock + 1, e.cfg.stpDefault);
            var canceled := OrderCanceled(o.id, o.user, o.side, o.price, o.origQty - filled, filled,
                                          if out.disposition == STPCanceledTaker then SelfTrade else NotFilled);
            && |log| == |e.log| + 1 + 4 * |out.fills| + |out.cancels| + (if out.disposition == FullyFilled then 0 else if out.disposition == Rested || out.disposition == PartialFillRested then 2 else 1)
            && (out.disposition == Rejected ==> log[|log| - 1] == OrderRejected(o.id, o.user, FOKFailed))
            && (out.disposition == Canceled || out.disposition == PartialFillCanceled || out.disposition == STPCanceledTaker ==> log[|log| - 1] == canceled)
            && (out.disposition == Rested || out.disposition == PartialFillRested ==>
                  && log[|log| - 2] == OrderRested(o.id, o.user, o.side, o.price, left + o.hidden, o.display)
                  && log[|log| - 1] == DepthUpdate(o.side, o.price, InfoAt(Enter(e, o).book.Of(o.side), o.price)))
  {
    hide Place, FillsLog, STPLog, TotalQty, InfoAt, Find, SoundBook, Holds, Run, Enter;
    EnterLog(e, o);
    EnterParts(e, o);
    var out := Outcomes(Accept(e, o), o);
    FillsLength(out.fills);
    CancelsLength(out.cancels);
    ClosingEvents(e, o);
  }

  lemma {:induction false} CancelsLength(cancels: seq<STPCanceled>)
    ensures |STPLog(cancels)| == |cancels|
  {
    if cancels != [] {
      CancelsLength(cancels[..|cancels| - 1]);
    }
  }

  lemma ClosingEvents(e: Engine, o: Order)
    requires SoundBook(e.book) && WFOrder(o) && !Holds(e.book, o.id)
    ensures var out := Outcomes(Accept(e, o), o);
            Resting(out.disposition) ==>
              RestedEvents(out.book, o)[0] == OrderRested(o.id, o.user, o.side, o.price, Unmatched(e.book, o, e.clock + 1, e.cfg.stpDefault) + o.hidden, o.display)
  {
    hide Run, InfoAt, Insert, Available, CanRestIn, SoundSide, Find, Holds;
    PlaceShape(e.book, o, e.clock + 1, e.cfg.stpDefault, e.cfg.levelCap);
    FreshAfterRun(e.book, o, e.clock + 1, e.cfg.stpDefault);
    var out := Outcomes(Accept(e, o), o);
    var n := Run(Start(o, e.book, e.clock + 1), e.cfg.stpDefault);
    if Resting(out.disposition) {
      Submissions.RestedFound(e.book.With(o.side.Opposite(), n.opp), n.taker);
      SameBook(out.book, Rest(e.book.With(o.side.Opposite(), n.opp), n.taker), o.side);
    }
  }

  lemma SameBook(a: Book, b: Book, side: Side)
    requires a.Of(side) == b.Of(side) && a.Of(side.Opposite()) == b.Of(side.Opposite())
    ensures a == b
  {
  }

  /** An order of the moment - immediate-or-cancel, or a market order - leaves nothing under its id in the book. */
  lemma TakersLeaveNothing(e: Engine, o: Order)
    requires TakesOnly(o) && SoundBook(e.book) && WFOrder(o) && !Holds(e.book, o.id)
    ensures var r := Enter(e, o); !Holds(r.book, o.id) && r.book.Of(o.side) == e.book.Of(o.side)
  {
    hide Place, Holds, Run, Enter, SoundBook, WFOrder, HasLevel;
    EnterParts(e, o);
    TakersNeverRest(e.book, o, e.clock + 1, e.cfg.stpDefault, e.cfg.levelCap);
    RestsExactly(e.book, o, e.clock + 1, e.cfg.stpDefault, e.cfg.levelCap);
  }

  // ----- Self-trade cancels -----

  ghost predicate OwnCanceled(cancels: seq<STPCanceled>, user: UserId, side: Side) {
    forall i :: 0 <= i < |cancels| ==> cancels[i].user == user && cancels[i].side == side && cancels[i].remain > 0
  }

  lemma {:induction false} RunOwnCanceled(m: Match, default: STPMode, side: Side)
    requires SoundSide(m.opp, side) && OwnCanceled(m.cancels, m.taker.user, side)
    ensures OwnCanceled(Run(m, default).cancels, m.taker.user, side)
    decreases if m.taker.remain > 0 then m.taker.remain else 0, SumLevels(m.opp, One)
  {
    if Live(m) {
      Descend(m, default);
      StepSound(m, default, side);
      StepTaker(m, default);
      StepOwnCanceled(m, default, side);
      RunOwnCanceled(Step(m, default), default, side);
    }
  }

  lemma StepOwnCanceled(m: Match, default: STPMode, side: Side)
    requires Live(m) && SoundSide(m.opp, side) && OwnCanceled(m.cancels, m.taker.user, side)
    ensures OwnCanceled(Step(m, default).cancels, m.taker.user, side)
  {
    hide Info, WithHead, TradedQueue;
    StepLists(m, EffectiveSTP(m.taker, m.opp[0].orders[0], default));
    assert m.opp[0].orders[0].side == side;
  }

  /** Every maker that self-trade prevention removes is the entering user's own, on the other side; the log cancels it with
      what it had left and had filled. */
  lemma SelfTradesReported(e: Engine, o: Order, i: nat)
    requires SoundBook(e.book)
    requires var cancels := Place(e.book, o, e.clock + 1, e.cfg.stpDefault, e.cfg.levelCap).cancels; i < |cancels|
    ensures var out, log := Place(e.book, o, e.clock + 1, e.cfg.stpDefault, e.cfg.levelCap), Enter(e, o).log;
            var c, at := out.cancels[i], |e.log| + 1 + 4 * |out.fills| + i;
            && at < |log| && c.remain > 0
            && log[at] == OrderCanceled(c.id, o.user, o.side.Opposite(), c.price, c.remain, c.filled, SelfTrade)
  {
    hide Place, FillsLog, STPLog, DispositionEvents, SoundBook, Run, Enter;
    EnterLog(e, o);
    var out := Outcomes(Accept(e, o), o);
    FillsLength(out.fills);
    CancelAt(out.cancels, i);
    CancelsOwn(e.book, o, e.clock + 1, e.cfg.stpDefault, e.cfg.levelCap);
    var a, b, c, d := Accept(e, o).log, FillsLog(out.fills), STPLog(out.cancels), DispositionEvents(out.book, o, out.fills, out.disposition);
    assert (a + b + c + d)[|a| + |b| + i] == c[i];
  }

  lemma CancelsOwn(b: Book, o: Order, clock: nat, default: STPMode, cap: nat)
    requires SoundBook(b)
    ensures OwnCanceled(Place(b, o, clock, default, cap).cancels, o.user, o.side.Opposite())
  {
    hide Run, Available, Insert, CanRestIn;
    PlaceShape(b, o, clock, default, cap);
    RunOwnCanceled(Start(o, b, clock), default, o.side.Opposite());
  }

  lemma {:induction false} CancelAt(cancels: seq<STPCanceled>, i: nat)
    requires i < |cancels|
    ensures |STPLog(cancels)| == |cancels|
    ensures var c := cancels[i]; STPLog(cancels)[i] == OrderCanceled(c.id, c.user, c.side, c.price, c.remain, c.filled, SelfTrade)
  {
    CancelsLength(cancels);
    CancelsLength(cancels[..|cancels| - 1]);
    if i < |cancels| - 1 {
      CancelAt(cancels[..|cancels| - 1], i);
    }
  }

  // ----- What depth means -----

  /** One quantity of every order at a price, and nothing of any other. */
  function AtPrice(price: int, f: Order -> int): Order -> int {
    (o: Order) => if o.price == price then f(o) else 0
  }

  lemma {:induction false} QueueAtPrice(os: seq<Order>, level: int, price: int, f: Order -> int)
    requires forall k :: 0 <= k < |os| ==> os[k].price == level
    ensures SumOf(os, AtPrice(price, f)) == if level == price then SumOf(os, f) else 0
  {
    if os != [] {
      QueueAtPrice(os[1..], level, price, f);
    }
  }

  lemma {:induction false} NoneAtPrice(ls: seq<Level>, side: Side, price: int, f: Order -> int)
    requires SoundSide(ls, side) && forall i :: 0 <= i < |ls| ==> ls[i].price != price
    ensures SumLevels(ls, AtPrice(price, f)) == 0
  {
    if ls != [] {
      assert SoundLevel(ls[0], side) && SoundSide(ls[1..], side);
      QueueAtPrice(ls[0].orders, ls[0].price, price, f);
      NoneAtPrice(ls[1..], side, price, f);
    }
  }

  /** What subscribers see of a price is what rests there: the working slices, the shown quantities and the number of all
      orders at that price; and there is no level exactly when there is no order. */
  lemma {:induction false} DepthIsWhatRests(ls: seq<Level>, side: Side, price: int)
    requires SoundSide(ls, side)
    ensures var seen, n := InfoAt(ls, price), SumLevels(ls, AtPrice(price, One));
            if seen == NoLevel then n == 0
            else n > 0 && seen.count == n && seen.total == SumLevels(ls, AtPrice(price, RemainOf)) && seen.display == SumLevels(ls, AtPrice(price, DisplayOf))
  {
    if ls != [] {
      assert SoundLevel(ls[0], side) && SoundSide(ls[1..], side);
      QueueAtPrice(ls[0].orders, ls[0].price, price, One);
      QueueAtPrice(ls[0].orders, ls[0].price, price, RemainOf);
      QueueAtPrice(ls[0].orders, ls[0].price, price, DisplayOf);
      SumOfOne(ls[0].orders);
      if ls[0].price == price {
        assert forall i :: 0 <= i < |ls[1..]| ==> ls[1..][i] == ls[i + 1] && Better(side, ls[0].price, ls[i + 1].price);
        NoneAtPrice(ls[1..], side, price, One);
        NoneAtPrice(ls[1..], side, price, RemainOf);
        NoneAtPrice(ls[1..], side, price, DisplayOf);
      } else {
        DepthIsWhatRests(ls[1..], side, price);
      }
    }
  }
}
