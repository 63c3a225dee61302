/** What every step of a match keeps. */
module MatchLemmas {
  import opened Domain
  import opened BookSpec
  import opened MatchSpec

  /** The measure behind termination of the two nested loops. */
  ghost predicate Less(n: Match, m: Match) {
    n.taker.remain < m.taker.remain
    || (n.taker.remain == m.taker.remain && SumLevels(n.opp, One) < SumLevels(m.opp, One))
  }

  /** The taker keeps everything but its quantities, which never go negative. */
  lemma StepTaker(m: Match, default: STPMode)
    requires Live(m)
    ensures var n := Step(m, default);
            0 <= n.taker.remain && n.taker == m.taker.(remain := n.taker.remain, filled := n.taker.filled)
  {
  }

  /** The best level's queue with its head replaced by a live order, or gone, stays a queue of that level. */
  lemma HeadKeepsLevel(l: Level, side: Side, clock: nat, o: Order)
    requires WFLevel(l, side, clock) && WFOrder(o) && o.side == side && o.price == l.price && o.seqNum == l.orders[0].seqNum
    ensures WFLevel(Level(l.price, [o] + l.orders[1..]), side, clock)
  {
  }

  lemma WithHeadWF(ls: seq<Level>, side: Side, clock: nat, clock': nat, os: seq<Order>)
    requires WFSide(ls, side, clock) && ls != [] && clock <= clock'
    requires os != [] ==> WFLevel(Level(ls[0].price, os), side, clock')
    ensures WFSide(WithHead(ls, os), side, clock')
  {
    var hs := WithHead(ls, os);
    forall i | 0 <= i < |hs|
      ensures WFLevel(hs[i], side, clock')
    {
      if os == [] {
        assert hs[i] == ls[i + 1];
      } else if i > 0 {
        assert hs[i] == ls[i];
      }
    }
  }

  /** A traded queue is still a queue: positive slices, displayed in full, strictly increasing
      sequence numbers - the replenished order at the tail takes the fresh one. */
  lemma TradedWF(l: Level, side: Side, clock: nat, q: int)
    requires WFLevel(l, side, clock) && 0 < q <= l.orders[0].remain
    ensures var os := TradedQueue(l.orders, q, clock);
            os != [] ==> WFLevel(Level(l.price, os), side, if l.orders[0].remain == q && l.orders[0].hidden > 0 then clock + 1 else clock)
  {
  }

  /** Every step keeps the opposite side well-formed. */
  lemma StepWF(m: Match, default: STPMode, side: Side)
    requires Live(m) && WFSide(m.opp, side, m.clock)
    ensures var n := Step(m, default); m.clock <= n.clock && WFSide(n.opp, side, n.clock)
  {
    var l := m.opp[0];
    var q := Min(l.orders[0].remain, m.taker.remain);
    TradedWF(l, side, m.clock, q);
    WithHeadWF(m.opp, side, m.clock, Trade(m).clock, TradedQueue(l.orders, q, m.clock));
    WithHeadWF(m.opp, side, m.clock, m.clock, l.orders[1..]);
    if l.orders[0].remain > m.taker.remain {
      HeadKeepsLevel(l, side, m.clock, Decrement(l.orders[0], m.taker.remain));
      WithHeadWF(m.opp, side, m.clock, m.clock, [Decrement(l.orders[0], m.taker.remain)] + l.orders[1..]);
    }
  }

  lemma WithHeadSound(ls: seq<Level>, side: Side, os: seq<Order>)
    requires SoundSide(ls, side) && ls != [] && (os != [] ==> SoundLevel(Level(ls[0].price, os), side))
    ensures SoundSide(WithHead(ls, os), side)
  {
    var hs := WithHead(ls, os);
    forall i | 0 <= i < |hs|
      ensures SoundLevel(hs[i], side)
    {
      if os == [] {
        assert hs[i] == ls[i + 1];
      } else if i > 0 {
        assert hs[i] == ls[i];
      }
    }
  }

  lemma TradedSound(l: Level, side: Side, q: int, clock: nat)
    requires SoundLevel(l, side) && 0 < q <= l.orders[0].remain
    ensures var os := TradedQueue(l.orders, q, clock); os != [] ==> SoundLevel(Level(l.price, os), side)
  {
  }

  lemma HeadSound(l: Level, side: Side, o: Order)
    requires SoundLevel(l, side) && WFOrder(o) && o.side == side && o.price == l.price
    ensures SoundLevel(Level(l.price, [o] + l.orders[1..]), side) && (l.orders[1..] != [] ==> SoundLevel(Level(l.price, l.orders[1..]), side))
  {
  }

  /** Matching needs no time priority to keep the opposite side sound. */
  lemma StepSound(m: Match, default: STPMode, side: Side)
    requires Live(m) && SoundSide(m.opp, side)
    ensures var n := Step(m, default); m.clock <= n.clock && SoundSide(n.opp, side)
  {
    var l := m.opp[0];
    var q := Min(l.orders[0].remain, m.taker.remain);
    TradedSound(l, side, q, m.clock);
    WithHeadSound(m.opp, side, TradedQueue(l.orders, q, m.clock));
    HeadSound(l, side, l.orders[0]);
    WithHeadSound(m.opp, side, l.orders[1..]);
    if l.orders[0].remain > m.taker.remain {
      HeadSound(l, side, Decrement(l.orders[0], m.taker.remain));
      WithHeadSound(m.opp, side, [Decrement(l.orders[0], m.taker.remain)] + l.orders[1..]);
    }
  }

  /** A trade only adds a fill; a prevention only cancels. */
  lemma StepLists(m: Match, mode: STPMode)
    requires m.opp != [] && m.opp[0].orders != []
    ensures Trade(m).cancels == m.cancels + [] && Trade(m).stopped == m.stopped
    ensures Prevent(m, mode).fills == m.fills + []
  {
  }

  lemma {:induction false} SumRemainPositive(os: seq<Order>)
    requires forall i :: 0 <= i < |os| ==> os[i].remain > 0
    ensures SumOf(os, RemainOf) >= |os|
  {
    if os != [] {
      SumRemainPositive(os[1..]);
    }
  }

  lemma {:induction false} AvailableNonNegative(taker: Order, ls: seq<Level>, side: Side)
    requires SoundSide(ls, side)
    ensures Available(taker, ls) >= 0
  {
    if ls != [] && Crosses(taker, ls[0].price) {
      SumRemainPositive(ls[0].orders);
      assert SoundSide(ls[1..], side);
      AvailableNonNegative(taker, ls[1..], side);
    }
  }

  /** A sum over the queue after its head traded. */
  lemma TradedSum(os: seq<Order>, q: int, clock: nat, f: Order -> int)
    requires os != []
    ensures var maker := Decrement(os[0], q);
            SumOf(TradedQueue(os, q, clock), f) == SumOf(os, f) - f(os[0])
              + if maker.remain != 0 then f(maker) else if os[0].hidden > 0 then f(Replenish(maker, clock + 1)) else 0
  {
    hide Replenish;
    SumOfConcat(os[1..], [Replenish(Decrement(os[0], q), clock + 1)], f);
    assert ([Decrement(os[0], q)] + os[1..])[1..] == os[1..];
    SumOfSingle(Replenish(Decrement(os[0], q), clock + 1), f);
  }

  /** How a sum over the opposite side changes in one step: the head leaves, perhaps for a successor. */
  lemma StepSum(m: Match, default: STPMode, f: Order -> int)
    requires m.opp != [] && m.opp[0].orders != []
    ensures var head := m.opp[0].orders[0]; var q := Min(head.remain, m.taker.remain);
            SumLevels(Trade(m).opp, f) == SumLevels(m.opp, f) - f(head)
              + if Decrement(head, q).remain != 0 then f(Decrement(head, q))
                else if head.hidden > 0 then f(Replenish(Decrement(head, q), m.clock + 1)) else 0
    ensures SumLevels(WithHead(m.opp, m.opp[0].orders[1..]), f) == SumLevels(m.opp, f) - f(m.opp[0].orders[0])
    ensures forall o :: SumLevels(WithHead(m.opp, [o] + m.opp[0].orders[1..]), f) == SumLevels(m.opp, f) - f(m.opp[0].orders[0]) + f(o)
  {
    hide TradedQueue, Replenish, Decrement, WithHead;
    var os := m.opp[0].orders;
    var q := Min(os[0].remain, m.taker.remain);
    TradedSum(os, q, m.clock, f);
    WithHeadSum(m.opp, TradedQueue(os, q, m.clock), f);
    WithHeadSum(m.opp, os[1..], f);
    forall o
      ensures SumLevels(WithHead(m.opp, [o] + os[1..]), f) == SumLevels(m.opp, f) - f(os[0]) + f(o)
    {
      WithHeadSum(m.opp, [o] + os[1..], f);
      assert ([o] + os[1..])[1..] == os[1..];
    }
  }

  lemma StepIds(m: Match, default: STPMode, id: OrderId)
    requires Live(m)
    ensures SumLevels(Step(m, default).opp, HasId(id)) <= SumLevels(m.opp, HasId(id))
  {
    hide SumLevels, WithHead, TradedQueue;
    StepSum(m, default, HasId(id));
  }

  /** Matching brings no new id to the opposite side. */
  lemma {:induction false} RunIds(m: Match, default: STPMode, id: OrderId)
    ensures SumLevels(Run(m, default).opp, HasId(id)) <= SumLevels(m.opp, HasId(id))
    decreases if m.taker.remain > 0 then m.taker.remain else 0, SumLevels(m.opp, One)
  {
    hide Step;
    if Live(m) {
      StepDecreases(m, default);
      SumOneNonNegative(Step(m, default).opp);
      StepIds(m, default, id);
      RunIds(Step(m, default), default, id);
    }
  }

  /** The taker leaves a match as it came but for its quantities, and its id is still not resting. */
  lemma {:induction false} RunTaker(m: Match, default: STPMode)
    ensures var n := Run(m, default); n.taker == m.taker.(remain := n.taker.remain, filled := n.taker.filled)
    decreases if m.taker.remain > 0 then m.taker.remain else 0, SumLevels(m.opp, One)
  {
    if Live(m) {
      StepDecreases(m, default);
      SumOneNonNegative(Step(m, default).opp);
      StepTaker(m, default);
      RunTaker(Step(m, default), default);
    }
  }

  lemma FreshAfterRun(b: Book, taker: Order, clock: nat, default: STPMode)
    requires !Holds(b, taker.id)
    ensures var m := Run(Start(taker, b, clock), default);
            m.taker == taker.(remain := m.taker.remain, filled := m.taker.filled)
            && !Holds(b.With(taker.side.Opposite(), m.opp), taker.id)
  {
    RunTaker(Start(taker, b, clock), default);
    RunIds(Start(taker, b, clock), default, taker.id);
    SideCount(b.Of(taker.side), taker.id);
    SideCount(b.Of(taker.side.Opposite()), taker.id);
  }

  /** One step of the dry run's scan; what is still ahead is never negative. */
  lemma ScanStep(taker: Order, ls: seq<Level>, i: nat, side: Side)
    requires SoundSide(ls, side) && i < |ls|
    ensures Available(taker, ls[i..]) == if Crosses(taker, ls[i].price) then SumOf(ls[i].orders, RemainOf) + Available(taker, ls[i + 1..]) else 0
    ensures Available(taker, ls[i + 1..]) >= 0
  {
    assert ls[i..][1..] == ls[i + 1..];
    assert SoundSide(ls[i + 1..], side);
    AvailableNonNegative(taker, ls[i + 1..], side);
  }
}
