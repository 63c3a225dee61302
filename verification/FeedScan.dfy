/** Self-trade prevention changes levels without announcing it. A scan of the opposite side, made before
    matching, decides whether what the fills announce still describes it afterwards. */
module FeedScan {
  import opened Domain
  import opened BookSpec
  import opened MatchSpec
  import opened MatchLemmas
  import opened MatchTheorems
  import opened MatchQuantities
  import opened MatchScans

  // ----- The scan -----

  /** One level worked through: what the taker has left, whether the level was changed without being traded
      at afterwards, and whether the taker was stopped. */
  datatype Pass = Pass(remain: int, unannounced: bool, stopped: bool)

  /** Work through a queue, with `reserve` to be served behind it by refilled slices. */
  function Walk(taker: Order, os: seq<Order>, r: int, reserve: int, unannounced: bool, default: STPMode): Pass {
    if r <= 0 then Pass(r, unannounced, false)
    else if os == [] then if reserve > 0 then Pass(r - Min(r, reserve), false, false) else Pass(r, unannounced, false)
    else
      var o, rest := os[0], os[1..];
      if !STPApplies(taker, o, default) then
        Walk(taker, rest, r - Min(o.remain, r), if o.remain <= r then reserve + o.hidden else reserve, false, default)
      else
        match EffectiveSTP(taker, o, default)
        case STPCancelMaker => Walk(taker, rest, r, reserve, true, default)
        case STPDecrementCancel =>
          if o.remain > r then Pass(0, true, true) else Walk(taker, rest, r - o.remain, reserve, true, default)
        case STPCancelBoth => Pass(0, true, true)
        case _ => Pass(0, unannounced, true)
  }

  /** Level after level, as long as the taker crosses: no level is left changed and not traded at since. */
  predicate FeedKept(taker: Order, ls: seq<Level>, r: int, unannounced: bool, default: STPMode) {
    if ls == [] || r <= 0 || !Crosses(taker, ls[0].price) then !unannounced
    else
      var w := Walk(taker, ls[0].orders, r, 0, unannounced, default);
      !w.unannounced && (w.stopped || FeedKept(taker, ls[1..], w.remain, false, default))
  }

  // ----- The scan follows the match -----

  lemma {:induction false} SameWalk(a: Order, b: Order, os: seq<Order>, r: int, reserve: int, unannounced: bool, default: STPMode)
    requires Alike(a, b)
    ensures Walk(a, os, r, reserve, unannounced, default) == Walk(b, os, r, reserve, unannounced, default)
    decreases os
  {
    if os != [] {
      var o := os[0];
      SameWalk(a, b, os[1..], r - Min(o.remain, r), if o.remain <= r then reserve + o.hidden else reserve, false, default);
      SameWalk(a, b, os[1..], r, reserve, true, default);
      SameWalk(a, b, os[1..], r - o.remain, reserve, true, default);
    }
  }

  lemma {:induction false} SameFeed(a: Order, b: Order, ls: seq<Level>, r: int, unannounced: bool, default: STPMode)
    requires Alike(a, b)
    ensures FeedKept(a, ls, r, unannounced, default) == FeedKept(b, ls, r, unannounced, default)
    decreases ls
  {
    hide Walk;
    if ls != [] {
      SameWalk(a, b, ls[0].orders, r, 0, unannounced, default);
      SameFeed(a, b, ls[1..], Walk(a, ls[0].orders, r, 0, unannounced, default).remain, false, default);
    }
  }

  /** A refilled slice at the tail, with its reserve, is served like any reserve. */
  lemma {:induction false} WalkTail(taker: Order, os: seq<Order>, z: Order, r: int, reserve: int, unannounced: bool, default: STPMode)
    requires !STPApplies(taker, z, default) && z.remain > 0 && z.hidden >= 0 && reserve >= 0
    requires forall k :: 0 <= k < |os| ==> os[k].hidden >= 0
    ensures Walk(taker, os + [z], r, reserve, unannounced, default)
         == Walk(taker, os, r, reserve + z.remain + z.hidden, unannounced, default)
    decreases os
  {
    if os == [] {
      assert os + [z] == [z];
      WalkLast(taker, z, r, reserve, unannounced, default);
    } else if r > 0 {
      var o := os[0];
      assert (os + [z])[0] == o && (os + [z])[1..] == os[1..] + [z];
      if !STPApplies(taker, o, default) {
        WalkTail(taker, os[1..], z, r - Min(o.remain, r), if o.remain <= r then reserve + o.hidden else reserve, false, default);
      } else if EffectiveSTP(taker, o, default) == STPCancelMaker {
        WalkTail(taker, os[1..], z, r, reserve, true, default);
      } else {
        WalkTail(taker, os[1..], z, r - o.remain, reserve, true, default);
      }
    }
  }

  lemma WalkLast(taker: Order, z: Order, r: int, reserve: int, unannounced: bool, default: STPMode)
    requires !STPApplies(taker, z, default) && z.remain > 0 && z.hidden >= 0 && reserve >= 0
    ensures Walk(taker, [z], r, reserve, unannounced, default) == Walk(taker, [], r, reserve + z.remain + z.hidden, unannounced, default)
  {
    assert [z][1..] == [];
    if r > 0 {
      assert Walk(taker, [z], r, reserve, unannounced, default)
          == Walk(taker, [], r - Min(z.remain, r), if z.remain <= r then reserve + z.hidden else reserve, false, default);
    }
  }

  /** One trade: the walk goes on from the traded queue. */
  lemma WalkTrade(taker: Order, os: seq<Order>, r: int, clock: nat, unannounced: bool, default: STPMode)
    requires os != [] && r > 0 && !STPApplies(taker, os[0], default) && forall k :: 0 <= k < |os| ==> WFOrder(os[k])
    ensures var q := Min(os[0].remain, r);
            Walk(taker, os, r, 0, unannounced, default) == Walk(taker, TradedQueue(os, q, clock), r - q, 0, false, default)
  {
    var o, q := os[0], Min(os[0].remain, r);
    var z := Replenish(Decrement(o, q), clock + 1);
    if o.remain <= r && o.hidden > 0 {
      WalkTail(taker, os[1..], z, r - q, 0, false, default);
    }
  }

  /** One self-trade action: the walk goes on without the head, or ends with the taker stopped. */
  lemma WalkPrevent(m: Match, default: STPMode, unannounced: bool)
    requires Live(m) && STPApplies(m.taker, m.opp[0].orders[0], default)
    ensures var n, os := Step(m, default), m.opp[0].orders;
            var w := Walk(m.taker, os, m.taker.remain, 0, unannounced, default);
            && n.fills == m.fills
            && (!n.stopped ==>
                  n.opp == WithHead(m.opp, os[1..]) && w == Walk(m.taker, os[1..], n.taker.remain, 0, true, default))
            && (n.stopped ==> (w == Pass(0, true, true) && Cut(m.opp, n.opp, m.taker.remain)) || (w == Pass(0, unannounced, true) && n.opp == m.opp))
  {
  }

  /** The head of the best level is gone, or shorter by `r`. */
  ghost predicate Cut(was: seq<Level>, now: seq<Level>, r: int) {
    && was != [] && was[0].orders != []
    && (now == WithHead(was, was[0].orders[1..]) || now == WithHead(was, [Decrement(was[0].orders[0], r)] + was[0].orders[1..]))
  }

  // ----- Known and actual levels -----

  /** What is known of a level says more than there is: no removal can mend that. */
  ghost predicate Stale(known: LevelInfo, os: seq<Order>) {
    known.LevelInfo? && (known.count > |os| || (known.count == |os| && known.total > SumOf(os, RemainOf)))
  }

  /** What the fills announced, on top of what was known before, of the price `p`. */
  function Known(fills: seq<Fill>, was: seq<Level>, p: int): LevelInfo {
    Announced(fills, p, InfoAt(was, p))
  }

  /** All prices are known as they are - but the best, when it has a change unannounced. */
  ghost predicate InStep(m: Match, was: seq<Level>, unannounced: bool) {
    && (forall p :: (unannounced ==> m.opp == [] || p != m.opp[0].price) ==> Known(m.fills, was, p) == InfoAt(m.opp, p))
    && (unannounced ==> m.opp != [] && Stale(Known(m.fills, was, m.opp[0].price), m.opp[0].orders))
  }

  /** The fills announce all that changed from `was` to `now`. */
  ghost predicate Announces(fills: seq<Fill>, was: seq<Level>, now: seq<Level>) {
    forall p :: Known(fills, was, p) == InfoAt(now, p)
  }

  ghost predicate AllKnown(m: Match, was: seq<Level>) {
    Announces(m.fills, was, m.opp)
  }

  lemma StepTrade(m: Match, was: seq<Level>, side: Side, unannounced: bool)
    requires Live(m) && SoundSide(m.opp, side) && InStep(m, was, unannounced)
    ensures AllKnown(Trade(m), was)
  {
    var n := Trade(m);
    assert n.fills[..|m.fills|] == m.fills && n.fills[|m.fills|].price == m.opp[0].price;
    forall p
      ensures Known(n.fills, was, p) == InfoAt(n.opp, p)
    {
      TradeInfo(m, side, p);
    }
  }

  /** Shortening the best level leaves every other price as it was. */
  lemma HeadInfo(ls: seq<Level>, os: seq<Order>, side: Side, p: int)
    requires ls != [] && SoundSide(ls, side)
    ensures InfoAt(WithHead(ls, os), p) == if p == ls[0].price then Info(os) else InfoAt(ls, p)
  {
    if os == [] {
      if p == ls[0].price {
        NoInfo(ls[1..], p);
      }
    } else {
      assert WithHead(ls, os)[1..] == ls[1..];
    }
  }

  /** Less than was known before: known or stale, the level is stale now. */
  lemma CutStale(known: LevelInfo, os: seq<Order>, r: int)
    requires os != [] && (known == Info(os) || Stale(known, os)) && 0 < r
    ensures Stale(known, os[1..]) && Stale(known, [Decrement(os[0], r)] + os[1..])
  {
    assert ([Decrement(os[0], r)] + os[1..])[1..] == os[1..];
  }

  lemma StaleDiffers(known: LevelInfo, os: seq<Order>)
    requires Stale(known, os)
    ensures known != Info(os)
  {
  }

  /** Once a price is left with something unannounced, it stays so: nothing trades there again. */
  lemma {:induction false} RunForgets(m: Match, default: STPMode, side: Side, was: seq<Level>, p: int)
    requires SoundSide(m.opp, side) && forall i :: 0 <= i < |m.opp| ==> m.opp[i].price != p
    ensures var n := Run(m, default); Known(n.fills, was, p) == Known(m.fills, was, p) && InfoAt(n.opp, p) == NoLevel
    decreases if m.taker.remain > 0 then m.taker.remain else 0, SumLevels(m.opp, One)
  {
    if Live(m) {
      Descend(m, default);
      StepSound(m, default, side);
      StepForgets(m, default, was, p);
      RunForgets(Step(m, default), default, side, was, p);
    } else {
      NoInfo(m.opp, p);
    }
  }

  lemma StepForgets(m: Match, default: STPMode, was: seq<Level>, p: int)
    requires Live(m) && forall i :: 0 <= i < |m.opp| ==> m.opp[i].price != p
    ensures var n := Step(m, default);
            (forall i :: 0 <= i < |n.opp| ==> n.opp[i].price != p) && Known(n.fills, was, p) == Known(m.fills, was, p)
  {
    StepLists(m, EffectiveSTP(m.taker, m.opp[0].orders[0], default));
    assert Trade(m).fills[..|m.fills|] == m.fills;
  }

  // ----- The feed after a match -----

  /** Whether a level is left with something unannounced, seen from the head's price. */
  lemma HeadDecides(m: Match, was: seq<Level>, unannounced: bool, side: Side)
    requires InStep(m, was, unannounced) && SoundSide(m.opp, side)
    ensures AllKnown(m, was) <==> !unannounced
  {
    if unannounced {
      StaleDiffers(Known(m.fills, was, m.opp[0].price), m.opp[0].orders);
      assert InfoAt(m.opp, m.opp[0].price) == Info(m.opp[0].orders);
    }
  }

  /** The head was cut short: its price is stale, the others are as they were. */
  lemma CutHead(m: Match, was: seq<Level>, side: Side, unannounced: bool, n: Match, os: seq<Order>)
    requires Live(m) && SoundSide(m.opp, side) && InStep(m, was, unannounced) && n.fills == m.fills && n.opp == WithHead(m.opp, os)
    requires os == m.opp[0].orders[1..] || os == [Decrement(m.opp[0].orders[0], m.taker.remain)] + m.opp[0].orders[1..]
    ensures Stale(Known(n.fills, was, m.opp[0].price), os) && !AllKnown(n, was)
    ensures os != [] ==> InStep(n, was, true)
    ensures os == [] ==> n.opp == m.opp[1..]
  {
    var p0 := m.opp[0].price;
    var known := Known(m.fills, was, p0);
    assert InfoAt(m.opp, p0) == Info(m.opp[0].orders);
    CutStale(known, m.opp[0].orders, m.taker.remain);
    StaleDiffers(known, os);
    forall p
      ensures InfoAt(n.opp, p) == if p == p0 then Info(os) else InfoAt(m.opp, p)
    {
      HeadInfo(m.opp, os, side, p);
    }
  }

  lemma IdleFeed(m: Match, default: STPMode, side: Side, unannounced: bool)
    requires !Live(m) && !m.stopped && m.taker.remain >= 0 && SoundSide(m.opp, side)
    ensures FeedKept(m.taker, m.opp, m.taker.remain, unannounced, default) == !unannounced
  {
    hide Walk;
  }

  lemma AllInStep(m: Match, was: seq<Level>)
    requires AllKnown(m, was)
    ensures InStep(m, was, false)
  {
  }

  /** The scan of a queue and the levels behind it. */
  predicate KeptFrom(taker: Order, os: seq<Order>, behind: seq<Level>, r: int, unannounced: bool, default: STPMode) {
    var w := Walk(taker, os, r, 0, unannounced, default);
    !w.unannounced && (w.stopped || FeedKept(taker, behind, w.remain, false, default))
  }

  lemma KeptHead(taker: Order, ls: seq<Level>, os: seq<Order>, r: int, unannounced: bool, default: STPMode)
    requires ls != [] && Crosses(taker, ls[0].price) && r >= 0
    ensures os != [] ==> FeedKept(taker, WithHead(ls, os), r, unannounced, default) == KeptFrom(taker, os, ls[1..], r, unannounced, default)
    ensures os == [] && !unannounced ==> FeedKept(taker, WithHead(ls, os), r, false, default) == KeptFrom(taker, os, ls[1..], r, false, default)
    ensures os == [] && unannounced ==> !KeptFrom(taker, os, ls[1..], r, true, default)
  {
    if os != [] {
      assert WithHead(ls, os)[1..] == ls[1..];
    }
  }

  /** A trade takes the scan with it. */
  lemma FeedTrade(m: Match, default: STPMode, side: Side, unannounced: bool)
    requires Live(m) && SoundSide(m.opp, side) && !STPApplies(m.taker, m.opp[0].orders[0], default)
    ensures var n := Trade(m);
            FeedKept(n.taker, n.opp, n.taker.remain, false, default) == FeedKept(m.taker, m.opp, m.taker.remain, unannounced, default)
  {
    hide Walk, TradedQueue, FeedKept;
    var os := m.opp[0].orders;
    var q := Min(os[0].remain, m.taker.remain);
    WalkTrade(m.taker, os, m.taker.remain, m.clock, unannounced, default);
    assert WithHead(m.opp, os) == m.opp;
    KeptHead(m.taker, m.opp, os, m.taker.remain, unannounced, default);
    KeptHead(m.taker, m.opp, TradedQueue(os, q, m.clock), m.taker.remain - q, false, default);
    SameFeed(m.taker, Trade(m).taker, Trade(m).opp, m.taker.remain - q, false, default);
  }

  /** A self-trade action takes the scan with it, or decides it. */
  lemma FeedPrevent(m: Match, default: STPMode, side: Side, was: seq<Level>, unannounced: bool)
    requires Live(m) && SoundSide(m.opp, side) && STPApplies(m.taker, m.opp[0].orders[0], default) && InStep(m, was, unannounced)
    ensures var n, kept := Step(m, default), FeedKept(m.taker, m.opp, m.taker.remain, unannounced, default);
            && (n.stopped ==> (AllKnown(n, was) <==> kept))
            && (!n.stopped && m.opp[0].orders[1..] == [] ==> !kept && n.opp == m.opp[1..] && Known(n.fills, was, m.opp[0].price) != NoLevel)
            && (!n.stopped && m.opp[0].orders[1..] != [] ==>
                  InStep(n, was, true) && FeedKept(n.taker, n.opp, n.taker.remain, true, default) == kept)
  {
    hide Walk, FeedKept, Step, InStep, AllKnown, Known;
    var n, os := Step(m, default), m.opp[0].orders;
    var rest := os[1..];
    WalkPrevent(m, default, unannounced);
    StepTaker(m, default);
    assert WithHead(m.opp, os) == m.opp;
    KeptHead(m.taker, m.opp, os, m.taker.remain, unannounced, default);
    if !n.stopped {
      CutHead(m, was, side, unannounced, n, rest);
      KeptHead(m.taker, m.opp, rest, n.taker.remain, true, default);
      SameFeed(m.taker, n.taker, n.opp, n.taker.remain, true, default);
    } else if n.opp == m.opp && Walk(m.taker, os, m.taker.remain, 0, unannounced, default) == Pass(0, unannounced, true) {
      HeadDecides(m, was, unannounced, side);
      SameKnown(m, n, was);
    } else {
      if n.opp == WithHead(m.opp, rest) {
        CutHead(m, was, side, unannounced, n, rest);
      } else {
        CutHead(m, was, side, unannounced, n, [Decrement(os[0], m.taker.remain)] + rest);
      }
    }
  }

  lemma SameKnown(m: Match, n: Match, was: seq<Level>)
    requires n.opp == m.opp && n.fills == m.fills
    ensures AllKnown(n, was) <==> AllKnown(m, was)
  {
  }

  /** A level that vanished unannounced stays wrong. */
  lemma EmptiedAhead(m: Match, n: Match, default: STPMode, side: Side, was: seq<Level>)
    requires m.opp != [] && SoundSide(m.opp, side) && n.opp == m.opp[1..] && Known(n.fills, was, m.opp[0].price) != NoLevel
    ensures !AllKnown(Run(n, default), was)
  {
    RunForgets(n, default, side, was, m.opp[0].price);
    hide Run, Known;
  }

  /** After matching, folding the announced levels gives the opposite side exactly when the scan says so. */
  lemma {:induction false} RunFeed(m: Match, default: STPMode, side: Side, was: seq<Level>, unannounced: bool)
    requires SoundSide(m.opp, side) && m.taker.remain >= 0 && !m.stopped && InStep(m, was, unannounced)
    ensures AllKnown(Run(m, default), was) <==> FeedKept(m.taker, m.opp, m.taker.remain, unannounced, default)
    decreases m.taker.remain, SumLevels(m.opp, One)
  {
    hide Step, SoundSide, Walk, InStep, AllKnown, Known, Stale, InfoAt, FeedKept;
    if !Live(m) {
      HeadDecides(m, was, unannounced, side);
      IdleFeed(m, default, side, unannounced);
    } else {
      Descend(m, default);
      StepSound(m, default, side);
      if STPApplies(m.taker, m.opp[0].orders[0], default) {
        FeedPrevent(m, default, side, was, unannounced);
        var n := Step(m, default);
        if !n.stopped {
          if m.opp[0].orders[1..] == [] {
            EmptiedAhead(m, n, default, side, was);
          } else {
            RunFeed(n, default, side, was, true);
          }
        } else {
          StoppedEnds(n, default);
        }
      } else {
        StepIsTrade(m, default);
        StepTrade(m, was, side, unannounced);
        AllInStep(Trade(m), was);
        FeedTrade(m, default, side, unannounced);
        RunFeed(Trade(m), default, side, was, false);
      }
    }
  }
}
