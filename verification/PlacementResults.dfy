/** What becomes of an order once matching is over: who may rest, who is canceled, who counts as filled. */
module PlacementResults {
  import opened Domain
  import opened BookSpec
  import opened BookLemmas
  import opened MatchSpec
  import opened MatchLemmas
  import opened MatchTheorems
  import opened MatchQuantities
  import opened MatchPriority
  import opened MatchScans
  import opened PlaceEffects

  /** Immediate-or-cancel orders and market orders have no place in the book. */
  predicate TakesOnly(o: Order) {
    o.tif == IOC || o.typ == Market
  }

  /** What matching leaves of an order that is not refused up front. */
  function Unmatched(b: Book, o: Order, clock: nat, default: STPMode): int {
    Run(Start(o, b, clock), default).taker.remain
  }

  /** They are never left resting, from any book and in any self-trade mode: their own side stays as it was. */
  lemma TakersNeverRest(b: Book, o: Order, clock: nat, default: STPMode, cap: nat)
    requires TakesOnly(o)
    ensures var out := Place(b, o, clock, default, cap);
            out.book.Of(o.side) == b.Of(o.side) && out.disposition != Rested && out.disposition != PartialFillRested
  {
    hide Run, Insert, Available, CanRestIn;
    RunTaker(Start(o, b, clock), default);
  }

  /** What matching left of an immediate-or-cancel order is canceled, and says whether anything was filled; of a
      market order of another time in force it is canceled, whatever was filled. */
  lemma TakersClosed(b: Book, o: Order, clock: nat, default: STPMode, cap: nat)
    requires SoundBook(b) && WFOrder(o) && TakesOnly(o) && o.tif != FOK
    ensures var out, left := Place(b, o, clock, default, cap), Unmatched(b, o, clock, default);
            && 0 <= left <= o.remain - TotalQty(out.fills)
            && (out.disposition == STPCanceledTaker
                || if left == 0 then out.disposition == FullyFilled
                   else out.disposition == if o.tif == IOC && out.fills != [] then PartialFillCanceled else Canceled)
  {
    hide Run, Insert, Available, CanRestIn, SoundSide, TotalQty;
    var m := Start(o, b, clock);
    RunTaker(m, default);
    RunTotals(m, default);
    NothingYet(o.id);
  }

  /** No own order on the other side is under the decrementing mode: the one mode that takes quantity from a taker
      without a trade and without ending the match. */
  ghost predicate NeverDecremented(o: Order, ls: seq<Level>, default: STPMode) {
    forall i, k :: 0 <= i < |ls| && 0 <= k < |ls[i].orders| ==> !Decrements(o, ls[i].orders[k], default)
  }

  predicate Decrements(o: Order, maker: Order, default: STPMode) {
    o.user == maker.user && Ruling(o.stp, maker.stp, default) == STPDecrementCancel
  }

  /** A queue of orders none of which is decremented, in front of levels of such orders. */
  lemma WithHeadNever(o: Order, ls: seq<Level>, os: seq<Order>, default: STPMode)
    requires ls != [] && NeverDecremented(o, ls, default) && forall k :: 0 <= k < |os| ==> !Decrements(o, os[k], default)
    ensures NeverDecremented(o, WithHead(ls, os), default)
  {
    var hs := WithHead(ls, os);
    forall i, k | 0 <= i < |hs| && 0 <= k < |hs[i].orders|
      ensures !Decrements(o, hs[i].orders[k], default)
    {
      if os == [] {
        assert hs[i] == ls[i + 1];
      } else if i > 0 {
        assert hs[i] == ls[i];
      }
    }
  }

  lemma TradeNever(m: Match, default: STPMode)
    requires Live(m) && NeverDecremented(m.taker, m.opp, default)
    ensures var n := Trade(m);
            NeverDecremented(n.taker, n.opp, default) && TotalQty(n.fills) + n.taker.remain == TotalQty(m.fills) + m.taker.remain
  {
    var os := m.opp[0].orders;
    assert forall k :: 0 <= k < |os| ==> !Decrements(m.taker, m.opp[0].orders[k], default);
    var t := TradedQueue(os, Min(os[0].remain, m.taker.remain), m.clock);
    assert forall k :: 0 <= k < |t| ==> !Decrements(m.taker, t[k], default);
    hide TotalQty, NeverDecremented, WithHead, TradedQueue, Info, Decrements;
    WithHeadNever(m.taker, m.opp, t, default);
    FillAdded(m.fills, Trade(m).fills[|m.fills|]);
    SameTaker(m.taker, Trade(m).taker, Trade(m).opp, default);
  }

  lemma SameTaker(o: Order, p: Order, ls: seq<Level>, default: STPMode)
    requires o.user == p.user && o.stp == p.stp && NeverDecremented(o, ls, default)
    ensures NeverDecremented(p, ls, default)
  {
    forall i, k | 0 <= i < |ls| && 0 <= k < |ls[i].orders|
      ensures !Decrements(p, ls[i].orders[k], default)
    {
      assert !Decrements(o, ls[i].orders[k], default);
    }
  }

  lemma PreventNever(m: Match, mode: STPMode, default: STPMode)
    requires Live(m) && NeverDecremented(m.taker, m.opp, default) && mode != STPDecrementCancel && mode != STPDisabled
    ensures var n := Prevent(m, mode);
            NeverDecremented(n.taker, n.opp, default) && n.fills == m.fills && (n.stopped || n.taker.remain == m.taker.remain)
  {
    var os := m.opp[0].orders;
    assert forall k :: 0 <= k < |os| ==> !Decrements(m.taker, m.opp[0].orders[k], default);
    hide NeverDecremented, WithHead, Decrements;
    WithHeadNever(m.taker, m.opp, os[1..], default);
    SameTaker(m.taker, Prevent(m, mode).taker, Prevent(m, mode).opp, default);
  }

  lemma StepNever(m: Match, default: STPMode)
    requires Live(m) && NeverDecremented(m.taker, m.opp, default)
    ensures var n := Step(m, default);
            && NeverDecremented(n.taker, n.opp, default)
            && (n.stopped || TotalQty(n.fills) + n.taker.remain == TotalQty(m.fills) + m.taker.remain)
  {
    var o := m.opp[0].orders[0];
    assert !Decrements(m.taker, o, default);
    hide NeverDecremented, Trade, Prevent, TotalQty;
    var mode := EffectiveSTP(m.taker, o, default);
    if STPApplies(m.taker, o, default) {
      PreventNever(m, mode, default);
    } else {
      TradeNever(m, default);
    }
  }

  lemma FillAdded(fills: seq<Fill>, f: Fill)
    ensures TotalQty(fills + [f]) == TotalQty(fills) + f.qty
  {
  }

  lemma {:induction false} RunNever(m: Match, default: STPMode)
    requires NeverDecremented(m.taker, m.opp, default)
    ensures var n := Run(m, default);
            n.stopped || TotalQty(n.fills) + n.taker.remain == TotalQty(m.fills) + m.taker.remain
    decreases if m.taker.remain > 0 then m.taker.remain else 0, SumLevels(m.opp, One)
  {
    hide Step, NeverDecremented, TotalQty;
    if Live(m) {
      Descend(m, default);
      StepNever(m, default);
      RunNever(Step(m, default), default);
      if Step(m, default).stopped {
        StoppedEnds(Step(m, default), default);
      }
    }
  }

  /** So, unless an own order is decremented, what the fills do not reach is what matching left. */
  lemma LeftExactly(b: Book, o: Order, clock: nat, default: STPMode, cap: nat)
    requires SoundBook(b) && WFOrder(o) && NeverDecremented(o, b.Of(o.side.Opposite()), default)
    ensures var out := Place(b, o, clock, default, cap);
            out.disposition == Rejected || out.disposition == STPCanceledTaker || Unmatched(b, o, clock, default) == o.remain - TotalQty(out.fills)
  {
    hide Run, Insert, Available, CanRestIn, NeverDecremented;
    RunNever(Start(o, b, clock), default);
    RunTaker(Start(o, b, clock), default);
  }

  /** Over the working slices of every resting order at a price the taker accepts. */
  function SliceWithin(taker: Order): Order -> int {
    (o: Order) => if Accepts(taker, o.price) then o.remain else 0
  }

  lemma {:induction false} SlicesAt(taker: Order, os: seq<Order>, price: int)
    requires forall k :: 0 <= k < |os| ==> os[k].price == price
    ensures SumOf(os, SliceWithin(taker)) == if Accepts(taker, price) then SumOf(os, RemainOf) else 0
  {
    if os != [] {
      SlicesAt(taker, os[1..], price);
    }
  }

  lemma {:induction false} NoneWithin(taker: Order, ls: seq<Level>, side: Side)
    requires SoundSide(ls, side) && taker.side == side.Opposite() && (ls != [] ==> !Accepts(taker, ls[0].price))
    ensures SumLevels(ls, SliceWithin(taker)) == 0
  {
    if ls != [] {
      assert ls[0] == ls[0] && SoundSide(ls[1..], side);
      assert ls[1..] != [] ==> ls[1..][0] == ls[1];
      SlicesAt(taker, ls[0].orders, ls[0].price);
      NoneWithin(taker, ls[1..], side);
    }
  }

  lemma {:induction false} AvailableIsTotal(taker: Order, ls: seq<Level>, side: Side)
    requires SoundSide(ls, side) && taker.side == side.Opposite()
    ensures Available(taker, ls) == SumLevels(ls, SliceWithin(taker))
  {
    if ls != [] {
      assert ls[0] == ls[0] && SoundSide(ls[1..], side);
      if Crosses(taker, ls[0].price) {
        SlicesAt(taker, ls[0].orders, ls[0].price);
        AvailableIsTotal(taker, ls[1..], side);
      } else {
        NoneWithin(taker, ls, side);
      }
    }
  }

  /** A fill-or-kill order is rejected, with nothing touched, exactly when the working slices of all orders at
      prices it accepts total less than its quantity; no other order ever is. */
  lemma RejectedExactly(b: Book, o: Order, clock: nat, default: STPMode, cap: nat)
    requires SoundBook(b)
    ensures var out := Place(b, o, clock, default, cap);
            && (out.disposition == Rejected <==> o.tif == FOK && SumLevels(b.Of(o.side.Opposite()), SliceWithin(o)) < o.remain)
            && (out.disposition == Rejected ==> out.book == b && out.fills == [] && out.cancels == [] && out.clock == clock)
  {
    hide Run, Insert, Available, CanRestIn, SoundSide;
    AvailableIsTotal(o, b.Of(o.side.Opposite()), o.side.Opposite());
    PlaceShape(b, o, clock, default, cap);
  }

  /** An order reported filled was filled by trades alone exactly when the scan of the opposite side, made before,
      reaches its quantity; else an own order was decremented against it. */
  lemma FilledByTradesExactly(b: Book, o: Order, clock: nat, default: STPMode, cap: nat)
    requires SoundBook(b) && WFOrder(o)
    ensures var out := Place(b, o, clock, default, cap);
            out.disposition == FullyFilled ==>
              (TotalQty(out.fills) == o.remain <==> Reach(o, b.Of(o.side.Opposite()), default) >= o.remain)
  {
    hide Run, Insert, Available, CanRestIn, SoundSide, Reach;
    RunFillsExactly(Start(o, b, clock), default, o.side.Opposite());
    RunTaker(Start(o, b, clock), default);
    NothingYet(o.id);
  }

  // ----- When an order rests -----

  /** The order ends up in the book exactly when it is of a kind that may rest, is not a fill-or-kill order the dry run
      refuses, is not ended by self-trade prevention, has quantity left, and finds its level or a free one. */
  lemma RestsExactly(b: Book, o: Order, clock: nat, default: STPMode, cap: nat)
    requires SoundBook(b) && WFOrder(o) && !Holds(b, o.id)
    ensures var out, m, opp := Place(b, o, clock, default, cap), Run(Start(o, b, clock), default), o.side.Opposite();
            && (Holds(out.book, o.id) <==>
                  && o.typ == Limit && o.tif != IOC && !m.stopped && m.taker.remain > 0
                  && !(o.tif == FOK && SumLevels(b.Of(opp), SliceWithin(o)) < o.remain)
                  && (HasLevel(b.Of(o.side), o.price) || |b.Of(o.side)| + |m.opp| < cap))
            && (Holds(out.book, o.id) <==> out.disposition == Rested || out.disposition == PartialFillRested)
            && (Holds(out.book, o.id) ==> out.disposition == if out.fills == [] then Rested else PartialFillRested)
  {
    hide Run, Insert, Available, HasLevel, SoundSide, Holds;
    var m := Start(o, b, clock);
    var n := Run(m, default);
    RunTaker(m, default);
    RunTakerWF(m, default, o.side.Opposite());
    FreshAfterRun(b, o, clock, default);
    AvailableIsTotal(o, b.Of(o.side.Opposite()), o.side.Opposite());
    HeldOnceRested(b.With(o.side.Opposite(), n.opp), n.taker);
    FreshStays(b, o);
  }

  lemma HeldOnceRested(b: Book, o: Order)
    requires !Holds(b, o.id)
    ensures Holds(Rest(b, o), o.id)
  {
    hide Insert;
    InsertSum(b.Of(o.side), o, HasId(o.id));
    SideCount(b.Of(o.side), o.id);
    SideCount(b.Of(o.side.Opposite()), o.id);
  }

  lemma FreshStays(b: Book, o: Order)
    requires !Holds(b, o.id)
    ensures forall side: Side :: SumLevels(b.Of(side), HasId(o.id)) == 0
  {
    SideCount(b.bids, o.id);
    SideCount(b.asks, o.id);
  }

  // ----- An order decremented away -----

  const OWN_OFFER := Order("maker", "alice", Ask, Limit, GTC, STPDisabled, false, 100, 4, 4, 0, 4, 0, 4, 1, 0)
  const OWN_TAKER := Order("taker", "alice", Bid, Limit, IOC, STPDecrementCancel, false, 100, 4, 4, 0, 4, 0, 4, 2, 0)

  /** An immediate order of 4 that only meets its user's own 4 counts as fully filled, though nothing traded. */
  lemma DecrementedCountsAsFilled()
    ensures var out := Place(Book([], [Level(100, [OWN_OFFER])]), OWN_TAKER, 2, STPDisabled, 10);
            out.disposition == FullyFilled && out.fills == [] && TotalQty(out.fills) < OWN_TAKER.remain
  {
    var b := Book([], [Level(100, [OWN_OFFER])]);
    var m := Start(OWN_TAKER, b, 2);
    assert m.opp[0].orders[1..] == [] && m.opp[1..] == [];
    var n := Step(m, STPDisabled);
    assert n.taker.remain == 0 && Run(m, STPDisabled) == Run(n, STPDisabled) == n;
  }
}
