/** What a whole match guarantees, for every taker and every well-formed book. */
module MatchTheorems {
  import opened Domain
  import opened BookSpec
  import opened BookLemmas
  import opened MatchSpec
  import opened MatchLemmas

  /** Termination of every induction over a run. */
  lemma Descend(m: Match, default: STPMode)
    requires Live(m)
    ensures Less(Step(m, default), m) && Step(m, default).taker.remain >= 0 && SumLevels(Step(m, default).opp, One) >= 0
  {
    StepDecreases(m, default);
    SumOneNonNegative(Step(m, default).opp);
  }

  // ----- Well-formedness and exhaustion -----

  lemma {:induction false} RunWF(m: Match, default: STPMode, side: Side)
    requires WFSide(m.opp, side, m.clock)
    ensures var n := Run(m, default); m.clock <= n.clock && WFSide(n.opp, side, n.clock)
    decreases if m.taker.remain > 0 then m.taker.remain else 0, SumLevels(m.opp, One)
  {
    if Live(m) {
      Descend(m, default);
      StepWF(m, default, side);
      RunWF(Step(m, default), default, side);
    }
  }

  /** Without time priority, which matching does not rely on, the opposite side stays sound all the same. */
  lemma {:induction false} RunSound(m: Match, default: STPMode, side: Side)
    requires SoundSide(m.opp, side)
    ensures var n := Run(m, default); m.clock <= n.clock && SoundSide(n.opp, side)
    decreases if m.taker.remain > 0 then m.taker.remain else 0, SumLevels(m.opp, One)
  {
    if Live(m) {
      Descend(m, default);
      StepSound(m, default, side);
      RunSound(Step(m, default), default, side);
    }
  }

  /** A run is over exactly when the loop guard is false: it never gets stuck with work left. */
  lemma {:induction false} RunDone(m: Match, default: STPMode, side: Side)
    requires SoundSide(m.opp, side)
    ensures !Active(Run(m, default))
    decreases if m.taker.remain > 0 then m.taker.remain else 0, SumLevels(m.opp, One)
  {
    if Live(m) {
      Descend(m, default);
      StepSound(m, default, side);
      RunDone(Step(m, default), default, side);
    }
  }

  /** Matching never adds levels and never improves the best opposite price. */
  ghost predicate Shrunk(was: seq<Level>, now: seq<Level>, side: Side) {
    |now| <= |was| && (now != [] ==> !Better(side, now[0].price, was[0].price))
  }

  lemma StepShrinks(m: Match, default: STPMode, side: Side)
    requires Live(m) && SoundSide(m.opp, side)
    ensures Shrunk(m.opp, Step(m, default).opp, side)
  {
    hide SoundLevel, TradedQueue;
  }

  lemma {:induction false} RunShrinks(m: Match, default: STPMode, side: Side)
    requires SoundSide(m.opp, side)
    ensures Shrunk(m.opp, Run(m, default).opp, side)
    decreases if m.taker.remain > 0 then m.taker.remain else 0, SumLevels(m.opp, One)
  {
    hide Step, SoundSide;
    if Live(m) {
      Descend(m, default);
      StepSound(m, default, side);
      StepShrinks(m, default, side);
      RunShrinks(Step(m, default), default, side);
    }
  }

  /** Crossing is downward closed: what a limit crosses it crosses all the way to the best price. */
  lemma CrossesBest(taker: Order, ls: seq<Level>, side: Side, i: nat)
    requires SoundSide(ls, side) && taker.side == side.Opposite() && i < |ls| && Crosses(taker, ls[i].price)
    ensures Crosses(taker, ls[0].price)
  {
  }

  /** What the book needs of an incoming order: a positive slice, displayed, lot-backed reserve, the newest number. */
  ghost predicate WFTaker(o: Order, clock: nat) {
    WFOrder(o) && o.seqNum == clock
  }

  /** Placing an order with the newest sequence number keeps the whole book well-formed: sorted levels,
      positive displayed slices, and strictly increasing sequence numbers in every queue. */
  lemma PlaceWF(b: Book, taker: Order, clock: nat, default: STPMode, cap: nat)
    requires clock > 0 && WFBook(b, clock - 1) && WFTaker(taker, clock)
    ensures var out := Place(b, taker, clock, default, cap); clock <= out.clock && WFBook(out.book, out.clock)
  {
    hide Run, Insert, Available, CanRestIn, WFSide, SoundSide;
    WFSound(b, clock - 1);
    var side := taker.side.Opposite();
    var m := Start(taker, b, clock);
    var n := Run(m, default);
    LaterClock(b.bids, Bid, clock - 1, clock);
    LaterClock(b.asks, Ask, clock - 1, clock);
    RunWF(m, default, side);
    RunTaker(m, default);
    RunTakerWF(m, default, side);
    LaterClock(b.Of(taker.side), taker.side, clock - 1, n.clock);
    if n.taker.remain > 0 {
      InsertWF(b.Of(taker.side), n.taker, taker.side, clock - 1, n.clock);
    }
  }

  /** Placing any order, whatever its number, keeps the book sound. */
  lemma PlaceSound(b: Book, taker: Order, clock: nat, default: STPMode, cap: nat)
    requires SoundBook(b) && WFOrder(taker)
    ensures var out := Place(b, taker, clock, default, cap); clock <= out.clock && SoundBook(out.book)
  {
    hide Run, Insert, Available, CanRestIn, SoundSide;
    var side := taker.side.Opposite();
    var m := Start(taker, b, clock);
    var n := Run(m, default);
    RunSound(m, default, side);
    RunTaker(m, default);
    RunTakerWF(m, default, side);
    if n.taker.remain > 0 {
      InsertSound(b.Of(taker.side), n.taker, taker.side);
    }
  }

  /** The taker's remainder never exceeds what it displays, nor goes negative. */
  lemma {:induction false} RunTakerWF(m: Match, default: STPMode, side: Side)
    requires SoundSide(m.opp, side) && 0 <= m.taker.remain <= m.taker.display
    ensures 0 <= Run(m, default).taker.remain <= m.taker.remain
    decreases if m.taker.remain > 0 then m.taker.remain else 0, SumLevels(m.opp, One)
  {
    if Live(m) {
      Descend(m, default);
      StepTaker(m, default);
      StepSound(m, default, side);
      RunTakerWF(Step(m, default), default, side);
    }
  }

  // ----- No crossing -----

  /** A node that `match` rests crosses no opposite level - from any book, even a crossed one. */
  lemma RestedCrossesNothing(b: Book, taker: Order, clock: nat, default: STPMode, cap: nat)
    requires SoundBook(b) && WFOrder(taker)
    requires Place(b, taker, clock, default, cap).disposition in {Rested, PartialFillRested}
    ensures var b' := Place(b, taker, clock, default, cap).book;
            forall i :: 0 <= i < |b'.Of(taker.side.Opposite())| ==> !Crosses(taker, b'.Of(taker.side.Opposite())[i].price)
  {
    var side := taker.side.Opposite();
    var m := Start(taker, b, clock);
    var n := Run(m, default);
    RunDone(m, default, side);
    RunSound(m, default, side);
    RunTaker(m, default);
    RunTakerWF(m, default, side);
    forall i | 0 <= i < |n.opp|
      ensures !Crosses(taker, n.opp[i].price)
    {
      if Crosses(taker, n.opp[i].price) {
        CrossesBest(taker, n.opp, side, i);
      }
    }
  }

  /** Placing keeps best bid strictly below best ask. */
  lemma PlaceUncrossed(b: Book, taker: Order, clock: nat, default: STPMode, cap: nat)
    requires SoundBook(b) && WFOrder(taker) && Uncrossed(b)
    ensures Uncrossed(Place(b, taker, clock, default, cap).book)
  {
    hide Run, SoundSide, Insert, Available;
    var side := taker.side.Opposite();
    var m := Start(taker, b, clock);
    var n := Run(m, default);
    RunShrinks(m, default, side);
    RunTaker(m, default);
    var out := Place(b, taker, clock, default, cap);
    if out.disposition in {Rested, PartialFillRested} {
      RestedCrossesNothing(b, taker, clock, default, cap);
      InsertBest(b.Of(taker.side), n.taker);
      var own, opp := out.book.Of(taker.side), out.book.Of(side);
      assert opp == n.opp && own == Insert(b.Of(taker.side), n.taker);
      if opp != [] {
        assert !Crosses(taker, opp[0].price);
      }
    }
  }

  /** The best price after resting is the order's own or the old best. */
  lemma InsertBest(ls: seq<Level>, o: Order)
    ensures Insert(ls, o) != []
    ensures Insert(ls, o)[0].price == (if ls == [] || Better(o.side, o.price, ls[0].price) then o.price else ls[0].price)
  {
  }

  /** Resting without matching keeps best bid below best ask exactly when the order would not have traded. */
  lemma RestUncrossed(b: Book, o: Order)
    requires Uncrossed(b)
    ensures Uncrossed(Rest(b, o)) <==> !WouldCross(b, o.side, o.price)
  {
    hide Insert;
    InsertBest(b.Of(o.side), o);
  }

  /** Removing an order keeps best bid strictly below best ask. */
  lemma RemoveUncrossed(b: Book, side: Side, id: OrderId)
    requires SoundBook(b) && Uncrossed(b)
    ensures Uncrossed(b.With(side, Remove(b.Of(side), id)))
  {
    var ls := b.Of(side);
    if ls != [] {
      RemoveBest(ls, id, side);
    }
  }

  lemma RemoveBest(ls: seq<Level>, id: OrderId, side: Side)
    requires SoundSide(ls, side) && ls != []
    ensures Remove(ls, id) != [] ==> !Better(side, Remove(ls, id)[0].price, ls[0].price)
  {
  }

  // ----- Prices of the fills -----

  /** Every fill is at a price the taker accepts, and prices only move away from the best as fills go on. */
  ghost predicate FillsInOrder(taker: Order, fills: seq<Fill>, opp: seq<Level>, side: Side) {
    && (forall i :: 0 <= i < |fills| ==> Crosses(taker, fills[i].price))
    && (forall i, j :: 0 <= i < j < |fills| ==> !Better(side, fills[j].price, fills[i].price))
    && (opp != [] ==> forall i :: 0 <= i < |fills| ==> !Better(side, opp[0].price, fills[i].price))
  }

  lemma {:induction false} RunFillsInOrder(m: Match, default: STPMode, side: Side)
    requires SoundSide(m.opp, side) && FillsInOrder(m.taker, m.fills, m.opp, side)
    ensures FillsInOrder(m.taker, Run(m, default).fills, Run(m, default).opp, side)
    decreases if m.taker.remain > 0 then m.taker.remain else 0, SumLevels(m.opp, One)
  {
    if Live(m) {
      Descend(m, default);
      StepSound(m, default, side);
      StepTaker(m, default);
      StepFillsInOrder(m, default, side);
      RunFillsInOrder(Step(m, default), default, side);
    }
  }

  lemma StepFillsInOrder(m: Match, default: STPMode, side: Side)
    requires Live(m) && SoundSide(m.opp, side) && FillsInOrder(m.taker, m.fills, m.opp, side)
    ensures FillsInOrder(m.taker, Step(m, default).fills, Step(m, default).opp, side)
  {
    hide SoundLevel;
    StepLists(m, EffectiveSTP(m.taker, m.opp[0].orders[0], default));
    var n := Step(m, default);
    assert n.opp != [] ==> !Better(side, n.opp[0].price, m.opp[0].price);
    assert n.fills == m.fills || (n.fills[..|m.fills|] == m.fills && |n.fills| == |m.fills| + 1 && n.fills[|m.fills|].price == m.opp[0].price);
    hide Step;
  }

  /** Every fill of a placement respects the taker's limit, and the fill prices never improve. */
  lemma PlaceFillPrices(b: Book, taker: Order, clock: nat, default: STPMode, cap: nat)
    requires SoundBook(b)
    ensures var fills := Place(b, taker, clock, default, cap).fills;
            && (forall i :: 0 <= i < |fills| ==> Crosses(taker, fills[i].price))
            && (forall i, j :: 0 <= i < j < |fills| ==> !Better(taker.side.Opposite(), fills[j].price, fills[i].price))
  {
    RunFillsInOrder(Start(taker, b, clock), default, taker.side.Opposite());
  }

  // ----- Levels released -----

  /** Whoever crosses and still has quantity at the end has emptied at least one opposite level. */
  lemma {:induction false} RunReleases(m: Match, default: STPMode, side: Side)
    requires SoundSide(m.opp, side) && Active(m)
    requires !Run(m, default).stopped && Run(m, default).taker.remain > 0
    ensures |Run(m, default).opp| < |m.opp|
    decreases m.taker.remain, SumLevels(m.opp, One)
  {
    var n := Step(m, default);
    Descend(m, default);
    StepSound(m, default, side);
    StepTaker(m, default);
    RunShrinks(n, default, side);
    assert |n.opp| <= |m.opp|;
    if |n.opp| == |m.opp| {
      RunReleases(n, default, side);
    }
  }

  /** The pool-exhausted branch is out of reach for an order the capacity guard let through:
      its level exists, a slot is free, or it crosses - and then resting follows a released level. */
  lemma GuardedOrderRests(b: Book, taker: Order, clock: nat, default: STPMode, cap: nat)
    requires SoundBook(b) && WFOrder(taker) && Levels(b) <= cap
    requires HasLevel(b.Of(taker.side), taker.price) || Levels(b) < cap
             || (b.Of(taker.side.Opposite()) != [] && Crosses(taker, b.Of(taker.side.Opposite())[0].price))
    ensures var m := Run(Start(taker, b, clock), default);
            !m.stopped && m.taker.remain > 0 ==> CanRestIn(b.With(taker.side.Opposite(), m.opp), m.taker, cap)
  {
    var side := taker.side.Opposite();
    var m := Start(taker, b, clock);
    RunTaker(m, default);
    RunShrinks(m, default, side);
    var n := Run(m, default);
    if Active(m) && !n.stopped && n.taker.remain > 0 {
      RunReleases(m, default, side);
    }
  }
}
