/** What a whole placement does to counts, levels, depth and open quantities. */
module PlaceEffects {
  import opened Domain
  import opened BookSpec
  import opened BookLemmas
  import opened MatchSpec
  import opened MatchLemmas
  import opened MatchTheorems
  import opened MatchQuantities

  // ----- Counts that trading does not raise -----

  /** A count of orders that depends on nothing trading raises. */
  ghost predicate Stable(f: Order -> int) {
    && (forall o :: f(o) >= 0)
    && (forall o, q :: f(Decrement(o, q)) == f(o))
    && (forall o: Order, n :: o.hidden > 0 ==> f(Replenish(o, n)) <= f(o))
    && (forall o, r, q :: f(Worked(o, r, q)) == f(o))
  }

  /** A taker with other quantities. */
  function Worked(o: Order, remain: int, filled: int): Order {
    o.(remain := remain, filled := filled)
  }

  /** Counts orders with a self-trade mode of their own. */
  function STPOn(o: Order): int {
    if o.stp != STPDisabled then 1 else 0
  }

  /** Counts orders that have a reserve without being icebergs. */
  function Unflagged(o: Order): int {
    if !o.iceberg && o.hidden != 0 then 1 else 0
  }

  lemma StableCounts(id: OrderId)
    ensures Stable(HasId(id)) && Stable(One) && Stable(STPOn) && Stable(Unflagged)
  {
  }

  lemma {:induction false} RunSums(m: Match, default: STPMode, f: Order -> int)
    requires Stable(f)
    ensures SumLevels(Run(m, default).opp, f) <= SumLevels(m.opp, f)
    decreases if m.taker.remain > 0 then m.taker.remain else 0, SumLevels(m.opp, One)
  {
    if Live(m) {
      Descend(m, default);
      StepSums(m, default, f);
      RunSums(Step(m, default), default, f);
    }
  }

  lemma StepSums(m: Match, default: STPMode, f: Order -> int)
    requires Stable(f) && Live(m)
    ensures SumLevels(Step(m, default).opp, f) <= SumLevels(m.opp, f)
  {
    hide SumLevels, WithHead, Replenish;
    StepSum(m, default, f);
  }

  ghost predicate Resting(d: Disposition) {
    d == Rested || d == PartialFillRested
  }

  /** A placement is a run and what becomes of the taker: rejected up front, or at rest on its own side, or gone. */
  lemma PlaceShape(b: Book, taker: Order, clock: nat, default: STPMode, cap: nat)
    ensures var out := Place(b, taker, clock, default, cap);
            var n := Run(Start(taker, b, clock), default);
            var side := taker.side;
            && n.taker == Worked(taker, n.taker.remain, n.taker.filled)
            && (out.disposition == Rejected <==> taker.tif == FOK && Available(taker, b.Of(side.Opposite())) < taker.remain)
            && (out.disposition == Rejected ==> out == Outcome(b, clock, [], [], Rejected))
            && (out.disposition != Rejected ==>
                  out.fills == n.fills && out.cancels == n.cancels && out.clock == n.clock && out.book.Of(side.Opposite()) == n.opp
                  && out.book.Of(side) == if Resting(out.disposition) then Insert(b.Of(side), n.taker) else b.Of(side))
            && (Resting(out.disposition) ==> CanRestIn(b.With(side.Opposite(), n.opp), n.taker, cap))
            && (out.disposition == STPCanceledTaker <==> out.disposition != Rejected && n.stopped)
            && (out.disposition == FullyFilled ==> n.taker.remain == 0)
  {
    hide Run, Insert, Available, CanRestIn;
    RunTaker(Start(taker, b, clock), default);
  }

  /** A placement adds at most the taker to any count, and only when it rests. */
  lemma PlaceSums(b: Book, taker: Order, clock: nat, default: STPMode, cap: nat, f: Order -> int)
    requires Stable(f)
    ensures var out := Place(b, taker, clock, default, cap);
            SumBook(out.book, f) <= SumBook(b, f) + if Resting(out.disposition) then f(taker) else 0
  {
    hide SumLevels, Run, Insert, CanRestIn, Available, Place;
    var m := Start(taker, b, clock);
    PlaceShape(b, taker, clock, default, cap);
    RunSums(m, default, f);
    InsertSum(b.Of(taker.side), Run(m, default).taker, f);
  }

  // ----- Levels -----

  lemma {:induction false} InsertLevels(ls: seq<Level>, o: Order)
    requires SortedLevels(ls, o.side)
    ensures |Insert(ls, o)| == if HasLevel(ls, o.price) then |ls| else |ls| + 1
  {
    if ls == [] {
    } else if ls[0].price == o.price {
    } else if Better(o.side, o.price, ls[0].price) {
      assert !HasLevel(ls, o.price);
    } else {
      assert forall i :: 0 <= i < |ls[1..]| ==> ls[1..][i] == ls[i + 1];
      InsertLevels(ls[1..], o);
      assert HasLevel(ls, o.price) <==> HasLevel(ls[1..], o.price) by {
        if HasLevel(ls, o.price) {
          var i :| 0 <= i < |ls| && ls[i].price == o.price;
          assert ls[1..][i - 1].price == o.price;
        }
      }
    }
  }

  /** The level pool is never overdrawn. */
  lemma PlaceLevels(b: Book, taker: Order, clock: nat, default: STPMode, cap: nat)
    requires SoundBook(b) && Levels(b) <= cap
    ensures Levels(Place(b, taker, clock, default, cap).book) <= cap
  {
    hide Run, Insert, Available, HasLevel, SoundLevel, Place;
    var m := Start(taker, b, clock);
    PlaceShape(b, taker, clock, default, cap);
    RunShrinks(m, default, taker.side.Opposite());
    InsertLevels(b.Of(taker.side), Run(m, default).taker);
  }

  // ----- Depth -----

  lemma {:induction false} InsertInfo(ls: seq<Level>, o: Order, price: int)
    requires price != o.price
    ensures InfoAt(Insert(ls, o), price) == InfoAt(ls, price)
  {
    if ls != [] {
      InsertInfo(ls[1..], o, price);
      assert ls[0].price == o.price ==> Insert(ls, o)[1..] == ls[1..];
    }
  }

  lemma {:induction false} RemoveInfo(ls: seq<Level>, id: OrderId, side: Side, price: int)
    requires SoundSide(ls, side)
    requires FindIn(ls, id).Found? ==> price != FindIn(ls, id).order.price
    ensures InfoAt(Remove(ls, id), price) == InfoAt(ls, price)
  {
    if ls != [] {
      assert SoundSide(ls[1..], side);
      if FindFrom(ls[0].orders, id).Found? {
        var k := FirstAt(ls[0].orders, id);
        assert ls[0].orders[k].price == ls[0].price;
      } else {
        RemoveInfo(ls[1..], id, side, price);
      }
    }
  }

  /** All fills are against the opposite side, and the taker's own side changes at most at its own price. */
  lemma PlaceOwnDepth(b: Book, taker: Order, clock: nat, default: STPMode, cap: nat, price: int)
    requires SoundBook(b)
    ensures var out := Place(b, taker, clock, default, cap);
            && MakersOn(out.fills, taker.side.Opposite())
            && (!Resting(out.disposition) || price != taker.price ==>
                  InfoAt(out.book.Of(taker.side), price) == InfoAt(b.Of(taker.side), price))
  {
    hide Run, Insert, CanRestIn, Available, SoundSide, Place, InfoAt;
    var m := Start(taker, b, clock);
    PlaceShape(b, taker, clock, default, cap);
    RunParties(m, default, taker.side.Opposite());
    if price != taker.price {
      InsertInfo(b.Of(taker.side), Run(m, default).taker, price);
    }
  }

  /** Without self-trade prevention the fills announce every change of the opposite side. */
  lemma PlaceDepth(b: Book, taker: Order, clock: nat, default: STPMode, cap: nat, price: int)
    requires SoundBook(b) && NoClash(taker, b.Of(taker.side.Opposite()), default)
    ensures var out, opp := Place(b, taker, clock, default, cap), taker.side.Opposite();
            Announced(out.fills, price, InfoAt(b.Of(opp), price)) == InfoAt(out.book.Of(opp), price)
  {
    hide Run, Insert, CanRestIn, Available, NoClash, SoundSide, Place, InfoAt;
    var opp := taker.side.Opposite();
    PlaceShape(b, taker, clock, default, cap);
    RunDepth(Start(taker, b, clock), default, opp, price, InfoAt(b.Of(opp), price));
  }

  // ----- Open quantities -----

  /** What the fills took, order by order, and what a resting taker keeps open, its reserve included. */
  lemma PlaceOpen(b: Book, taker: Order, clock: nat, default: STPMode, cap: nat, id: OrderId)
    requires SoundBook(b) && NoClash(taker, b.Of(taker.side.Opposite()), default)
    requires taker.remain > 0
    ensures var out := Place(b, taker, clock, default, cap);
            && out.cancels == [] && TakersAre(out.fills, taker.id)
            && out.disposition != STPCanceledTaker
            && SumBook(out.book, OpenOf(id)) + MakerQty(out.fills, id)
               == SumBook(b, OpenOf(id)) + (if id == taker.id && Resting(out.disposition) then taker.remain + taker.hidden - TotalQty(out.fills) else 0)
            && (out.disposition == FullyFilled ==> TotalQty(out.fills) == taker.remain)
            && (out.disposition == Rejected ==> out.fills == [])
  {
    hide Run, Insert, CanRestIn, Available, NoClash, SoundSide, SumLevels, Holds, Place, MakerQty, TotalQty;
    var opp := taker.side.Opposite();
    var m := Start(taker, b, clock);
    PlaceShape(b, taker, clock, default, cap);
    RunConserves(m, default, opp, id);
    RunParties(m, default, opp);
    InsertSum(b.Of(taker.side), Run(m, default).taker, OpenOf(id));
    NothingYet(id);
  }

  lemma NothingYet(id: OrderId)
    ensures MakerQty([], id) == 0 && TotalQty([]) == 0
  {
  }

  // ----- Self-trade prevention switched off -----

  /** A count of zero is a count of zero at every place. */
  lemma {:induction false} NoneInQueue(os: seq<Order>, f: Order -> int)
    requires forall o :: f(o) >= 0
    ensures SumOf(os, f) >= 0
    ensures SumOf(os, f) == 0 ==> forall k :: 0 <= k < |os| ==> f(os[k]) == 0
  {
    if os != [] {
      NoneInQueue(os[1..], f);
    }
  }

  lemma {:induction false} NoneInSide(ls: seq<Level>, f: Order -> int)
    requires forall o :: f(o) >= 0
    ensures SumLevels(ls, f) >= 0
    ensures SumLevels(ls, f) == 0 ==> forall i, k :: 0 <= i < |ls| && 0 <= k < |ls[i].orders| ==> f(ls[i].orders[k]) == 0
  {
    if ls != [] {
      NoneInQueue(ls[0].orders, f);
      NoneInSide(ls[1..], f);
    }
  }

  /** Nobody asks for self-trade prevention, so it never applies. */
  lemma NoModeNoClash(b: Book, taker: Order)
    requires SumBook(b, STPOn) == 0 && taker.stp == STPDisabled
    ensures NoClash(taker, b.Of(taker.side.Opposite()), STPDisabled)
  {
    NoneInSide(b.bids, STPOn);
    NoneInSide(b.asks, STPOn);
  }
}
