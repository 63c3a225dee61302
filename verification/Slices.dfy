/** What a resting order shows and keeps back, as matching works through it. */
module Slices {
  import opened Domain
  import opened BookSpec
  import opened BookLemmas
  import opened MatchSpec
  import opened MatchLemmas
  import opened MatchTheorems
  import opened PlaceEffects
  import opened PlacementResults

  // ----- One slice -----

  /** A limit order whose quantity is what it has filled, works and keeps in reserve; it shows at least its working
      slice and at most one lot, and keeps a reserve only as an iceberg. */
  predicate Sliced(o: Order) {
    && o.typ == Limit && 0 < o.remain <= o.display <= o.origDisplay && o.hidden >= 0
    && o.filled + o.remain + o.hidden == o.origQty && (o.hidden > 0 ==> o.iceberg)
  }

  /** Two states of one order: everything but its quantities and its number is the same. */
  predicate SameOrder(o: Order, p: Order) {
    && p.id == o.id && p.user == o.user && p.side == o.side && p.typ == o.typ && p.tif == o.tif && p.stp == o.stp && p.price == o.price
    && p.iceberg == o.iceberg && p.origQty == o.origQty && p.origDisplay == o.origDisplay && p.expireAt == o.expireAt
  }

  /** A trade that uses up a slice with a reserve behind it: the order is last in its queue under a new number, it
      shows all it works, a full lot or the last of the reserve, and that came out of the reserve. */
  lemma ExhaustedSliceRefilled(m: Match)
    requires Live(m) && m.opp[0].orders[0].remain <= m.taker.remain && m.opp[0].orders[0].hidden > 0 && Sliced(m.opp[0].orders[0])
    ensures var o, n := m.opp[0].orders[0], Trade(m);
            && n.opp != [] && n.opp[0].price == m.opp[0].price && |n.opp[0].orders| == |m.opp[0].orders|
            && var r := n.opp[0].orders[|n.opp[0].orders| - 1];
               && SameOrder(o, r) && r.seqNum == n.clock == m.clock + 1
               && r.remain == r.display && 0 < r.remain <= o.origDisplay && r.remain + r.hidden == o.hidden
               && (r.remain == o.origDisplay || r.hidden == 0) && r.filled == o.filled + o.remain && Sliced(r)
  {
  }

  /** Any other trade or decrement takes as much from what is shown as from the slice. */
  lemma WorkedSlice(o: Order, q: int)
    requires Sliced(o) && 0 < q < o.remain
    ensures var p := Decrement(o, q);
            Sliced(p) && SameOrder(o, p) && p.remain == o.remain - q && p.display == o.display - q && p.hidden == o.hidden && p.filled == o.filled + q
  {
  }

  // ----- Every order of a book -----

  /** Every order of these levels has been taken from `was`, and worked on from there. */
  ghost predicate From(ls: seq<Level>, was: seq<Level>) {
    forall i, k :: 0 <= i < |ls| && 0 <= k < |ls[i].orders| ==> Sliced(ls[i].orders[k]) && Comes(ls[i].orders[k], was)
  }

  ghost predicate Comes(p: Order, was: seq<Level>) {
    exists i, k :: 0 <= i < |was| && 0 <= k < |was[i].orders| && SameOrder(was[i].orders[k], p)
  }

  ghost predicate AllSliced(ls: seq<Level>) {
    forall i, k :: 0 <= i < |ls| && 0 <= k < |ls[i].orders| ==> Sliced(ls[i].orders[k])
  }

  lemma FromSelf(ls: seq<Level>)
    requires AllSliced(ls)
    ensures From(ls, ls)
  {
    forall i, k | 0 <= i < |ls| && 0 <= k < |ls[i].orders|
      ensures Comes(ls[i].orders[k], ls)
    {
      assert SameOrder(ls[i].orders[k], ls[i].orders[k]);
    }
  }

  lemma FromTwice(a: seq<Level>, b: seq<Level>, c: seq<Level>)
    requires From(a, b) && From(b, c)
    ensures From(a, c)
  {
    forall i, k | 0 <= i < |a| && 0 <= k < |a[i].orders|
      ensures Comes(a[i].orders[k], c)
    {
      var p := a[i].orders[k];
      assert Comes(p, b);
      var i', k' :| 0 <= i' < |b| && 0 <= k' < |b[i'].orders| && SameOrder(b[i'].orders[k'], p);
      assert Comes(b[i'].orders[k'], c);
      var i'', k'' :| 0 <= i'' < |c| && 0 <= k'' < |c[i''].orders| && SameOrder(c[i''].orders[k''], b[i'].orders[k']);
      assert SameOrder(c[i''].orders[k''], p);
    }
  }

  /** The best queue replaced by one whose orders come from it. */
  lemma WithHeadFrom(ls: seq<Level>, os: seq<Order>)
    requires ls != [] && AllSliced(ls) && forall k :: 0 <= k < |os| ==> Sliced(os[k]) && Comes(os[k], ls)
    ensures From(WithHead(ls, os), ls)
  {
    FromSelf(ls);
    var hs := WithHead(ls, os);
    forall i, k | 0 <= i < |hs| && 0 <= k < |hs[i].orders|
      ensures Sliced(hs[i].orders[k]) && Comes(hs[i].orders[k], ls)
    {
      if os == [] {
        assert hs[i] == ls[i + 1];
      } else if i > 0 {
        assert hs[i] == ls[i];
      } else {
        assert hs[0].orders[k] == os[k];
      }
    }
  }

  lemma TailComes(ls: seq<Level>, o: Order)
    requires ls != [] && ls[0].orders != [] && AllSliced(ls) && SameOrder(ls[0].orders[0], o) && Sliced(o)
    ensures forall k :: 0 <= k < |ls[0].orders[1..]| ==> Sliced(ls[0].orders[1..][k]) && Comes(ls[0].orders[1..][k], ls)
    ensures forall k :: 0 <= k < |[o] + ls[0].orders[1..]| ==> Sliced(([o] + ls[0].orders[1..])[k]) && Comes(([o] + ls[0].orders[1..])[k], ls)
    ensures forall k :: 0 <= k < |ls[0].orders[1..] + [o]| ==> Sliced((ls[0].orders[1..] + [o])[k]) && Comes((ls[0].orders[1..] + [o])[k], ls)
  {
    hide Sliced, SameOrder;
    var rest := ls[0].orders[1..];
    assert Comes(o, ls);
    forall k | 0 <= k < |rest|
      ensures Sliced(rest[k]) && Comes(rest[k], ls)
    {
      assert rest[k] == ls[0].orders[k + 1];
      Itself(rest[k]);
    }
  }

  lemma Itself(o: Order)
    ensures SameOrder(o, o)
  {
  }

  lemma TradeFrom(m: Match)
    requires Live(m) && AllSliced(m.opp)
    ensures From(Trade(m).opp, m.opp)
  {
    var o := m.opp[0].orders[0];
    assert Sliced(o);
    var q := Min(o.remain, m.taker.remain);
    hide Sliced, WithHead, AllSliced, SameOrder;
    Itself(o);
    TailComes(m.opp, o);
    if q < o.remain {
      WorkedSlice(o, q);
      TailComes(m.opp, Decrement(o, q));
    } else if o.hidden > 0 {
      RefillSliced(o, m.clock + 1);
      TailComes(m.opp, Replenish(Decrement(o, q), m.clock + 1));
    }
    WithHeadFrom(m.opp, TradedQueue(m.opp[0].orders, q, m.clock));
  }

  lemma RefillSliced(o: Order, n: nat)
    requires Sliced(o) && o.hidden > 0
    ensures Sliced(Replenish(Decrement(o, o.remain), n)) && SameOrder(o, Replenish(Decrement(o, o.remain), n))
  {
  }

  lemma PreventFrom(m: Match, mode: STPMode)
    requires Live(m) && AllSliced(m.opp)
    ensures From(Prevent(m, mode).opp, m.opp)
  {
    var o := m.opp[0].orders[0];
    assert Sliced(o);
    FromSelf(m.opp);
    hide Sliced, WithHead, AllSliced, SameOrder, From, Prevent;
    PreventLeaves(m, mode);
    Itself(o);
    TailComes(m.opp, o);
    WithHeadFrom(m.opp, m.opp[0].orders[1..]);
    if o.remain > m.taker.remain {
      DecrementedFrom(m);
    }
  }

  /** Prevention leaves the other side alone, takes its first order off or lowers it by the taker. */
  lemma PreventLeaves(m: Match, mode: STPMode)
    requires Live(m)
    ensures var opp := Prevent(m, mode).opp; var os := m.opp[0].orders;
            || opp == m.opp || opp == WithHead(m.opp, os[1..])
            || (os[0].remain > m.taker.remain && opp == WithHead(m.opp, [Decrement(os[0], m.taker.remain)] + os[1..]))
  {
    hide WithHead, Decrement;
  }

  lemma DecrementedFrom(m: Match)
    requires Live(m) && AllSliced(m.opp) && m.opp[0].orders[0].remain > m.taker.remain
    ensures From(WithHead(m.opp, [Decrement(m.opp[0].orders[0], m.taker.remain)] + m.opp[0].orders[1..]), m.opp)
  {
    var o := m.opp[0].orders[0];
    assert Sliced(o);
    hide Sliced, WithHead, AllSliced, SameOrder, From, Decrement;
    WorkedSlice(o, m.taker.remain);
    TailComes(m.opp, Decrement(o, m.taker.remain));
    WithHeadFrom(m.opp, [Decrement(o, m.taker.remain)] + m.opp[0].orders[1..]);
  }

  lemma FromSliced(ls: seq<Level>, was: seq<Level>)
    requires From(ls, was)
    ensures AllSliced(ls)
  {
  }

  /** Matching leaves resting orders as they were, but worked on. */
  lemma {:induction false} RunFrom(m: Match, default: STPMode)
    requires AllSliced(m.opp)
    ensures From(Run(m, default).opp, m.opp)
    decreases if m.taker.remain > 0 then m.taker.remain else 0, SumLevels(m.opp, One)
  {
    hide AllSliced, From, Trade, Prevent;
    if Live(m) {
      var n := Step(m, default);
      Descend(m, default);
      TradeFrom(m);
      PreventFrom(m, EffectiveSTP(m.taker, m.opp[0].orders[0], default));
      FromSliced(n.opp, m.opp);
      RunFrom(n, default);
      FromTwice(Run(n, default).opp, n.opp, m.opp);
    } else {
      FromSelf(m.opp);
    }
  }

  // ----- Resting, removing -----

  /** Every order of `ls` is in `was` as it is, or is one of `more`. */
  ghost predicate Within(ls: seq<Level>, was: seq<Level>, more: set<Order>) {
    forall i, k :: 0 <= i < |ls| && 0 <= k < |ls[i].orders| ==> ls[i].orders[k] in more || Rests(ls[i].orders[k], was)
  }

  ghost predicate Rests(p: Order, was: seq<Level>) {
    exists i, k :: 0 <= i < |was| && 0 <= k < |was[i].orders| && was[i].orders[k] == p
  }

  lemma RestsHere(ls: seq<Level>, i: nat, k: nat)
    requires i < |ls| && k < |ls[i].orders|
    ensures Rests(ls[i].orders[k], ls)
  {
  }

  /** One level in front of others. */
  lemma WithinCons(l: Level, ls: seq<Level>, was: seq<Level>, more: set<Order>)
    requires was != [] && Within(ls, was[1..], more) && forall k :: 0 <= k < |l.orders| ==> l.orders[k] in more || l.orders[k] in was[0].orders
    ensures Within([l] + ls, was, more)
  {
    var r := [l] + ls;
    forall i, k | 0 <= i < |r| && 0 <= k < |r[i].orders|
      ensures r[i].orders[k] in more || Rests(r[i].orders[k], was)
    {
      if i == 0 {
        if r[0].orders[k] !in more {
          var j :| 0 <= j < |was[0].orders| && was[0].orders[j] == l.orders[k];
          RestsHere(was, 0, j);
        }
      } else {
        assert r[i] == ls[i - 1];
        if ls[i - 1].orders[k] !in more {
          assert Rests(ls[i - 1].orders[k], was[1..]);
          var i', k' :| 0 <= i' < |was[1..]| && 0 <= k' < |was[1..][i'].orders| && was[1..][i'].orders[k'] == ls[i - 1].orders[k];
          RestsHere(was, i' + 1, k');
        }
      }
    }
  }

  lemma WithinSame(ls: seq<Level>, more: set<Order>)
    ensures Within(ls, ls, more)
  {
  }

  lemma {:induction false} InsertWithin(ls: seq<Level>, o: Order)
    ensures Within(Insert(ls, o), ls, {o})
  {
    if ls == [] {
    } else if ls[0].price == o.price {
      WithinSame(ls[1..], {o});
      WithinCons(Level(o.price, ls[0].orders + [o]), ls[1..], ls, {o});
    } else if Better(o.side, o.price, ls[0].price) {
      NewInFront(ls, o);
    } else {
      InsertWithin(ls[1..], o);
      WithinCons(ls[0], Insert(ls[1..], o), ls, {o});
    }
  }

  lemma NewInFront(ls: seq<Level>, o: Order)
    ensures Within([Level(o.price, [o])] + ls, ls, {o})
  {
    var r := [Level(o.price, [o])] + ls;
    forall i, k | 0 <= i < |r| && 0 <= k < |r[i].orders|
      ensures r[i].orders[k] in {o} || Rests(r[i].orders[k], ls)
    {
      if i > 0 {
        assert r[i] == ls[i - 1];
        RestsHere(ls, i - 1, k);
      }
    }
  }

  lemma {:induction false} RemoveWithin(ls: seq<Level>, id: OrderId)
    ensures Within(Remove(ls, id), ls, {})
  {
    if ls != [] {
      if FindFrom(ls[0].orders, id).Found? {
        RemoveFromMembers(ls[0].orders, id);
        WithinSame(ls[1..], {});
        var os := RemoveFrom(ls[0].orders, id);
        WithinCons(Level(ls[0].price, os), ls[1..], ls, {});
        if os == [] {
          Behind(ls);
        }
      } else {
        RemoveWithin(ls[1..], id);
        WithinCons(ls[0], Remove(ls[1..], id), ls, {});
      }
    }
  }

  lemma Behind(ls: seq<Level>)
    requires ls != []
    ensures Within(ls[1..], ls, {})
  {
    forall i, k | 0 <= i < |ls[1..]| && 0 <= k < |ls[1..][i].orders|
      ensures Rests(ls[1..][i].orders[k], ls)
    {
      RestsHere(ls, i + 1, k);
    }
  }

  lemma {:induction false} RemoveFromMembers(os: seq<Order>, id: OrderId)
    ensures forall o :: o in RemoveFrom(os, id) ==> o in os
  {
    if os != [] && os[0].id != id {
      RemoveFromMembers(os[1..], id);
      assert os == [os[0]] + os[1..];
    }
  }

  // ----- What an order shows when it comes to rest -----

  /** An order that rests after matching shows exactly what it works when matching took nothing from it; otherwise it
      goes on showing the slice it came with, and the level with it. */
  lemma RestedShows(b: Book, o: Order, clock: nat, default: STPMode, cap: nat)
    requires SoundBook(b) && WFOrder(o) && o.display == o.remain
    requires Resting(Place(b, o, clock, default, cap).disposition)
    ensures var out, left := Place(b, o, clock, default, cap), Unmatched(b, o, clock, default);
            exists p :: out.book.Of(o.side) == Insert(b.Of(o.side), p) && SameOrder(o, p) && p.seqNum == o.seqNum
                        && p.remain == left && p.hidden == o.hidden && p.display == o.remain && (p.display == p.remain <==> left == o.remain)
  {
    hide Run, Insert, Available, CanRestIn, SoundSide;
    PlaceShape(b, o, clock, default, cap);
    var p := Run(Start(o, b, clock), default).taker;
    assert SameOrder(o, p);
  }

  const SMALL_ASK := Order("ask", "bob", Ask, Limit, GTC, STPDisabled, false, 100, 4, 4, 0, 4, 0, 4, 1, 0)
  const LARGE_BID := Order("bid", "ann", Bid, Limit, GTC, STPDisabled, false, 100, 10, 10, 0, 10, 0, 10, 2, 0)

  /** A bid of 10 that meets 4 rests with 6 and shows 10, so its level shows more than it holds. */
  lemma PartlyFilledShowsTooMuch()
    ensures var out := Place(Book([], [Level(100, [SMALL_ASK])]), LARGE_BID, 2, STPDisabled, 10);
            out.disposition == PartialFillRested && InfoAt(out.book.bids, 100) == LevelInfo(6, 10, 1)
  {
    var b := Book([], [Level(100, [SMALL_ASK])]);
    var m := Start(LARGE_BID, b, 2);
    assert m.opp[0].orders[1..] == [] && m.opp[1..] == [];
    var n := Step(m, STPDisabled);
    assert n.opp == [] && Run(m, STPDisabled) == Run(n, STPDisabled) == n;
    var p := LARGE_BID.(remain := 6, filled := 4);
    assert n.taker == p;
    var out := Place(b, LARGE_BID, 2, STPDisabled, 10);
    assert out.book.bids == [Level(100, [p])];
    SumOfSingle(p, RemainOf);
    SumOfSingle(p, DisplayOf);
  }
}
