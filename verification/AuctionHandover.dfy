/** Handing what an auction left over to the continuous book: ids stay unique, and into an empty book
    the orders go in price-time priority, so that continuous trading starts from a good state. */
module AuctionHandover {
  import opened Domain
  import opened BookSpec
  import opened BookLemmas
  import opened MatchSpec
  import opened MatchTheorems
  import opened Auctions
  import opened AuctionSweep
  import opened AuctionCarry
  import opened EngineSpec
  import opened PlaceEffects

  // ----- Ids -----

  /** How many of the orders have this id. */
  function Named(os: seq<AuctionOrder>, id: OrderId): int {
    if os == [] then 0 else Named(os[..|os| - 1], id) + if os[|os| - 1].id == id then 1 else 0
  }

  lemma {:induction false} NamedConcat(a: seq<AuctionOrder>, b: seq<AuctionOrder>, id: OrderId)
    ensures Named(a + b, id) == Named(a, id) + Named(b, id)
  {
    if b == [] {
      assert a + b == a;
    } else {
      assert (a + b)[..|a + b| - 1] == a + b[..|b| - 1];
      NamedConcat(a, b[..|b| - 1], id);
    }
  }

  lemma NamedOne(o: AuctionOrder, id: OrderId)
    ensures Named([o], id) == if o.id == id then 1 else 0
  {
    assert [o][..0] == [];
  }

  lemma {:induction false} NamedPositive(os: seq<AuctionOrder>, id: OrderId)
    ensures Named(os, id) >= 0
  {
    if os != [] {
      NamedPositive(os[..|os| - 1], id);
    }
  }

  lemma {:induction false} NamedSides(side: Side, os: seq<AuctionOrder>, p: int, id: OrderId)
    ensures Named(Eligible(side, os, p), id) + Named(Excluded(side, os, p), id) == Named(os, id)
  {
    if os != [] {
      var f, o := os[..|os| - 1], os[|os| - 1];
      NamedSides(side, f, p, id);
      NamedConcat(Eligible(side, f, p), [o], id);
      NamedConcat(Excluded(side, f, p), [o], id);
      NamedOne(o, id);
    }
  }

  /** `r` is `os` with some orders dropped and others' quantities changed. */
  ghost predicate Thinned(r: seq<AuctionOrder>, os: seq<AuctionOrder>) {
    if os == [] then r == []
    else
      || Thinned(r, os[..|os| - 1])
      || (r != [] && r[|r| - 1] == os[|os| - 1].(qty := r[|r| - 1].qty) && Thinned(r[..|r| - 1], os[..|os| - 1]))
  }

  lemma ThinnedKeeps(r: seq<AuctionOrder>, os: seq<AuctionOrder>, x: AuctionOrder, o: AuctionOrder)
    requires Thinned(r, os) && x == o.(qty := x.qty)
    ensures Thinned(r, os + [o]) && Thinned(r + [x], os + [o])
  {
    assert (os + [o])[..|os|] == os && (r + [x])[..|r|] == r;
  }

  lemma {:induction false} ThinnedNamed(r: seq<AuctionOrder>, os: seq<AuctionOrder>, id: OrderId)
    requires Thinned(r, os)
    ensures Named(r, id) <= Named(os, id)
  {
    if os != [] {
      var f := os[..|os| - 1];
      if Thinned(r, f) {
        ThinnedNamed(r, f, id);
      } else {
        ThinnedNamed(r[..|r| - 1], f, id);
      }
    }
  }

  /** The participants, the others, what is left of the participants, and what is good till canceled. */
  lemma {:induction false} ThinnedSides(side: Side, os: seq<AuctionOrder>, p: int)
    ensures Thinned(Eligible(side, os, p), os) && Thinned(Excluded(side, os, p), os)
  {
    if os != [] {
      var f, o := os[..|os| - 1], os[|os| - 1];
      ThinnedSides(side, f, p);
      assert os == f + [o];
      ThinnedKeeps(Eligible(side, f, p), f, o, o);
      ThinnedKeeps(Excluded(side, f, p), f, o, o);
    }
  }

  lemma {:induction false} ThinnedLeft(os: seq<AuctionOrder>, left: seq<int>)
    requires |os| == |left|
    ensures Thinned(Left(os, left), os)
  {
    if os != [] {
      var n := |os| - 1;
      ThinnedLeft(os[..n], left[..n]);
      assert os == os[..n] + [os[n]];
      ThinnedKeeps(Left(os[..n], left[..n]), os[..n], os[n].(qty := left[n]), os[n]);
    }
  }

  lemma {:induction false} ThinnedCarried(os: seq<AuctionOrder>)
    ensures Thinned(GoodTillCanceled(os), os)
  {
    if os != [] {
      var f, o := os[..|os| - 1], os[|os| - 1];
      ThinnedCarried(f);
      assert os == f + [o];
      ThinnedKeeps(GoodTillCanceled(f), f, o, o);
    }
  }

  /** No order is left over twice, and none that did not take part. */
  lemma NamedRest(bids: seq<AuctionOrder>, asks: seq<AuctionOrder>, p: int, id: OrderId)
    ensures Named(Residual(bids, asks, p), id) <= Named(bids, id) + Named(asks, id)
  {
    hide Eligible, Excluded, Named, Left, Consume, Thinned;
    var t := Volume(bids, asks, p);
    var eb, ea := Eligible(Bid, bids, p), Eligible(Ask, asks, p);
    ConsumeLength(eb, t);
    ConsumeLength(ea, t);
    NamedSides(Bid, bids, p, id);
    NamedSides(Ask, asks, p, id);
    ThinnedLeft(eb, Consume(eb, t));
    ThinnedLeft(ea, Consume(ea, t));
    ThinnedNamed(SideLeft(Bid, bids, p, t), eb, id);
    ThinnedNamed(SideLeft(Ask, asks, p, t), ea, id);
    var w, x, y, z := SideLeft(Bid, bids, p, t), SideLeft(Ask, asks, p, t), Excluded(Bid, bids, p), Excluded(Ask, asks, p);
    NamedConcat(w, x, id);
    NamedConcat(w + x, y, id);
    NamedConcat(w + x + y, z, id);
  }

  /** ... and so of what is carried over. */
  lemma CarriedOnce(bids: seq<AuctionOrder>, asks: seq<AuctionOrder>, p: int, id: OrderId)
    ensures Named(GoodTillCanceled(Residual(bids, asks, p)), id) <= Named(bids, id) + Named(asks, id)
  {
    hide Residual, Named, GoodTillCanceled, Thinned;
    var rest := Residual(bids, asks, p);
    NamedRest(bids, asks, p, id);
    ThinnedCarried(rest);
    ThinnedNamed(GoodTillCanceled(rest), rest, id);
  }

  /** The book and the orders still to be carried into it use no id twice. */
  ghost predicate Unshared(b: Book, os: seq<AuctionOrder>) {
    forall id :: SumBook(b, HasId(id)) + Named(os, id) <= 1
  }

  /** One order carried over: it was not resting, and what is left to carry still is not. */
  lemma CarryKeepsIds(e: Engine, o: AuctionOrder, rest: seq<AuctionOrder>)
    requires SoundBook(e.book) && Unshared(e.book, [o] + rest) && o.qty > 0
    ensures WFOrder(Carried(o)) && !Holds(e.book, o.id)
    ensures SoundBook(CarryOne(e, o).book) && Unshared(CarryOne(e, o).book, rest)
  {
    hide Place, SumLevels, Named, SoundSide;
    forall id
      ensures Named([o] + rest, id) == (if o.id == id then 1 else 0) + Named(rest, id) && Named(rest, id) >= 0
    {
      NamedConcat([o], rest, id);
      NamedOne(o, id);
      NamedPositive(rest, id);
    }
    assert SumBook(e.book, HasId(o.id)) + Named([o] + rest, o.id) <= 1;
    PlaceSound(e.book, Carried(o), e.clock, e.cfg.stpDefault, e.cfg.levelCap);
    forall id
      ensures SumBook(CarryOne(e, o).book, HasId(id)) + Named(rest, id) <= 1
    {
      assert SumBook(e.book, HasId(id)) + Named([o] + rest, id) <= 1;
      StableCounts(id);
      PlaceSums(e.book, Carried(o), e.clock, e.cfg.stpDefault, e.cfg.levelCap, HasId(id));
    }
  }

  /** What the sweep hands on is positive and shares no id with the book or among itself, if nothing did before. */
  lemma CarriedUnshared(b: Book, bids: seq<AuctionOrder>, asks: seq<AuctionOrder>, p: int)
    requires Positive(bids) && Positive(asks) && Unshared(b, bids + asks)
    ensures var os := GoodTillCanceled(Residual(bids, asks, p)); Positive(os) && Unshared(b, os)
  {
    hide Residual, GoodTillCanceled, Named, SumBook;
    var rest := Residual(bids, asks, p);
    ResidualPositive(bids, asks, p);
    KeptOrders(rest);
    AllPositive(rest, GoodTillCanceled(rest));
    forall id
      ensures SumBook(b, HasId(id)) + Named(GoodTillCanceled(rest), id) <= 1
    {
      CarriedOnce(bids, asks, p, id);
      NamedConcat(bids, asks, id);
      assert SumBook(b, HasId(id)) + Named(bids + asks, id) <= 1;
    }
  }

  // ----- Time priority -----

  /** The two would rest at the same level, and `x` goes before `y`. */
  ghost predicate InTurn(x: AuctionOrder, y: AuctionOrder) {
    x.side == y.side && x.price == y.price ==> x.seqNum < y.seqNum
  }

  /** At each price of each side, the numbers increase. */
  ghost predicate TimeOrdered(os: seq<AuctionOrder>) {
    forall i, j :: 0 <= i < j < |os| ==> InTurn(os[i], os[j])
  }

  ghost predicate AllInTurn(os: seq<AuctionOrder>, y: AuctionOrder) {
    forall i :: 0 <= i < |os| ==> InTurn(os[i], y)
  }

  /** No number is used twice, and none is ahead of the clock. */
  ghost predicate Numbered(os: seq<AuctionOrder>, clock: nat) {
    && (forall i, j :: 0 <= i < j < |os| ==> os[i].seqNum != os[j].seqNum)
    && (forall i :: 0 <= i < |os| ==> os[i].seqNum <= clock)
  }

  lemma QueuedInTime(side: Side, os: seq<AuctionOrder>, clock: nat)
    requires InPriority(side, os) && Numbered(os, clock) && forall o :: o in os ==> o.side == side
    ensures TimeOrdered(os)
  {
    forall i, j | 0 <= i < j < |os|
      ensures InTurn(os[i], os[j])
    {
      assert !Precedes(side, os[j], os[i]);
    }
  }

  lemma {:induction false} ThinnedInTime(r: seq<AuctionOrder>, os: seq<AuctionOrder>, clock: nat)
    requires Thinned(r, os)
    ensures TimeOrdered(os) ==> TimeOrdered(r)
    ensures forall y :: AllInTurn(os, y) ==> AllInTurn(r, y)
    ensures (forall i :: 0 <= i < |os| ==> os[i].seqNum <= clock) ==> forall i :: 0 <= i < |r| ==> r[i].seqNum <= clock
  {
    if os != [] {
      var f, o := os[..|os| - 1], os[|os| - 1];
      assert os == f + [o];
      if Thinned(r, f) {
        ThinnedInTime(r, f, clock);
      } else {
        var x, q := r[|r| - 1], r[..|r| - 1];
        assert r == q + [x];
        ThinnedInTime(q, f, clock);
        assert TimeOrdered(os) ==> AllInTurn(f, x) by {
          assert forall i :: 0 <= i < |f| ==> os[i] == f[i];
        }
        forall y | AllInTurn(os, y)
          ensures AllInTurn(r, y)
        {
          assert forall i :: 0 <= i < |f| ==> os[i] == f[i];
          assert InTurn(os[|os| - 1], y) && AllInTurn(f, y);
        }
      }
    }
  }

  lemma JoinedInTime(a: seq<AuctionOrder>, b: seq<AuctionOrder>)
    requires TimeOrdered(a) && TimeOrdered(b)
    requires forall x, y :: x in a && y in b ==> x.side != y.side || x.price != y.price
    ensures TimeOrdered(a + b)
  {
  }

  /** Whatever is in a thinned list comes from an order of the whole. */
  lemma {:induction false} ThinnedFrom(r: seq<AuctionOrder>, os: seq<AuctionOrder>, x: AuctionOrder) returns (o: AuctionOrder)
    requires Thinned(r, os) && x in r
    ensures o in os && x == o.(qty := x.qty)
  {
    var f := os[..|os| - 1];
    if Thinned(r, f) {
      o := ThinnedFrom(r, f, x);
    } else if x == r[|r| - 1] {
      o := os[|os| - 1];
    } else {
      assert r == r[..|r| - 1] + [r[|r| - 1]];
      o := ThinnedFrom(r[..|r| - 1], f, x);
    }
  }

  /** One side's part of what is left: in time order, on that side, participants and others apart. */
  lemma SideInTime(side: Side, os: seq<AuctionOrder>, p: int, t: int, clock: nat)
    requires InPriority(side, os) && Numbered(os, clock) && forall o :: o in os ==> o.side == side
    ensures TimeOrdered(SideLeft(side, os, p, t)) && TimeOrdered(Excluded(side, os, p))
    ensures forall x :: x in SideLeft(side, os, p, t) ==> x.side == side && Accepts(side, x, p) && x.seqNum <= clock
    ensures forall x :: x in Excluded(side, os, p) ==> x.side == side && !Accepts(side, x, p) && x.seqNum <= clock
  {
    hide Eligible, Excluded, Left, Consume, Thinned, TimeOrdered, InPriority;
    var es := Eligible(side, os, p);
    ConsumeLength(es, t);
    QueuedInTime(side, os, clock);
    ThinnedSides(side, os, p);
    ThinnedLeft(es, Consume(es, t));
    ThinnedInTime(es, os, clock);
    ThinnedInTime(Excluded(side, os, p), os, clock);
    ThinnedInTime(SideLeft(side, os, p, t), es, clock);
    EligibleMembers(side, os, p);
    forall x | x in SideLeft(side, os, p, t)
      ensures x.side == side && Accepts(side, x, p) && x.seqNum <= clock
    {
      var o := ThinnedFrom(SideLeft(side, os, p, t), es, x);
    }
  }

  /** What is carried over is in time order at each price, and no number is ahead of the clock. */
  lemma CarriedInTime(bids: seq<AuctionOrder>, asks: seq<AuctionOrder>, p: int, clock: nat)
    requires Collected(bids, asks) && Numbered(bids, clock) && Numbered(asks, clock)
    ensures var os := GoodTillCanceled(Residual(bids, asks, p)); TimeOrdered(os) && forall i :: 0 <= i < |os| ==> os[i].seqNum <= clock
  {
    hide SideLeft, Excluded, Thinned, TimeOrdered, InPriority, Numbered, GoodTillCanceled, Volume;
    var t := Volume(bids, asks, p);
    SideInTime(Bid, bids, p, t, clock);
    SideInTime(Ask, asks, p, t, clock);
    var w, x, y, z := SideLeft(Bid, bids, p, t), SideLeft(Ask, asks, p, t), Excluded(Bid, bids, p), Excluded(Ask, asks, p);
    JoinedInTime(w, x);
    JoinedInTime(w + x, y);
    JoinedInTime(w + x + y, z);
    var rest := Residual(bids, asks, p);
    ThinnedCarried(rest);
    forall i | 0 <= i < |rest|
      ensures rest[i].seqNum <= clock
    {
      assert rest[i] in rest;
    }
    ThinnedInTime(GoodTillCanceled(rest), rest, clock);
  }
}
