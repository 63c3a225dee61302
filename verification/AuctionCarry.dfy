/** Clearing the auction into the continuous book. */
module AuctionCarry {
  import opened Domain
  import opened BookSpec
  import opened MatchSpec
  import opened MatchQuantities
  import opened Auctions
  import opened AuctionTheorems
  import opened AuctionSweep
  import opened AuctionResults
  import opened Positions
  import opened EngineSpec
  import opened PlaceEffects

  // ----- What is handed on -----

  /** The collected orders are well-formed and each on its own side. */
  ghost predicate Collected(bids: seq<AuctionOrder>, asks: seq<AuctionOrder>) {
    && Positive(bids) && Positive(asks) && InPriority(Bid, bids) && InPriority(Ask, asks)
    && (forall o :: o in bids ==> o.side == Bid) && (forall o :: o in asks ==> o.side == Ask)
  }

  lemma {:induction false} JoinedMembers(side: Side, os: seq<AuctionOrder>, o: AuctionOrder)
    ensures multiset(Joined(side, os, o)) == multiset(os) + multiset{o}
    ensures forall x :: x in Joined(side, os, o) <==> x in os || x == o
  {
    hide Precedes;
    if os != [] && Precedes(side, o, os[|os| - 1]) {
      JoinedMembers(side, os[..|os| - 1], o);
      assert os == os[..|os| - 1] + [os[|os| - 1]];
    }
  }

  /** No order of `os` is preceded by `last`. */
  ghost predicate NoneAfter(side: Side, os: seq<AuctionOrder>, last: AuctionOrder) {
    forall x :: x in os ==> !Precedes(side, last, x)
  }

  lemma AppendInPriority(side: Side, os: seq<AuctionOrder>, last: AuctionOrder)
    ensures InPriority(side, os + [last]) <==> InPriority(side, os) && NoneAfter(side, os, last)
  {
    hide Precedes;
    var r := os + [last];
    assert r[|os|] == last && forall i :: 0 <= i < |os| ==> r[i] == os[i];
    if InPriority(side, r) {
      forall x | x in os
        ensures !Precedes(side, last, x)
      {
        var i :| 0 <= i < |os| && os[i] == x;
        assert !Precedes(side, r[|os|], r[i]);
      }
      forall i, j | 0 <= i < j < |os|
        ensures !Precedes(side, os[j], os[i])
      {
        assert !Precedes(side, r[j], r[i]);
      }
    }
    if InPriority(side, os) && NoneAfter(side, os, last) {
      forall i, j | 0 <= i < j < |r|
        ensures !Precedes(side, r[j], r[i])
      {
        assert j == |os| ==> r[i] in os;
      }
    }
  }

  /** Collecting an order keeps all of that. */
  lemma {:induction false} JoinedInPriority(side: Side, os: seq<AuctionOrder>, o: AuctionOrder)
    requires InPriority(side, os)
    ensures InPriority(side, Joined(side, os, o)) && multiset(Joined(side, os, o)) == multiset(os) + multiset{o}
  {
    hide Precedes, InPriority;
    JoinedMembers(side, os, o);
    if os == [] {
      AppendInPriority(side, [], o);
      NobodyAhead(side);
    } else {
      var f, last := os[..|os| - 1], os[|os| - 1];
      assert os == f + [last];
      AppendInPriority(side, f, last);
      if !Precedes(side, o, last) {
        BehindAll(side, f, last, o);
        AppendInPriority(side, os, o);
      } else {
        JoinedInPriority(side, f, o);
        JoinedMembers(side, f, o);
        Asymmetric(side, o, last);
        AppendInPriority(side, Joined(side, f, o), last);
      }
    }
  }

  lemma NobodyAhead(side: Side)
    ensures InPriority(side, [])
  {
  }

  lemma BehindAll(side: Side, f: seq<AuctionOrder>, last: AuctionOrder, o: AuctionOrder)
    requires NoneAfter(side, f, last) && !Precedes(side, o, last)
    ensures NoneAfter(side, f + [last], o)
  {
    hide Precedes;
    forall x | x in f + [last]
      ensures !Precedes(side, o, x)
    {
      if x in f {
        Chain(side, o, last, x);
      }
    }
  }

  /** Whatever passes the checks is collected in priority order, on its own side, with a positive price and quantity. */
  lemma CollectKeeps(e: Engine, c: LimitCmd, hook: HookAnswer, now: int)
    requires Collected(e.auctionBids, e.auctionAsks) && CheckLimit(e, c, hook, now) == Pass
    ensures Collected(Collect(e, c).auctionBids, Collect(e, c).auctionAsks)
  {
    hide CheckLimit, Joined, InPriority, Positive;
    PassedPositive(e, c, hook, now);
    if c.side == Bid {
      JoinedSide(Bid, e.auctionBids, AuctionOf(c, e.clock + 1));
    } else {
      JoinedSide(Ask, e.auctionAsks, AuctionOf(c, e.clock + 1));
    }
  }

  lemma JoinedSide(side: Side, os: seq<AuctionOrder>, o: AuctionOrder)
    requires InPriority(side, os) && Positive(os) && (forall x :: x in os ==> x.side == side)
    requires o.side == side && o.qty > 0 && o.price > 0
    ensures var r := Joined(side, os, o); InPriority(side, r) && Positive(r) && forall x :: x in r ==> x.side == side
  {
    hide InPriority, Positive, Joined;
    JoinedInPriority(side, os, o);
    JoinedCollected(os, Joined(side, os, o), o);
  }

  lemma PassedPositive(e: Engine, c: LimitCmd, hook: HookAnswer, now: int)
    requires CheckLimit(e, c, hook, now) == Pass
    ensures c.price > 0 && c.qty > 0
  {
    hide Holds, StopHeld, HasLevel, OverValue;
  }

  lemma JoinedCollected(os: seq<AuctionOrder>, r: seq<AuctionOrder>, o: AuctionOrder)
    requires Positive(os) && multiset(r) == multiset(os) + multiset{o} && o.qty > 0 && o.price > 0
    ensures Positive(r) && forall x :: x in r ==> x in os || x == o
  {
    forall x | x in r
      ensures x in os || x == o
    {
      assert x in multiset(r);
    }
    forall i | 0 <= i < |r|
      ensures r[i].qty > 0 && r[i].price > 0
    {
      assert r[i] in r;
    }
  }

  /** Clearing prices nothing that is left against anything else that is left. */
  ghost predicate Separate(os: seq<AuctionOrder>) {
    forall b, a :: b in os && a in os && b.side == Bid && a.side == Ask ==> b.price < a.price
  }

  /** Whatever is left of a side keeps its side and its price. */
  lemma LeftSide(side: Side, os: seq<AuctionOrder>, p: int, t: int, o: AuctionOrder)
    requires o in SideLeft(side, os, p, t) || o in Excluded(side, os, p)
    requires forall x :: x in os ==> x.side == side
    ensures o.side == side && LeftOn(side, os, p, t, o)
  {
    var i := LeftOrigin(side, os, p, t, o);
    assert os[i] in os;
  }

  /** Nothing handed on by the sweep crosses anything else handed on, whether or not a price was found. */
  lemma ResidualSeparate(bids: seq<AuctionOrder>, asks: seq<AuctionOrder>, ref: int, c: Clearing)
    requires Collected(bids, asks) && Clears(bids, asks, ref, c)
    ensures Separate(Residual(bids, asks, if c.Clearing? then c.price else 0))
  {
    hide SideLeft, Excluded, Clears, Positive, InPriority;
    var p := if c.Clearing? then c.price else 0;
    var t := Volume(bids, asks, p);
    AnnouncedVolume(bids, asks, ref, c);
    var rest := Residual(bids, asks, p);
    forall b, a | b in rest && a in rest && b.side == Bid && a.side == Ask
      ensures b.price < a.price
    {
      WhichSide(bids, asks, p, b);
      WhichSide(bids, asks, p, a);
      if c.Clearing? {
        NoCrossingLeft(bids, asks, ref, c, b, a);
      } else {
        NoCrossingEver(bids, asks, ref, t, b, a);
      }
    }
  }

  lemma WhichSide(bids: seq<AuctionOrder>, asks: seq<AuctionOrder>, p: int, o: AuctionOrder)
    requires o in Residual(bids, asks, p)
    requires (forall x :: x in bids ==> x.side == Bid) && forall x :: x in asks ==> x.side == Ask
    ensures LeftOn(o.side, if o.side == Bid then bids else asks, p, Volume(bids, asks, p), o)
  {
    hide SideLeft, Excluded;
    var t := Volume(bids, asks, p);
    if o in SideLeft(Bid, bids, p, t) || o in Excluded(Bid, bids, p) {
      LeftSide(Bid, bids, p, t, o);
    } else {
      LeftSide(Ask, asks, p, t, o);
    }
  }

  lemma {:induction false} KeptOrders(os: seq<AuctionOrder>)
    ensures forall o :: o in GoodTillCanceled(os) ==> o in os
  {
    if os != [] {
      KeptOrders(os[..|os| - 1]);
    }
  }

  // ----- Carrying over -----

  /** Every level of the book is at the price of one of these orders, side by side. */
  ghost predicate LevelsFrom(b: Book, os: seq<AuctionOrder>) {
    && (forall i :: 0 <= i < |b.bids| ==> PricedBy(os, Bid, b.bids[i].price))
    && (forall i :: 0 <= i < |b.asks| ==> PricedBy(os, Ask, b.asks[i].price))
  }

  ghost predicate PricedBy(os: seq<AuctionOrder>, side: Side, p: int) {
    exists o :: o in os && o.side == side && o.price == p
  }

  lemma {:induction false} InsertPrices(ls: seq<Level>, o: Order, i: nat)
    requires i < |Insert(ls, o)|
    ensures Insert(ls, o)[i].price == o.price || exists j :: 0 <= j < |ls| && ls[j].price == Insert(ls, o)[i].price
  {
    if ls != [] && ls[0].price != o.price && !Better(o.side, o.price, ls[0].price) {
      if i > 0 {
        InsertPrices(ls[1..], o, i - 1);
        var r := Insert(ls[1..], o);
        if r[i - 1].price != o.price {
          var j :| 0 <= j < |ls[1..]| && ls[1..][j].price == r[i - 1].price;
          assert ls[j + 1].price == r[i - 1].price;
        }
      } else {
        assert ls[0].price == Insert(ls, o)[0].price;
      }
    } else if ls != [] {
      if ls[0].price == o.price {
        assert i > 0 ==> ls[i].price == Insert(ls, o)[i].price;
      } else {
        assert i > 0 ==> ls[i - 1].price == Insert(ls, o)[i].price;
      }
    }
  }

  /** An order that crosses nothing neither trades nor cancels anybody: it rests, or finds no level. */
  lemma NothingCrossed(b: Book, o: Order, clock: nat, default: STPMode, cap: nat)
    requires o.tif == GTC && o.typ == Limit && o.remain > 0
    requires var opp := b.Of(o.side.Opposite()); opp == [] || !Crosses(o, opp[0].price)
    ensures var out := Place(b, o, clock, default, cap);
            && out.fills == [] && out.cancels == [] && out.clock == clock
            && out.disposition == (if CanRestIn(b, o, cap) then Rested else Canceled)
            && out.book == (if CanRestIn(b, o, cap) then Rest(b, o) else b)
  {
    var m := Start(o, b, clock);
    assert Run(m, default) == m;
    assert b.With(o.side.Opposite(), b.Of(o.side.Opposite())) == b;
    hide Insert, CanRestIn;
  }

  lemma CarryStep(e: Engine, os: seq<AuctionOrder>, o: AuctionOrder)
    requires Separate(os) && LevelsFrom(e.book, os) && o in os && o.qty > 0
    ensures LevelsFrom(CarryOne(e, o).book, os)
    ensures CountOrders(e.book) < e.cfg.nodeCap ==> Outcomes(e, Carried(o)).fills == [] && Outcomes(e, Carried(o)).cancels == []
    ensures CarryOne(e, o).positions == e.positions
  {
    hide Place, Run, Insert, SumLevels, InfoAt, Find;
    if CountOrders(e.book) < e.cfg.nodeCap {
      var c := Carried(o);
      var opp := e.book.Of(o.side.Opposite());
      if opp != [] {
        assert PricedBy(os, o.side.Opposite(), opp[0].price);
        var x :| x in os && x.side == o.side.Opposite() && x.price == opp[0].price;
      }
      NothingCrossed(e.book, c, e.clock, e.cfg.stpDefault, e.cfg.levelCap);
      var own := e.book.Of(o.side);
      var ins := Insert(own, c);
      forall i | 0 <= i < |ins|
        ensures PricedBy(os, o.side, ins[i].price)
      {
        InsertPrices(own, c, i);
      }
    }
  }

  lemma CarryNone(e: Engine)
    ensures CarryOver(e, []) == e
  {
  }

  lemma CarryLast(e: Engine, os: seq<AuctionOrder>, k: nat)
    requires 0 < k <= |os|
    ensures CarryOver(e, os[..k]) == CarryOne(CarryOver(e, os[..k - 1]), os[k - 1])
  {
    hide CarryOne;
    assert os[..k][..k - 1] == os[..k - 1];
  }

  lemma StaysQuiet(e: Engine, os: seq<AuctionOrder>, o: AuctionOrder)
    requires Separate(os) && LevelsFrom(e.book, os) && o in os && o.qty > 0
    ensures LevelsFrom(CarryOne(e, o).book, os) && CarryOne(e, o).positions == e.positions && Quiet(e, o)
  {
    hide Separate, LevelsFrom, CarryOne, Place;
    CarryStep(e, os, o);
  }

  /** None of the orders carried into a book built from them alone trades or triggers self-trade prevention. */
  lemma {:induction false} CarriedQuietly(e: Engine, os: seq<AuctionOrder>, k: nat)
    requires Separate(os) && LevelsFrom(e.book, os) && Positive(os) && k <= |os|
    ensures LevelsFrom(CarryOver(e, os[..k]).book, os) && CarryOver(e, os[..k]).positions == e.positions
    ensures forall j :: 0 <= j < k ==> Quiet(CarryOver(e, os[..j]), os[j])
  {
    hide Separate, LevelsFrom, CarryOne, Place, CarryOver, Quiet;
    if k == 0 {
      CarryNone(e);
    } else {
      CarriedQuietly(e, os, k - 1);
      CarryLast(e, os, k);
      StaysQuiet(CarryOver(e, os[..k - 1]), os, os[k - 1]);
    }
  }

  /** The order goes in without a fill and without a self-trade cancel, or the node pool is exhausted. */
  ghost predicate Quiet(e: Engine, o: AuctionOrder) {
    CountOrders(e.book) < e.cfg.nodeCap ==> Outcomes(e, Carried(o)).fills == [] && Outcomes(e, Carried(o)).cancels == []
  }

  /** The market once the auction has been executed, before anything is carried over. */
  function AfterSweep(e: Engine, price: int): Engine {
    var fills := PairUp(Eligible(Bid, e.auctionBids, price), Eligible(Ask, e.auctionAsks, price), price);
    e.(positions := ApplyFills(e.positions, fills)).Emit(FillsLog(fills))
  }

  /** Clearing into an empty continuous book: the orders carried over produce no fill and no self-trade
      cancel, so the only trades are those at the clearing price. */
  lemma ClearingIntoEmptyBook(e: Engine, c: Clearing)
    requires e.state.Auction? && e.book == EMPTY_BOOK && Collected(e.auctionBids, e.auctionAsks)
    requires Clears(e.auctionBids, e.auctionAsks, e.cfg.reference, c)
    ensures var price := if c.Clearing? then c.price else 0;
            var os := GoodTillCanceled(Residual(e.auctionBids, e.auctionAsks, price));
            && (forall j :: 0 <= j < |os| ==> Quiet(CarryOver(AfterSweep(e, price), os[..j]), os[j]))
            && ProcessClearAuction(e, c).positions == AfterSweep(e, price).positions
  {
    hide Separate, Residual, GoodTillCanceled, Immediate, PairUp, Eligible, FillsLog, CarryOver, Clears, Positive, Quiet, CanceledLog;
    var price := if c.Clearing? then c.price else 0;
    var rest := Residual(e.auctionBids, e.auctionAsks, price);
    var os := GoodTillCanceled(rest);
    ResidualSeparate(e.auctionBids, e.auctionAsks, e.cfg.reference, c);
    KeptOrders(rest);
    SeparatePart(rest, os);
    ResidualPositive(e.auctionBids, e.auctionAsks, price);
    AllPositive(rest, os);
    CarriedQuietly(AfterSweep(e, price), os, |os|);
    assert os[..|os|] == os;
  }

  lemma SeparatePart(os: seq<AuctionOrder>, part: seq<AuctionOrder>)
    requires Separate(os) && forall o :: o in part ==> o in os
    ensures Separate(part)
  {
  }

  /** Whatever is left has a positive quantity left. */
  lemma ResidualPositive(bids: seq<AuctionOrder>, asks: seq<AuctionOrder>, p: int)
    requires Positive(bids) && Positive(asks)
    ensures Positive(Residual(bids, asks, p))
  {
    hide SideLeft, Excluded, Eligible;
    var t := Volume(bids, asks, p);
    EligiblePositive(Bid, bids, p);
    EligiblePositive(Ask, asks, p);
    TotalPositive(Eligible(Bid, bids, p));
    TotalPositive(Eligible(Ask, asks, p));
    SidePositive(Bid, bids, p, t);
    SidePositive(Ask, asks, p, t);
    Joins(SideLeft(Bid, bids, p, t), SideLeft(Ask, asks, p, t));
    Joins(SideLeft(Bid, bids, p, t) + SideLeft(Ask, asks, p, t), Excluded(Bid, bids, p));
    Joins(SideLeft(Bid, bids, p, t) + SideLeft(Ask, asks, p, t) + Excluded(Bid, bids, p), Excluded(Ask, asks, p));
  }

  lemma Joins(a: seq<AuctionOrder>, b: seq<AuctionOrder>)
    requires Positive(a) && Positive(b)
    ensures Positive(a + b)
  {
  }

  lemma SidePositive(side: Side, os: seq<AuctionOrder>, p: int, t: int)
    requires Positive(os) && t >= 0
    ensures Positive(SideLeft(side, os, p, t))
  {
    hide Eligible, Consume, Left;
    var es := Eligible(side, os, p);
    EligiblePositive(side, os, p);
    ConsumeInOrder(es, t);
    var left := SideLeft(side, os, p, t);
    forall i | 0 <= i < |left|
      ensures left[i].qty > 0 && left[i].price > 0
    {
      var j := LeftMember(es, Consume(es, t), left[i]);
    }
  }
}
