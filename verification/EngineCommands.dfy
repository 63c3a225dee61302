/** Every command keeps the invariants of the continuous market. */
module EngineCommands {
  import opened Domain
  import opened BookSpec
  import opened BookLemmas
  import opened MatchSpec
  import opened MatchTheorems
  import opened MatchQuantities
  import opened PlaceEffects
  import opened StopSpec
  import opened EngineSpec
  import opened EventFolds
  import opened EngineInvariants
  import opened EngineSteps
  import opened EngineCascade

  // ----- Refusals -----

  /** A refusal that ends an order names one that does not exist. */
  lemma RejectMaintains(e: Engine, p: seq<Stop>, id: OrderId, user: UserId, reason: Reason)
    requires (reason == FOKFailed || reason == PoolExhausted) ==> IdCount(e, p, id) == 0
    ensures Maintains(e, p, Reject(e, id, user, reason), p)
  {
    var r, ev := Reject(e, id, user, reason), OrderRejected(id, user, reason);
    if Silent(ev) {
      SilentKeeps(e, p, ev, r);
    } else {
      IdUnused(e, p, id);
      LogOnly(e, p, ev, r);
    }
  }

  /** A refusal that ends an order nobody has: nothing was open under it. */
  lemma LogOnly(e: Engine, p: seq<Stop>, ev: Event, r: Engine)
    requires ev.OrderRejected? && OpenQty(e, p, ev.id) == 0 && r == e.Emit([ev])
    ensures Maintains(e, p, r, p)
  {
    hide DepthAfter, OpenAfter, SumEvents, InfoAt, WFBook, WFStops, SumLevels, SumStops;
    forall side: Side, price
      ensures DepthAfter(NoLevel, r.log, side, price) == DepthAfter(NoLevel, e.log, side, price)
    {
      LogStep(e.log, ev, "", "", side, price);
    }
    forall id
      ensures OpenAfter(0, r.log, id) == OpenStep(OpenAfter(0, e.log, id), ev, id)
    {
      LogStep(e.log, ev, id, "", Bid, 0);
    }
    forall user
      ensures SumEvents(r.log, Bought(user)) == SumEvents(e.log, Bought(user))
    {
      LogStep(e.log, ev, "", user, Bid, 0);
    }
    LogStep(e.log, ev, "", "", Bid, 0);
    SameIds(e, r, p);
  }

  // ----- Entering and leaving the stop book -----

  /** A new stop under a free id. */
  lemma EnlistGood(e: Engine, s: Stop)
    requires Good(e, []) && IdCount(e, [], s.id) == 0 && s.qty > 0 && s.seqNum == e.clock + 1
    ensures Good(Enlist(e, s), [])
    ensures forall id :: OpenQty(Enlist(e, s), [], id) == OpenQty(e, [], id) + if id == s.id then s.qty else 0
  {
    hide SumLevels, SumStops, WFSide, WFStopSide, AddTo;
    var r := Enlist(e, s);
    LaterBook(e.book, e.clock, e.clock + 1);
    LaterStops(e.stops, e.clock, e.clock + 1);
    AddWF(e.stops.Of(s.side), s, s.side, e.clock, e.clock + 1);
    forall id
      ensures IdCount(r, [], id) == IdCount(e, [], id) + if id == s.id then 1 else 0
      ensures OpenQty(r, [], id) == OpenQty(e, [], id) + if id == s.id then s.qty else 0
    {
      AddSum(e.stops.Of(s.side), s, IsStop(id));
      AddSum(e.stops.Of(s.side), s, StopOpen(id));
    }
  }

  lemma EnlistMaintains(e: Engine, s: Stop)
    requires Good(e, []) && IdCount(e, [], s.id) == 0 && s.qty > 0 && s.seqNum == e.clock + 1
    ensures Good(Enlist(e, s), []) && (PositionsAgree(e) ==> PositionsAgree(Enlist(e, s)))
    ensures s.stp == STPDisabled && Tracked(e, []) ==> Tracked(Enlist(e, s), [])
    ensures s.stp == STPDisabled && Ledgered(e, []) ==> Ledgered(Enlist(e, s), [])
  {
    hide DepthAfter, OpenAfter, SumEvents, InfoAt, WFBook, WFStops, SumLevels, SumStops, AddTo;
    var r := Enlist(e, s);
    var ev := OrderAccepted(s.id, s.user, s.side, s.typ, s.trigger, s.limit, s.qty, s.qty, s.tif, s.seqNum);
    EnlistGood(e, s);
    IdUnused(e, [], s.id);
    AddSum(e.stops.Of(s.side), s, StopSTPOn);
    forall side: Side, price
      ensures DepthAfter(NoLevel, r.log, side, price) == DepthAfter(NoLevel, e.log, side, price)
    {
      LogStep(e.log, ev, "", "", side, price);
    }
    forall id
      ensures OpenAfter(0, r.log, id) == if id == s.id then s.qty else OpenAfter(0, e.log, id)
    {
      LogStep(e.log, ev, id, "", Bid, 0);
    }
    forall user
      ensures SumEvents(r.log, Bought(user)) == SumEvents(e.log, Bought(user))
    {
      LogStep(e.log, ev, "", user, Bid, 0);
    }
    LogStep(e.log, ev, "", "", Bid, 0);
  }

  /** Where a stop is found, what its removal takes. */
  lemma FoundStopFacts(b: Stops, clock: nat, id: OrderId, f: Stop -> int)
    requires WFStops(b, clock) && FindStop(b, id).FoundStop?
    ensures var s := FindStop(b, id).stop; var r := RemoveStop(b, id);
            && s.id == id && s.qty > 0 && WFStops(r, clock) && SumBoth(r, f) == SumBoth(b, f) - f(s)
            && (SumStops(r.sells, f) == SumStops(b.sells, f) - f(s) || SumStops(r.sells, f) == SumStops(b.sells, f))
            && (SumStops(r.buys, f) == SumStops(b.buys, f) - f(s) || SumStops(r.buys, f) == SumStops(b.buys, f))
  {
    hide SumStops;
    var s := FindStop(b, id).stop;
    StopCount(b.sells, id);
    StopCount(b.buys, id);
    var side := if FindStopIn(b.sells, id).FoundStop? then Ask else Bid;
    assert s in b.Of(side);
    var i :| 0 <= i < |b.Of(side)| && b.Of(side)[i] == s;
    assert WFStop(b.Of(side)[i], side);
    RemoveStopWF(b.Of(side), id, side, clock);
    RemoveStopSum(b.Of(side), id, f);
  }

  /** A stop leaves the stop book for good under an event that takes all of its quantity. */
  lemma StopLeaves(e: Engine, id: OrderId, ev: Event)
    requires FindStop(e.stops, id).FoundStop? && (ev.OrderCanceled? || ev.OrderExpired?)
    requires ev.id == id && ev.qty == FindStop(e.stops, id).stop.qty
    ensures Maintains(e, [], e.(stops := RemoveStop(e.stops, id)).Emit([ev]), [])
  {
    hide DepthAfter, OpenAfter, SumEvents, InfoAt, WFBook, WFStops, SumLevels, SumStops, FindStop, RemoveStop;
    var s := FindStop(e.stops, id).stop;
    var r := e.(stops := RemoveStop(e.stops, id)).Emit([ev]);
    forall side: Side, price
      ensures DepthAfter(NoLevel, r.log, side, price) == DepthAfter(NoLevel, e.log, side, price)
    {
      LogStep(e.log, ev, "", "", side, price);
    }
    forall user
      ensures SumEvents(r.log, Bought(user)) == SumEvents(e.log, Bought(user))
    {
      LogStep(e.log, ev, "", user, Bid, 0);
    }
    LogStep(e.log, ev, "", "", Bid, 0);
    if Good(e, []) {
      FoundStopFacts(e.stops, e.clock, id, StopSTPOn);
      STPNonNegative(RemoveStop(e.stops, id).sells);
      STPNonNegative(RemoveStop(e.stops, id).buys);
      forall i
        ensures IdCount(r, [], i) == IdCount(e, [], i) - IsStop(i)(s) && OpenQty(r, [], i) == OpenQty(e, [], i) - StopOpen(i)(s)
        ensures OpenAfter(0, r.log, i) == OpenStep(OpenAfter(0, e.log, i), ev, i)
      {
        FoundStopFacts(e.stops, e.clock, id, IsStop(i));
        FoundStopFacts(e.stops, e.clock, id, StopOpen(i));
        LogStep(e.log, ev, i, "", Bid, 0);
      }
      NoSTPLess(e, r, s);
    }
  }

  lemma NoSTPLess(e: Engine, r: Engine, s: Stop)
    requires r.book == e.book && r.cfg == e.cfg && r.stops == RemoveStop(e.stops, s.id) && FindStop(e.stops, s.id) == FoundStop(s)
    requires WFStops(e.stops, e.clock)
    ensures NoSTP(e, []) ==> NoSTP(r, [])
  {
    hide SumStops, SumLevels, FindStop, RemoveStop, WFStops;
    FoundStopFacts(e.stops, e.clock, s.id, StopSTPOn);
    STPNonNegative(r.stops.sells);
    STPNonNegative(r.stops.buys);
  }

  // ----- Leaving the book -----

  /** Where an order is found, what its removal takes and changes. */
  lemma FoundFacts(b: Book, clock: nat, id: OrderId)
    requires WFBook(b, clock) && Find(b, id).Found?
    ensures var o := Find(b, id).order; var r := RemoveId(b, id);
            && o.id == id && WFOrder(o) && FindIn(b.Of(o.side), id) == Found(o) && WFBook(r, clock)
            && r == b.With(o.side, Remove(b.Of(o.side), id)) && Levels(r) <= Levels(b)
  {
    var o := Find(b, id).order;
    var side := if FindIn(b.bids, id).Found? then Bid else Ask;
    FoundWF(b.Of(side), id, side, clock);
    RemoveWF(b.Of(o.side), id, o.side, clock);
    RemoveLevels(b.Of(o.side), id);
    hide WFSide;
  }

  lemma {:induction false} FoundWF(ls: seq<Level>, id: OrderId, side: Side, clock: nat)
    requires WFSide(ls, side, clock) && FindIn(ls, id).Found?
    ensures var o := FindIn(ls, id).order; o.id == id && WFOrder(o) && o.side == side
  {
    if FindFrom(ls[0].orders, id).Found? {
      var k := FirstAt(ls[0].orders, id);
      FoundId(ls[0].orders, id);
    } else {
      TailWF(ls, side, clock);
      FoundWF(ls[1..], id, side, clock);
    }
  }

  lemma {:induction false} FoundId(os: seq<Order>, id: OrderId)
    ensures FindFrom(os, id).Found? ==> FindFrom(os, id).order.id == id
  {
    if os != [] {
      FoundId(os[1..], id);
    }
  }

  lemma {:induction false} RemoveLevels(ls: seq<Level>, id: OrderId)
    ensures |Remove(ls, id)| <= |ls|
  {
    if ls != [] {
      RemoveLevels(ls[1..], id);
    }
  }

  lemma RemovedSum(b: Book, clock: nat, id: OrderId, f: Order -> int)
    requires WFBook(b, clock) && Find(b, id).Found?
    ensures SumBook(RemoveId(b, id), f) == SumBook(b, f) - f(Find(b, id).order)
  {
    hide SumLevels, Remove, FindIn, WFSide;
    FoundFacts(b, clock, id);
    RemoveSum(b.Of(Find(b, id).order.side), id, f);
  }

  /** The book without an order: well-formed, nothing else lost, and no self-trade mode gained. */
  lemma OrderOff(e: Engine, id: OrderId, log: seq<Event>)
    requires Good(e, []) && Find(e.book, id).Found?
    ensures var o := Find(e.book, id).order; var r := e.(book := RemoveId(e.book, id), log := log);
            && Good(r, []) && (NoSTP(e, []) ==> NoSTP(r, [])) && (SumBook(e.book, Unflagged) == 0 ==> SumBook(r.book, Unflagged) == 0)
            && (forall i :: OpenQty(r, [], i) == OpenQty(e, [], i) - OpenOf(i)(o))
            && (Uncrossed(e.book) ==> Uncrossed(r.book))
  {
    hide SumLevels, SumStops, WFBook, WFStops, Find, RemoveId, Uncrossed, WFOrder;
    var o := Find(e.book, id).order;
    var r := e.(book := RemoveId(e.book, id), log := log);
    FoundFacts(e.book, e.clock, id);
    StableCounts(id);
    RemovedSum(e.book, e.clock, id, One);
    RemovedSum(e.book, e.clock, id, STPOn);
    RemovedSum(e.book, e.clock, id, Unflagged);
    NoneInSide(r.book.bids, STPOn);
    NoneInSide(r.book.asks, STPOn);
    NoneInSide(r.book.bids, Unflagged);
    NoneInSide(r.book.asks, Unflagged);
    forall i
      ensures IdCount(r, [], i) <= IdCount(e, [], i) && OpenQty(r, [], i) == OpenQty(e, [], i) - OpenOf(i)(o)
    {
      RemovedSum(e.book, e.clock, id, HasId(i));
      RemovedSum(e.book, e.clock, id, OpenOf(i));
    }
    if Uncrossed(e.book) {
      WFSound(e.book, e.clock);
      RemoveUncrossed(e.book, o.side, id);
    }
  }

  /** The reserve an order has is reported when it is canceled, because only icebergs have one. */
  lemma ReserveFlagged(b: Book, clock: nat, id: OrderId)
    requires WFBook(b, clock) && Find(b, id).Found? && SumBook(b, Unflagged) == 0
    ensures var o := Find(b, id).order; o.hidden != 0 ==> o.iceberg
  {
    hide SumLevels, WFBook, Find, RemoveId;
    StableCounts(id);
    RemovedSum(b, clock, id, Unflagged);
    NoneInSide(RemoveId(b, id).bids, Unflagged);
    NoneInSide(RemoveId(b, id).asks, Unflagged);
  }

  /** The change one removal makes to the public depth is at the order's own price. */
  lemma DepthOff(b: Book, clock: nat, id: OrderId, side: Side, price: int)
    requires WFBook(b, clock) && Find(b, id).Found?
    requires side != Find(b, id).order.side || price != Find(b, id).order.price
    ensures InfoAt(RemoveId(b, id).Of(side), price) == InfoAt(b.Of(side), price)
  {
    hide InfoAt, Remove, FindIn, WFSide, SoundSide;
    FoundFacts(b, clock, id);
    if side == Find(b, id).order.side {
      WFSound(b, clock);
      RemoveInfo(b.Of(side), id, side, price);
    }
  }

  lemma CancelMaintains(e: Engine, id: OrderId)
    requires Find(e.book, id).Found? && Good(e, [])
    ensures Maintains(e, [], CancelResting(e, Find(e.book, id).order), [])
    ensures Uncrossed(e.book) ==> Uncrossed(CancelResting(e, Find(e.book, id).order).book)
  {
    hide DepthAfter, OpenAfter, SumEvents, InfoAt, WFBook, WFStops, SumLevels, SumStops, Find, RemoveId, WFOrder, Uncrossed;
    var o := Find(e.book, id).order;
    FoundFacts(e.book, e.clock, id);
    var r := CancelResting(e, o);
    var ev := OrderCanceled(o.id, o.user, o.side, o.price, if o.iceberg then o.remain + o.hidden else o.remain, o.filled, UserRequested);
    var dv := DepthUpdate(o.side, o.price, InfoAt(r.book.Of(o.side), o.price));
    OrderOff(e, id, r.log);
    var mid := e.log + [ev];
    assert r.log == mid + [dv];
    if SumBook(e.book, Unflagged) == 0 {
      ReserveFlagged(e.book, e.clock, id);
    }
    forall side: Side, price
      ensures DepthAfter(NoLevel, r.log, side, price) == DepthStep(DepthAfter(NoLevel, e.log, side, price), dv, side, price)
      ensures side != o.side || price != o.price ==> InfoAt(r.book.Of(side), price) == InfoAt(e.book.Of(side), price)
    {
      LogStep(e.log, ev, "", "", side, price);
      LogStep(mid, dv, "", "", side, price);
      if side != o.side || price != o.price {
        DepthOff(e.book, e.clock, id, side, price);
      }
    }
    forall i
      ensures OpenAfter(0, r.log, i) == OpenStep(OpenAfter(0, e.log, i), ev, i)
    {
      LogStep(e.log, ev, i, "", Bid, 0);
      LogStep(mid, dv, i, "", Bid, 0);
    }
    forall user
      ensures SumEvents(r.log, Bought(user)) == SumEvents(e.log, Bought(user))
    {
      LogStep(e.log, ev, "", user, Bid, 0);
      LogStep(mid, dv, "", user, Bid, 0);
    }
    LogStep(e.log, ev, "", "", Bid, 0);
    LogStep(mid, dv, "", "", Bid, 0);
  }

  // ----- Expiry -----

  /** One expired order: no depth update is emitted, and a reserve goes unreported. */
  lemma ExpireFacts(e: Engine, id: OrderId)
    requires Good(e, [])
    ensures var r := ExpireOrder(e, id);
            && Good(r, []) && r.cfg == e.cfg && r.clock == e.clock && r.state == e.state && r.preHalt == e.preHalt
            && (PositionsAgree(e) ==> PositionsAgree(r)) && (Uncrossed(e.book) ==> Uncrossed(r.book))
            && (NoSTP(e, []) ==> NoSTP(r, []))
            && (Ledgered(e, []) && !(Find(e.book, id).Found? && Find(e.book, id).order.hidden > 0) ==> Ledgered(r, []))
            && (forall side: Side, price :: DepthAfter(NoLevel, r.log, side, price) == DepthAfter(NoLevel, e.log, side, price))
  {
    hide DepthAfter, OpenAfter, SumEvents, InfoAt, WFBook, WFStops, SumLevels, SumStops, Find, RemoveId, Uncrossed;
    if Find(e.book, id).Found? {
      var o := Find(e.book, id).order;
      FoundFacts(e.book, e.clock, id);
      var ev := OrderExpired(o.id, o.user, o.side, o.price, o.remain);
      var r := ExpireOrder(e, id);
      OrderOff(e, id, r.log);
      forall side: Side, price
        ensures DepthAfter(NoLevel, r.log, side, price) == DepthAfter(NoLevel, e.log, side, price)
      {
        LogStep(e.log, ev, "", "", side, price);
      }
      forall i
        ensures OpenAfter(0, r.log, i) == OpenStep(OpenAfter(0, e.log, i), ev, i)
      {
        LogStep(e.log, ev, i, "", Bid, 0);
      }
      forall user
        ensures SumEvents(r.log, Bought(user)) == SumEvents(e.log, Bought(user))
      {
        LogStep(e.log, ev, "", user, Bid, 0);
      }
      LogStep(e.log, ev, "", "", Bid, 0);
    }
  }

  /** The order resting under this id has a reserve. */
  predicate Reserved(b: Book, id: OrderId) {
    Find(b, id).Found? && Find(b, id).order.hidden > 0
  }

  /** An order with a reserve is among those to expire. */
  predicate ExpiresReserve(e: Engine, ids: seq<OrderId>) {
    exists i :: 0 <= i < |ids| && Reserved(e.book, ids[i])
  }

  /** Nothing is found any more under an id taken off. */
  lemma GoneOnce(e: Engine, id: OrderId)
    requires Good(e, [])
    ensures Find(RemoveId(e.book, id), id) == Missing
  {
    hide SumLevels, WFBook, RemoveId, FindIn;
    var r := RemoveId(e.book, id);
    if Find(e.book, id).Found? {
      ExpireFacts(e, id);
      FoundFacts(e.book, e.clock, id);
      RemovedSum(e.book, e.clock, id, HasId(id));
      assert IdCount(e, [], id) <= 1;
      StopCount(e.stops.sells, id);
      StopCount(e.stops.buys, id);
      if Find(r, id).Found? {
        GoodBook(ExpireOrder(e, id));
        FoundFacts(r, e.clock, id);
        RemovedSum(r, e.clock, id, HasId(id));
        SideCount(RemoveId(r, id).bids, id);
        SideCount(RemoveId(r, id).asks, id);
      }
    } else {
      assert r == e.book by { MissingStays(e.book, id); }
    }
  }

  lemma MissingStays(b: Book, id: OrderId)
    requires Find(b, id) == Missing
    ensures RemoveId(b, id) == b
  {
  }

  lemma GoodBook(e: Engine)
    requires Good(e, [])
    ensures WFBook(e.book, e.clock)
  {
  }

  /** Expired ids are gone; what rests under another id stays. */
  lemma {:induction false} ExpiredFind(e: Engine, ids: seq<OrderId>, id: OrderId)
    requires Good(e, [])
    ensures Good(ExpireOrders(e, ids), [])
    ensures Find(ExpireOrders(e, ids).book, id) == if id in ids then Missing else Find(e.book, id)
  {
    hide Good, Find, RemoveId, Tracked, Ledgered, PositionsAgree, Uncrossed, NoSTP;
    if ids != [] {
      var front, last := ids[..|ids| - 1], ids[|ids| - 1];
      assert ids == front + [last];
      ExpiredFind(e, front, id);
      ExpiredFind(e, front, last);
      var mid := ExpireOrders(e, front);
      ExpireFacts(mid, last);
      GoneOnce(mid, last);
      if Find(mid.book, last) == Missing {
        MissingStays(mid.book, last);
      }
      if id != last {
        FindOther(mid.book, last, id);
      }
    }
  }

  lemma {:induction false} ExpireAll(e: Engine, ids: seq<OrderId>)
    requires Good(e, [])
    ensures var r := ExpireOrders(e, ids);
            && Good(r, []) && r.cfg == e.cfg && r.state == e.state && r.preHalt == e.preHalt
            && (PositionsAgree(e) ==> PositionsAgree(r)) && (Uncrossed(e.book) ==> Uncrossed(r.book))
            && (NoSTP(e, []) ==> NoSTP(r, []))
            && (Ledgered(e, []) && !ExpiresReserve(e, ids) ==> Ledgered(r, []))
            && (forall side: Side, price :: DepthAfter(NoLevel, r.log, side, price) == DepthAfter(NoLevel, e.log, side, price))
  {
    hide Good, Ledgered, PositionsAgree, ExpireOrder, DepthAfter, Find, Uncrossed, NoSTP;
    if ids != [] {
      var front, last := ids[..|ids| - 1], ids[|ids| - 1];
      ExpireAll(e, front);
      ExpireFacts(ExpireOrders(e, front), last);
      ExpiredFind(e, front, last);
      assert !ExpiresReserve(e, ids) ==> !ExpiresReserve(e, front) && !Reserved(e.book, last) by {
        if ExpiresReserve(e, front) {
          var i :| 0 <= i < |front| && Reserved(e.book, front[i]);
          assert ids[i] == front[i];
        }
      }
    }
  }

  /** None of these ids is that of a resting order. */
  predicate NoneRests(b: Book, ids: seq<OrderId>) {
    forall i :: 0 <= i < |ids| ==> Find(b, ids[i]) == Missing
  }

  /** Expiry leaves the book alone exactly when none of the ids rests in it. */
  lemma {:induction false} ExpiryChangesBook(e: Engine, ids: seq<OrderId>)
    requires Good(e, [])
    ensures ExpireOrders(e, ids).book == e.book <==> NoneRests(e.book, ids)
  {
    hide Good, Find, RemoveId;
    if NoneRests(e.book, ids) {
      if ids != [] {
        var front := ids[..|ids| - 1];
        assert NoneRests(e.book, front) by {
          assert forall i :: 0 <= i < |front| ==> front[i] == ids[i];
        }
        ExpiryChangesBook(e, front);
      }
    } else {
      var i :| 0 <= i < |ids| && Find(e.book, ids[i]) != Missing;
      ExpiredFind(e, ids, ids[i]);
    }
  }

  /** One expired order: its slice is reported, its reserve is not. */
  lemma ExpiryReports(e: Engine, i: OrderId, id: OrderId)
    requires Good(e, [])
    ensures var r := ExpireOrder(e, i);
            OpenAfter(0, r.log, id) - OpenQty(r, [], id) == OpenAfter(0, e.log, id) - OpenQty(e, [], id)
              + if i == id && Find(e.book, id).Found? then Find(e.book, id).order.hidden else 0
  {
    hide OpenAfter, DepthAfter, SumEvents, WFBook, WFStops, SumLevels, SumStops, Find, RemoveId, Uncrossed, NoSTP;
    if Find(e.book, i).Found? {
      var o := Find(e.book, i).order;
      GoodBook(e);
      FoundFacts(e.book, e.clock, i);
      OrderOff(e, i, ExpireOrder(e, i).log);
      LogStep(e.log, OrderExpired(o.id, o.user, o.side, o.price, o.remain), id, "", Bid, 0);
    }
  }

  lemma {:induction false} ExpiryLeaves(e: Engine, ids: seq<OrderId>, id: OrderId)
    requires Good(e, [])
    ensures var r := ExpireOrders(e, ids);
            OpenAfter(0, r.log, id) - OpenQty(r, [], id) == OpenAfter(0, e.log, id) - OpenQty(e, [], id)
              + if id in ids && Find(e.book, id).Found? then Find(e.book, id).order.hidden else 0
  {
    hide Good, OpenAfter, OpenQty, Find, ExpireOrder;
    if ids != [] {
      var front, last := ids[..|ids| - 1], ids[|ids| - 1];
      assert ids == front + [last];
      ExpiryLeaves(e, front, id);
      ExpiredFind(e, front, id);
      ExpiryReports(ExpireOrders(e, front), last, id);
    }
  }

  /** Expiry leaves every order accounted for exactly when no order with a reserve is among those to expire. */
  lemma ExpiryLedgerExactly(e: Engine, ids: seq<OrderId>)
    requires Good(e, []) && LedgerAgrees(e, [])
    ensures LedgerAgrees(ExpireOrders(e, ids), []) <==> !ExpiresReserve(e, ids)
  {
    hide Good, OpenAfter, OpenQty, Find, ExpireOrders;
    var r := ExpireOrders(e, ids);
    forall id
      ensures OpenAfter(0, r.log, id) == OpenQty(r, [], id) <==> !(id in ids && Reserved(e.book, id))
    {
      ExpiryLeaves(e, ids, id);
      ReserveNonNegative(e, id);
      assert OpenAfter(0, e.log, id) == OpenQty(e, [], id);
    }
    if ExpiresReserve(e, ids) {
      var i :| 0 <= i < |ids| && Reserved(e.book, ids[i]);
      assert OpenAfter(0, r.log, ids[i]) != OpenQty(r, [], ids[i]);
    }
  }

  lemma ReserveNonNegative(e: Engine, id: OrderId)
    requires Good(e, [])
    ensures Find(e.book, id).Found? ==> Find(e.book, id).order.hidden >= 0
  {
    if Find(e.book, id).Found? {
      FoundFacts(e.book, e.clock, id);
    }
  }

  lemma ExpireStopMaintains(e: Engine, id: OrderId)
    requires Good(e, [])
    ensures var r := ExpireStop(e, id);
            Maintains(e, [], r, []) && r.book == e.book && r.state == e.state && r.preHalt == e.preHalt
  {
    hide Maintains, RemoveStop;
    if FindStop(e.stops, id).FoundStop? {
      var s := FindStop(e.stops, id).stop;
      StopCount(e.stops.sells, id);
      StopCount(e.stops.buys, id);
      StopLeaves(e, id, OrderExpired(s.id, s.user, s.side, s.trigger, s.qty));
    } else {
      SelfMaintains(e);
    }
  }

  lemma SelfMaintains(e: Engine)
    ensures Maintains(e, [], e, [])
  {
  }

  lemma {:induction false} ExpireAllStops(e: Engine, ids: seq<OrderId>)
    requires Good(e, [])
    ensures var r := ExpireStops(e, ids);
            Maintains(e, [], r, []) && Good(r, []) && r.book == e.book && r.state == e.state && r.preHalt == e.preHalt
  {
    hide Good, Tracked, Ledgered, PositionsAgree, ExpireStop;
    if ids != [] {
      ExpireAllStops(e, ids[..|ids| - 1]);
      ExpireStopMaintains(ExpireStops(e, ids[..|ids| - 1]), ids[|ids| - 1]);
    }
  }

  /** The market state and the log have no part in what makes a state good. */
  lemma StateAloneStays(e: Engine)
    requires Good(e, [])
    ensures forall s: MarketState, log :: Good(e.(state := s, log := log), [])
  {
    hide SumLevels, SumStops, WFBook, WFStops;
    forall s: MarketState, log
      ensures Good(e.(state := s, log := log), [])
    {
      SameIds(e, e.(state := s, log := log), []);
    }
  }
}
