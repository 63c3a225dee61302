/** Who leaves the market without trading: exactly the order or stop its owner cancels, and exactly those past their
    expiry. Everything else stays, told id by id. */
module Removals {
  import opened Domain
  import opened BookSpec
  import opened BookLemmas
  import opened MatchSpec
  import opened StopSpec
  import opened StopFiling
  import opened EngineSpec
  import opened EngineInvariants
  import opened EngineCommands
  import opened Admission
  import opened Processors

  /** The books as their users see them: what rests and what waits under each id. */
  ghost predicate OnlyGone(e: Engine, r: Engine, gone: set<OrderId>) {
    && (forall id :: Find(r.book, id) == if id in gone then Missing else Find(e.book, id))
    && (forall id :: FindStop(r.stops, id) == if id in gone then NoStop else FindStop(e.stops, id))
  }

  lemma NobodyGone(e: Engine, r: Engine)
    requires r.book == e.book && r.stops == e.stops
    ensures OnlyGone(e, r, {})
  {
  }

  /** An id is used once: what rests does not wait. */
  lemma OneUse(e: Engine, id: OrderId)
    requires Good(e, [])
    ensures Find(e.book, id).Found? ==> FindStop(e.stops, id) == NoStop
    ensures SumStops(e.stops.sells, IsStop(id)) <= 1 && SumStops(e.stops.buys, IsStop(id)) <= 1
    ensures FindStopIn(e.stops.sells, id).FoundStop? ==> FindStopIn(e.stops.buys, id) == NoStop
  {
    hide WFBook, WFStops;
    assert IdCount(e, [], id) <= 1;
    SideCount(e.book.bids, id);
    SideCount(e.book.asks, id);
    FindInNone(e.book.bids, id);
    FindInNone(e.book.asks, id);
    StopCount(e.stops.sells, id);
    StopCount(e.stops.buys, id);
  }

  /** The order `id` taken off the book. */
  lemma OrderGone(e: Engine, id: OrderId)
    requires Good(e, []) && Find(e.book, id).Found?
    ensures OnlyGone(e, e.(book := RemoveId(e.book, id)), {id}) && Find(e.book, id).order.id == id
  {
    hide Good, RemoveId, Find, FindStop;
    OneUse(e, id);
    GoneOnce(e, id);
    forall i | i != id
      ensures Find(RemoveId(e.book, id), i) == Find(e.book, i)
    {
      FindOther(e.book, id, i);
    }
    FoundUnder(e, id);
  }

  lemma FoundUnder(e: Engine, id: OrderId)
    requires Good(e, []) && Find(e.book, id).Found?
    ensures Find(e.book, id).order.id == id
  {
    hide WFBook, WFStops, RemoveId;
    FoundFacts(e.book, e.clock, id);
  }

  /** The stop `id` taken off the stop book. */
  lemma StopGone(e: Engine, id: OrderId)
    requires Good(e, []) && FindStop(e.stops, id).FoundStop?
    ensures OnlyGone(e, e.(stops := RemoveStop(e.stops, id)), {id}) && FindStop(e.stops, id).stop.id == id
    ensures Find(e.book, id) == Missing
  {
    hide Good, Find;
    OneUse(e, id);
    var s := FindStop(e.stops, id).stop;
    StopOnItsSide(e, id);
    forall i
      ensures FindStop(RemoveStop(e.stops, id), i) == if i == id then NoStop else FindStop(e.stops, i)
    {
      FindRemoved(e.stops.sells, id, i);
      FindRemoved(e.stops.buys, id, i);
    }
  }

  lemma StopOnItsSide(e: Engine, id: OrderId)
    requires Good(e, []) && FindStop(e.stops, id).FoundStop?
    ensures var s := FindStop(e.stops, id).stop; s.id == id && FindStopIn(e.stops.Of(s.side), id) == FoundStop(s)
  {
    hide WFBook, SumLevels;
    FoundStopFacts(e.stops, e.clock, id, OneStop);
    StopCount(e.stops.sells, id);
    StopCount(e.stops.buys, id);
    var side := if FindStopIn(e.stops.sells, id).FoundStop? then Ask else Bid;
    var s := FindStopIn(e.stops.Of(side), id).stop;
    var i :| 0 <= i < |e.stops.Of(side)| && e.stops.Of(side)[i] == s;
    assert WFStop(e.stops.Of(side)[i], side);
  }

  // ----- Cancel -----

  /** A cancel takes off the order or stop of that id if it is its user's, and nothing else, and says how much is
      canceled: an iceberg's reserve with its slice. For anybody else, or an unknown id, it is refused and changes nothing. */
  lemma CancelExactly(e: Engine, id: OrderId, user: UserId)
    requires Good(e, [])
    ensures var r := ProcessCancel(e, id, user);
            match (Find(e.book, id), FindStop(e.stops, id))
            case (Found(o), _) =>
              if o.user != user then Refused(e, r, id, user, OrderNotFound)
              else && OnlyGone(e, r, {id}) && |r.log| == |e.log| + 2 && r.log[..|e.log|] == e.log
                   && r.log[|e.log|] == OrderCanceled(id, user, o.side, o.price, if o.iceberg then o.remain + o.hidden else o.remain, o.filled, UserRequested)
                   && r.log[|e.log| + 1] == DepthUpdate(o.side, o.price, InfoAt(r.book.Of(o.side), o.price))
            case (Missing, FoundStop(s)) =>
              if s.user != user then Refused(e, r, id, user, OrderNotFound)
              else OnlyGone(e, r, {id}) && r.log == e.log + [OrderCanceled(id, user, s.side, s.trigger, s.qty, 0, UserRequested)]
            case (Missing, NoStop) => Refused(e, r, id, user, OrderNotFound)
  {
    hide Good, RemoveId, RemoveStop, Find, FindStop, InfoAt, OnlyGone;
    if Find(e.book, id).Found? {
      OrderGone(e, id);
      SameGone(e.(book := RemoveId(e.book, id)), ProcessCancel(e, id, user), e, {id});
    } else if FindStop(e.stops, id).FoundStop? {
      StopGone(e, id);
      SameGone(e.(stops := RemoveStop(e.stops, id)), ProcessCancel(e, id, user), e, {id});
    }
  }

  lemma SameGone(m: Engine, r: Engine, e: Engine, gone: set<OrderId>)
    requires OnlyGone(e, m, gone)
    ensures r.book == m.book && r.stops == m.stops ==> OnlyGone(e, r, gone)
  {
  }

  // ----- Expiry -----

  /** Past its time: an expiry was set, and it has come. */
  predicate Over(expireAt: int, now: int) {
    expireAt > 0 && now >= expireAt
  }

  /** After the expiry check exactly the orders and the stops past their time are gone. */
  lemma ExpiryExactly(e: Engine, orders: seq<OrderId>, os: seq<Order>, stops: seq<OrderId>, now: int)
    requires Good(e, []) && Expires(e.book, orders, os, now) && StopsExpire(e.stops, stops, now)
    ensures var r := ExpireStops(ExpireOrders(e, orders), stops);
            && (forall id :: Find(r.book, id) == match Find(e.book, id)
                                                 case Missing => Missing
                                                 case Found(o) => if Over(o.expireAt, now) then Missing else Found(o))
            && (forall id :: FindStop(r.stops, id) == match FindStop(e.stops, id)
                                                      case NoStop => NoStop
                                                      case FoundStop(s) => if Over(s.expireAt, now) then NoStop else FoundStop(s))
  {
    hide Good, Find, FindStop, ExpireOrders, ExpireStops;
    var mid := ExpireOrders(e, orders);
    OrdersOnly(e, orders);
    StopsOnly(mid, stops);
    forall id
      ensures Find(mid.book, id) == match Find(e.book, id)
                                    case Missing => Missing
                                    case Found(o) => if Over(o.expireAt, now) then Missing else Found(o)
    {
      ExpiredFind(e, orders, id);
      ListedExactly(e.book, orders, os, now, id);
    }
    ExpiredGood(e, orders);
    forall id
      ensures FindStop(ExpireStops(mid, stops).stops, id) == match FindStop(e.stops, id)
                                                             case NoStop => NoStop
                                                             case FoundStop(s) => if Over(s.expireAt, now) then NoStop else FoundStop(s)
    {
      StopsFind(mid, stops, id);
      StopListedExactly(e.stops, stops, now, id);
    }
  }

  lemma ExpiredGood(e: Engine, orders: seq<OrderId>)
    requires Good(e, [])
    ensures Good(ExpireOrders(e, orders), [])
  {
    hide Good, ExpireOrders, Find;
    ExpiredFind(e, orders, "");
  }

  lemma {:induction false} OrdersOnly(e: Engine, ids: seq<OrderId>)
    ensures ExpireOrders(e, ids).stops == e.stops && ExpireOrders(e, ids).clock == e.clock
  {
    hide Find, RemoveId;
    if ids != [] {
      OrdersOnly(e, ids[..|ids| - 1]);
    }
  }

  lemma {:induction false} StopsOnly(e: Engine, ids: seq<OrderId>)
    ensures ExpireStops(e, ids).book == e.book
  {
    hide FindStop, RemoveStop;
    if ids != [] {
      StopsOnly(e, ids[..|ids| - 1]);
    }
  }

  lemma ListedExactly(b: Book, ids: seq<OrderId>, os: seq<Order>, now: int, id: OrderId)
    requires Expires(b, ids, os, now)
    ensures id in ids <==> Find(b, id).Found? && Over(Find(b, id).order.expireAt, now)
  {
    hide Find;
    if id in ids {
      var j :| 0 <= j < |ids| && ids[j] == id;
      assert Find(b, ids[j]) == Found(os[j]) && Expired(os[j], now);
    }
  }

  lemma StopListedExactly(b: Stops, ids: seq<OrderId>, now: int, id: OrderId)
    requires StopsExpire(b, ids, now)
    ensures id in ids <==> FindStop(b, id).FoundStop? && Over(FindStop(b, id).stop.expireAt, now)
  {
    hide FindStop;
    if id in ids {
      var j :| 0 <= j < |ids| && ids[j] == id;
      assert FindStop(b, ids[j]).FoundStop? && StopExpired(FindStop(b, ids[j]).stop, now);
    }
  }

  /** Expired stops are gone; what waits under another id stays. */
  lemma {:induction false} StopsFind(e: Engine, ids: seq<OrderId>, id: OrderId)
    requires Good(e, [])
    ensures Good(ExpireStops(e, ids), []) && FindStop(ExpireStops(e, ids).stops, id) == if id in ids then NoStop else FindStop(e.stops, id)
  {
    hide Good, FindStop, RemoveStop, OnlyGone;
    if ids != [] {
      var front, last := ids[..|ids| - 1], ids[|ids| - 1];
      assert ids == front + [last];
      StopsFind(e, front, id);
      StopsFind(e, front, last);
      var mid := ExpireStops(e, front);
      StillGood(mid, last);
      if FindStop(mid.stops, last).FoundStop? {
        StopGone(mid, last);
        GoneFacts(mid, mid.(stops := RemoveStop(mid.stops, last)), {last}, id);
      }
    }
  }

  lemma StillGood(e: Engine, id: OrderId)
    requires Good(e, [])
    ensures Good(ExpireStop(e, id), [])
  {
    hide Good, FindStop, RemoveStop, Tracked, Ledgered, PositionsAgree, Uncrossed;
    ExpireStopMaintains(e, id);
  }

  lemma GoneFacts(e: Engine, r: Engine, gone: set<OrderId>, id: OrderId)
    requires OnlyGone(e, r, gone)
    ensures FindStop(r.stops, id) == if id in gone then NoStop else FindStop(e.stops, id)
  {
  }

  /** Each is announced once as expired, with its working slice - a stop with its quantity at its trigger. */
  lemma ExpiryAnnounced(e: Engine, id: OrderId)
    requires Good(e, [])
    ensures match Find(e.book, id)
            case Missing => ExpireOrder(e, id) == e
            case Found(o) => o.id == id && ExpireOrder(e, id).log == e.log + [OrderExpired(id, o.user, o.side, o.price, o.remain)]
    ensures match FindStop(e.stops, id)
            case NoStop => ExpireStop(e, id) == e
            case FoundStop(s) => s.id == id && ExpireStop(e, id).log == e.log + [OrderExpired(id, s.user, s.side, s.trigger, s.qty)]
  {
    hide Good, Find, FindStop, RemoveId, RemoveStop;
    if Find(e.book, id).Found? {
      FoundUnder(e, id);
    }
    if FindStop(e.stops, id).FoundStop? {
      StopOnItsSide(e, id);
    }
  }
}
