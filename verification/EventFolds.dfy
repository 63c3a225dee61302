/** What a subscriber can compute from the event stream alone. */
module EventFolds {
  import opened Domain
  import opened BookSpec
  import opened MatchSpec
  import opened MatchQuantities
  import opened Positions
  import opened EngineSpec

  // ----- Counting and summing events -----

  function SumEvents(es: seq<Event>, f: Event -> int): int {
    if es == [] then 0 else f(es[0]) + SumEvents(es[1..], f)
  }

  lemma {:induction false} SumEventsConcat(a: seq<Event>, b: seq<Event>, f: Event -> int)
    ensures SumEvents(a + b, f) == SumEvents(a, f) + SumEvents(b, f)
  {
    if a == [] {
      assert a + b == b;
    } else {
      assert (a + b)[1..] == a[1..] + b;
      SumEventsConcat(a[1..], b, f);
    }
  }

  lemma SumFew(a: Event, b: Event, f: Event -> int)
    ensures SumEvents([], f) == 0 && SumEvents([a], f) == f(a) && SumEvents([a, b], f) == f(a) + f(b)
  {
    assert [a][1..] == [] && [b][1..] == [] && [a, b][1..] == [b];
    assert SumEvents([b], f) == f(b) + SumEvents([], f);
  }

  lemma SumFour(f: Fill, g: Event -> int)
    ensures SumEvents(FillEvents(f), g)
         == g(FillEvents(f)[0]) + g(FillEvents(f)[1]) + g(FillEvents(f)[2]) + g(FillEvents(f)[3])
  {
    var es := FillEvents(f);
    assert es == [es[0], es[1]] + [es[2], es[3]];
    SumEventsConcat([es[0], es[1]], [es[2], es[3]], g);
    SumFew(es[0], es[1], g);
    SumFew(es[2], es[3], g);
  }

  /** What one event says about a user's net position: bought minus sold. */
  function Bought(user: UserId): Event -> int {
    (ev: Event) => if ev.TradeFill? && ev.user == user then (if ev.side == Bid then ev.qty else -ev.qty) else 0
  }

  /** ... about everybody's. */
  function BoughtByAll(ev: Event): int {
    if ev.TradeFill? then (if ev.side == Bid then ev.qty else -ev.qty) else 0
  }

  function IsTrigger(id: OrderId): Event -> int {
    (ev: Event) => if ev.StopTriggered? && ev.id == id then 1 else 0
  }

  function IsHalt(ev: Event): int {
    if ev.MarketHalted? then 1 else 0
  }

  // ----- The depth feed -----

  /** What is known of one price after an event: an update replaces it, or deletes it. */
  function DepthStep(known: LevelInfo, ev: Event, side: Side, price: int): LevelInfo {
    if ev.DepthUpdate? && ev.side == side && ev.price == price then ev.info else known
  }

  function DepthAfter(known: LevelInfo, es: seq<Event>, side: Side, price: int): LevelInfo
    decreases es
  {
    if es == [] then known else DepthAfter(DepthStep(known, es[0], side, price), es[1..], side, price)
  }

  lemma {:induction false} DepthConcat(known: LevelInfo, a: seq<Event>, b: seq<Event>, side: Side, price: int)
    ensures DepthAfter(known, a + b, side, price) == DepthAfter(DepthAfter(known, a, side, price), b, side, price)
    decreases a
  {
    if a == [] {
      assert a + b == b;
    } else {
      assert (a + b)[1..] == a[1..] + b;
      DepthConcat(DepthStep(known, a[0], side, price), a[1..], b, side, price);
    }
  }

  lemma DepthFew(known: LevelInfo, a: Event, b: Event, side: Side, price: int)
    ensures DepthAfter(known, [], side, price) == known
    ensures DepthAfter(known, [a], side, price) == DepthStep(known, a, side, price)
    ensures DepthAfter(known, [a, b], side, price) == DepthStep(DepthStep(known, a, side, price), b, side, price)
  {
    assert [a][1..] == [] && [b][1..] == [] && [a, b][1..] == [b];
    var mid := DepthStep(known, a, side, price);
    assert DepthAfter(mid, [b], side, price) == DepthAfter(DepthStep(mid, b, side, price), [], side, price);
  }

  // ----- An order's open quantity -----

  /** Acceptance opens an order; fills, cancels and expiry take from it; a fill-or-kill refusal and an
      exhausted pool end it. */
  function OpenStep(open: int, ev: Event, id: OrderId): int {
    match ev
    case OrderAccepted(i, _, _, _, _, _, origQty, _, _, _) => if i == id then origQty else open
    case TradeFill(i, _, _, _, _, qty, _) => if i == id then open - qty else open
    case OrderCanceled(i, _, _, _, qty, _, _) => if i == id then open - qty else open
    case OrderExpired(i, _, _, _, qty) => if i == id then open - qty else open
    case OrderRejected(i, _, reason) => if i == id && (reason == FOKFailed || reason == PoolExhausted) then 0 else open
    case _ => open
  }

  function OpenAfter(open: int, es: seq<Event>, id: OrderId): int
    decreases es
  {
    if es == [] then open else OpenAfter(OpenStep(open, es[0], id), es[1..], id)
  }

  lemma {:induction false} OpenConcat(open: int, a: seq<Event>, b: seq<Event>, id: OrderId)
    ensures OpenAfter(open, a + b, id) == OpenAfter(OpenAfter(open, a, id), b, id)
    decreases a
  {
    if a == [] {
      assert a + b == b;
    } else {
      assert (a + b)[1..] == a[1..] + b;
      OpenConcat(OpenStep(open, a[0], id), a[1..], b, id);
    }
  }

  lemma OpenFew(open: int, a: Event, b: Event, id: OrderId)
    ensures OpenAfter(open, [], id) == open
    ensures OpenAfter(open, [a], id) == OpenStep(open, a, id)
    ensures OpenAfter(open, [a, b], id) == OpenStep(OpenStep(open, a, id), b, id)
  {
    assert [a][1..] == [] && [b][1..] == [] && [a, b][1..] == [b];
    var mid := OpenStep(open, a, id);
    assert OpenAfter(mid, [b], id) == OpenAfter(OpenStep(mid, b, id), [], id);
  }

  // ----- The events of a list of fills -----

  /** Fills alone neither trigger stops nor halt, and everyone's net is zero. */
  lemma {:induction false} FillsNeutral(fills: seq<Fill>, id: OrderId)
    ensures SumEvents(FillsLog(fills), IsTrigger(id)) == 0 && SumEvents(FillsLog(fills), IsHalt) == 0
    ensures SumEvents(FillsLog(fills), BoughtByAll) == 0
  {
    if fills != [] {
      var n := |fills| - 1;
      FillsNeutral(fills[..n], id);
      SumEventsConcat(FillsLog(fills[..n]), FillEvents(fills[n]), IsTrigger(id));
      SumEventsConcat(FillsLog(fills[..n]), FillEvents(fills[n]), IsHalt);
      SumEventsConcat(FillsLog(fills[..n]), FillEvents(fills[n]), BoughtByAll);
      SumFour(fills[n], IsTrigger(id));
      SumFour(fills[n], IsHalt);
      SumFour(fills[n], BoughtByAll);
    }
  }

  lemma FillMovesPositions(ps: map<UserId, int>, f: Fill, user: UserId)
    ensures Position(ApplyFill(ps, f), user) == Position(ps, user) + SumEvents(FillEvents(f), Bought(user))
  {
    SumFour(f, Bought(user));
  }

  /** The ledger moves by exactly what the fill events say was bought and sold. */
  lemma {:induction false} FillsMovePositions(ps: map<UserId, int>, fills: seq<Fill>, user: UserId)
    ensures Position(ApplyFills(ps, fills), user) == Position(ps, user) + SumEvents(FillsLog(fills), Bought(user))
  {
    hide Position, ApplyFill, FillEvents;
    if fills != [] {
      var n := |fills| - 1;
      FillsMovePositions(ps, fills[..n], user);
      SumEventsConcat(FillsLog(fills[..n]), FillEvents(fills[n]), Bought(user));
      FillMovesPositions(ApplyFills(ps, fills[..n]), fills[n], user);
    }
  }

  lemma {:induction false} FillsDepth(known: LevelInfo, fills: seq<Fill>, makers: Side, side: Side, price: int)
    requires MakersOn(fills, makers)
    ensures DepthAfter(known, FillsLog(fills), side, price) == if side == makers then Announced(fills, price, known) else known
  {
    if fills != [] {
      var n := |fills| - 1;
      FillsDepth(known, fills[..n], makers, side, price);
      var es := FillEvents(fills[n]);
      DepthConcat(known, FillsLog(fills[..n]), es, side, price);
      var mid := DepthAfter(known, FillsLog(fills[..n]), side, price);
      assert es == [es[0], es[1]] + [es[2], es[3]];
      DepthConcat(mid, [es[0], es[1]], [es[2], es[3]], side, price);
      DepthFew(mid, es[0], es[1], side, price);
      DepthFew(mid, es[2], es[3], side, price);
    }
  }

  lemma {:induction false} FillsOpen(open: int, fills: seq<Fill>, id: OrderId)
    ensures OpenAfter(open, FillsLog(fills), id) == open - MakerQty(fills, id) - TakerQty(fills, id)
  {
    if fills != [] {
      var n := |fills| - 1;
      FillsOpen(open, fills[..n], id);
      var es := FillEvents(fills[n]);
      OpenConcat(open, FillsLog(fills[..n]), es, id);
      var mid := OpenAfter(open, FillsLog(fills[..n]), id);
      assert es == [es[0], es[1]] + [es[2], es[3]];
      OpenConcat(mid, [es[0], es[1]], [es[2], es[3]], id);
      OpenFew(mid, es[0], es[1], id);
      OpenFew(OpenAfter(mid, [es[0], es[1]], id), es[2], es[3], id);
    }
  }

  /** Self-trade cancels alone leave depth, positions, triggers and halts as they were. */
  lemma {:induction false} STPNeutral(known: LevelInfo, cancels: seq<STPCanceled>, id: OrderId, user: UserId, side: Side, price: int)
    ensures SumEvents(STPLog(cancels), IsTrigger(id)) == 0 && SumEvents(STPLog(cancels), IsHalt) == 0
    ensures SumEvents(STPLog(cancels), BoughtByAll) == 0 && SumEvents(STPLog(cancels), Bought(user)) == 0
    ensures DepthAfter(known, STPLog(cancels), side, price) == known
  {
    if cancels != [] {
      var n := |cancels| - 1;
      var c := cancels[n];
      var ev := OrderCanceled(c.id, c.user, c.side, c.price, c.remain, c.filled, SelfTrade);
      STPNeutral(known, cancels[..n], id, user, side, price);
      SumEventsConcat(STPLog(cancels[..n]), [ev], IsTrigger(id));
      SumEventsConcat(STPLog(cancels[..n]), [ev], IsHalt);
      SumEventsConcat(STPLog(cancels[..n]), [ev], BoughtByAll);
      SumEventsConcat(STPLog(cancels[..n]), [ev], Bought(user));
      DepthConcat(known, STPLog(cancels[..n]), [ev], side, price);
      SumFew(ev, ev, IsTrigger(id));
      SumFew(ev, ev, IsHalt);
      SumFew(ev, ev, BoughtByAll);
      SumFew(ev, ev, Bought(user));
      DepthFew(known, ev, ev, side, price);
    }
  }
}
