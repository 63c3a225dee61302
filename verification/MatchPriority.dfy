/** The reference matching is measured against: one unordered pile of resting orders, from which the
    order with the best price - and, at equal prices, the oldest sequence number - is always next.
    It knows nothing of levels, queues or positions. */
module MatchPriority {
  import opened Domain
  import opened BookSpec
  import opened MatchSpec
  import opened MatchLemmas
  import opened MatchTheorems

  datatype Flat = Flat(
    taker: Order, pile: set<Order>, clock: nat, fills: seq<Fill>, cancels: seq<STPCanceled>, stopped: bool)

  // The reference shares no rule with the matching it is compared to: prices, slices, reserves and self-trade
  // modes are all spelled out again.

  /** `o` goes before `p`: better price, then smaller sequence number. */
  predicate Before(side: Side, o: Order, p: Order) {
    (if side == Bid then o.price > p.price else o.price < p.price) || (o.price == p.price && o.seqNum < p.seqNum)
  }

  /** `o` is next: it goes before every other order of the pile. */
  ghost predicate First(side: Side, pile: set<Order>, o: Order) {
    o in pile && forall p :: p in pile && p != o ==> Before(side, o, p)
  }

  /** A market order takes any price, a bid its limit or less, an ask its limit or more. */
  predicate Accepts(taker: Order, price: int) {
    match taker.typ
    case Market => true
    case Limit => if taker.side == Bid then price <= taker.price else taker.price <= price
  }

  /** There is work left: the next order is at a price the taker accepts and has quantity to trade. */
  ghost predicate Pending(f: Flat, o: Order) {
    !f.stopped && f.taker.remain > 0 && First(f.taker.side.Opposite(), f.pile, o) && Accepts(f.taker, o.price) && o.remain > 0
  }

  /** `o` has given up `q` of its slice, and shows that much less. */
  function Taken(o: Order, q: int): Order {
    o.(remain := o.remain - q, filled := o.filled + q, display := if q <= o.display then o.display - q else 0)
  }

  /** An iceberg whose slice is gone shows its next lot, or the last of its reserve. */
  function NextLot(o: Order, number: nat): Order {
    if o.hidden > o.origDisplay then o.(remain := o.origDisplay, display := o.origDisplay, hidden := o.hidden - o.origDisplay, seqNum := number)
    else o.(remain := o.hidden, display := o.hidden, hidden := 0, seqNum := number)
  }

  /** The taker and `o` trade what both have; an exhausted iceberg comes back with a new number. */
  function FlatTrade(f: Flat, o: Order): Flat {
    var q := if o.remain < f.taker.remain then o.remain else f.taker.remain;
    var taker := f.taker.(remain := f.taker.remain - q, filled := f.taker.filled + q);
    var refill := q == o.remain && o.hidden > 0;
    var back := if q != o.remain then {Taken(o, q)} else if refill then {NextLot(Taken(o, q), f.clock + 1)} else {};
    f.(taker := taker, pile := f.pile - {o} + back, clock := if refill then f.clock + 1 else f.clock,
       fills := f.fills + [Fill(o.id, taker.id, o.user, taker.user, o.side, o.price, q, o.remain - q, taker.remain,
                                o.seqNum, taker.seqNum, NoLevel)])
  }

  /** Self-trade prevention between the taker and `o`, under each of the five modes. */
  function FlatPrevent(f: Flat, o: Order, mode: STPMode): Flat {
    var gone := f.(pile := f.pile - {o}, cancels := f.cancels + [STPCanceled(o.id, o.user, o.side, o.price, o.remain, o.filled)]);
    match mode
    case STPDisabled => f
    case STPCancelMaker => gone
    case STPCancelTaker => f.(taker := f.taker.(remain := 0), stopped := true)
    case STPCancelBoth => gone.(taker := f.taker.(remain := 0), stopped := true)
    case STPDecrementCancel =>
      if o.remain > f.taker.remain then
        f.(pile := f.pile - {o} + {Taken(o, f.taker.remain)}, taker := f.taker.(remain := 0), stopped := true)
      else gone.(taker := f.taker.(remain := f.taker.remain - o.remain, filled := f.taker.filled + o.remain))
  }

  /** The taker's mode decides; if it has none, the resting order's; if neither has one, the market's. */
  function Ruling(taker: STPMode, maker: STPMode, market: STPMode): STPMode {
    match (taker, maker)
    case (STPDisabled, STPDisabled) => market
    case (STPDisabled, _) => maker
    case (_, _) => taker
  }

  function FlatStep(f: Flat, o: Order, default: STPMode): Flat {
    var mode := Ruling(f.taker.stp, o.stp, default);
    if f.taker.user == o.user && mode != STPDisabled then FlatPrevent(f, o, mode) else FlatTrade(f, o)
  }

  lemma FlatDescends(f: Flat, o: Order, default: STPMode)
    requires Pending(f, o)
    ensures var n := FlatStep(f, o, default);
            0 <= n.taker.remain < f.taker.remain || (n.taker.remain == f.taker.remain && |n.pile| < |f.pile|)
  {
    assert |f.pile - {o}| == |f.pile| - 1;
  }

  /** Keep serving the next order until the taker is done or nothing crosses. */
  ghost function FlatRun(f: Flat, default: STPMode): Flat
    decreases if f.taker.remain > 0 then f.taker.remain else 0, |f.pile|
  {
    if exists o :: Pending(f, o) then
      var o :| Pending(f, o);
      FlatDescends(f, o, default);
      FlatRun(FlatStep(f, o, default), default)
    else f
  }

  // ----- The book refines the pile -----

  ghost function Orders(os: seq<Order>): set<Order> {
    set o | o in os
  }

  /** Every order of a side, with no trace of where it rests. */
  ghost function Pile(ls: seq<Level>): set<Order> {
    if ls == [] then {} else Orders(ls[0].orders) + Pile(ls[1..])
  }

  /** A fill without the depth it announces. */
  function Plain(f: Fill): Fill {
    f.(level := NoLevel)
  }

  function AllPlain(fills: seq<Fill>): seq<Fill> {
    seq(|fills|, i requires 0 <= i < |fills| => Plain(fills[i]))
  }

  ghost function Flatten(m: Match): Flat {
    Flat(m.taker, Pile(m.opp), m.clock, AllPlain(m.fills), m.cancels, m.stopped)
  }

  /** Everything below the best level is worse than its price. */
  lemma {:induction false} PileBehind(ls: seq<Level>, side: Side, clock: nat, price: int)
    requires WFSide(ls, side, clock) && forall i :: 0 <= i < |ls| ==> Better(side, price, ls[i].price)
    ensures forall o :: o in Pile(ls) ==> Better(side, price, o.price)
  {
    if ls != [] {
      assert WFSide(ls[1..], side, clock);
      PileBehind(ls[1..], side, clock, price);
    }
  }

  /** The head of the best level is what the pile says is next. */
  lemma HeadFirst(ls: seq<Level>, side: Side, clock: nat)
    requires WFSide(ls, side, clock) && ls != []
    ensures First(side, Pile(ls), ls[0].orders[0]) && ls[0].orders[0].price == ls[0].price
    ensures ls[0].orders[0] !in Pile(ls[1..]) && ls[0].orders[0] !in Orders(ls[0].orders[1..])
  {
    assert WFSide(ls[1..], side, clock);
    PileBehind(ls[1..], side, clock, ls[0].price);
  }

  lemma FirstUnique(side: Side, pile: set<Order>, o: Order, p: Order)
    requires First(side, pile, o) && First(side, pile, p)
    ensures o == p
  {
  }

  lemma OrdersCons(o: Order, os: seq<Order>)
    ensures Orders([o] + os) == {o} + Orders(os) && Orders(os + [o]) == {o} + Orders(os) && Orders([]) == {}
  {
  }

  /** The pile after the best queue became `os`. */
  lemma HeadPile(ls: seq<Level>, os: seq<Order>)
    requires ls != []
    ensures Pile(WithHead(ls, os)) == Orders(os) + Pile(ls[1..])
  {
    if os != [] {
      assert WithHead(ls, os)[1..] == ls[1..];
    }
  }

  /** The pile without its next order is the rest of the head's queue and the levels behind. */
  lemma HeadGone(ls: seq<Level>, side: Side, clock: nat)
    requires WFSide(ls, side, clock) && ls != []
    ensures Pile(ls) - {ls[0].orders[0]} == Orders(ls[0].orders[1..]) + Pile(ls[1..])
  {
    HeadFirst(ls, side, clock);
    assert ls[0].orders == [ls[0].orders[0]] + ls[0].orders[1..];
    OrdersCons(ls[0].orders[0], ls[0].orders[1..]);
  }

  lemma PlainAdded(fills: seq<Fill>, f: Fill)
    ensures AllPlain(fills + [f]) == AllPlain(fills) + [Plain(f)]
  {
  }

  /** The traded queue as a set: the head gone, its successor in. */
  lemma TradedOrders(os: seq<Order>, q: int, clock: nat)
    requires os != []
    ensures var maker := Decrement(os[0], q);
            Orders(TradedQueue(os, q, clock)) == Orders(os[1..])
              + if maker.remain != 0 then {maker} else if maker.hidden > 0 then {Replenish(maker, clock + 1)} else {}
  {
    OrdersCons(Decrement(os[0], q), os[1..]);
    OrdersCons(Replenish(Decrement(os[0], q), clock + 1), os[1..]);
  }

  /** The rules of matching are those of the reference. */
  lemma SameRules(taker: Order, o: Order, number: nat, default: STPMode, price: int)
    ensures Crosses(taker, price) <==> Accepts(taker, price)
    ensures EffectiveSTP(taker, o, default) == Ruling(taker.stp, o.stp, default)
    ensures forall q :: Decrement(o, q) == Taken(o, q)
    ensures forall q :: Decrement(o, q).remain == o.remain - q && Decrement(o, q).hidden == o.hidden && Decrement(o, q).id == o.id
                     && Decrement(o, q).user == o.user && Decrement(o, q).side == o.side && Decrement(o, q).seqNum == o.seqNum
    ensures forall q :: Replenish(Decrement(o, q), number) == NextLot(Taken(o, q), number)
  {
  }

  /** The pile after a trade. */
  lemma TradedPile(m: Match)
    requires Live(m) && WFSide(m.opp, m.taker.side.Opposite(), m.clock)
    ensures var o, f := m.opp[0].orders[0], Flatten(m); Pile(Trade(m).opp) == FlatTrade(f, o).pile && o.price == m.opp[0].price
  {
    assert m.opp[0].orders[0].price == m.opp[0].price;
    hide Pile, Orders, WFSide, WithHead, TradedQueue, Info, AllPlain, Crosses, Decrement, Taken, Replenish, NextLot;
    var os := m.opp[0].orders;
    var q := Min(os[0].remain, m.taker.remain);
    HeadGone(m.opp, m.taker.side.Opposite(), m.clock);
    SameRules(m.taker, os[0], m.clock + 1, STPDisabled, 0);
    TradedOrders(os, q, m.clock);
    HeadPile(m.opp, TradedQueue(os, q, m.clock));
  }

  lemma TradeFlat(m: Match)
    requires Live(m) && WFSide(m.opp, m.taker.side.Opposite(), m.clock)
    ensures Flatten(Trade(m)) == FlatTrade(Flatten(m), m.opp[0].orders[0])
  {
    hide Pile, WFSide, WithHead, TradedQueue, Info, AllPlain, Crosses, Decrement, Taken, Replenish, NextLot;
    TradedPile(m);
    SameRules(m.taker, m.opp[0].orders[0], m.clock + 1, STPDisabled, 0);
    PlainAdded(m.fills, Trade(m).fills[|m.fills|]);
  }

  lemma PreventFlat(m: Match, mode: STPMode)
    requires Live(m) && WFSide(m.opp, m.taker.side.Opposite(), m.clock)
    ensures Flatten(Prevent(m, mode)) == FlatPrevent(Flatten(m), m.opp[0].orders[0], mode)
  {
    assert m.opp[0].orders[0].price == m.opp[0].price;
    hide Pile, WFSide, WithHead, Decrement, Taken;
    SameRules(m.taker, m.opp[0].orders[0], m.clock, mode, 0);
    HeadReplaced(m.opp, m.taker.side.Opposite(), m.clock, Decrement(m.opp[0].orders[0], m.taker.remain));
  }

  /** The pile without its first order, and with another in its place. */
  lemma HeadReplaced(ls: seq<Level>, side: Side, clock: nat, d: Order)
    requires WFSide(ls, side, clock) && ls != [] && ls[0].orders != []
    ensures Pile(WithHead(ls, ls[0].orders[1..])) == Pile(ls) - {ls[0].orders[0]}
    ensures Pile(WithHead(ls, [d] + ls[0].orders[1..])) == Pile(ls) - {ls[0].orders[0]} + {d}
  {
    hide Pile, Orders, WFSide, WithHead;
    HeadGone(ls, side, clock);
    HeadPile(ls, ls[0].orders[1..]);
    HeadPile(ls, [d] + ls[0].orders[1..]);
    OrdersCons(d, ls[0].orders[1..]);
  }

  /** One step on the levels is one step on the pile. */
  lemma StepFlat(m: Match, default: STPMode)
    requires Live(m) && WFSide(m.opp, m.taker.side.Opposite(), m.clock)
    ensures Pending(Flatten(m), m.opp[0].orders[0])
    ensures Flatten(Step(m, default)) == FlatStep(Flatten(m), m.opp[0].orders[0], default)
  {
    hide Pile, Orders, WFSide, Trade, Prevent, FlatTrade, FlatPrevent, First, Crosses, Accepts;
    SameRules(m.taker, m.opp[0].orders[0], m.clock, default, m.opp[0].price);
    HeadFirst(m.opp, m.taker.side.Opposite(), m.clock);
    TradeFlat(m);
    PreventFlat(m, EffectiveSTP(m.taker, m.opp[0].orders[0], default));
  }

  /** Matching level by level is serving the pile in price-time order: same trades, same self-trade
      cancels, same taker, same orders left - in every mode, for limit and market takers alike. */
  lemma {:induction false} RunRefinesFlat(m: Match, default: STPMode)
    requires WFSide(m.opp, m.taker.side.Opposite(), m.clock)
    ensures Flatten(Run(m, default)) == FlatRun(Flatten(m), default)
    decreases if m.taker.remain > 0 then m.taker.remain else 0, SumLevels(m.opp, One)
  {
    hide WFSide, Step, Pile, First;
    var f := Flatten(m);
    var side := m.taker.side.Opposite();
    if Live(m) {
      Descend(m, default);
      StepFlat(m, default);
      StepWF(m, default, side);
      StepTaker(m, default);
      RunRefinesFlat(Step(m, default), default);
      var o := m.opp[0].orders[0];
      forall p | Pending(f, p)
        ensures p == o
      {
        FirstUnique(side, f.pile, o, p);
      }
    } else {
      NothingPending(m);
    }
  }

  /** When the loops stop, the pile has nothing left for the taker either. */
  lemma NothingPending(m: Match)
    requires WFSide(m.opp, m.taker.side.Opposite(), m.clock) && !Live(m)
    ensures forall o :: !Pending(Flatten(m), o)
  {
    forall o
      ensures !Pending(Flatten(m), o)
    {
      if Pending(Flatten(m), o) {
        if m.opp == [] {
          assert false;
        } else {
          HeadFirst(m.opp, m.taker.side.Opposite(), m.clock);
          FirstUnique(m.taker.side.Opposite(), Pile(m.opp), o, m.opp[0].orders[0]);
        }
      }
    }
  }

  // ----- Fill-or-kill counts what self-trade prevention will not let it trade -----

  const OWN_ASK := Order("maker", "alice", Ask, Limit, GTC, STPDisabled, false, 100, 5, 5, 0, 5, 0, 5, 1, 0)
  const OWN_FOK := Order("taker", "alice", Bid, Limit, FOK, STPCancelMaker, false, 100, 5, 5, 0, 5, 0, 5, 2, 0)

  /** The dry run counts the taker's own makers, which self-trade prevention then cancels - and a
      fill-or-kill order is left resting, unfilled. */
  lemma OwnMakersDefeatFillOrKill()
    ensures var out := Place(Book([], [Level(100, [OWN_ASK])]), OWN_FOK, 2, STPDisabled, 10);
            out.disposition == Rested && out.fills == [] && Find(out.book, "taker") == Found(OWN_FOK)
  {
    var ls := [Level(100, [OWN_ASK])];
    var m := Start(OWN_FOK, Book([], ls), 2);
    assert ls[1..] == [] && ls[0].orders[1..] == [];
    assert SumOf(ls[0].orders, RemainOf) == 5 + SumOf([], RemainOf);
    assert Available(OWN_FOK, ls) == 5 + Available(OWN_FOK, []);
    var n := Step(m, STPDisabled);
    assert n.opp == [] && n.taker == OWN_FOK;
    assert Run(m, STPDisabled) == Run(n, STPDisabled) == n;
    assert Place(Book([], ls), OWN_FOK, 2, STPDisabled, 10).book == Book([Level(100, [OWN_FOK])], []);
  }
}
