/** Where the quantity goes: conservation per order, fill-or-kill, and the depth the fills announce.

    Self-trade prevention moves quantity without a trade, so these hold when it does not apply
    between the taker and any maker. */
module MatchQuantities {
  import opened Domain
  import opened BookSpec
  import opened BookLemmas
  import opened MatchSpec
  import opened MatchLemmas
  import opened MatchTheorems

  /** No maker on the opposite side triggers self-trade prevention against the taker. */
  ghost predicate NoClash(taker: Order, ls: seq<Level>, default: STPMode) {
    forall i, k :: 0 <= i < |ls| && 0 <= k < |ls[i].orders| ==> !STPApplies(taker, ls[i].orders[k], default)
  }

  lemma WithHeadNoClash(taker: Order, ls: seq<Level>, os: seq<Order>, default: STPMode)
    requires ls != [] && NoClash(taker, ls, default) && forall k :: 0 <= k < |os| ==> !STPApplies(taker, os[k], default)
    ensures NoClash(taker, WithHead(ls, os), default)
  {
    var hs := WithHead(ls, os);
    forall i, k | 0 <= i < |hs| && 0 <= k < |hs[i].orders|
      ensures !STPApplies(taker, hs[i].orders[k], default)
    {
      if os == [] {
        assert hs[i] == ls[i + 1];
      } else if i > 0 {
        assert hs[i] == ls[i];
      }
    }
  }

  /** Without clashes every step is a trade, and none appears later. */
  lemma StepNoClash(m: Match, default: STPMode)
    requires Live(m) && NoClash(m.taker, m.opp, default)
    ensures Step(m, default) == Trade(m) && NoClash(Trade(m).taker, Trade(m).opp, default)
  {
    var os := m.opp[0].orders;
    var q := Min(os[0].remain, m.taker.remain);
    assert !STPApplies(m.taker, os[0], default);
    forall k | 0 <= k < |TradedQueue(os, q, m.clock)|
      ensures !STPApplies(m.taker, TradedQueue(os, q, m.clock)[k], default)
    {
      assert forall j :: 0 <= j < |os| ==> !STPApplies(m.taker, m.opp[0].orders[j], default);
    }
    WithHeadNoClash(m.taker, m.opp, TradedQueue(os, q, m.clock), default);
  }

  // ----- Conservation -----

  function TotalQty(fills: seq<Fill>): int {
    if fills == [] then 0 else TotalQty(fills[..|fills| - 1]) + fills[|fills| - 1].qty
  }

  /** What the fills took from the resting order `id`. */
  function MakerQty(fills: seq<Fill>, id: OrderId): int {
    if fills == [] then 0
    else MakerQty(fills[..|fills| - 1], id) + if fills[|fills| - 1].makerId == id then fills[|fills| - 1].qty else 0
  }

  /** What the fills gave the taker `id`. */
  function TakerQty(fills: seq<Fill>, id: OrderId): int {
    if fills == [] then 0
    else TakerQty(fills[..|fills| - 1], id) + if fills[|fills| - 1].takerId == id then fills[|fills| - 1].qty else 0
  }

  /** The open quantity of the order `id`: its working slice and its reserve. */
  function OpenOf(id: OrderId): Order -> int {
    (o: Order) => if o.id == id then o.remain + o.hidden else 0
  }

  lemma TradeSums(m: Match, id: OrderId)
    requires Live(m) && m.opp[0].orders[0].hidden >= 0
    ensures var n := Trade(m);
            && TotalQty(n.fills) + n.taker.remain == TotalQty(m.fills) + m.taker.remain
            && n.taker.filled - TotalQty(n.fills) == m.taker.filled - TotalQty(m.fills)
            && SumLevels(n.opp, OpenOf(id)) + MakerQty(n.fills, id) == SumLevels(m.opp, OpenOf(id)) + MakerQty(m.fills, id)
            && n.fills != [] && n.cancels == m.cancels && n.stopped == m.stopped
  {
    StepSum(m, STPDisabled, OpenOf(id));
    var n := Trade(m);
    assert n.fills[..|n.fills| - 1] == m.fills;
    hide Trade;
  }

  /** Quantity is only exchanged: what the fills total is what the taker lost, and what each resting
      order lost - reserve included - is what the fills took from it. */
  lemma {:induction false} RunConserves(m: Match, default: STPMode, side: Side, id: OrderId)
    requires SoundSide(m.opp, side) && NoClash(m.taker, m.opp, default)
    ensures var n := Run(m, default);
            && TotalQty(n.fills) + n.taker.remain == TotalQty(m.fills) + m.taker.remain
            && n.taker.filled - TotalQty(n.fills) == m.taker.filled - TotalQty(m.fills)
            && SumLevels(n.opp, OpenOf(id)) + MakerQty(n.fills, id) == SumLevels(m.opp, OpenOf(id)) + MakerQty(m.fills, id)
            && (n.fills == [] ==> n == m) && n.cancels == m.cancels && n.stopped == m.stopped
    decreases if m.taker.remain > 0 then m.taker.remain else 0, SumLevels(m.opp, One)
  {
    if Live(m) {
      Descend(m, default);
      StepSound(m, default, side);
      StepNoClash(m, default);
      TradeSums(m, id);
      RunConserves(Step(m, default), default, side, id);
    }
  }

  /** All fills are against makers of one side. */
  ghost predicate MakersOn(fills: seq<Fill>, side: Side) {
    forall i :: 0 <= i < |fills| ==> fills[i].makerSide == side
  }

  /** All fills are for one taker. */
  ghost predicate TakersAre(fills: seq<Fill>, id: OrderId) {
    forall i :: 0 <= i < |fills| ==> fills[i].takerId == id
  }

  /** Every fill is between the taker and a maker of the opposite side. */
  lemma {:induction false} RunParties(m: Match, default: STPMode, side: Side)
    requires SoundSide(m.opp, side) && MakersOn(m.fills, side) && TakersAre(m.fills, m.taker.id)
    ensures MakersOn(Run(m, default).fills, side) && TakersAre(Run(m, default).fills, m.taker.id)
    decreases if m.taker.remain > 0 then m.taker.remain else 0, SumLevels(m.opp, One)
  {
    if Live(m) {
      Descend(m, default);
      StepSound(m, default, side);
      StepTaker(m, default);
      StepLists(m, EffectiveSTP(m.taker, m.opp[0].orders[0], default));
      assert m.opp[0].orders[0].side == side;
      RunParties(Step(m, default), default, side);
    }
  }

  lemma {:induction false} OneTaker(fills: seq<Fill>, taker: OrderId, id: OrderId)
    requires TakersAre(fills, taker)
    ensures TakerQty(fills, id) == if id == taker then TotalQty(fills) else 0
  {
    if fills != [] {
      OneTaker(fills[..|fills| - 1], taker, id);
    }
  }

  // ----- Fill-or-kill -----

  /** A trade of `q` uses up `q` of what is available; a refilled iceberg may put some back. */
  lemma TradeAvailable(m: Match, side: Side)
    requires Live(m) && SoundSide(m.opp, side)
    ensures var n := Trade(m); Available(n.taker, n.opp) >= Available(m.taker, m.opp) - (m.taker.remain - n.taker.remain)
  {
    var l := m.opp[0];
    var q := Min(l.orders[0].remain, m.taker.remain);
    var os := TradedQueue(l.orders, q, m.clock);
    var maker := Decrement(l.orders[0], q);
    SumOfConcat(l.orders[1..], [Replenish(maker, m.clock + 1)], RemainOf);
    assert ([maker] + l.orders[1..])[1..] == l.orders[1..];
    assert SumOf(os, RemainOf) >= SumOf(l.orders, RemainOf) - q;
    AvailableSame(m.taker, Trade(m).taker, m.opp[1..]);
    AvailableSame(m.taker, Trade(m).taker, m.opp);
    if os != [] {
      assert WithHead(m.opp, os)[1..] == m.opp[1..];
    } else {
      assert SumOf(l.orders, RemainOf) == q;
    }
  }

  lemma {:induction false} AvailableSame(a: Order, b: Order, ls: seq<Level>)
    requires a.typ == b.typ && a.side == b.side && a.price == b.price
    ensures Available(a, ls) == Available(b, ls)
  {
    if ls != [] {
      AvailableSame(a, b, ls[1..]);
    }
  }

  lemma {:induction false} RunFills(m: Match, default: STPMode, side: Side)
    requires SoundSide(m.opp, side) && NoClash(m.taker, m.opp, default) && !m.stopped
    requires 0 <= m.taker.remain <= Available(m.taker, m.opp)
    ensures Run(m, default).taker.remain == 0
    decreases m.taker.remain, SumLevels(m.opp, One)
  {
    if m.taker.remain > 0 {
      assert Live(m);
      Descend(m, default);
      StepSound(m, default, side);
      StepNoClash(m, default);
      TradeAvailable(m, side);
      RunFills(Step(m, default), default, side);
    }
  }

  /** Fill-or-kill is all or nothing: filled in full, by fills summing to its quantity, exactly when the
      crossing levels' totals reach that quantity; otherwise rejected with the book untouched. */
  lemma FillOrKill(b: Book, taker: Order, clock: nat, default: STPMode, cap: nat)
    requires SoundBook(b) && taker.tif == FOK && taker.remain > 0
    requires NoClash(taker, b.Of(taker.side.Opposite()), default)
    ensures var out := Place(b, taker, clock, default, cap);
            var enough := Available(taker, b.Of(taker.side.Opposite())) >= taker.remain;
            && (enough ==> out.disposition == FullyFilled && TotalQty(out.fills) == taker.remain)
            && (!enough ==> out == Outcome(b, clock, [], [], Rejected))
  {
    var side := taker.side.Opposite();
    var m := Start(taker, b, clock);
    if Available(taker, m.opp) >= taker.remain {
      RunFills(m, default, side);
      RunConserves(m, default, side, taker.id);
    }
  }

  // ----- Depth -----

  /** What a subscriber knows of `price` after the fills: the last announcement for it, else `base`. */
  function Announced(fills: seq<Fill>, price: int, base: LevelInfo): LevelInfo {
    if fills == [] then base
    else if fills[|fills| - 1].price == price then fills[|fills| - 1].level
    else Announced(fills[..|fills| - 1], price, base)
  }

  lemma {:induction false} NoInfo(ls: seq<Level>, price: int)
    requires forall i :: 0 <= i < |ls| ==> ls[i].price != price
    ensures InfoAt(ls, price) == NoLevel
  {
    if ls != [] {
      NoInfo(ls[1..], price);
    }
  }

  /** A trade changes the public state of the best price only, to exactly what its fill announces. */
  lemma TradeInfo(m: Match, side: Side, price: int)
    requires Live(m) && SoundSide(m.opp, side)
    ensures InfoAt(Trade(m).opp, price)
         == if price == m.opp[0].price then Trade(m).fills[|m.fills|].level else InfoAt(m.opp, price)
  {
    var os := TradedQueue(m.opp[0].orders, Min(m.opp[0].orders[0].remain, m.taker.remain), m.clock);
    if os == [] {
      NoInfo(m.opp[1..], m.opp[0].price);
    } else {
      assert WithHead(m.opp, os)[1..] == m.opp[1..];
    }
  }

  /** Folding the announced levels, price by price, reproduces the opposite side after the match. */
  lemma {:induction false} RunDepth(m: Match, default: STPMode, side: Side, price: int, base: LevelInfo)
    requires SoundSide(m.opp, side) && NoClash(m.taker, m.opp, default)
    requires Announced(m.fills, price, base) == InfoAt(m.opp, price)
    ensures Announced(Run(m, default).fills, price, base) == InfoAt(Run(m, default).opp, price)
    decreases if m.taker.remain > 0 then m.taker.remain else 0, SumLevels(m.opp, One)
  {
    if Live(m) {
      Descend(m, default);
      StepSound(m, default, side);
      StepNoClash(m, default);
      TradeInfo(m, side, price);
      assert Trade(m).fills[..|m.fills|] == m.fills;
      RunDepth(Step(m, default), default, side, price, base);
    }
  }
}
