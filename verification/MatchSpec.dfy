/** Matching as a value-level process: always act on the oldest order of the best-priced opposite
    level, one maker at a time. */
module MatchSpec {
  import opened Domain
  import opened BookSpec

  /** A match in progress: the taker, the opposite side of the book, the order-sequence counter,
      and what has been produced so far. `stopped` is set when self-trade prevention ends it. */
  datatype Match = Match(
    taker: Order, opp: seq<Level>, clock: nat,
    fills: seq<Fill>, cancels: seq<STPCanceled>, stopped: bool)

  predicate Crosses(taker: Order, price: int) {
    taker.typ == Market || if taker.side == Bid then taker.price >= price else taker.price <= price
  }

  /** The taker's own mode, else the maker's, else the market default. */
  function EffectiveSTP(taker: Order, maker: Order, default: STPMode): STPMode {
    if taker.stp != STPDisabled then taker.stp else if maker.stp != STPDisabled then maker.stp else default
  }

  predicate STPApplies(taker: Order, maker: Order, default: STPMode) {
    taker.user == maker.user && EffectiveSTP(taker, maker, default) != STPDisabled
  }

  /** The opposite side after the best level's queue became `os`. */
  function WithHead(ls: seq<Level>, os: seq<Order>): seq<Level>
    requires ls != []
  {
    if os == [] then ls[1..] else [Level(ls[0].price, os)] + ls[1..]
  }

  /** A side whose best level may have just been emptied, without that level. */
  function Trim(ls: seq<Level>): seq<Level> {
    if ls != [] && ls[0].orders == [] then ls[1..] else ls
  }

  lemma TrimHead(ls: seq<Level>, os: seq<Order>)
    requires ls != [] && ls[0].orders != []
    ensures Trim(WithQueue(ls, 0, os)) == WithHead(ls, os)
  {
    assert WithQueue(ls, 0, os) == [Level(ls[0].price, os)] + ls[1..];
  }

  function Decrement(o: Order, q: int): Order {
    o.(remain := o.remain - q, filled := o.filled + q, display := o.display - Min(q, o.display))
  }

  /** An exhausted iceberg slice refilled from its reserve, with a fresh sequence number. */
  function Replenish(o: Order, seqNum: nat): Order {
    var r := Min(o.hidden, o.origDisplay);
    o.(hidden := o.hidden - r, remain := r, display := r, seqNum := seqNum)
  }

  function STPRecord(o: Order, price: int): STPCanceled {
    STPCanceled(o.id, o.user, o.side, price, o.remain, o.filled)
  }

  /** A queue whose head is now `maker`, with `rest` behind it: an order with quantity left stays, an exhausted
      iceberg slice is refilled at the tail, any other order leaves. */
  function SettledQueue(maker: Order, rest: seq<Order>, clock: nat): seq<Order> {
    if maker.remain != 0 then [maker] + rest
    else if maker.hidden > 0 then rest + [Replenish(maker, clock + 1)]
    else rest
  }

  /** The best level's queue after its head traded `q`. */
  function TradedQueue(os: seq<Order>, q: int, clock: nat): seq<Order>
    requires os != []
  {
    SettledQueue(Decrement(os[0], q), os[1..], clock)
  }

  /** One trade between the taker and the head of the best level. */
  function Trade(m: Match): Match
    requires m.opp != [] && m.opp[0].orders != []
  {
    var os := m.opp[0].orders;
    var q := Min(os[0].remain, m.taker.remain);
    var maker := Decrement(os[0], q);
    var taker := m.taker.(remain := m.taker.remain - q, filled := m.taker.filled + q);
    var os' := TradedQueue(os, q, m.clock);
    var fill := Fill(maker.id, taker.id, maker.user, taker.user, maker.side, m.opp[0].price, q,
                     maker.remain, taker.remain, maker.seqNum, taker.seqNum, Info(os'));
    m.(taker := taker, opp := WithHead(m.opp, os'), fills := m.fills + [fill],
       clock := if maker.remain == 0 && maker.hidden > 0 then m.clock + 1 else m.clock)
  }

  /** One self-trade-prevention action on the head of the best level. */
  function Prevent(m: Match, mode: STPMode): Match
    requires m.opp != [] && m.opp[0].orders != []
  {
    var os := m.opp[0].orders;
    var without := WithHead(m.opp, os[1..]);
    var cancels := m.cancels + [STPRecord(os[0], m.opp[0].price)];
    var dead := m.taker.(remain := 0);
    match mode
    case STPDisabled => m
    case STPCancelBoth => m.(opp := without, cancels := cancels, taker := dead, stopped := true)
    case STPCancelMaker => m.(opp := without, cancels := cancels)
    case STPCancelTaker => m.(taker := dead, stopped := true)
    case STPDecrementCancel =>
      if os[0].remain > m.taker.remain then
        m.(opp := WithHead(m.opp, [Decrement(os[0], m.taker.remain)] + os[1..]), taker := dead, stopped := true)
      else
        m.(opp := without, cancels := cancels,
           taker := m.taker.(remain := m.taker.remain - os[0].remain, filled := m.taker.filled + os[0].remain))
  }

  function Step(m: Match, default: STPMode): Match
    requires m.opp != [] && m.opp[0].orders != []
  {
    var maker := m.opp[0].orders[0];
    if STPApplies(m.taker, maker, default) then Prevent(m, EffectiveSTP(m.taker, maker, default)) else Trade(m)
  }

  /** The loop's guard, over both of the matching loops. */
  predicate Active(m: Match) {
    !m.stopped && m.taker.remain > 0 && m.opp != [] && Crosses(m.taker, m.opp[0].price)
  }

  /** Matching never gets stuck on a well-formed book: every level has a head with something to trade. */
  predicate Live(m: Match) {
    Active(m) && m.opp[0].orders != [] && m.opp[0].orders[0].remain > 0
  }

  /** Sums over a side decompose at the best level. */
  lemma WithHeadSum(ls: seq<Level>, os: seq<Order>, f: Order -> int)
    requires ls != []
    ensures SumLevels(WithHead(ls, os), f) == SumOf(os, f) + SumLevels(ls[1..], f)
  {
    if os != [] {
      assert WithHead(ls, os)[1..] == ls[1..];
    }
  }

  lemma StepDecreases(m: Match, default: STPMode)
    requires Live(m)
    ensures var n := Step(m, default);
            0 <= n.taker.remain < m.taker.remain
            || (n.taker.remain == m.taker.remain && SumLevels(n.opp, One) < SumLevels(m.opp, One))
  {
    WithHeadSum(m.opp, m.opp[0].orders[1..], One);
  }

  lemma {:induction false} SumOneNonNegative(ls: seq<Level>)
    ensures SumLevels(ls, One) >= 0
  {
    if ls != [] {
      SumOfOne(ls[0].orders);
      SumOneNonNegative(ls[1..]);
    }
  }

  /** Run the match until the taker is done, the book is exhausted or no longer crosses. */
  function Run(m: Match, default: STPMode): Match
    decreases if m.taker.remain > 0 then m.taker.remain else 0, SumLevels(m.opp, One)
  {
    if !Live(m) then m
    else
      var n := (StepDecreases(m, default); SumOneNonNegative(Step(m, default).opp); Step(m, default));
      Run(n, default)
  }

  // ----- Fill-or-kill -----

  /** Resting quantity over every level the taker crosses. */
  function Available(taker: Order, ls: seq<Level>): int {
    if ls == [] || !Crosses(taker, ls[0].price) then 0
    else SumOf(ls[0].orders, RemainOf) + Available(taker, ls[1..])
  }

  // ----- A whole placement -----

  datatype Outcome = Outcome(
    book: Book, clock: nat, fills: seq<Fill>, cancels: seq<STPCanceled>, disposition: Disposition)

  function Levels(b: Book): nat {
    |b.bids| + |b.asks|
  }

  /** Can `o` rest: its level exists, or the shared level pool has a slot left. */
  predicate CanRestIn(b: Book, o: Order, levelCap: nat) {
    HasLevel(b.Of(o.side), o.price) || Levels(b) < levelCap
  }

  function Rest(b: Book, o: Order): Book {
    b.With(o.side, Insert(b.Of(o.side), o))
  }

  /** What becomes of the taker once matching is over. */
  function Settle(b: Book, m: Match, levelCap: nat): Outcome {
    var b' := b.With(m.taker.side.Opposite(), m.opp);
    var out := (b: Book, d: Disposition) => Outcome(b, m.clock, m.fills, m.cancels, d);
    if m.stopped then out(b', STPCanceledTaker)
    else if m.taker.remain == 0 then out(b', FullyFilled)
    else if m.taker.tif == IOC then out(b', if m.fills != [] then PartialFillCanceled else Canceled)
    else if m.taker.typ == Market then out(b', Canceled)
    else if !CanRestIn(b', m.taker, levelCap) then
      out(b', if m.fills != [] then PartialFillCanceled else Canceled)
    else out(Rest(b', m.taker),
             if m.fills != [] then PartialFillRested else Rested)
  }

  function Start(taker: Order, b: Book, clock: nat): Match {
    Match(taker, b.Of(taker.side.Opposite()), clock, [], [], false)
  }

  function Place(b: Book, taker: Order, clock: nat, default: STPMode, levelCap: nat): Outcome {
    if taker.tif == FOK && Available(taker, b.Of(taker.side.Opposite())) < taker.remain then
      Outcome(b, clock, [], [], Rejected)
    else Settle(b, Run(Start(taker, b, clock), default), levelCap)
  }
}
