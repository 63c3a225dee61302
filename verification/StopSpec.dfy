/** Pending stop orders as a value: each side in the order in which it fires. */
module StopSpec {
  import opened Domain

  datatype Stop = Stop(
    id: OrderId, user: UserId, side: Side, trigger: int, limit: int, qty: int, typ: OrderType,
    tif: TIF, stp: STPMode, seqNum: nat, expireAt: int)

  /** Stop sells, highest trigger first, and stop buys, lowest trigger first; oldest first at one trigger. */
  datatype Stops = Stops(sells: seq<Stop>, buys: seq<Stop>) {
    function Of(side: Side): seq<Stop> {
      if side == Ask then sells else buys
    }

    function With(side: Side, ss: seq<Stop>): Stops {
      if side == Ask then this.(sells := ss) else this.(buys := ss)
    }
  }

  const NO_STOPS := Stops([], [])

  /** A stop of `side` with trigger `p` fires before one with trigger `q`. */
  predicate Sooner(side: Side, p: int, q: int) {
    if side == Ask then p > q else p < q
  }

  /** A trade at `price` sets off a stop of `side` with this trigger. */
  predicate Hit(side: Side, trigger: int, price: int) {
    if side == Ask then price <= trigger else price >= trigger
  }

  /** Behind everything that fires no later. */
  function AddTo(ss: seq<Stop>, s: Stop): seq<Stop> {
    if ss == [] then [s]
    else if Sooner(s.side, s.trigger, ss[0].trigger) then [s] + ss
    else [ss[0]] + AddTo(ss[1..], s)
  }

  function Fired(ss: seq<Stop>, side: Side, price: int): seq<Stop> {
    if ss == [] || !Hit(side, ss[0].trigger, price) then [] else [ss[0]] + Fired(ss[1..], side, price)
  }

  function Unfired(ss: seq<Stop>, side: Side, price: int): seq<Stop> {
    if ss == [] || !Hit(side, ss[0].trigger, price) then ss else Unfired(ss[1..], side, price)
  }

  /** All that a trade at `price` sets off: sells first, then buys. */
  function AllFired(b: Stops, price: int): seq<Stop> {
    Fired(b.sells, Ask, price) + Fired(b.buys, Bid, price)
  }

  function AllUnfired(b: Stops, price: int): Stops {
    Stops(Unfired(b.sells, Ask, price), Unfired(b.buys, Bid, price))
  }

  // ----- Trigger prices -----

  /** How many different triggers a queue in firing order has. */
  function TriggerLevels(ss: seq<Stop>): nat {
    if ss == [] then 0 else TriggerLevels(ss[1..]) + if |ss| > 1 && ss[1].trigger == ss[0].trigger then 0 else 1
  }

  function TriggersInUse(b: Stops): nat {
    TriggerLevels(b.sells) + TriggerLevels(b.buys)
  }

  predicate HasStopAt(ss: seq<Stop>, trigger: int) {
    exists i :: 0 <= i < |ss| && ss[i].trigger == trigger
  }

  datatype FoundStop = NoStop | FoundStop(stop: Stop)

  function FindStopIn(ss: seq<Stop>, id: OrderId): FoundStop {
    if ss == [] then NoStop else if ss[0].id == id then FoundStop(ss[0]) else FindStopIn(ss[1..], id)
  }

  function FindStop(b: Stops, id: OrderId): FoundStop {
    var f := FindStopIn(b.sells, id);
    if f.FoundStop? then f else FindStopIn(b.buys, id)
  }

  function RemoveStopFrom(ss: seq<Stop>, id: OrderId): seq<Stop> {
    if ss == [] then [] else if ss[0].id == id then ss[1..] else [ss[0]] + RemoveStopFrom(ss[1..], id)
  }

  function RemoveStop(b: Stops, id: OrderId): Stops {
    match FindStop(b, id)
    case NoStop => b
    case FoundStop(s) => b.With(s.side, RemoveStopFrom(b.Of(s.side), id))
  }

  function RemoveStops(b: Stops, ids: seq<OrderId>): Stops {
    if ids == [] then b else RemoveStop(RemoveStops(b, ids[..|ids| - 1]), ids[|ids| - 1])
  }

  // ----- Sums over stops -----

  function SumStops(ss: seq<Stop>, f: Stop -> int): int {
    if ss == [] then 0 else f(ss[0]) + SumStops(ss[1..], f)
  }

  function SumBoth(b: Stops, f: Stop -> int): int {
    SumStops(b.sells, f) + SumStops(b.buys, f)
  }

  /** Counts the stops with this id. */
  function IsStop(id: OrderId): Stop -> int {
    (s: Stop) => if s.id == id then 1 else 0
  }

  function OneStop(s: Stop): int { 1 }

  lemma {:induction false} SumStopsConcat(a: seq<Stop>, b: seq<Stop>, f: Stop -> int)
    ensures SumStops(a + b, f) == SumStops(a, f) + SumStops(b, f)
  {
    if a == [] {
      assert a + b == b;
    } else {
      assert (a + b)[1..] == a[1..] + b;
      SumStopsConcat(a[1..], b, f);
    }
  }

  lemma {:induction false} AddSum(ss: seq<Stop>, s: Stop, f: Stop -> int)
    ensures SumStops(AddTo(ss, s), f) == SumStops(ss, f) + f(s)
  {
    if ss == [] {
    } else if Sooner(s.side, s.trigger, ss[0].trigger) {
      assert ([s] + ss)[1..] == ss;
    } else {
      AddSum(ss[1..], s, f);
      assert AddTo(ss, s)[1..] == AddTo(ss[1..], s);
    }
  }

  lemma {:induction false} RemoveStopSum(ss: seq<Stop>, id: OrderId, f: Stop -> int)
    ensures SumStops(RemoveStopFrom(ss, id), f)
         == SumStops(ss, f) - match FindStopIn(ss, id) case NoStop => 0 case FoundStop(s) => f(s)
  {
    if ss != [] && ss[0].id != id {
      RemoveStopSum(ss[1..], id, f);
      assert RemoveStopFrom(ss, id)[1..] == RemoveStopFrom(ss[1..], id);
    }
  }

  lemma {:induction false} FiredSum(ss: seq<Stop>, side: Side, price: int, f: Stop -> int)
    ensures SumStops(Fired(ss, side, price), f) + SumStops(Unfired(ss, side, price), f) == SumStops(ss, f)
  {
    if ss != [] && Hit(side, ss[0].trigger, price) {
      FiredSum(ss[1..], side, price, f);
      assert Fired(ss, side, price)[1..] == Fired(ss[1..], side, price);
    }
  }

  /** Firing moves stops from the book to the triggered list: nothing is lost and nothing doubled. */
  lemma AllFiredSum(b: Stops, price: int, f: Stop -> int)
    ensures SumStops(AllFired(b, price), f) + SumBoth(AllUnfired(b, price), f) == SumBoth(b, f)
  {
    FiredSum(b.sells, Ask, price, f);
    FiredSum(b.buys, Bid, price, f);
    SumStopsConcat(Fired(b.sells, Ask, price), Fired(b.buys, Bid, price), f);
  }

  lemma {:induction false} StopCount(ss: seq<Stop>, id: OrderId)
    ensures SumStops(ss, IsStop(id)) >= 0
    ensures SumStops(ss, IsStop(id)) == 0 <==> FindStopIn(ss, id) == NoStop
    ensures forall s :: s in ss && s.id == id ==> SumStops(ss, IsStop(id)) > 0
    ensures FindStopIn(ss, id).FoundStop? ==> FindStopIn(ss, id).stop in ss && FindStopIn(ss, id).stop.id == id
  {
    if ss != [] {
      StopCount(ss[1..], id);
      assert ss == [ss[0]] + ss[1..];
    }
  }

  // ----- Firing order -----

  ghost predicate WFStop(s: Stop, side: Side) {
    s.side == side && s.qty > 0
  }

  /** Sorted by firing order, and within one trigger by age. */
  ghost predicate WFStopSide(ss: seq<Stop>, side: Side, clock: nat) {
    && (forall i :: 0 <= i < |ss| ==> WFStop(ss[i], side) && ss[i].seqNum <= clock)
    && (forall i, j :: 0 <= i < j < |ss| ==> FiresBefore(side, ss[i], ss[j]))
  }

  ghost predicate WFStops(b: Stops, clock: nat) {
    WFStopSide(b.sells, Ask, clock) && WFStopSide(b.buys, Bid, clock)
  }

  /** `s` fires before `x`: at a sooner trigger, or at the same one and older. */
  predicate FiresBefore(side: Side, s: Stop, x: Stop) {
    Sooner(side, s.trigger, x.trigger) || (s.trigger == x.trigger && s.seqNum < x.seqNum)
  }

  ghost predicate FiresBeforeAll(side: Side, s: Stop, ss: seq<Stop>) {
    forall x :: x in ss ==> FiresBefore(side, s, x)
  }

  /** A side is its first stop and, firing after it, the rest. */
  lemma ConsStops(s: Stop, ss: seq<Stop>, side: Side, clock: nat)
    ensures WFStopSide([s] + ss, side, clock) <==>
              WFStopSide(ss, side, clock) && WFStop(s, side) && s.seqNum <= clock && FiresBeforeAll(side, s, ss)
  {
    hide WFStopSide, WFStop, FiresBeforeAll;
    if WFStopSide([s] + ss, side, clock) {
      UnconsStops(s, ss, side, clock);
    }
    if WFStopSide(ss, side, clock) && WFStop(s, side) && s.seqNum <= clock && FiresBeforeAll(side, s, ss) {
      ConsedStops(s, ss, side, clock);
    }
  }

  lemma UnconsStops(s: Stop, ss: seq<Stop>, side: Side, clock: nat)
    requires WFStopSide([s] + ss, side, clock)
    ensures WFStopSide(ss, side, clock) && WFStop(s, side) && s.seqNum <= clock && FiresBeforeAll(side, s, ss)
  {
    hide FiresBefore, WFStop;
    var r := [s] + ss;
    assert r[0] == s;
    forall i | 0 <= i < |ss|
      ensures WFStop(ss[i], side) && ss[i].seqNum <= clock && FiresBefore(side, s, ss[i])
    {
      assert r[i + 1] == ss[i];
    }
    forall i, j | 0 <= i < j < |ss|
      ensures FiresBefore(side, ss[i], ss[j])
    {
      assert FiresBefore(side, r[i + 1], r[j + 1]);
    }
  }

  lemma ConsedStops(s: Stop, ss: seq<Stop>, side: Side, clock: nat)
    requires WFStopSide(ss, side, clock) && WFStop(s, side) && s.seqNum <= clock && FiresBeforeAll(side, s, ss)
    ensures WFStopSide([s] + ss, side, clock)
  {
    hide FiresBefore, WFStop;
    var r := [s] + ss;
    assert r[0] == s;
    forall i, j | 0 <= i < j < |r|
      ensures FiresBefore(side, r[i], r[j])
    {
      assert r[j] == ss[j - 1] && r[j] in ss;
      assert i > 0 ==> r[i] == ss[i - 1];
    }
  }

  lemma {:induction false} AddedMembers(ss: seq<Stop>, s: Stop)
    ensures forall x :: x in AddTo(ss, s) <==> x == s || x in ss
  {
    if ss != [] && !Sooner(s.side, s.trigger, ss[0].trigger) {
      AddedMembers(ss[1..], s);
      assert ss == [ss[0]] + ss[1..];
    }
  }

  lemma Later(ss: seq<Stop>, side: Side, clock: nat, later: nat)
    requires WFStopSide(ss, side, clock) && clock <= later
    ensures WFStopSide(ss, side, later)
  {
  }

  /** A new stop takes its place: behind everything that fires no later. */
  lemma {:induction false} AddWF(ss: seq<Stop>, s: Stop, side: Side, clock: nat, later: nat)
    requires WFStopSide(ss, side, clock) && WFStop(s, side) && clock < s.seqNum <= later
    ensures WFStopSide(AddTo(ss, s), side, later)
  {
    hide WFStopSide, FiresBeforeAll;
    Later(ss, side, clock, later);
    if ss == [] {
      ConsStops(s, [], side, later);
      AllOf(side, s, []);
      assert [s] + [] == [s];
    } else {
      assert ss == [ss[0]] + ss[1..];
      ConsStops(ss[0], ss[1..], side, clock);
      ConsStops(ss[0], ss[1..], side, later);
      if Sooner(s.side, s.trigger, ss[0].trigger) {
        AheadOfAll(side, s, ss[0], ss[1..]);
        ConsStops(s, ss, side, later);
      } else {
        AddWF(ss[1..], s, side, clock, later);
        AddedMembers(ss[1..], s);
        BeforeAdded(side, ss[0], ss[1..], s);
        ConsStops(ss[0], AddTo(ss[1..], s), side, later);
      }
    }
  }

  lemma AllOf(side: Side, s: Stop, ss: seq<Stop>)
    requires ss == []
    ensures FiresBeforeAll(side, s, ss) && WFStopSide(ss, side, 0)
  {
  }

  lemma AheadOfAll(side: Side, s: Stop, head: Stop, rest: seq<Stop>)
    requires Sooner(side, s.trigger, head.trigger) && FiresBeforeAll(side, head, rest)
    ensures FiresBeforeAll(side, s, [head] + rest)
  {
  }

  lemma BeforeAdded(side: Side, head: Stop, rest: seq<Stop>, s: Stop)
    requires FiresBeforeAll(side, head, rest) && !Sooner(side, s.trigger, head.trigger) && head.seqNum < s.seqNum
    requires forall x :: x in AddTo(rest, s) <==> x == s || x in rest
    ensures FiresBeforeAll(side, head, AddTo(rest, s))
  {
  }

  lemma {:induction false} FiredThenRest(ss: seq<Stop>, side: Side, price: int)
    ensures Fired(ss, side, price) + Unfired(ss, side, price) == ss
  {
    if ss != [] && Hit(side, ss[0].trigger, price) {
      FiredThenRest(ss[1..], side, price);
      assert ss == [ss[0]] + ss[1..];
      assert Fired(ss, side, price) + Unfired(ss, side, price)
          == [ss[0]] + (Fired(ss[1..], side, price) + Unfired(ss[1..], side, price));
    }
  }

  /** The first stop is the last to be missed. */
  lemma FirstMissed(ss: seq<Stop>, side: Side, clock: nat, price: int)
    requires WFStopSide(ss, side, clock) && ss != [] && !Hit(side, ss[0].trigger, price)
    ensures forall s :: s in ss ==> !Hit(side, s.trigger, price)
  {
    forall s | s in ss
      ensures !Hit(side, s.trigger, price)
    {
      var i :| 0 <= i < |ss| && ss[i] == s;
      assert i > 0 ==> !Sooner(side, ss[i].trigger, ss[0].trigger);
    }
  }

  lemma {:induction false} FiredHit(ss: seq<Stop>, side: Side, clock: nat, price: int)
    requires WFStopSide(ss, side, clock)
    ensures forall s :: s in Fired(ss, side, price) ==> Hit(side, s.trigger, price)
    ensures forall s :: s in Unfired(ss, side, price) ==> !Hit(side, s.trigger, price)
  {
    hide Hit, WFStopSide;
    if ss != [] {
      if Hit(side, ss[0].trigger, price) {
        assert ss == [ss[0]] + ss[1..];
        StopParts([ss[0]], ss[1..], side, clock);
        FiredHit(ss[1..], side, clock, price);
      } else {
        FirstMissed(ss, side, clock, price);
      }
    }
  }

  /** The stops that fire are exactly those whose condition the price meets, in firing order, and no
      stop that stays is set off by that price. */
  lemma FiresExactly(ss: seq<Stop>, side: Side, clock: nat, price: int)
    requires WFStopSide(ss, side, clock)
    ensures Fired(ss, side, price) + Unfired(ss, side, price) == ss
    ensures forall s :: s in Fired(ss, side, price) ==> Hit(side, s.trigger, price)
    ensures forall s :: s in Unfired(ss, side, price) ==> !Hit(side, s.trigger, price)
    ensures WFStopSide(Fired(ss, side, price), side, clock) && WFStopSide(Unfired(ss, side, price), side, clock)
  {
    hide Fired, Unfired, Hit, WFStopSide;
    FiredThenRest(ss, side, price);
    FiredHit(ss, side, clock, price);
    StopParts(Fired(ss, side, price), Unfired(ss, side, price), side, clock);
  }

  /** Parts of a side are in firing order. */
  lemma StopParts(a: seq<Stop>, b: seq<Stop>, side: Side, clock: nat)
    requires WFStopSide(a + b, side, clock)
    ensures WFStopSide(a, side, clock) && WFStopSide(b, side, clock)
  {
    var s := a + b;
    assert forall i :: 0 <= i < |a| ==> a[i] == s[i];
    assert forall i :: 0 <= i < |b| ==> b[i] == s[|a| + i];
  }

  lemma {:induction false} RemoveStopWF(ss: seq<Stop>, id: OrderId, side: Side, clock: nat)
    requires WFStopSide(ss, side, clock)
    ensures WFStopSide(RemoveStopFrom(ss, id), side, clock)
    ensures forall x :: x in RemoveStopFrom(ss, id) ==> x in ss
  {
    hide WFStopSide;
    if ss != [] {
      assert ss == [ss[0]] + ss[1..];
      ConsStops(ss[0], ss[1..], side, clock);
      if ss[0].id != id {
        RemoveStopWF(ss[1..], id, side, clock);
        ConsStops(ss[0], RemoveStopFrom(ss[1..], id), side, clock);
      }
    }
  }

  // ----- What is due -----

  /** Highest sell trigger first, lowest buy trigger first. */
  ghost predicate ByTrigger(ss: seq<Stop>, side: Side) {
    forall i, j :: 0 <= i < j < |ss| ==> if side == Ask then ss[i].trigger >= ss[j].trigger else ss[i].trigger <= ss[j].trigger
  }

  /** A sell stop is due at its trigger and below, a buy stop at its trigger and above. */
  predicate Due(side: Side, trigger: int, price: int) {
    if side == Ask then price <= trigger else price >= trigger
  }

  lemma {:induction false} FiredAreDue(ss: seq<Stop>, side: Side, price: int)
    requires ByTrigger(ss, side)
    ensures forall s :: s in Fired(ss, side, price) <==> s in ss && Due(side, s.trigger, price)
    ensures forall s :: s in Unfired(ss, side, price) <==> s in ss && !Due(side, s.trigger, price)
  {
    if ss != [] {
      FiredAreDue(ss[1..], side, price);
      assert ss == [ss[0]] + ss[1..];
      assert forall s :: s in ss[1..] ==> exists i :: 1 <= i < |ss| && ss[i] == s;
      assert !Due(side, ss[0].trigger, price) ==> forall s :: s in ss ==> !Due(side, s.trigger, price);
    }
  }
}
