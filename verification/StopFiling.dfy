/** Waiting stops filed by trigger level, as values: what filing, taking and firing do to the flat firing order. */
module StopFiling {
  import opened Domain
  import opened BookSpec
  import opened StopSpec

  /** The stops of one trigger price, oldest first. */
  datatype StopLevel = StopLevel(price: int, stops: seq<Stop>)

  /** A tree's stops in firing order. */
  function Flat(ls: seq<StopLevel>): seq<Stop> {
    if ls == [] then [] else ls[0].stops + Flat(ls[1..])
  }

  /** The two trees of the stop book as values. */
  datatype Filing = Filing(sells: seq<StopLevel>, buys: seq<StopLevel>) {
    function Of(side: Side): seq<StopLevel> {
      if side == Ask then sells else buys
    }

    function With(side: Side, ls: seq<StopLevel>): Filing {
      if side == Ask then this.(sells := ls) else this.(buys := ls)
    }

    /** The waiting stops, each side in firing order. */
    function All(): Stops {
      Stops(Flat(sells), Flat(buys))
    }
  }

  /** Levels sorted by firing order, none empty, each holding stops of its own trigger and side. */
  ghost predicate WFLevels(ls: seq<StopLevel>, side: Side) {
    && (forall i, j :: 0 <= i < j < |ls| ==> Sooner(side, ls[i].price, ls[j].price))
    && (forall i :: 0 <= i < |ls| ==> WFStopLevel(ls[i], side))
  }

  ghost predicate WFStopLevel(l: StopLevel, side: Side) {
    l.stops != [] && forall k :: 0 <= k < |l.stops| ==> l.stops[k].trigger == l.price && l.stops[k].side == side
  }

  /** The index holds every stop under its id, and nothing else; no id is used twice. */
  ghost predicate Indexes(index: map<OrderId, Stop>, b: Stops) {
    && (forall id :: FindStop(b, id) == if id in index then FoundStop(index[id]) else NoStop)
    && (forall id :: SumBoth(b, IsStop(id)) <= 1)
  }

  // ----- Levels and the flat order -----

  /** A trigger at `p` fires before every level of `ls`. */
  ghost predicate Earlier(side: Side, p: int, ls: seq<StopLevel>) {
    forall i :: 0 <= i < |ls| ==> Sooner(side, p, ls[i].price)
  }

  predicate HasTrigger(ls: seq<StopLevel>, p: int) {
    exists i :: 0 <= i < |ls| && ls[i].price == p
  }

  lemma TailLevels(ls: seq<StopLevel>, side: Side)
    requires WFLevels(ls, side) && ls != []
    ensures WFLevels(ls[1..], side) && WFStopLevel(ls[0], side) && Earlier(side, ls[0].price, ls[1..])
  {
  }

  lemma ConsLevels(l: StopLevel, ls: seq<StopLevel>, side: Side)
    requires WFLevels(ls, side) && WFStopLevel(l, side) && Earlier(side, l.price, ls)
    ensures WFLevels([l] + ls, side)
  {
  }

  lemma EarlierCons(side: Side, p: int, l: StopLevel, ls: seq<StopLevel>)
    ensures Earlier(side, p, [l] + ls) <==> Sooner(side, p, l.price) && Earlier(side, p, ls)
  {
    assert forall i :: 0 <= i < |ls| ==> ([l] + ls)[i + 1] == ls[i];
    assert ([l] + ls)[0] == l;
  }

  /** Put `s` at the tail of its level, creating the level in sorted position. */
  function PutStop(ls: seq<StopLevel>, s: Stop): seq<StopLevel> {
    if ls == [] then [StopLevel(s.trigger, [s])]
    else if ls[0].price == s.trigger then [StopLevel(s.trigger, ls[0].stops + [s])] + ls[1..]
    else if Sooner(s.side, s.trigger, ls[0].price) then [StopLevel(s.trigger, [s])] + ls
    else [ls[0]] + PutStop(ls[1..], s)
  }

  lemma {:induction false} PutWF(ls: seq<StopLevel>, s: Stop, p: int)
    requires WFLevels(ls, s.side)
    ensures WFLevels(PutStop(ls, s), s.side)
    ensures Earlier(s.side, p, ls) && Sooner(s.side, p, s.trigger) ==> Earlier(s.side, p, PutStop(ls, s))
    ensures |PutStop(ls, s)| == if HasTrigger(ls, s.trigger) then |ls| else |ls| + 1
  {
    hide WFLevels, Earlier;
    if ls == [] {
      Nothing(s.side, p);
      ConsLevels(StopLevel(s.trigger, [s]), [], s.side);
      EarlierCons(s.side, p, StopLevel(s.trigger, [s]), []);
      assert [StopLevel(s.trigger, [s])] + [] == [StopLevel(s.trigger, [s])];
    } else {
      assert ls == [ls[0]] + ls[1..];
      TailLevels(ls, s.side);
      EarlierCons(s.side, p, ls[0], ls[1..]);
      if ls[0].price == s.trigger {
        ConsLevels(StopLevel(s.trigger, ls[0].stops + [s]), ls[1..], s.side);
        EarlierCons(s.side, p, StopLevel(s.trigger, ls[0].stops + [s]), ls[1..]);
      } else if Sooner(s.side, s.trigger, ls[0].price) {
        Ahead(ls, s);
        ConsLevels(StopLevel(s.trigger, [s]), ls, s.side);
        EarlierCons(s.side, p, StopLevel(s.trigger, [s]), ls);
      } else {
        PutWF(ls[1..], s, ls[0].price);
        PutWF(ls[1..], s, p);
        ConsLevels(ls[0], PutStop(ls[1..], s), s.side);
        EarlierCons(s.side, p, ls[0], PutStop(ls[1..], s));
        HasTail(ls, s.trigger);
      }
    }
  }

  lemma Nothing(side: Side, p: int)
    ensures WFLevels([], side) && Earlier(side, p, [])
  {
  }

  /** Before the first level is before every level, and at none of them. */
  lemma Ahead(ls: seq<StopLevel>, s: Stop)
    requires WFLevels(ls, s.side) && ls != [] && Sooner(s.side, s.trigger, ls[0].price)
    ensures Earlier(s.side, s.trigger, ls) && !HasTrigger(ls, s.trigger)
  {
  }

  lemma HasTail(ls: seq<StopLevel>, p: int)
    requires ls != [] && ls[0].price != p
    ensures HasTrigger(ls, p) <==> HasTrigger(ls[1..], p)
  {
    if HasTrigger(ls, p) {
      var i :| 0 <= i < |ls| && ls[i].price == p;
      assert ls[1..][i - 1].price == p;
    }
  }

  /** A new stop goes behind a queue none of which fires later. */
  lemma {:induction false} AddBehind(a: seq<Stop>, b: seq<Stop>, s: Stop)
    requires forall i :: 0 <= i < |a| ==> !Sooner(s.side, s.trigger, a[i].trigger)
    ensures AddTo(a + b, s) == a + AddTo(b, s)
  {
    if a == [] {
      assert a + b == b;
      assert a + AddTo(b, s) == AddTo(b, s);
    } else {
      assert (a + b)[0] == a[0] && (a + b)[1..] == a[1..] + b;
      AddBehind(a[1..], b, s);
      assert [a[0]] + (a[1..] + AddTo(b, s)) == a + AddTo(b, s);
    }
  }

  lemma AddAhead(b: seq<Stop>, s: Stop)
    requires b != [] ==> Sooner(s.side, s.trigger, b[0].trigger)
    ensures AddTo(b, s) == [s] + b
  {
  }

  /** Filing a stop by level is inserting it in firing order. */
  lemma {:induction false} PutIsAdd(ls: seq<StopLevel>, s: Stop)
    requires WFLevels(ls, s.side)
    ensures Flat(PutStop(ls, s)) == AddTo(Flat(ls), s)
  {
    if ls == [] {
      assert Flat([StopLevel(s.trigger, [s])]) == [s] + Flat([]);
    } else {
      TailLevels(ls, s.side);
      var head, rest := ls[0].stops, Flat(ls[1..]);
      if ls[0].price == s.trigger {
        AddBehind(head, rest, s);
        FirstTrigger(ls[1..], s.side);
        AddAhead(rest, s);
        assert PutStop(ls, s)[1..] == ls[1..];
        assert (head + [s]) + rest == head + ([s] + rest);
      } else if Sooner(s.side, s.trigger, ls[0].price) {
        assert PutStop(ls, s)[1..] == ls;
        FirstTrigger(ls, s.side);
        AddAhead(Flat(ls), s);
      } else {
        AddBehind(head, rest, s);
        PutIsAdd(ls[1..], s);
        assert PutStop(ls, s)[1..] == PutStop(ls[1..], s);
      }
    }
  }

  lemma FirstTrigger(ls: seq<StopLevel>, side: Side)
    requires WFLevels(ls, side)
    ensures ls != [] ==> Flat(ls) != [] && Flat(ls)[0].trigger == ls[0].price
    ensures ls == [] ==> Flat(ls) == []
  {
  }

  /** The first level fires as a whole. */
  lemma {:induction false} FiredLevel(a: seq<Stop>, b: seq<Stop>, side: Side, price: int)
    requires forall i :: 0 <= i < |a| ==> Hit(side, a[i].trigger, price)
    ensures Fired(a + b, side, price) == a + Fired(b, side, price) && Unfired(a + b, side, price) == Unfired(b, side, price)
  {
    if a == [] {
      assert a + b == b;
      assert a + Fired(b, side, price) == Fired(b, side, price);
    } else {
      assert (a + b)[0] == a[0] && (a + b)[1..] == a[1..] + b;
      FiredLevel(a[1..], b, side, price);
      assert [a[0]] + (a[1..] + Fired(b, side, price)) == a + Fired(b, side, price);
    }
  }

  // ----- Taking a stop out of the flat order -----

  /** Behind stops with other ids, finding and removing happens in the rest. */
  lemma {:induction false} SkipOthers(a: seq<Stop>, b: seq<Stop>, id: OrderId)
    requires FindStopIn(a, id) == NoStop
    ensures FindStopIn(a + b, id) == FindStopIn(b, id) && RemoveStopFrom(a + b, id) == a + RemoveStopFrom(b, id)
  {
    if a == [] {
      assert a + b == b;
      assert a + RemoveStopFrom(b, id) == RemoveStopFrom(b, id);
    } else {
      assert (a + b)[0] == a[0] && (a + b)[1..] == a[1..] + b;
      SkipOthers(a[1..], b, id);
      assert [a[0]] + (a[1..] + RemoveStopFrom(b, id)) == a + RemoveStopFrom(b, id);
    }
  }

  lemma {:induction false} FoundHere(a: seq<Stop>, b: seq<Stop>, id: OrderId)
    requires FindStopIn(a, id) != NoStop
    ensures FindStopIn(a + b, id) == FindStopIn(a, id) && RemoveStopFrom(a + b, id) == RemoveStopFrom(a, id) + b
  {
    assert (a + b)[0] == a[0] && (a + b)[1..] == a[1..] + b;
    if a[0].id != id {
      FoundHere(a[1..], b, id);
      assert [a[0]] + (RemoveStopFrom(a[1..], id) + b) == RemoveStopFrom(a, id) + b;
    }
  }

  /** The levels without the stop `id`, its level with it when nothing else waits there. */
  function TakeStop(ls: seq<StopLevel>, id: OrderId): seq<StopLevel> {
    if ls == [] then []
    else if FindStopIn(ls[0].stops, id) == NoStop then [ls[0]] + TakeStop(ls[1..], id)
    else
      var left := RemoveStopFrom(ls[0].stops, id);
      if left == [] then ls[1..] else [StopLevel(ls[0].price, left)] + ls[1..]
  }

  lemma {:induction false} TakeIsRemove(ls: seq<StopLevel>, side: Side, id: OrderId, p: int)
    requires WFLevels(ls, side)
    ensures Flat(TakeStop(ls, id)) == RemoveStopFrom(Flat(ls), id) && WFLevels(TakeStop(ls, id), side)
    ensures |TakeStop(ls, id)| <= |ls| && (Earlier(side, p, ls) ==> Earlier(side, p, TakeStop(ls, id)))
  {
    hide WFLevels, Earlier, WFStopLevel, FindStopIn, RemoveStopFrom;
    if ls == [] {
      NothingFound(id);
    } else {
      assert ls == [ls[0]] + ls[1..];
      TailLevels(ls, side);
      EarlierCons(side, p, ls[0], ls[1..]);
      var head, rest := ls[0].stops, Flat(ls[1..]);
      if FindStopIn(head, id) == NoStop {
        SkipOthers(head, rest, id);
        TakeIsRemove(ls[1..], side, id, ls[0].price);
        TakeIsRemove(ls[1..], side, id, p);
        var t := TakeStop(ls[1..], id);
        ConsLevels(ls[0], t, side);
        EarlierCons(side, p, ls[0], t);
        assert TakeStop(ls, id)[1..] == t;
      } else {
        FoundHere(head, rest, id);
        RemovedFits(ls[0], side, id);
        var left := RemoveStopFrom(head, id);
        if left == [] {
          assert left + rest == rest;
        } else {
          var l := StopLevel(ls[0].price, left);
          ConsLevels(l, ls[1..], side);
          EarlierCons(side, p, l, ls[1..]);
          assert ([l] + ls[1..])[1..] == ls[1..];
        }
      }
    }
  }

  lemma NothingFound(id: OrderId)
    ensures RemoveStopFrom([], id) == []
  {
  }

  lemma {:induction false} RemovedMembers(ss: seq<Stop>, id: OrderId)
    ensures forall s :: s in RemoveStopFrom(ss, id) ==> s in ss
  {
    if ss != [] && ss[0].id != id {
      RemovedMembers(ss[1..], id);
      assert ss == [ss[0]] + ss[1..];
    }
  }

  lemma RemovedFits(l: StopLevel, side: Side, id: OrderId)
    requires WFStopLevel(l, side)
    ensures RemoveStopFrom(l.stops, id) != [] ==> WFStopLevel(StopLevel(l.price, RemoveStopFrom(l.stops, id)), side)
  {
    RemovedMembers(l.stops, id);
    var r := RemoveStopFrom(l.stops, id);
    forall k | 0 <= k < |r|
      ensures r[k].trigger == l.price && r[k].side == side
    {
      assert r[k] in l.stops;
    }
  }

  /** Filed by level, a side is in order of its triggers. */
  lemma {:induction false} LevelsByTrigger(ls: seq<StopLevel>, side: Side)
    requires WFLevels(ls, side)
    ensures ByTrigger(Flat(ls), side)
    ensures forall s :: s in Flat(ls) ==> ls != [] && !Sooner(side, s.trigger, ls[0].price)
  {
    if ls != [] {
      TailLevels(ls, side);
      LevelsByTrigger(ls[1..], side);
      var a, b := ls[0].stops, Flat(ls[1..]);
      forall s | s in b
        ensures Sooner(side, ls[0].price, s.trigger)
      {
        assert !Sooner(side, s.trigger, ls[1].price) && Sooner(side, ls[0].price, ls[1].price);
      }
      forall i, j | 0 <= i < j < |a + b|
        ensures if side == Ask then (a + b)[i].trigger >= (a + b)[j].trigger else (a + b)[i].trigger <= (a + b)[j].trigger
      {
        assert j >= |a| ==> (a + b)[j] in b;
        assert i >= |a| ==> (a + b)[i] == b[i - |a|] && (a + b)[j] == b[j - |a|];
      }
    }
  }

  // ----- Trigger levels -----

  /** A queue has one level for each of its different triggers. */
  lemma {:induction false} OneTrigger(a: seq<Stop>, b: seq<Stop>, p: int)
    requires a != [] && (forall k :: 0 <= k < |a| ==> a[k].trigger == p) && (b != [] ==> b[0].trigger != p)
    ensures TriggerLevels(a + b) == TriggerLevels(b) + 1
  {
    assert (a + b)[0] == a[0] && (a + b)[1..] == a[1..] + b;
    if |a| > 1 {
      assert (a + b)[1] == a[1];
      OneTrigger(a[1..], b, p);
    } else {
      assert a[1..] + b == b;
      assert |a + b| > 1 ==> (a + b)[1] == b[0];
    }
  }

  lemma {:induction false} LevelsAreTriggers(ls: seq<StopLevel>, side: Side)
    requires WFLevels(ls, side)
    ensures |ls| == TriggerLevels(Flat(ls))
  {
    if ls != [] {
      TailLevels(ls, side);
      FirstTrigger(ls[1..], side);
      LevelsAreTriggers(ls[1..], side);
      OneTrigger(ls[0].stops, Flat(ls[1..]), ls[0].price);
    }
  }

  lemma {:induction false} TriggerHasLevel(ls: seq<StopLevel>, side: Side, p: int)
    requires WFLevels(ls, side)
    ensures HasTrigger(ls, p) <==> HasStopAt(Flat(ls), p)
  {
    if ls != [] {
      TailLevels(ls, side);
      TriggerHasLevel(ls[1..], side, p);
      StopAtParts(ls[0].stops, Flat(ls[1..]), p);
      if ls[0].price == p {
        assert HasStopAt(ls[0].stops, p) by { assert ls[0].stops[0].trigger == p; }
        assert HasTrigger(ls, p);
      } else {
        HasTail(ls, p);
      }
    }
  }

  lemma StopAtParts(a: seq<Stop>, b: seq<Stop>, p: int)
    ensures HasStopAt(a + b, p) <==> HasStopAt(a, p) || HasStopAt(b, p)
  {
    if i :| 0 <= i < |a| && a[i].trigger == p {
      assert (a + b)[i].trigger == p;
    }
    if i :| 0 <= i < |b| && b[i].trigger == p {
      assert (a + b)[|a| + i].trigger == p;
    }
  }

  // ----- The index -----

  /** A stop under a new id. */
  lemma IndexAdd(index: map<OrderId, Stop>, b: Stops, s: Stop)
    requires Indexes(index, b) && s.id !in index
    ensures Indexes(index[s.id := s], b.With(s.side, AddTo(b.Of(s.side), s)))
  {
    hide SumStops;
    var b' := b.With(s.side, AddTo(b.Of(s.side), s));
    forall id
      ensures FindStop(b', id) == if id in index[s.id := s] then FoundStop(index[s.id := s][id]) else NoStop
      ensures SumBoth(b', IsStop(id)) <= 1
    {
      FindAdded(b.Of(s.side), s, id);
      AddSum(b.Of(s.side), s, IsStop(id));
      assert FindStop(b, id) == if id in index then FoundStop(index[id]) else NoStop;
      StopCount(b.sells, id);
      StopCount(b.buys, id);
    }
  }

  lemma {:induction false} FindAdded(ss: seq<Stop>, s: Stop, id: OrderId)
    ensures id != s.id ==> FindStopIn(AddTo(ss, s), id) == FindStopIn(ss, id)
    ensures id == s.id && FindStopIn(ss, id) == NoStop ==> FindStopIn(AddTo(ss, s), id) == FoundStop(s)
  {
    if ss == [] {
    } else if Sooner(s.side, s.trigger, ss[0].trigger) {
      assert ([s] + ss)[1..] == ss;
    } else {
      FindAdded(ss[1..], s, id);
      assert AddTo(ss, s)[1..] == AddTo(ss[1..], s);
    }
  }

  /** Without the stop `id` on `side`, where it was. */
  lemma IndexTake(index: map<OrderId, Stop>, b: Stops, side: Side, id: OrderId)
    requires Indexes(index, b) && FindStopIn(b.Of(side), id).FoundStop?
    ensures id in index && index[id] == FindStopIn(b.Of(side), id).stop && FindStop(b, id) == FoundStop(index[id])
    ensures Indexes(index - {id}, b.With(side, RemoveStopFrom(b.Of(side), id)))
  {
    hide SumStops;
    var b' := b.With(side, RemoveStopFrom(b.Of(side), id));
    OneSideOnly(index, b, side, id);
    forall i
      ensures FindStop(b', i) == if i in index - {id} then FoundStop((index - {id})[i]) else NoStop
      ensures SumBoth(b', IsStop(i)) <= 1
    {
      assert FindStop(b, i) == if i in index then FoundStop(index[i]) else NoStop;
      FindRemoved(b.Of(side), id, i);
      RemoveStopSum(b.Of(side), id, IsStop(i));
      StopCount(b.sells, i);
      StopCount(b.buys, i);
    }
  }

  lemma OneSideOnly(index: map<OrderId, Stop>, b: Stops, side: Side, id: OrderId)
    requires Indexes(index, b) && FindStopIn(b.Of(side), id).FoundStop?
    ensures FindStopIn(b.Of(side.Opposite()), id) == NoStop && SumStops(b.Of(side), IsStop(id)) == 1
    ensures FindStop(b, id) == FindStopIn(b.Of(side), id) && id in index && FoundStop(index[id]) == FindStop(b, id)
  {
    StopCount(b.sells, id);
    StopCount(b.buys, id);
    assert SumBoth(b, IsStop(id)) <= 1;
    assert FindStop(b, id) == if id in index then FoundStop(index[id]) else NoStop;
  }

  lemma {:induction false} FindRemoved(ss: seq<Stop>, id: OrderId, i: OrderId)
    requires SumStops(ss, IsStop(id)) <= 1
    ensures FindStopIn(RemoveStopFrom(ss, id), i) == if i == id then NoStop else FindStopIn(ss, i)
  {
    if ss != [] {
      StopCount(ss[1..], id);
      if ss[0].id == id {
      } else {
        FindRemoved(ss[1..], id, i);
        assert RemoveStopFrom(ss, id)[1..] == RemoveStopFrom(ss[1..], id);
      }
    }
  }

  // ----- Where a stop is filed and found -----

  /** `made` is `ls` with a level at trigger `p` in place `i`, new and empty unless it was there. */
  ghost predicate Opened(ls: seq<StopLevel>, made: seq<StopLevel>, side: Side, i: nat, p: int) {
    && i < |made| && made[i].price == p && (forall j :: 0 <= j < i ==> Sooner(side, made[j].price, p))
    && (made == ls
        || (i <= |ls| && made == SpliceAt(ls, i, StopLevel(p, [])) && (i < |ls| ==> Sooner(side, p, ls[i].price))))
  }

  lemma OpenedThere(ls: seq<StopLevel>, side: Side, i: nat, p: int)
    requires i < |ls| && ls[i].price == p && forall j :: 0 <= j < i ==> Sooner(side, ls[j].price, p)
    ensures Opened(ls, ls, side, i, p) && HasTrigger(ls, p)
  {
  }

  /** Between the levels that fire sooner and those that fire later there is none at `p` yet. */
  lemma Between(ls: seq<StopLevel>, side: Side, i: nat, p: int)
    requires forall j, k :: 0 <= j < k < |ls| ==> Sooner(side, ls[j].price, ls[k].price)
    requires i <= |ls| && forall j :: 0 <= j < i ==> Sooner(side, ls[j].price, p)
    requires i < |ls| ==> !Sooner(side, ls[i].price, p) && ls[i].price != p
    ensures !HasTrigger(ls, p) && (i < |ls| ==> Sooner(side, p, ls[i].price))
    ensures Opened(ls, SpliceAt(ls, i, StopLevel(p, [])), side, i, p)
  {
  }

  lemma OpenedAt(ls: seq<StopLevel>, made: seq<StopLevel>, side: Side, i: nat, p: int)
    requires Opened(ls, made, side, i, p)
    ensures i < |made| && made[i].price == p && WithStops(made, i, StopsAt(made, i)) == made
  {
  }

  /** Appending to that level is putting the stop where it belongs. */
  lemma {:induction false} PutOpened(ls: seq<StopLevel>, made: seq<StopLevel>, i: nat, s: Stop)
    requires Opened(ls, made, s.side, i, s.trigger)
    ensures PutStop(ls, s) == made[i := StopLevel(s.trigger, made[i].stops + [s])]
  {
    if i == 0 {
      assert [] + [s] == [s];
      var l := StopLevel(s.trigger, made[0].stops + [s]);
      assert made[0 := l] == [l] + made[1..];
      assert made != ls ==> made[1..] == ls;
    } else {
      assert made[0] == ls[0];
      assert made != ls ==> made[1..] == SpliceAt(ls[1..], i - 1, StopLevel(s.trigger, []));
      assert Sooner(s.side, made[0].price, s.trigger);
      PutOpened(ls[1..], made[1..], i - 1, s);
    }
  }

  /** `id` is that of the `k`-th stop of level `i`. */
  predicate FiledAt(ls: seq<StopLevel>, i: nat, k: nat, id: OrderId) {
    i < |ls| && k < |ls[i].stops| && ls[i].stops[k].id == id
  }

  lemma {:induction false} FiledCount(ls: seq<StopLevel>, i: nat, k: nat, id: OrderId)
    requires FiledAt(ls, i, k, id)
    ensures SumStops(Flat(ls), IsStop(id)) > 0
  {
    SumStopsConcat(ls[0].stops, Flat(ls[1..]), IsStop(id));
    StopCount(ls[0].stops, id);
    StopCount(Flat(ls[1..]), id);
    if i == 0 {
      assert ls[0].stops[k] in ls[0].stops;
    } else {
      FiledCount(ls[1..], i - 1, k, id);
    }
  }

  lemma {:induction false} RemoveAt(ss: seq<Stop>, k: nat, id: OrderId)
    requires k < |ss| && ss[k].id == id && SumStops(ss, IsStop(id)) <= 1
    ensures RemoveStopFrom(ss, id) == DropAt(ss, k) && FindStopIn(ss, id) == FoundStop(ss[k])
  {
    hide DropAt;
    StopCount(ss[1..], id);
    if k == 0 {
      DropFirst(ss);
    } else {
      assert ss[1..][k - 1] in ss[1..];
      RemoveAt(ss[1..], k - 1, id);
      DropLater(ss, k);
    }
  }

  /** Without the `k`-th stop of level `i`, and without the level when that was all. */
  function Without(ls: seq<StopLevel>, i: nat, k: nat): seq<StopLevel> {
    if |StopsAt(ls, i)| == 1 then DropAt(ls, i) else WithStops(ls, i, DropAt(StopsAt(ls, i), k))
  }

  /** Taking the one stop `id` from where it is filed, its level with it when it was alone there. */
  lemma {:induction false} TakeFiled(ls: seq<StopLevel>, i: nat, k: nat, id: OrderId)
    requires FiledAt(ls, i, k, id) && SumStops(Flat(ls), IsStop(id)) <= 1
    ensures TakeStop(ls, id) == Without(ls, i, k)
    ensures FindStopIn(Flat(ls), id) == FoundStop(ls[i].stops[k])
  {
    hide SumStops, DropAt, RemoveStopFrom;
    SumStopsConcat(ls[0].stops, Flat(ls[1..]), IsStop(id));
    StopCount(ls[0].stops, id);
    StopCount(Flat(ls[1..]), id);
    if i == 0 {
      RemoveAt(ls[0].stops, k, id);
      FoundHere(ls[0].stops, Flat(ls[1..]), id);
      LeftOver(ls[0].stops, k);
      DropFirst(ls);
      assert ls[0 := StopLevel(ls[0].price, DropAt(ls[0].stops, k))] == [StopLevel(ls[0].price, DropAt(ls[0].stops, k))] + ls[1..];
    } else {
      FiledCount(ls[1..], i - 1, k, id);
      SkipOthers(ls[0].stops, Flat(ls[1..]), id);
      TakeFiled(ls[1..], i - 1, k, id);
      DropLater(ls, i);
      var l := StopLevel(ls[i].price, DropAt(ls[i].stops, k));
      assert ls[i := l] == [ls[0]] + ls[1..][i - 1 := l];
    }
  }

  lemma LeftOver(ss: seq<Stop>, k: nat)
    requires k < |ss|
    ensures DropAt(ss, k) == [] <==> |ss| == 1
  {
    assert |DropAt(ss, k)| == |ss| - 1;
  }

  function StopsAt(ls: seq<StopLevel>, i: nat): seq<Stop> {
    if i < |ls| then ls[i].stops else []
  }

  /** Level `i` with another queue. */
  function WithStops(ls: seq<StopLevel>, i: nat, ss: seq<Stop>): seq<StopLevel> {
    if i < |ls| then ls[i := StopLevel(ls[i].price, ss)] else ls
  }

  /** A stop book as values: trees in order, and an index that lists what they hold. */
  ghost predicate WFFiling(v: Filing, entries: map<OrderId, Stop>) {
    && WFLevels(v.sells, Ask) && WFLevels(v.buys, Bid) && Indexes(entries, v.All())
    && SumBoth(v.All(), OneStop) == |entries|
  }

  /** A new stop is filed. */
  lemma FilingAdd(v: Filing, entries: map<OrderId, Stop>, s: Stop)
    requires WFFiling(v, entries) && s.id !in entries
    ensures var v' := v.With(s.side, PutStop(v.Of(s.side), s));
      WFFiling(v', entries[s.id := s]) && v'.All() == v.All().With(s.side, AddTo(v.All().Of(s.side), s))
  {
    hide WFLevels, Indexes, SumStops, Flat, AddTo, PutStop;
    PutWF(v.Of(s.side), s, 0);
    PutIsAdd(v.Of(s.side), s);
    IndexAdd(entries, v.All(), s);
    AddSum(v.All().Of(s.side), s, OneStop);
  }

  /** A filed stop is taken out. */
  lemma FilingTake(v: Filing, entries: map<OrderId, Stop>, side: Side, i: nat, k: nat, id: OrderId)
    requires WFFiling(v, entries) && FiledAt(v.Of(side), i, k, id)
    ensures id in entries && entries[id] == v.Of(side)[i].stops[k] && entries[id].side == side
    ensures FindStop(v.All(), id) == FoundStop(entries[id])
    ensures SumStops(v.All().Of(side), IsStop(id)) <= 1
    ensures var v' := v.With(side, TakeStop(v.Of(side), id)); WFFiling(v', entries - {id}) && v'.All() == RemoveStop(v.All(), id)
  {
    hide WFLevels, Indexes, SumStops, Flat, TakeStop, RemoveStopFrom, FindStopIn, FiledAt;
    OnceOnly(entries, v.All(), side, id);
    TakeFiled(v.Of(side), i, k, id);
    TakeIsRemove(v.Of(side), side, id, 0);
    FlatSide(v.Of(side), side, id);
    IndexTake(entries, v.All(), side, id);
    RemoveStopSum(v.All().Of(side), id, OneStop);
  }

  lemma OnceOnly(entries: map<OrderId, Stop>, b: Stops, side: Side, id: OrderId)
    requires Indexes(entries, b)
    ensures SumStops(b.Of(side), IsStop(id)) <= 1
  {
    assert SumBoth(b, IsStop(id)) <= 1;
    StopCount(b.sells, id);
    StopCount(b.buys, id);
  }

  /** The index finds what a search of the queues finds. */
  lemma FilingFind(v: Filing, entries: map<OrderId, Stop>, id: OrderId)
    requires WFFiling(v, entries)
    ensures FindStop(v.All(), id) == if id in entries then FoundStop(entries[id]) else NoStop
  {
  }

  /** Past its expiry time; zero means none. */
  predicate StopExpired(s: Stop, now: int) {
    0 < s.expireAt <= now
  }

  /** Among the entries looked at, `ids` are those past their expiry, each once. */
  ghost predicate Overdue(entries: map<OrderId, Stop>, ids: seq<OrderId>, todo: set<OrderId>, now: int) {
    && (forall j :: 0 <= j < |ids| ==> ids[j] in entries && ids[j] !in todo)
    && (forall i, j :: 0 <= i < j < |ids| ==> ids[i] != ids[j])
    && (forall id :: id in entries && id !in todo ==> (id in ids <==> StopExpired(entries[id], now)))
  }

  lemma OverdueNone(entries: map<OrderId, Stop>, now: int)
    ensures Overdue(entries, [], entries.Keys, now)
  {
  }

  lemma OverdueStep(entries: map<OrderId, Stop>, ids: seq<OrderId>, todo: set<OrderId>, now: int, id: OrderId)
    requires Overdue(entries, ids, todo, now) && id in todo && id in entries
    ensures Overdue(entries, if StopExpired(entries[id], now) then ids + [id] else ids, todo - {id}, now)
  {
  }

  lemma OverdueIds(entries: map<OrderId, Stop>, ids: seq<OrderId>, now: int)
    requires Overdue(entries, ids, {}, now)
    ensures forall i, j :: 0 <= i < j < |ids| ==> ids[i] != ids[j]
    ensures forall j :: 0 <= j < |ids| ==> ids[j] in entries && StopExpired(entries[ids[j]], now)
    ensures forall id :: id in entries && StopExpired(entries[id], now) ==> id in ids
  {
    forall j | 0 <= j < |ids|
      ensures ids[j] in entries && StopExpired(entries[ids[j]], now)
    {
      assert ids[j] in ids;
    }
  }

  lemma FlatHead(ls: seq<StopLevel>)
    requires ls != []
    ensures Flat(ls) == ls[0].stops + Flat(ls[1..])
  {
  }

  /** The first of a run of stops leaves the index and the flat order. */
  lemma DrainOne(index: map<OrderId, Stop>, b: Stops, side: Side, head: seq<Stop>, rest: seq<Stop>)
    requires Indexes(index, b) && head != [] && b.Of(side) == head + rest
    ensures Indexes(index - {head[0].id}, b.With(side, head[1..] + rest))
    ensures SumBoth(b.With(side, head[1..] + rest), OneStop) == SumBoth(b, OneStop) - 1
  {
    hide Indexes, SumStops;
    var s := head[0];
    assert (head + rest)[0] == s && (head + rest)[1..] == head[1..] + rest;
    assert FindStopIn(head + rest, s.id) == FoundStop(s) && RemoveStopFrom(head + rest, s.id) == head[1..] + rest;
    IndexTake(index, b, side, s.id);
    RemoveStopSum(head + rest, s.id, OneStop);
  }

  /** The index without a run of stops. */
  function Drained(index: map<OrderId, Stop>, ss: seq<Stop>): map<OrderId, Stop> {
    if ss == [] then index else Drained(index - {ss[0].id}, ss[1..])
  }

  lemma DrainedStep(index: map<OrderId, Stop>, ss: seq<Stop>, j: nat)
    requires j < |ss|
    ensures Drained(index, ss[j..]) == Drained(index - {ss[j].id}, ss[j + 1..])
  {
    assert ss[j..][1..] == ss[j + 1..];
  }

  lemma {:induction false} DrainRun(index: map<OrderId, Stop>, b: Stops, side: Side, head: seq<Stop>, rest: seq<Stop>)
    requires Indexes(index, b) && b.Of(side) == head + rest
    ensures Indexes(Drained(index, head), b.With(side, rest))
    ensures SumBoth(b.With(side, rest), OneStop) == SumBoth(b, OneStop) - |head|
    ensures |Drained(index, head)| == |index| - |head|
    decreases |head|
  {
    hide Indexes, SumStops;
    if head == [] {
      assert head + rest == rest;
    } else {
      DrainOne(index, b, side, head, rest);
      DrainRun(index - {head[0].id}, b.With(side, head[1..] + rest), side, head[1..], rest);
      DrainedOne(index, b, side, head, rest);
    }
  }

  lemma DrainedOne(index: map<OrderId, Stop>, b: Stops, side: Side, head: seq<Stop>, rest: seq<Stop>)
    requires Indexes(index, b) && head != [] && b.Of(side) == head + rest
    ensures |index - {head[0].id}| == |index| - 1
  {
    hide Indexes, SumStops;
    var id := head[0].id;
    assert FindStopIn(head + rest, id) == FoundStop(head[0]);
    IndexTake(index, b, side, id);
    assert (index - {id}).Keys == index.Keys - {id};
  }

  /** The best level fires. */
  lemma FilingFire(v: Filing, entries: map<OrderId, Stop>, side: Side)
    requires WFFiling(v, entries) && v.Of(side) != []
    ensures WFFiling(v.With(side, v.Of(side)[1..]), Drained(entries, v.Of(side)[0].stops))
  {
    hide WFLevels, Indexes, SumStops, Flat;
    TailLevels(v.Of(side), side);
    FlatHead(v.Of(side));
    DrainRun(entries, v.All(), side, v.Of(side)[0].stops, Flat(v.Of(side)[1..]));
  }

  /** A level whose trigger is met fires as a whole, behind what fired before. */
  lemma LevelFires(ls: seq<StopLevel>, side: Side, price: int, before: seq<Stop>)
    requires WFLevels(ls, side) && ls != [] && Hit(side, ls[0].price, price)
    ensures before + Fired(Flat(ls), side, price) == (before + ls[0].stops) + Fired(Flat(ls[1..]), side, price)
    ensures Unfired(Flat(ls), side, price) == Unfired(Flat(ls[1..]), side, price)
  {
    FiredLevel(ls[0].stops, Flat(ls[1..]), side, price);
    var f := Fired(Flat(ls[1..]), side, price);
    assert before + (ls[0].stops + f) == (before + ls[0].stops) + f;
  }

  /** When the best level's trigger is not met, nothing fires. */
  lemma NoneFires(ls: seq<StopLevel>, side: Side, price: int)
    requires WFLevels(ls, side) && (ls == [] || !Hit(side, ls[0].price, price))
    ensures Fired(Flat(ls), side, price) == [] && Unfired(Flat(ls), side, price) == Flat(ls)
  {
    FirstTrigger(ls, side);
  }

  lemma {:induction false} FlatSide(ls: seq<StopLevel>, side: Side, id: OrderId)
    requires WFLevels(ls, side) && FindStopIn(Flat(ls), id).FoundStop?
    ensures FindStopIn(Flat(ls), id).stop.side == side
  {
    TailLevels(ls, side);
    StopCount(ls[0].stops, id);
    if FindStopIn(ls[0].stops, id) == NoStop {
      SkipOthers(ls[0].stops, Flat(ls[1..]), id);
      FlatSide(ls[1..], side, id);
    } else {
      FoundHere(ls[0].stops, Flat(ls[1..]), id);
      var s := FindStopIn(ls[0].stops, id).stop;
      assert s in ls[0].stops;
    }
  }

  /** In terms of prices: what fires is what is due. */
  lemma FilingDue(v: Filing, price: int)
    requires WFLevels(v.sells, Ask) && WFLevels(v.buys, Bid)
    ensures forall s :: s in AllFired(v.All(), price) <==>
              (s in v.All().sells && s.trigger >= price) || (s in v.All().buys && s.trigger <= price)
  {
    hide WFLevels, Flat, Fired;
    LevelsByTrigger(v.sells, Ask);
    LevelsByTrigger(v.buys, Bid);
    FiredAreDue(Flat(v.sells), Ask, price);
    FiredAreDue(Flat(v.buys), Bid, price);
  }
}
