/** Resting and removing orders keep a book well-formed. */
module BookLemmas {
  import opened Domain
  import opened BookSpec

  /** A later clock bounds whatever an earlier one did. */
  lemma LaterClock(ls: seq<Level>, side: Side, clock: nat, later: nat)
    requires WFSide(ls, side, clock) && clock <= later
    ensures WFSide(ls, side, later)
  {
  }

  /** `p` is strictly better than every level of `ls`. */
  ghost predicate Ahead(side: Side, p: int, ls: seq<Level>) {
    forall i :: 0 <= i < |ls| ==> Better(side, p, ls[i].price)
  }

  lemma ConsWF(l: Level, ls: seq<Level>, side: Side, clock: nat)
    requires WFLevel(l, side, clock) && WFSide(ls, side, clock) && Ahead(side, l.price, ls)
    ensures WFSide([l] + ls, side, clock)
  {
    var r := [l] + ls;
    forall i, j | 0 <= i < j < |r|
      ensures Better(side, r[i].price, r[j].price)
    {
      assert r[j] == ls[j - 1];
      if i > 0 {
        assert r[i] == ls[i - 1];
      }
    }
  }

  lemma TailWF(ls: seq<Level>, side: Side, clock: nat)
    requires WFSide(ls, side, clock) && ls != []
    ensures WFSide(ls[1..], side, clock) && Ahead(side, ls[0].price, ls[1..])
  {
  }

  /** Resting an order of any number keeps a side sound. */
  lemma {:induction false} InsertSound(ls: seq<Level>, o: Order, side: Side)
    requires SoundSide(ls, side) && WFOrder(o) && o.side == side
    ensures SoundSide(Insert(ls, o), side)
    ensures forall p :: Ahead(side, p, ls) && Better(side, p, o.price) ==> Ahead(side, p, Insert(ls, o))
  {
    if ls == [] {
    } else if ls[0].price == o.price {
      ConsSound(Level(o.price, ls[0].orders + [o]), ls[1..], side);
    } else if Better(o.side, o.price, ls[0].price) {
      ConsSound(Level(o.price, [o]), ls, side);
    } else {
      InsertSound(ls[1..], o, side);
      ConsSound(ls[0], Insert(ls[1..], o), side);
    }
  }

  lemma ConsSound(l: Level, ls: seq<Level>, side: Side)
    requires SoundLevel(l, side) && SoundSide(ls, side) && Ahead(side, l.price, ls)
    ensures SoundSide([l] + ls, side)
  {
    var r := [l] + ls;
    forall i, j | 0 <= i < j < |r|
      ensures Better(side, r[i].price, r[j].price)
    {
      assert r[j] == ls[j - 1];
      if i > 0 {
        assert r[i] == ls[i - 1];
      }
    }
  }

  /** Everything resting at this price is older than `seqNum`. */
  ghost predicate OlderAt(ls: seq<Level>, price: int, seqNum: int) {
    forall i, k :: 0 <= i < |ls| && ls[i].price == price && 0 <= k < |ls[i].orders| ==> ls[i].orders[k].seqNum < seqNum
  }

  /** An order newer than everything at its price rests in sorted position, last in its level. */
  lemma {:induction false} InsertInTime(ls: seq<Level>, o: Order, side: Side, clock: nat)
    requires WFSide(ls, side, clock) && WFOrder(o) && o.side == side && o.seqNum <= clock && OlderAt(ls, o.price, o.seqNum)
    ensures WFSide(Insert(ls, o), side, clock)
    ensures forall p :: Ahead(side, p, ls) && Better(side, p, o.price) ==> Ahead(side, p, Insert(ls, o))
    ensures Insert(ls, o) != []
  {
    if ls == [] {
    } else if ls[0].price == o.price {
      TailWF(ls, side, clock);
      ConsWF(Level(o.price, ls[0].orders + [o]), ls[1..], side, clock);
    } else if Better(o.side, o.price, ls[0].price) {
      ConsWF(Level(o.price, [o]), ls, side, clock);
    } else {
      TailWF(ls, side, clock);
      InsertInTime(ls[1..], o, side, clock);
      ConsWF(ls[0], Insert(ls[1..], o), side, clock);
    }
  }

  /** ... in particular one newer than everything on its side. */
  lemma InsertWF(ls: seq<Level>, o: Order, side: Side, clock: nat, later: nat)
    requires WFSide(ls, side, clock) && WFOrder(o) && o.side == side && clock < o.seqNum <= later
    ensures WFSide(Insert(ls, o), side, later)
  {
    LaterClock(ls, side, clock, later);
    InsertInTime(ls, o, side, later);
  }

  /** Sums over a side grow by exactly the order that rests. */
  lemma {:induction false} InsertSum(ls: seq<Level>, o: Order, f: Order -> int)
    ensures SumLevels(Insert(ls, o), f) == SumLevels(ls, f) + f(o)
  {
    if ls == [] {
    } else if ls[0].price == o.price {
      SumOfConcat(ls[0].orders, [o], f);
      assert Insert(ls, o)[1..] == ls[1..];
    } else if Better(o.side, o.price, ls[0].price) {
      assert Insert(ls, o)[1..] == ls;
    } else {
      InsertSum(ls[1..], o, f);
      assert Insert(ls, o)[1..] == Insert(ls[1..], o);
    }
  }

  /** The first place of an id in a queue, where a removal acts. */
  lemma {:induction false} FirstAt(os: seq<Order>, id: OrderId) returns (k: nat)
    ensures k < |os| ==> FindFrom(os, id) == Found(os[k]) && RemoveFrom(os, id) == DropAt(os, k)
    ensures k >= |os| ==> FindFrom(os, id) == Missing && RemoveFrom(os, id) == os
  {
    if os == [] {
      k := 0;
    } else if os[0].id == id {
      k := 0;
      DropFirst(os);
    } else {
      k := FirstAt(os[1..], id);
      k := k + 1;
      if k < |os| {
        DropLater(os, k);
      }
    }
  }

  lemma DropWF(os: seq<Order>, k: nat, price: int, side: Side, clock: nat)
    requires WFLevel(Level(price, os), side, clock) && k < |os|
    ensures DropAt(os, k) != [] ==> WFLevel(Level(price, DropAt(os, k)), side, clock)
  {
    var r := DropAt(os, k);
    assert |r| == |os| - 1 && forall j :: 0 <= j < |r| ==> r[j] == os[if j < k then j else j + 1];
  }

  lemma RemoveFromWF(os: seq<Order>, id: OrderId, price: int, side: Side, clock: nat)
    requires WFLevel(Level(price, os), side, clock)
    ensures RemoveFrom(os, id) != [] ==> WFLevel(Level(price, RemoveFrom(os, id)), side, clock)
  {
    var k := FirstAt(os, id);
    if k < |os| {
      DropWF(os, k, price, side, clock);
    }
  }

  lemma {:induction false} RemoveFromSum(os: seq<Order>, id: OrderId, f: Order -> int)
    ensures SumOf(RemoveFrom(os, id), f) == SumOf(os, f) - match FindFrom(os, id) case Missing => 0 case Found(o) => f(o)
  {
    if os != [] && os[0].id != id {
      RemoveFromSum(os[1..], id, f);
      assert RemoveFrom(os, id)[1..] == RemoveFrom(os[1..], id);
    }
  }

  lemma {:induction false} RemoveWF(ls: seq<Level>, id: OrderId, side: Side, clock: nat)
    requires WFSide(ls, side, clock)
    ensures WFSide(Remove(ls, id), side, clock)
    ensures forall p :: Ahead(side, p, ls) ==> Ahead(side, p, Remove(ls, id))
  {
    if ls != [] {
      TailWF(ls, side, clock);
      if FindFrom(ls[0].orders, id).Found? {
        RemoveFromWF(ls[0].orders, id, ls[0].price, side, clock);
        var os := RemoveFrom(ls[0].orders, id);
        if os != [] {
          ConsWF(Level(ls[0].price, os), ls[1..], side, clock);
        }
      } else {
        RemoveWF(ls[1..], id, side, clock);
        ConsWF(ls[0], Remove(ls[1..], id), side, clock);
      }
    }
  }

  /** Removing an order by id takes exactly what it contributed from every sum. */
  lemma {:induction false} RemoveSum(ls: seq<Level>, id: OrderId, f: Order -> int)
    ensures SumLevels(Remove(ls, id), f) == SumLevels(ls, f) - match FindIn(ls, id) case Missing => 0 case Found(o) => f(o)
  {
    if ls != [] {
      RemoveFromSum(ls[0].orders, id, f);
      if FindFrom(ls[0].orders, id).Found? {
        var os := RemoveFrom(ls[0].orders, id);
        if os != [] {
          assert Remove(ls, id)[1..] == ls[1..];
        }
      } else {
        RemoveSum(ls[1..], id, f);
        assert Remove(ls, id)[1..] == Remove(ls[1..], id);
      }
    }
  }

  // ----- Finding after a removal -----

  lemma {:induction false} FindFromOther(os: seq<Order>, i: OrderId, id: OrderId)
    requires i != id
    ensures FindFrom(RemoveFrom(os, i), id) == FindFrom(os, id)
  {
    if os != [] && os[0].id != i {
      FindFromOther(os[1..], i, id);
      assert RemoveFrom(os, i)[1..] == RemoveFrom(os[1..], i);
    }
  }

  lemma {:induction false} FindInOther(ls: seq<Level>, i: OrderId, id: OrderId)
    requires i != id
    ensures FindIn(Remove(ls, i), id) == FindIn(ls, id)
  {
    if ls != [] {
      if FindFrom(ls[0].orders, i).Found? {
        FindFromOther(ls[0].orders, i, id);
        var os := RemoveFrom(ls[0].orders, i);
        if os != [] {
          assert Remove(ls, i)[1..] == ls[1..];
        }
      } else {
        FindInOther(ls[1..], i, id);
        assert Remove(ls, i)[1..] == Remove(ls[1..], i);
      }
    }
  }

  /** Taking one order off does not change what is found under another id. */
  lemma FindOther(b: Book, i: OrderId, id: OrderId)
    requires i != id
    ensures Find(RemoveId(b, i), id) == Find(b, id)
  {
    FindInOther(b.bids, i, id);
    FindInOther(b.asks, i, id);
  }
}
