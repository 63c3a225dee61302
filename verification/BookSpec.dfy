/** The order book as a value: each side is a sequence of price levels, best first, and each level
    a FIFO queue of orders, oldest first. */
module BookSpec {
  import opened Domain

  datatype Level = Level(price: int, orders: seq<Order>)

  /** Best-first levels of both sides. */
  datatype Book = Book(bids: seq<Level>, asks: seq<Level>) {
    function Of(side: Side): seq<Level> {
      if side == Bid then bids else asks
    }

    function With(side: Side, levels: seq<Level>): Book {
      if side == Bid then this.(bids := levels) else this.(asks := levels)
    }
  }

  const EMPTY_BOOK := Book([], [])

  function SumLevels(ls: seq<Level>, f: Order -> int): int {
    if ls == [] then 0 else SumOf(ls[0].orders, f) + SumLevels(ls[1..], f)
  }

  function SumBook(b: Book, f: Order -> int): int {
    SumLevels(b.bids, f) + SumLevels(b.asks, f)
  }

  // ----- Well-formedness -----

  /** What the book relies on for every resting order: a positive slice that is fully displayed,
      and a reserve only together with a lot to replenish from it. */
  ghost predicate WFOrder(o: Order) {
    o.remain > 0 && o.display >= o.remain && o.hidden >= 0 && (o.hidden > 0 ==> o.origDisplay > 0)
  }

  /** A level as matching needs it: not empty, its orders well-formed, of its side and its price. */
  ghost predicate SoundLevel(l: Level, side: Side) {
    l.orders != [] && forall i :: 0 <= i < |l.orders| ==> WFOrder(l.orders[i]) && l.orders[i].side == side && l.orders[i].price == l.price
  }

  /** Time priority: sequence numbers strictly increase from head to tail, none ahead of the `clock`. */
  ghost predicate InTime(os: seq<Order>, clock: nat) {
    && (forall i :: 0 <= i < |os| ==> os[i].seqNum <= clock)
    && (forall i, j :: 0 <= i < j < |os| ==> os[i].seqNum < os[j].seqNum)
  }

  ghost predicate WFLevel(l: Level, side: Side, clock: nat) {
    SoundLevel(l, side) && InTime(l.orders, clock)
  }

  /** Levels are strictly sorted best first, and sound. */
  ghost predicate SoundSide(ls: seq<Level>, side: Side) {
    SortedLevels(ls, side) && forall i :: 0 <= i < |ls| ==> SoundLevel(ls[i], side)
  }

  /** ... and in time priority, too. */
  ghost predicate WFSide(ls: seq<Level>, side: Side, clock: nat) {
    SortedLevels(ls, side) && forall i :: 0 <= i < |ls| ==> WFLevel(ls[i], side, clock)
  }

  /** Strictly best first. */
  ghost predicate SortedLevels(ls: seq<Level>, side: Side) {
    forall i, j :: 0 <= i < j < |ls| ==> Better(side, ls[i].price, ls[j].price)
  }

  ghost predicate WFBook(b: Book, clock: nat) {
    WFSide(b.bids, Bid, clock) && WFSide(b.asks, Ask, clock)
  }

  ghost predicate SoundBook(b: Book) {
    SoundSide(b.bids, Bid) && SoundSide(b.asks, Ask)
  }

  lemma WFSound(b: Book, clock: nat)
    requires WFBook(b, clock)
    ensures SoundBook(b)
  {
  }

  /** Best bid strictly below best ask. */
  predicate Uncrossed(b: Book) {
    b.bids != [] && b.asks != [] ==> b.bids[0].price < b.asks[0].price
  }

  /** A limit at `price` would fill at once. */
  predicate WouldCross(b: Book, side: Side, price: int) {
    if side == Bid then b.asks != [] && price >= b.asks[0].price else b.bids != [] && price <= b.bids[0].price
  }

  // ----- Depth -----

  function Info(os: seq<Order>): LevelInfo {
    if os == [] then NoLevel else LevelInfo(SumOf(os, RemainOf), SumOf(os, DisplayOf), |os|)
  }

  /** The public state of the level at `price`, as LevelInfo reports it. */
  function InfoAt(ls: seq<Level>, price: int): LevelInfo {
    if ls == [] then NoLevel else if ls[0].price == price then Info(ls[0].orders) else InfoAt(ls[1..], price)
  }

  predicate HasLevel(ls: seq<Level>, price: int) {
    exists i :: 0 <= i < |ls| && ls[i].price == price
  }

  // ----- Resting and removing orders -----

  /** Append `o` at the tail of its own price level, creating the level in sorted position. */
  function Insert(ls: seq<Level>, o: Order): seq<Level> {
    if ls == [] then [Level(o.price, [o])]
    else if ls[0].price == o.price then [Level(o.price, ls[0].orders + [o])] + ls[1..]
    else if Better(o.side, o.price, ls[0].price) then [Level(o.price, [o])] + ls
    else [ls[0]] + Insert(ls[1..], o)
  }

  datatype Found = Missing | Found(order: Order)

  function FindFrom(os: seq<Order>, id: OrderId): Found {
    if os == [] then Missing else if os[0].id == id then Found(os[0]) else FindFrom(os[1..], id)
  }

  function FindIn(ls: seq<Level>, id: OrderId): Found {
    if ls == [] then Missing
    else var f := FindFrom(ls[0].orders, id); if f.Found? then f else FindIn(ls[1..], id)
  }

  /** The resting order with this id, as the index finds it. */
  function Find(b: Book, id: OrderId): Found {
    var f := FindIn(b.bids, id);
    if f.Found? then f else FindIn(b.asks, id)
  }

  function RemoveFrom(os: seq<Order>, id: OrderId): seq<Order> {
    if os == [] then [] else if os[0].id == id then os[1..] else [os[0]] + RemoveFrom(os[1..], id)
  }

  /** Drop the order `id`, and its level with it when nothing else rests there. */
  function Remove(ls: seq<Level>, id: OrderId): seq<Level> {
    if ls == [] then []
    else if FindFrom(ls[0].orders, id).Found? then
      var os := RemoveFrom(ls[0].orders, id);
      if os == [] then ls[1..] else [Level(ls[0].price, os)] + ls[1..]
    else [ls[0]] + Remove(ls[1..], id)
  }

  /** The book without the order `id`. */
  function RemoveId(b: Book, id: OrderId): Book {
    match Find(b, id)
    case Missing => b
    case Found(o) => b.With(o.side, Remove(b.Of(o.side), id))
  }

  /** The book without the orders `ids`, taken off one after the other. */
  function RemoveAll(b: Book, ids: seq<OrderId>): Book {
    if ids == [] then b else RemoveId(RemoveAll(b, ids[..|ids| - 1]), ids[|ids| - 1])
  }

  /** Past its expiry time; zero means none. */
  predicate Expired(o: Order, now: int) {
    0 < o.expireAt <= now
  }

  /** Of the entries already visited, exactly the expired ones were taken, each once. */
  ghost predicate Swept(was: map<OrderId, Order>, ids: seq<OrderId>, todo: set<OrderId>, now: int) {
    && (forall j :: 0 <= j < |ids| ==> ids[j] in was && ids[j] !in todo)
    && (forall i, j :: 0 <= i < j < |ids| ==> ids[i] != ids[j])
    && (forall id :: id in was && id !in todo ==> (id in ids <==> Expired(was[id], now)))
  }

  lemma SweptNone(was: map<OrderId, Order>, todo: set<OrderId>, now: int)
    requires todo == was.Keys
    ensures Swept(was, [], todo, now)
  {
  }

  lemma SweptStep(was: map<OrderId, Order>, ids: seq<OrderId>, todo: set<OrderId>, now: int, id: OrderId)
    requires Swept(was, ids, todo, now) && id in todo && id in was
    ensures Swept(was, if Expired(was[id], now) then ids + [id] else ids, todo - {id}, now)
  {
  }

  // ----- Positional edits, total so that contracts can use them freely -----

  function QueueAt(ls: seq<Level>, i: nat): seq<Order> {
    if i < |ls| then ls[i].orders else []
  }

  function WithQueue(ls: seq<Level>, i: nat, os: seq<Order>): seq<Level> {
    if i < |ls| then ls[i := Level(ls[i].price, os)] else ls
  }

  lemma {:induction false} WithQueueSum(ls: seq<Level>, i: nat, os: seq<Order>, f: Order -> int)
    requires i < |ls|
    ensures SumLevels(WithQueue(ls, i, os), f) == SumLevels(ls, f) - SumOf(ls[i].orders, f) + SumOf(os, f)
  {
    if i > 0 {
      assert WithQueue(ls, i, os)[1..] == WithQueue(ls[1..], i - 1, os);
      WithQueueSum(ls[1..], i - 1, os, f);
    } else {
      assert WithQueue(ls, i, os)[1..] == ls[1..];
    }
  }

  lemma {:induction false} DropEmptySum(ls: seq<Level>, i: nat, f: Order -> int)
    requires i < |ls| && ls[i].orders == []
    ensures SumLevels(DropAt(ls, i), f) == SumLevels(ls, f)
  {
    if i > 0 {
      assert DropAt(ls, i)[1..] == DropAt(ls[1..], i - 1);
      DropEmptySum(ls[1..], i - 1, f);
    } else {
      assert DropAt(ls, i) == ls[1..];
    }
  }

  function SpliceAt<T>(ls: seq<T>, i: nat, l: T): seq<T> {
    if i <= |ls| then ls[..i] + [l] + ls[i..] else ls
  }

  lemma {:induction false} SpliceEmptySum(ls: seq<Level>, i: nat, price: int, f: Order -> int)
    requires i <= |ls|
    ensures SumLevels(SpliceAt(ls, i, Level(price, [])), f) == SumLevels(ls, f)
  {
    var l := Level(price, []);
    if i > 0 {
      assert SpliceAt(ls, i, l)[0] == ls[0];
      assert SpliceAt(ls, i, l)[1..] == SpliceAt(ls[1..], i - 1, l);
      SpliceEmptySum(ls[1..], i - 1, price, f);
    } else {
      assert SpliceAt(ls, 0, l)[1..] == ls;
    }
  }

  /** `made` is `ls` with a level at `price` in place `i`, new and empty unless it was there. */
  ghost predicate MadeAt(ls: seq<Level>, made: seq<Level>, side: Side, i: nat, price: int) {
    && i < |made| && made[i].price == price && SortedLevels(made, side)
    && (made == ls || (i <= |ls| && made == SpliceAt(ls, i, Level(price, []))))
  }

  lemma MadeTail(ls: seq<Level>, made: seq<Level>, side: Side, i: nat, price: int)
    requires MadeAt(ls, made, side, i, price) && i > 0
    ensures ls != [] && made[0] == ls[0] && Better(side, ls[0].price, price) && MadeAt(ls[1..], made[1..], side, i - 1, price)
  {
    assert made != ls ==> made[1..] == SpliceAt(ls[1..], i - 1, Level(price, []));
  }

  /** Finding or creating the level and appending there is inserting. */
  lemma {:induction false} InsertMade(ls: seq<Level>, made: seq<Level>, i: nat, o: Order)
    requires MadeAt(ls, made, o.side, i, o.price)
    ensures Insert(ls, o) == WithQueue(made, i, QueueAt(made, i) + [o])
  {
    if i == 0 {
      assert [] + [o] == [o];
      var l := Level(o.price, made[0].orders + [o]);
      assert made[0 := l] == [l] + made[1..];
      assert made != ls ==> made[1..] == ls;
      assert made != ls && ls != [] ==> made[1] == ls[0];
    } else {
      MadeTail(ls, made, o.side, i, o.price);
      InsertMade(ls[1..], made[1..], i - 1, o);
      hide MadeAt;
      var l := Level(o.price, made[i].orders + [o]);
      assert made[i := l] == [made[0]] + made[1..][i - 1 := l];
    }
  }

  function Tail(os: seq<Order>): seq<Order> {
    if os == [] then [] else os[1..]
  }

  function PutAt(os: seq<Order>, k: nat, o: Order): seq<Order> {
    if k < |os| then os[k := o] else os
  }

  function DropAt<T>(os: seq<T>, k: nat): seq<T> {
    if k < |os| then os[..k] + os[k + 1..] else os
  }

  /** Without one member, a list of different things is one still, and has the others. */
  lemma StillDistinct<T>(s: seq<T>, k: nat)
    requires k < |s| && forall i, j :: 0 <= i < j < |s| ==> s[i] != s[j]
    ensures var r := s[..k] + s[k + 1..]; forall i, j :: 0 <= i < j < |r| ==> r[i] != r[j]
  {
    var r := s[..k] + s[k + 1..];
    forall i, j | 0 <= i < j < |r|
      ensures r[i] != r[j]
    {
      assert r[i] == s[if i < k then i else i + 1] && r[j] == s[if j < k then j else j + 1];
    }
  }

  lemma DropMembers<T>(s: seq<T>, k: nat)
    requires k < |s| && forall i, j :: 0 <= i < j < |s| ==> s[i] != s[j]
    ensures forall n :: n in s[..k] + s[k + 1..] <==> n in s && n != s[k]
  {
    forall n | n in s && n != s[k]
      ensures n in s[..k] + s[k + 1..]
    {
      var i :| 0 <= i < |s| && s[i] == n;
      assert n == (s[..k] + s[k + 1..])[if i < k then i else i - 1];
    }
  }

  /** What is left when the `k`-th is gone, place by place and member by member. */
  lemma DroppedAt<T>(s: seq<T>, k: nat)
    requires k < |s|
    ensures |DropAt(s, k)| == |s| - 1
    ensures forall j {:trigger DropAt(s, k)[j]} :: 0 <= j < |s| - 1 ==> DropAt(s, k)[j] == if j < k then s[j] else s[j + 1]
    ensures forall x :: x in s ==> x == s[k] || x in DropAt(s, k)
  {
    forall x | x in s && x != s[k]
      ensures x in DropAt(s, k)
    {
      var j :| 0 <= j < |s| && s[j] == x;
      assert DropAt(s, k)[if j < k then j else j - 1] == x;
    }
  }

  /** What is there when one is spliced in. */
  lemma SplicedAt<T>(s: seq<T>, i: nat, y: T)
    requires i <= |s|
    ensures |SpliceAt(s, i, y)| == |s| + 1 && SpliceAt(s, i, y)[i] == y
    ensures forall j {:trigger SpliceAt(s, i, y)[j]} :: 0 <= j <= |s| && j != i ==> SpliceAt(s, i, y)[j] == if j < i then s[j] else s[j - 1]
    ensures y in SpliceAt(s, i, y) && forall x :: x in s ==> x in SpliceAt(s, i, y)
  {
    forall x | x in s
      ensures x in SpliceAt(s, i, y)
    {
      var j :| 0 <= j < |s| && s[j] == x;
      assert SpliceAt(s, i, y)[if j < i then j else j + 1] == x;
    }
  }

  lemma DropFirst<T>(s: seq<T>)
    requires s != []
    ensures DropAt(s, 0) == s[1..]
  {
  }

  lemma DropLater<T>(s: seq<T>, k: nat)
    requires 0 < k < |s|
    ensures DropAt(s, k) == [s[0]] + DropAt(s[1..], k - 1)
  {
  }

  // ----- Which ids rest in the book -----

  /** Counts the orders with this id. */
  function HasId(id: OrderId): Order -> int {
    (o: Order) => if o.id == id then 1 else 0
  }

  /** Some order with this id rests in the book. */
  predicate Holds(b: Book, id: OrderId) {
    SumBook(b, HasId(id)) > 0
  }

  lemma {:induction false} QueueCount(os: seq<Order>, id: OrderId)
    ensures SumOf(os, HasId(id)) >= 0
    ensures SumOf(os, HasId(id)) > 0 <==> exists k :: 0 <= k < |os| && os[k].id == id
  {
    if os != [] {
      QueueCount(os[1..], id);
      if exists k :: 0 <= k < |os[1..]| && os[1..][k].id == id {
        var k :| 0 <= k < |os[1..]| && os[1..][k].id == id;
        assert os[k + 1].id == id;
      }
      if k :| 0 <= k < |os| && os[k].id == id && k > 0 {
        assert os[1..][k - 1].id == id;
      }
    }
  }

  /** `id` is the id of the `k`-th order of the `i`-th level. */
  ghost predicate IdAt(ls: seq<Level>, i: int, k: int, id: OrderId) {
    0 <= i < |ls| && 0 <= k < |ls[i].orders| && ls[i].orders[k].id == id
  }

  lemma {:induction false} SideCount(ls: seq<Level>, id: OrderId)
    ensures SumLevels(ls, HasId(id)) >= 0
    ensures SumLevels(ls, HasId(id)) > 0 <==> exists i, k :: IdAt(ls, i, k, id)
  {
    if ls != [] {
      QueueCount(ls[0].orders, id);
      SideCount(ls[1..], id);
      if exists i, k :: IdAt(ls[1..], i, k, id) {
        var i, k :| IdAt(ls[1..], i, k, id);
        assert IdAt(ls, i + 1, k, id);
      }
      if k :| 0 <= k < |ls[0].orders| && ls[0].orders[k].id == id {
        assert IdAt(ls, 0, k, id);
      }
      if i, k :| IdAt(ls, i, k, id) && i > 0 {
        assert IdAt(ls[1..], i - 1, k, id);
      }
    }
  }

  /** Only the `k`-th order of the `i`-th level has this id. */
  ghost predicate OnlyAt(ls: seq<Level>, i: int, k: int, id: OrderId) {
    IdAt(ls, i, k, id) && forall i', k' :: IdAt(ls, i', k', id) ==> i' == i && k' == k
  }

  lemma {:induction false} FindFirst(os: seq<Order>, k: nat, id: OrderId)
    requires k < |os| && os[k].id == id && forall j :: 0 <= j < k ==> os[j].id != id
    ensures FindFrom(os, id) == Found(os[k]) && RemoveFrom(os, id) == DropAt(os, k)
  {
    if k > 0 {
      FindFirst(os[1..], k - 1, id);
      DropLater(os, k);
    } else {
      DropFirst(os);
    }
  }

  lemma {:induction false} FindNone(os: seq<Order>, id: OrderId)
    ensures FindFrom(os, id) == Missing <==> forall j :: 0 <= j < |os| ==> os[j].id != id
  {
    if os != [] {
      FindNone(os[1..], id);
      assert forall j :: 0 < j < |os| ==> os[j] == os[1..][j - 1];
    }
  }

  /** The side without the order at a known place. */
  function RemoveAt(ls: seq<Level>, i: nat, k: nat): seq<Level> {
    var os := DropAt(QueueAt(ls, i), k);
    if os == [] then DropAt(ls, i) else WithQueue(ls, i, os)
  }

  /** Off its only place an id is not to be found, and past the first level its place shifts by one. */
  lemma OnlyAtTail(ls: seq<Level>, i: nat, k: nat, id: OrderId)
    requires OnlyAt(ls, i, k, id)
    ensures i > 0 ==> OnlyAt(ls[1..], i - 1, k, id) && FindFrom(ls[0].orders, id) == Missing
    ensures i == 0 ==> forall j :: 0 <= j < k ==> ls[0].orders[j].id != id
  {
    forall j | 0 <= j < |ls[0].orders| && ls[0].orders[j].id == id
      ensures i == 0 && j == k
    {
      assert IdAt(ls, 0, j, id);
    }
    FindNone(ls[0].orders, id);
    forall i', k' | IdAt(ls[1..], i', k', id)
      ensures i' == i - 1 && k' == k
    {
      assert IdAt(ls, i' + 1, k', id);
    }
    assert i > 0 ==> IdAt(ls[1..], i - 1, k, id);
  }

  /** Finding and removing by id is finding and removing at the one place the id is. */
  lemma {:induction false} RemoveOnly(ls: seq<Level>, i: nat, k: nat, id: OrderId)
    requires OnlyAt(ls, i, k, id)
    ensures FindIn(ls, id) == Found(ls[i].orders[k]) && Remove(ls, id) == RemoveAt(ls, i, k)
  {
    OnlyAtTail(ls, i, k, id);
    var os := DropAt(ls[i].orders, k);
    WithQueueCons(ls, i, os);
    if i == 0 {
      FindFirst(ls[0].orders, k, id);
      DropFirst(ls);
    } else {
      RemoveOnly(ls[1..], i - 1, k, id);
      DropLater(ls, i);
    }
  }

  lemma WithQueueCons(ls: seq<Level>, i: nat, os: seq<Order>)
    requires i < |ls|
    ensures i == 0 ==> WithQueue(ls, i, os) == [Level(ls[0].price, os)] + ls[1..]
    ensures i > 0 ==> WithQueue(ls, i, os) == [ls[0]] + WithQueue(ls[1..], i - 1, os)
  {
  }

  lemma {:induction false} FindInNone(ls: seq<Level>, id: OrderId)
    ensures FindIn(ls, id) == Missing <==> SumLevels(ls, HasId(id)) == 0
  {
    SideCount(ls, id);
    if ls != [] {
      FindNone(ls[0].orders, id);
      QueueCount(ls[0].orders, id);
      SideCount(ls[1..], id);
      FindInNone(ls[1..], id);
    }
  }
}
