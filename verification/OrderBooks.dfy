/** The mutable order book: two price-ordered trees of FIFO levels, an id index and two slot pools. */
module OrderBooks {
  import opened Domain
  import opened BookSpec
  import opened MatchSpec
  import opened MatchLemmas
  import opened MatchQuantities
  import opened PriceLevels
  import opened Pool
  import opened BookParts

  datatype CancelResult = NotFound | Mismatch | Removed(node: OrderNode)

  /** A place in the book: the `k`-th node of the `i`-th level of a side. */
  datatype Focus = Focus(side: Side, level: PriceLevel, node: OrderNode, i: nat, k: nat)

  class OrderBook {
    const bids: PriceLevelTree
    const asks: PriceLevelTree
    const index: OrderIndex
    const nodePool: Pool<OrderNode>
    const levelPool: Pool<PriceLevel>
    const orderSeq: Counter
    const stpDefault: STPMode
    /** The book as a value. */
    ghost var view: Book
    /** Nodes acquired from the pool that are not resting: exactly these are still to be released. */
    ghost var spare: set<OrderNode>

    function Tree(side: Side): PriceLevelTree {
      if side == Bid then bids else asks
    }

    ghost predicate NodeSlot(n: OrderNode)
      reads n`poolIndex, nodePool`used
    {
      n.poolIndex in nodePool.used && 0 <= n.poolIndex < |nodePool.store| && nodePool.store[n.poolIndex] == n
    }

    ghost predicate LevelSlot(l: PriceLevel)
      reads l`poolIndex, levelPool`used
    {
      l.poolIndex in levelPool.used && 0 <= l.poolIndex < |levelPool.store| && levelPool.store[l.poolIndex] == l
    }

    /** `n` is the node the index holds under its own id. */
    ghost predicate Indexed(n: OrderNode)
      reads n`o, index
    {
      n.o.id in index.m && index.m[n.o.id] == n
    }

    /** Level `l` of `side` is a valid queue of indexed nodes with value `v`. */
    ghost predicate LevelOK(l: PriceLevel, v: Level, side: Side)
      reads l, nodePool.store, index, levelPool`used
    {
      && LevelSlot(l)
      && v == Level(l.price, l.orders)
      && (forall k {:trigger l.nodes[k]} :: 0 <= k < |l.nodes| ==>
            l.nodes[k] in nodePool.store && l.nodes[k].o.side == side && Indexed(l.nodes[k]))
      && l.Valid()
    }

    ghost predicate TreeOK(side: Side)
      reads `view, bids, asks, index, levelPool`used, nodePool.store, levelPool.store
    {
      && Tree(side).side == side && |Tree(side).levels| == |view.Of(side)|
      && (forall i :: 0 <= i < |Tree(side).levels| ==>
            && Tree(side).levels[i] in levelPool.store
            && LevelOK(Tree(side).levels[i], view.Of(side)[i], side))
      && Tree(side).Sorted()
    }

    /** Every indexed node rests, under its own id, in a level of its own side's tree. */
    ghost predicate IndexOK()
      reads bids, asks, index, nodePool.store, levelPool.store
    {
      forall id :: id in index.m ==>
        var n := index.m[id];
        && n in nodePool.store && n.o.id == id && n.level != null && n.level in levelPool.store
        && n.level in Tree(n.o.side).levels && n in n.level.nodes
    }

    /** The node slots in use are exactly the resting nodes and the nodes handed to the caller. */
    ghost predicate SlotsOK()
      reads `spare, index, nodePool`used, nodePool.store
    {
      && (forall n :: n in spare ==> n in nodePool.store && n.level == null && NodeSlot(n))
      && (forall id :: id in index.m ==> index.m[id] in nodePool.store && NodeSlot(index.m[id]))
      && (forall x :: x in nodePool.used ==> 0 <= x < |nodePool.store|)
      && (forall x :: x in nodePool.used ==> nodePool.store[x] in spare || Indexed(nodePool.store[x]))
    }

    ghost predicate DistinctNodes() {
      forall x, y :: 0 <= x < y < |nodePool.store| ==> nodePool.store[x] != nodePool.store[y]
    }

    ghost predicate NodePoolOK()
      reads `view, `spare, index, nodePool, nodePool.free, nodePool.store
    {
      && nodePool.Valid() && SlotsOK()
      && DistinctNodes()
      && |nodePool.used| == |spare| + SumBook(view, One)
    }

    /** The level slots in use are exactly the levels of the two trees. */
    ghost predicate LevelPoolOK()
      reads bids, asks, levelPool, levelPool.free
    {
      && levelPool.Valid()
      && (forall x :: x in levelPool.used ==> 0 <= x < |levelPool.store|)
      && (forall x :: x in levelPool.used ==> levelPool.store[x] in bids.levels || levelPool.store[x] in asks.levels)
      && (forall x, y :: 0 <= x < y < |levelPool.store| ==> levelPool.store[x] != levelPool.store[y])
      && |levelPool.used| == |bids.levels| + |asks.levels|
      && (forall i, j :: 0 <= i < |bids.levels| && 0 <= j < |asks.levels| ==> bids.levels[i] != asks.levels[j])
    }

    /** The fixed parts are distinct objects. */
    ghost predicate Apart() {
      bids != asks && nodePool.free != levelPool.free
    }

    /** Everything the book may write. */
    ghost function Footprint(): set<object> {
      {this, bids, asks, index, nodePool, nodePool.free, levelPool, levelPool.free, orderSeq}
      + (set n | n in nodePool.store) + (set l | l in levelPool.store)
    }

    lemma Owned()
      ensures nodePool in Footprint() && nodePool.free in Footprint() && orderSeq in Footprint() && this in Footprint()
      ensures bids in Footprint() && asks in Footprint() && index in Footprint() && levelPool in Footprint() && levelPool.free in Footprint()
      ensures (forall n :: n in nodePool.store ==> n in Footprint()) && forall l :: l in levelPool.store ==> l in Footprint()
    {
    }

    ghost predicate Inv()
      reads this, bids, asks, index, nodePool, nodePool.free, levelPool, levelPool.free, nodePool.store, levelPool.store
    {
      Apart() && TreeOK(Bid) && TreeOK(Ask) && IndexOK() && NodePoolOK() && LevelPoolOK()
    }

    constructor (stpDefault: STPMode, nodeCap: nat, levelCap: nat, firstSeq: nat)
      ensures Inv() && view == EMPTY_BOOK && spare == {} && orderSeq.n == firstSeq
      ensures |nodePool.store| == nodeCap && |levelPool.store| == levelCap && this.stpDefault == stpDefault
    {
      var nodes := NewNodes(nodeCap);
      var lvls := NewLevels(levelCap);
      nodePool := new Pool<OrderNode>(nodes);
      levelPool := new Pool<PriceLevel>(lvls);
      bids := new PriceLevelTree(Bid);
      asks := new PriceLevelTree(Ask);
      index := new OrderIndex();
      orderSeq := new Counter(firstSeq);
      this.stpDefault, view, spare := stpDefault, EMPTY_BOOK, {};
      new;
      hide TreeOK, IndexOK, NodePoolOK, LevelPoolOK, Pool.Valid, PriceLevelTree.Sorted;
      EmptyInv();
    }

    lemma EmptyInv()
      requires view == EMPTY_BOOK && spare == {} && index.m == map[]
      requires bids.Sorted() && bids.levels == [] && bids.side == Bid && asks.Sorted() && asks.levels == [] && asks.side == Ask
      requires nodePool.Valid() && nodePool.used == {} && levelPool.Valid() && levelPool.used == {}
      requires Apart()
      requires forall x, y :: 0 <= x < y < |nodePool.store| ==> nodePool.store[x] != nodePool.store[y]
      requires forall x, y :: 0 <= x < y < |levelPool.store| ==> levelPool.store[x] != levelPool.store[y]
      ensures Inv()
    {
    }

    lemma LevelFacts(side: Side, i: nat)
      requires TreeOK(side) && i < |Tree(side).levels|
      ensures i < |view.Of(side)| && Tree(side).levels[i] in levelPool.store
      ensures LevelOK(Tree(side).levels[i], view.Of(side)[i], side)
    {
    }

    // ----- What one level's change leaves alone -----

    /** `f.level` is the `f.i`-th level of `f.side`. */
    ghost predicate AtLevel(f: Focus)
      reads Tree(f.side)
    {
      f.i < |Tree(f.side).levels| && f.level == Tree(f.side).levels[f.i]
    }

    /** ... and `f.node` the `f.k`-th node of its queue. */
    ghost predicate At(f: Focus)
      reads Tree(f.side), f.level`nodes
    {
      AtLevel(f) && f.k < |f.level.nodes| && f.node == f.level.nodes[f.k]
    }

    ghost predicate InStore(l: PriceLevel)
      reads l`nodes
    {
      forall k :: 0 <= k < |l.nodes| ==> l.nodes[k] in nodePool.store
    }

    /** Only level `f.level`, its queue and `f.node` have changed. */
    twostate predicate Touches(f: Focus)
      reads nodePool.store, levelPool.store, f.node
    {
      && old(f.level.Valid()) && old(InStore(f.level)) && (old(f.node.level) == f.level || old(f.node.level) == null)
      && (forall p :: p in levelPool.store && p != f.level ==> unchanged(p))
      && (forall n :: n in nodePool.store && n !in old(f.level.nodes) && n != f.node ==> unchanged(n))
      && (forall n :: n in nodePool.store ==> n.poolIndex == old(n.poolIndex))
      && f.node.o.id == old(f.node.o.id)
    }

    /** The index has changed at the focused node's id only. */
    twostate predicate IndexTouched(f: Focus)
      reads index, f.node`o
    {
      && old(f.node.o.id in index.m ==> index.m[f.node.o.id] == f.node)
      && (forall id :: id != f.node.o.id ==> (id in index.m <==> id in old(index.m)))
      && (forall id :: id != f.node.o.id && id in index.m ==> index.m[id] == old(index.m[id]))
    }

    twostate lemma FrameLevel(f: Focus, new side: Side, new j: nat)
      requires old(TreeOK(side)) && Touches(f) && IndexTouched(f) && old(levelPool.used) <= levelPool.used
      requires j < |old(Tree(side).levels)| && old(Tree(side).levels[j]) != f.level
      ensures j < |old(view.Of(side))| && LevelOK(old(Tree(side).levels[j]), old(view.Of(side)[j]), side)
    {
      hide PriceLevel.Counted;
      var l := old(Tree(side).levels[j]);
      assert forall k :: 0 <= k < |old(l.nodes)| ==> old(l.nodes[k].level) == l;
      forall k | 0 <= k < |l.nodes|
        ensures unchanged(l.nodes[k])
      {
        assert old(l.nodes[k].level) == l;
      }
    }

    twostate lemma FrameTree(f: Focus, new side: Side)
      requires old(TreeOK(side)) && Touches(f) && IndexTouched(f) && old(levelPool.used) <= levelPool.used
      requires Tree(side).levels == old(Tree(side).levels) && Tree(side).count == old(Tree(side).count)
      requires f.level.price == old(f.level.price)
      requires |view.Of(side)| == |Tree(side).levels|
      requires forall j :: 0 <= j < |Tree(side).levels| && Tree(side).levels[j] != f.level ==> view.Of(side)[j] == old(view.Of(side)[j])
      requires forall j :: 0 <= j < |Tree(side).levels| && Tree(side).levels[j] == f.level ==> LevelOK(f.level, view.Of(side)[j], side)
      ensures TreeOK(side)
    {
      forall j | 0 <= j < |Tree(side).levels| && Tree(side).levels[j] != f.level {
        FrameLevel(f, side, j);
      }
    }

    // ----- One queue edited in place -----

    /** The whole effect of an edit of one queue: every other queue and every other node keep what
        they had, and the value of the book changed at that level only. */
    twostate predicate Edited(f: Focus)
      reads `view, nodePool.store, levelPool.store, f.level, f.level.nodes, f.node
    {
      && old(AtLevel(f)) && f.level in levelPool.store && f.node in nodePool.store && Touches(f)
      && f.level.Valid() && f.level.price == old(f.level.price) && f.level.poolIndex == old(f.level.poolIndex)
      && (forall n :: n in nodePool.store && n != f.node ==>
            n.o == old(n.o) && n.level == old(n.level))
      && (forall n :: n in f.level.nodes ==> n == f.node || n in old(f.level.nodes))
      && (forall n :: n in old(f.level.nodes) ==> n == f.node || n in f.level.nodes)
      && f.node.o.side == f.side && old(f.node.o.side) == f.side
      && Became(f, f.level.orders)
    }

    /** The queue in focus changed to `os` in the value of the book. */
    twostate predicate Became(f: Focus, new os: seq<Order>)
      reads `view
    {
      view == old(view).With(f.side, WithQueue(old(view).Of(f.side), f.i, os))
    }

    /** The node in focus moved between its queue and the caller's hands, or stayed. */
    twostate predicate Balanced(f: Focus)
      reads `spare, index, f.level, f.node
    {
      && old(f.node in spare || Indexed(f.node))
      && spare == (if f.node in f.level.nodes then old(spare) - {f.node} else old(spare) + {f.node})
    }

    twostate predicate Conserved(f: Focus)
      reads `spare, f.level
    {
      |spare| + |f.level.nodes| == old(|spare| + |f.level.nodes|)
    }

    /** Trees and pools are as they were. */
    twostate predicate TreesAndPoolsKept()
      reads bids, asks, nodePool, nodePool.free, levelPool, levelPool.free
    {
      unchanged(bids) && unchanged(asks) && unchanged(nodePool) && unchanged(nodePool.free) && unchanged(levelPool) && unchanged(levelPool.free)
    }

    /** Wherever the node in focus is mentioned now, it is mentioned consistently. */
    ghost predicate Placed(f: Focus)
      reads f.node, f.level, index
    {
      if f.node in f.level.nodes then f.node.level == f.level && Indexed(f.node)
      else f.node.level == null && f.node.o.id !in index.m
    }

    twostate lemma EditLevel(f: Focus)
      requires Edited(f) && IndexTouched(f) && TreesAndPoolsKept() && Placed(f) && old(TreeOK(f.side))
      ensures f.i < |view.Of(f.side)| && LevelOK(f.level, view.Of(f.side)[f.i], f.side)
    {
      hide PriceLevel.Counted, PriceLevel.Linked;
      assert forall k :: 0 <= k < |f.level.nodes| && f.level.nodes[k] != f.node ==> f.level.nodes[k] in old(f.level.nodes);
    }

    twostate lemma OldFacts(f: Focus)
      requires old(AtLevel(f)) && old(TreeOK(f.side)) && old(LevelPoolOK())
      ensures f.i < |old(view).Of(f.side)| && old(view).Of(f.side)[f.i].orders == old(f.level.orders)
      ensures f.level !in old(Tree(f.side.Opposite()).levels)
    {
      hide PriceLevel.Valid;
    }

    twostate lemma EditTree(f: Focus, new s: Side)
      requires Edited(f) && IndexTouched(f) && TreesAndPoolsKept() && old(TreeOK(s))
      requires s != f.side ==> f.level !in Tree(s).levels
      requires s == f.side ==> f.i < |view.Of(s)| && LevelOK(f.level, view.Of(s)[f.i], s)
      ensures TreeOK(s)
    {
      hide LevelOK, Touches, PriceLevel.Valid;
      FrameTree(f, s);
    }

    twostate lemma EditIndex(f: Focus)
      requires Edited(f) && IndexTouched(f) && TreesAndPoolsKept() && Placed(f) && old(IndexOK())
      ensures IndexOK()
    {
      hide PriceLevel.Valid;
    }

    twostate lemma EditSlots(f: Focus)
      requires Edited(f) && IndexTouched(f) && TreesAndPoolsKept() && Placed(f) && Balanced(f) && old(SlotsOK())
      ensures SlotsOK()
    {
      hide PriceLevel.Valid, Became, AtLevel;
      assert NodeSlot(f.node);
      forall x | x in nodePool.used
        ensures nodePool.store[x] in spare || Indexed(nodePool.store[x])
      {
        var n := nodePool.store[x];
        if n != f.node && n !in old(spare) {
          assert old(index.m[n.o.id]) == n;
          assert n.o.id != f.node.o.id;
        }
      }
    }

    twostate lemma EditNodePool(f: Focus)
      requires TreesAndPoolsKept() && SlotsOK() && old(NodePoolOK())
      requires |spare| + SumBook(view, One) == old(|spare| + SumBook(view, One))
      ensures NodePoolOK()
    {
      hide SumBook, SlotsOK;
    }

    twostate lemma EditLevelPool(f: Focus)
      requires Edited(f) && TreesAndPoolsKept() && old(LevelPoolOK())
      ensures LevelPoolOK()
    {
      hide PriceLevel.Valid, Touches;
    }

    twostate lemma EditCount(f: Focus)
      requires Edited(f) && f.i < |old(view).Of(f.side)| && old(view).Of(f.side)[f.i].orders == old(f.level.orders)
      ensures SumBook(view, One) == old(SumBook(view, One)) - |old(f.level.nodes)| + |f.level.nodes|
    {
      hide PriceLevel.Linked;
      WithQueueSum(old(view).Of(f.side), f.i, f.level.orders, One);
      SumOfOne(f.level.orders);
      SumOfOne(old(f.level.orders));
    }

    twostate lemma EditInv(f: Focus)
      requires Edited(f) && IndexTouched(f) && TreesAndPoolsKept() && Placed(f) && Balanced(f) && Conserved(f) && old(Inv())
      ensures Inv()
      ensures Became(f, f.level.orders) && old(f.level.orders) == old(QueueAt(view.Of(f.side), f.i))
    {
      hide TreeOK, IndexOK, SlotsOK, LevelPoolOK, LevelOK, Touches, IndexTouched, Placed, Indexed, PriceLevel.Valid;
      OldFacts(f);
      EditLevel(f);
      EditCount(f);
      EditTree(f, Bid);
      EditTree(f, Ask);
      EditIndex(f);
      EditSlots(f);
      EditNodePool(f);
      EditLevelPool(f);
    }

    // ----- The four edits -----

    /** The node in focus is listed, indexed and not in the caller's hands. */
    ghost predicate Focused(f: Focus)
      reads this, Tree(f.side), index, f.level, f.level.nodes, f.node
    {
      && At(f) && f.level in levelPool.store && f.level.Valid() && InStore(f.level) && f.node.o.side == f.side
      && f.node in nodePool.store && Indexed(f.node) && f.node.level == f.level && f.node !in spare
    }

    lemma FocusFacts(f: Focus)
      requires Inv() && At(f)
      ensures Focused(f)
    {
      LevelFacts(f.side, f.i);
      hide TreeOK, IndexOK, PriceLevel.Counted;
    }

    method DequeueRaw(level: PriceLevel, node: OrderNode, ghost f: Focus)
      requires f.level == level && f.node == node && Focused(f)
      modifies level`head, level`tail, level`totalQty, level`displayQty, level`orderCount, level`nodes, level`orders
      modifies level.nodes`next, level.nodes`prev, node`level, `view
      ensures Edited(f)
      ensures node !in level.nodes && node.level == null
      ensures level.nodes == DropAt(old(level.nodes), f.k) && level.orders == DropAt(old(level.orders), f.k)
    {
      hide PriceLevel.Linked, PriceLevel.Counted;
      view := view.With(f.side, WithQueue(view.Of(f.side), f.i, DropAt(level.orders, f.k)));
      level.Unlink(node, f.k);
    }

    twostate lemma DetachPlaced(f: Focus)
      requires old(Focused(f)) && f.node.o == old(f.node.o) && f.node.level == null && f.node !in f.level.nodes
      requires index.m == old(index.m) - {f.node.o.id} && spare == old(spare) + {f.node} && |f.level.nodes| == old(|f.level.nodes|) - 1
      ensures IndexTouched(f) && Placed(f) && Balanced(f) && Conserved(f)
    {
      hide PriceLevel.Valid;
    }

    /** Take a node off its queue and out of the index; the caller now holds it. */
    method Detach(level: PriceLevel, node: OrderNode, ghost f: Focus)
      requires f.level == level && f.node == node && Inv() && At(f)
      modifies level`head, level`tail, level`totalQty, level`displayQty, level`orderCount, level`nodes, level`orders
      modifies level.nodes`next, level.nodes`prev, node`level, index, `view, `spare
      ensures Inv() && spare == old(spare) + {node} && level.nodes == DropAt(old(level.nodes), f.k)
      ensures index.m == old(index.m) - {node.o.id}
      ensures Became(f, DropAt(old(QueueAt(view.Of(f.side), f.i)), f.k))
    {
      hide Inv, Focused, Edited, Placed, Balanced, Conserved, IndexTouched, Became;
      FocusFacts(f);
      DequeueRaw(level, node, f);
      index.Delete(node.o.id);
      spare := spare + {node};
      DetachPlaced(f);
      EditInv(f);
    }

    method DecrementRaw(level: PriceLevel, node: OrderNode, q: int, ghost f: Focus)
      requires f.level == level && f.node == node && Focused(f)
      modifies level`totalQty, level`displayQty, level`orders, node`o, `view
      ensures Edited(f)
      ensures Placed(f) && IndexTouched(f)
      ensures Balanced(f) && Conserved(f)
      ensures node.o == Decrement(old(node.o), q) && level.orders == PutAt(old(level.orders), f.k, node.o)
    {
      hide PriceLevel.Linked;
      view := view.With(f.side, WithQueue(view.Of(f.side), f.i, PutAt(level.orders, f.k, Decrement(node.o, q))));
      level.DecrementQty(node, q, f.k);
    }

    method DecrementAt(level: PriceLevel, node: OrderNode, q: int, ghost f: Focus)
      requires f.level == level && f.node == node && Inv() && At(f)
      modifies level`totalQty, level`displayQty, level`orders, node`o, `view
      ensures Inv() && node.o == Decrement(old(node.o), q)
      ensures Became(f, PutAt(old(QueueAt(view.Of(f.side), f.i)), f.k, node.o))
    {
      hide Inv, At, Focused, Edited, Placed, Balanced, Conserved, IndexTouched, Became;
      FocusFacts(f);
      DecrementRaw(level, node, q, f);
      EditInv(f);
    }

    method ReplenishRaw(level: PriceLevel, node: OrderNode, newSeqNum: nat, ghost f: Focus)
      requires f.level == level && f.node == node && Focused(f)
      modifies level`head, level`tail, level`totalQty, level`displayQty, level`orderCount, level`nodes, level`orders
      modifies level.nodes`next, level.nodes`prev, node`level, node`o, `view
      ensures Edited(f)
      ensures node.o == Replenish(old(node.o), newSeqNum) && level.orders == DropAt(old(level.orders), f.k) + [node.o]
      ensures node.level == level && level.nodes == DropAt(old(level.nodes), f.k) + [node]
    {
      assert node.o == level.orders[f.k];
      hide PriceLevel.Linked, PriceLevel.Counted;
      view := view.With(f.side, WithQueue(view.Of(f.side), f.i, DropAt(level.orders, f.k) + [Replenish(node.o, newSeqNum)]));
      level.ReplenishIceberg(node, newSeqNum, f.k);
    }

    /** The node stayed in its queue, its id in the index. */
    twostate lemma ReplenishPlaced(f: Focus)
      requires old(Focused(f)) && f.node.o.id == old(f.node.o.id) && unchanged(index) && unchanged(`spare) && f.node.level == f.level
      requires f.level.nodes == DropAt(old(f.level.nodes), f.k) + [f.node]
      ensures IndexTouched(f) && Placed(f) && Balanced(f) && Conserved(f)
    {
      hide PriceLevel.Valid;
    }

    method ReplenishAt(level: PriceLevel, node: OrderNode, newSeqNum: nat, ghost f: Focus)
      requires f.level == level && f.node == node && Inv() && At(f)
      modifies level`head, level`tail, level`totalQty, level`displayQty, level`orderCount, level`nodes, level`orders
      modifies level.nodes`next, level.nodes`prev, node`level, node`o, `view
      ensures Inv() && node.o == Replenish(old(node.o), newSeqNum)
      ensures level.nodes == DropAt(old(level.nodes), f.k) + [node]
      ensures Became(f, DropAt(old(QueueAt(view.Of(f.side), f.i)), f.k) + [node.o])
    {
      hide Inv, At, Focused, Edited, Placed, Balanced, Conserved, IndexTouched, Became;
      FocusFacts(f);
      ReplenishRaw(level, node, newSeqNum, f);
      ReplenishPlaced(f);
      EditInv(f);
    }

    /** The caller holds the node in focus, and its id is free. */
    ghost predicate Held(f: Focus)
      reads `spare, index, f.node
    {
      f.node in spare && f.node.o.side == f.side && f.node.o.id !in index.m
    }

    /** ... and the level in focus can take it. */
    ghost predicate Enterable(f: Focus)
      reads this, Tree(f.side), index, f.level, f.level.nodes, f.node
    {
      && AtLevel(f) && f.level in levelPool.store && f.level.Valid() && InStore(f.level)
      && Held(f) && f.node in nodePool.store && f.node.level == null
    }

    lemma EnterFacts(f: Focus)
      requires Inv() && AtLevel(f) && Held(f)
      ensures Enterable(f)
    {
      LevelFacts(f.side, f.i);
      hide TreeOK, IndexOK, PriceLevel.Counted, PriceLevel.Linked;
    }

    method EnqueueRaw(level: PriceLevel, node: OrderNode, ghost f: Focus)
      requires f.level == level && f.node == node && Enterable(f)
      modifies level`head, level`tail, level`totalQty, level`displayQty, level`orderCount, level`nodes, level`orders
      modifies level.nodes`next, node`prev, node`next, node`level, `view
      ensures Edited(f)
      ensures node in level.nodes && node.level == level && |level.nodes| == |old(level.nodes)| + 1
      ensures level.orders == old(level.orders) + [node.o]
    {
      assert node !in level.nodes;
      hide PriceLevel.Linked, PriceLevel.Counted;
      view := view.With(f.side, WithQueue(view.Of(f.side), f.i, level.orders + [node.o]));
      level.Append(node);
    }

    twostate lemma EnqueuePlaced(f: Focus)
      requires old(Enterable(f)) && f.node.o == old(f.node.o) && f.node.level == f.level && f.node in f.level.nodes
      requires index.m == old(index.m)[f.node.o.id := f.node] && spare == old(spare) - {f.node} && |f.level.nodes| == |old(f.level.nodes)| + 1
      ensures IndexTouched(f) && Placed(f) && Balanced(f) && Conserved(f)
    {
      hide PriceLevel.Valid;
      assert |old(spare) - {f.node}| == |old(spare)| - 1;
    }

    /** Append a node the caller holds to a level of its side and index it. */
    method Enqueue(level: PriceLevel, node: OrderNode, ghost f: Focus)
      requires f.level == level && f.node == node && Inv() && AtLevel(f) && Held(f)
      modifies level`head, level`tail, level`totalQty, level`displayQty, level`orderCount, level`nodes, level`orders
      modifies level.nodes`next, node`prev, node`next, node`level, index, `view, `spare
      ensures Inv() && spare == old(spare) - {node}
      ensures Became(f, old(QueueAt(view.Of(f.side), f.i)) + [node.o])
    {
      hide Inv, AtLevel, Held, Enterable, Edited, Placed, Balanced, Conserved, IndexTouched, Became;
      EnterFacts(f);
      EnqueueRaw(level, node, f);
      spare := spare - {node};
      index.Put(node.o.id, node);
      EnqueuePlaced(f);
      EditInv(f);
    }

    // ----- Levels entering and leaving a tree -----

    /** Nodes, levels, index and node pool are as they were. */
    twostate predicate NodesAndLevelsKept()
      reads `spare, index, nodePool, nodePool.free, nodePool.store, levelPool.store
    {
      && unchanged(index) && unchanged(nodePool) && unchanged(nodePool.free) && unchanged(`spare)
      && (forall n :: n in nodePool.store ==> unchanged(n))
      && (forall p :: p in levelPool.store ==> unchanged(p))
    }

    /** The empty level in focus left its tree and its slot. */
    twostate predicate Dropped(f: Focus)
      reads this, bids, asks, bids.levels, asks.levels, levelPool, levelPool.free, f.level
    {
      && old(AtLevel(f)) && f.level.nodes == []
      && Tree(f.side).levels == DropAt(old(Tree(f.side).levels), f.i) && Tree(f.side).Sorted()
      && unchanged(Tree(f.side.Opposite()))
      && levelPool.Valid() && levelPool.used == old(levelPool.used) - {f.level.poolIndex}
      && view == old(view).With(f.side, DropAt(old(view).Of(f.side), f.i))
    }

    twostate lemma DropKeeps(f: Focus, new j: nat)
      requires Dropped(f) && NodesAndLevelsKept() && old(TreeOK(f.side)) && j < |old(Tree(f.side).levels)| && j != f.i
      ensures j < |old(view.Of(f.side))| && old(Tree(f.side).levels[j]) in levelPool.store
      ensures LevelOK(old(Tree(f.side).levels[j]), old(view.Of(f.side)[j]), f.side)
    {
      hide PriceLevel.Valid, Pool.Valid, DropAt;
      assert old(LevelSlot(f.level)) && f.level != old(Tree(f.side).levels[j]);
    }

    twostate lemma DropTree(f: Focus)
      requires Dropped(f) && NodesAndLevelsKept() && old(TreeOK(f.side))
      ensures TreeOK(f.side)
    {
      hide LevelOK, Pool.Valid, DropAt, PriceLevelTree.Sorted;
      DroppedAt(old(Tree(f.side).levels), f.i);
      DroppedAt(old(view.Of(f.side)), f.i);
      forall j | 0 <= j < |Tree(f.side).levels|
        ensures Tree(f.side).levels[j] in levelPool.store && LevelOK(Tree(f.side).levels[j], view.Of(f.side)[j], f.side)
      {
        DropKeeps(f, if j < f.i then j else j + 1);
      }
    }

    twostate lemma DropOther(f: Focus)
      requires Dropped(f) && NodesAndLevelsKept() && old(TreeOK(f.side)) && old(TreeOK(f.side.Opposite())) && Apart() && old(LevelPoolOK())
      ensures TreeOK(f.side.Opposite())
    {
      hide PriceLevel.Valid;
    }

    twostate lemma DropIndex(f: Focus)
      requires Dropped(f) && NodesAndLevelsKept() && old(IndexOK())
      ensures IndexOK()
    {
    }

    twostate lemma DropNodePool(f: Focus)
      requires Dropped(f) && NodesAndLevelsKept() && old(TreeOK(f.side)) && old(NodePoolOK())
      ensures NodePoolOK()
    {
      hide PriceLevel.Linked;
      DropEmptySum(old(view).Of(f.side), f.i, One);
    }

    twostate lemma DropLevelPool(f: Focus)
      requires Dropped(f) && NodesAndLevelsKept() && old(TreeOK(f.side)) && old(LevelPoolOK())
      ensures LevelPoolOK()
    {
      hide TreeOK, PriceLevel.Valid, Pool.Valid, DropAt, PriceLevelTree.Sorted;
      WasSlot(f);
      DroppedAt(old(Tree(f.side).levels), f.i);
      forall x | x in levelPool.used
        ensures levelPool.store[x] in bids.levels || levelPool.store[x] in asks.levels
      {
        assert levelPool.store[x] != f.level;
      }
    }

    twostate lemma WasSlot(f: Focus)
      requires old(AtLevel(f)) && old(TreeOK(f.side))
      ensures old(LevelSlot(f.level)) && f.level in levelPool.store
    {
      hide PriceLevel.Valid, PriceLevelTree.Sorted;
    }

    twostate lemma DropInv(f: Focus)
      requires Dropped(f) && NodesAndLevelsKept() && old(Inv())
      ensures Inv()
    {
      hide Dropped, NodesAndLevelsKept, TreeOK, IndexOK, NodePoolOK, LevelPoolOK;
      assert f.side == Bid || f.side == Ask;
      DropTree(f);
      DropOther(f);
      DropIndex(f);
      DropNodePool(f);
      DropLevelPool(f);
    }

    method DropRaw(tree: PriceLevelTree, level: PriceLevel, ghost f: Focus)
      requires f.level == level && tree == Tree(f.side) && AtLevel(f) && level.nodes == []
      requires tree.Sorted() && levelPool.Valid() && level.poolIndex in levelPool.used && Apart()
      modifies tree, levelPool`top, levelPool`used, levelPool.free, `view
      ensures Dropped(f)
    {
      hide Pool.Valid;
      tree.Delete(level.price, f.i);
      levelPool.Release(level.poolIndex);
      view := view.With(f.side, DropAt(view.Of(f.side), f.i));
    }

    lemma DropFacts(f: Focus)
      requires Inv() && AtLevel(f)
      ensures Tree(f.side).Sorted() && levelPool.Valid() && f.level.poolIndex in levelPool.used && Apart()
    {
      hide IndexOK, NodePoolOK, PriceLevel.Valid;
    }

    /** Remove an empty level from its tree and give its slot back. */
    method DropLevel(tree: PriceLevelTree, level: PriceLevel, ghost f: Focus)
      requires f.level == level && tree == Tree(f.side) && Inv() && AtLevel(f) && level.nodes == []
      modifies tree, levelPool`top, levelPool`used, levelPool.free, `view
      ensures Inv()
      ensures view == old(view).With(f.side, DropAt(old(view).Of(f.side), f.i))
    {
      hide Inv, AtLevel, PriceLevelTree.Sorted;
      DropFacts(f);
      DropRaw(tree, level, f);
      assert view == old(view).With(f.side, DropAt(old(view).Of(f.side), f.i));
      hide Dropped;
      DropInv(f);
    }

    // ----- Slots -----

    /** A held node is nowhere in the index. */
    lemma HeldNode(node: OrderNode)
      requires IndexOK() && SlotsOK() && node in spare
      ensures node in nodePool.store && node.level == null && NodeSlot(node) && node !in index.m.Values
    {
    }

    twostate lemma ReleasedSlots(node: OrderNode)
      requires old(SlotsOK()) && old(node in spare) && node !in index.m.Values && unchanged(index) && DistinctNodes()
      requires forall n :: n in nodePool.store ==> unchanged(n)
      requires spare == old(spare) - {node} && nodePool.used == old(nodePool.used) - {node.poolIndex}
      ensures SlotsOK()
    {
    }

    method ReleaseRaw(node: OrderNode)
      requires nodePool.Valid() && NodeSlot(node) && node in spare
      modifies nodePool`top, nodePool`used, nodePool.free, `spare
      ensures nodePool.Valid() && nodePool.used == old(nodePool.used) - {node.poolIndex} && |nodePool.used| == |old(nodePool.used)| - 1
      ensures spare == old(spare) - {node} && |spare| == |old(spare)| - 1
    {
      nodePool.Release(node.poolIndex);
      spare := spare - {node};
    }

    /** Give a held node's slot back. */
    method ReleaseNode(node: OrderNode)
      requires Inv() && node in spare
      modifies nodePool`top, nodePool`used, nodePool.free, `spare
      ensures Inv() && spare == old(spare) - {node}
    {
      hide TreeOK, IndexOK, LevelPoolOK, SlotsOK, SumBook, Pool.Valid, NodeSlot, DistinctNodes;
      HeldNode(node);
      ReleaseRaw(node);
      ReleasedSlots(node);
    }

    /** A free slot's node is nowhere in the book. */
    lemma FreeNode(idx: int)
      requires Inv() && 0 <= idx < |nodePool.store| && idx !in nodePool.used
      ensures nodePool.store[idx] !in spare && nodePool.store[idx] !in index.m.Values
      ensures Unlisted(nodePool.store[idx], Bid) && Unlisted(nodePool.store[idx], Ask)
    {
      hide PriceLevel.Valid, LevelPoolOK;
      assert !NodeSlot(nodePool.store[idx]);
    }

    /** Resting and held orders never outnumber the slots of the node pool. */
    lemma WithinPool()
      requires Inv()
      ensures |spare| + SumBook(view, One) <= |nodePool.store|
    {
      hide TreeOK, IndexOK, LevelPoolOK, SlotsOK, SumBook, DistinctNodes;
    }

    lemma FreeNodes()
      requires Inv()
      ensures forall n :: n in spare ==> n in nodePool.store
      ensures forall n :: n in nodePool.store && FreeSlot(n) ==> n !in spare && n !in index.m.Values && Unlisted(n, Bid) && Unlisted(n, Ask)
    {
      assert forall n :: n in spare ==> n in nodePool.store;
      hide Inv, SlotsOK, Unlisted;
      forall idx | 0 <= idx < |nodePool.store| && idx !in nodePool.used {
        FreeNode(idx);
      }
    }

    ghost predicate FreeSlot(n: OrderNode)
      reads nodePool`used
    {
      exists idx :: 0 <= idx < |nodePool.store| && idx !in nodePool.used && nodePool.store[idx] == n
    }

    ghost predicate Unlisted(node: OrderNode, side: Side)
      reads bids, asks, bids.levels`nodes, asks.levels`nodes
    {
      forall i :: 0 <= i < |Tree(side).levels| ==> node !in Tree(side).levels[i].nodes
    }

    /** Only `node`, its slot and the caller's hands have changed. */
    twostate predicate OnlyNode(node: OrderNode)
      reads `view, bids, asks, index, levelPool, levelPool.free, levelPool.store, nodePool.store
    {
      && unchanged(`view) && unchanged(bids) && unchanged(asks) && unchanged(index) && unchanged(levelPool) && unchanged(levelPool.free)
      && (forall p :: p in levelPool.store ==> unchanged(p))
      && (forall n :: n in nodePool.store && n != node ==> unchanged(n))
    }

    twostate lemma AcquiredTree(node: OrderNode, new side: Side)
      requires OnlyNode(node) && old(TreeOK(side)) && old(Unlisted(node, side))
      ensures TreeOK(side)
    {
      hide PriceLevel.Counted;
    }

    twostate lemma AcquiredIndex(node: OrderNode)
      requires OnlyNode(node) && old(IndexOK()) && node !in index.m.Values
      ensures IndexOK()
    {
    }

    twostate lemma AcquiredSlots(node: OrderNode)
      requires OnlyNode(node) && old(SlotsOK()) && node !in index.m.Values && node in nodePool.store && node.level == null
      requires spare == old(spare) + {node} && nodePool.used == old(nodePool.used) + {node.poolIndex} && NodeSlot(node)
      ensures SlotsOK()
    {
    }

    method AcquireRaw(idx: int, o: Order) returns (node: OrderNode)
      requires 0 <= idx < |nodePool.store| && idx in nodePool.used && DistinctNodes()
      modifies nodePool.store[idx], `spare
      ensures node == nodePool.store[idx] && node.o == o && node.level == null && NodeSlot(node) && node.poolIndex == idx
      ensures spare == old(spare) + {node}
    {
      node := nodePool.store[idx];
      node.o, node.prev, node.next, node.level, node.poolIndex := o, null, null, null, idx;
      spare := spare + {node};
    }

    /** A free slot's node, taken and filled in, is in nobody's way. */
    twostate lemma AcquiredInv(node: OrderNode)
      requires old(Inv()) && OnlyNode(node) && node in nodePool.store && node.level == null && NodeSlot(node)
      requires node !in old(spare) && node !in old(index.m.Values) && old(Unlisted(node, Bid)) && old(Unlisted(node, Ask))
      requires nodePool.Valid() && spare == old(spare) + {node} && node.poolIndex !in old(nodePool.used)
      requires nodePool.used == old(nodePool.used) + {node.poolIndex}
      ensures Inv()
    {
      hide TreeOK, IndexOK, LevelPoolOK, SlotsOK, SumBook, Pool.Valid, NodeSlot, DistinctNodes, Unlisted;
      AcquiredTree(node, Bid);
      AcquiredTree(node, Ask);
      AcquiredIndex(node);
      AcquiredSlots(node);
    }

    lemma PoolReady()
      requires Inv()
      ensures nodePool.Valid() && DistinctNodes() && |nodePool.used| == |spare| + SumBook(view, One) <= |nodePool.store|
      ensures forall n :: n in spare ==> n in nodePool.store
      ensures forall n :: n in nodePool.store && FreeSlot(n) ==> n !in spare && n !in index.m.Values && Unlisted(n, Bid) && Unlisted(n, Ask)
    {
      hide TreeOK, IndexOK, LevelPoolOK, SlotsOK, SumBook, DistinctNodes, Unlisted, FreeSlot;
      FreeNodes();
    }

    /** Acquire a node and fill in its fields; fails exactly when every slot rests or is held. */
    method AcquireNode(o: Order) returns (node: OrderNode?)
      requires Inv()
      modifies nodePool`top, nodePool`used, nodePool.store, `spare
      ensures Inv() && (node == null <==> old(|spare| + SumBook(view, One)) == |nodePool.store|)
      ensures node == null ==> spare == old(spare)
      ensures node != null ==> node !in old(spare) && spare == old(spare) + {node} && node.o == o
      ensures forall n :: n in old(spare) ==> n.o == old(n.o)
    {
      hide Inv, SumBook, Pool.Valid, NodeSlot, DistinctNodes, Unlisted, FreeSlot;
      PoolReady();
      var ok, idx := nodePool.Acquire();
      if !ok {
        return null;
      }
      assert old(FreeSlot(nodePool.store[idx])) by {
        FreeAt(idx);
      }
      node := AcquireRaw(idx, o);
      AcquiredInv(node);
    }

    twostate lemma FreeAt(new idx: int)
      requires 0 <= idx < |nodePool.store| && idx !in old(nodePool.used)
      ensures old(FreeSlot(nodePool.store[idx]))
    {
    }

    /** A free level slot's level is in neither tree. */
    lemma FreeLevels()
      requires Inv()
      ensures forall idx :: 0 <= idx < |levelPool.store| && idx !in levelPool.used ==>
                levelPool.store[idx] !in bids.levels && levelPool.store[idx] !in asks.levels
    {
      hide IndexOK, NodePoolOK, PriceLevel.Valid;
      forall idx | 0 <= idx < |levelPool.store| && idx !in levelPool.used
        ensures levelPool.store[idx] !in bids.levels && levelPool.store[idx] !in asks.levels
      {
        assert !LevelSlot(levelPool.store[idx]);
      }
    }

    /** A new empty level entered the tree of `f.side` at `f.i`. */
    twostate predicate Created(f: Focus)
      reads this, bids, asks, bids.levels, asks.levels, index, nodePool, nodePool.free, nodePool.store, levelPool, levelPool.free, levelPool.store, f.level, f.level.nodes
    {
      && f.level in levelPool.store && f.level !in old(bids.levels) && f.level !in old(asks.levels)
      && f.level.Valid() && f.level.nodes == [] && LevelSlot(f.level)
      && f.i <= |old(Tree(f.side).levels)| && Tree(f.side).levels == SpliceAt(old(Tree(f.side).levels), f.i, f.level)
      && Tree(f.side).Sorted() && unchanged(Tree(f.side.Opposite()))
      && levelPool.Valid() && levelPool.used == old(levelPool.used) + {f.level.poolIndex} && |levelPool.used| == |old(levelPool.used)| + 1
      && (forall p :: p in levelPool.store && p != f.level ==> unchanged(p))
      && (forall n :: n in nodePool.store ==> unchanged(n))
      && unchanged(index) && unchanged(nodePool) && unchanged(nodePool.free) && unchanged(`spare)
      && view == old(view).With(f.side, SpliceAt(old(view).Of(f.side), f.i, Level(f.level.price, [])))
    }

    twostate lemma CreateKeeps(f: Focus, new side: Side)
      requires Created(f) && old(TreeOK(side))
      ensures |old(view.Of(side))| == |old(Tree(side).levels)|
      ensures forall j :: 0 <= j < |old(Tree(side).levels)| ==>
                old(Tree(side).levels[j]) in levelPool.store && LevelOK(old(Tree(side).levels[j]), old(view.Of(side)[j]), side)
    {
      hide PriceLevel.Valid;
    }

    twostate lemma CreateTree(f: Focus, new side: Side)
      requires Created(f) && old(TreeOK(side)) && Apart()
      ensures TreeOK(side)
    {
      CreateKeeps(f, side);
      assert LevelOK(f.level, Level(f.level.price, []), f.side);
      hide LevelOK, PriceLevel.Valid;
    }

    twostate lemma CreateRest(f: Focus)
      requires Created(f) && old(IndexOK()) && old(LevelPoolOK())
      ensures IndexOK() && LevelPoolOK()
    {
      hide PriceLevel.Valid;
    }

    twostate lemma CreateNodePool(f: Focus)
      requires Created(f) && old(NodePoolOK()) && old(TreeOK(f.side))
      ensures NodePoolOK()
    {
      hide PriceLevel.Valid, LevelOK;
      SpliceEmptySum(old(view).Of(f.side), f.i, f.level.price, One);
    }

    twostate lemma CreateInv(f: Focus)
      requires Created(f) && old(Inv())
      ensures Inv()
    {
      hide Created, TreeOK, IndexOK, NodePoolOK, LevelPoolOK;
      assert f.side == Bid || f.side == Ask;
      CreateTree(f, Bid);
      CreateTree(f, Ask);
      CreateRest(f);
      CreateNodePool(f);
    }

    method CreateRaw(tree: PriceLevelTree, price: int, idx: int, ghost side: Side) returns (level: PriceLevel, ghost i: nat)
      requires tree == Tree(side) && tree.Sorted() && forall j :: 0 <= j < |tree.levels| ==> tree.levels[j].price != price
      requires 0 <= idx < |levelPool.store| && levelPool.store[idx] !in tree.levels
      modifies tree, levelPool.store[idx], `view
      ensures level == levelPool.store[idx] && level.Valid() && level.nodes == [] && level.price == price && level.poolIndex == idx
      ensures i <= |old(tree.levels)| && tree.levels == SpliceAt(old(tree.levels), i, level) && tree.Sorted()
      ensures view == old(view).With(side, SpliceAt(old(view).Of(side), i, Level(price, [])))
    {
      level := levelPool.store[idx];
      level.Reset(price, idx);
      i := tree.Insert(level);
      view := view.With(side, SpliceAt(view.Of(side), i, Level(price, [])));
    }

    lemma TreeFacts(side: Side)
      requires Inv()
      ensures Tree(side).Sorted() && levelPool.Valid() && Apart()
      ensures |levelPool.used| == Levels(view)
      ensures |Tree(side).levels| == |view.Of(side)| && SortedLevels(view.Of(side), side)
      ensures forall i :: 0 <= i < |view.Of(side)| ==> Tree(side).levels[i].price == view.Of(side)[i].price
    {
      hide IndexOK, NodePoolOK, PriceLevel.Valid;
    }

    /** The level at a price, made from a free slot when there is none; null when the pool is exhausted. */
    method GetOrCreate(tree: PriceLevelTree, price: int, ghost side: Side, ghost node: OrderNode) returns (level: PriceLevel?, ghost i: nat)
      requires tree == Tree(side) && Inv()
      modifies tree, levelPool`top, levelPool`used, levelPool.store, `view
      ensures Inv() && view.Of(side.Opposite()) == old(view).Of(side.Opposite())
      ensures level == null <==> !HasLevel(old(view).Of(side), price) && Levels(old(view)) >= |levelPool.store|
      ensures level == null ==> view == old(view)
      ensures level != null ==> AtLevel(Focus(side, level, node, i, 0)) && MadeAt(old(view).Of(side), view.Of(side), side, i, price)
    {
      hide Inv, Pool.Valid, PriceLevelTree.Sorted, PriceLevel.Valid;
      TreeFacts(side);
      FreeLevels();
      level, i := tree.Get(price);
      if level != null {
        return;
      }
      var ok, idx := levelPool.Acquire();
      if !ok {
        return;
      }
      level, i := CreateRaw(tree, price, idx, side);
      ghost var f := Focus(side, level, node, i, 0);
      assert Created(f);
      CreateInv(f);
      TreeFacts(side);
    }

    // ----- The book's own operations -----

    /** Everything an edit at `f` writes belongs to the book. */
    lemma Writable(f: Focus)
      requires Inv() && AtLevel(f) && (f.node in spare || f.node in f.level.nodes)
      ensures f.level in levelPool.store && f.node in nodePool.store && InStore(f.level)
    {
      LevelFacts(f.side, f.i);
      hide TreeOK, IndexOK, LevelPoolOK, PriceLevel.Valid;
      assert forall k :: 0 <= k < |f.level.nodes| ==> f.level.nodes[k] in nodePool.store;
    }

    /** Rest a held node on its own side; fails when its level is new and the pool is exhausted. */
    method RestNode(node: OrderNode) returns (ok: bool)
      requires Inv() && node in spare && node.o.id !in index.m
      modifies Footprint()
      ensures Inv() && ok == CanRestIn(old(view), old(node.o), |levelPool.store|)
      ensures ok ==> spare == old(spare) - {node} && view == Rest(old(view), old(node.o))
      ensures !ok ==> spare == old(spare) && view == old(view)
      ensures (forall n :: n in spare ==> n.o == old(n.o)) && orderSeq.n == old(orderSeq.n)
    {
      hide Inv, AtLevel, MadeAt, Insert, HasLevel;
      var tree := if node.o.side == Bid then bids else asks;
      ghost var side := node.o.side;
      var level, i := GetOrCreate(tree, node.o.price, side, node);
      if level == null {
        return false;
      }
      ghost var f := Focus(side, level, node, i, 0);
      Writable(f);
      RestAt(level, node, f, old(view));
      ok := true;
    }

    /** The level is there, perhaps just made: append, and that is inserting. */
    method RestAt(level: PriceLevel, node: OrderNode, ghost f: Focus, ghost was: Book)
      requires Inv() && f.level == level && f.node == node && AtLevel(f) && Held(f)
      requires MadeAt(was.Of(f.side), view.Of(f.side), f.side, f.i, node.o.price) && view.Of(f.side.Opposite()) == was.Of(f.side.Opposite())
      modifies level, nodePool.store, index, `view, `spare
      ensures Inv() && spare == old(spare) - {node} && view == Rest(was, old(node.o))
      ensures forall n :: n in nodePool.store ==> n.o == old(n.o)
    {
      hide Inv, AtLevel, MadeAt, Insert;
      Writable(f);
      InsertMade(was.Of(f.side), view.Of(f.side), f.i, node.o);
      Enqueue(level, node, f);
    }

    // ----- Matching -----

    lemma HeldUnlisted(node: OrderNode)
      requires Inv() && node in spare
      ensures node in nodePool.store && node.level == null && node !in index.m.Values && Unlisted(node, Bid) && Unlisted(node, Ask)
    {
      HeldNode(node);
      hide PriceLevel.Counted, NodePoolOK, LevelPoolOK, IndexOK;
    }

    twostate lemma HeldSlots(node: OrderNode)
      requires OnlyNode(node) && old(SlotsOK()) && node !in index.m.Values && node in old(spare) && node.level == null
      requires unchanged(`spare) && unchanged(nodePool) && node.poolIndex == old(node.poolIndex)
      ensures SlotsOK()
    {
    }

    /** Write the scalar fields of a node the caller holds. */
    method SetHeld(node: OrderNode, o: Order)
      requires Inv() && node in spare
      modifies node`o
      ensures Inv() && node.o == o
    {
      hide TreeOK, IndexOK, LevelPoolOK, SlotsOK, SumBook, Pool.Valid, DistinctNodes, Unlisted;
      HeldUnlisted(node);
      node.o := o;
      assert OnlyNode(node);
      AcquiredTree(node, Bid);
      AcquiredTree(node, Ask);
      AcquiredIndex(node);
      HeldSlots(node);
    }

    /** `level` is the best level of `side`. */
    ghost predicate Leads(side: Side, level: PriceLevel)
      reads Tree(side)
    {
      Tree(side).levels != [] && level == Tree(side).levels[0]
    }

    /** What the invariant says about the best level of a side. */
    lemma BestFacts(side: Side, level: PriceLevel)
      requires Inv() && Leads(side, level)
      ensures view.Of(side) != [] && level.price == view.Of(side)[0].price && level.orders == view.Of(side)[0].orders
      ensures |level.nodes| == |level.orders| && level in levelPool.store
      ensures level.head == (if level.nodes == [] then null else level.nodes[0])
      ensures level.nodes != [] ==> level.head.o == level.orders[0] && level.head in nodePool.store && level.head !in spare
      ensures level.nodes != [] ==> level.head.next == (if |level.nodes| > 1 then level.nodes[1] else null)
      ensures level.orders != [] ==> Info(level.orders) == LevelInfo(level.totalQty, level.displayQty, level.orderCount)
    {
      LevelFacts(side, 0);
      hide TreeOK, IndexOK, LevelPoolOK, LevelOK;
    }

    /** The match in progress is `m`: taker, opposite side (its best level perhaps just emptied), counter. */
    ghost predicate Facing(incoming: OrderNode, side: Side, m: Match)
      reads `view, incoming`o, orderSeq
    {
      incoming.o == m.taker && Trim(view.Of(side)) == m.opp && orderSeq.n == m.clock && incoming.o.side == side.Opposite()
    }

    /** The node about to be acted on heads the best level of `side`. */
    ghost predicate AtHead(side: Side, level: PriceLevel, node: OrderNode)
      reads Tree(side), level`nodes
    {
      Tree(side).levels != [] && level == Tree(side).levels[0] && level.nodes != [] && node == level.nodes[0]
    }

    /** Since `was`, the queue of the best level of `side` became `os`. */
    ghost predicate HeadIs(was: Book, side: Side, os: seq<Order>)
      reads `view
    {
      was.Of(side) != [] && view == was.With(side, WithQueue(was.Of(side), 0, os))
    }

    /** The best level's queue as a value. */
    ghost function HeadQueue(side: Side): seq<Order>
      reads `view
    {
      QueueAt(view.Of(side), 0)
    }

    method DecrementHead(level: PriceLevel, node: OrderNode, q: int, ghost side: Side)
      requires Inv() && AtHead(side, level, node)
      modifies level`totalQty, level`displayQty, level`orders, nodePool.store`o, `view
      ensures Inv() && AtHead(side, level, node) && node.o == Decrement(old(node.o), q)
      ensures old(HeadQueue(side)) != [] && old(HeadQueue(side))[0] == old(node.o)
      ensures HeadIs(old(view), side, [node.o] + old(HeadQueue(side))[1..])
      ensures forall n :: n in spare ==> n.o == old(n.o)
    {
      hide Inv, PriceLevel.Valid;
      ghost var f := Focus(side, level, node, 0, 0);
      BestFacts(side, level);
      Writable(f);
      DecrementAt(level, node, q, f);
      assert PutAt(old(HeadQueue(side)), 0, node.o) == [node.o] + old(HeadQueue(side))[1..];
    }

    /** Send the exhausted slice's order to the tail, refilled under a fresh sequence number. */
    method RecycleHead(level: PriceLevel, node: OrderNode, ghost side: Side)
      requires Inv() && AtHead(side, level, node)
      modifies level, nodePool.store, `view, orderSeq
      ensures level.price == old(level.price)
      ensures Inv() && Leads(side, level) && level.nodes != [] && orderSeq.n == old(orderSeq.n) + 1 && spare == old(spare)
      ensures HeadIs(old(view), side, Tail(old(HeadQueue(side))) + [Replenish(old(node.o), orderSeq.n)])
      ensures forall n :: n in spare ==> n.o == old(n.o)
    {
      hide Inv, PriceLevel.Valid;
      ghost var f := Focus(side, level, node, 0, 0);
      BestFacts(side, level);
      var n := orderSeq.Next();
      Writable(f);
      DropFirst(HeadQueue(side));
      ReplenishAt(level, node, n, f);
    }

    method DetachHead(level: PriceLevel, node: OrderNode, ghost side: Side) returns (next: OrderNode?)
      requires Inv() && AtHead(side, level, node)
      modifies level, nodePool.store, index, `view, `spare
      ensures level.price == old(level.price)
      ensures Inv() && Leads(side, level) && node !in old(spare) && spare == old(spare) + {node}
      ensures next == if level.nodes == [] then null else level.nodes[0]
      ensures HeadIs(old(view), side, Tail(old(HeadQueue(side))))
      ensures forall n :: n in spare ==> n.o == old(n.o)
    {
      hide Inv, PriceLevel.Valid;
      ghost var f := Focus(side, level, node, 0, 0);
      BestFacts(side, level);
      Writable(f);
      next := node.next;
      DropFirst(level.nodes);
      DropFirst(HeadQueue(side));
      Detach(level, node, f);
    }

    /** Take the head off the book for good and name the next node of its level. */
    method RemoveHead(level: PriceLevel, node: OrderNode, ghost side: Side) returns (next: OrderNode?)
      requires Inv() && AtHead(side, level, node)
      modifies level, nodePool.store, nodePool, nodePool.free, index, `view, `spare
      ensures level.price == old(level.price)
      ensures Inv() && Leads(side, level) && spare == old(spare)
      ensures next == if level.nodes == [] then null else level.nodes[0]
      ensures HeadIs(old(view), side, Tail(old(HeadQueue(side))))
      ensures forall n :: n in spare ==> n.o == old(n.o)
    {
      hide Inv, PriceLevel.Valid, AtHead, HeadIs;
      next := DetachHead(level, node, side);
      ReleaseNode(node);
      assert spare == old(spare);
    }

    /** Two successive changes of the same best queue. */
    lemma HeadTwice(was: Book, mid: Book, side: Side, os: seq<Order>, os': seq<Order>)
      requires was.Of(side) != [] && mid == was.With(side, WithQueue(was.Of(side), 0, os))
      requires HeadIs(mid, side, os')
      ensures HeadIs(was, side, os')
    {
    }

    /** What a match sees when the best queue, non-empty before, became `os`. */
    lemma HeadSeen(was: Book, side: Side, os: seq<Order>)
      requires HeadIs(was, side, os) && was.Of(side)[0].orders != []
      ensures Trim(was.Of(side)) == was.Of(side) && Trim(view.Of(side)) == WithHead(was.Of(side), os)
      ensures view.Of(side.Opposite()) == was.Of(side.Opposite())
    {
      TrimHead(was.Of(side), os);
    }

    /** The public state of the best level as its running totals tell it. */
    method LevelState(level: PriceLevel, ghost side: Side) returns (info: LevelInfo)
      requires Inv() && Leads(side, level)
      ensures info == Info(HeadQueue(side))
    {
      hide Inv;
      BestFacts(side, level);
      info := if level.IsEmpty() then NoLevel else LevelInfo(level.totalQty, level.displayQty, level.orderCount);
    }

    /** After its head traded: recycle an exhausted iceberg slice, remove an exhausted order, or leave it. */
    method SettleHead(level: PriceLevel, node: OrderNode, ghost side: Side) returns (next: OrderNode?)
      requires Inv() && AtHead(side, level, node)
      modifies level, nodePool.store, nodePool, nodePool.free, index, `view, `spare, orderSeq
      ensures level.price == old(level.price)
      ensures Inv() && Leads(side, level) && spare == old(spare)
      ensures orderSeq.n == old(orderSeq.n) + (if old(node.o).remain == 0 && old(node.o).hidden > 0 then 1 else 0)
      ensures HeadIs(old(view), side, SettledQueue(old(node.o), Tail(old(HeadQueue(side))), old(orderSeq.n)))
      ensures old(node.o.remain) == 0 ==> next == if level.nodes == [] then null else level.nodes[0]
      ensures forall n :: n in spare ==> n.o == old(n.o)
    {
      hide Inv, PriceLevel.Valid;
      BestFacts(side, level);
      if node.o.remain == 0 && node.o.hidden > 0 {
        RecycleHead(level, node, side);
        BestFacts(side, level);
        next := level.head;
      } else if node.o.remain == 0 {
        next := RemoveHead(level, node, side);
      } else {
        assert [node.o] + Tail(HeadQueue(side)) == HeadQueue(side);
        next := node;
      }
    }

    /** What the match in progress says about the head of the best level. */
    lemma FacingFacts(incoming: OrderNode, side: Side, level: PriceLevel, m: Match)
      requires Inv() && Leads(side, level) && level.nodes != [] && Facing(incoming, side, m)
      ensures view.Of(side) != [] && view.Of(side) == m.opp && HeadQueue(side) == m.opp[0].orders && m.opp[0].orders != []
      ensures level.nodes[0].o == m.opp[0].orders[0] && level.price == m.opp[0].price
    {
      hide Inv;
      BestFacts(side, level);
    }

    /** What one trade does to the taker, the opposite side and the counter. */
    lemma TradeParts(m: Match)
      requires m.opp != [] && m.opp[0].orders != []
      ensures var o := m.opp[0].orders[0]; var q := Min(o.remain, m.taker.remain); var n := Trade(m);
        && n.taker == m.taker.(remain := m.taker.remain - q, filled := m.taker.filled + q)
        && n.opp == WithHead(m.opp, TradedQueue(m.opp[0].orders, q, m.clock))
        && n.clock == if Decrement(o, q).remain == 0 && Decrement(o, q).hidden > 0 then m.clock + 1 else m.clock
    {
    }

    /** Take `q` from the taker and from the head of the best level. */
    method TakeBoth(incoming: OrderNode, level: PriceLevel, node: OrderNode, q: int, ghost side: Side, ghost m: Match)
      requires Inv() && incoming in spare && AtHead(side, level, node) && Facing(incoming, side, m) && Live(m)
      modifies level`totalQty, level`displayQty, level`orders, nodePool.store`o, `view
      ensures Inv() && AtHead(side, level, node) && node.o == Decrement(m.opp[0].orders[0], q)
      ensures incoming.o == m.taker.(remain := m.taker.remain - q, filled := m.taker.filled + q)
      ensures HeadIs(old(view), side, [node.o] + m.opp[0].orders[1..])
    {
      hide Inv, PriceLevel.Valid, Unlisted, Info, Decrement;
      HeldUnlisted(incoming);
      FacingFacts(incoming, side, level, m);
      SetHeld(incoming, incoming.o.(remain := incoming.o.remain - q, filled := incoming.o.filled + q));
      DecrementHead(level, node, q, side);
    }

    /** What the match sees after the trade: twice the best queue changed, and to what. */
    lemma TradeSeen(was: Book, mid: Book, side: Side, maker: Order, m: Match, q: int)
      requires Live(m) && Trim(was.Of(side)) == m.opp && q == Min(m.opp[0].orders[0].remain, m.taker.remain)
      requires was.Of(side) != [] && was.Of(side)[0].orders != [] && mid == was.With(side, WithQueue(was.Of(side), 0, [maker] + m.opp[0].orders[1..]))
      requires maker == Decrement(m.opp[0].orders[0], q) && HeadIs(mid, side, TradedQueue(m.opp[0].orders, q, m.clock))
      ensures Trim(view.Of(side)) == Trade(m).opp && view.Of(side.Opposite()) == was.Of(side.Opposite())
      ensures HeadQueue(side) == TradedQueue(m.opp[0].orders, q, m.clock)
    {
      hide TradedQueue, Decrement, WithHead, Trade;
      TradeParts(m);
      HeadTwice(was, mid, side, [maker] + m.opp[0].orders[1..], TradedQueue(m.opp[0].orders, q, m.clock));
      HeadSeen(was, side, TradedQueue(m.opp[0].orders, q, m.clock));
    }

    /** Trade `q` between the taker and the head of the best level. */
    method ExecHead(incoming: OrderNode, level: PriceLevel, node: OrderNode, q: int, ghost side: Side, ghost m: Match)
      returns (maker: Order, next: OrderNode?)
      requires Inv() && incoming in spare && AtHead(side, level, node) && Facing(incoming, side, m)
      requires Live(m) && q == Min(m.opp[0].orders[0].remain, m.taker.remain)
      modifies level, nodePool.store, nodePool, nodePool.free, index, `view, `spare, orderSeq
      ensures level.price == old(level.price)
      ensures Inv() && spare == old(spare) && Leads(side, level)
      ensures Facing(incoming, side, Trade(m)) && maker == Decrement(m.opp[0].orders[0], q)
      ensures HeadQueue(side) == TradedQueue(m.opp[0].orders, q, m.clock)
      ensures view.Of(side.Opposite()) == old(view).Of(side.Opposite())
      ensures maker.remain == 0 ==> next == if level.nodes == [] then null else level.nodes[0]
    {
      hide Inv, PriceLevel.Valid, Unlisted, Info, Trade, WithHead, SumOf, Crosses, SettledQueue, Decrement;
      TradeParts(m);
      FacingFacts(incoming, side, level, m);
      ghost var was := view;
      TakeBoth(incoming, level, node, q, side, m);
      ghost var mid := view;
      maker := node.o;
      assert Tail(HeadQueue(side)) == m.opp[0].orders[1..];
      next := SettleHead(level, node, side);
      TradeSeen(was, mid, side, maker, m, q);
    }

    /** One fill against the head of the best level. */
    method FillHead(incoming: OrderNode, level: PriceLevel, node: OrderNode, ghost side: Side, ghost m: Match)
      returns (fill: Fill, next: OrderNode?)
      requires Inv() && incoming in spare && AtHead(side, level, node) && Facing(incoming, side, m)
      requires Live(m)
      modifies level, nodePool.store, nodePool, nodePool.free, index, `view, `spare, orderSeq
      ensures level.price == old(level.price)
      ensures Inv() && spare == old(spare) && Leads(side, level)
      ensures Facing(incoming, side, Trade(m)) && Trade(m).fills == m.fills + [fill]
      ensures view.Of(side.Opposite()) == old(view).Of(side.Opposite())
      ensures incoming.o.remain > 0 ==> next == if level.nodes == [] then null else level.nodes[0]
    {
      hide Inv, PriceLevel.Valid, Info, TradedQueue;
      FacingFacts(incoming, side, level, m);
      var q := Min(node.o.remain, incoming.o.remain);
      var price := level.price;
      var maker;
      maker, next := ExecHead(incoming, level, node, q, side, m);
      var info := LevelState(level, side);
      fill := Fill(maker.id, incoming.o.id, maker.user, incoming.o.user, maker.side, price, q,
                   maker.remain, incoming.o.remain, maker.seqNum, incoming.o.seqNum, info);
    }

    // ----- Self-trade prevention -----

    /** Remove the maker heading the best level and report what it was. */
    method CancelMakerNode(level: PriceLevel, maker: OrderNode, ghost incoming: OrderNode, ghost side: Side, ghost m: Match)
      returns (sc: STPCanceled, next: OrderNode?)
      requires Inv() && incoming in spare && AtHead(side, level, maker) && Facing(incoming, side, m)
      modifies level, nodePool.store, nodePool, nodePool.free, index, `view, `spare
      ensures level.price == old(level.price)
      ensures Inv() && spare == old(spare) && Leads(side, level) && incoming.o == old(incoming.o)
      ensures m.opp != [] && m.opp[0].orders != [] && sc == STPRecord(m.opp[0].orders[0], m.opp[0].price)
      ensures HeadIs(old(view), side, Tail(m.opp[0].orders)) && Trim(view.Of(side)) == WithHead(m.opp, m.opp[0].orders[1..])
      ensures view.Of(side.Opposite()) == old(view).Of(side.Opposite())
      ensures next == if level.nodes == [] then null else level.nodes[0]
    {
      hide Inv, PriceLevel.Valid;
      FacingFacts(incoming, side, level, m);
      sc := STPCanceled(maker.o.id, maker.o.user, maker.o.side, level.price, maker.o.remain, maker.o.filled);
      next := RemoveHead(level, maker, side);
      HeadSeen(old(view), side, Tail(m.opp[0].orders));
    }

    /** Drop the best level if its queue is empty. */
    method CleanupLevelIfEmpty(tree: PriceLevelTree, level: PriceLevel, ghost side: Side, ghost any: OrderNode)
      requires Inv() && tree == Tree(side) && Leads(side, level)
      modifies tree, levelPool, levelPool.free, `view
      ensures Inv() && view.Of(side) == Trim(old(view).Of(side)) && view.Of(side.Opposite()) == old(view).Of(side.Opposite())
    {
      hide Inv, PriceLevel.Valid;
      BestFacts(side, level);
      if level.IsEmpty() {
        DropFirst(view.Of(side));
        DropLevel(tree, level, Focus(side, level, any, 0, 0));
      }
    }

    /** The match `n` is over: nothing empty is left behind. */
    ghost predicate Halted(incoming: OrderNode, side: Side, n: Match)
      reads `view, incoming`o, orderSeq
    {
      incoming.o == n.taker && view.Of(side) == n.opp && orderSeq.n == n.clock
    }

    /** The larger maker loses the taker's quantity, and the taker is done. */
    method DecrementMaker(incoming: OrderNode, maker: OrderNode, level: PriceLevel, ghost side: Side, ghost m: Match)
      requires Inv() && incoming in spare && AtHead(side, level, maker) && Facing(incoming, side, m) && Live(m)
      requires maker.o.remain > incoming.o.remain
      modifies level, nodePool.store, `view
      ensures level.price == old(level.price)
      ensures Inv() && spare == old(spare) && view.Of(side.Opposite()) == old(view).Of(side.Opposite())
      ensures var n := Prevent(m, STPDecrementCancel); n.stopped && n.cancels == m.cancels && Halted(incoming, side, n)
    {
      hide Inv, PriceLevel.Valid, Unlisted;
      FacingFacts(incoming, side, level, m);
      HeldUnlisted(incoming);
      DecrementHead(level, maker, incoming.o.remain, side);
      HeadSeen(old(view), side, [maker.o] + m.opp[0].orders[1..]);
      SetHeld(incoming, incoming.o.(remain := 0));
    }

    /** Taker and maker lose the smaller quantity without a trade, and whoever has none left is out. */
    method DecrementBoth(incoming: OrderNode, maker: OrderNode, level: PriceLevel, ghost side: Side, ghost m: Match)
      returns (next: OrderNode?, cont: bool, canceled: seq<STPCanceled>)
      requires Inv() && incoming in spare && AtHead(side, level, maker) && Facing(incoming, side, m) && Live(m)
      modifies level, nodePool.store, nodePool, nodePool.free, index, `view, `spare
      ensures level.price == old(level.price)
      ensures Inv() && spare == old(spare) && view.Of(side.Opposite()) == old(view).Of(side.Opposite())
      ensures var n := Prevent(m, STPDecrementCancel);
        && cont == !n.stopped && n.cancels == m.cancels + canceled
        && (cont ==> Leads(side, level) && Facing(incoming, side, n) && next == if level.nodes == [] then null else level.nodes[0])
        && (!cont ==> Halted(incoming, side, n))
    {
      hide Inv, PriceLevel.Valid, Unlisted;
      FacingFacts(incoming, side, level, m);
      HeldUnlisted(incoming);
      if maker.o.remain > incoming.o.remain {
        DecrementMaker(incoming, maker, level, side, m);
        return null, false, [];
      }
      var q := maker.o.remain;
      var sc;
      sc, next := CancelMakerNode(level, maker, incoming, side, m);
      SetHeld(incoming, incoming.o.(remain := incoming.o.remain - q, filled := incoming.o.filled + q));
      canceled, cont := [sc], true;
    }

    /** Act on the head of the best level as the mode in force demands. */
    method ApplySTP(incoming: OrderNode, maker: OrderNode, tree: PriceLevelTree, level: PriceLevel, mode: STPMode, ghost side: Side, ghost m: Match)
      returns (next: OrderNode?, cont: bool, canceled: seq<STPCanceled>)
      requires Inv() && incoming in spare && tree == Tree(side) && AtHead(side, level, maker) && Facing(incoming, side, m)
      requires Live(m) && mode != STPDisabled
      modifies tree, level, levelPool, levelPool.free, nodePool.store, nodePool, nodePool.free, index, `view, `spare
      ensures level.price == old(level.price)
      ensures Inv() && spare == old(spare) && view.Of(side.Opposite()) == old(view).Of(side.Opposite())
      ensures cont == !Prevent(m, mode).stopped && Prevent(m, mode).cancels == m.cancels + canceled
      ensures cont ==> Leads(side, level) && Facing(incoming, side, Prevent(m, mode))
      ensures cont ==> next == if level.nodes == [] then null else level.nodes[0]
      ensures !cont ==> Halted(incoming, side, Prevent(m, mode))
    {
      hide Inv, PriceLevel.Valid, Unlisted;
      FacingFacts(incoming, side, level, m);
      HeldUnlisted(incoming);
      next, cont, canceled := null, false, [];
      match mode {
        case STPCancelBoth =>
          var sc;
          sc, next := CancelMakerNode(level, maker, incoming, side, m);
          canceled := [sc];
          CleanupLevelIfEmpty(tree, level, side, incoming);
          SetHeld(incoming, incoming.o.(remain := 0));
          next := null;
        case STPCancelMaker =>
          var sc;
          sc, next := CancelMakerNode(level, maker, incoming, side, m);
          canceled, cont := [sc], true;
        case STPCancelTaker =>
          SetHeld(incoming, incoming.o.(remain := 0));
        case STPDecrementCancel =>
          next, cont, canceled := DecrementBoth(incoming, maker, level, side, m);
      }
    }

    // ----- The matching loop -----

    predicate STPEnabled(incoming: Order, maker: Order) {
      incoming.user == maker.user && EffectiveSTP(incoming, maker, stpDefault) != STPDisabled
    }

    /** The match in progress is live, and `node` is the head it acts on. */
    lemma LiveHead(incoming: OrderNode, side: Side, level: PriceLevel, m: Match)
      requires Inv() && Leads(side, level) && level.nodes != [] && Facing(incoming, side, m)
      requires !m.stopped && incoming.o.remain > 0 && Crosses(m.taker, level.price) && SoundSide(m.opp, side)
      ensures Live(m) && level.nodes[0].o == m.opp[0].orders[0] && Run(m, stpDefault) == Run(Step(m, stpDefault), stpDefault)
      ensures SoundSide(Step(m, stpDefault).opp, side)
      ensures Less(Step(m, stpDefault), m) && Step(m, stpDefault).taker.remain >= 0 && SumLevels(Step(m, stpDefault).opp, One) >= 0
      ensures Crosses(Step(m, stpDefault).taker, level.price)
    {
      hide Inv, Step, SumLevels;
      FacingFacts(incoming, side, level, m);
      StepSound(m, stpDefault, side);
      StepDecreases(m, stpDefault);
      StepTaker(m, stpDefault);
      SumOneNonNegative(Step(m, stpDefault).opp);
    }

    /** Act on the head of the best level once: self-trade prevention where it applies, else a fill. */
    method StepHead(incoming: OrderNode, tree: PriceLevelTree, level: PriceLevel, node: OrderNode, ghost side: Side, ghost m: Match)
      returns (next: OrderNode?, fills: seq<Fill>, cancels: seq<STPCanceled>, stopped: bool)
      requires Inv() && incoming in spare && tree == Tree(side) && AtHead(side, level, node) && Facing(incoming, side, m)
      requires Live(m)
      modifies tree, level, levelPool, levelPool.free, nodePool.store, nodePool, nodePool.free, index, `view, `spare, orderSeq
      ensures level.price == old(level.price)
      ensures Inv() && spare == old(spare) && view.Of(side.Opposite()) == old(view).Of(side.Opposite())
      ensures var n := Step(m, stpDefault);
        && n.fills == m.fills + fills && n.cancels == m.cancels + cancels && n.stopped == stopped
        && (stopped ==> Halted(incoming, side, n))
        && (!stopped ==> Leads(side, level) && Facing(incoming, side, n))
        && (!stopped && incoming.o.remain > 0 ==> next == if level.nodes == [] then null else level.nodes[0])
    {
      hide Inv, Halted, Trade, Prevent;
      FacingFacts(incoming, side, level, m);
      StepLists(m, EffectiveSTP(m.taker, m.opp[0].orders[0], stpDefault));
      next, fills, cancels, stopped := node, [], [], false;
      if STPEnabled(incoming.o, node.o) {
        var mode := EffectiveSTP(incoming.o, node.o, stpDefault);
        var cont;
        next, cont, cancels := ApplySTP(incoming, node, tree, level, mode, side, m);
        stopped := !cont;
      } else {
        var fill;
        fill, next := FillHead(incoming, level, node, side, m);
        fills := [fill];
      }
    }

    /** Work through one level, head by head, until it is empty or the taker is done. */
    method MatchLevel(incoming: OrderNode, tree: PriceLevelTree, level: PriceLevel, ghost side: Side, ghost start: Match)
      returns (fills: seq<Fill>, cancels: seq<STPCanceled>, stopped: bool, ghost m: Match)
      requires Inv() && incoming in spare && tree == Tree(side) && Leads(side, level) && level.nodes != []
      requires Facing(incoming, side, start) && SoundSide(start.opp, side)
      requires !start.stopped && incoming.o.remain > 0 && Crosses(start.taker, level.price)
      modifies tree, level, levelPool, levelPool.free, nodePool.store, nodePool, nodePool.free, index, `view, `spare, orderSeq
      ensures Inv() && spare == old(spare) && view.Of(side.Opposite()) == old(view).Of(side.Opposite())
      ensures m.fills == start.fills + fills && m.cancels == start.cancels + cancels && m.stopped == stopped
      ensures Run(start, stpDefault) == Run(m, stpDefault) && Less(m, start) && SoundSide(m.opp, side) && m.taker.remain >= 0
      ensures stopped ==> Halted(incoming, side, m)
      ensures !stopped ==> Leads(side, level) && Facing(incoming, side, m) && (level.nodes == [] || incoming.o.remain == 0)
    {
      hide Inv, Halted, Step, Run, SoundSide, Trim, SumLevels, One, Crosses;
      BestFacts(side, level);
      var node: OrderNode? := level.head;
      fills, cancels, stopped, m := [], [], false, start;
      while node != null && incoming.o.remain > 0
        invariant Inv() && spare == old(spare) && view.Of(side.Opposite()) == old(view).Of(side.Opposite())
        invariant m.fills == start.fills + fills && m.cancels == start.cancels + cancels && m.stopped == stopped == false
        invariant Run(start, stpDefault) == Run(m, stpDefault) && SoundSide(m.opp, side)
        invariant Leads(side, level) && Facing(incoming, side, m) && Crosses(m.taker, level.price) && m.taker.remain >= 0
        invariant incoming.o.remain > 0 ==> node == if level.nodes == [] then null else level.nodes[0]
        invariant (m == start && level.nodes != [] && incoming.o.remain > 0) || Less(m, start)
        decreases incoming.o.remain, SumLevels(m.opp, One)
      {
        LiveHead(incoming, side, level, m);
        ghost var n := Step(m, stpDefault);
        var fs, cs;
        node, fs, cs, stopped := StepHead(incoming, tree, level, node, side, m);
        fills, cancels := fills + fs, cancels + cs;
        m := n;
        if stopped {
          return;
        }
      }
    }

    lemma StartFacing(incoming: OrderNode, side: Side, level: PriceLevel, m: Match)
      requires Inv() && Leads(side, level) && incoming.o == m.taker && view.Of(side) == m.opp && orderSeq.n == m.clock
      requires incoming.o.side == side.Opposite() && SoundSide(m.opp, side)
      ensures Facing(incoming, side, m) && level.nodes != [] && m.opp != [] && m.opp[0].price == level.price
      ensures level in levelPool.store
    {
      hide Inv;
      BestFacts(side, level);
    }

    /** Match the taker against the opposite side until it is done or nothing crosses. */
    method MatchLoop(incoming: OrderNode, tree: PriceLevelTree, ghost side: Side)
      returns (fills: seq<Fill>, cancels: seq<STPCanceled>, stopped: bool)
      requires Inv() && incoming in spare && tree == Tree(side) && incoming.o.side == side.Opposite()
      requires SoundSide(view.Of(side), side)
      modifies Footprint()
      ensures Inv() && spare == old(spare) && view.Of(side.Opposite()) == old(view).Of(side.Opposite())
      ensures var m := Run(Match(old(incoming.o), old(view.Of(side)), old(orderSeq.n), [], [], false), stpDefault);
        Halted(incoming, side, m) && m.fills == fills && m.cancels == cancels && m.stopped == stopped
    {
      hide Inv, Step, SoundSide, Trim, SortedLevels, PriceLevelTree.Sorted, Pool.Valid;
      ghost var m := Match(incoming.o, view.Of(side), orderSeq.n, [], [], false);
      ghost var start := m;
      fills, cancels, stopped := [], [], false;
      while incoming.o.remain > 0
        invariant Inv() && spare == old(spare) && view.Of(side.Opposite()) == old(view).Of(side.Opposite())
        invariant m.fills == fills && m.cancels == cancels && m.stopped == stopped == false
        invariant Run(start, stpDefault) == Run(m, stpDefault) && SoundSide(m.opp, side)
        invariant Halted(incoming, side, m) && incoming.o.side == side.Opposite()
        decreases incoming.o.remain, SumLevels(m.opp, One)
      {
        var best := tree.Best();
        TreeFacts(side);
        if best == null {
          break;
        }
        StartFacing(incoming, side, best, m);
        if !Crosses(incoming.o, best.price) {
          break;
        }
        var fs, cs;
        ghost var n;
        fs, cs, stopped, n := MatchLevel(incoming, tree, best, side, m);
        SumOneNonNegative(n.opp);
        fills, cancels, m := fills + fs, cancels + cs, n;
        if stopped {
          break;
        }
        CleanupLevelIfEmpty(tree, best, side, incoming);
      }
      assert !Live(m);
    }

    // ----- The index agrees with the queues -----

    lemma IndexedSide(side: Side, id: OrderId)
      requires TreeOK(side) && SumLevels(view.Of(side), HasId(id)) > 0
      ensures id in index.m
    {
      SideCount(view.Of(side), id);
      var i, k :| IdAt(view.Of(side), i, k, id);
      LevelFacts(side, i);
      hide TreeOK, PriceLevel.Linked;
      assert Indexed(Tree(side).levels[i].nodes[k]);
    }

    lemma ListedId(id: OrderId)
      requires IndexOK() && id in index.m && TreeOK(index.m[id].o.side)
      ensures SumLevels(view.Of(index.m[id].o.side), HasId(id)) > 0
    {
      var n := index.m[id];
      var side := n.o.side;
      var i :| 0 <= i < |Tree(side).levels| && Tree(side).levels[i] == n.level;
      LevelFacts(side, i);
      hide TreeOK, IndexOK, PriceLevel.Linked;
      var k :| 0 <= k < |n.level.nodes| && n.level.nodes[k] == n;
      assert n.o == n.level.orders[k];
      assert IdAt(view.Of(side), i, k, id);
      SideCount(view.Of(side), id);
    }

    /** An id is in the index exactly when an order with it rests in the book. */
    lemma IndexHolds(id: OrderId)
      requires Inv()
      ensures id in index.m <==> Holds(view, id)
    {
      hide TreeOK, IndexOK, NodePoolOK, LevelPoolOK;
      SideCount(view.bids, id);
      SideCount(view.asks, id);
      if id in index.m {
        assert index.m[id].o.side == Bid || index.m[id].o.side == Ask;
        ListedId(id);
      }
      if Holds(view, id) {
        if SumLevels(view.bids, HasId(id)) > 0 {
          IndexedSide(Bid, id);
        } else {
          IndexedSide(Ask, id);
        }
      }
    }

    /** The running total of every level is the sum over its queue. */
    lemma Totals(side: Side)
      requires Inv()
      ensures |Tree(side).levels| == |view.Of(side)|
      ensures forall i :: 0 <= i < |view.Of(side)| ==>
                Tree(side).levels[i].price == view.Of(side)[i].price && Tree(side).levels[i].totalQty == SumOf(view.Of(side)[i].orders, RemainOf)
    {
      hide PriceLevel.Linked, IndexOK, NodePoolOK, LevelPoolOK;
    }

    /** The fill-or-kill dry run: scan crossing levels best first, stopping as soon as they suffice. */
    method CanFillFull(incoming: OrderNode) returns (ok: bool)
      requires Inv() && SoundBook(view)
      ensures ok == (Available(incoming.o, view.Of(incoming.o.side.Opposite())) >= incoming.o.remain)
    {
      hide Inv, SoundSide;
      var tree := if incoming.o.side == Bid then asks else bids;
      ghost var side := incoming.o.side.Opposite();
      ghost var ls := view.Of(side);
      Totals(side);
      var available, i := 0, 0;
      while i < |tree.levels|
        invariant 0 <= i <= |ls|
        invariant Available(incoming.o, ls) == available + Available(incoming.o, ls[i..])
      {
        ScanStep(incoming.o, ls, i, side);
        if !Crosses(incoming.o, tree.levels[i].price) {
          return available >= incoming.o.remain;
        }
        available := available + tree.levels[i].totalQty;
        i := i + 1;
        if available >= incoming.o.remain {
          return true;
        }
      }
      ok := available >= incoming.o.remain;
    }

    /** Match a held node and rest, release or reject it; the whole placement of the greedy process. */
    method MatchOrder(incoming: OrderNode) returns (fills: seq<Fill>, cancels: seq<STPCanceled>, disposition: Disposition)
      requires Inv() && incoming in spare && SoundBook(view) && !Holds(view, incoming.o.id)
      modifies Footprint()
      ensures Inv() && spare == old(spare) - {incoming}
      ensures Outcome(view, orderSeq.n, fills, cancels, disposition)
           == Place(old(view), old(incoming.o), old(orderSeq.n), stpDefault, |levelPool.store|)
    {
      hide Inv, SoundSide, Run, Available, Holds;
      fills, cancels := [], [];
      if incoming.o.tif == FOK {
        var full := CanFillFull(incoming);
        if !full {
          ReleaseNode(incoming);
          return [], [], Rejected;
        }
      }
      FreshAfterRun(view, incoming.o, orderSeq.n, stpDefault);
      var tree := if incoming.o.side == Bid then asks else bids;
      var stopped;
      fills, cancels, stopped := MatchLoop(incoming, tree, incoming.o.side.Opposite());
      IndexHolds(incoming.o.id);
      if stopped {
        ReleaseNode(incoming);
        return fills, cancels, STPCanceledTaker;
      }
      if incoming.o.remain == 0 {
        ReleaseNode(incoming);
        return fills, cancels, FullyFilled;
      }
      if incoming.o.tif == IOC {
        ReleaseNode(incoming);
        return fills, cancels, if |fills| > 0 then PartialFillCanceled else Canceled;
      }
      if incoming.o.typ == Market {
        ReleaseNode(incoming);
        return fills, cancels, Canceled;
      }
      var rested := RestNode(incoming);
      if !rested {
        ReleaseNode(incoming);
        return fills, cancels, if |fills| > 0 then PartialFillCanceled else Canceled;
      }
      disposition := if |fills| > 0 then PartialFillRested else Rested;
    }

    // ----- Reading the book -----

    method HasOrder(id: OrderId) returns (found: bool)
      requires Inv()
      ensures found == Holds(view, id)
    {
      hide Inv, Holds;
      IndexHolds(id);
      found := id in index.m;
    }

    /** What the running totals of a level say is its public state. */
    lemma LevelTotals(l: PriceLevel, v: Level, side: Side)
      requires LevelOK(l, v, side)
      ensures l.price == v.price && (v.orders != [] ==> LevelInfo(l.totalQty, l.displayQty, l.orderCount) == Info(v.orders))
    {
      hide PriceLevel.Linked;
    }

    /** The public state of a level, and whether there is one at all. */
    method LevelInfoAt(side: Side, price: int) returns (info: LevelInfo)
      requires Inv() && SoundBook(view)
      ensures info == InfoAt(view.Of(side), price)
    {
      hide Inv, SortedLevels, Info, LevelOK, TreeOK;
      TreeFacts(side);
      var tree := if side == Bid then bids else asks;
      var level, i := tree.Get(price);
      if level == null {
        NoInfo(view.Of(side), price);
        info := NoLevel;
      } else {
        TreeHolds(side);
        LevelFacts(side, i);
        LevelTotals(level, view.Of(side)[i], side);
        InfoFound(view.Of(side), side, i);
        info := LevelInfo(level.totalQty, level.displayQty, level.orderCount);
      }
    }

    lemma TreeHolds(side: Side)
      requires Inv()
      ensures TreeOK(side)
    {
      hide TreeOK, IndexOK, NodePoolOK, LevelPoolOK;
    }

    method HasLevelAt(side: Side, price: int) returns (found: bool)
      requires Inv()
      ensures found == HasLevel(view.Of(side), price)
    {
      hide Inv;
      Totals(side);
      var tree := if side == Bid then bids else asks;
      var level, i := tree.Get(price);
      found := level != null;
    }

    method LevelPoolFull() returns (full: bool)
      requires Inv()
      ensures full == (Levels(view) >= |levelPool.store|)
    {
      hide IndexOK, NodePoolOK, PriceLevel.Valid;
      full := levelPool.Len() >= |levelPool.store|;
    }

    /** Would a limit at `price` fill at once? */
    method CrossesBest(price: int, side: Side) returns (crosses: bool)
      requires Inv()
      ensures crosses == WouldCross(view, side, price)
    {
      hide Inv;
      Totals(side.Opposite());
      var tree := if side == Bid then asks else bids;
      var best := tree.Best();
      if best == null {
        return false;
      }
      crosses := if side == Bid then price >= best.price else price <= best.price;
    }

    /** What an order still rests with, its reserve included, and what it shows. */
    method OrderRestInfo(id: OrderId) returns (remain: int, display: int, ok: bool)
      requires Inv()
      ensures match Find(view, id)
              case Missing => !ok && remain == 0 && display == 0
              case Found(o) => ok && remain == (if o.hidden > 0 then o.remain + o.hidden else o.remain) && display == o.display
    {
      hide Inv, Find;
      IndexFind(id);
      if id !in index.m {
        return 0, 0, false;
      }
      var node := index.m[id];
      remain := node.o.remain;
      if node.o.hidden > 0 {
        remain := remain + node.o.hidden;
      }
      display, ok := node.o.display, true;
    }

    /** Best bid and best ask, where there are any. */
    method BBO() returns (bid: int, ask: int, hasBid: bool, hasAsk: bool)
      requires Inv()
      ensures hasBid == (view.bids != []) && (hasBid ==> bid == view.bids[0].price)
      ensures hasAsk == (view.asks != []) && (hasAsk ==> ask == view.asks[0].price)
    {
      hide Inv;
      Totals(Bid);
      Totals(Ask);
      bid, ask, hasBid, hasAsk := 0, 0, false, false;
      var best := bids.Best();
      if best != null {
        bid, hasBid := best.price, true;
      }
      best := asks.Best();
      if best != null {
        ask, hasAsk := best.price, true;
      }
    }

    // ----- Cancel and expiry -----

    /** Where an indexed node rests. */
    lemma Locate(id: OrderId) returns (f: Focus)
      requires Inv() && id in index.m
      ensures At(f) && f.node == index.m[id] && f.node.level == f.level && f.node.o.id == id && f.side == f.node.o.side
      ensures f.level in levelPool.store && f.node !in spare
    {
      var n := index.m[id];
      var side := n.o.side;
      var i :| 0 <= i < |Tree(side).levels| && Tree(side).levels[i] == n.level;
      var k :| 0 <= k < |n.level.nodes| && n.level.nodes[k] == n;
      f := Focus(side, n.level, n, i, k);
      if n in spare {
        HeldNode(n);
      }
      hide PriceLevel.Valid, NodePoolOK, LevelPoolOK;
    }

    /** The node at a place is the one the index has under the id found there. */
    lemma NodeAt(side: Side, i: int, k: int, id: OrderId)
      requires TreeOK(side) && IdAt(view.Of(side), i, k, id)
      ensures i < |Tree(side).levels| && k < |Tree(side).levels[i].nodes| && id in index.m
      ensures Tree(side).levels[i].nodes[k] == index.m[id] && index.m[id].level == Tree(side).levels[i] && index.m[id].o.side == side
      ensures forall j :: 0 <= j < |Tree(side).levels[i].nodes| && j != k ==> Tree(side).levels[i].nodes[j] != index.m[id]
    {
      LevelFacts(side, i);
      hide TreeOK;
      assert Indexed(Tree(side).levels[i].nodes[k]);
    }

    /** Distinct places hold distinct nodes, so an id is in one place only. */
    lemma OnePlace(f: Focus, side: Side, i: int, k: int)
      requires Inv() && At(f) && f.node.o.side == f.side && IdAt(view.Of(side), i, k, f.node.o.id)
      requires IdAt(view.Of(f.side), f.i, f.k, f.node.o.id)
      ensures side == f.side && i == f.i && k == f.k
    {
      hide TreeOK, IndexOK, NodePoolOK, LevelPoolOK;
      NodeAt(side, i, k, f.node.o.id);
      NodeAt(f.side, f.i, f.k, f.node.o.id);
      TreeFacts(side);
    }

    lemma UniqueId(f: Focus)
      requires Inv() && At(f) && f.node.o.side == f.side
      ensures OnlyAt(view.Of(f.side), f.i, f.k, f.node.o.id) && view.Of(f.side)[f.i].orders[f.k] == f.node.o
      ensures SumLevels(view.Of(f.side.Opposite()), HasId(f.node.o.id)) == 0
    {
      hide Inv;
      assert IdAt(view.Of(f.side), f.i, f.k, f.node.o.id) && view.Of(f.side)[f.i].orders[f.k] == f.node.o by {
        PlaceValue(f);
      }
      var id := f.node.o.id;
      forall i, k | IdAt(view.Of(f.side), i, k, id)
        ensures i == f.i && k == f.k
      {
        OnePlace(f, f.side, i, k);
      }
      SideCount(view.Of(f.side.Opposite()), id);
      if SumLevels(view.Of(f.side.Opposite()), HasId(id)) > 0 {
        var i, k :| IdAt(view.Of(f.side.Opposite()), i, k, id);
        OnePlace(f, f.side.Opposite(), i, k);
      }
    }

    lemma PlaceValue(f: Focus)
      requires Inv() && At(f)
      ensures f.i < |view.Of(f.side)| && f.k < |view.Of(f.side)[f.i].orders| && view.Of(f.side)[f.i].orders[f.k] == f.node.o
    {
      LevelFacts(f.side, f.i);
      hide TreeOK, IndexOK, PriceLevel.Linked;
    }

    lemma EmptyFacts(f: Focus)
      requires Inv() && AtLevel(f)
      ensures f.level.IsEmpty() <==> f.level.nodes == []
      ensures f.i < |view.Of(f.side)| && view.Of(f.side)[f.i].orders == f.level.orders && |f.level.orders| == |f.level.nodes|
    {
      LevelFacts(f.side, f.i);
      hide TreeOK, IndexOK;
    }

    /** Take an indexed order off the book, its level with it when nothing else rests there. */
    method TakeOff(id: OrderId) returns (node: OrderNode)
      requires Inv() && id in index.m
      modifies Footprint() - {orderSeq}
      ensures Inv() && node == old(index.m[id]) && node !in old(spare) && spare == old(spare) + {node}
      ensures index.m == old(index.m) - {id} && forall n :: n in nodePool.store ==> n.o == old(n.o)
      ensures Find(old(view), id) == Found(node.o) && node.o.id == id
      ensures view == RemoveId(old(view), id)
    {
      hide Inv, OnlyAt, HasId, Remove, FindIn, PriceLevel.Valid, AtLevel, Footprint;
      KnownNodes();
      node := index.m[id];
      ghost var f := Locate(id);
      UniqueId(f);
      FindInNone(view.Of(f.side.Opposite()), id);
      FindInNone(view.Of(f.side), id);
      RemoveOnly(view.Of(f.side), f.i, f.k, id);
      RemoveNode(node.level, node, f);
    }

    /** Detach a node, and drop its level when nothing else rests there. */
    method RemoveNode(level: PriceLevel, node: OrderNode, ghost f: Focus)
      requires f.level == level && f.node == node && Inv() && At(f) && f.side == node.o.side && node in level.nodes
      modifies Footprint() - {orderSeq}
      ensures Inv() && spare == old(spare) + {node} && index.m == old(index.m) - {node.o.id}
      ensures forall n :: n in nodePool.store ==> n.o == old(n.o)
      ensures view == old(view).With(f.side, RemoveAt(old(view).Of(f.side), f.i, f.k))
    {
      hide Inv, PriceLevel.Valid;
      Writable(f);
      EmptyFacts(f);
      Detach(level, node, f);
      EmptyFacts(f);
      if level.IsEmpty() {
        DropLevel(if node.o.side == Bid then bids else asks, level, f);
      }
    }

    /** The index finds what a search of the queues finds. */
    lemma IndexFind(id: OrderId)
      requires Inv()
      ensures Find(view, id) == if id in index.m then Found(index.m[id].o) else Missing
    {
      hide Inv, OnlyAt, HasId, FindIn;
      IndexHolds(id);
      SideCount(view.bids, id);
      SideCount(view.asks, id);
      FindInNone(view.bids, id);
      FindInNone(view.asks, id);
      if id in index.m {
        var f := Locate(id);
        UniqueId(f);
        RemoveOnly(view.Of(f.side), f.i, f.k, id);
      }
    }

    /** Remove an order for its owner; the caller emits events and releases the node. */
    method Cancel(id: OrderId, user: UserId) returns (r: CancelResult)
      requires Inv()
      modifies Footprint() - {orderSeq}
      ensures Inv()
      ensures match Find(old(view), id)
              case Missing => r == NotFound && view == old(view) && spare == old(spare)
              case Found(o) =>
                if o.user != user then r == Mismatch && view == old(view) && spare == old(spare)
                else r.Removed? && r.node.o == o && r.node !in old(spare) && spare == old(spare) + {r.node} && view == RemoveId(old(view), id)
    {
      hide Inv, RemoveId, Find;
      IndexFind(id);
      if id !in index.m {
        return NotFound;
      }
      if index.m[id].o.user != user {
        return Mismatch;
      }
      var node := TakeOff(id);
      r := Removed(node);
    }

    /** The index as values. */
    ghost function Entries(): map<OrderId, Order>
      reads index, index.m.Values`o
    {
      map id | id in index.m :: index.m[id].o
    }

    lemma KnownNodes()
      requires Inv()
      ensures forall n :: n in spare ==> n in nodePool.store
      ensures forall id :: id in index.m ==> index.m[id] in nodePool.store
    {
      hide TreeOK, LevelPoolOK;
    }

    /** One entry of the range over the index. */
    method ExpireOne(id: OrderId, now: int) returns (node: OrderNode?)
      requires Inv() && id in index.m
      modifies Footprint() - {orderSeq}
      ensures Inv() && (node != null <==> Expired(old(Entries())[id], now))
      ensures node == null ==> view == old(view) && spare == old(spare) && Entries() == old(Entries())
      ensures node != null ==> view == RemoveId(old(view), id) && spare == old(spare) + {node} && Entries() == old(Entries()) - {id}
      ensures node != null ==> node.o == old(Entries())[id]
      ensures forall n :: n in old(spare) ==> n.o == old(n.o)
    {
      hide Inv, RemoveId, Find;
      KnownNodes();
      node := null;
      if index.m[id].o.expireAt > 0 && index.m[id].o.expireAt <= now {
        node := TakeOff(id);
      }
    }

    ghost function NodeSet(s: seq<OrderNode>): set<OrderNode> {
      set n | n in s
    }

    lemma NoNodes()
      ensures NodeSet([]) == {}
    {
    }

    lemma NodeSetAdd(s: seq<OrderNode>, n: OrderNode)
      ensures NodeSet(s + [n]) == NodeSet(s) + {n}
    {
      assert forall x :: x in s + [n] <==> x in s || x == n;
    }

    /** Remove every order past its expiry, in whatever order the map is ranged over. */
    method ExpireGTD(now: int) returns (expired: seq<OrderNode>, ghost ids: seq<OrderId>)
      requires Inv()
      modifies Footprint() - {orderSeq}
      ensures Inv() && view == RemoveAll(old(view), ids) && Swept(old(Entries()), ids, {}, now)
      ensures |expired| == |ids| && forall j :: 0 <= j < |ids| ==> expired[j] in spare && expired[j].o == old(Entries())[ids[j]]
      ensures spare == old(spare) + NodeSet(expired)
    {
      hide Inv, RemoveId, Swept, NodeSet, Expired;
      expired, ids := [], [];
      ghost var was := Entries();
      var todo := index.m.Keys;
      SweptNone(was, todo, now);
      NoNodes();
      while todo != {}
        invariant Inv() && view == RemoveAll(old(view), ids) && Swept(was, ids, todo, now) && todo <= was.Keys
        invariant forall id :: id in todo ==> id in Entries() && Entries()[id] == was[id]
        invariant |expired| == |ids| && forall j :: 0 <= j < |ids| ==> ids[j] in was && expired[j] in spare && expired[j].o == was[ids[j]]
        invariant spare == old(spare) + NodeSet(expired)
      {
        var id :| id in todo;
        SweptStep(was, ids, todo, now, id);
        var node := ExpireOne(id, now);
        todo := todo - {id};
        if node != null {
          NodeSetAdd(expired, node);
          expired, ids := expired + [node], ids + [id];
          assert ids[..|ids| - 1] + [id] == ids;
        }
      }
    }
  }

  lemma {:induction false} InfoFound(ls: seq<Level>, side: Side, i: nat)
    requires SortedLevels(ls, side) && i < |ls|
    ensures InfoAt(ls, ls[i].price) == Info(ls[i].orders)
  {
    if i > 0 {
      assert SortedLevels(ls[1..], side);
      InfoFound(ls[1..], side, i - 1);
    }
  }
}
