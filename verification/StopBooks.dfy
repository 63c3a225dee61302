/** The mutable stop book: two trees of FIFO trigger levels, an id index and two slot pools. */
module StopBooks {
  import opened Domain
  import opened BookSpec
  import opened StopSpec
  import opened StopFiling
  import opened StopLevels
  import opened Pool

  datatype StopCancel = StopNotFound | StopMismatch | StopRemoved(node: StopNode)

  /** A place in the book: the `k`-th node of the `i`-th level of a side. */
  datatype StopPlace = StopPlace(side: Side, level: StopQueue, node: StopNode, i: nat, k: nat)

  class StopBook {
    /** The trees, each in firing order. */
    var stopSells: seq<StopQueue>
    var stopBuys: seq<StopQueue>
    var index: map<OrderId, StopNode>
    const nodePool: Pool<StopNode>
    const levelPool: Pool<StopQueue>
    const maxDepth: nat
    /** The trees as values. */
    ghost var view: Filing
    /** Nodes acquired from the pool that do not wait: exactly these are still to be released. */
    ghost var spare: set<StopNode>

    function Tree(side: Side): seq<StopQueue>
      reads `stopSells, `stopBuys
    {
      if side == Ask then stopSells else stopBuys
    }

    /** The waiting stops, each side in firing order. */
    ghost function View(): Stops
      reads `view
    {
      view.All()
    }

    ghost predicate NodeSlot(n: StopNode)
      reads n`poolIndex, nodePool`used
    {
      n.poolIndex in nodePool.used && 0 <= n.poolIndex < |nodePool.store| && nodePool.store[n.poolIndex] == n
    }

    ghost predicate LevelSlot(l: StopQueue)
      reads l`poolIndex, levelPool`used
    {
      l.poolIndex in levelPool.used && 0 <= l.poolIndex < |levelPool.store| && levelPool.store[l.poolIndex] == l
    }

    /** `n` is the node the index holds under its own id. */
    ghost predicate Indexed(n: StopNode)
      reads n`s, `index
    {
      n.s.id in index && index[n.s.id] == n
    }

    /** Level `l` of `side` is a valid queue of indexed nodes with value `v`. */
    ghost predicate QueueOK(l: StopQueue, v: StopLevel, side: Side)
      reads l, nodePool.store, `index, levelPool`used
    {
      && LevelSlot(l)
      && v == StopLevel(l.price, l.stops)
      && (forall k {:trigger l.nodes[k]} :: 0 <= k < |l.nodes| ==>
            l.nodes[k] in nodePool.store && l.nodes[k].s.side == side && Indexed(l.nodes[k]))
      && l.Valid()
    }

    /** A list of levels in firing order of their triggers. */
    ghost predicate InFiringOrder(tree: seq<StopQueue>, side: Side)
      reads tree`price
    {
      forall i, j :: 0 <= i < j < |tree| ==> Sooner(side, tree[i].price, tree[j].price)
    }

    ghost predicate Sorted(side: Side)
      reads `stopSells, `stopBuys, Tree(side)`price
    {
      InFiringOrder(Tree(side), side)
    }

    /** A list of levels of one side with these values. */
    ghost predicate TreeIs(tree: seq<StopQueue>, ls: seq<StopLevel>, side: Side)
      reads `index, levelPool`used, nodePool.store, levelPool.store
    {
      && |tree| == |ls|
      && (forall i :: 0 <= i < |tree| ==> tree[i] in levelPool.store && QueueOK(tree[i], ls[i], side))
      && InFiringOrder(tree, side)
    }

    ghost predicate TreeOK(side: Side)
      reads `view, `stopSells, `stopBuys, `index, levelPool`used, nodePool.store, levelPool.store
    {
      TreeIs(Tree(side), view.Of(side), side)
    }

    /** Every indexed node waits, under its own id, in a level of its own side's tree. */
    ghost predicate IndexOK()
      reads `stopSells, `stopBuys, `index, nodePool.store, levelPool.store
    {
      forall id :: id in index ==>
        var n := index[id];
        && n in nodePool.store && n.s.id == id && n.level != null && n.level in levelPool.store
        && n.level in Tree(n.s.side) && n in n.level.nodes
    }

    /** The node slots in use are exactly the waiting nodes and the nodes handed to the caller. */
    ghost predicate SlotsOK()
      reads `spare, `index, nodePool`used, nodePool.store
    {
      && (forall n :: n in spare ==> n in nodePool.store && n.level == null && NodeSlot(n))
      && (forall id :: id in index ==> index[id] in nodePool.store && NodeSlot(index[id]))
      && (forall x :: x in nodePool.used ==> 0 <= x < |nodePool.store|)
      && (forall x :: x in nodePool.used ==> nodePool.store[x] in spare || Indexed(nodePool.store[x]))
    }

    ghost predicate DifferentNodes() {
      forall x, y :: 0 <= x < y < |nodePool.store| ==> nodePool.store[x] != nodePool.store[y]
    }

    ghost predicate NodePoolOK()
      reads `spare, `index, nodePool, nodePool.free, nodePool.store
    {
      && nodePool.Valid() && SlotsOK()
      && DifferentNodes()
      && |nodePool.used| == |spare| + |index|
    }

    /** The level slots in use are exactly the levels of the two trees. */
    ghost predicate LevelPoolOK()
      reads `stopSells, `stopBuys, levelPool, levelPool.free
    {
      && levelPool.Valid()
      && (forall x :: x in levelPool.used ==> 0 <= x < |levelPool.store|)
      && (forall x :: x in levelPool.used ==> levelPool.store[x] in stopSells || levelPool.store[x] in stopBuys)
      && (forall x, y :: 0 <= x < y < |levelPool.store| ==> levelPool.store[x] != levelPool.store[y])
      && |levelPool.used| == |stopSells| + |stopBuys|
      && (forall i, j :: 0 <= i < |stopSells| && 0 <= j < |stopBuys| ==> stopSells[i] != stopBuys[j])
    }

    ghost predicate Apart() {
      nodePool.free != levelPool.free
    }

    /** Everything the stop book may write. */
    ghost function Footprint(): set<object> {
      {this, nodePool, nodePool.free, levelPool, levelPool.free}
      + (set n | n in nodePool.store) + (set l | l in levelPool.store)
    }

    lemma Owned()
      ensures this in Footprint() && nodePool in Footprint() && allocated(Footprint()) && forall n :: n in nodePool.store ==> n in Footprint()
    {
    }

    /** Trees, index and pools agree. */
    ghost predicate Heap()
      reads this, nodePool, nodePool.free, levelPool, levelPool.free, nodePool.store, levelPool.store
    {
      Apart() && TreeOK(Ask) && TreeOK(Bid) && IndexOK() && NodePoolOK() && LevelPoolOK()
    }

    /** The index as values. */
    ghost function Entries(): map<OrderId, Stop>
      reads `index, index.Values`s
    {
      EntriesOf(index)
    }

    static ghost function EntriesOf(index: map<OrderId, StopNode>): map<OrderId, Stop>
      reads index.Values`s
    {
      map id | id in index :: index[id].s
    }

    ghost predicate Filed()
      reads `view, `index, index.Values`s
    {
      WFFiling(view, Entries())
    }

    ghost predicate Valid()
      reads Footprint()
    {
      Heap() && Filed()
    }

    constructor (nodeCap: nat, levelCap: nat, maxCascadeDepth: nat)
      ensures Valid() && View() == NO_STOPS && spare == {} && fresh(nodePool.free) && fresh(levelPool.free)
      ensures |nodePool.store| == nodeCap && |levelPool.store| == levelCap && maxDepth == maxCascadeDepth
    {
      var nodes := NewStopNodes(nodeCap);
      var queues := NewStopQueues(levelCap);
      nodePool := new Pool<StopNode>(nodes);
      levelPool := new Pool<StopQueue>(queues);
      stopSells, stopBuys, index := [], [], map[];
      maxDepth := maxCascadeDepth;
      view, spare := Filing([], []), {};
      new;
      hide Heap, Filed, Valid, Pool.Valid;
      NothingFiled();
    }

    lemma NothingFiled()
      requires view == Filing([], []) && spare == {} && index == map[] && stopSells == [] && stopBuys == []
      requires nodePool.Valid() && nodePool.used == {} && levelPool.Valid() && levelPool.used == {} && Apart()
      requires forall x, y :: 0 <= x < y < |nodePool.store| ==> nodePool.store[x] != nodePool.store[y]
      requires forall x, y :: 0 <= x < y < |levelPool.store| ==> levelPool.store[x] != levelPool.store[y]
      ensures Valid() && View() == NO_STOPS
    {
      hide Pool.Valid;
      assert Entries() == map[];
    }

    lemma QueueFacts(side: Side, i: nat)
      requires TreeOK(side) && i < |Tree(side)|
      ensures i < |view.Of(side)| && Tree(side)[i] in levelPool.store && QueueOK(Tree(side)[i], view.Of(side)[i], side)
    {
    }

    // ----- What one level's change leaves alone -----

    /** `f.level` is the `f.i`-th level of `f.side`. */
    ghost predicate AtLevel(f: StopPlace)
      reads `stopSells, `stopBuys
    {
      f.i < |Tree(f.side)| && f.level == Tree(f.side)[f.i]
    }

    /** ... and `f.node` the `f.k`-th node of its queue. */
    ghost predicate At(f: StopPlace)
      reads `stopSells, `stopBuys, f.level`nodes
    {
      AtLevel(f) && f.k < |f.level.nodes| && f.node == f.level.nodes[f.k]
    }

    ghost predicate InStore(l: StopQueue)
      reads l`nodes
    {
      forall k :: 0 <= k < |l.nodes| ==> l.nodes[k] in nodePool.store
    }

    /** Only level `f.level`, its queue and the links of `f.node` have changed. */
    twostate predicate Touches(f: StopPlace)
      reads nodePool.store, levelPool.store, f.node
    {
      && old(f.level.Valid()) && old(InStore(f.level)) && (old(f.node.level) == f.level || old(f.node.level) == null)
      && (forall p :: p in levelPool.store && p != f.level ==> unchanged(p))
      && (forall n :: n in nodePool.store && n !in old(f.level.nodes) && n != f.node ==> unchanged(n))
      && (forall n :: n in nodePool.store ==> n.poolIndex == old(n.poolIndex) && n.s == old(n.s))
    }

    /** The index has changed at the focused node's id only. */
    twostate predicate IndexTouched(f: StopPlace)
      reads `index, f.node`s
    {
      && old(f.node.s.id in index ==> index[f.node.s.id] == f.node)
      && (forall id :: id != f.node.s.id ==> (id in index <==> id in old(index)))
      && (forall id :: id != f.node.s.id && id in index ==> index[id] == old(index[id]))
    }

    twostate lemma FrameQueue(f: StopPlace, new side: Side, new j: nat)
      requires old(TreeOK(side)) && Touches(f) && IndexTouched(f) && unchanged(levelPool)
      requires j < |old(Tree(side))| && old(Tree(side)[j]) != f.level && f.node.s == old(f.node.s)
      ensures j < |old(view.Of(side))| && QueueOK(old(Tree(side)[j]), old(view.Of(side)[j]), side)
    {
      hide StopQueue.Counted;
      var l := old(Tree(side)[j]);
      assert forall k :: 0 <= k < |old(l.nodes)| ==> old(l.nodes[k].level) == l;
      forall k | 0 <= k < |l.nodes|
        ensures unchanged(l.nodes[k])
      {
        assert old(l.nodes[k].level) == l;
      }
    }

    // ----- One queue edited in place -----

    /** The whole effect of an edit of one queue: every other queue and every other node keep what
        they had, and the value of the tree changed at that level only. */
    twostate predicate Edited(f: StopPlace)
      reads `view, nodePool.store, levelPool.store, f.level, f.level.nodes, f.node
    {
      && old(AtLevel(f)) && f.level in levelPool.store && f.node in nodePool.store && Touches(f)
      && f.level.Valid() && f.level.price == old(f.level.price) && f.level.poolIndex == old(f.level.poolIndex)
      && (forall n :: n in nodePool.store && n != f.node ==> n.level == old(n.level))
      && (forall n :: n in f.level.nodes ==> n == f.node || n in old(f.level.nodes))
      && (forall n :: n in old(f.level.nodes) ==> n == f.node || n in f.level.nodes)
      && f.node.s.side == f.side
      && Became(f, f.level.stops)
    }

    /** The queue in focus changed to `ss` in the value of the tree. */
    twostate predicate Became(f: StopPlace, new ss: seq<Stop>)
      reads `view
    {
      view == old(view).With(f.side, WithStops(old(view).Of(f.side), f.i, ss))
    }

    /** The node in focus moved between its queue, where it is indexed, and the caller's hands. */
    twostate predicate Balanced(f: StopPlace)
      reads `spare, `index, f.level, f.node
    {
      && old(f.node in spare || Indexed(f.node))
      && spare == (if f.node in f.level.nodes then old(spare) - {f.node} else old(spare) + {f.node})
      && |spare| + |index| == old(|spare| + |index|)
    }

    /** Trees and pools are as they were. */
    twostate predicate TreesAndPoolsKept()
      reads `stopSells, `stopBuys, nodePool, nodePool.free, levelPool, levelPool.free
    {
      && stopSells == old(stopSells) && stopBuys == old(stopBuys)
      && unchanged(nodePool) && unchanged(nodePool.free) && unchanged(levelPool) && unchanged(levelPool.free)
    }

    /** Wherever the node in focus is mentioned now, it is mentioned consistently. */
    ghost predicate Placed(f: StopPlace)
      reads f.node, f.level, `index
    {
      if f.node in f.level.nodes then f.node.level == f.level && Indexed(f.node)
      else f.node.level == null && f.node.s.id !in index
    }

    twostate lemma EditQueue(f: StopPlace)
      requires Edited(f) && IndexTouched(f) && TreesAndPoolsKept() && Placed(f) && old(TreeOK(f.side))
      ensures f.i < |view.Of(f.side)| && QueueOK(f.level, view.Of(f.side)[f.i], f.side)
    {
      hide StopQueue.Counted, StopQueue.Linked;
      assert forall k :: 0 <= k < |f.level.nodes| && f.level.nodes[k] != f.node ==> f.level.nodes[k] in old(f.level.nodes);
    }

    twostate lemma EditTree(f: StopPlace, new s: Side)
      requires Edited(f) && IndexTouched(f) && TreesAndPoolsKept() && old(TreeOK(s))
      requires s != f.side ==> f.level !in Tree(s)
      requires s == f.side ==> f.i < |view.Of(s)| && QueueOK(f.level, view.Of(s)[f.i], s)
      ensures TreeOK(s)
    {
      hide QueueOK, StopQueue.Valid, IndexTouched;
      forall j | 0 <= j < |Tree(s)| && Tree(s)[j] != f.level
        ensures QueueOK(Tree(s)[j], old(view.Of(s)[j]), s) && Tree(s)[j].price == old(Tree(s)[j].price)
      {
        FrameQueue(f, s, j);
      }
      OnePlacePerLevel(f, s);
    }

    /** Levels are told apart by their triggers. */
    twostate lemma OnePlacePerLevel(f: StopPlace, new s: Side)
      requires old(TreeOK(s))
      ensures forall i, j :: 0 <= i < j < |old(Tree(s))| ==> old(Tree(s)[i]) != old(Tree(s)[j])
    {
      hide QueueOK;
    }

    twostate lemma EditIndex(f: StopPlace)
      requires Edited(f) && IndexTouched(f) && TreesAndPoolsKept() && Placed(f) && old(IndexOK())
      ensures IndexOK()
    {
      hide StopQueue.Valid;
    }

    /** Slot, contents and back-pointer of every node but the one in focus. */
    twostate predicate NodesKept(f: StopPlace)
      reads nodePool, nodePool.store
    {
      && f.node in nodePool.store && nodePool.used == old(nodePool.used)
      && (forall n :: n in nodePool.store ==> n.poolIndex == old(n.poolIndex) && n.s == old(n.s))
      && (forall n :: n in nodePool.store && n != f.node ==> n.level == old(n.level))
    }

    twostate lemma KeepsNodes(f: StopPlace)
      requires Edited(f) && TreesAndPoolsKept()
      ensures NodesKept(f)
    {
      hide StopQueue.Valid, Became;
    }

    twostate lemma EditUsed(f: StopPlace)
      requires NodesKept(f) && IndexTouched(f) && Placed(f) && Balanced(f) && old(SlotsOK())
      ensures forall x :: x in nodePool.used ==> 0 <= x < |nodePool.store|
      ensures forall x :: x in nodePool.used ==> nodePool.store[x] in spare || Indexed(nodePool.store[x])
    {
      forall x | x in nodePool.used
        ensures nodePool.store[x] in spare || Indexed(nodePool.store[x])
      {
        var n := nodePool.store[x];
        if n != f.node && n !in old(spare) {
          assert old(index[n.s.id]) == n;
          assert n.s.id != f.node.s.id;
        }
      }
    }

    twostate lemma EditSpare(f: StopPlace)
      requires NodesKept(f) && Placed(f) && Balanced(f) && old(SlotsOK())
      ensures NodeSlot(f.node) && forall n :: n in spare ==> n in nodePool.store && n.level == null && NodeSlot(n)
    {
    }

    twostate lemma EditIndexed(f: StopPlace)
      requires NodesKept(f) && IndexTouched(f) && Placed(f) && old(SlotsOK()) && NodeSlot(f.node)
      ensures forall id :: id in index ==> index[id] in nodePool.store && NodeSlot(index[id])
    {
      forall id | id in index
        ensures index[id] in nodePool.store && NodeSlot(index[id])
      {
        if id == f.node.s.id {
          assert index[id] == f.node;
        } else {
          assert index[id] == old(index[id]) && old(NodeSlot(index[id]));
        }
      }
    }

    twostate lemma EditSlots(f: StopPlace)
      requires NodesKept(f) && IndexTouched(f) && Placed(f) && Balanced(f) && old(SlotsOK())
      ensures SlotsOK()
    {
      hide NodesKept, IndexTouched, Placed, Balanced, NodeSlot, Indexed;
      EditUsed(f);
      EditSpare(f);
      EditIndexed(f);
    }

    twostate lemma OtherSide(f: StopPlace)
      requires old(AtLevel(f)) && old(LevelPoolOK())
      ensures f.level !in old(Tree(f.side.Opposite()))
    {
    }

    twostate lemma EditHeap(f: StopPlace)
      requires Edited(f) && IndexTouched(f) && TreesAndPoolsKept() && Placed(f) && Balanced(f) && old(Heap())
      ensures Heap() && Became(f, f.level.stops)
    {
      hide TreeOK, IndexOK, SlotsOK, QueueOK, Touches, IndexTouched, Placed, Indexed, StopQueue.Valid, Pool.Valid;
      OtherSide(f);
      EditQueue(f);
      EditTree(f, Bid);
      EditTree(f, Ask);
      EditIndex(f);
      KeepsNodes(f);
      EditSlots(f);
    }

    // ----- The two edits -----

    /** The node in focus is listed, indexed and not in the caller's hands. */
    ghost predicate Focused(f: StopPlace)
      reads this, f.level, f.level.nodes, f.node
    {
      && At(f) && f.level in levelPool.store && f.level.Valid() && InStore(f.level) && f.node.s.side == f.side
      && f.node in nodePool.store && Indexed(f.node) && f.node.level == f.level && f.node !in spare
    }

    lemma FocusFacts(f: StopPlace)
      requires Heap() && At(f)
      ensures Focused(f) && f.i < |view.Of(f.side)| && view.Of(f.side)[f.i] == StopLevel(f.level.price, f.level.stops)
    {
      QueueFacts(f.side, f.i);
      hide TreeOK, IndexOK, StopQueue.Counted;
    }

    method DequeueRaw(level: StopQueue, node: StopNode, ghost f: StopPlace)
      requires f.level == level && f.node == node && Focused(f)
      modifies level`head, level`tail, level`orderCount, level`nodes, level`stops
      modifies level.nodes`next, level.nodes`prev, node`level, `view
      ensures Edited(f) && node !in level.nodes && node.level == null
      ensures level.nodes == DropAt(old(level.nodes), f.k) && level.stops == DropAt(old(level.stops), f.k)
    {
      hide StopQueue.Linked, StopQueue.Counted;
      view := view.With(f.side, WithStops(view.Of(f.side), f.i, DropAt(level.stops, f.k)));
      level.Unlink(node, f.k);
    }

    twostate lemma DetachPlaced(f: StopPlace)
      requires old(Focused(f)) && f.node.s == old(f.node.s) && f.node.level == null && f.node !in f.level.nodes
      requires index == old(index) - {f.node.s.id} && spare == old(spare) + {f.node}
      ensures IndexTouched(f) && Placed(f) && Balanced(f)
    {
      hide StopQueue.Valid;
      IndexLess(old(index), f.node.s.id);
    }

    /** Take a node out of the index and off its queue; the caller now holds it. */
    method Detach(level: StopQueue, node: StopNode, ghost f: StopPlace)
      requires f.level == level && f.node == node && Heap() && At(f)
      modifies level`head, level`tail, level`orderCount, level`nodes, level`stops
      modifies level.nodes`next, level.nodes`prev, node`level, `index, `view, `spare
      ensures Heap() && spare == old(spare) + {node} && level.nodes == DropAt(old(level.nodes), f.k)
      ensures index == old(index) - {node.s.id}
      ensures Became(f, DropAt(old(StopsAt(view.Of(f.side), f.i)), f.k))
    {
      hide Heap, Focused, Edited, Placed, Balanced, IndexTouched, Became;
      FocusFacts(f);
      DequeueRaw(level, node, f);
      index := index - {node.s.id};
      spare := spare + {node};
      DetachPlaced(f);
      EditHeap(f);
    }

    /** The caller holds the node in focus, its id is free, and the level in focus can take it. */
    ghost predicate Enterable(f: StopPlace)
      reads this, f.level, f.level.nodes, f.node
    {
      && AtLevel(f) && f.level in levelPool.store && f.level.Valid() && InStore(f.level)
      && f.node in spare && f.node.s.side == f.side && f.node.s.id !in index
      && f.node in nodePool.store && f.node.level == null
    }

    lemma EnterFacts(f: StopPlace)
      requires Heap() && AtLevel(f) && f.node in spare && f.node.s.side == f.side && f.node.s.id !in index
      ensures Enterable(f) && f.i < |view.Of(f.side)| && view.Of(f.side)[f.i] == StopLevel(f.level.price, f.level.stops)
    {
      QueueFacts(f.side, f.i);
      hide TreeOK, IndexOK, StopQueue.Counted, StopQueue.Linked;
    }

    method EnqueueRaw(level: StopQueue, node: StopNode, ghost f: StopPlace)
      requires f.level == level && f.node == node && Enterable(f)
      modifies level`head, level`tail, level`orderCount, level`nodes, level`stops
      modifies level.nodes`next, node`prev, node`next, node`level, `view
      ensures Edited(f) && node in level.nodes && node.level == level
      ensures level.stops == old(level.stops) + [node.s]
    {
      assert node !in level.nodes;
      hide StopQueue.Linked, StopQueue.Counted;
      view := view.With(f.side, WithStops(view.Of(f.side), f.i, level.stops + [node.s]));
      level.Append(node);
    }

    twostate lemma EnqueuePlaced(f: StopPlace)
      requires old(Enterable(f)) && f.node.s == old(f.node.s) && f.node.level == f.level && f.node in f.level.nodes
      requires index == old(index)[f.node.s.id := f.node] && spare == old(spare) - {f.node}
      ensures IndexTouched(f) && Placed(f) && Balanced(f)
    {
      hide StopQueue.Valid;
      IndexMore(old(index), f.node.s.id, f.node);
      assert |old(spare) - {f.node}| == |old(spare)| - 1;
    }

    /** Append a node the caller holds to a level of its side and index it. */
    method Enqueue(level: StopQueue, node: StopNode, ghost f: StopPlace)
      requires f.level == level && f.node == node && Heap() && AtLevel(f)
      requires node in spare && node.s.side == f.side && node.s.id !in index
      modifies level`head, level`tail, level`orderCount, level`nodes, level`stops
      modifies level.nodes`next, node`prev, node`next, node`level, `index, `view, `spare
      ensures Heap() && spare == old(spare) - {node} && index == old(index)[node.s.id := node]
      ensures Became(f, old(StopsAt(view.Of(f.side), f.i)) + [node.s])
    {
      hide Heap, AtLevel, Enterable, Edited, Placed, Balanced, IndexTouched, Became;
      EnterFacts(f);
      EnqueueRaw(level, node, f);
      spare := spare - {node};
      index := index[node.s.id := node];
      EnqueuePlaced(f);
      EditHeap(f);
    }

    // ----- Levels entering and leaving a tree -----

    /** Nodes, levels, index and node pool are as they were. */
    twostate predicate NodesAndLevelsKept()
      reads `spare, `index, nodePool, nodePool.free, nodePool.store, levelPool.store
    {
      && index == old(index) && unchanged(nodePool) && unchanged(nodePool.free) && spare == old(spare)
      && (forall n :: n in nodePool.store ==> unchanged(n))
      && (forall p :: p in levelPool.store ==> unchanged(p))
    }

    /** The empty level in focus left its tree and its slot. */
    twostate predicate Dropped(f: StopPlace)
      reads this, stopSells, stopBuys, levelPool, levelPool.free, f.level
    {
      && old(AtLevel(f)) && f.level.nodes == []
      && Tree(f.side) == DropAt(old(Tree(f.side)), f.i) && Tree(f.side.Opposite()) == old(Tree(f.side.Opposite()))
      && levelPool.Valid() && levelPool.used == old(levelPool.used) - {f.level.poolIndex}
      && view == old(view).With(f.side, DropAt(old(view).Of(f.side), f.i))
    }

    /** The queue is as it was. */
    twostate predicate Same(l: StopQueue)
      reads l, l.nodes, levelPool`used
    {
      unchanged(l) && LevelSlot(l) && forall n :: n in l.nodes ==> unchanged(n)
    }

    /** Levels of which nothing has changed keep their value. */
    twostate lemma KeptTree(tree: seq<StopQueue>, new ls: seq<StopLevel>, new side: Side)
      requires (forall l :: l in tree ==> Same(l)) && old(TreeIs(tree, ls, side)) && index == old(index)
      ensures TreeIs(tree, ls, side)
    {
      hide QueueOK, Same;
      forall i | 0 <= i < |tree|
        ensures tree[i] in levelPool.store && QueueOK(tree[i], ls[i], side)
      {
        KeptQueue(tree[i], ls[i], side);
      }
      KeptOrder(tree, side);
    }

    twostate lemma KeptOrder(tree: seq<StopQueue>, new side: Side)
      requires (forall l :: l in tree ==> Same(l)) && old(InFiringOrder(tree, side))
      ensures InFiringOrder(tree, side)
    {
      forall i | 0 <= i < |tree|
        ensures tree[i].price == old(tree[i].price)
      {
        assert Same(tree[i]);
      }
    }

    twostate lemma KeptQueue(l: StopQueue, new v: StopLevel, new side: Side)
      requires Same(l) && old(QueueOK(l, v, side)) && index == old(index)
      ensures QueueOK(l, v, side)
    {
      hide LevelSlot;
      forall i | 0 <= i < |l.nodes|
        ensures unchanged(l.nodes[i])
      {
        assert l.nodes[i] in l.nodes;
      }
    }

    /** Nothing in the pools has changed but which level slots are in use. */
    twostate lemma AllSame(new tree: seq<StopQueue>)
      requires forall n :: n in nodePool.store ==> unchanged(n)
      requires forall l :: l in tree ==> l in levelPool.store && unchanged(l) && LevelSlot(l) && InStore(l)
      ensures forall l :: l in tree ==> Same(l)
    {
    }

    twostate lemma DropTree(f: StopPlace)
      requires Dropped(f) && NodesAndLevelsKept() && old(TreeOK(f.side))
      ensures TreeOK(f.side)
    {
      hide TreeIs, InFiringOrder, Dropped, NodesAndLevelsKept, DropAt, LevelSlot, Same;
      DroppedTo(f);
      NothingElse();
      DroppedTree(f);
      DroppedSlots(f, DropAt(old(Tree(f.side)), f.i));
      KeptTree(DropAt(old(Tree(f.side)), f.i), DropAt(old(view.Of(f.side)), f.i), f.side);
    }

    twostate lemma DroppedTo(f: StopPlace)
      requires Dropped(f)
      ensures Tree(f.side) == DropAt(old(Tree(f.side)), f.i) && Tree(f.side.Opposite()) == old(Tree(f.side.Opposite())) && old(AtLevel(f))
      ensures view == old(view).With(f.side, DropAt(old(view).Of(f.side), f.i))
    {
    }

    /** Without one level, the rest is in order. */
    twostate lemma DroppedTree(f: StopPlace)
      requires old(AtLevel(f)) && old(TreeOK(f.side))
      ensures old(TreeIs(DropAt(Tree(f.side), f.i), DropAt(view.Of(f.side), f.i), f.side)) && f.level !in DropAt(old(Tree(f.side)), f.i)
      ensures forall l :: l in DropAt(old(Tree(f.side)), f.i) ==> l in levelPool.store && old(LevelSlot(l)) && old(InStore(l))
    {
      hide DropAt, StopQueue.Valid;
      DroppedAt(old(Tree(f.side)), f.i);
      DroppedAt(old(view.Of(f.side)), f.i);
    }

    /** Giving back one level's slot leaves the others in use, and as they were. */
    twostate lemma DroppedSlots(f: StopPlace, new tree: seq<StopQueue>)
      requires Dropped(f) && NodesAndLevelsKept() && old(TreeOK(f.side)) && f.level !in tree
      requires forall l :: l in tree ==> l in levelPool.store && old(LevelSlot(l)) && old(InStore(l))
      ensures forall l :: l in tree ==> Same(l)
    {
      WasQueue(f.side, f.i);
      hide TreeIs, Pool.Valid, DropAt, StopQueue.Valid, Same;
      AllSame(tree);
    }

    twostate lemma DropOther(f: StopPlace)
      requires Dropped(f) && NodesAndLevelsKept() && old(TreeOK(f.side)) && old(TreeOK(f.side.Opposite())) && old(LevelPoolOK())
      ensures TreeOK(f.side.Opposite())
    {
      hide TreeIs, InFiringOrder, Dropped, NodesAndLevelsKept, DropAt, LevelSlot, Same, LevelPoolOK;
      DroppedTo(f);
      NothingElse();
      InTree(f.side.Opposite());
      OtherSide(f);
      DroppedSlots(f, old(Tree(f.side.Opposite())));
      KeptTree(old(Tree(f.side.Opposite())), old(view.Of(f.side.Opposite())), f.side.Opposite());
    }

    twostate lemma InTree(new side: Side)
      requires old(TreeOK(side))
      ensures forall l :: l in old(Tree(side)) ==> l in levelPool.store && old(LevelSlot(l)) && old(InStore(l))
    {
      hide StopQueue.Valid;
    }

    twostate lemma DropIndex(f: StopPlace)
      requires Dropped(f) && NodesAndLevelsKept() && old(IndexOK())
      ensures IndexOK()
    {
      hide Pool.Valid, DropAt;
      DroppedAt(old(Tree(f.side)), f.i);
    }

    twostate lemma KeptNodePool()
      requires index == old(index) && unchanged(nodePool) && unchanged(nodePool.free) && spare == old(spare)
      requires (forall n :: n in nodePool.store ==> unchanged(n)) && old(NodePoolOK())
      ensures NodePoolOK()
    {
      hide SlotsOK, Pool.Valid, DifferentNodes;
      KeptSlots();
    }

    twostate lemma KeptSlots()
      requires index == old(index) && unchanged(nodePool) && spare == old(spare)
      requires (forall n :: n in nodePool.store ==> unchanged(n)) && old(SlotsOK())
      ensures SlotsOK()
    {
    }

    twostate lemma DropLevelPool(f: StopPlace)
      requires Dropped(f) && NodesAndLevelsKept() && old(TreeOK(f.side)) && old(LevelPoolOK())
      ensures LevelPoolOK()
    {
      hide TreeOK, StopQueue.Valid, Pool.Valid, LevelPoolOK;
      WasQueue(f.side, f.i);
      LessLevels(f.level, f.side, f.i);
    }

    /** A level and its slot, gone from the tree and the pool. */
    twostate lemma LessLevels(level: StopQueue, new side: Side, new i: nat)
      requires i < |old(Tree(side))| && old(Tree(side)[i]) == level && old(LevelSlot(level)) && level.poolIndex == old(level.poolIndex)
      requires Tree(side) == DropAt(old(Tree(side)), i) && Tree(side.Opposite()) == old(Tree(side.Opposite())) && old(LevelPoolOK())
      requires levelPool.Valid() && levelPool.used == old(levelPool.used) - {level.poolIndex}
      ensures LevelPoolOK()
    {
      hide Pool.Valid, DropAt;
      DroppedAt(old(Tree(side)), i);
      forall x | x in levelPool.used
        ensures levelPool.store[x] in stopSells || levelPool.store[x] in stopBuys
      {
        assert levelPool.store[x] != level;
      }
    }

    twostate lemma NothingElse()
      requires NodesAndLevelsKept()
      ensures index == old(index) && unchanged(nodePool) && unchanged(nodePool.free) && spare == old(spare)
      ensures forall n :: n in nodePool.store ==> unchanged(n)
    {
    }

    twostate lemma DropHeap(f: StopPlace)
      requires Dropped(f) && NodesAndLevelsKept() && old(Heap())
      ensures Heap()
    {
      hide Dropped, NodesAndLevelsKept, TreeOK, IndexOK, NodePoolOK, LevelPoolOK;
      assert f.side == Bid || f.side == Ask;
      DropTree(f);
      DropOther(f);
      DropIndex(f);
      NothingElse();
      KeptNodePool();
      DropLevelPool(f);
    }

    method SetTree(side: Side, tree: seq<StopQueue>)
      modifies `stopSells, `stopBuys
      ensures Tree(side) == tree && Tree(side.Opposite()) == old(Tree(side.Opposite()))
    {
      if side == Ask {
        stopSells := tree;
      } else {
        stopBuys := tree;
      }
    }

    /** How many levels of a tree fire before `price`: where its level is, or would be. */
    method Seek(side: Side, price: int) returns (i: nat)
      ensures i <= |Tree(side)| && forall j :: 0 <= j < i ==> Sooner(side, Tree(side)[j].price, price)
      ensures i < |Tree(side)| ==> !Sooner(side, Tree(side)[i].price, price)
    {
      i := 0;
      while i < |Tree(side)| && Sooner(side, Tree(side)[i].price, price)
        invariant i <= |Tree(side)| && forall j :: 0 <= j < i ==> Sooner(side, Tree(side)[j].price, price)
      {
        i := i + 1;
      }
    }

    method DropRaw(side: Side, level: StopQueue, ghost f: StopPlace)
      requires f.level == level && f.side == side && AtLevel(f) && level.nodes == [] && Sorted(side)
      requires levelPool.Valid() && level.poolIndex in levelPool.used && Apart()
      modifies `stopSells, `stopBuys, levelPool`top, levelPool`used, levelPool.free, `view
      ensures Dropped(f)
    {
      hide Pool.Valid;
      var i := Seek(side, level.price);
      assert i == f.i;
      SetTree(side, Tree(side)[..i] + Tree(side)[i + 1..]);
      levelPool.Release(level.poolIndex);
      view := view.With(f.side, DropAt(view.Of(f.side), f.i));
    }

    lemma DropFacts(f: StopPlace)
      requires Heap() && AtLevel(f)
      ensures Sorted(f.side) && levelPool.Valid() && f.level.poolIndex in levelPool.used && Apart()
    {
      hide IndexOK, NodePoolOK, StopQueue.Valid;
    }

    /** Remove an empty level from its tree and give its slot back. */
    method DropLevel(side: Side, level: StopQueue, ghost f: StopPlace)
      requires f.level == level && f.side == side && Heap() && AtLevel(f) && level.nodes == []
      modifies `stopSells, `stopBuys, levelPool`top, levelPool`used, levelPool.free, `view
      ensures Heap() && view == old(view).With(f.side, DropAt(old(view).Of(f.side), f.i))
    {
      hide Heap, AtLevel, Sorted;
      DropFacts(f);
      DropRaw(side, level, f);
      assert view == old(view).With(f.side, DropAt(old(view).Of(f.side), f.i));
      hide Dropped;
      DropHeap(f);
    }

    /** A new empty level entered the tree of `f.side` at `f.i`. */
    twostate predicate Created(f: StopPlace)
      reads this, stopSells, stopBuys, nodePool, nodePool.free, nodePool.store, levelPool, levelPool.free, levelPool.store, f.level, f.level.nodes
    {
      && f.level in levelPool.store && f.level !in old(stopSells) && f.level !in old(stopBuys)
      && f.level.Valid() && f.level.nodes == [] && LevelSlot(f.level)
      && f.i <= |old(Tree(f.side))| && Tree(f.side) == SpliceAt(old(Tree(f.side)), f.i, f.level)
      && Sorted(f.side) && Tree(f.side.Opposite()) == old(Tree(f.side.Opposite()))
      && levelPool.Valid() && levelPool.used == old(levelPool.used) + {f.level.poolIndex} && |levelPool.used| == |old(levelPool.used)| + 1
      && (forall p :: p in levelPool.store && p != f.level ==> unchanged(p))
      && (forall n :: n in nodePool.store ==> unchanged(n))
      && index == old(index) && unchanged(nodePool) && unchanged(nodePool.free) && spare == old(spare)
      && view == old(view).With(f.side, SpliceAt(old(view).Of(f.side), f.i, StopLevel(f.level.price, [])))
    }

    twostate lemma CreatedTo(f: StopPlace)
      requires Created(f)
      ensures Tree(f.side) == SpliceAt(old(Tree(f.side)), f.i, f.level) && Tree(f.side.Opposite()) == old(Tree(f.side.Opposite()))
      ensures view == old(view).With(f.side, SpliceAt(old(view).Of(f.side), f.i, StopLevel(f.level.price, [])))
      ensures f.i <= |old(Tree(f.side))| && Sorted(f.side) && f.level in levelPool.store && index == old(index)
      ensures QueueOK(f.level, StopLevel(f.level.price, []), f.side)
    {
      hide Pool.Valid, SpliceAt, InFiringOrder, StopQueue.Linked;
    }

    /** The slots in use are still in use, and their levels as they were. */
    twostate lemma CreatedSlots(f: StopPlace, new side: Side)
      requires Created(f) && old(TreeOK(side))
      ensures forall l :: l in old(Tree(side)) ==> Same(l)
    {
      InTree(side);
      hide TreeIs, Pool.Valid, SpliceAt, InFiringOrder, StopQueue.Valid, Same;
      AllSame(old(Tree(side)));
    }

    twostate lemma CreateTree(f: StopPlace, new side: Side)
      requires Created(f) && old(TreeOK(side))
      ensures TreeOK(side)
    {
      hide TreeIs, InFiringOrder, Created, SpliceAt, LevelSlot, Same;
      CreatedTo(f);
      CreatedSlots(f, side);
      KeptTree(old(Tree(side)), old(view.Of(side)), side);
      if side == f.side {
        SplicedTree(old(Tree(side)), old(view.Of(side)), side, f.i, f.level);
      }
    }

    /** An empty level spliced in where it belongs. */
    lemma SplicedTree(tree: seq<StopQueue>, ls: seq<StopLevel>, side: Side, i: nat, level: StopQueue)
      requires TreeIs(tree, ls, side) && i <= |tree| && level in levelPool.store && QueueOK(level, StopLevel(level.price, []), side)
      requires InFiringOrder(SpliceAt(tree, i, level), side)
      ensures TreeIs(SpliceAt(tree, i, level), SpliceAt(ls, i, StopLevel(level.price, [])), side)
    {
      hide SpliceAt, QueueOK, InFiringOrder;
      SplicedAt(tree, i, level);
      SplicedAt(ls, i, StopLevel(level.price, []));
    }

    twostate lemma CreateIndex(f: StopPlace)
      requires Created(f) && old(IndexOK())
      ensures IndexOK()
    {
      hide StopQueue.Valid, Pool.Valid, Sorted, SpliceAt;
      SplicedAt(old(Tree(f.side)), f.i, f.level);
    }

    twostate lemma CreateNodePool(f: StopPlace)
      requires Created(f) && old(NodePoolOK())
      ensures NodePoolOK()
    {
      hide StopQueue.Valid, Pool.Valid, Sorted, NodePoolOK;
      KeptNodePool();
    }

    twostate lemma CreateLevelPool(f: StopPlace)
      requires Created(f) && old(LevelPoolOK())
      ensures LevelPoolOK()
    {
      hide StopQueue.Valid, Sorted, Pool.Valid, SpliceAt;
      SplicedAt(old(Tree(f.side)), f.i, f.level);
    }

    twostate lemma CreateHeap(f: StopPlace)
      requires Created(f) && old(Heap())
      ensures Heap()
    {
      hide Created, TreeOK, IndexOK, NodePoolOK, LevelPoolOK;
      assert f.side == Bid || f.side == Ask;
      CreateTree(f, Bid);
      CreateTree(f, Ask);
      CreateIndex(f);
      CreateNodePool(f);
      CreateLevelPool(f);
    }

    /** A free level slot's level is in neither tree. */
    lemma FreeLevels()
      requires Heap()
      ensures forall idx :: 0 <= idx < |levelPool.store| && idx !in levelPool.used ==>
                levelPool.store[idx] !in stopSells && levelPool.store[idx] !in stopBuys
    {
      hide IndexOK, NodePoolOK, StopQueue.Valid;
      forall idx | 0 <= idx < |levelPool.store| && idx !in levelPool.used
        ensures levelPool.store[idx] !in stopSells && levelPool.store[idx] !in stopBuys
      {
        assert !LevelSlot(levelPool.store[idx]);
      }
    }

    lemma InOrder(side: Side)
      requires Sorted(side)
      ensures forall j, k :: 0 <= j < k < |Tree(side)| ==> Sooner(side, Tree(side)[j].price, Tree(side)[k].price)
    {
    }

    /** A level spliced in between the sooner and the later ones. */
    lemma Spliced(side: Side, was: seq<StopQueue>, i: nat, level: StopQueue)
      requires i <= |was| && Tree(side) == SpliceAt(was, i, level)
      requires forall j, k :: 0 <= j < k < |was| ==> Sooner(side, was[j].price, was[k].price)
      requires forall j :: 0 <= j < i ==> Sooner(side, was[j].price, level.price)
      requires i < |was| ==> Sooner(side, level.price, was[i].price)
      ensures Sorted(side)
    {
    }

    method CreateRaw(side: Side, price: int, idx: int, i: nat) returns (level: StopQueue)
      requires Sorted(side) && i <= |Tree(side)| && (forall j :: 0 <= j < i ==> Sooner(side, Tree(side)[j].price, price))
      requires i < |Tree(side)| ==> Sooner(side, price, Tree(side)[i].price)
      requires 0 <= idx < |levelPool.store| && levelPool.store[idx] !in Tree(side)
      modifies `stopSells, `stopBuys, levelPool.store[idx], `view
      ensures level == levelPool.store[idx] && level.Valid() && level.nodes == [] && level.price == price && level.poolIndex == idx
      ensures Tree(side) == SpliceAt(old(Tree(side)), i, level) && Sorted(side) && Tree(side.Opposite()) == old(Tree(side.Opposite()))
      ensures view == old(view).With(side, SpliceAt(old(view).Of(side), i, StopLevel(price, [])))
    {
      hide Sorted, StopQueue.Valid, Sooner;
      level := levelPool.store[idx];
      ghost var was := Tree(side);
      InOrder(side);
      level.Reset(price, idx);
      SetTree(side, Tree(side)[..i] + [level] + Tree(side)[i..]);
      Spliced(side, was, i, level);
      view := view.With(side, SpliceAt(view.Of(side), i, StopLevel(price, [])));
    }

    lemma TreeFacts(side: Side)
      requires Heap()
      ensures Sorted(side) && levelPool.Valid() && Apart() && |levelPool.used| == |view.sells| + |view.buys|
      ensures |Tree(side)| == |view.Of(side)|
      ensures forall i :: 0 <= i < |view.Of(side)| ==> Tree(side)[i].price == view.Of(side)[i].price
    {
      hide IndexOK, NodePoolOK, StopQueue.Valid;
    }

    /** Put a free slot's level in place `i` of a tree; null when the pool is exhausted. */
    method OpenLevel(side: Side, price: int, i: nat, ghost node: StopNode) returns (level: StopQueue?)
      requires Sorted(side) && levelPool.Valid() && Apart() && i <= |Tree(side)|
      requires forall j :: 0 <= j < i ==> Sooner(side, Tree(side)[j].price, price)
      requires i < |Tree(side)| ==> Sooner(side, price, Tree(side)[i].price)
      requires forall idx :: 0 <= idx < |levelPool.store| && idx !in levelPool.used ==>
                 levelPool.store[idx] !in stopSells && levelPool.store[idx] !in stopBuys
      requires forall x, y :: 0 <= x < y < |levelPool.store| ==> levelPool.store[x] != levelPool.store[y]
      modifies `stopSells, `stopBuys, levelPool`top, levelPool`used, levelPool.store, `view
      ensures level == null <==> |old(levelPool.used)| >= |levelPool.store|
      ensures level == null ==> unchanged(this) && unchanged(levelPool) && unchanged(nodePool) && unchanged(levelPool.free) && unchanged(nodePool.free)
      ensures level == null ==> (forall p :: p in levelPool.store ==> unchanged(p)) && forall n :: n in nodePool.store ==> unchanged(n)
      ensures level != null ==> level in levelPool.store && level.price == price && Created(StopPlace(side, level, node, i, 0))
    {
      hide Pool.Valid, Sooner, StopQueue.Valid;
      PoolBound();
      var ok, idx := levelPool.Acquire();
      if !ok {
        return null;
      }
      level := CreateRaw(side, price, idx, i);
    }

    lemma PoolBound()
      requires levelPool.Valid()
      ensures |levelPool.used| <= |levelPool.store|
    {
    }

    lemma LevelsDiffer()
      requires Heap()
      ensures forall x, y :: 0 <= x < y < |levelPool.store| ==> levelPool.store[x] != levelPool.store[y]
    {
      hide TreeOK, IndexOK, NodePoolOK, Pool.Valid;
    }

    /** What a new level is in the values of the trees. */
    twostate lemma CreatedView(f: StopPlace)
      requires Created(f)
      ensures AtLevel(f) && view == old(view).With(f.side, SpliceAt(old(view).Of(f.side), f.i, StopLevel(f.level.price, [])))
    {
    }

    /** A book of which nothing has changed is as it was. */
    twostate lemma Untouched()
      requires old(Heap()) && unchanged(this) && unchanged(levelPool) && unchanged(nodePool) && unchanged(levelPool.free) && unchanged(nodePool.free)
      requires (forall p :: p in levelPool.store ==> unchanged(p)) && forall n :: n in nodePool.store ==> unchanged(n)
      ensures Heap()
    {
      hide NodePoolOK, TreeOK, Pool.Valid;
      KeptNodePool();
      UntouchedTree(Ask);
      UntouchedTree(Bid);
    }

    twostate lemma UntouchedTree(new side: Side)
      requires old(TreeOK(side)) && unchanged(this) && unchanged(levelPool)
      requires (forall p :: p in levelPool.store ==> unchanged(p)) && forall n :: n in nodePool.store ==> unchanged(n)
      ensures TreeOK(side)
    {
      hide TreeIs, Same;
      InTree(side);
      AllSame(Tree(side));
      KeptTree(Tree(side), view.Of(side), side);
    }

    method MakeLevel(side: Side, price: int, i: nat, ghost node: StopNode) returns (level: StopQueue?)
      requires Heap() && i <= |Tree(side)|
      requires forall j :: 0 <= j < i ==> Sooner(side, Tree(side)[j].price, price)
      requires i < |Tree(side)| ==> Sooner(side, price, Tree(side)[i].price)
      modifies `stopSells, `stopBuys, levelPool`top, levelPool`used, levelPool.store, `view
      ensures Heap() && (level == null <==> |old(view).sells| + |old(view).buys| >= |levelPool.store|)
      ensures level == null ==> view == old(view)
      ensures level != null ==> AtLevel(StopPlace(side, level, node, i, 0))
      ensures level != null ==> view == old(view).With(side, SpliceAt(old(view).Of(side), i, StopLevel(price, [])))
    {
      hide Heap, Pool.Valid, Created, Sooner, Sorted;
      TreeFacts(side);
      FreeLevels();
      LevelsDiffer();
      level := OpenLevel(side, price, i, node);
      if level != null {
        ghost var f := StopPlace(side, level, node, i, 0);
        CreatedView(f);
        CreateHeap(f);
      } else {
        Untouched();
      }
    }

    /** The level at a trigger, made from a free slot when there is none; null when the pool is exhausted. */
    method GetOrCreate(side: Side, price: int, ghost node: StopNode) returns (level: StopQueue?, ghost i: nat)
      requires Heap()
      modifies `stopSells, `stopBuys, levelPool`top, levelPool`used, levelPool.store, `view
      ensures Heap() && view.Of(side.Opposite()) == old(view).Of(side.Opposite())
      ensures level == null <==> !HasTrigger(old(view).Of(side), price) && |old(view).sells| + |old(view).buys| >= |levelPool.store|
      ensures level == null ==> view == old(view)
      ensures level != null ==> AtLevel(StopPlace(side, level, node, i, 0)) && Opened(old(view).Of(side), view.Of(side), side, i, price)
    {
      hide Heap, Opened, HasTrigger, Sooner, Sorted;
      TreeFacts(side);
      InOrder(side);
      var at := Seek(side, price);
      i := at;
      if at < |Tree(side)| && Tree(side)[at].price == price {
        level := Tree(side)[at];
        OpenedThere(view.Of(side), side, i, price);
        return;
      }
      Between(view.Of(side), side, i, price);
      level := MakeLevel(side, price, at, node);
    }

    // ----- Slots -----

    twostate lemma ReleasedSlots(node: StopNode)
      requires old(SlotsOK()) && old(node in spare) && node !in index.Values && index == old(index) && DifferentNodes()
      requires forall n :: n in nodePool.store ==> unchanged(n)
      requires spare == old(spare) - {node} && nodePool.used == old(nodePool.used) - {node.poolIndex}
      ensures SlotsOK()
    {
    }

    /** A held node is nowhere in the index. */
    lemma HeldNode(node: StopNode)
      requires IndexOK() && SlotsOK() && node in spare
      ensures node in nodePool.store && node.level == null && NodeSlot(node) && node !in index.Values
    {
    }

    method ReleaseRaw(node: StopNode)
      requires nodePool.Valid() && NodeSlot(node) && node in spare
      modifies nodePool`top, nodePool`used, nodePool.free, `spare
      ensures nodePool.Valid() && nodePool.used == old(nodePool.used) - {node.poolIndex} && |nodePool.used| == |old(nodePool.used)| - 1
      ensures spare == old(spare) - {node} && |spare| == |old(spare)| - 1
    {
      nodePool.Release(node.poolIndex);
      spare := spare - {node};
    }

    /** Give a held node's slot back. */
    method ReleaseNode(node: StopNode)
      requires Valid() && node in spare
      modifies Footprint()
      ensures Valid() && spare == old(spare) - {node} && View() == old(View())
      ensures forall n :: n in nodePool.store ==> n.s == old(n.s)
    {
      hide TreeOK, IndexOK, LevelPoolOK, SlotsOK, Pool.Valid, NodeSlot, DifferentNodes, Filed;
      HeldNode(node);
      ReleaseRaw(node);
      ReleasedSlots(node);
      KeptFiling();
    }

    twostate lemma KeptFiling()
      requires view == old(view) && index == old(index) && old(Filed()) && forall id :: id in index ==> index[id].s == old(index[id].s)
      ensures Filed()
    {
      hide WFFiling;
      assert Entries() == old(Entries());
    }

    ghost predicate Unlisted(node: StopNode, side: Side)
      reads `stopSells, `stopBuys, Tree(side)`nodes
    {
      forall i :: 0 <= i < |Tree(side)| ==> node !in Tree(side)[i].nodes
    }

    /** A free slot's node is nowhere in the book. */
    lemma FreeNode(idx: int)
      requires Heap() && 0 <= idx < |nodePool.store| && idx !in nodePool.used
      ensures nodePool.store[idx] !in spare && nodePool.store[idx] !in index.Values
      ensures Unlisted(nodePool.store[idx], Bid) && Unlisted(nodePool.store[idx], Ask)
    {
      hide StopQueue.Valid, LevelPoolOK, Sorted;
      assert !NodeSlot(nodePool.store[idx]);
    }

    /** Only `node`, its slot and the caller's hands have changed. */
    twostate predicate OnlyNode(node: StopNode)
      reads `view, `stopSells, `stopBuys, `index, levelPool, levelPool.free, levelPool.store, nodePool.store
    {
      && view == old(view) && stopSells == old(stopSells) && stopBuys == old(stopBuys) && index == old(index)
      && unchanged(levelPool) && unchanged(levelPool.free)
      && (forall p :: p in levelPool.store ==> unchanged(p))
      && (forall n :: n in nodePool.store && n != node ==> unchanged(n))
    }

    twostate lemma AcquiredTree(node: StopNode, new side: Side)
      requires OnlyNode(node) && old(TreeOK(side)) && old(Unlisted(node, side))
      ensures TreeOK(side)
    {
      hide TreeIs;
      InTree(side);
      KeptTree(Tree(side), view.Of(side), side);
    }

    twostate lemma AcquiredIndex(node: StopNode)
      requires OnlyNode(node) && old(IndexOK()) && node !in index.Values
      ensures IndexOK()
    {
    }

    twostate lemma AcquiredSlots(node: StopNode)
      requires OnlyNode(node) && old(SlotsOK()) && node !in index.Values && node in nodePool.store && node.level == null
      requires spare == old(spare) + {node} && nodePool.used == old(nodePool.used) + {node.poolIndex} && NodeSlot(node)
      ensures SlotsOK()
    {
    }

    twostate lemma AcquiredRest(node: StopNode)
      requires OnlyNode(node) && old(LevelPoolOK() && IndexOK() && Filed()) && node !in index.Values
      ensures LevelPoolOK() && Filed()
    {
      KeptFiling();
    }

    method AcquireRaw(idx: int, s: Stop) returns (node: StopNode)
      requires 0 <= idx < |nodePool.store| && idx in nodePool.used && DifferentNodes()
      modifies nodePool.store, `spare
      ensures node == nodePool.store[idx] && node.s == s && node.level == null && NodeSlot(node) && node.poolIndex == idx
      ensures OnlyNode(node) && spare == old(spare) + {node}
    {
      node := nodePool.store[idx];
      node.s, node.prev, node.next, node.level, node.poolIndex := s, null, null, null, idx;
      spare := spare + {node};
    }

    /** A free slot's node, taken and filled in, is in nobody's way. */
    twostate lemma AcquiredValid(node: StopNode)
      requires old(Valid()) && OnlyNode(node) && node in nodePool.store && node.level == null && NodeSlot(node)
      requires node !in old(spare) && node !in old(index.Values) && old(Unlisted(node, Bid)) && old(Unlisted(node, Ask))
      requires nodePool.Valid() && spare == old(spare) + {node} && node.poolIndex !in old(nodePool.used)
      requires nodePool.used == old(nodePool.used) + {node.poolIndex}
      ensures Valid() && View() == old(View())
    {
      hide TreeOK, IndexOK, LevelPoolOK, SlotsOK, Pool.Valid, NodeSlot, DifferentNodes, Unlisted, Filed;
      AcquiredTree(node, Bid);
      AcquiredTree(node, Ask);
      AcquiredIndex(node);
      AcquiredSlots(node);
      AcquiredRest(node);
    }

    ghost predicate FreeSlot(n: StopNode)
      reads nodePool`used
    {
      exists idx :: 0 <= idx < |nodePool.store| && idx !in nodePool.used && nodePool.store[idx] == n
    }

    twostate lemma FreeAt(new idx: int)
      requires 0 <= idx < |nodePool.store| && idx !in old(nodePool.used)
      ensures old(FreeSlot(nodePool.store[idx]))
    {
    }

    lemma FreeNodes()
      requires Heap()
      ensures forall n :: n in spare ==> n in nodePool.store
      ensures forall n :: n in nodePool.store && FreeSlot(n) ==> n !in spare && n !in index.Values && Unlisted(n, Bid) && Unlisted(n, Ask)
      ensures |nodePool.used| == |spare| + |index| && |nodePool.used| <= |nodePool.store|
    {
      assert forall n :: n in spare ==> n in nodePool.store;
      assert |nodePool.used| <= |nodePool.store|;
      hide Heap, SlotsOK, Unlisted;
      forall idx | 0 <= idx < |nodePool.store| && idx !in nodePool.used {
        FreeNode(idx);
      }
    }

    lemma IndexCount()
      requires Filed()
      ensures SumBoth(View(), OneStop) == |index|
    {
      assert Entries().Keys == index.Keys;
    }

    lemma PoolReady()
      requires Valid()
      ensures nodePool.Valid() && DifferentNodes() && |nodePool.used| == |spare| + SumBoth(View(), OneStop) && |nodePool.used| <= |nodePool.store|
      ensures forall n :: n in spare ==> n in nodePool.store
      ensures forall n :: n in nodePool.store && FreeSlot(n) ==> n !in spare && n !in index.Values && Unlisted(n, Bid) && Unlisted(n, Ask)
    {
      hide TreeOK, IndexOK, LevelPoolOK, SlotsOK, Pool.Valid, DifferentNodes, Filed, FreeSlot, Unlisted, SumStops;
      FreeNodes();
      IndexCount();
    }

    /** Acquire a node and fill in its fields; fails exactly when every slot waits or is held. */
    method AcquireNode(s: Stop) returns (node: StopNode?)
      requires Valid()
      modifies Footprint()
      ensures Valid() && View() == old(View()) && (node == null <==> |old(spare)| + SumBoth(old(View()), OneStop) >= |nodePool.store|)
      ensures node == null ==> spare == old(spare)
      ensures node != null ==> node !in old(spare) && spare == old(spare) + {node} && node.s == s
      ensures forall n :: n in old(spare) ==> n.s == old(n.s)
    {
      hide Valid, Heap, Pool.Valid, NodeSlot, DifferentNodes, Unlisted, FreeSlot, SumStops, View, Footprint;
      Owned();
      PoolReady();
      var ok, idx := nodePool.Acquire();
      if !ok {
        return null;
      }
      assert old(FreeSlot(nodePool.store[idx])) by {
        FreeAt(idx);
      }
      node := AcquireRaw(idx, s);
      AcquiredValid(node);
    }

    // ----- The stop book's own operations -----

    predicate Has(id: OrderId)
      reads `index
    {
      id in index
    }

    lemma HeldUnknown()
      requires Heap()
      ensures forall n :: n in spare ==> n !in index.Values
    {
      hide TreeOK, LevelPoolOK;
    }

    /** The index finds what a search of the queues finds. */
    lemma IndexFind(id: OrderId)
      requires Valid()
      ensures FindStop(View(), id) == if id in index then FoundStop(index[id].s) else NoStop
      ensures id in index ==> index[id].s.id == id && index[id] in nodePool.store && index[id] !in spare
    {
      hide TreeOK, LevelPoolOK, WFFiling, FindStop;
      FilingFind(view, Entries(), id);
      HeldUnknown();
    }

    /** Everything an edit at `f` writes belongs to the book. */
    lemma Writable(f: StopPlace)
      requires Heap() && AtLevel(f) && (f.node in spare || f.node in f.level.nodes)
      ensures f.level in levelPool.store && f.node in nodePool.store && InStore(f.level)
    {
      QueueFacts(f.side, f.i);
      hide TreeOK, IndexOK, LevelPoolOK, StopQueue.Valid;
      assert forall k :: 0 <= k < |f.level.nodes| ==> f.level.nodes[k] in nodePool.store;
    }

    twostate lemma SameEntries()
      requires index == old(index) && forall id :: id in index ==> index[id].s == old(index[id].s)
      ensures Entries() == old(Entries())
    {
    }

    /** The levels are as many as the different triggers, and one of them has this one exactly when a stop waits at it. */
    lemma LevelsExactly(side: Side, trigger: int)
      requires Filed()
      ensures |view.sells| + |view.buys| == TriggersInUse(View())
      ensures HasTrigger(view.Of(side), trigger) <==> HasStopAt(View().Of(side), trigger)
    {
      hide WFLevels, Indexes, SumStops, Flat, HasTrigger, HasStopAt;
      LevelsAreTriggers(view.sells, Ask);
      LevelsAreTriggers(view.buys, Bid);
      TriggerHasLevel(view.Of(side), side, trigger);
    }

    /** What an index knows is in the store. */
    lemma KnownNodes()
      requires Heap()
      ensures forall n :: n in spare ==> n in nodePool.store
      ensures forall id :: id in index ==> index[id] in nodePool.store && index[id].s.id == id
    {
      hide TreeOK, LevelPoolOK;
    }

    /** File a held node: find the level of its trigger, or make it, and append. `false` stands for the
        panic when there is no level slot left; the program indexes the node before it panics, but
        nothing reads the book afterwards. */
    method AddStop(node: StopNode) returns (ok: bool)
      requires Valid() && node in spare && !Has(node.s.id)
      modifies Footprint()
      ensures Valid() && node.s == old(node.s)
      ensures ok == (TriggersInUse(old(View())) < |levelPool.store| || HasStopAt(old(View()).Of(node.s.side), node.s.trigger))
      ensures ok ==> spare == old(spare) - {node} && View() == old(View()).With(node.s.side, AddTo(old(View()).Of(node.s.side), node.s))
      ensures !ok ==> spare == old(spare) && View() == old(View())
    {
      hide Heap, Filed, Opened, HasTrigger, TriggersInUse, HasStopAt, AddTo, Flat;
      var side := node.s.side;
      LevelsExactly(side, node.s.trigger);
      KnownNodes();
      ghost var was := view;
      var level, i := GetOrCreate(side, node.s.trigger, node);
      if level == null {
        KeptFiling();
        return false;
      }
      ok := true;
      SameEntries();
      assert WFFiling(was, Entries()) by {
        WasFiled(was);
      }
      FileAt(level, node, StopPlace(side, level, node, i, 0), was);
    }

    twostate lemma WasFiled(was: Filing)
      requires old(Filed()) && was == old(view) && Entries() == old(Entries())
      ensures WFFiling(was, Entries())
    {
    }

    /** The level is there, perhaps just made: append, and the stop is where it belongs. */
    method FileAt(level: StopQueue, node: StopNode, ghost f: StopPlace, ghost was: Filing)
      requires Heap() && f.level == level && f.node == node && AtLevel(f) && node in spare && !Has(node.s.id) && f.side == node.s.side
      requires Opened(was.Of(f.side), view.Of(f.side), f.side, f.i, node.s.trigger) && view.Of(f.side.Opposite()) == was.Of(f.side.Opposite())
      requires WFFiling(was, Entries())
      modifies Footprint()
      ensures Valid() && node.s == old(node.s) && spare == old(spare) - {node}
      ensures View() == was.All().With(f.side, AddTo(was.All().Of(f.side), node.s))
    {
      hide Heap, Opened, WFFiling, AddTo, Flat, PutStop;
      Writable(f);
      KnownNodes();
      PutOpened(was.Of(f.side), view.Of(f.side), f.i, node.s);
      OpenedAt(was.Of(f.side), view.Of(f.side), f.side, f.i, node.s.trigger);
      FilingAdd(was, Entries(), node.s);
      Enqueue(level, node, f);
      assert Entries() == old(Entries())[node.s.id := node.s];
      assert view == was.With(f.side, PutStop(was.Of(f.side), node.s));
    }

    /** Where an indexed node waits. */
    lemma Locate(id: OrderId) returns (f: StopPlace)
      requires Heap() && id in index
      ensures At(f) && f.node == index[id] && f.node.level == f.level && f.node.s.id == id && f.side == f.node.s.side
      ensures f.level in levelPool.store && f.node !in spare && f.node in f.level.nodes
    {
      var n := index[id];
      var side := n.s.side;
      var i :| 0 <= i < |Tree(side)| && Tree(side)[i] == n.level;
      var k :| 0 <= k < |n.level.nodes| && n.level.nodes[k] == n;
      f := StopPlace(side, n.level, n, i, k);
      if n in spare {
        HeldNode(n);
      }
      hide StopQueue.Valid, NodePoolOK, LevelPoolOK;
    }

    /** The place of a node in the value of its tree. */
    lemma PlaceValue(f: StopPlace)
      requires Heap() && At(f)
      ensures FiledAt(view.Of(f.side), f.i, f.k, f.node.s.id) && view.Of(f.side)[f.i].stops[f.k] == f.node.s
      ensures StopsAt(view.Of(f.side), f.i) == f.level.stops && |f.level.stops| == |f.level.nodes|
    {
      QueueFacts(f.side, f.i);
      hide TreeOK, IndexOK, StopQueue.Linked;
    }

    lemma EmptyFacts(f: StopPlace)
      requires Heap() && AtLevel(f)
      ensures f.level.IsEmpty() <==> f.level.nodes == []
    {
      QueueFacts(f.side, f.i);
      hide TreeOK, IndexOK;
    }

    /** Take an indexed stop off the book, its level with it when nothing else waits there. */
    method TakeOff(id: OrderId) returns (node: StopNode)
      requires Valid() && Has(id)
      modifies Footprint()
      ensures Valid() && node == old(index[id]) && node !in old(spare) && spare == old(spare) + {node}
      ensures index == old(index) - {id} && View() == RemoveStop(old(View()), id)
      ensures FindStop(old(View()), id) == FoundStop(node.s) && node.s.id == id
      ensures forall n :: n in nodePool.store ==> n.s == old(n.s)
    {
      hide Heap, Filed, WFFiling, SumStops, RemoveStop, FindStop, FiledAt, AtLevel, Without, Footprint;
      node := index[id];
      ghost var f := Locate(id);
      KnownNodes();
      PlaceValue(f);
      TakenFiled(f);
      RemoveNode(node.level, node, f);
      TakenEntries(f);
      FiledNow();
    }

    lemma FiledNow()
      requires WFFiling(view, Entries())
      ensures Filed()
    {
    }

    /** The stop at a place, taken out of the values. */
    lemma TakenFiled(f: StopPlace)
      requires Filed() && f.node.s.id in index && index[f.node.s.id] == f.node && FiledAt(view.Of(f.side), f.i, f.k, f.node.s.id)
      ensures WFFiling(view.With(f.side, Without(view.Of(f.side), f.i, f.k)), Entries() - {f.node.s.id})
      ensures view.With(f.side, Without(view.Of(f.side), f.i, f.k)).All() == RemoveStop(View(), f.node.s.id)
      ensures FindStop(View(), f.node.s.id) == FoundStop(f.node.s)
    {
      hide WFFiling, SumStops, TakeStop, RemoveStop, FindStop, FiledAt, Without, Flat;
      var id := f.node.s.id;
      FilingTake(view, Entries(), f.side, f.i, f.k, id);
      TakeFiled(view.Of(f.side), f.i, f.k, id);
    }

    twostate lemma TakenEntries(f: StopPlace)
      requires index == old(index) - {f.node.s.id} && forall id :: id in index ==> index[id].s == old(index[id].s)
      ensures Entries() == old(Entries()) - {f.node.s.id}
    {
    }

    /** Unlink a node, and drop its level when nothing else waits there. */
    method RemoveNode(level: StopQueue, node: StopNode, ghost f: StopPlace)
      requires Heap() && f.level == level && f.node == node && At(f) && f.side == node.s.side
      modifies Footprint()
      ensures forall n :: n in nodePool.store ==> n.s == old(n.s)
      ensures Heap() && spare == old(spare) + {node} && index == old(index) - {node.s.id}
      ensures view == old(view).With(f.side, Without(old(view).Of(f.side), f.i, f.k))
    {
      hide Heap, AtLevel;
      PlaceValue(f);
      Writable(f);
      Detach(level, node, f);
      EmptyFacts(f);
      if level.IsEmpty() {
        DropLevel(node.s.side, level, f);
      }
    }

    /** Remove a stop for its owner; the caller announces it and releases the node. */
    method CancelStop(id: OrderId, user: UserId) returns (r: StopCancel)
      requires Valid()
      modifies Footprint()
      ensures Valid()
      ensures match FindStop(old(View()), id)
              case NoStop => r == StopNotFound && View() == old(View()) && spare == old(spare)
              case FoundStop(s) =>
                if s.user != user then r == StopMismatch && View() == old(View()) && spare == old(spare)
                else r.StopRemoved? && r.node.s == s && r.node !in old(spare) && spare == old(spare) + {r.node} && View() == RemoveStop(old(View()), id)
    {
      hide Valid, RemoveStop, FindStop;
      IndexFind(id);
      if id !in index {
        return StopNotFound;
      }
      if index[id].s.user != user {
        return StopMismatch;
      }
      var node := TakeOff(id);
      r := StopRemoved(node);
    }

    // ----- Firing -----

    /** Just these nodes are gone from the index and from the slots in use. */
    ghost predicate GoneFrom(ns: seq<StopNode>, index: map<OrderId, StopNode>, used: set<int>, start: map<OrderId, StopNode>, slots: set<int>) {
      && (forall id :: id in index <==> id in start && start[id] !in ns)
      && (forall id :: id in index ==> index[id] == start[id])
      && (forall x :: x in used <==> x in slots && (0 <= x < |nodePool.store| ==> nodePool.store[x] !in ns))
      && |index| == |start| - |ns| && |used| == |slots| - |ns|
    }

    /** The nodes of a queue are indexed, each under its own id and in a slot of its own. */
    ghost predicate Listed(ns: seq<StopNode>, start: map<OrderId, StopNode>, slots: set<int>)
      reads ns`s, ns`poolIndex
    {
      && (forall i, j :: 0 <= i < j < |ns| ==> ns[i] != ns[j])
      && (forall k {:trigger ns[k]} :: 0 <= k < |ns| ==>
            && (forall id :: id in start && start[id] == ns[k] <==> id == ns[k].s.id)
            && ns[k].poolIndex in slots && 0 <= ns[k].poolIndex < |nodePool.store| && nodePool.store[ns[k].poolIndex] == ns[k])
    }

    lemma GoneOne(ns: seq<StopNode>, j: nat, index: map<OrderId, StopNode>, used: set<int>, start: map<OrderId, StopNode>, slots: set<int>)
      requires j < |ns| && Listed(ns, start, slots) && GoneFrom(ns[..j], index, used, start, slots) && DifferentNodes()
      ensures ns[j].s.id in index && ns[j].poolIndex in used
      ensures GoneFrom(ns[..j + 1], index - {ns[j].s.id}, used - {ns[j].poolIndex}, start, slots)
    {
      OneMore(ns, j);
      assert ns[j] !in ns[..j] && start[ns[j].s.id] == ns[j];
      hide Listed;
      IndexLess(index, ns[j].s.id);
    }

    lemma OneMore(ns: seq<StopNode>, j: nat)
      requires j < |ns|
      ensures forall n :: n in ns[..j + 1] <==> n in ns[..j] || n == ns[j]
    {
      assert ns[..j + 1] == ns[..j] + [ns[j]];
    }

    /** The best level of a tree. */
    lemma BestFacts(side: Side)
      requires Heap() && Tree(side) != []
      ensures Tree(side)[0].Valid() && nodePool.Valid() && DifferentNodes()
      ensures 0 < |view.Of(side)| && Tree(side)[0].stops == view.Of(side)[0].stops && Tree(side)[0].price == view.Of(side)[0].price
      ensures Tree(side)[0] in levelPool.store && Tree(side)[0].poolIndex in levelPool.used && levelPool.Valid() && Apart()
    {
      QueueFacts(side, 0);
      hide Sorted, Pool.Valid, TreeOK, IndexOK, SlotsOK, StopQueue.Valid;
    }

    lemma BestListed(side: Side)
      requires TreeOK(side) && IndexOK() && SlotsOK() && Tree(side) != []
      ensures Listed(Tree(side)[0].nodes, index, nodePool.used)
    {
      hide TreeOK, StopQueue.Linked, StopQueue.Counted, IndexOK, SlotsOK, Indexed, LevelSlot;
      QueueFacts(side, 0);
      Tree(side)[0].DifferentNodes();
      forall k | 0 <= k < |Tree(side)[0].nodes| {
        ListedNode(Tree(side)[0].nodes[k]);
      }
    }

    /** An indexed node is indexed once, and in its own slot. */
    lemma ListedNode(n: StopNode)
      requires IndexOK() && SlotsOK() && Indexed(n)
      ensures forall id :: id in index && index[id] == n <==> id == n.s.id
      ensures n.poolIndex in nodePool.used && 0 <= n.poolIndex < |nodePool.store| && nodePool.store[n.poolIndex] == n
    {
    }

    /** The `j`-th node of a queue, and the one behind it. */
    lemma Along(level: StopQueue, j: nat)
      requires level.Valid() && j < |level.nodes| == |level.stops|
      ensures level.nodes[j].s == level.stops[j] && level.nodes[j].next == if j + 1 < |level.nodes| then level.nodes[j + 1] else null
    {
    }

    lemma Along0(level: StopQueue)
      requires level.Valid()
      ensures |level.nodes| == |level.stops| && level.head == if 0 < |level.nodes| then level.nodes[0] else null
    {
    }

    /** `j` nodes into the walk. */
    ghost predicate Walking(level: StopQueue, j: nat, start: map<OrderId, StopNode>, slots: set<int>, entries: map<OrderId, Stop>)
      reads `index, index.Values`s, nodePool, nodePool.free, level`nodes, level`stops
    {
      && j <= |level.nodes| == |level.stops| && nodePool.Valid() && GoneFrom(level.nodes[..j], index, nodePool.used, start, slots)
      && Drained(Entries(), level.stops[j..]) == Drained(entries, level.stops)
    }

    lemma WalkStarts(level: StopQueue)
      requires level.Valid() && nodePool.Valid()
      ensures Walking(level, 0, index, nodePool.used, Entries())
    {
      hide Pool.Valid;
      assert level.stops[0..] == level.stops;
    }

    lemma WalkEnds(level: StopQueue, start: map<OrderId, StopNode>, slots: set<int>, entries: map<OrderId, Stop>)
      requires Walking(level, |level.nodes|, start, slots, entries)
      ensures GoneFrom(level.nodes, index, nodePool.used, start, slots) && Entries() == Drained(entries, level.stops) && nodePool.Valid()
    {
      hide Pool.Valid;
      assert level.nodes[..|level.nodes|] == level.nodes;
    }

    /** The next node of the walk leaves the index, and its slot is free. */
    method WalkStep(level: StopQueue, node: StopNode, ghost j: nat, ghost start: map<OrderId, StopNode>, ghost slots: set<int>, ghost entries: map<OrderId, Stop>)
      requires Walking(level, j, start, slots, entries) && Listed(level.nodes, start, slots) && DifferentNodes() && Apart()
      requires j < |level.nodes| && node == level.nodes[j] && node.s == level.stops[j]
      modifies `index, nodePool`top, nodePool`used, nodePool.free
      ensures Walking(level, j + 1, start, slots, entries)
    {
      hide Pool.Valid, GoneFrom, Listed, DifferentNodes, Drained, EntriesOf;
      GoneOne(level.nodes, j, index, nodePool.used, start, slots);
      DrainedStep(Entries(), level.stops, j);
      LessEntries(index, node.s.id);
      index := index - {node.s.id};
      nodePool.Release(node.poolIndex);
    }

    /** Walk along a queue without unlinking: its nodes leave the index, and their slots are free. */
    method DrainNodes(level: StopQueue) returns (fired: seq<Stop>)
      requires level.Valid() && Listed(level.nodes, index, nodePool.used) && nodePool.Valid() && DifferentNodes() && Apart()
      modifies `index, nodePool`top, nodePool`used, nodePool.free
      ensures nodePool.Valid() && fired == level.stops
      ensures GoneFrom(level.nodes, index, nodePool.used, old(index), old(nodePool.used))
      ensures Entries() == Drained(old(Entries()), level.stops)
    {
      hide Pool.Valid, GoneFrom, Listed, StopQueue.Valid, DifferentNodes, Drained, EntriesOf, Walking;
      fired := [];
      var node := level.head;
      ghost var j := 0;
      ghost var start, slots, entries := index, nodePool.used, Entries();
      WalkStarts(level);
      Along0(level);
      while node != null
        invariant j <= |level.nodes| && node == (if j < |level.nodes| then level.nodes[j] else null)
        invariant fired == level.stops[..j] && Walking(level, j, start, slots, entries)
        decreases |level.nodes| - j
      {
        Along(level, j);
        var next := node.next;
        fired := fired + [node.s];
        WalkStep(level, node, j, start, slots, entries);
        node := next;
        j := j + 1;
      }
      WalkEnds(level, start, slots, entries);
    }

    /** The best level of a tree is gone, with all its nodes. */
    twostate predicate Fired(level: StopQueue, new side: Side)
      reads this, nodePool, nodePool.free, nodePool.store, levelPool, levelPool.free, levelPool.store, level
    {
      && old(Tree(side)) != [] && old(Tree(side)[0]) == level && level in levelPool.store
      && Tree(side) == old(Tree(side))[1..] && Tree(side.Opposite()) == old(Tree(side.Opposite()))
      && (forall p :: p in levelPool.store ==> unchanged(p)) && (forall n :: n in nodePool.store ==> unchanged(n))
      && nodePool.Valid() && GoneFrom(level.nodes, index, nodePool.used, old(index), old(nodePool.used)) && spare == old(spare)
      && levelPool.Valid() && levelPool.used == old(levelPool.used) - {level.poolIndex}
      && view == old(view).With(side, if old(view).Of(side) == [] then [] else old(view).Of(side)[1..])
    }

    lemma LessEntries(index: map<OrderId, StopNode>, id: OrderId)
      ensures EntriesOf(index - {id}) == EntriesOf(index) - {id}
    {
    }

    /** A queue of other nodes stays as it is, and indexed. */
    twostate lemma FiredQueue(level: StopQueue, new side: Side, new s: Side, new j: nat)
      requires Fired(level, side) && old(TreeOK(s)) && j < |old(Tree(s))| && old(Tree(s)[j]) != level && old(level.Valid())
      requires old(level.poolIndex) != old(Tree(s)[j].poolIndex)
      ensures j < |old(view.Of(s))| && old(Tree(s)[j]) in levelPool.store && QueueOK(old(Tree(s)[j]), old(view.Of(s)[j]), s)
    {
      hide Fired, StopQueue.Valid, TreeOK, Pool.Valid;
      FiredNodes(level, side, s, j);
      WasQueue(s, j);
      FiredFrame(level, side);
    }

    twostate lemma FiredFrame(level: StopQueue, new side: Side)
      requires Fired(level, side)
      ensures forall p :: p in levelPool.store ==> unchanged(p)
      ensures forall n :: n in nodePool.store ==> unchanged(n)
      ensures levelPool.used == old(levelPool.used) - {level.poolIndex} && level.poolIndex == old(level.poolIndex)
    {
      hide Pool.Valid, GoneFrom;
    }

    twostate lemma WasQueue(new s: Side, new j: nat)
      requires old(TreeOK(s)) && j < |old(Tree(s))|
      ensures j < |old(view.Of(s))| && old(Tree(s)[j]) in levelPool.store && old(QueueOK(Tree(s)[j], view.Of(s)[j], s))
    {
      hide QueueOK;
    }

    twostate lemma FiredNodes(level: StopQueue, new side: Side, new s: Side, new j: nat)
      requires Fired(level, side) && old(TreeOK(s)) && j < |old(Tree(s))| && old(Tree(s)[j]) != level && old(level.Valid())
      ensures forall k :: 0 <= k < |old(Tree(s)[j].nodes)| ==> Indexed(old(Tree(s)[j].nodes)[k])
    {
      hide Fired, TreeOK, StopQueue.Valid, Indexed;
      WasQueue(s, j);
      var l := old(Tree(s)[j]);
      forall k | 0 <= k < |old(l.nodes)|
        ensures Indexed(old(l.nodes)[k])
      {
        NotShared(level, l, k);
        StillIndexed(level, side, old(l.nodes)[k]);
      }
    }

    /** A node is in one queue only. */
    twostate lemma NotShared(level: StopQueue, new l: StopQueue, new k: nat)
      requires allocated(l) && old(allocated(l)) && old(level.Valid()) && old(l.Valid()) && l != level && k < |old(l.nodes)|
      ensures old(l.nodes)[k] !in old(level.nodes)
    {
      hide StopQueue.Counted;
      assert old(l.nodes[k].level) == l;
    }

    twostate lemma StillIndexed(level: StopQueue, new side: Side, new n: StopNode)
      requires Fired(level, side) && n in nodePool.store && old(Indexed(n)) && n !in old(level.nodes)
      ensures Indexed(n)
    {
      hide Pool.Valid;
    }

    /** Slots tell levels apart. */
    twostate lemma OtherSlot(level: StopQueue, new side: Side, new s: Side, new j: nat)
      requires old(Heap()) && old(Tree(side)) != [] && level == old(Tree(side)[0]) && j < |old(Tree(s))| && (s == side ==> j > 0)
      ensures old(Tree(s)[j]) != level && old(level.Valid()) && old(level.poolIndex) != old(Tree(s)[j].poolIndex)
    {
      hide Pool.Valid, StopQueue.Valid, IndexOK, NodePoolOK;
      assert old(level.Valid());
    }

    twostate lemma FiredTree(level: StopQueue, new side: Side, new s: Side)
      requires Fired(level, side) && old(Heap())
      ensures TreeOK(s)
    {
      hide Heap, Pool.Valid, StopQueue.Valid, QueueOK, GoneFrom, TreeOK, InFiringOrder, Fired;
      WasTree(s);
      ghost var d := if s == side then 1 else 0;
      FiredTo(level, side, s, d);
      forall i | 0 <= i < |Tree(s)|
        ensures Tree(s)[i] in levelPool.store && QueueOK(Tree(s)[i], view.Of(s)[i], s)
      {
        OtherSlot(level, side, s, i + d);
        FiredQueue(level, side, s, i + d);
      }
      TreeParts(s);
    }

    lemma TreeParts(side: Side)
      requires |Tree(side)| == |view.Of(side)| && Sorted(side)
      requires forall i :: 0 <= i < |Tree(side)| ==> Tree(side)[i] in levelPool.store && QueueOK(Tree(side)[i], view.Of(side)[i], side)
      ensures TreeOK(side)
    {
      hide QueueOK, InFiringOrder;
    }

    twostate lemma FiredTo(level: StopQueue, new side: Side, new s: Side, new d: nat)
      requires Fired(level, side) && old(TreeOK(s)) && d == if s == side then 1 else 0
      ensures old(Tree(side)) != [] && level == old(Tree(side)[0])
      ensures |Tree(s)| == |view.Of(s)| == |old(Tree(s))| - d && Sorted(s)
      ensures forall i {:trigger Tree(s)[i]} :: 0 <= i < |Tree(s)| ==> Tree(s)[i] == old(Tree(s))[i + d] && view.Of(s)[i] == old(view.Of(s))[i + d]
    {
      hide Pool.Valid, QueueOK, GoneFrom;
    }

    twostate lemma WasTree(new s: Side)
      requires old(Heap())
      ensures old(TreeOK(s))
    {
    }

    twostate lemma FiredIndex(level: StopQueue, new side: Side)
      requires Fired(level, side) && old(IndexOK())
      ensures IndexOK()
    {
      hide Pool.Valid;
    }

    twostate lemma FiredSlots(level: StopQueue)
      requires GoneFrom(level.nodes, index, nodePool.used, old(index), old(nodePool.used)) && spare == old(spare) && old(SlotsOK())
      requires (forall n :: n in nodePool.store ==> unchanged(n)) && forall n :: n in spare ==> n !in level.nodes
      ensures SlotsOK()
    {
    }

    /** A held node is in no queue. */
    twostate lemma HeldNowhere(level: StopQueue)
      requires old(SlotsOK()) && old(level.Valid()) && spare == old(spare) && level.nodes == old(level.nodes)
      ensures forall n :: n in spare ==> n !in level.nodes
    {
      hide StopQueue.Counted;
      assert forall n :: n in old(level.nodes) ==> old(n.level) == level;
    }

    twostate lemma FiredPools(level: StopQueue, new side: Side)
      requires Fired(level, side) && old(NodePoolOK()) && old(level.Valid())
      ensures NodePoolOK()
    {
      hide Pool.Valid, StopQueue.Valid, SlotsOK;
      FiredFrame(level, side);
      HeldNowhere(level);
      FiredSlots(level);
    }

    twostate lemma FiredLevels(level: StopQueue, new side: Side)
      requires Fired(level, side) && old(LevelPoolOK()) && old(TreeOK(side))
      ensures LevelPoolOK()
    {
      hide TreeOK, Fired, Pool.Valid, DropAt, StopQueue.Valid, LevelPoolOK, LevelSlot;
      FiredBest(level, side);
      LessLevels(level, side, 0);
    }

    /** The best level is dropped, and so is its slot. */
    twostate lemma FiredBest(level: StopQueue, new side: Side)
      requires Fired(level, side) && old(TreeOK(side))
      ensures old(Tree(side)) != [] && old(Tree(side)[0]) == level && Tree(side) == DropAt(old(Tree(side)), 0)
      ensures Tree(side.Opposite()) == old(Tree(side.Opposite())) && old(LevelSlot(level)) && level.poolIndex == old(level.poolIndex)
      ensures levelPool.Valid() && levelPool.used == old(levelPool.used) - {level.poolIndex}
    {
      WasQueue(side, 0);
      hide TreeOK, Pool.Valid, GoneFrom, StopQueue.Valid;
      DropFirst(old(Tree(side)));
    }

    twostate lemma FiredHeap(level: StopQueue, new side: Side)
      requires Fired(level, side) && old(Heap())
      ensures Heap()
    {
      hide TreeOK, NodePoolOK, IndexOK, LevelPoolOK, Pool.Valid, StopQueue.Valid;
      FiredTree(level, side, Ask);
      FiredTree(level, side, Bid);
      FiredIndex(level, side);
      WasTree(side);
      WasQueue(side, 0);
      FiredPools(level, side);
      FiredLevels(level, side);
    }

    /** Take the best level of a tree apart, node by node, and the level with it. */
    method DrainRaw(side: Side) returns (fired: seq<Stop>)
      requires Tree(side) != [] && Tree(side)[0].Valid() && Tree(side)[0] in levelPool.store && view.Of(side) != []
      requires Listed(Tree(side)[0].nodes, index, nodePool.used) && nodePool.Valid() && DifferentNodes() && Apart()
      requires Tree(side)[0].poolIndex in levelPool.used && levelPool.Valid()
      modifies `stopSells, `stopBuys, `index, `view, nodePool`top, nodePool`used, nodePool.free, levelPool`top, levelPool`used, levelPool.free
      ensures Fired(old(Tree(side)[0]), side) && fired == old(Tree(side)[0].stops)
      ensures Entries() == Drained(old(Entries()), fired)
    {
      hide Pool.Valid, GoneFrom, Listed, StopQueue.Valid, DifferentNodes, Drained, EntriesOf;
      var best := Tree(side)[0];
      fired := DrainNodes(best);
      SetTree(side, Tree(side)[1..]);
      levelPool.Release(best.poolIndex);
      view := view.With(side, view.Of(side)[1..]);
    }

    method Drain(side: Side) returns (fired: seq<Stop>)
      requires Valid() && Tree(side) != []
      modifies Footprint()
      ensures Valid() && spare == old(spare) && |Tree(side)| < |old(Tree(side))|
      ensures old(view).Of(side) != [] && view == old(view).With(side, old(view).Of(side)[1..]) && fired == old(view).Of(side)[0].stops
      ensures forall n :: n in nodePool.store ==> n.s == old(n.s)
    {
      hide Heap, Filed, WFFiling, Pool.Valid, Listed, StopQueue.Valid, DifferentNodes, Drained, EntriesOf, Fired;
      BestFacts(side);
      HeapListed(side);
      FiledStays(side);
      fired := DrainRaw(side);
      FiredHeap(old(Tree(side)[0]), side);
      FiredView(old(Tree(side)[0]), side);
      FiledNow();
    }

    lemma HeapListed(side: Side)
      requires Heap() && Tree(side) != []
      ensures Listed(Tree(side)[0].nodes, index, nodePool.used)
    {
      hide TreeOK, IndexOK, SlotsOK, LevelPoolOK, Listed, Pool.Valid;
      BestListed(side);
    }

    lemma FiledStays(side: Side)
      requires Filed() && view.Of(side) != []
      ensures WFFiling(view.With(side, view.Of(side)[1..]), Drained(Entries(), view.Of(side)[0].stops))
    {
      hide WFFiling;
      FilingFire(view, Entries(), side);
    }

    twostate lemma FiredView(level: StopQueue, new side: Side)
      requires Fired(level, side) && old(view).Of(side) != []
      ensures view == old(view).With(side, old(view).Of(side)[1..]) && spare == old(spare) && |Tree(side)| < |old(Tree(side))|
      ensures forall n :: n in nodePool.store ==> n.s == old(n.s)
    {
      hide Pool.Valid, GoneFrom;
    }

    /** The best trigger of a tree. */
    lemma BestTrigger(side: Side)
      requires Valid()
      ensures Tree(side) == [] <==> view.Of(side) == []
      ensures Tree(side) != [] ==> Tree(side)[0].price == view.Of(side)[0].price
      ensures WFLevels(view.Of(side), side)
    {
      hide WFLevels, Sorted, StopQueue.Valid, IndexOK, NodePoolOK, LevelPoolOK;
    }

    lemma DueNow(price: int)
      requires Valid()
      ensures forall s :: s in AllFired(View(), price) <==> (s in View().sells && s.trigger >= price) || (s in View().buys && s.trigger <= price)
    {
      hide Heap, WFLevels, Indexes, SumStops, AllFired, Flat;
      FilingDue(view, price);
    }

    /** Fire every stop that a trade at this price sets off: sells first, then buys. */
    method CheckTriggers(lastTradePrice: int, depth: nat) returns (limited: bool, triggered: seq<Stop>)
      requires Valid()
      modifies Footprint()
      ensures Valid() && limited == (depth >= maxDepth) && spare == old(spare)
      ensures limited ==> View() == old(View()) && triggered == []
      ensures !limited ==> triggered == AllFired(old(View()), lastTradePrice) && View() == AllUnfired(old(View()), lastTradePrice)
      ensures !limited ==> forall s :: s in triggered <==> (s in old(View()).sells && s.trigger >= lastTradePrice)
                                                           || (s in old(View()).buys && s.trigger <= lastTradePrice)
    {
      hide Valid, WFLevels, Flat, StopSpec.Fired, Unfired;
      triggered := [];
      if depth >= maxDepth {
        return true, [];
      }
      limited := false;
      ghost var was := View();
      DueNow(lastTradePrice);
      BestTrigger(Ask);
      while stopSells != [] && lastTradePrice <= stopSells[0].price
        invariant Valid() && View().buys == was.buys && spare == old(spare)
        invariant stopSells == [] <==> view.sells == []
        invariant stopSells != [] ==> stopSells[0].price == view.sells[0].price
        invariant WFLevels(view.sells, Ask)
        invariant triggered + StopSpec.Fired(View().sells, Ask, lastTradePrice) == StopSpec.Fired(was.sells, Ask, lastTradePrice)
        invariant Unfired(View().sells, Ask, lastTradePrice) == Unfired(was.sells, Ask, lastTradePrice)
        decreases |stopSells|
      {
        LevelFires(view.sells, Ask, lastTradePrice, triggered);
        var fired := Drain(Ask);
        triggered := triggered + fired;
        BestTrigger(Ask);
      }
      NoneFires(view.sells, Ask, lastTradePrice);
      ghost var sells := triggered;
      assert sells == StopSpec.Fired(was.sells, Ask, lastTradePrice);
      BestTrigger(Bid);
      while stopBuys != [] && lastTradePrice >= stopBuys[0].price
        invariant Valid() && View().sells == Unfired(was.sells, Ask, lastTradePrice) && spare == old(spare)
        invariant stopBuys == [] <==> view.buys == []
        invariant stopBuys != [] ==> stopBuys[0].price == view.buys[0].price
        invariant WFLevels(view.buys, Bid)
        invariant triggered + StopSpec.Fired(View().buys, Bid, lastTradePrice) == sells + StopSpec.Fired(was.buys, Bid, lastTradePrice)
        invariant Unfired(View().buys, Bid, lastTradePrice) == Unfired(was.buys, Bid, lastTradePrice)
        decreases |stopBuys|
      {
        LevelFires(view.buys, Bid, lastTradePrice, triggered);
        var fired := Drain(Bid);
        triggered := triggered + fired;
        BestTrigger(Bid);
      }
      NoneFires(view.buys, Bid, lastTradePrice);
    }

    // ----- Expiry -----

    ghost function NodeSet(s: seq<StopNode>): set<StopNode> {
      set n | n in s
    }

    lemma NodeSetAdd(s: seq<StopNode>, n: StopNode)
      ensures NodeSet(s + [n]) == NodeSet(s) + {n}
    {
      assert forall x :: x in s + [n] <==> x in s || x == n;
    }

    /** One node less in hand. */
    lemma NodeSetRest(s: seq<StopNode>, k: nat, others: set<StopNode>)
      requires k < |s| && s[k] !in others && forall j :: k < j < |s| ==> s[j] != s[k]
      ensures s[k] in NodeSet(s[k..]) && (others + NodeSet(s[k..])) - {s[k]} == others + NodeSet(s[k + 1..])
    {
      assert s[k..] == [s[k]] + s[k + 1..];
    }

    /** Collect every stop past its expiry, in whatever order the map is ranged over, then remove them. */
    method ExpireGTD(now: int) returns (expired: seq<StopNode>, ghost ids: seq<OrderId>)
      requires Valid()
      modifies Footprint()
      ensures Valid() && View() == RemoveStops(old(View()), ids) && spare == old(spare) + NodeSet(expired)
      ensures Overdue(old(Entries()), ids, {}, now) && |expired| == |ids| && forall j :: 0 <= j < |ids| ==> expired[j] !in old(spare)
      ensures forall j :: 0 <= j < |ids| ==> expired[j] in spare && expired[j] in nodePool.store && FindStop(old(View()), ids[j]) == FoundStop(expired[j].s) && expired[j].s.id == ids[j]
      ensures forall id :: FindStop(old(View()), id) == if id in old(Entries()) then FoundStop(old(Entries())[id]) else NoStop
    {
      hide Valid, FindStop, RemoveStop, NodeSet, StopExpired, Overdue;
      expired, ids := CollectExpired(now);
      IndexIds();
      OverdueIds(Entries(), ids, now);
      RemoveExpired(expired, ids);
      SetMembers(expired);
    }

    lemma SetMembers(s: seq<StopNode>)
      ensures forall j :: 0 <= j < |s| ==> s[j] in NodeSet(s)
    {
    }

    method CollectExpired(now: int) returns (expired: seq<StopNode>, ghost ids: seq<OrderId>)
      ensures |expired| == |ids| && Overdue(Entries(), ids, {}, now)
      ensures forall j :: 0 <= j < |ids| ==> ids[j] in index && index[ids[j]] == expired[j]
    {
      hide Overdue;
      expired, ids := [], [];
      var todo := index.Keys;
      OverdueNone(Entries(), now);
      assert Entries().Keys == index.Keys;
      while todo != {}
        invariant todo <= index.Keys && |expired| == |ids| && Overdue(Entries(), ids, todo, now)
        invariant forall j :: 0 <= j < |ids| ==> ids[j] in index && expired[j] == index[ids[j]]
      {
        var id :| id in todo;
        OverdueStep(Entries(), ids, todo, now, id);
        todo := todo - {id};
        if index[id].s.expireAt > 0 && index[id].s.expireAt <= now {
          expired, ids := expired + [index[id]], ids + [id];
        }
      }
    }

    method RemoveExpired(expired: seq<StopNode>, ghost ids: seq<OrderId>)
      requires Valid() && |expired| == |ids| && forall i, j :: 0 <= i < j < |ids| ==> ids[i] != ids[j]
      requires forall j :: 0 <= j < |ids| ==> ids[j] in index && index[ids[j]] == expired[j] && expired[j].s.id == ids[j] && expired[j] in nodePool.store
      modifies Footprint()
      ensures Valid() && View() == RemoveStops(old(View()), ids) && spare == old(spare) + NodeSet(expired)
      ensures forall n :: n in nodePool.store ==> n.s == old(n.s)
    {
      hide Valid, FindStop, RemoveStop, NodeSet, Footprint;
      var k := 0;
      NodeSetEmpty();
      while k < |expired|
        invariant 0 <= k <= |expired| && Valid() && View() == RemoveStops(old(View()), ids[..k]) && spare == old(spare) + NodeSet(expired[..k])
        invariant forall j :: k <= j < |ids| ==> ids[j] in index && index[ids[j]] == expired[j]
        invariant forall n :: n in nodePool.store ==> n.s == old(n.s)
      {
        assert ids[..k + 1][..k] == ids[..k];
        assert expired[..k + 1] == expired[..k] + [expired[k]];
        NodeSetAdd(expired[..k], expired[k]);
        var node := TakeOff(expired[k].s.id);
        k := k + 1;
      }
      assert ids[..|ids|] == ids && expired[..|expired|] == expired;
    }

    lemma NodeSetEmpty()
      ensures NodeSet([]) == {}
    {
    }

    /** Every stop is indexed under its own id. */
    lemma IndexIds()
      requires Valid()
      ensures forall id :: id in index ==> index[id].s.id == id && index[id] in nodePool.store && index[id] !in spare
      ensures forall id :: FindStop(View(), id) == if id in Entries() then FoundStop(Entries()[id]) else NoStop
    {
      hide Valid, FindStop;
      forall id
        ensures FindStop(View(), id) == if id in index then FoundStop(index[id].s) else NoStop
        ensures id in index ==> index[id].s.id == id && index[id] in nodePool.store && index[id] !in spare
      {
        IndexFind(id);
      }
    }
  }

  lemma IndexLess(index: map<OrderId, StopNode>, id: OrderId)
    requires id in index
    ensures |index - {id}| == |index| - 1
  {
    assert (index - {id}).Keys == index.Keys - {id};
  }

  lemma IndexMore(index: map<OrderId, StopNode>, id: OrderId, n: StopNode)
    requires id !in index
    ensures |index[id := n]| == |index| + 1
  {
    assert index[id := n].Keys == index.Keys + {id};
  }
}
