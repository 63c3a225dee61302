/** The waiting stops of one trigger price as an intrusive, doubly linked queue. */
module StopLevels {
  import opened Domain
  import opened BookSpec
  import opened StopSpec

  /** One slot of the node pool: its scalar fields as one value, its links, its back-pointer. */
  class StopNode {
    var s: Stop
    var prev: StopNode?
    var next: StopNode?
    var level: StopQueue?
    var poolIndex: int

    constructor (s: Stop)
      ensures this.s == s && level == null
    {
      this.s := s;
      prev, next, level, poolIndex := null, null, null, 0;
    }
  }

  const NO_STOP := Stop("", "", Bid, 0, 0, 0, Limit, GTC, STPDisabled, 0, 0)

  class StopQueue {
    var price: int
    var orderCount: int
    var head: StopNode?
    var tail: StopNode?
    var poolIndex: int
    /** The queue, oldest first, as nodes and as values. */
    ghost var nodes: seq<StopNode>
    ghost var stops: seq<Stop>

    constructor ()
      ensures Valid() && nodes == []
    {
      price, orderCount, poolIndex := 0, 0, 0;
      head, tail, nodes, stops := null, null, [], [];
    }

    /** A zeroed slot, put to use as an empty level. */
    method Reset(price: int, idx: int)
      modifies this
      ensures Valid() && nodes == [] && this.price == price && poolIndex == idx
    {
      this.price, orderCount, poolIndex := price, 0, idx;
      head, tail, nodes, stops := null, null, [], [];
    }

    /** head/tail/prev/next spell out `nodes`, each of which points back here. */
    ghost predicate Linked()
      reads `head, `tail, `nodes, nodes`prev, nodes`next, nodes`level
    {
      && (nodes == [] ==> head == null && tail == null)
      && (nodes != [] ==> head == nodes[0] && tail == nodes[|nodes| - 1])
      && (forall i {:trigger nodes[i].level} :: 0 <= i < |nodes| ==> nodes[i].level == this)
      && (forall i {:trigger nodes[i].prev} :: 0 <= i < |nodes| ==> nodes[i].prev == (if i == 0 then null else nodes[i - 1]))
      && (forall i {:trigger nodes[i].next} :: 0 <= i < |nodes| ==> nodes[i].next == (if i + 1 < |nodes| then nodes[i + 1] else null))
      && (forall i, j :: 0 <= i < j < |nodes| ==> nodes[i] != nodes[j])
    }

    /** `stops` are the contents of `nodes`, and counted. */
    ghost predicate Counted()
      reads `orderCount, `nodes, `stops, nodes`s
    {
      orderCount == |nodes| == |stops| && forall i {:trigger nodes[i].s} {:trigger stops[i]} :: 0 <= i < |nodes| ==> nodes[i].s == stops[i]
    }

    ghost predicate Valid()
      reads this, nodes
    {
      Linked() && Counted()
    }

    method LinkTail(node: StopNode)
      requires Linked() && node !in nodes
      modifies `head, `tail, `nodes, nodes`next, node`prev, node`next, node`level
      ensures Linked() && nodes == old(nodes) + [node] && node.level == this
      ensures forall n :: n in nodes <==> n in old(nodes) || n == node
    {
      if tail == null {
        head, tail := node, node;
        node.prev, node.next := null, null;
      } else {
        node.prev := tail;
        node.next := null;
        tail.next := node;
        tail := node;
      }
      node.level := this;
      nodes := nodes + [node];
    }

    /** The links are those of `ns` without its `k`-th node. */
    ghost predicate Skips(ns: seq<StopNode>, k: nat)
      reads `head, `tail, ns`prev, ns`next, ns`level
    {
      && k < |ns| && (forall i, j :: 0 <= i < j < |ns| ==> ns[i] != ns[j])
      && head == (if k > 0 then ns[0] else if |ns| > 1 then ns[1] else null)
      && tail == (if k + 1 < |ns| then ns[|ns| - 1] else if k > 0 then ns[k - 1] else null)
      && (forall i {:trigger ns[i].level} :: 0 <= i < |ns| && i != k ==> ns[i].level == this)
      && (forall i {:trigger ns[i].prev} :: 0 <= i < |ns| && i != k ==>
            ns[i].prev == if i == k + 1 then (if k > 0 then ns[k - 1] else null) else if i > 0 then ns[i - 1] else null)
      && (forall i {:trigger ns[i].next} :: 0 <= i < |ns| && i != k ==>
            ns[i].next == if i + 1 == k then (if k + 1 < |ns| then ns[k + 1] else null) else if i + 1 < |ns| then ns[i + 1] else null)
    }

    /** ... and so those of the list without it. */
    lemma Closed(ns: seq<StopNode>, k: nat)
      requires Skips(ns, k) && nodes == ns[..k] + ns[k + 1..]
      ensures Linked()
    {
      forall i | 0 <= i < |nodes|
        ensures nodes[i].level == this
        ensures nodes[i].prev == if i == 0 then null else nodes[i - 1]
        ensures nodes[i].next == if i + 1 < |nodes| then nodes[i + 1] else null
      {
        if i < k {
          assert nodes[i] == ns[i];
          assert i + 1 < |nodes| ==> nodes[i + 1] == ns[if i + 1 == k then k + 1 else i + 1];
        } else {
          assert nodes[i] == ns[i + 1];
          assert i > 0 ==> nodes[i - 1] == ns[if i == k then k - 1 else i];
        }
      }
      StillDistinct(ns, k);
    }

    /** Lead the links around a node. */
    method Bypass(node: StopNode, ghost k: nat)
      requires Linked() && k < |nodes| && nodes[k] == node
      modifies `head, `tail, nodes`next, nodes`prev, node`level
      ensures Skips(nodes, k) && node.level == null
    {
      assert node.prev == (if k == 0 then null else nodes[k - 1]);
      assert node.next == (if k + 1 < |nodes| then nodes[k + 1] else null);
      if node.prev != null {
        node.prev.next := node.next;
      } else {
        head := node.next;
      }
      if node.next != null {
        node.next.prev := node.prev;
      } else {
        tail := node.prev;
      }
      node.prev, node.next, node.level := null, null, null;
    }

    method UnlinkNode(node: StopNode, ghost k: nat)
      requires Linked() && k < |nodes| && nodes[k] == node
      modifies `head, `tail, `nodes, nodes`next, nodes`prev, node`level
      ensures Linked() && nodes == DropAt(old(nodes), k) && node.level == null
      ensures forall n :: n in nodes <==> n in old(nodes) && n != node
    {
      hide Linked, Skips;
      ghost var was := nodes;
      DifferentNodes();
      DropMembers(nodes, k);
      Bypass(node, k);
      nodes := nodes[..k] + nodes[k + 1..];
      Closed(was, k);
    }

    lemma DifferentNodes()
      requires Linked()
      ensures forall i, j :: 0 <= i < j < |nodes| ==> nodes[i] != nodes[j]
    {
    }

    /** A new stop waits behind the others. */
    method Append(node: StopNode)
      requires Valid() && node !in nodes
      modifies `head, `tail, `orderCount, `nodes, `stops, nodes`next, node`prev, node`next, node`level
      ensures Valid() && nodes == old(nodes) + [node] && node.level == this && stops == old(stops) + [node.s]
      ensures forall n :: n in nodes <==> n in old(nodes) || n == node
    {
      hide Linked;
      LinkTail(node);
      orderCount := orderCount + 1;
      stops := stops + [node.s];
    }

    /** Take a node out, wherever it is: the others keep their places. */
    method Unlink(node: StopNode, ghost k: nat)
      requires Valid() && k < |nodes| && nodes[k] == node
      modifies `head, `tail, `orderCount, `nodes, `stops, nodes`next, nodes`prev, node`level
      ensures Valid() && nodes == DropAt(old(nodes), k) && stops == DropAt(old(stops), k) && node.level == null
      ensures forall n :: n in nodes <==> n in old(nodes) && n != node
    {
      hide Linked;
      UnlinkNode(node, k);
      orderCount := orderCount - 1;
      stops := DropAt(stops, k);
    }

    predicate IsEmpty()
      reads `head
    {
      head == null
    }
  }

  method NewStopNodes(n: nat) returns (slots: seq<StopNode>)
    ensures |slots| == n
    ensures forall i :: 0 <= i < n ==> fresh(slots[i]) && slots[i].level == null
    ensures forall i, j :: 0 <= i < j < n ==> slots[i] != slots[j]
  {
    slots := [];
    for i := 0 to n
      invariant |slots| == i
      invariant forall j :: 0 <= j < i ==> fresh(slots[j]) && slots[j].level == null
      invariant forall j, k :: 0 <= j < k < i ==> slots[j] != slots[k]
    {
      var node := new StopNode(NO_STOP);
      slots := slots + [node];
    }
  }

  method NewStopQueues(n: nat) returns (slots: seq<StopQueue>)
    ensures |slots| == n
    ensures forall i :: 0 <= i < n ==> fresh(slots[i])
    ensures forall i, j :: 0 <= i < j < n ==> slots[i] != slots[j]
  {
    slots := [];
    for i := 0 to n
      invariant |slots| == i
      invariant forall j :: 0 <= j < i ==> fresh(slots[j])
      invariant forall j, k :: 0 <= j < k < i ==> slots[j] != slots[k]
    {
      var level := new StopQueue();
      slots := slots + [level];
    }
  }
}
