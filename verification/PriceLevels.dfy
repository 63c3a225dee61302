/** Resting orders as intrusive nodes, and the doubly linked FIFO queue of one price. */
module PriceLevels {
  import opened Domain
  import opened BookSpec
  import opened MatchSpec

  /** One slot of the node pool: its scalar fields as one value, its links, its back-pointer. */
  class OrderNode {
    var o: Order
    var prev: OrderNode?
    var next: OrderNode?
    var level: PriceLevel?
    var poolIndex: int

    constructor (o: Order)
      ensures this.o == o && level == null
    {
      this.o := o;
      prev, next, level, poolIndex := null, null, null, 0;
    }
  }

  const NO_ORDER := Order("", "", Bid, Limit, GTC, STPDisabled, false, 0, 0, 0, 0, 0, 0, 0, 0, 0)

  class PriceLevel {
    var price: int
    var totalQty: int
    var displayQty: int
    var orderCount: int
    var head: OrderNode?
    var tail: OrderNode?
    var poolIndex: int
    /** The queue, oldest first, as nodes and as values. */
    ghost var nodes: seq<OrderNode>
    ghost var orders: seq<Order>

    constructor ()
      ensures Valid() && nodes == []
    {
      price, totalQty, displayQty, orderCount, poolIndex := 0, 0, 0, 0, 0;
      head, tail, nodes, orders := null, null, [], [];
    }

    /** A zeroed slot, put to use as an empty level. */
    method Reset(price: int, idx: int)
      modifies this
      ensures Valid() && nodes == [] && this.price == price && poolIndex == idx
    {
      this.price, totalQty, displayQty, orderCount, poolIndex := price, 0, 0, 0, idx;
      head, tail, nodes, orders := null, null, [], [];
    }

    /** head/tail/prev/next spell out `nodes`, each of which points back here. */
    ghost predicate Linked()
      reads `head, `tail, `nodes, nodes`prev, nodes`next, nodes`level
    {
      && (nodes == [] ==> head == null && tail == null)
      && (nodes != [] ==> head == nodes[0] && tail == nodes[|nodes| - 1])
      && (forall i {:trigger nodes[i].level} :: 0 <= i < |nodes| ==> nodes[i].level == this)
      && (forall i {:trigger nodes[i].prev} :: 0 <= i < |nodes| ==> nodes[i].prev == (if i == 0 then null else nodes[i - 1]))
      && (forall i {:trigger nodes[i].next} :: 0 <= i < |nodes| ==> nodes[i].next == (if i + 1 < |nodes| then nodes[i + 1] else null))
      && (forall i, j :: 0 <= i < j < |nodes| ==> nodes[i] != nodes[j])
    }

    /** `orders` are the scalar fields of `nodes`, and the running totals are sums over them. */
    ghost predicate Counted()
      reads `totalQty, `displayQty, `orderCount, `orders, `nodes, nodes`o
    {
      && |nodes| == |orders|
      && (forall i {:trigger nodes[i].o} {:trigger orders[i]} :: 0 <= i < |nodes| ==> nodes[i].o == orders[i])
      && totalQty == SumOf(orders, RemainOf)
      && displayQty == SumOf(orders, DisplayOf)
      && orderCount == |orders|
    }

    ghost predicate Valid()
      reads this, nodes
    {
      Linked() && Counted()
    }

    method LinkTail(node: OrderNode)
      requires Linked() && node !in nodes
      modifies `head, `tail, `nodes
      modifies nodes`next, node`prev, node`next, node`level
      ensures node.level == this && Linked() && nodes == old(nodes) + [node]
      ensures forall n :: n in nodes <==> n in old(nodes) || n == node
    {
      if tail == null {
        head, tail := node, node;
        node.prev, node.next := null, null;
      } else {
        node.prev := tail;
        node.next := null;
        tail.next := node;
        tail := node;
      }
      node.level := this;
      nodes := nodes + [node];
    }

    /** The links are those of `ns` without its `k`-th node. */
    ghost predicate Skips(ns: seq<OrderNode>, k: nat)
      reads `head, `tail, ns`prev, ns`next, ns`level
    {
      && k < |ns| && (forall i, j :: 0 <= i < j < |ns| ==> ns[i] != ns[j])
      && head == (if k > 0 then ns[0] else if |ns| > 1 then ns[1] else null)
      && tail == (if k + 1 < |ns| then ns[|ns| - 1] else if k > 0 then ns[k - 1] else null)
      && (forall i {:trigger ns[i].level} :: 0 <= i < |ns| && i != k ==> ns[i].level == this)
      && (forall i {:trigger ns[i].prev} :: 0 <= i < |ns| && i != k ==>
            ns[i].prev == if i == k + 1 then (if k > 0 then ns[k - 1] else null) else if i > 0 then ns[i - 1] else null)
      && (forall i {:trigger ns[i].next} :: 0 <= i < |ns| && i != k ==>
            ns[i].next == if i + 1 == k then (if k + 1 < |ns| then ns[k + 1] else null) else if i + 1 < |ns| then ns[i + 1] else null)
    }

    /** ... and so those of the list without it. */
    lemma Closed(ns: seq<OrderNode>, k: nat)
      requires Skips(ns, k) && nodes == ns[..k] + ns[k + 1..]
      ensures Linked()
    {
      forall i | 0 <= i < |nodes|
        ensures nodes[i].level == this
        ensures nodes[i].prev == if i == 0 then null else nodes[i - 1]
        ensures nodes[i].next == if i + 1 < |nodes| then nodes[i + 1] else null
      {
        if i < k {
          assert nodes[i] == ns[i];
          assert i + 1 < |nodes| ==> nodes[i + 1] == ns[if i + 1 == k then k + 1 else i + 1];
        } else {
          assert nodes[i] == ns[i + 1];
          assert i > 0 ==> nodes[i - 1] == ns[if i == k then k - 1 else i];
        }
      }
      StillDistinct(ns, k);
    }

    /** Lead the links around a node. */
    method Bypass(node: OrderNode, ghost k: nat)
      requires Linked() && k < |nodes| && nodes[k] == node
      modifies `head, `tail, nodes`next, nodes`prev, node`level
      ensures Skips(nodes, k) && node.level == null
    {
      assert node.prev == (if k == 0 then null else nodes[k - 1]);
      assert node.next == (if k + 1 < |nodes| then nodes[k + 1] else null);
      if node.prev != null {
        node.prev.next := node.next;
      } else {
        head := node.next;
      }
      if node.next != null {
        node.next.prev := node.prev;
      } else {
        tail := node.prev;
      }
      node.prev, node.next, node.level := null, null, null;
    }

    method UnlinkNode(node: OrderNode, ghost k: nat)
      requires Linked() && k < |nodes| && nodes[k] == node
      modifies `head, `tail, `nodes
      modifies nodes`next, nodes`prev, node`level
      ensures Linked() && node.level == null
      ensures forall n :: n in nodes <==> n in old(nodes) && n != node
      ensures nodes == old(nodes[..k] + nodes[k + 1..])
    {
      hide Linked, Skips;
      ghost var was := nodes;
      DistinctNodes();
      DropMembers(nodes, k);
      Bypass(node, k);
      nodes := nodes[..k] + nodes[k + 1..];
      Closed(was, k);
    }

    lemma DistinctNodes()
      requires Linked()
      ensures forall i, j :: 0 <= i < j < |nodes| ==> nodes[i] != nodes[j]
    {
    }

    method Append(node: OrderNode)
      requires Valid() && node !in nodes
      modifies `head, `tail, `totalQty, `displayQty, `orderCount, `nodes, `orders
      modifies nodes`next, node`prev, node`next, node`level
      ensures node.level == this && Valid() && forall n :: n in nodes <==> n in old(nodes) || n == node
      ensures nodes == old(nodes) + [node] && orders == old(orders) + [node.o]
    {
      hide Linked, SumOf;
      LinkTail(node);
      totalQty := totalQty + node.o.remain;
      displayQty := displayQty + node.o.display;
      orderCount := orderCount + 1;
      SumOfConcat(orders, [node.o], RemainOf);
      SumOfConcat(orders, [node.o], DisplayOf);
      SumOfSingle(node.o, RemainOf);
      SumOfSingle(node.o, DisplayOf);
      orders := orders + [node.o];
    }

    method Unlink(node: OrderNode, ghost k: nat)
      requires Valid() && k < |nodes| && nodes[k] == node
      modifies `head, `tail, `totalQty, `displayQty, `orderCount, `nodes, `orders
      modifies nodes`next, nodes`prev, node`level
      ensures Valid() && node.level == null
      ensures forall n :: n in nodes <==> n in old(nodes) && n != node
      ensures nodes == DropAt(old(nodes), k) && orders == DropAt(old(orders), k)
    {
      hide Linked, SumOf;
      SumWithout(orders, k, RemainOf);
      SumWithout(orders, k, DisplayOf);
      UnlinkNode(node, k);
      totalQty := totalQty - node.o.remain;
      displayQty := displayQty - node.o.display;
      orderCount := orderCount - 1;
      orders := DropAt(orders, k);
    }

    lemma OnlyHere(k: nat)
      requires Linked() && k < |nodes|
      ensures forall j :: 0 <= j < |nodes| && j != k ==> nodes[j] != nodes[k]
    {
    }

    method DecrementQty(node: OrderNode, q: int, ghost k: nat)
      requires Valid() && k < |nodes| && nodes[k] == node
      modifies `totalQty, `displayQty, `orders, node`o
      ensures Valid()
      ensures orders == old(orders[k := Decrement(orders[k], q)])
    {
      hide Linked, SumOf;
      OnlyHere(k);
      assert node.o == orders[k];
      SumUpdate(orders, k, Decrement(node.o, q), RemainOf);
      SumUpdate(orders, k, Decrement(node.o, q), DisplayOf);
      var displayFill := Min(q, node.o.display);
      node.o := node.o.(remain := node.o.remain - q, filled := node.o.filled + q, display := node.o.display - displayFill);
      totalQty := totalQty - q;
      displayQty := displayQty - displayFill;
      orders := orders[k := node.o];
    }

    /** Refill `node` from its reserve under a fresh sequence number and send it to the tail. */
    method ReplenishIceberg(node: OrderNode, newSeqNum: nat, ghost k: nat)
      requires Valid() && k < |nodes| && nodes[k] == node
      modifies `head, `tail, `totalQty, `displayQty, `orderCount, `nodes, `orders
      modifies nodes`next, nodes`prev, node`level, node`o
      ensures Valid()
      ensures node.o == Replenish(old(node.o), newSeqNum) && node.level == this
      ensures forall n :: n in nodes <==> n in old(nodes)
      ensures nodes == DropAt(old(nodes), k) + [node]
      ensures orders == DropAt(old(orders), k) + [Replenish(old(orders[k]), newSeqNum)]
      ensures node.o.display == node.o.remain && node.o.remain + node.o.hidden == old(node.o.hidden)
      ensures node.o.remain <= node.o.origDisplay && (node.o.remain == node.o.origDisplay || node.o.hidden == 0)
      ensures old(node.o.hidden > 0 && node.o.origDisplay > 0) ==> node.o.remain > 0
    {
      assert node !in nodes[..k] + nodes[k + 1..];
      assert node.o == orders[k];
      hide Linked, SumOf;
      Unlink(node, k);
      var replenish := Min(node.o.hidden, node.o.origDisplay);
      node.o := node.o.(hidden := node.o.hidden - replenish, remain := replenish, display := replenish, seqNum := newSeqNum);
      Append(node);
    }

    predicate IsEmpty()
      reads `head
    {
      head == null
    }
  }

  lemma {:induction false} SumWithout(os: seq<Order>, k: nat, f: Order -> int)
    requires k < |os|
    ensures SumOf(DropAt(os, k), f) == SumOf(os, f) - f(os[k])
  {
    if k == 0 {
      assert DropAt(os, 0) == os[1..];
    } else {
      assert DropAt(os, k)[0] == os[0];
      assert DropAt(os, k)[1..] == DropAt(os[1..], k - 1);
      SumWithout(os[1..], k - 1, f);
    }
  }

  lemma {:induction false} SumUpdate(os: seq<Order>, k: nat, o: Order, f: Order -> int)
    requires k < |os|
    ensures SumOf(os[k := o], f) == SumOf(os, f) - f(os[k]) + f(o)
  {
    if k == 0 {
      assert os[0 := o][1..] == os[1..];
    } else {
      assert os[k := o][1..] == os[1..][k - 1 := o];
      SumUpdate(os[1..], k - 1, o, f);
    }
  }
}
