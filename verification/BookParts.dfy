/** What an order book is built from besides its levels: the shared sequence counter, the id index, the
    price-ordered tree of one side, and the pre-allocated slots of its pools. */
module BookParts {
  import opened Domain
  import opened PriceLevels

  /** Monotonic counter shared with the command processor. */
  class Counter {
    var n: nat

    constructor (start: nat)
      ensures n == start
    {
      n := start;
    }

    method Next() returns (r: nat)
      modifies this
      ensures n == old(n) + 1 && r == n
    {
      n := n + 1;
      r := n;
    }
  }

  class OrderIndex {
    var m: map<OrderId, OrderNode>

    constructor ()
      ensures m == map[]
    {
      m := map[];
    }

    method Put(id: OrderId, node: OrderNode)
      modifies this
      ensures m == old(m)[id := node]
    {
      m := m[id := node];
    }

    method Delete(id: OrderId)
      modifies this
      ensures m == old(m) - {id}
    {
      m := m - {id};
    }
  }

  /** Price-ordered levels of one side. The sequence stands for the B-tree, best price first. */
  class PriceLevelTree {
    const side: Side
    var levels: seq<PriceLevel>
    var count: int

    ghost predicate Sorted()
      reads this, levels`price
    {
      && count == |levels|
      && forall i, j :: 0 <= i < j < |levels| ==> Better(side, levels[i].price, levels[j].price)
    }

    constructor (side: Side)
      ensures Sorted() && levels == [] && this.side == side
    {
      this.side, levels, count := side, [], 0;
    }

    function Best(): PriceLevel?
      reads this
    {
      if levels == [] then null else levels[0]
    }

    method Get(price: int) returns (level: PriceLevel?, ghost i: nat)
      ensures level != null ==> i < |levels| && levels[i] == level && level.price == price
      ensures level == null ==> forall j :: 0 <= j < |levels| ==> levels[j].price != price
    {
      level, i := null, 0;
      for k := 0 to |levels|
        invariant forall j :: 0 <= j < k ==> levels[j].price != price
      {
        if levels[k].price == price {
          return levels[k], k;
        }
      }
    }

    method Insert(level: PriceLevel) returns (ghost i: nat)
      requires Sorted() && forall j :: 0 <= j < |levels| ==> levels[j].price != level.price
      modifies this
      ensures Sorted() && i <= |old(levels)|
      ensures levels == old(levels[..i] + [level] + levels[i..])
    {
      var k := 0;
      while k < |levels| && Better(side, levels[k].price, level.price)
        invariant 0 <= k <= |levels|
        invariant forall j :: 0 <= j < k ==> Better(side, levels[j].price, level.price)
      {
        k := k + 1;
      }
      levels := levels[..k] + [level] + levels[k..];
      count := count + 1;
      i := k;
    }

    method Delete(price: int, ghost i: nat)
      requires Sorted() && i < |levels| && levels[i].price == price
      modifies this
      ensures Sorted() && levels == old(levels[..i] + levels[i + 1..])
    {
      var k := 0;
      while levels[k].price != price
        invariant 0 <= k <= i
      {
        k := k + 1;
      }
      levels := levels[..k] + levels[k + 1..];
      count := count - 1;
    }
  }

  method NewNodes(n: nat) returns (slots: seq<OrderNode>)
    ensures |slots| == n
    ensures forall i :: 0 <= i < n ==> fresh(slots[i]) && slots[i].level == null
    ensures forall i, j :: 0 <= i < j < n ==> slots[i] != slots[j]
  {
    slots := [];
    for i := 0 to n
      invariant |slots| == i
      invariant forall j :: 0 <= j < i ==> fresh(slots[j]) && slots[j].level == null
      invariant forall j, k :: 0 <= j < k < i ==> slots[j] != slots[k]
    {
      var node := new OrderNode(NO_ORDER);
      slots := slots + [node];
    }
  }

  method NewLevels(n: nat) returns (slots: seq<PriceLevel>)
    ensures |slots| == n
    ensures forall i :: 0 <= i < n ==> fresh(slots[i])
    ensures forall i, j :: 0 <= i < j < n ==> slots[i] != slots[j]
  {
    slots := [];
    for i := 0 to n
      invariant |slots| == i
      invariant forall j :: 0 <= j < i ==> fresh(slots[j])
      invariant forall j, k :: 0 <= j < k < i ==> slots[j] != slots[k]
    {
      var level := new PriceLevel();
      slots := slots + [level];
    }
  }
}
