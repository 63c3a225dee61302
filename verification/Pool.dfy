/** The fixed-capacity slot allocator shared by the book and the stop book. */
module Pool {

  /** `store` holds the pre-allocated slots; a slot's address is the object at that position, so
      handing out `&store[idx]` is handing out `store[idx]`. `free[..top]` is the free stack. */
  class Pool<T> {
    const store: seq<T>
    const free: array<int>
    var top: nat
    ghost var used: set<int>

    /** Every slot is either used or on the free stack, once. */
    ghost predicate Valid()
      reads this, free
    {
      && free.Length == |store|
      && top <= |store|
      && (forall i :: 0 <= i < top ==> 0 <= free[i] < |store| && free[i] !in used)
      && (forall i, j :: 0 <= i < j < top ==> free[i] != free[j])
      && (forall x :: x in used ==> 0 <= x < |store|)
      && |used| + top == |store|
    }

    constructor (slots: seq<T>)
      ensures Valid() && used == {} && store == slots && fresh(free)
    {
      var n := |slots|;
      var stack := new int[n];
      for i := 0 to n
        invariant forall j :: 0 <= j < i ==> stack[j] == n - 1 - j
      {
        stack[i] := n - 1 - i;
      }
      store, free, top, used := slots, stack, n, {};
    }

    /** Pop a free slot; fails exactly when every slot is in use. */
    method Acquire() returns (ok: bool, idx: int)
      requires Valid()
      modifies `top, `used
      ensures Valid()
      ensures ok == (|old(used)| < |store|)
      ensures ok ==> 0 <= idx < |store| && idx !in old(used) && used == old(used) + {idx}
      ensures !ok ==> unchanged(this)
    {
      if top == 0 {
        return false, 0;
      }
      top := top - 1;
      idx := free[top];
      used := used + {idx};
      ok := true;
    }

    /** Push a slot back; the caller must hold it. */
    method Release(idx: int)
      requires Valid() && idx in used
      modifies `top, `used, free
      ensures Valid() && used == old(used) - {idx}
    {
      assert |used - {idx}| == |used| - 1;
      free[top] := idx;
      top := top + 1;
      used := used - {idx};
    }

    function Len(): (n: int)
      requires Valid()
      reads this, free
      ensures n == |used|
    {
      |store| - top
    }
  }
}
