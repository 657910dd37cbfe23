/** The pool allocator: a slab of order nodes and a stack of free indices
    (game-master/persistent_lob.hpp, `LimitOrder` and `OrderPool`). */
module OrderPools {
  import opened OrderTable

  const ORDER_POOL_SIZE: nat := 16384
  const NULL_IDX: nat := 0xFFFF_FFFF

  datatype LimitOrder = LimitOrder(orderId: nat, volume: int, participant: int, next: nat)

  ghost predicate Distinct(s: seq<nat>) {
    forall i, j :: 0 <= i < j < |s| ==> s[i] != s[j]
  }

  function Elements(s: seq<nat>): set<nat> {
    set x | x in s
  }

  lemma {:induction false} DistinctSize(s: seq<nat>)
    requires Distinct(s)
    ensures |Elements(s)| == |s|
  {
    if s != [] {
      var front := s[..|s| - 1];
      DistinctSize(front);
      assert Elements(s) == Elements(front) + {s[|s| - 1]};
      assert s[|s| - 1] !in front;
    }
  }

  /** Distinct indices that miss one leave room on a stack of the pool's size. */
  lemma RoomToRelease(s: seq<nat>, n: nat, idx: nat)
    requires Distinct(s) && idx < n && idx !in s
    requires forall x :: x in s ==> x < n
    ensures |s| < n
  {
    DistinctSize(s);
    RangeMembers(n);
    SubsetSize(Elements(s), Range(n) - {idx});
  }

  class OrderPool {
    const nodes: array<LimitOrder>
    const freeStack: array<nat>
    var freeTop: nat

    ghost predicate Valid()
      reads this, freeStack
    {
      && nodes.Length == ORDER_POOL_SIZE == freeStack.Length
      && freeTop <= ORDER_POOL_SIZE
      && Distinct(Free())
      && (forall k :: 0 <= k < freeTop ==> freeStack[k] < ORDER_POOL_SIZE)
    }

    ghost function Free(): (s: seq<nat>)
      requires freeTop <= freeStack.Length
      reads this, freeStack
      ensures |s| == freeTop
    {
      freeStack[..freeTop]
    }

    constructor ()
      ensures Valid() && fresh(nodes) && fresh(freeStack)
      ensures freeTop == ORDER_POOL_SIZE
    {
      nodes := new LimitOrder[ORDER_POOL_SIZE](_ => LimitOrder(0, 0, 0, 0));
      freeStack := new nat[ORDER_POOL_SIZE](i => i);
      freeTop := ORDER_POOL_SIZE;
    }

    /** Pops a free index, or NULL_IDX when the pool is exhausted. */
    method Alloc() returns (idx: nat)
      requires Valid()
      modifies this
      ensures Valid()
      ensures old(freeTop) == 0 ==> idx == NULL_IDX && freeTop == 0
      ensures old(freeTop) > 0 ==>
        freeTop == old(freeTop) - 1 && idx < ORDER_POOL_SIZE
        && old(Free()) == Free() + [idx] && idx !in Free()
    {
      if freeTop <= 0 { return NULL_IDX; }
      freeTop := freeTop - 1;
      idx := freeStack[freeTop];
    }

    /** Pushes an index that is not free; NULL_IDX is ignored. */
    method Release(idx: nat)
      requires Valid()
      requires idx != NULL_IDX ==> idx < ORDER_POOL_SIZE && idx !in Free()
      modifies this, freeStack
      ensures Valid()
      ensures Free() == if idx == NULL_IDX then old(Free()) else old(Free()) + [idx]
    {
      if idx == NULL_IDX { return; }
      RoomToRelease(Free(), ORDER_POOL_SIZE, idx);
      freeStack[freeTop] := idx;
      freeTop := freeTop + 1;
    }
  }
}
