/**
 The node pool: one fixed array of nodes through which both the free list and every price
 level's doubly linked queue are threaded by index.
 */
module Pool {
  import opened Market

  /** UINT32_MAX, the null link. */
  const NULL_IDX: nat := 0xFFFF_FFFF

  /** Node indices pass through `int`, so a pool must stay below this. */
  const INT_LIMIT: nat := 0x8000_0000

  datatype OrderNode = OrderNode(order: Order, next: nat, back: nat)

  // ----- Lists threaded through the nodes ----------------------------------------------

  /** The `k`-th index of a list, or the null link outside it. */
  function At(ids: seq<nat>, k: int): nat {
    if 0 <= k < |ids| then ids[k] else NULL_IDX
  }

  ghost predicate Distinct(ids: seq<nat>) {
    forall i, j :: 0 <= i < j < |ids| ==> ids[i] != ids[j]
  }

  ghost predicate InRange(ids: seq<nat>, n: nat) {
    forall k :: 0 <= k < |ids| ==> ids[k] < n
  }

  /** `ids` is a singly linked chain. */
  ghost predicate Chain(nodes: seq<OrderNode>, ids: seq<nat>) {
    InRange(ids, |nodes|) && forall k {:trigger nodes[ids[k]]} :: 0 <= k < |ids| ==>
      nodes[ids[k]].next == At(ids, k + 1)
  }

  class MemPool {
    const nodes: array<OrderNode>
    var freeHead: nat
    var used: nat
    ghost var free: seq<nat>

    ghost predicate Valid()
      reads this, nodes
    {
      && nodes.Length < INT_LIMIT
      && Distinct(free) && Chain(nodes[..], free) && freeHead == At(free, 0)
      && used + |free| == nodes.Length
    }

    constructor (capacity: nat)
      requires 1 <= capacity < INT_LIMIT
      ensures Valid() && fresh(nodes) && nodes.Length == capacity
      ensures used == 0 && |free| == capacity && forall k :: 0 <= k < capacity ==> free[k] == k
    {
      nodes := new OrderNode[capacity];
      used, freeHead := 0, 0;
      free := seq(capacity, k => k);
      new;
      for i := 0 to capacity - 1
        invariant forall k :: 0 <= k < i ==> nodes[k].next == k + 1
        invariant freeHead == 0 && used == 0 && free == seq(capacity, k => k)
      {
        nodes[i] := nodes[i].(next := i + 1);
      }
      nodes[capacity - 1] := nodes[capacity - 1].(next := NULL_IDX);
    }

    /** Hands out the first free node, unlinked; the null link if there is none. */
    method Allocate() returns (idx: nat)
      requires Valid()
      modifies this, nodes
      ensures Valid()
      ensures old(free) == [] ==> idx == NULL_IDX && free == [] && nodes[..] == old(nodes[..]) && used == old(used)
      ensures old(free) != [] ==>
                && idx == old(free)[0] && free == old(free)[1..] && used == old(used) + 1
                && nodes[..] == old(nodes[..])[idx := old(nodes[..])[idx].(next := NULL_IDX, back := NULL_IDX)]
    {
      if freeHead == NULL_IDX {
        return NULL_IDX;
      }
      idx := freeHead;
      freeHead := nodes[idx].next;
      nodes[idx] := nodes[idx].(next := NULL_IDX, back := NULL_IDX);
      used := used + 1;
      free := free[1..];
    }

    /** Puts a node back at the front of the free list; the null link is ignored. */
    method Deallocate(idx: nat)
      requires Valid()
      requires idx == NULL_IDX || (idx < nodes.Length && idx !in free && used >= 1)
      modifies this, nodes
      ensures Valid()
      ensures idx == NULL_IDX ==> free == old(free) && used == old(used) && nodes[..] == old(nodes[..])
      ensures idx != NULL_IDX ==>
                && free == [idx] + old(free) && used == old(used) - 1
                && nodes[..] == old(nodes[..])[idx := old(nodes[..])[idx].(next := old(freeHead))]
    {
      if idx == NULL_IDX {
        return;
      }
      nodes[idx] := nodes[idx].(next := freeHead);
      freeHead := idx;
      used := used - 1;
      free := [idx] + free;
    }
  }
}
