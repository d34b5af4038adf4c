/** The price levels of one book: FIFO queues of orders that share one node pool. */
module PriceLevels {
  import opened Market
  import opened Pool

  datatype PriceQueue = PriceQueue(head: nat, tail: nat, count: nat, heapEntry: bool)

  // ----- Queues over nodes ---------------------------------------------------------------

  /** `q` and the links of `nodes` describe the doubly linked list `ids`. */
  ghost predicate IsQueue(nodes: seq<OrderNode>, q: PriceQueue, ids: seq<nat>) {
    && q.count == |ids| && q.head == At(ids, 0) && q.tail == At(ids, |ids| - 1)
    && Chain(nodes, ids)
    && forall k {:trigger nodes[ids[k]]} :: 0 <= k < |ids| ==> nodes[ids[k]].back == At(ids, k - 1)
  }

  /** `orders` are the orders stored along `ids`. */
  ghost predicate Stores(nodes: seq<OrderNode>, ids: seq<nat>, orders: seq<Order>) {
    && InRange(ids, |nodes|) && |orders| == |ids|
    && forall k {:trigger orders[k]} {:trigger nodes[ids[k]]} :: 0 <= k < |ids| ==> orders[k] == nodes[ids[k]].order
  }

  function Remove<T>(s: seq<T>, k: nat): seq<T>
    requires k < |s|
  {
    s[..k] + s[k + 1..]
  }

  /** Only links changed, except possibly at node `x`. */
  ghost predicate SameOrders(nodes: seq<OrderNode>, nodes': seq<OrderNode>, x: nat) {
    |nodes'| == |nodes| && forall i :: 0 <= i < |nodes| && i != x ==> nodes'[i].order == nodes[i].order
  }

  /** Along `ids`, the links of `nodes'` bypass place `k`; orders are untouched. */
  ghost predicate Bypassed(nodes: seq<OrderNode>, nodes': seq<OrderNode>, ids: seq<nat>, k: nat) {
    && |nodes'| == |nodes| && InRange(ids, |nodes|)
    && forall j {:trigger nodes'[ids[j]]} :: 0 <= j < |ids| && j != k ==>
       nodes'[ids[j]] == Rewired(nodes[ids[j]], ids, j, k)
  }

  function Rewired(node: OrderNode, ids: seq<nat>, j: int, k: int): OrderNode {
    node.(next := if j + 1 == k then At(ids, k + 1) else node.next,
          back := if j == k + 1 then At(ids, k - 1) else node.back)
  }

  lemma {:induction false} QueueFrame(nodes: seq<OrderNode>, nodes': seq<OrderNode>, q: PriceQueue, q': PriceQueue,
                                      ids: seq<nat>, orders: seq<Order>)
    requires IsQueue(nodes, q, ids) && Stores(nodes, ids, orders) && |nodes'| == |nodes|
    requires q' == q.(heapEntry := q'.heapEntry)
    requires forall k {:trigger nodes'[ids[k]]} :: 0 <= k < |ids| ==> nodes'[ids[k]] == nodes[ids[k]]
    ensures IsQueue(nodes', q', ids) && Stores(nodes', ids, orders)
  {
  }

  /** The two writes that put a fresh node `x` behind the last of `ids`. */
  function Link(nodes: seq<OrderNode>, ids: seq<nat>, x: nat, o: Order): seq<OrderNode>
    requires x < |nodes| && forall j :: 0 <= j < |ids| ==> ids[j] < |nodes|
  {
    var n1 := if ids == [] then nodes else nodes[ids[|ids| - 1] := nodes[ids[|ids| - 1]].(next := x)];
    n1[x := OrderNode(o, NULL_IDX, At(ids, |ids| - 1))]
  }

  function Longer(q: PriceQueue, x: nat): PriceQueue {
    q.(head := if q.head == NULL_IDX then x else q.head, tail := x, count := q.count + 1)
  }

  lemma {:induction false} QueueAppend(nodes: seq<OrderNode>, q: PriceQueue, ids: seq<nat>, orders: seq<Order>, x: nat,
                                       o: Order)
    requires IsQueue(nodes, q, ids) && Stores(nodes, ids, orders) && Distinct(ids) && x < |nodes| < NULL_IDX
    requires x !in ids
    ensures IsQueue(Link(nodes, ids, x, o), Longer(q, x), ids + [x])
    ensures Stores(Link(nodes, ids, x, o), ids + [x], orders + [o])
  {
  }

  /** The two writes that unlink place `k`. */
  function Unlink(nodes: seq<OrderNode>, ids: seq<nat>, k: nat): seq<OrderNode>
    requires k < |ids| && forall j :: 0 <= j < |ids| ==> ids[j] < |nodes|
  {
    var n1 := if k > 0 then nodes[ids[k - 1] := nodes[ids[k - 1]].(next := At(ids, k + 1))] else nodes;
    if k + 1 < |ids| then n1[ids[k + 1] := n1[ids[k + 1]].(back := At(ids, k - 1))] else n1
  }

  lemma {:induction false} UnlinkBypasses(nodes: seq<OrderNode>, ids: seq<nat>, k: nat)
    requires k < |ids| && InRange(ids, |nodes|) && Distinct(ids)
    ensures Bypassed(nodes, Unlink(nodes, ids, k), ids, k)
    ensures forall i :: 0 <= i < |nodes| && i !in ids ==> Unlink(nodes, ids, k)[i] == nodes[i]
  {
    forall j | 0 <= j < |ids| && j != k
      ensures Unlink(nodes, ids, k)[ids[j]] == Rewired(nodes[ids[j]], ids, j, k)
    {
    }
  }

  lemma {:induction false} BypassedNode(nodes: seq<OrderNode>, nodes': seq<OrderNode>, q: PriceQueue, ids: seq<nat>,
                                        k: nat, j: nat)
    requires IsQueue(nodes, q, ids) && Bypassed(nodes, nodes', ids, k) && k < |ids| && j < |ids| - 1
    ensures var ids' := Remove(ids, k);
            && ids'[j] < |nodes'|
            && nodes'[ids'[j]].next == At(ids', j + 1) && nodes'[ids'[j]].back == At(ids', j - 1)
            && nodes'[ids'[j]].order == nodes[ids'[j]].order
  {
    var i := if j < k then j else j + 1;
    var ids' := Remove(ids, k);
    assert ids'[j] == ids[i] && nodes'[ids[i]] == Rewired(nodes[ids[i]], ids, i, k);
    assert At(ids', j + 1) == if j + 1 < k then At(ids, j + 1) else At(ids, j + 2);
    assert At(ids', j - 1) == if j - 1 < k then At(ids, j - 1) else At(ids, j);
  }

  lemma {:induction false} QueueRemove(nodes: seq<OrderNode>, nodes': seq<OrderNode>, q: PriceQueue, q': PriceQueue,
                                       ids: seq<nat>, orders: seq<Order>, k: nat)
    requires IsQueue(nodes, q, ids) && Stores(nodes, ids, orders) && k < |ids| && Bypassed(nodes, nodes', ids, k)
    requires && q'.head == (if k == 0 then At(ids, 1) else q.head)
             && q'.tail == (if k == |ids| - 1 then At(ids, k - 1) else q.tail)
             && q'.count == q.count - 1
    ensures IsQueue(nodes', q', Remove(ids, k)) && Stores(nodes', Remove(ids, k), Remove(orders, k))
  {
    forall j | 0 <= j < |Remove(ids, k)|
      ensures var ids' := Remove(ids, k);
              && ids'[j] < |nodes'|
              && nodes'[ids'[j]].next == At(ids', j + 1) && nodes'[ids'[j]].back == At(ids', j - 1)
              && nodes'[ids'[j]].order == Remove(orders, k)[j]
    {
      BypassedNode(nodes, nodes', q, ids, k, j);
    }
  }

  // ----- Every node in exactly one list --------------------------------------------------

  const FREE := -1

  /** `owner` says of each node which queue holds it; free list and queues are then a partition of the pool. */
  ghost predicate Partition(n: nat, free: seq<nat>, queues: seq<seq<nat>>, owner: seq<int>) {
    && |owner| == n
    && Owns(n, free, FREE, owner)
    && (forall l {:trigger Owns(n, queues[l], l, owner)} :: 0 <= l < |queues| ==> Owns(n, queues[l], l, owner))
    && (forall i {:trigger Housed(i, free, queues, owner[i])} :: 0 <= i < n ==> Housed(i, free, queues, owner[i]))
  }

  ghost predicate Owns(n: nat, ids: seq<nat>, l: int, owner: seq<int>)
    requires |owner| == n
  {
    Distinct(ids) && InRange(ids, n) && forall k :: 0 <= k < |ids| ==> owner[ids[k]] == l
  }

  ghost predicate Housed(i: nat, free: seq<nat>, queues: seq<seq<nat>>, o: int) {
    if o == FREE then i in free else 0 <= o < |queues| && i in queues[o]
  }

  /** A pool has no more nodes on a list than nodes. */
  lemma {:induction false} Pigeonhole(ids: seq<nat>, n: nat)
    requires Distinct(ids) && InRange(ids, n)
    ensures |ids| <= n
    decreases n
  {
    if ids != [] {
      assert ids[0] < n;
      if n - 1 in ids {
        var k :| 0 <= k < |ids| && ids[k] == n - 1;
        Pigeonhole(Remove(ids, k), n - 1);
      } else {
        Pigeonhole(ids, n - 1);
      }
    }
  }

  lemma {:induction false} PartitionTake(n: nat, free: seq<nat>, queues: seq<seq<nat>>, owner: seq<int>, l: nat)
    requires Partition(n, free, queues, owner) && free != [] && l < |queues|
    ensures Partition(n, free[1..], queues[l := queues[l] + [free[0]]], owner[free[0] := l])
  {
    var x, queues', owner' := free[0], queues[l := queues[l] + [free[0]]], owner[free[0] := l];
    assert Owns(n, queues[l], l, owner);
    forall m | 0 <= m < |queues'|
      ensures Owns(n, queues'[m], m, owner')
    {
      assert Owns(n, queues[m], m, owner);
    }
    forall i | 0 <= i < n
      ensures Housed(i, free[1..], queues', owner'[i])
    {
      assert Housed(i, free, queues, owner[i]);
    }
  }

  lemma {:induction false} PartitionGive(n: nat, free: seq<nat>, queues: seq<seq<nat>>, owner: seq<int>, l: nat, k: nat)
    requires Partition(n, free, queues, owner) && l < |queues| && k < |queues[l]| && queues[l][k] < n
    ensures queues[l][k] !in free
    ensures Partition(n, [queues[l][k]] + free, queues[l := Remove(queues[l], k)], owner[queues[l][k] := FREE])
  {
    var x, queues' := queues[l][k], queues[l := Remove(queues[l], k)];
    var owner' := owner[x := FREE];
    assert Owns(n, queues[l], l, owner);
    forall m | 0 <= m < |queues'|
      ensures Owns(n, queues'[m], m, owner')
    {
      assert Owns(n, queues[m], m, owner);
      assert m == l ==> forall j :: 0 <= j < |queues'[l]| ==> queues'[l][j] == queues[l][if j < k then j else j + 1];
    }
    forall i | 0 <= i < n
      ensures Housed(i, [x] + free, queues', owner'[i])
    {
      assert Housed(i, free, queues, owner[i]);
      if owner[i] == l && i != x {
        var j :| 0 <= j < |queues[l]| && queues[l][j] == i;
        assert queues'[l][if j < k then j else j - 1] == i;
      }
    }
  }

  // ----- The whole structure ---------------------------------------------------------------

  ghost predicate LevelOk(nodes: seq<OrderNode>, q: PriceQueue, ids: seq<nat>, orders: seq<Order>) {
    IsQueue(nodes, q, ids) && Stores(nodes, ids, orders)
  }

  ghost predicate Wired(nodes: seq<OrderNode>, levels: seq<PriceQueue>, free: seq<nat>, queues: seq<seq<nat>>,
                        owner: seq<int>, book: seq<seq<Order>>)
  {
    && |nodes| < INT_LIMIT
    && |queues| == |book| == |levels|
    && Partition(|nodes|, free, queues, owner)
    && (forall l {:trigger LevelOk(nodes, levels[l], queues[l], book[l])} :: 0 <= l < |levels| ==>
          LevelOk(nodes, levels[l], queues[l], book[l]))
  }

  /** Levels whose nodes were not written stay as they were. */
  lemma {:induction false} OtherLevel(nodes: seq<OrderNode>, nodes': seq<OrderNode>, levels: seq<PriceQueue>,
                                      free: seq<nat>, queues: seq<seq<nat>>, owner: seq<int>, book: seq<seq<Order>>,
                                      l: int, m: nat)
    requires Wired(nodes, levels, free, queues, owner, book) && m < |levels| && m != l
    requires |nodes'| == |nodes| && forall i :: 0 <= i < |nodes| && owner[i] != l && owner[i] != FREE ==>
             nodes'[i] == nodes[i]
    ensures LevelOk(nodes', levels[m], queues[m], book[m])
  {
    assert LevelOk(nodes, levels[m], queues[m], book[m]) && Owns(|nodes|, queues[m], m, owner);
    QueueFrame(nodes, nodes', levels[m], levels[m], queues[m], book[m]);
  }

  lemma {:induction false} WiredInsert(nodes: seq<OrderNode>, levels: seq<PriceQueue>, free: seq<nat>,
                                       queues: seq<seq<nat>>, owner: seq<int>, book: seq<seq<Order>>, l: nat, o: Order)
    requires Wired(nodes, levels, free, queues, owner, book) && l < |levels| && free != []
    ensures LevelOk(nodes, levels[l], queues[l], book[l]) && free[0] < |nodes|
    ensures var x := free[0];
            Wired(Link(nodes, queues[l], x, o), levels[l := Longer(levels[l], x)],
                  free[1..], queues[l := queues[l] + [x]], owner[x := l], book[l := book[l] + [o]])
  {
    var x := free[0];
    assert LevelOk(nodes, levels[l], queues[l], book[l]) && Owns(|nodes|, queues[l], l, owner);
    PartitionTake(|nodes|, free, queues, owner, l);
    QueueAppend(nodes, levels[l], queues[l], book[l], x, o);
    var nodes' := Link(nodes, queues[l], x, o);
    assert forall i :: 0 <= i < |nodes| && owner[i] != l && owner[i] != FREE ==> nodes'[i] == nodes[i];
    forall m | 0 <= m < |levels| && m != l
      ensures LevelOk(nodes', levels[m], queues[m], book[m])
    {
      OtherLevel(nodes, nodes', levels, free, queues, owner, book, l, m);
    }
  }

  lemma {:induction false} WiredRemove(nodes: seq<OrderNode>, nodes': seq<OrderNode>, levels: seq<PriceQueue>,
                                       q': PriceQueue, free: seq<nat>, queues: seq<seq<nat>>, owner: seq<int>,
                                       book: seq<seq<Order>>, l: nat, k: nat)
    requires Wired(nodes, levels, free, queues, owner, book) && l < |levels| && k < |queues[l]|
    requires Bypassed(nodes, nodes', queues[l], k)
    requires forall i :: 0 <= i < |nodes| && owner[i] != l && owner[i] != FREE ==> nodes'[i] == nodes[i]
    requires var ids, q := queues[l], levels[l];
             && q'.head == (if k == 0 then At(ids, 1) else q.head)
             && q'.tail == (if k == |ids| - 1 then At(ids, k - 1) else q.tail)
             && q'.count == q.count - 1
    ensures LevelOk(nodes, levels[l], queues[l], book[l])
    ensures var x := queues[l][k];
            Wired(nodes', levels[l := q'], [x] + free, queues[l := Remove(queues[l], k)], owner[x := FREE],
              book[l := Remove(book[l], k)])
  {
    assert LevelOk(nodes, levels[l], queues[l], book[l]);
    PartitionGive(|nodes|, free, queues, owner, l, k);
    QueueRemove(nodes, nodes', levels[l], q', queues[l], book[l], k);
    forall m | 0 <= m < |levels| && m != l
      ensures LevelOk(nodes', levels[m], queues[m], book[m])
    {
      OtherLevel(nodes, nodes', levels, free, queues, owner, book, l, m);
    }
  }

  lemma {:induction false} WiredFlag(nodes: seq<OrderNode>, levels: seq<PriceQueue>, free: seq<nat>,
                                     queues: seq<seq<nat>>, owner: seq<int>, book: seq<seq<Order>>, l: nat, flag: bool)
    requires Wired(nodes, levels, free, queues, owner, book) && l < |levels|
    ensures Wired(nodes, levels[l := levels[l].(heapEntry := flag)], free, queues, owner, book)
  {
    assert LevelOk(nodes, levels[l], queues[l], book[l]);
    QueueFrame(nodes, nodes, levels[l], levels[l].(heapEntry := flag), queues[l], book[l]);
  }

  lemma {:induction false} WiredModify(nodes: seq<OrderNode>, levels: seq<PriceQueue>, free: seq<nat>,
                                       queues: seq<seq<nat>>, owner: seq<int>, book: seq<seq<Order>>, l: nat, o: Order)
    requires Wired(nodes, levels, free, queues, owner, book) && l < |levels| && queues[l] != []
    ensures LevelOk(nodes, levels[l], queues[l], book[l])
    ensures var x := queues[l][0];
            Wired(nodes[x := nodes[x].(order := o)], levels, free, queues, owner, book[l := book[l][0 := o]])
  {
    assert LevelOk(nodes, levels[l], queues[l], book[l]) && Owns(|nodes|, queues[l], l, owner);
    var nodes' := nodes[queues[l][0] := nodes[queues[l][0]].(order := o)];
    forall m | 0 <= m < |levels| && m != l
      ensures LevelOk(nodes', levels[m], queues[m], book[m])
    {
      OtherLevel(nodes, nodes', levels, free, queues, owner, book, l, m);
    }
  }

  class Queues {
    const pool: MemPool
    const levels: array<PriceQueue>
    ghost var queues: seq<seq<nat>>
    ghost var owner: seq<int>
    /** The orders of each level, first to arrive first. */
    ghost var book: seq<seq<Order>>

    ghost predicate Valid()
      reads this, pool, pool.nodes, levels
    {
      pool.Valid() && Wired(pool.nodes[..], levels[..], pool.free, queues, owner, book)
    }

    constructor (capacity: nat, levelCount: nat)
      requires 1 <= capacity < INT_LIMIT
      ensures Valid() && fresh(pool) && fresh(pool.nodes) && fresh(levels)
      ensures pool.nodes.Length == capacity && levels.Length == levelCount && pool.used == 0
      ensures forall l :: 0 <= l < levelCount ==> book[l] == [] && !levels[l].heapEntry
      ensures |owner| == capacity && forall i :: 0 <= i < capacity ==> owner[i] == FREE
    {
      pool := new MemPool(capacity);
      levels := new PriceQueue[levelCount](_ => PriceQueue(NULL_IDX, NULL_IDX, 0, false));
      queues := seq(levelCount, _ => []);
      book := seq(levelCount, _ => []);
      owner := seq(capacity, _ => FREE);
      new;
      forall i | 0 <= i < capacity
        ensures Housed(i, pool.free, queues, owner[i])
      {
        assert pool.free[i] == i;
      }
    }

    lemma {:induction false} LevelCount(l: nat)
      requires Valid() && l < levels.Length
      ensures levels[l].count == |book[l]|
    {
      assert LevelOk(pool.nodes[..], levels[..][l], queues[l], book[l]);
    }

    /** What a caller may read off level `l`. */
    lemma {:induction false} LevelFacts(l: nat)
      requires Valid() && l < levels.Length
      ensures levels[l].count == |book[l]| == |queues[l]|
      ensures forall k :: 0 <= k < |queues[l]| ==>
                && queues[l][k] < pool.nodes.Length && owner[queues[l][k]] == l
                && pool.nodes[queues[l][k]].order == book[l][k]
      ensures book[l] != [] ==> levels[l].head == queues[l][0]
    {
      assert LevelOk(pool.nodes[..], levels[..][l], queues[l], book[l]) && Owns(pool.nodes.Length, queues[l], l, owner);
      assert forall k :: 0 <= k < |queues[l]| ==> pool.nodes[..][queues[l][k]] == pool.nodes[queues[l][k]];
    }

    /** Writes `o` into the fresh node `idx` and links it behind the tail of level `l`. */
    method Attach(l: nat, idx: nat, o: Order, ghost ids: seq<nat>)
      requires l < levels.Length && InRange(ids, pool.nodes.Length) && idx < pool.nodes.Length < NULL_IDX && idx !in ids
      requires levels[l].head == At(ids, 0) && levels[l].tail == At(ids, |ids| - 1)
      requires pool.nodes[idx].next == NULL_IDX && pool.nodes[idx].back == NULL_IDX
      modifies pool.nodes, levels
      ensures pool.nodes[..] == Link(old(pool.nodes[..]), ids, idx, o)
      ensures levels[..] == old(levels[..])[l := Longer(old(levels[l]), idx)]
    {
      var q := levels[l];
      pool.nodes[idx] := pool.nodes[idx].(order := o);
      if q.head == NULL_IDX {
        levels[l] := q.(head := idx, tail := idx, count := q.count + 1);
      } else {
        pool.nodes[q.tail] := pool.nodes[q.tail].(next := idx);
        pool.nodes[idx] := pool.nodes[idx].(back := q.tail);
        levels[l] := q.(tail := idx, count := q.count + 1);
      }
    }

    /** Appends `o` to level `l` if a node is left, and says which node it took. */
    method InsertOrder(l: nat, o: Order) returns (idx: nat)
      requires Valid() && l < levels.Length
      modifies this, pool, pool.nodes, levels
      ensures Valid()
      ensures old(pool.free) == [] ==>
                && idx == NULL_IDX && book == old(book) && queues == old(queues) && owner == old(owner)
                && pool.nodes[..] == old(pool.nodes[..]) && levels[..] == old(levels[..]) && pool.used == old(pool.used)
      ensures old(pool.free) != [] ==>
                && idx == old(pool.free)[0] && pool.used == old(pool.used) + 1
                && book == old(book)[l := old(book)[l] + [o]]
                && queues == old(queues)[l := old(queues)[l] + [idx]]
                && owner == old(owner)[idx := l] && old(owner)[idx] == FREE
                && (forall m :: 0 <= m < levels.Length ==> levels[m].heapEntry == old(levels[m].heapEntry))
                && SameOrders(old(pool.nodes[..]), pool.nodes[..], idx) && pool.nodes[idx].order == o
    {
      ghost var n0, lv0, free0, ids := pool.nodes[..], levels[..], pool.free, queues[l];
      idx := pool.Allocate();
      if idx == NULL_IDX {
        return;
      }
      WiredInsert(n0, lv0, free0, queues, owner, book, l, o);
      assert Owns(|n0|, ids, l, owner);
      Attach(l, idx, o, ids);
      assert pool.nodes[..] == Link(n0, ids, idx, o);
      assert pool.Valid() by {
        assert forall j :: 0 <= j < |pool.free| ==> pool.nodes[..][pool.free[j]] == n0[free0[j + 1]];
      }
      queues, owner, book := queues[l := ids + [idx]], owner[idx := l], book[l := book[l] + [o]];
    }

    /** The pointer surgery of removal: neighbours of place `k` bypass it, and head and tail follow. */
    method Bypass(l: nat, idx: nat, ghost k: nat) returns (q: PriceQueue)
      requires Valid() && l < levels.Length && k < |queues[l]| && queues[l][k] == idx
      modifies pool.nodes
      ensures Bypassed(old(pool.nodes[..]), pool.nodes[..], queues[l], k)
      ensures forall i :: 0 <= i < pool.nodes.Length && i !in queues[l] ==> pool.nodes[i] == old(pool.nodes[i])
      ensures SameOrders(old(pool.nodes[..]), pool.nodes[..], idx)
      ensures var ids := queues[l];
              && q.head == (if k == 0 then At(ids, 1) else levels[l].head)
              && q.tail == (if k == |ids| - 1 then At(ids, k - 1) else levels[l].tail)
              && q.count == levels[l].count && q.heapEntry == levels[l].heapEntry
    {
      ghost var n0, ids := pool.nodes[..], queues[l];
      q := levels[l];
      assert LevelOk(n0, q, ids, book[l]) && Owns(|n0|, ids, l, owner);
      var prev, next := pool.nodes[idx].back, pool.nodes[idx].next;
      assert n0[ids[k]].back == prev == At(ids, k - 1) && n0[ids[k]].next == next == At(ids, k + 1);
      assert (idx == q.head <==> k == 0) && (idx == q.tail <==> k == |ids| - 1) && idx < |n0|;
      var tail := q.tail;
      if idx == q.head {
        q := q.(head := next);
        if next != NULL_IDX {
          pool.nodes[next] := pool.nodes[next].(back := NULL_IDX);
        }
      } else {
        pool.nodes[prev] := pool.nodes[prev].(next := next);
      }
      if idx == tail {
        q := q.(tail := prev);
      } else if next != NULL_IDX {
        pool.nodes[next] := pool.nodes[next].(back := prev);
      }
      assert pool.nodes[..] == Unlink(n0, ids, k);
      UnlinkBypasses(n0, ids, k);
    }

    /** Unlinks node `idx` from level `l`, wherever it stands, and frees it; the null link is refused. */
    method RemoveOrder(l: nat, idx: nat, ghost k: nat) returns (removed: bool)
      requires Valid() && l < levels.Length
      requires idx != NULL_IDX ==> k < |queues[l]| == |book[l]| && queues[l][k] == idx < |owner|
      modifies this, pool, pool.nodes, levels
      ensures Valid() && removed == (idx != NULL_IDX)
      ensures !removed ==>
                && queues == old(queues) && book == old(book) && owner == old(owner)
                && pool.used == old(pool.used)
      ensures removed ==>
                && queues == old(queues)[l := Remove(old(queues)[l], k)]
                && book == old(book)[l := Remove(old(book)[l], k)]
                && owner == old(owner)[idx := FREE]
                && pool.used == old(pool.used) - 1
      ensures forall m :: 0 <= m < levels.Length ==> levels[m].heapEntry == old(levels[m].heapEntry)
      ensures SameOrders(old(pool.nodes[..]), pool.nodes[..], idx)
    {
      if idx == NULL_IDX {
        return false;
      }
      ghost var n0, lv0, free0, ids := pool.nodes[..], levels[..], pool.free, queues[l];
      assert LevelOk(n0, levels[l], ids, book[l]) && Owns(|n0|, ids, l, owner);
      PartitionGive(|n0|, free0, queues, owner, l, k);
      Pigeonhole([idx] + free0, |n0|);
      var q := Bypass(l, idx, k);
      ghost var n1 := pool.nodes[..];
      assert pool.Valid() by {
        assert forall j :: 0 <= j < |free0| ==> n1[free0[j]] == n0[free0[j]];
      }
      pool.Deallocate(idx);
      levels[l] := q.(count := q.count - 1);
      WiredRemove(n0, pool.nodes[..], lv0, levels[l], free0, queues, owner, book, l, k);
      queues, owner, book := queues[l := Remove(ids, k)], owner[idx := FREE], book[l := Remove(book[l], k)];
      return true;
    }

    method SetHeapEntry(l: nat, flag: bool)
      requires Valid() && l < levels.Length
      modifies levels
      ensures Valid()
      ensures levels[..] == old(levels[..])[l := old(levels[..])[l].(heapEntry := flag)]
    {
      WiredFlag(pool.nodes[..], levels[..], pool.free, queues, owner, book, l, flag);
      levels[l] := levels[l].(heapEntry := flag);
      assert levels[..] == old(levels[..])[l := old(levels[..])[l].(heapEntry := flag)];
    }

    /** Overwrites the order at the head of level `l`. */
    method SetHead(l: nat, o: Order)
      requires Valid() && l < levels.Length && book[l] != []
      modifies this, pool.nodes
      ensures Valid() && book == old(book)[l := old(book)[l][0 := o]] && queues == old(queues) && owner == old(owner)
      ensures SameOrders(old(pool.nodes[..]), pool.nodes[..], levels[l].head)
      ensures levels[l].head < pool.nodes.Length && owner[levels[l].head] == l && pool.nodes[levels[l].head].order == o
    {
      LevelFacts(l);
      WiredModify(pool.nodes[..], levels[..], pool.free, queues, owner, book, l, o);
      var x := levels[l].head;
      ghost var n0 := pool.nodes[..];
      pool.nodes[x] := pool.nodes[x].(order := o);
      assert pool.nodes[..] == n0[x := n0[x].(order := o)];
      book := book[l := book[l][0 := o]];
    }
  }
}
