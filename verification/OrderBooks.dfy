/** One symbol's order book. */
module OrderBooks {
  import opened Market
  import opened Reference
  import opened Levels
  import opened Pool
  import opened PriceLevels
  import opened Quotes

  // ----- Index arithmetic --------------------------------------------------------------

  /** A conversion to a 32-bit signed integer: wraps modulo 2^32. */
  function ToInt32(x: int): int {
    (x + 0x8000_0000) % 0x1_0000_0000 - 0x8000_0000
  }

  function PriceToIndex(cfg: Config, price: nat): int {
    ToInt32(ToInt32(price) - cfg.lower)
  }

  /** The index computed for a price depends only on its distance from the band's floor modulo 2^32. */
  lemma {:induction false} IndexWraps(cfg: Config, price: nat)
    ensures PriceToIndex(cfg, price) == ToInt32(price - cfg.lower)
  {
    var k := (price + 0x8000_0000) / 0x1_0000_0000;
    assert ToInt32(price) == price - k * 0x1_0000_0000;
    var y := price - cfg.lower + 0x8000_0000;
    assert y - k * 0x1_0000_0000 == y % 0x1_0000_0000 + (y / 0x1_0000_0000 - k) * 0x1_0000_0000;
  }

  /**
   Exact inside the band; and a price is let through by the range test exactly when it aliases a price of the
   band.
   */
  lemma {:induction false} IndexExact(cfg: Config, price: nat)
    requires ValidBand(cfg)
    ensures cfg.InBand(price) ==> PriceToIndex(cfg, price) == price - cfg.lower
    ensures var n := cfg.upper - cfg.lower + 1;
            0 <= PriceToIndex(cfg, price) < n <==> (price - cfg.lower) % 0x1_0000_0000 < n
  {
    IndexWraps(cfg, price);
  }

  // ----- The id index --------------------------------------------------------------------

  // Switches, as in `Quotes`, of the id index and of the whole representation.

  ghost predicate UnlockMap(k: int) {
    true
  }

  ghost predicate UnlockBook(k: int) {
    true
  }

  /** `orderMap` is a bijection between the resting ids and the queued nodes. */
  ghost predicate MapOk(m: map<nat, nat>, nodes: seq<OrderNode>, owner: seq<int>)
    requires |owner| == |nodes|
  {
    forall k {:trigger UnlockMap(k)} :: UnlockMap(k) ==>
      && (forall id :: id in m ==> m[id] < |nodes| && owner[m[id]] != FREE && nodes[m[id]].order.id == id)
      && (forall i :: 0 <= i < |nodes| && owner[i] != FREE ==> nodes[i].order.id in m && m[nodes[i].order.id] == i)
  }

  lemma {:induction false} MapAdd(m: map<nat, nat>, nodes: seq<OrderNode>, nodes': seq<OrderNode>, owner: seq<int>,
                                  x: nat, l: nat)
    requires |owner| == |nodes| && x < |nodes| && MapOk(m, nodes, owner) && SameOrders(nodes, nodes', x)
    requires owner[x] == FREE && nodes'[x].order.id !in m
    ensures MapOk(m[nodes'[x].order.id := x], nodes', owner[x := l])
  {
    assert UnlockMap(0);
  }

  lemma {:induction false} MapDrop(m: map<nat, nat>, nodes: seq<OrderNode>, nodes': seq<OrderNode>, owner: seq<int>,
                                   x: nat)
    requires |owner| == |nodes| && x < |nodes| && MapOk(m, nodes, owner) && SameOrders(nodes, nodes', x)
    requires owner[x] != FREE
    ensures MapOk(m - {nodes[x].order.id}, nodes', owner[x := FREE])
  {
    assert UnlockMap(0);
  }

  lemma {:induction false} MapModify(m: map<nat, nat>, nodes: seq<OrderNode>, nodes': seq<OrderNode>, owner: seq<int>,
                                     x: nat)
    requires |owner| == |nodes| && x < |nodes| && MapOk(m, nodes, owner) && SameOrders(nodes, nodes', x)
    requires nodes'[x].order.id == nodes[x].order.id
    ensures MapOk(m, nodes', owner)
  {
    assert UnlockMap(0);
  }

  class OrderBook {
    const cfg: Config
    const queues: Queues
    var caches: PerSide<SideCache>
    var orderMap: map<nat, nat>
    /** The resting orders, as the two sorted lists of the reference, and their quantities. */
    ghost var resting: Book
    ghost var qty: PerSide<nat>
    /** By how much each total over-counts what rests: the quantity ever cancelled on that side. */
    ghost var excess: PerSide<nat>

    ghost predicate Indexed()
      reads this`resting, this`orderMap, queues`owner, queues.pool`used, queues.pool.nodes
    {
      && queues.pool.nodes.Length == cfg.capacity && queues.pool.used == resting.Size()
      && |queues.owner| == queues.pool.nodes.Length
      && MapOk(orderMap, queues.pool.nodes[..], queues.owner)
    }

    ghost predicate Totalled()
      reads this`caches, this`qty, this`excess
    {
      caches.buy.total == qty.buy + excess.buy && caches.sell.total == qty.sell + excess.sell
    }

    /** Everything but the promise that no heap entry is stale at price `dirty`. */
    ghost predicate ValidBut(dirty: int)
      reads this, queues, queues.pool, queues.pool.nodes, queues.levels
    {
      && ValidBand(cfg) && |queues.book| == |queues.queues| == queues.levels.Length == cfg.upper - cfg.lower + 1
      && |queues.owner| == queues.pool.nodes.Length
      && forall k {:trigger UnlockBook(k)} :: UnlockBook(k) ==>
           && queues.Valid()
           && Indexed()
           && Spells(cfg, queues.book, resting)
           && Books(cfg, resting, orderMap.Keys, qty)
           && Cached(cfg, queues.book, queues.levels[..], caches, excess, dirty)
           && Totalled()
    }

    ghost predicate Valid()
      reads this, queues, queues.pool, queues.pool.nodes, queues.levels
    {
      ValidBut(-1)
    }

    constructor (poolSize: nat, lower: nat, upper: nat)
      requires 1 <= poolSize < INT_LIMIT && ValidBand(Config(poolSize, lower, upper))
      ensures Valid() && fresh(queues) && fresh(queues.pool) && fresh(queues.pool.nodes) && fresh(queues.levels)
      ensures cfg == Config(poolSize, lower, upper) && |resting.bids| == |resting.asks| == 0
      ensures excess.buy == excess.sell == 0
    {
      cfg := Config(poolSize, lower, upper);
      queues := new Queues(poolSize, upper - lower + 1);
      caches := PerSide(SideCache(multiset{lower - 1}, 0), SideCache(multiset{upper + 1}, 0));
      orderMap := map[];
      resting := Book([], []);
      qty := PerSide(0, 0);
      excess := PerSide(0, 0);
      new;
      EmptyBook(cfg, queues.book, resting, qty);
    }

    // ----- Best prices -------------------------------------------------------------------

    /** Pops a top price whose level is empty and clears the level's flag. */
    method PopTop(side: Side, p: nat, ghost dirty: int)
      requires ValidBut(dirty) && p in caches.Of(side).heap && p != Sentinel(cfg, side)
      requires cfg.InBand(p) && queues.book[p - cfg.lower] == []
      modifies this`caches, queues.levels
      ensures ValidBut(dirty) && caches.Of(side).heap == old(caches.Of(side).heap) - multiset{p}
      ensures p !in caches.Of(side).heap
      ensures caches == old(caches).With(side, old(caches.Of(side)).(heap := caches.Of(side).heap))
    {
      assert UnlockBook(0);
      var i := PriceToIndex(cfg, p);
      assert i == p - cfg.lower by {
        IndexExact(cfg, p);
      }
      PopStale(cfg, queues.book, queues.levels[..], caches, excess, dirty, side, p);
      var c := caches.Of(side);
      queues.SetHeapEntry(i, false);
      caches := caches.With(side, c.(heap := c.heap - multiset{p}));
      assert Totalled() && Cached(cfg, queues.book, queues.levels[..], caches, excess, dirty);
    }

    lemma {:induction false} TopIsKnown(side: Side, p: nat, dirty: int)
      requires ValidBut(dirty) && p in caches.Of(side).heap
      ensures p == Sentinel(cfg, side) || (cfg.InBand(p) && PriceToIndex(cfg, p) == p - cfg.lower)
      ensures queues.levels.Length == |queues.book| == cfg.upper - cfg.lower + 1
      ensures p != Sentinel(cfg, side) ==> queues.levels[p - cfg.lower].count == |queues.book[p - cfg.lower]|
    {
      assert UnlockBook(0);
      CacheFacts(cfg, queues.book, queues.levels[..], caches, excess, dirty, side);
      assert Known(cfg, side, p);
      IndexExact(cfg, p);
      if p != Sentinel(cfg, side) {
        queues.LevelCount(p - cfg.lower);
      }
    }

    /** Level `i` begins with the first order of the side. */
    ghost predicate Heads(side: Side, i: nat)
      reads this`resting, queues`book
    {
      && i < |queues.book| && queues.book[i] != [] && queues.book[i][0].side == side
      && resting.Of(side) != [] && resting.Of(side)[0] == queues.book[i][0]
    }

    /** `p` is the cleaned top of a side's heap and its true best price: the sentinel exactly if nothing rests there. */
    ghost predicate IsBest(side: Side, p: nat)
      reads this`caches, this`resting, queues`book
    {
      && ValidBand(cfg) && IsTop(side, caches.Of(side).heap, p)
      && p == (if resting.Of(side) == [] then Sentinel(cfg, side) else resting.Of(side)[0].price)
      && (p != Sentinel(cfg, side) ==>
            && cfg.InBand(p) && Heads(side, p - cfg.lower))
    }

    /** The true best price of a side, found by popping stale entries; the sentinel if nothing rests there. */
    method BestPrice(side: Side, ghost dirty: int) returns (p: nat)
      requires ValidBut(dirty)
      requires dirty >= 0 ==> cfg.InBand(dirty) && IsTop(side, caches.Of(side).heap, dirty)
      modifies this`caches, queues.levels
      ensures Valid() && IsBest(side, p)
      ensures caches == old(caches).With(side, old(caches.Of(side)).(heap := caches.Of(side).heap))
    {
      assert UnlockBook(0);
      CacheFacts(cfg, queues.book, queues.levels[..], caches, excess, dirty, side);
      if dirty >= 0 {
        OneHeap(cfg, queues.levels[..], caches, side, dirty);
      }
      p := Top(side, caches.Of(side).heap);
      TopIsKnown(side, p, dirty);
      while p != Sentinel(cfg, side) && queues.levels[PriceToIndex(cfg, p)].count == 0
        invariant ValidBut(dirty) && IsTop(side, caches.Of(side).heap, p)
        invariant p == Sentinel(cfg, side)
                  || (cfg.InBand(p) && PriceToIndex(cfg, p) == p - cfg.lower < queues.levels.Length)
        invariant dirty >= 0 ==> dirty !in caches.Of(side).heap || IsTop(side, caches.Of(side).heap, dirty)
        invariant dirty >= 0 ==> dirty !in caches.Of(side.Opposite()).heap
        invariant caches == old(caches).With(side, old(caches.Of(side)).(heap := caches.Of(side).heap))
        decreases |caches.Of(side).heap|
      {
        TopIsKnown(side, p, dirty);
        PopTop(side, p, dirty);
        CacheFacts(cfg, queues.book, queues.levels[..], caches, excess, dirty, side);
        p := Top(side, caches.Of(side).heap);
        TopIsKnown(side, p, dirty);
      }
      TopIsKnown(side, p, dirty);
      TopIsBest(side, p, dirty);
    }

    /** When popping stops, the top is the best price, and nothing is dirty any more. */
    lemma {:induction false} TopIsBest(side: Side, p: nat, dirty: int)
      requires ValidBut(dirty) && IsTop(side, caches.Of(side).heap, p)
      requires p == Sentinel(cfg, side) || (cfg.InBand(p) && queues.book[p - cfg.lower] != [])
      requires dirty >= 0 ==> dirty !in caches.Of(side).heap || IsTop(side, caches.Of(side).heap, dirty)
      requires dirty >= 0 ==> dirty !in caches.Of(side.Opposite()).heap
      ensures Valid() && IsBest(side, p)
    {
      assert UnlockBook(0);
      CleanTop(cfg, queues.book, queues.levels[..], caches, excess, dirty, side, p);
      DirtGone(cfg, queues.book, queues.levels[..], caches, excess, dirty);
      SpellsLevels(cfg, queues.book, resting);
    }

    /** A zero total is honest: the side is empty and its heap has been cleaned down to the sentinel. */
    lemma {:induction false} ZeroTotalIsClear(side: Side)
      requires Valid() && caches.Of(side).total == 0
      ensures resting.Of(side) == [] && forall p :: p in caches.Of(side).heap ==> p == Sentinel(cfg, side)
    {
      assert UnlockBook(0);
      BooksFront(cfg, resting, orderMap.Keys, qty, side);
      CacheFacts(cfg, queues.book, queues.levels[..], caches, excess, -1, side);
      assert UnlockCaches(0);
      forall p | p in caches.Of(side).heap
        ensures p == Sentinel(cfg, side)
      {
        assert Known(cfg, side, p);
        assert Live(cfg, queues.book, side, -1, p);
        if p != Sentinel(cfg, side) {
          var i := p - cfg.lower;
          OneHeap(cfg, queues.levels[..], caches, side, p);
          assert Part(side.Opposite(), queues.book[i]) == [];
          SpellsLevels(cfg, queues.book, resting);
          FlatSplit(side, queues.book, i);
          assert false;
        }
      }
    }

    // ----- Adding ------------------------------------------------------------------------

    /**
     `o` may join the book: a live order with a fresh id that trades with nothing, at a price the other heap
     has forgotten.
     */
    ghost predicate MayRest(o: Order)
      reads this`resting, this`caches, this`orderMap
    {
      && o.quantity >= 1 && cfg.InBand(o.price) && o.id !in orderMap
      && o.price !in caches.Of(o.side.Opposite()).heap
      && var opp := resting.Of(o.side.Opposite());
      opp == [] || !Crosses(o.side, o.price, opp[0].price)
    }

    /** Appends `o` to level `i` and to the id index, if there is a node left. */
    method Place(i: nat, o: Order) returns (idx: nat)
      requires Valid() && i < |queues.book| && o.price == cfg.lower + i && MayRest(o)
      modifies this`orderMap, this`resting, this`qty, queues, queues.pool, queues.pool.nodes, queues.levels
      ensures old(resting).Size() >= cfg.capacity ==> idx == NULL_IDX && Valid() && resting == old(resting)
      ensures old(resting).Size() < cfg.capacity ==>
                && idx != NULL_IDX && queues.Valid() && Indexed()
                && Spells(cfg, queues.book, resting) && Books(cfg, resting, orderMap.Keys, qty)
                && queues.book == old(queues.book)[i := old(queues.book)[i] + [o]]
                && (queues.book[i] == [o] || old(queues.book)[i][0].side == o.side)
                && qty == old(qty).With(o.side, old(qty).Of(o.side) + o.quantity)
                && resting == old(resting).With(o.side, Insert(o.side, old(resting).Of(o.side), o))
      ensures |queues.levels[..]| == |old(queues.levels[..])|
      ensures forall m :: 0 <= m < queues.levels.Length ==>
              queues.levels[m].heapEntry == old(queues.levels[m].heapEntry)
    {
      assert UnlockBook(0);
      OursAdd(cfg, queues.book, resting, orderMap.Keys, qty, i, o);
      ghost var book0, n0, owner0 := queues.book, queues.pool.nodes[..], queues.owner;
      idx := queues.InsertOrder(i, o);
      if idx == NULL_IDX {
        return;
      }
      MapAdd(orderMap, n0, queues.pool.nodes[..], owner0, idx, i);
      SpellsAdd(cfg, book0, resting, i, o);
      BooksAdd(cfg, resting, orderMap.Keys, qty, o);
      orderMap := orderMap[o.id := idx];
      qty := qty.With(o.side, qty.Of(o.side) + o.quantity);
      resting := resting.With(o.side, Insert(o.side, resting.Of(o.side), o));
    }

    /** The heap and the total of its side hear of `o`, which has just joined level `i`. */
    method Announce(i: nat, o: Order, wasEmpty: bool, heapEntry: bool, ghost book0: seq<seq<Order>>,
                    ghost lv0: seq<PriceQueue>)
      requires ValidBand(cfg) && |queues.book| == |queues.queues| == queues.levels.Length == cfg.upper - cfg.lower + 1
      requires i < |book0| == |lv0| == |queues.book| && o.price == cfg.lower + i
      requires |queues.owner| == queues.pool.nodes.Length
      requires queues.Valid() && Indexed() && Spells(cfg, queues.book, resting)
      requires Books(cfg, resting, orderMap.Keys, qty) && queues.book == book0[i := book0[i] + [o]]
      requires book0[i] == [] || book0[i][0].side == o.side
      requires wasEmpty == (book0[i] == []) && heapEntry == lv0[i].heapEntry
      requires forall m :: 0 <= m < |lv0| ==> queues.levels[m].heapEntry == lv0[m].heapEntry
      requires Cached(cfg, book0, lv0, caches, excess, -1) && o.price !in caches.Of(o.side.Opposite()).heap
      requires forall side :: caches.Of(side).total + (if side == o.side then o.quantity else 0)
                           == qty.Of(side) + excess.Of(side)
      modifies this`caches, queues.levels
      ensures Valid()
    {
      queues.SetHeapEntry(i, true);
      var c := caches.Of(o.side);
      var c' := SideCache(if wasEmpty && !heapEntry then c.heap + multiset{o.price} else c.heap, c.total + o.quantity);
      AddCached(cfg, book0, lv0, queues.levels[..], caches, excess, o, c');
      caches := caches.With(o.side, c');
      assert Totalled();
    }

    /** Rests `o` behind level `i`; refused when the pool is full. */
    method AddAt(i: nat, o: Order) returns (ok: bool)
      requires Valid() && i < |queues.book| == queues.levels.Length && o.price == cfg.lower + i && MayRest(o)
      modifies this, queues, queues.pool, queues.pool.nodes, queues.levels
      ensures Valid() && excess == old(excess) && ok == (old(resting.Size()) < cfg.capacity)
      ensures resting == if ok then old(resting).With(o.side, Insert(o.side, old(resting).Of(o.side), o))
              else old(resting)
    {
      assert UnlockBook(0);
      queues.LevelCount(i);
      ghost var book0, lv0 := queues.book, queues.levels[..];
      var wasEmpty, heapEntry := queues.levels[i].count == 0, queues.levels[i].heapEntry;
      var idx := Place(i, o);
      if idx == NULL_IDX {
        return false;
      }
      Announce(i, o, wasEmpty, heapEntry, book0, lv0);
      return true;
    }

    /** Rests `o` behind its price level; refused outside the band and when the pool is full. */
    method AddOrder(o: Order) returns (ok: bool)
      requires Valid()
      requires 0 <= PriceToIndex(cfg, o.price) < cfg.upper - cfg.lower + 1 ==> MayRest(o)
      modifies this, queues, queues.pool, queues.pool.nodes, queues.levels
      ensures Valid() && excess == old(excess)
      ensures ok == (cfg.InBand(o.price) && old(resting.Size()) < cfg.capacity)
      ensures resting == if ok then old(resting).With(o.side, Insert(o.side, old(resting).Of(o.side), o))
              else old(resting)
    {
      assert UnlockBook(0);
      IndexExact(cfg, o.price);
      var i := PriceToIndex(cfg, o.price);
      if i < 0 || i >= queues.levels.Length {
        return false;
      }
      ok := AddAt(i, o);
    }

    // ----- Removing ----------------------------------------------------------------------

    /** Takes the order at place `k` of level `i` out of the queues and the id index. */
    method Take(i: nat, idx: nat, ghost k: nat, ghost side: Side) returns (removed: bool)
      requires Valid() && i < |queues.book| && k < |queues.book[i]| == |queues.queues[i]|
      requires queues.queues[i][k] == idx < |queues.owner| && queues.owner[idx] == i && queues.book[i][k].side == side
      requires queues.pool.nodes[idx].order == queues.book[i][k]
      modifies this`orderMap, this`resting, this`qty, queues, queues.pool, queues.pool.nodes, queues.levels
      ensures removed && queues.Valid() && Indexed()
      ensures Spells(cfg, queues.book, resting) && Books(cfg, resting, orderMap.Keys, qty)
      ensures var o := old(queues.book)[i][k];
              && queues.book == old(queues.book)[i := Remove(old(queues.book)[i], k)]
              && o.side == old(queues.book)[i][0].side && Part(side, queues.book[i]) == queues.book[i]
              && 1 <= o.quantity <= old(qty).Of(side) && qty == old(qty).With(side, old(qty).Of(side) - o.quantity)
              && resting == old(resting).With(side, Without(old(resting).Of(side), o.id))
              && QtyOf(old(resting).Of(side), o.id) == o.quantity
              && Without(old(resting).Of(side.Opposite()), o.id) == old(resting).Of(side.Opposite())
              && QtyOf(old(resting).Of(side.Opposite()), o.id) == 0
      ensures |queues.levels[..]| == |old(queues.levels[..])| && orderMap.Keys <= old(orderMap).Keys
      ensures forall m :: 0 <= m < queues.levels.Length ==>
              queues.levels[m].heapEntry == old(queues.levels[m].heapEntry)
    {
      assert UnlockBook(0);
      ghost var book0, n0, owner0, o := queues.book, queues.pool.nodes[..], queues.owner, queues.book[i][k];
      SpellsRemove(cfg, book0, resting, i, k);
      ghost var a, b := Ahead(side, book0, i, k), Behind(side, book0, i, k);
      BooksRemove(cfg, resting, orderMap.Keys, qty, o, a, b);
      orderMap := orderMap - {queues.pool.nodes[idx].order.id};
      removed := queues.RemoveOrder(i, idx, k);
      MapDrop(old(orderMap), n0, queues.pool.nodes[..], owner0, idx);
      resting := resting.With(side, a + b);
      qty := qty.With(side, qty.Of(side) - o.quantity);
    }

    /** The head of a level is the node its order's id maps to. */
    lemma {:induction false} LevelHead(i: nat)
      requires Valid() && i < |queues.book| && queues.book[i] != []
      ensures |queues.queues[i]| == |queues.book[i]|
      ensures var x, o := queues.queues[i][0], queues.book[i][0];
              && queues.levels[i].head == x < queues.pool.nodes.Length && queues.owner[x] == i
                 && queues.pool.nodes[x].order == o
              && o.id in orderMap && orderMap[o.id] == x
    {
      assert UnlockBook(0);
      assert UnlockMap(0);
      queues.LevelFacts(i);
    }

    lemma {:induction false} HeadFacts(side: Side, i: nat)
      requires Valid() && Heads(side, i)
      ensures i < queues.levels.Length && |queues.queues[i]| == |queues.book[i]|
      ensures |queues.owner| == queues.pool.nodes.Length
      ensures var x, o := queues.queues[i][0], queues.book[i][0];
              && queues.levels[i].head == x < queues.pool.nodes.Length && queues.owner[x] == i
                 && queues.pool.nodes[x].order == o
              && o.id in orderMap && orderMap[o.id] == x
              && resting.Of(side) != [] && resting.Of(side)[0] == o && o.quantity >= 1
              && Without(resting.Of(side), o.id) == resting.Of(side)[1..]
    {
      assert UnlockBook(0);
      LevelHead(i);
      BooksFront(cfg, resting, orderMap.Keys, qty, side);
    }

    /** Removes the order at the head of a price level of `side`, best or not; false if there is none. */
    method RemoveHead(side: Side, price: nat) returns (removed: bool)
      requires Valid() && cfg.InBand(price)
      requires var q := queues.book[price - cfg.lower]; q != [] ==> q[0].side == side
      modifies this, queues, queues.pool, queues.pool.nodes, queues.levels
      ensures removed == (old(queues.book)[price - cfg.lower] != [])
      ensures excess == old(excess) && caches.Of(side).heap == old(caches).Of(side).heap
      ensures orderMap.Keys <= old(orderMap).Keys
      ensures removed ==>
                var id := old(queues.book)[price - cfg.lower][0].id;
                ValidBut(price) && resting == old(resting).With(side, Without(old(resting).Of(side), id))
      ensures !removed ==> Valid() && resting == old(resting) && caches == old(caches)
    {
      assert UnlockBook(0);
      IndexExact(cfg, price);
      var i := PriceToIndex(cfg, price);
      queues.LevelFacts(i);
      if queues.levels[i].count == 0 {
        return false;
      }
      var head := queues.pool.nodes[queues.levels[i].head].order;
      LevelHead(i);
      assert head.id in orderMap;  // so the lookup of the head's id in orderMap cannot fail
      ghost var book0, lv0 := queues.book, queues.levels[..];
      removed := Take(i, orderMap[head.id], 0, side);
      var c := caches.Of(side);
      RemoveCached(cfg, book0, lv0, queues.levels[..], caches, excess, excess, price, i, queues.book[i]);
      TotalsOnly(cfg, queues.book, queues.levels[..], caches,
        caches.With(side, c.(total := c.total - head.quantity)), excess, price);
      caches := caches.With(side, c.(total := c.total - head.quantity));
    }

    lemma {:induction false} CancelFacts(id: nat) returns (i: nat, k: nat)
      requires Valid() && id in orderMap
      ensures i < |queues.book| == queues.levels.Length && k < |queues.book[i]| == |queues.queues[i]|
      ensures |queues.owner| == queues.pool.nodes.Length
      ensures queues.queues[i][k] == orderMap[id] < |queues.owner| && queues.owner[orderMap[id]] == i
      ensures queues.pool.nodes[orderMap[id]].order == queues.book[i][k]
      ensures queues.book[i][k].id == id && PriceToIndex(cfg, queues.book[i][k].price) == i
    {
      assert UnlockBook(0);
      assert UnlockMap(0);
      var x := orderMap[id];
      assert Housed(x, queues.pool.free, queues.queues, queues.owner[x]);
      i := queues.owner[x];
      k :| 0 <= k < |queues.queues[i]| && queues.queues[i][k] == x;
      queues.LevelFacts(i);
      SpellsLevels(cfg, queues.book, resting);
      IndexExact(cfg, queues.book[i][k].price);
    }

    /** Takes a resting order out; its quantity stays in the total and becomes part of the over-count. */
    method CancelAt(id: nat, order: Order)
      requires Valid() && id in orderMap && orderMap[id] < queues.pool.nodes.Length
      requires order == queues.pool.nodes[orderMap[id]].order
      modifies this, queues, queues.pool, queues.pool.nodes, queues.levels
      ensures Valid() && resting == old(resting).With(order.side, Without(old(resting).Of(order.side), id))
      ensures QtyOf(old(resting).Of(order.side), id) == order.quantity
      ensures var other := old(resting).Of(order.side.Opposite()); Without(other, id) == other && QtyOf(other, id) == 0
      ensures excess == old(excess).With(order.side, old(excess).Of(order.side) + order.quantity)
    {
      assert UnlockBook(0);
      ghost var i, k := CancelFacts(id);
      ghost var book0, lv0, e0 := queues.book, queues.levels[..], excess;
      var removed := Take(PriceToIndex(cfg, order.price), orderMap[id], k, order.side);
      excess := excess.With(order.side, excess.Of(order.side) + order.quantity);
      RemoveCached(cfg, book0, lv0, queues.levels[..], caches, e0, excess, -1, i, queues.book[i]);
    }

    /** Cancels a resting order wherever it stands; false if the id does not rest.  The total is left as it was. */
    method CancelOrder(id: nat) returns (ok: bool)
      requires Valid()
      modifies this, queues, queues.pool, queues.pool.nodes, queues.levels
      ensures Valid() && ok == (id in old(orderMap))
      ensures resting == Book(Without(old(resting).bids, id), Without(old(resting).asks, id))
      ensures excess == PerSide(old(excess).buy + QtyOf(old(resting).bids, id),
                                old(excess).sell + QtyOf(old(resting).asks, id))
    {
      if id !in orderMap {
        assert UnlockBook(0);
        BooksAbsent(cfg, resting, orderMap.Keys, qty, id);
        return false;
      }
      ghost var i, k := CancelFacts(id);
      CancelAt(id, queues.pool.nodes[orderMap[id]].order);
      return true;
    }

    // ----- Reducing ------------------------------------------------------------------------

    /** Lowers the quantity of the first order of a side, which heads level `i`. */
    method Reduce(i: nat, head: Order, quantity: nat)
      requires Valid() && i < |queues.book| && queues.book[i] != [] && head == queues.book[i][0]
      requires Heads(head.side, i) && 1 <= quantity <= head.quantity
      modifies this`resting, this`qty, queues, queues.pool.nodes
      ensures queues.Valid() && Indexed() && Spells(cfg, queues.book, resting)
      ensures Books(cfg, resting, orderMap.Keys, qty)
      ensures var s := old(resting).Of(head.side);
              && s != [] && s[0] == head
              && resting == old(resting).With(head.side, [head.(quantity := quantity)] + s[1..])
      ensures old(qty).Of(head.side) >= head.quantity
      ensures qty == old(qty).With(head.side, old(qty).Of(head.side) - (head.quantity - quantity))
      ensures queues.book == old(queues.book)[i := queues.book[i]] && queues.book[i] != []
      ensures Part(head.side, queues.book[i]) == queues.book[i]
    {
      assert UnlockBook(0);
      ghost var side := head.side;
      queues.LevelFacts(i);
      HeadFacts(side, i);
      SpellsFront(cfg, queues.book, resting, i);
      SpellsReduce(cfg, queues.book, resting, i, quantity);
      BooksReduce(cfg, resting, orderMap.Keys, qty, side, quantity);
      ghost var n0 := queues.pool.nodes[..];
      queues.SetHead(i, head.(quantity := quantity));
      MapModify(orderMap, n0, queues.pool.nodes[..], queues.owner, queues.levels[i].head);
      resting := resting.With(side, [head.(quantity := quantity)] + resting.Of(side)[1..]);
      qty := qty.With(side, qty.Of(side) - (head.quantity - quantity));
    }

    /** The same for the whole book: the total now over-counts by the difference. */
    method ReduceHead(i: nat, head: Order, quantity: nat)
      requires Valid() && i < |queues.book| && queues.book[i] != [] && head == queues.book[i][0]
      requires Heads(head.side, i) && 1 <= quantity <= head.quantity
      modifies this`resting, this`qty, this`excess, queues, queues.pool.nodes
      ensures Valid() && excess == old(excess).With(head.side, old(excess).Of(head.side) + (head.quantity - quantity))
      ensures var s := old(resting).Of(head.side);
              && s != [] && s[0] == head
              && resting == old(resting).With(head.side, [head.(quantity := quantity)] + s[1..])
      ensures old(excess).Of(head.side) == 0 ==> NoStale(cfg, queues.book, head.side, caches.Of(head.side).heap, -1)
    {
      assert UnlockBook(0);
      ghost var book0 := queues.book;
      Reduce(i, head, quantity);
      ReduceCached(cfg, book0, queues.levels[..], caches, excess, i, queues.book[i], head.side,
        head.quantity - quantity);
      excess := excess.With(head.side, excess.Of(head.side) + (head.quantity - quantity));
    }

    /** Overwrites the quantity at the head of a price level; false outside the band or for an empty level. */
    method ModifyQuantity(price: nat, quantity: nat) returns (ok: bool)
      requires Valid()
      requires 0 <= PriceToIndex(cfg, price) < cfg.upper - cfg.lower + 1 ==>
                 && cfg.InBand(price)
                 && var q := queues.book[price - cfg.lower];
                 q != [] ==> Heads(q[0].side, price - cfg.lower) && 1 <= quantity <= q[0].quantity
      modifies this`resting, this`qty, this`excess, queues, queues.pool.nodes
      ensures Valid() && ok == (cfg.InBand(price) && old(queues.book)[price - cfg.lower] != [])
      ensures !ok ==> resting == old(resting) && excess == old(excess)
      ensures ok ==>
                var side := old(queues.book)[price - cfg.lower][0].side;
                var s := old(resting).Of(side);
                && s != [] && s[0].quantity >= quantity
                && resting == old(resting).With(side, [s[0].(quantity := quantity)] + s[1..])
                && excess == old(excess).With(side, old(excess).Of(side) + s[0].quantity - quantity)
                && (old(excess).Of(side) == 0 ==> NoStale(cfg, queues.book, side, caches.Of(side).heap, -1))
    {
      assert UnlockBook(0);
      IndexExact(cfg, price);
      var i := PriceToIndex(cfg, price);
      if i < 0 || i >= queues.levels.Length {
        return false;
      }
      queues.LevelFacts(i);
      if queues.levels[i].count == 0 {
        return false;
      }
      var head := queues.pool.nodes[queues.levels[i].head].order;
      ReduceHead(i, head, quantity);
      return true;
    }

    method DecreaseTotal(side: Side, quantity: nat)
      requires Valid() && quantity <= excess.Of(side)
      requires quantity == excess.Of(side) ==> NoStale(cfg, queues.book, side, caches.Of(side).heap, -1)
      modifies this`caches, this`excess
      ensures Valid() && excess == old(excess).With(side, old(excess).Of(side) - quantity)
      ensures caches.Of(side).heap == old(caches).Of(side).heap
    {
      assert UnlockBook(0);
      var c := caches.Of(side);
      caches := caches.With(side, c.(total := c.total - quantity));
      excess := excess.With(side, excess.Of(side) - quantity);
      LessExcess(cfg, queues.book, queues.levels[..], old(caches), old(excess), side, excess.Of(side));
      TotalsOnly(cfg, queues.book, queues.levels[..], old(caches), caches, excess, -1);
    }
  }
}
