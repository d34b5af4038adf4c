/**
 The price caches of a book, on values: per side a heap of candidate best prices that is cleaned
 only lazily, a running total, and one heap-entry flag per level shared by both sides.
 */
module Quotes {
  import opened Market
  import opened Reference
  import opened Levels
  import opened PriceLevels
  import PriceTime

  datatype PerSide<T> = PerSide(buy: T, sell: T) {
    function Of(side: Side): T {
      if side == Buy then buy else sell
    }
    function With(side: Side, t: T): PerSide<T> {
      if side == Buy then PerSide(t, sell) else PerSide(buy, t)
    }
  }

  datatype SideCache = SideCache(heap: multiset<nat>, total: nat)

  ghost predicate ValidBand(cfg: Config) {
    0 < cfg.lower <= cfg.upper < 0xFFFF_FFFF_FFFF_FFFF && cfg.upper - cfg.lower + 1 < 0x8000_0000
  }

  /** The price one outside the band that always stays at the bottom of a side's heap. */
  function Sentinel(cfg: Config, side: Side): nat
    requires 0 < cfg.lower
  {
    if side == Buy then cfg.lower - 1 else cfg.upper + 1
  }

  /** The sentinel as the constructor computes it for any band of 64-bit prices. */
  function CodedSentinel(cfg: Config, side: Side): nat {
    if side == Buy then (if cfg.lower > 0 then cfg.lower - 1 else 0)
    else (if cfg.upper == 0xFFFF_FFFF_FFFF_FFFF then 0xFFFF_FFFF_FFFF_FFFF else cfg.upper + 1)
  }

  /** It lies outside the band, and so is no real price, exactly if the band leaves room below and above. */
  lemma {:induction false} SentinelsExactlyIf(cfg: Config)
    requires cfg.lower <= cfg.upper <= 0xFFFF_FFFF_FFFF_FFFF
    ensures (forall side :: !cfg.InBand(CodedSentinel(cfg, side))) <==>
            0 < cfg.lower && cfg.upper < 0xFFFF_FFFF_FFFF_FFFF
    ensures 0 < cfg.lower && cfg.upper < 0xFFFF_FFFF_FFFF_FFFF ==>
            forall side :: CodedSentinel(cfg, side) == Sentinel(cfg, side)
  {
    assert cfg.InBand(CodedSentinel(cfg, Buy)) <==> cfg.lower == 0;
    assert cfg.InBand(CodedSentinel(cfg, Sell)) <==> cfg.upper == 0xFFFF_FFFF_FFFF_FFFF;
  }

  // ----- Heaps -------------------------------------------------------------------------

  predicate IsTop(side: Side, heap: multiset<nat>, p: nat) {
    p in heap && forall x :: x in heap ==> Key(side, p) <= Key(side, x)
  }

  lemma {:induction false} TopExists(side: Side, heap: multiset<nat>)
    requires |heap| > 0
    ensures exists p :: IsTop(side, heap, p)
    decreases |heap|
  {
    var x :| x in heap;
    var rest := heap - multiset{x};
    if |rest| == 0 {
      assert rest == multiset{} && heap == multiset{x};
      assert IsTop(side, heap, x);
    } else {
      TopExists(side, rest);
      var p :| IsTop(side, rest, p);
      assert IsTop(side, heap, if Key(side, x) <= Key(side, p) then x else p);
    }
  }

  /** The front of a priority queue: the best price of `side` in it. */
  function Top(side: Side, heap: multiset<nat>): (p: nat)
    requires |heap| > 0
    ensures IsTop(side, heap, p)
  {
    TopExists(side, heap);
    var p :| IsTop(side, heap, p);
    p
  }

  // ----- The invariant ---------------------------------------------------------------------

  // The predicates below are carried through many proofs that do not look inside them.  Each is
  // guarded by a switch, always true: its definition is consulted only where the switch is asserted.

  ghost predicate UnlockSpells(k: int) {
    true
  }

  ghost predicate UnlockBooks(k: int) {
    true
  }

  ghost predicate UnlockCaches(k: int) {
    true
  }

  /** The levels spell out the two lists of `resting`. */
  ghost predicate Spells(cfg: Config, book: seq<seq<Order>>, resting: Book) {
    forall k {:trigger UnlockSpells(k)} :: UnlockSpells(k) ==>
      && ValidBand(cfg) && |book| == cfg.upper - cfg.lower + 1
      && Tidy(cfg.lower, book)
      && resting.bids == Flat(Buy, book) && resting.asks == Flat(Sell, book)
  }

  /** `resting` is a proper book with the given ids and, per side, the given quantity. */
  ghost predicate Books(cfg: Config, resting: Book, ids: set<nat>, qty: PerSide<nat>) {
    forall k {:trigger UnlockBooks(k)} :: UnlockBooks(k) ==>
      && Orderly(cfg, resting)
      && ids == Ids(resting.bids) + Ids(resting.asks)
      && qty.buy == SumQty(resting.bids) && qty.sell == SumQty(resting.asks)
  }

  /** A heap holds its sentinel and prices of the band. */
  ghost predicate Known(cfg: Config, side: Side, p: nat)
    requires 0 < cfg.lower
  {
    p == Sentinel(cfg, side) || cfg.InBand(p)
  }

  /** An entry that is not stale: the sentinel, the price known to be `dirty`, or an occupied level. */
  ghost predicate Live(cfg: Config, book: seq<seq<Order>>, side: Side, dirty: int, p: nat)
    requires 0 < cfg.lower && |book| == cfg.upper - cfg.lower + 1
  {
    p == Sentinel(cfg, side) || p == dirty || (cfg.InBand(p) && book[p - cfg.lower] != [])
  }

  ghost predicate NoStale(cfg: Config, book: seq<seq<Order>>, side: Side, heap: multiset<nat>, dirty: int)
    requires 0 < cfg.lower && |book| == cfg.upper - cfg.lower + 1
  {
    forall p {:trigger Live(cfg, book, side, dirty, p)} :: p in heap ==> Live(cfg, book, side, dirty, p)
  }

  ghost predicate HeapOk(cfg: Config, book: seq<seq<Order>>, side: Side, heap: multiset<nat>)
    requires 0 < cfg.lower && |book| == cfg.upper - cfg.lower + 1
  {
    && heap[Sentinel(cfg, side)] == 1
    && (forall p {:trigger Known(cfg, side, p)} :: p in heap ==> Known(cfg, side, p))
    && (forall i {:trigger Part(side, book[i])} :: 0 <= i < |book| && Part(side, book[i]) != [] ==>
       cfg.lower + i in heap)
  }

  /** Every level's flag counts its entries in both heaps together: at most one, in at most one of them. */
  ghost predicate FlagsOk(cfg: Config, levels: seq<PriceQueue>, caches: PerSide<SideCache>) {
    forall i {:trigger FlagAt(cfg, levels, caches, i)} :: 0 <= i < |levels| ==> FlagAt(cfg, levels, caches, i)
  }

  ghost predicate FlagAt(cfg: Config, levels: seq<PriceQueue>, caches: PerSide<SideCache>, i: nat)
    requires i < |levels|
  {
    caches.buy.heap[cfg.lower + i] + caches.sell.heap[cfg.lower + i] == if levels[i].heapEntry then 1 else 0
  }

  /** As long as nothing of the side was cancelled, none of its heap entries is stale. */
  ghost predicate SideOk(cfg: Config, book: seq<seq<Order>>, side: Side, heap: multiset<nat>, excess: nat, dirty: int)
    requires 0 < cfg.lower && |book| == cfg.upper - cfg.lower + 1
  {
    HeapOk(cfg, book, side, heap) && (excess == 0 ==> NoStale(cfg, book, side, heap, dirty))
  }

  ghost predicate Cached(cfg: Config, book: seq<seq<Order>>, levels: seq<PriceQueue>, caches: PerSide<SideCache>,
                         excess: PerSide<nat>, dirty: int)
  {
    && ValidBand(cfg) && |book| == |levels| == cfg.upper - cfg.lower + 1
    && forall k {:trigger UnlockCaches(k)} :: UnlockCaches(k) ==>
         && FlagsOk(cfg, levels, caches)
         && SideOk(cfg, book, Buy, caches.buy.heap, excess.buy, dirty)
         && SideOk(cfg, book, Sell, caches.sell.heap, excess.sell, dirty)
  }

  // ----- Lazy cleaning -----------------------------------------------------------------------

  lemma {:induction false} FlagsPop(cfg: Config, levels: seq<PriceQueue>, caches: PerSide<SideCache>, side: Side,
                                    p: nat)
    requires FlagsOk(cfg, levels, caches) && p in caches.Of(side).heap && cfg.lower <= p < cfg.lower + |levels|
    ensures var c := caches.Of(side);
            FlagsOk(cfg, levels[p - cfg.lower := levels[p - cfg.lower].(heapEntry := false)],
                    caches.With(side, c.(heap := c.heap - multiset{p})))
    ensures caches.Of(side).heap[p] == 1
  {
    var c := caches.Of(side);
    var levels' := levels[p - cfg.lower := levels[p - cfg.lower].(heapEntry := false)];
    var caches' := caches.With(side, c.(heap := c.heap - multiset{p}));
    assert FlagAt(cfg, levels, caches, p - cfg.lower);
    forall i | 0 <= i < |levels'|
      ensures FlagAt(cfg, levels', caches', i)
    {
      assert FlagAt(cfg, levels, caches, i);
    }
  }

  lemma {:induction false} SidePop(cfg: Config, book: seq<seq<Order>>, side: Side, heap: multiset<nat>, excess: nat,
                                   dirty: int, p: nat)
    requires ValidBand(cfg) && |book| == cfg.upper - cfg.lower + 1
    requires SideOk(cfg, book, side, heap, excess, dirty)
    requires heap[p] == 1 && p != Sentinel(cfg, side) && cfg.InBand(p) && book[p - cfg.lower] == []
    ensures SideOk(cfg, book, side, heap - multiset{p}, excess, dirty) && p !in heap - multiset{p}
  {
    var heap' := heap - multiset{p};
    forall x | x in heap'
      ensures Known(cfg, side, x) && (excess == 0 ==> Live(cfg, book, side, dirty, x))
    {
      assert Known(cfg, side, x);
      assert excess == 0 ==> Live(cfg, book, side, dirty, x);
    }
  }

  /** Popping a top entry that points at an empty level, and clearing its flag, keeps the caches right. */
  lemma {:induction false} PopStale(cfg: Config, book: seq<seq<Order>>, levels: seq<PriceQueue>,
                                    caches: PerSide<SideCache>, excess: PerSide<nat>, dirty: int, side: Side, p: nat)
    requires Cached(cfg, book, levels, caches, excess, dirty)
    requires p in caches.Of(side).heap && p != Sentinel(cfg, side)
    requires cfg.InBand(p) && book[p - cfg.lower] == []
    ensures var c := caches.Of(side);
            && Cached(cfg, book, levels[p - cfg.lower := levels[p - cfg.lower].(heapEntry := false)],
                      caches.With(side, c.(heap := c.heap - multiset{p})), excess, dirty)
            && p !in c.heap - multiset{p}
  {
    assert UnlockCaches(0);
    FlagsPop(cfg, levels, caches, side, p);
    SidePop(cfg, book, side, caches.Of(side).heap, excess.Of(side), dirty, p);
  }

  /** A price is in at most one of the two heaps. */
  lemma {:induction false} OneHeap(cfg: Config, levels: seq<PriceQueue>, caches: PerSide<SideCache>, side: Side, p: nat)
    requires FlagsOk(cfg, levels, caches) && cfg.lower <= p < cfg.lower + |levels| && p in caches.Of(side).heap
    ensures p !in caches.Of(side.Opposite()).heap
  {
    assert FlagAt(cfg, levels, caches, p - cfg.lower);
  }

  /** Once the dirty price has left the heap, or its level is occupied, nothing is dirty any more. */
  lemma {:induction false} DirtGone(cfg: Config, book: seq<seq<Order>>, levels: seq<PriceQueue>,
                                    caches: PerSide<SideCache>, excess: PerSide<nat>, dirty: int)
    requires Cached(cfg, book, levels, caches, excess, dirty)
    requires forall side :: dirty >= 0 && dirty in caches.Of(side).heap ==> Live(cfg, book, side, -1, dirty)
    ensures Cached(cfg, book, levels, caches, excess, -1)
  {
    assert UnlockCaches(0);
    forall side | excess.Of(side) == 0
      ensures NoStale(cfg, book, side, caches.Of(side).heap, -1)
    {
      forall p | p in caches.Of(side).heap
        ensures Live(cfg, book, side, -1, p)
      {
        assert Live(cfg, book, side, dirty, p);
      }
    }
    assert excess.Of(Buy) == excess.buy && excess.Of(Sell) == excess.sell;
  }

  /** A clean top is the true best price of the side, or the sentinel if the side is empty. */
  lemma {:induction false} CleanTop(cfg: Config, book: seq<seq<Order>>, levels: seq<PriceQueue>,
                                    caches: PerSide<SideCache>, excess: PerSide<nat>, dirty: int, side: Side, p: nat)
    requires Cached(cfg, book, levels, caches, excess, dirty)
    requires IsTop(side, caches.Of(side).heap, p)
    requires p == Sentinel(cfg, side) || (cfg.InBand(p) && book[p - cfg.lower] != [])
    ensures p == Sentinel(cfg, side) <==> Flat(side, book) == []
    ensures p != Sentinel(cfg, side) ==>
              && cfg.InBand(p) && Part(side, book[p - cfg.lower]) != []
              && Front(side, book, p - cfg.lower) == [] && Flat(side, book) != []
                 && Flat(side, book)[0] == book[p - cfg.lower][0]
  {
    assert UnlockCaches(0);
    var heap := caches.Of(side).heap;
    if p == Sentinel(cfg, side) {
      forall j | 0 <= j < |book|
        ensures Part(side, book[j]) == []
      {
        assert cfg.lower + j !in heap;
      }
      FlatEmpty(side, book);
    } else {
      var i := p - cfg.lower;
      OneHeap(cfg, levels, caches, side, p);
      assert Part(side.Opposite(), book[i]) == [];
      forall j | 0 <= j < |book| && Key(side, j) < Key(side, i)
        ensures Part(side, book[j]) == []
      {
        assert cfg.lower + j !in heap;
      }
      FrontEmpty(side, book, i);
      FlatHead(side, book, i);
    }
  }

  // ----- Adding an order ------------------------------------------------------------------

  /** A level that holds the other side would have crossed. */
  lemma {:induction false} LevelIsOurs(cfg: Config, book: seq<seq<Order>>, opp: seq<Order>, i: nat, o: Order)
    requires Tidy(cfg.lower, book) && i < |book| && o.price == cfg.lower + i
    requires opp == Flat(o.side.Opposite(), book) && Ladder(cfg, o.side.Opposite(), opp)
    requires opp == [] || !Crosses(o.side, o.price, opp[0].price)
    ensures book[i] == [] || book[i][0].side == o.side
  {
    if book[i] != [] && book[i][0].side != o.side {
      FlatSplit(o.side.Opposite(), book, i);
      var k := |Front(o.side.Opposite(), book, i)|;
      assert opp[k] == book[i][0] && TidyAt(cfg.lower, book, i);
      LadderHead(cfg, o.side.Opposite(), opp, k);
      assert false;
    }
  }

  lemma {:induction false} LadderHead(cfg: Config, side: Side, s: seq<Order>, k: nat)
    requires Ladder(cfg, side, s) && k < |s|
    ensures Key(side, s[0].price) <= Key(side, s[k].price)
    decreases k
  {
    if k > 1 {
      LadderHead(cfg, side, s[1..], k - 1);
    }
  }

  lemma {:induction false} TidyUpdate(lower: nat, book: seq<seq<Order>>, i: nat, q: seq<Order>)
    requires Tidy(lower, book) && i < |book| && TidyLevel(lower + i, q)
    ensures Tidy(lower, book[i := q])
  {
    var book' := book[i := q];
    forall j | 0 <= j < |book'|
      ensures TidyAt(lower, book', j)
    {
      assert TidyAt(lower, book, j);
    }
  }

  lemma {:induction false} AddFlat(lower: nat, book: seq<seq<Order>>, i: nat, o: Order)
    requires Tidy(lower, book) && i < |book| && o.price == lower + i && (book[i] == [] || book[i][0].side == o.side)
    ensures var book' := book[i := book[i] + [o]];
            && Tidy(lower, book')
            && Flat(o.side, book') == Insert(o.side, Flat(o.side, book), o)
            && Flat(o.side.Opposite(), book') == Flat(o.side.Opposite(), book)
  {
    assert TidyAt(lower, book, i);
    TidyUpdate(lower, book, i, book[i] + [o]);
    FlatInsert(o.side, lower, book, i, o);
    FlatSame(o.side.Opposite(), book, i, book[i] + [o]);
  }

  lemma {:induction false} OursAdd(cfg: Config, book: seq<seq<Order>>, resting: Book, ids: set<nat>, qty: PerSide<nat>,
                                   i: nat, o: Order)
    requires Spells(cfg, book, resting) && Books(cfg, resting, ids, qty) && i < |book| && o.price == cfg.lower + i
    requires var opp := resting.Of(o.side.Opposite()); opp == [] || !Crosses(o.side, o.price, opp[0].price)
    ensures book[i] == [] || book[i][0].side == o.side
  {
    assert UnlockSpells(0) && UnlockBooks(0);
    LevelIsOurs(cfg, book, resting.Of(o.side.Opposite()), i, o);
  }

  lemma {:induction false} SpellsAdd(cfg: Config, book: seq<seq<Order>>, resting: Book, i: nat, o: Order)
    requires Spells(cfg, book, resting) && i < |book| && o.price == cfg.lower + i
    requires book[i] == [] || book[i][0].side == o.side
    ensures Spells(cfg, book[i := book[i] + [o]], resting.With(o.side, Insert(o.side, resting.Of(o.side), o)))
  {
    assert UnlockSpells(0);
    AddFlat(cfg.lower, book, i, o);
  }

  lemma {:induction false} BooksAdd(cfg: Config, resting: Book, ids: set<nat>, qty: PerSide<nat>, o: Order)
    requires Books(cfg, resting, ids, qty) && o.quantity >= 1 && cfg.InBand(o.price) && o.id !in ids
    requires var opp := resting.Of(o.side.Opposite()); opp == [] || !Crosses(o.side, o.price, opp[0].price)
    ensures var resting' := resting.With(o.side, Insert(o.side, resting.Of(o.side), o));
            && Books(cfg, resting', ids + {o.id}, qty.With(o.side, qty.Of(o.side) + o.quantity))
            && resting'.Size() == resting.Size() + 1
  {
    assert UnlockBooks(0);
    PriceTime.InsertedBook(cfg, resting, o);
  }

  /** The heap after an add: a new entry only for a level that was empty and not listed anywhere. */
  function Pushed(cfg: Config, book: seq<seq<Order>>, levels: seq<PriceQueue>, o: Order,
                  heap: multiset<nat>): multiset<nat>
    requires cfg.InBand(o.price) && |book| == |levels| == cfg.upper - cfg.lower + 1
  {
    var i := o.price - cfg.lower;
    if book[i] == [] && !levels[i].heapEntry then heap + multiset{o.price} else heap
  }

  lemma {:induction false} FlagsAdd(cfg: Config, book: seq<seq<Order>>, levels: seq<PriceQueue>,
                                    levels': seq<PriceQueue>, caches: PerSide<SideCache>, o: Order, c': SideCache)
    requires FlagsOk(cfg, levels, caches) && cfg.InBand(o.price)
    requires |book| == |levels'| == |levels| == cfg.upper - cfg.lower + 1
    requires o.price !in caches.Of(o.side.Opposite()).heap
    requires book[o.price - cfg.lower] != [] ==> o.price in caches.Of(o.side).heap
    requires forall m :: 0 <= m < |levels| ==> levels'[m].heapEntry == (m == o.price - cfg.lower || levels[m].heapEntry)
    requires c'.heap == Pushed(cfg, book, levels, o, caches.Of(o.side).heap)
    ensures FlagsOk(cfg, levels', caches.With(o.side, c')) && o.price in c'.heap
  {
    var heap, i, caches' := caches.Of(o.side).heap, o.price - cfg.lower, caches.With(o.side, c');
    assert FlagAt(cfg, levels, caches, i);
    forall m | 0 <= m < |levels'|
      ensures FlagAt(cfg, levels', caches', m)
    {
      assert FlagAt(cfg, levels, caches, m);
    }
  }

  lemma {:induction false} SideAdd(cfg: Config, book: seq<seq<Order>>, book': seq<seq<Order>>, levels: seq<PriceQueue>,
                                   heap: multiset<nat>, excess: nat, o: Order)
    requires ValidBand(cfg) && cfg.InBand(o.price) && |book| == |levels| == cfg.upper - cfg.lower + 1
    requires SideOk(cfg, book, o.side, heap, excess, -1)
    requires book' == book[o.price - cfg.lower := book[o.price - cfg.lower] + [o]]
    requires o.price in Pushed(cfg, book, levels, o, heap)
    ensures SideOk(cfg, book', o.side, Pushed(cfg, book, levels, o, heap), excess, -1)
  {
    var i, heap' := o.price - cfg.lower, Pushed(cfg, book, levels, o, heap);
    forall p | p in heap'
      ensures Known(cfg, o.side, p) && (excess == 0 ==> Live(cfg, book', o.side, -1, p))
    {
      assert p in heap ==> Known(cfg, o.side, p) && (excess == 0 ==> Live(cfg, book, o.side, -1, p));
    }
    forall j | 0 <= j < |book'| && Part(o.side, book'[j]) != []
      ensures cfg.lower + j in heap'
    {
      assert j != i ==> Part(o.side, book[j]) != [];
    }
  }

  /** A side does not notice a change at a level where it has neither orders nor a heap entry. */
  lemma {:induction false} SideSame(cfg: Config, book: seq<seq<Order>>, book': seq<seq<Order>>, side: Side,
                                    heap: multiset<nat>, excess: nat, dirty: int, i: nat)
    requires ValidBand(cfg) && |book| == |book'| == cfg.upper - cfg.lower + 1 && i < |book|
    requires SideOk(cfg, book, side, heap, excess, -1)
    requires forall j :: 0 <= j < |book| && j != i ==> book'[j] == book[j]
    requires Part(side, book'[i]) == [] && cfg.lower + i !in heap
    ensures SideOk(cfg, book', side, heap, excess, dirty)
  {
    forall p | p in heap && excess == 0
      ensures Live(cfg, book', side, dirty, p)
    {
      assert Live(cfg, book, side, -1, p);
    }
    forall j | 0 <= j < |book'| && Part(side, book'[j]) != []
      ensures cfg.lower + j in heap
    {
      assert Part(side, book[j]) != [];
    }
  }

  /** Adding keeps the caches right, because no entry of the other side is left at the order's price. */
  lemma {:induction false} AddCached(cfg: Config, book: seq<seq<Order>>, levels: seq<PriceQueue>,
                                     levels': seq<PriceQueue>, caches: PerSide<SideCache>, excess: PerSide<nat>,
                                     o: Order, c': SideCache)
    requires Cached(cfg, book, levels, caches, excess, -1) && |levels'| == |levels|
    requires cfg.InBand(o.price) && o.price !in caches.Of(o.side.Opposite()).heap
    requires book[o.price - cfg.lower] == [] || book[o.price - cfg.lower][0].side == o.side
    requires forall m :: 0 <= m < |levels| ==> levels'[m].heapEntry == (m == o.price - cfg.lower || levels[m].heapEntry)
    requires c'.heap == Pushed(cfg, book, levels, o, caches.Of(o.side).heap)
    ensures var i := o.price - cfg.lower;
            Cached(cfg, book[i := book[i] + [o]], levels', caches.With(o.side, c'), excess, -1)
  {
    assert UnlockCaches(0);
    var i, heap, opp := o.price - cfg.lower, caches.Of(o.side).heap, o.side.Opposite();
    var book' := book[i := book[i] + [o]];
    assert book[i] != [] ==> Part(o.side, book[i]) != [] && cfg.lower + i in heap;
    FlagsAdd(cfg, book, levels, levels', caches, o, c');
    SideAdd(cfg, book, book', levels, heap, excess.Of(o.side), o);
    SideSame(cfg, book, book', opp, caches.Of(opp).heap, excess.Of(opp), -1, i);
  }

  // ----- Removing and reducing an order ----------------------------------------------------

  lemma {:induction false} TidyRemove(price: int, q: seq<Order>, k: nat)
    requires TidyLevel(price, q) && k < |q|
    ensures var q' := Remove(q, k);
            && TidyLevel(price, q') && q' == q[..k] + [] + q[k + 1..]
            && Part(q[0].side, q') == q' && Part(q[0].side.Opposite(), q') == []
  {
    var q' := Remove(q, k);
    assert forall j :: 0 <= j < |q'| ==> q'[j] == q[if j < k then j else j + 1];
  }

  lemma {:induction false} RemoveFlat(lower: nat, book: seq<seq<Order>>, i: nat, k: nat)
    requires Tidy(lower, book) && i < |book| && k < |book[i]|
    ensures var o := book[i][k];
            var book' := book[i := Remove(book[i], k)];
            && Tidy(lower, book') && o.side == book[i][0].side
            && Flat(o.side, book) == Ahead(o.side, book, i, k) + [o] + Behind(o.side, book, i, k)
            && Flat(o.side, book') == Ahead(o.side, book, i, k) + Behind(o.side, book, i, k)
            && Flat(o.side.Opposite(), book') == Flat(o.side.Opposite(), book)
  {
    assert TidyAt(lower, book, i);
    var o, q' := book[i][k], Remove(book[i], k);
    TidyRemove(lower + i, book[i], k);
    TidyUpdate(lower, book, i, q');
    FlatSame(o.side.Opposite(), book, i, q');
    FlatAt(o.side, book, i, k);
    FlatReplace(o.side, book, i, k, []);
    assert Ahead(o.side, book, i, k) + [] == Ahead(o.side, book, i, k);
  }

  lemma {:induction false} SpellsRemove(cfg: Config, book: seq<seq<Order>>, resting: Book, i: nat, k: nat)
    requires Spells(cfg, book, resting) && i < |book| && k < |book[i]|
    ensures var o, q' := book[i][k], Remove(book[i], k);
            && o.side == book[i][0].side && o.price == cfg.lower + i && Part(o.side, q') == q'
            && var a, b := Ahead(o.side, book, i, k), Behind(o.side, book, i, k);
            resting.Of(o.side) == a + [o] + b && Spells(cfg, book[i := q'], resting.With(o.side, a + b))
  {
    assert UnlockSpells(0);
    assert TidyAt(cfg.lower, book, i);
    TidyRemove(cfg.lower + i, book[i], k);
    RemoveFlat(cfg.lower, book, i, k);
  }

  lemma {:induction false} BooksRemove(cfg: Config, resting: Book, ids: set<nat>, qty: PerSide<nat>, o: Order,
                                       a: seq<Order>, b: seq<Order>)
    requires Books(cfg, resting, ids, qty) && resting.Of(o.side) == a + [o] + b
    ensures var s, opp := resting.Of(o.side), resting.Of(o.side.Opposite());
            && 1 <= o.quantity <= qty.Of(o.side) && o.id in ids
            && Without(s, o.id) == a + b && QtyOf(s, o.id) == o.quantity
            && Without(opp, o.id) == opp && QtyOf(opp, o.id) == 0
            && Books(cfg, resting.With(o.side, a + b), ids - {o.id}, qty.With(o.side, qty.Of(o.side) - o.quantity))
  {
    assert UnlockBooks(0);
    RestingRemove(cfg, resting, o, a, b);
    PriceTime.WithoutAt(cfg, o.side, a, o, b);
  }

  /** The same on the lists. */
  lemma {:induction false} RestingRemove(cfg: Config, resting: Book, o: Order, a: seq<Order>, b: seq<Order>)
    requires Orderly(cfg, resting) && resting.Of(o.side) == a + [o] + b
    ensures var s, opp := resting.Of(o.side), resting.Of(o.side.Opposite());
            && o.quantity >= 1 && Without(s, o.id) == a + b && QtyOf(s, o.id) == o.quantity
               && SumQty(s) == SumQty(a + b) + o.quantity
            && Without(opp, o.id) == opp && QtyOf(opp, o.id) == 0
            && Orderly(cfg, resting.With(o.side, a + b))
            && Ids(a + b) + Ids(opp) == Ids(s) + Ids(opp) - {o.id}
  {
    var s, opp := resting.Of(o.side), resting.Of(o.side.Opposite());
    PriceTime.WithoutAt(cfg, o.side, a, o, b);
    PriceTime.WithoutKeeps(cfg, o.side, s, o.id);
    WithoutAbsent(opp, o.id);
    PriceTime.WithoutBook(cfg, resting, o.id);
    LadderMember(cfg, o.side, s, |a|);
  }

  lemma {:induction false} LadderMember(cfg: Config, side: Side, s: seq<Order>, k: nat)
    requires Ladder(cfg, side, s) && k < |s|
    ensures s[k].quantity >= 1 && s[k].side == side && cfg.InBand(s[k].price)
    decreases k
  {
    if k > 0 {
      LadderMember(cfg, side, s[1..], k - 1);
    }
  }

  lemma {:induction false} SideRemove(cfg: Config, book: seq<seq<Order>>, book': seq<seq<Order>>, side: Side,
                                      heap: multiset<nat>, excess: nat, excess': nat, dirty: int, i: nat)
    requires ValidBand(cfg) && |book| == |book'| == cfg.upper - cfg.lower + 1 && i < |book|
    requires SideOk(cfg, book, side, heap, excess, -1)
    requires forall j :: 0 <= j < |book| && j != i ==> book'[j] == book[j]
    requires cfg.lower + i in heap && (excess' == 0 ==> excess == 0 && (book'[i] != [] || dirty == cfg.lower + i))
    ensures SideOk(cfg, book', side, heap, excess', dirty)
  {
    forall p | p in heap && excess' == 0
      ensures Live(cfg, book', side, dirty, p)
    {
      assert Live(cfg, book, side, -1, p);
    }
    forall j | 0 <= j < |book'| && Part(side, book'[j]) != []
      ensures cfg.lower + j in heap
    {
      assert j != i ==> Part(side, book[j]) != [];
    }
  }

  /**
   Removing keeps the caches right; a level that empties is dirty until its price is popped, or covered by a
   cancelled quantity.
   */
  lemma {:induction false} RemoveCached(cfg: Config, book: seq<seq<Order>>, levels: seq<PriceQueue>,
                                        levels': seq<PriceQueue>, caches: PerSide<SideCache>, excess: PerSide<nat>,
                                        excess': PerSide<nat>, dirty: int, i: nat, q': seq<Order>)
    requires Cached(cfg, book, levels, caches, excess, -1) && i < |book| && book[i] != []
    requires Part(book[i][0].side, q') == q'
    requires |levels'| == |levels| && forall m :: 0 <= m < |levels| ==> levels'[m].heapEntry == levels[m].heapEntry
    requires var side := book[i][0].side;
             && excess' == excess.With(side, excess'.Of(side))
             && (excess'.Of(side) == 0 ==> excess.Of(side) == 0 && (q' != [] || dirty == cfg.lower + i))
    ensures Cached(cfg, book[i := q'], levels', caches, excess', dirty)
  {
    assert UnlockCaches(0);
    var side, opp := book[i][0].side, book[i][0].side.Opposite();
    var book' := book[i := q'];
    assert Part(side, book[i]) != [] && cfg.lower + i in caches.Of(side).heap;
    OneHeap(cfg, levels, caches, side, cfg.lower + i);
    SideSame(cfg, book, book', opp, caches.Of(opp).heap, excess.Of(opp), dirty, i);
    SideRemove(cfg, book, book', side, caches.Of(side).heap, excess.Of(side), excess'.Of(side), dirty, i);
    forall m | 0 <= m < |levels'|
      ensures FlagAt(cfg, levels', caches, m)
    {
      assert FlagAt(cfg, levels, caches, m);
    }
  }

  lemma {:induction false} TidyReduce(price: int, q: seq<Order>, quantity: nat)
    requires TidyLevel(price, q) && q != []
    ensures var q' := q[0 := q[0].(quantity := quantity)];
            && TidyLevel(price, q') && q' == q[..0] + [q[0].(quantity := quantity)] + q[1..]
            && Part(q[0].side, q') == q' && Part(q[0].side.Opposite(), q') == []
  {
  }

  lemma {:induction false} ReduceFlat(lower: nat, book: seq<seq<Order>>, i: nat, quantity: nat)
    requires Tidy(lower, book) && i < |book| && book[i] != []
    ensures var o := book[i][0];
            var o' := o.(quantity := quantity);
            var book' := book[i := book[i][0 := o']];
            && Tidy(lower, book')
            && Flat(o.side, book) == Ahead(o.side, book, i, 0) + [o] + Behind(o.side, book, i, 0)
            && Flat(o.side, book') == Ahead(o.side, book, i, 0) + [o'] + Behind(o.side, book, i, 0)
            && Flat(o.side.Opposite(), book') == Flat(o.side.Opposite(), book)
  {
    assert TidyAt(lower, book, i);
    var o, o' := book[i][0], book[i][0].(quantity := quantity);
    var q' := book[i][0 := o'];
    TidyReduce(lower + i, book[i], quantity);
    TidyUpdate(lower, book, i, q');
    FlatSame(o.side.Opposite(), book, i, q');
    FlatAt(o.side, book, i, 0);
    FlatReplace(o.side, book, i, 0, [o']);
  }

  lemma {:induction false} SpellsReduce(cfg: Config, book: seq<seq<Order>>, resting: Book, i: nat, quantity: nat)
    requires Spells(cfg, book, resting) && i < |book| && book[i] != [] && Front(book[i][0].side, book, i) == []
    ensures var o := book[i][0];
            var o' := o.(quantity := quantity);
            && Part(o.side, book[i][0 := o']) == book[i][0 := o']
            && resting.Of(o.side) != [] && resting.Of(o.side)[0] == o
            && Spells(cfg, book[i := book[i][0 := o']], resting.With(o.side, [o'] + resting.Of(o.side)[1..]))
  {
    assert UnlockSpells(0);
    var o := book[i][0];
    ReduceFlat(cfg.lower, book, i, quantity);
    var a, b := Ahead(o.side, book, i, 0), Behind(o.side, book, i, 0);
    assert a == [];
    assert a + [o] + b == [o] + b && a + [o.(quantity := quantity)] + b == [o.(quantity := quantity)] + b;
  }

  /** A level that heads its side has nothing in front of it. */
  lemma {:induction false} SpellsFront(cfg: Config, book: seq<seq<Order>>, resting: Book, i: nat)
    requires Spells(cfg, book, resting) && i < |book| && book[i] != []
    requires var s := resting.Of(book[i][0].side); s != [] && s[0] == book[i][0]
    ensures Front(book[i][0].side, book, i) == []
  {
    assert UnlockSpells(0);
    var side := book[i][0].side;
    var f := Front(side, book, i);
    FlatSplit(side, book, i);
    assert TidyAt(cfg.lower, book, i);
    assert f != [] ==> f[0] in f && f[0] == book[i][0];
    FrontAndBack(side, cfg.lower, book, i);
  }

  lemma {:induction false} BooksReduce(cfg: Config, resting: Book, ids: set<nat>, qty: PerSide<nat>, side: Side,
                                       quantity: nat)
    requires Books(cfg, resting, ids, qty) && resting.Of(side) != [] && 1 <= quantity <= resting.Of(side)[0].quantity
    ensures var s := resting.Of(side);
            && s[0].side == side && s[0].quantity <= qty.Of(side)
            && Books(cfg, resting.With(side, [s[0].(quantity := quantity)] + s[1..]), ids,
                     qty.With(side, qty.Of(side) - (s[0].quantity - quantity)))
  {
    assert UnlockBooks(0);
    var s := resting.Of(side);
    assert s == [s[0]] + s[1..];
    RestingReduce(cfg, resting, s[0], s[1..], quantity);
  }

  lemma {:induction false} RestingReduce(cfg: Config, resting: Book, o: Order, b: seq<Order>, quantity: nat)
    requires Orderly(cfg, resting) && resting.Of(o.side) == [o] + b && quantity >= 1
    ensures var t := [o.(quantity := quantity)] + b;
            && Orderly(cfg, resting.With(o.side, t))
            && Ids(t) == Ids(resting.Of(o.side)) && SumQty(t) == quantity + SumQty(b)
               && SumQty(resting.Of(o.side)) == o.quantity + SumQty(b)
  {
    var s, t := resting.Of(o.side), [o.(quantity := quantity)] + b;
    assert s[1..] == b && t[1..] == b;
  }

  /** Read off the front of a side. */
  lemma {:induction false} BooksFront(cfg: Config, resting: Book, ids: set<nat>, qty: PerSide<nat>, side: Side)
    requires Books(cfg, resting, ids, qty)
    ensures resting.Of(side) == [] <==> qty.Of(side) == 0
    ensures resting.Of(side) != [] ==>
              var o := resting.Of(side)[0];
              && o.side == side && cfg.InBand(o.price) && o.quantity >= 1 && o.id in ids
              && resting.Of(side)[1..] == Without(resting.Of(side), o.id)
  {
    assert UnlockBooks(0);
  }

  lemma {:induction false} SpellsLevels(cfg: Config, book: seq<seq<Order>>, resting: Book)
    requires Spells(cfg, book, resting)
    ensures |book| == cfg.upper - cfg.lower + 1 && ValidBand(cfg)
    ensures forall i, k :: 0 <= i < |book| && 0 <= k < |book[i]| ==> book[i][k].price == cfg.lower + i
    ensures forall side :: resting.Of(side) == Flat(side, book)
  {
    assert UnlockSpells(0);
    forall i, k | 0 <= i < |book| && 0 <= k < |book[i]|
      ensures book[i][k].price == cfg.lower + i
    {
      assert TidyAt(cfg.lower, book, i);
    }
  }

  lemma {:induction false} BooksAbsent(cfg: Config, resting: Book, ids: set<nat>, qty: PerSide<nat>, id: nat)
    requires Books(cfg, resting, ids, qty) && id !in ids
    ensures Without(resting.bids, id) == resting.bids && Without(resting.asks, id) == resting.asks
    ensures QtyOf(resting.bids, id) == 0 && QtyOf(resting.asks, id) == 0
  {
    assert UnlockBooks(0);
    WithoutAbsent(resting.bids, id);
    WithoutAbsent(resting.asks, id);
  }

  /** Flags and heaps do not depend on the totals. */
  lemma {:induction false} TotalsOnly(cfg: Config, book: seq<seq<Order>>, levels: seq<PriceQueue>,
                                      caches: PerSide<SideCache>, caches': PerSide<SideCache>, excess: PerSide<nat>,
                                      dirty: int)
    requires caches'.buy.heap == caches.buy.heap && caches'.sell.heap == caches.sell.heap
    requires Cached(cfg, book, levels, caches, excess, dirty)
    ensures Cached(cfg, book, levels, caches', excess, dirty)
  {
    assert UnlockCaches(0);
    forall i | 0 <= i < |levels|
      ensures FlagAt(cfg, levels, caches', i)
    {
      assert FlagAt(cfg, levels, caches, i);
    }
  }

  /** Less over-count is as good, unless it vanishes while an entry is stale. */
  lemma {:induction false} LessExcess(cfg: Config, book: seq<seq<Order>>, levels: seq<PriceQueue>,
                                      caches: PerSide<SideCache>, excess: PerSide<nat>, side: Side, e: nat)
    requires Cached(cfg, book, levels, caches, excess, -1)
    requires e == 0 ==> NoStale(cfg, book, side, caches.Of(side).heap, -1)
    ensures Cached(cfg, book, levels, caches, excess.With(side, e), -1)
  {
    assert UnlockCaches(0);
  }

  /** What a caller may read off the caches. */
  lemma {:induction false} CacheFacts(cfg: Config, book: seq<seq<Order>>, levels: seq<PriceQueue>,
                                      caches: PerSide<SideCache>, excess: PerSide<nat>, dirty: int, side: Side)
    requires Cached(cfg, book, levels, caches, excess, dirty)
    ensures caches.Of(side).heap[Sentinel(cfg, side)] == 1 && FlagsOk(cfg, levels, caches)
    ensures forall p {:trigger Known(cfg, side, p)} :: p in caches.Of(side).heap ==> Known(cfg, side, p)
    ensures excess.Of(side) == 0 ==> NoStale(cfg, book, side, caches.Of(side).heap, dirty)
  {
    assert UnlockCaches(0);
  }

  /**
   Reducing an order leaves its level occupied, so no entry goes stale; the total over-counts by `e` more
   until it is lowered.
   */
  lemma {:induction false} ReduceCached(cfg: Config, book: seq<seq<Order>>, levels: seq<PriceQueue>,
                                        caches: PerSide<SideCache>, excess: PerSide<nat>, i: nat, q': seq<Order>,
                                        side: Side, e: nat)
    requires Cached(cfg, book, levels, caches, excess, -1) && i < |book| && book[i] != [] && book[i][0].side == side
    requires q' != [] && Part(side, q') == q'
    ensures Cached(cfg, book[i := q'], levels, caches, excess.With(side, excess.Of(side) + e), -1)
    ensures excess.Of(side) == 0 ==> NoStale(cfg, book[i := q'], side, caches.Of(side).heap, -1)
  {
    RemoveCached(cfg, book, levels, levels, caches, excess, excess, -1, i, q');
    CacheFacts(cfg, book[i := q'], levels, caches, excess, -1, side);
    assert UnlockCaches(0);
  }

  // ----- The empty book ---------------------------------------------------------------------

  lemma {:induction false} EmptyBook(cfg: Config, book: seq<seq<Order>>, resting: Book, qty: PerSide<nat>)
    requires ValidBand(cfg) && |book| == cfg.upper - cfg.lower + 1 && forall i :: 0 <= i < |book| ==> book[i] == []
    requires |resting.bids| == |resting.asks| == 0 && qty.buy == qty.sell == 0
    ensures Spells(cfg, book, resting) && Books(cfg, resting, {}, qty)
  {
    FlatEmpty(Buy, book);
    FlatEmpty(Sell, book);
    forall i | 0 <= i < |book|
      ensures TidyAt(cfg.lower, book, i)
    {
    }
  }

}
