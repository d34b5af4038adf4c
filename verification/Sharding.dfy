/**
 The dispatcher spreads the symbols over two group threads, each with its own queue, books and
 trade counter.  Whatever the interleaving, every symbol sees the same book and the same trades as
 it would in one engine fed in dispatch order.
 */
module Sharding {
  import opened Market
  import opened Reference
  import Bits
  import PriceTime

  const GROUPS: nat := 2
  const SLOTS: nat := 1024
  const BOOKS: nat := 2048

  // ----- Routing ------------------------------------------------------------------------------

  function GroupOf(symbol: nat): nat {
    (symbol / SLOTS) % GROUPS
  }

  function SlotOf(symbol: nat): nat {
    Bits.And(symbol, SLOTS - 1)
  }

  /** The entry of the limit tables a symbol's book was initialised from. */
  function Home(symbol: nat): nat {
    GroupOf(symbol) * SLOTS + SlotOf(symbol)
  }

  lemma {:induction false} SlotIsRemainder(symbol: nat)
    ensures SlotOf(symbol) == symbol % 1024
  {
    assert Bits.IsPowerOfTwo(32);
    assert Bits.IsPowerOfTwo(1024);
    Bits.MaskPower(symbol, 1024);
  }

  lemma {:induction false} TwoRemainders(symbol: nat)
    ensures symbol % 2048 == (symbol / 1024) % 2 * 1024 + symbol % 1024
  {
    var q := symbol / 2048;
    assert symbol / 1024 == 2 * q + (symbol / 1024) % 2;
  }

  /** Two symbols share a book exactly when they agree modulo 2048; below that, every symbol has its own. */
  lemma {:induction false} RoutingIsExact(symbol: nat)
    ensures GroupOf(symbol) < GROUPS && SlotOf(symbol) < SLOTS
    ensures Home(symbol) == symbol % BOOKS
    ensures GroupOf(symbol) == Home(symbol) / SLOTS && SlotOf(symbol) == Home(symbol) % SLOTS
  {
    SlotIsRemainder(symbol);
    TwoRemainders(symbol);
  }

  // ----- One thread of control with some books and one trade counter ---------------------------------

  datatype Cell = Cell(book: Book, buys: Ledger, sells: Ledger)

  datatype Shard = Shard(cells: seq<Cell>, trades: seq<Trade>)

  function View(sh: Shard, i: nat): State
    requires i < |sh.cells|
  {
    State(sh.cells[i].book, sh.trades, sh.cells[i].buys, sh.cells[i].sells)
  }

  /** The order is processed against book `i`; more trades are numbered by the shard's counter. */
  function Process(cfg: Config, sh: Shard, i: nat, o: Order): (sh': Shard)
    requires i < |sh.cells|
    ensures |sh'.cells| == |sh.cells| && forall j :: 0 <= j < |sh.cells| && j != i ==> sh'.cells[j] == sh.cells[j]
  {
    var st := DoSubmit(cfg, View(sh, i), o);
    Shard(sh.cells[i := Cell(st.book, st.buys, st.sells)], st.trades)
  }

  function Start(): State {
    State(Book([], []), [], Ledger(0, 0, 0), Ledger(0, 0, 0))
  }

  function Fresh(n: nat): Shard {
    Shard(seq(n, i => Cell(Book([], []), Ledger(0, 0, 0), Ledger(0, 0, 0))), [])
  }

  /** One engine with a single book fed these orders and nothing else. */
  function Alone(cfg: Config, orders: seq<Order>): State {
    if |orders| == 0 then Start() else DoSubmit(cfg, Alone(cfg, orders[..|orders| - 1]), orders[|orders| - 1])
  }

  function Submits(orders: seq<Order>): seq<Op> {
    if |orders| == 0 then [] else Submits(orders[..|orders| - 1]) + [Submit(orders[|orders| - 1])]
  }

  lemma {:induction false} AloneIsRun(cfg: Config, orders: seq<Order>)
    ensures Alone(cfg, orders) == Run(cfg, Start(), Submits(orders)) && IsStart(Start())
  {
    if |orders| > 0 {
      var init, last := orders[..|orders| - 1], [Submit(orders[|orders| - 1])];
      AloneIsRun(cfg, init);
      PriceTime.RunConcat(cfg, Start(), Submits(init), last);
      assert last[1..] == [];
    }
  }

  // ----- Trades, but for their ids ------------------------------------------------------------------

  /** The trades with their ids erased. */
  function Bare(ts: seq<Trade>): seq<Trade> {
    if |ts| == 0 then [] else Bare(ts[..|ts| - 1]) + [ts[|ts| - 1].(id := 0)]
  }

  lemma {:induction false} BareConcat(a: seq<Trade>, b: seq<Trade>)
    ensures Bare(a + b) == Bare(a) + Bare(b)
    decreases |b|
  {
    if |b| == 0 {
      assert a + b == a;
    } else {
      BareConcat(a, b[..|b| - 1]);
      assert (a + b)[..|a + b| - 1] == a + b[..|b| - 1];
    }
  }

  function TradesOf(k: nat, ts: seq<Trade>): seq<Trade> {
    if |ts| == 0 then []
    else TradesOf(k, ts[..|ts| - 1]) + if Home(ts[|ts| - 1].symbol) == k then [ts[|ts| - 1]] else []
  }

  lemma {:induction false} TradesOfConcat(k: nat, a: seq<Trade>, b: seq<Trade>)
    ensures TradesOf(k, a + b) == TradesOf(k, a) + TradesOf(k, b)
    decreases |b|
  {
    if |b| == 0 {
      assert a + b == a;
    } else {
      TradesOfConcat(k, a, b[..|b| - 1]);
      assert (a + b)[..|a + b| - 1] == a + b[..|b| - 1];
    }
  }

  lemma {:induction false} TradesOfOne(k: nat, ts: seq<Trade>, symbol: nat)
    requires forall i :: 0 <= i < |ts| ==> ts[i].symbol == symbol
    ensures TradesOf(k, ts) == if Home(symbol) == k then ts else []
    decreases |ts|
  {
    if |ts| > 0 {
      TradesOfOne(k, ts[..|ts| - 1], symbol);
    }
  }

  /** The next trade id changes nothing but the ids of the trades made. */
  lemma {:induction false} MatchIgnoresIds(taker: Order, makers: seq<Order>, tid: nat, tid': nat)
    ensures var r, r' := Match(taker, makers, tid), Match(taker, makers, tid');
            && r.remaining == r'.remaining && r.makers == r'.makers && Bare(r.trades) == Bare(r'.trades)
            && forall i :: 0 <= i < |r.trades| ==> r.trades[i].symbol == taker.symbol
    decreases |makers|
  {
    var r, r' := Match(taker, makers, tid), Match(taker, makers, tid');
    if taker.quantity == 0 || makers == [] || !CanTrade(taker, makers[0].price) {
    } else if makers[0].quantity > taker.quantity {
    } else {
      var taker', q := taker.(quantity := taker.quantity - makers[0].quantity), makers[0].quantity;
      MatchIgnoresIds(taker', makers[1..], tid + 1, tid' + 1);
      var t, t' := MakeTrade(tid, taker, makers[0], q), MakeTrade(tid', taker, makers[0], q);
      BareConcat([t], Match(taker', makers[1..], tid + 1).trades);
      BareConcat([t'], Match(taker', makers[1..], tid' + 1).trades);
    }
  }

  /** A submission after its matching. */
  function Settle(cfg: Config, st: State, o: Order, r: MatchResult): State {
    var st' := Accept(st, o).(book := st.book.With(o.side.Opposite(), r.makers), trades := st.trades + r.trades);
    if r.remaining == 0 then st'
    else if o.execution == MarketOrder then Discard(st', o.side, r.remaining)
    else Rest(cfg, st', o.(quantity := r.remaining))
  }

  lemma {:induction false} SubmitSettles(cfg: Config, st: State, o: Order)
    requires o.execution == MarketOrder || cfg.InBand(o.price)
    ensures DoSubmit(cfg, st, o) == Settle(cfg, st, o, Match(o, st.book.Of(o.side.Opposite()), 1 + |st.trades|))
  {
  }

  lemma {:induction false} SettleIgnoresHistory(cfg: Config, st: State, ts: seq<Trade>, o: Order, r: MatchResult,
                                                more: seq<Trade>)
    ensures Settle(cfg, st, o, r).trades == st.trades + r.trades
    ensures Settle(cfg, st.(trades := ts), o, r.(trades := more)) == Settle(cfg, st, o, r).(trades := ts + more)
  {
  }

  /** Two states that differ only in their trade histories step alike. */
  lemma {:induction false} SubmitIgnoresHistory(cfg: Config, st: State, ts: seq<Trade>, o: Order)
    returns (more: seq<Trade>, more': seq<Trade>)
    ensures DoSubmit(cfg, st.(trades := ts), o) == DoSubmit(cfg, st, o).(trades := ts + more')
    ensures DoSubmit(cfg, st, o).trades == st.trades + more && Bare(more) == Bare(more')
    ensures (forall i :: 0 <= i < |more| ==> more[i].symbol == o.symbol) && forall i :: 0 <= i < |more'| ==>
            more'[i].symbol == o.symbol
  {
    if o.execution != MarketOrder && !cfg.InBand(o.price) {
      more, more' := [], [];
    } else {
      var makers := st.book.Of(o.side.Opposite());
      var r, r' := Match(o, makers, 1 + |st.trades|), Match(o, makers, 1 + |ts|);
      MatchIgnoresIds(o, makers, 1 + |st.trades|, 1 + |ts|);
      MatchIgnoresIds(o, makers, 1 + |ts|, 1 + |st.trades|);
      more, more' := r.trades, r'.trades;
      SubmitSettles(cfg, st, o);
      SubmitSettles(cfg, st.(trades := ts), o);
      SettleIgnoresHistory(cfg, st, ts, o, r, more');
      assert r' == r.(trades := more');
    }
  }

  // ----- One book of a shard ------------------------------------------------------------------------

  /** Book `i` of the shard, with the trades of table entry `k`, is what `orders` alone would have produced. */
  ghost predicate Agrees(cfg: Config, sh: Shard, i: nat, k: nat, orders: seq<Order>)
  {
    && i < |sh.cells|
    && var st := Alone(cfg, orders);
       && sh.cells[i] == Cell(st.book, st.buys, st.sells)
       && Bare(TradesOf(k, sh.trades)) == Bare(st.trades)
  }

  /** Processing an order of book `i`. */
  lemma {:induction false} ProcessOwn(cfg: Config, sh: Shard, i: nat, k: nat, orders: seq<Order>, o: Order)
    requires Agrees(cfg, sh, i, k, orders) && Home(o.symbol) == k
    ensures Agrees(cfg, Process(cfg, sh, i, o), i, k, orders + [o])
  {
    var st := Alone(cfg, orders);
    assert (orders + [o])[..|orders|] == orders;
    var more, more' := SubmitIgnoresHistory(cfg, st, sh.trades, o);
    assert View(sh, i) == st.(trades := sh.trades);
    TradesOfConcat(k, sh.trades, more');
    TradesOfOne(k, more', o.symbol);
    BareConcat(TradesOf(k, sh.trades), more');
    BareConcat(st.trades, more);
  }

  /** Processing an order of another book. */
  lemma {:induction false} ProcessOther(cfg: Config, sh: Shard, i: nat, k: nat, orders: seq<Order>, cfg': Config,
                                        j: nat, o: Order)
    requires Agrees(cfg, sh, i, k, orders) && j < |sh.cells| && j != i && Home(o.symbol) != k
    ensures Agrees(cfg, Process(cfg', sh, j, o), i, k, orders)
  {
    var more, more' := SubmitIgnoresHistory(cfg', View(sh, j), sh.trades, o);
    assert View(sh, j) == View(sh, j).(trades := sh.trades);
    TradesOfConcat(k, sh.trades, more);
    TradesOfOne(k, more, o.symbol);
    assert TradesOf(k, sh.trades) + [] == TradesOf(k, sh.trades);
  }

  // ----- Orders by destination ----------------------------------------------------------------------

  function OrdersOf(k: nat, os: seq<Order>): seq<Order> {
    if |os| == 0 then []
    else OrdersOf(k, os[..|os| - 1]) + if Home(os[|os| - 1].symbol) == k then [os[|os| - 1]] else []
  }

  function ForGroup(g: nat, os: seq<Order>): seq<Order> {
    if |os| == 0 then []
    else ForGroup(g, os[..|os| - 1]) + if GroupOf(os[|os| - 1].symbol) == g then [os[|os| - 1]] else []
  }

  /** Splitting by group loses nothing of a book's orders, nor their order. */
  lemma {:induction false} GroupThenBook(k: nat, os: seq<Order>)
    requires k < BOOKS
    ensures OrdersOf(k, ForGroup(k / SLOTS, os)) == OrdersOf(k, os)
    decreases |os|
  {
    if |os| > 0 {
      var init, o := os[..|os| - 1], os[|os| - 1];
      GroupThenBook(k, init);
      RoutingIsExact(o.symbol);
      assert (ForGroup(k / SLOTS, init) + [o])[..|ForGroup(k / SLOTS, init)|] == ForGroup(k / SLOTS, init);
      assert ForGroup(k / SLOTS, init) + [] == ForGroup(k / SLOTS, init);
      assert OrdersOf(k, init) + [] == OrdersOf(k, init);
    }
  }

  lemma {:induction false} ForGroupHome(g: nat, os: seq<Order>)
    ensures forall i :: 0 <= i < |ForGroup(g, os)| ==> GroupOf(ForGroup(g, os)[i].symbol) == g
    decreases |os|
  {
    if |os| > 0 {
      ForGroupHome(g, os[..|os| - 1]);
    }
  }

  // ----- One engine for all symbols ----------------------------------------------------------------

  /** One thread that owns all the books and is fed `log` in order. */
  function Sequential(cfgs: seq<Config>, log: seq<Order>): (sh: Shard)
    requires |cfgs| == BOOKS
    ensures |sh.cells| == BOOKS
  {
    if |log| == 0 then Fresh(BOOKS)
    else
      var o := log[|log| - 1];
      RoutingIsExact(o.symbol);
      Process(cfgs[Home(o.symbol)], Sequential(cfgs, log[..|log| - 1]), Home(o.symbol), o)
  }

  lemma {:induction false} SequentialAgrees(cfgs: seq<Config>, log: seq<Order>, k: nat)
    requires |cfgs| == BOOKS && k < BOOKS
    ensures Agrees(cfgs[k], Sequential(cfgs, log), k, k, OrdersOf(k, log))
    decreases |log|
  {
    if |log| > 0 {
      var init, o := log[..|log| - 1], log[|log| - 1];
      var sh, j := Sequential(cfgs, init), Home(o.symbol);
      RoutingIsExact(o.symbol);
      SequentialAgrees(cfgs, init, k);
      if j == k {
        ProcessOwn(cfgs[k], sh, k, k, OrdersOf(k, init), o);
      } else {
        ProcessOther(cfgs[k], sh, k, k, OrdersOf(k, init), cfgs[j], j, o);
        assert OrdersOf(k, init) + [] == OrdersOf(k, init);
      }
    }
  }

  // ----- The dispatcher and the group threads --------------------------------------------------------

  /** A group: its queue, what it has taken from it so far, its books and its trades. */
  datatype Group = Group(queue: seq<Order>, taken: seq<Order>, shard: Shard)

  /** `log` lists the orders dispatched so far. */
  datatype System = System(groups: seq<Group>, log: seq<Order>)

  /** A try of the dispatcher to enqueue an order, or one pass of a group thread's loop. */
  datatype Move = Dispatch(order: Order) | Work(group: nat)

  predicate Shaped(s: System) {
    |s.groups| == GROUPS && forall g :: 0 <= g < GROUPS ==> |s.groups[g].shard.cells| == SLOTS
  }

  function Enqueue(s: System, o: Order, capacity: nat): (s': System)
    requires Shaped(s)
    ensures Shaped(s')
  {
    RoutingIsExact(o.symbol);
    var g := s.groups[GroupOf(o.symbol)];
    if |g.queue| < capacity then System(s.groups[GroupOf(o.symbol) := g.(queue := g.queue + [o])], s.log + [o]) else s
  }

  function Consume(cfgs: seq<Config>, s: System, n: nat): (s': System)
    requires Shaped(s) && |cfgs| == BOOKS
    ensures Shaped(s')
  {
    if n < GROUPS && s.groups[n].queue != [] then
      var g := s.groups[n];
      var o := g.queue[0];
      RoutingIsExact(o.symbol);
      var cfg := cfgs[n * SLOTS + SlotOf(o.symbol)];
      System(s.groups[n := Group(g.queue[1..], g.taken + [o], Process(cfg, g.shard, SlotOf(o.symbol), o))], s.log)
    else s
  }

  function Advance(cfgs: seq<Config>, s: System, m: Move, capacity: nat): (s': System)
    requires Shaped(s) && |cfgs| == BOOKS
    ensures Shaped(s')
  {
    match m
    case Dispatch(o) => Enqueue(s, o, capacity)
    case Work(n) => Consume(cfgs, s, n)
  }

  function Boot(): (s: System)
    ensures Shaped(s)
  {
    System(seq(GROUPS, i => Group([], [], Fresh(SLOTS))), [])
  }

  /** The system after a schedule, the last move last. */
  function After(cfgs: seq<Config>, moves: seq<Move>, capacity: nat): (s: System)
    requires |cfgs| == BOOKS
    ensures Shaped(s)
  {
    if |moves| == 0 then Boot() else Advance(cfgs, After(cfgs, moves[..|moves| - 1], capacity), moves[|moves| - 1],
      capacity)
  }

  /** Group `n` has taken, or still has queued, exactly the orders dispatched to it, in dispatch order. */
  predicate Routed(s: System, n: nat)
    requires Shaped(s) && n < GROUPS
  {
    ForGroup(n, s.log) == s.groups[n].taken + s.groups[n].queue
  }

  /** Book `k` is what the orders taken for it would have produced alone. */
  ghost predicate BookOk(cfgs: seq<Config>, s: System, k: nat)
    requires Shaped(s) && |cfgs| == BOOKS && k < BOOKS
  {
    var g := s.groups[k / SLOTS];
    Agrees(cfgs[k], g.shard, k % SLOTS, k, OrdersOf(k, g.taken))
  }

  lemma {:induction false} ForGroupMore(n: nat, log: seq<Order>, o: Order)
    ensures ForGroup(n, log + [o]) == ForGroup(n, log) + if GroupOf(o.symbol) == n then [o] else []
  {
    assert (log + [o])[..|log|] == log;
  }

  lemma {:induction false} EnqueueRoutes(s: System, o: Order, capacity: nat, n: nat)
    requires Shaped(s) && n < GROUPS && Routed(s, n)
    ensures Routed(Enqueue(s, o, capacity), n)
  {
    var g := s.groups[n];
    ForGroupMore(n, s.log, o);
    assert g.taken + g.queue + [] == g.taken + g.queue;
    assert g.taken + (g.queue + [o]) == g.taken + g.queue + [o];
  }

  /** Dispatching touches no book. */
  lemma {:induction false} EnqueueShards(s: System, o: Order, capacity: nat, n: nat)
    requires Shaped(s) && n < GROUPS
    ensures var g, g' := s.groups[n], Enqueue(s, o, capacity).groups[n]; g'.taken == g.taken && g'.shard == g.shard
  {
  }

  lemma {:induction false} EnqueueKeeps(cfgs: seq<Config>, s: System, o: Order, capacity: nat, n: nat, k: nat)
    requires Shaped(s) && |cfgs| == BOOKS && n < GROUPS && k < BOOKS && Routed(s, n) && BookOk(cfgs, s, k)
    ensures var s' := Enqueue(s, o, capacity); Routed(s', n) && BookOk(cfgs, s', k)
  {
    EnqueueRoutes(s, o, capacity, n);
    EnqueueShards(s, o, capacity, k / SLOTS);
  }

  lemma {:induction false} ConsumeRoutes(cfgs: seq<Config>, s: System, m: nat, n: nat)
    requires Shaped(s) && |cfgs| == BOOKS && n < GROUPS && Routed(s, n)
    ensures Routed(Consume(cfgs, s, m), n)
  {
    if m == n && s.groups[n].queue != [] {
      var g := s.groups[n];
      assert g.taken + g.queue == g.taken + [g.queue[0]] + g.queue[1..];
    }
  }

  /** An order of the same group either belongs to book `k` or leaves it alone. */
  lemma {:induction false} GroupTrades(cfgs: seq<Config>, g: Group, k: nat, o: Order)
    requires |cfgs| == BOOKS && k < BOOKS && |g.shard.cells| == SLOTS && GroupOf(o.symbol) == k / SLOTS
    requires Agrees(cfgs[k], g.shard, k % SLOTS, k, OrdersOf(k, g.taken))
    ensures SlotOf(o.symbol) < SLOTS && Home(o.symbol) < BOOKS
    ensures Agrees(cfgs[k], Process(cfgs[Home(o.symbol)], g.shard, SlotOf(o.symbol), o), k % SLOTS, k,
            OrdersOf(k, g.taken + [o]))
  {
    RoutingIsExact(o.symbol);
    assert (g.taken + [o])[..|g.taken|] == g.taken;
    var h, j := Home(o.symbol), SlotOf(o.symbol);
    if h == k {
      ProcessOwn(cfgs[k], g.shard, j, k, OrdersOf(k, g.taken), o);
    } else {
      assert j != k % SLOTS;
      ProcessOther(cfgs[k], g.shard, k % SLOTS, k, OrdersOf(k, g.taken), cfgs[h], j, o);
      assert OrdersOf(k, g.taken) + [] == OrdersOf(k, g.taken);
    }
  }

  lemma {:induction false} QueueIsOurs(s: System, n: nat)
    requires Shaped(s) && n < GROUPS && Routed(s, n) && s.groups[n].queue != []
    ensures GroupOf(s.groups[n].queue[0].symbol) == n
  {
    var g := s.groups[n];
    ForGroupHome(n, s.log);
    assert ForGroup(n, s.log)[|g.taken|] == g.queue[0];
  }

  /** What a group does with the front of its queue. */
  function Taken(cfgs: seq<Config>, g: Group): Group
    requires |cfgs| == BOOKS && |g.shard.cells| == SLOTS && g.queue != []
  {
    var o := g.queue[0];
    RoutingIsExact(o.symbol);
    Group(g.queue[1..], g.taken + [o], Process(cfgs[Home(o.symbol)], g.shard, SlotOf(o.symbol), o))
  }

  /** The book a group looks up is the one the dispatcher meant. */
  lemma {:induction false} ConsumeIsTaken(cfgs: seq<Config>, s: System, n: nat)
    requires Shaped(s) && |cfgs| == BOOKS && n < GROUPS && Routed(s, n) && s.groups[n].queue != []
    ensures Consume(cfgs, s, n) == s.(groups := s.groups[n := Taken(cfgs, s.groups[n])])
  {
    QueueIsOurs(s, n);
    assert Home(s.groups[n].queue[0].symbol) == n * SLOTS + SlotOf(s.groups[n].queue[0].symbol);
  }

  lemma {:induction false} ConsumeTrades(cfgs: seq<Config>, s: System, n: nat, k: nat)
    requires Shaped(s) && |cfgs| == BOOKS && n < GROUPS && k < BOOKS && Routed(s, n) && BookOk(cfgs, s, k)
    ensures BookOk(cfgs, Consume(cfgs, s, n), k)
  {
    var g, m := s.groups[n], k / SLOTS;
    if g.queue != [] {
      ConsumeIsTaken(cfgs, s, n);
      if n == m {
        QueueIsOurs(s, n);
        GroupTrades(cfgs, g, k, g.queue[0]);
      }
    }
  }

  /** What every schedule keeps. */
  lemma {:induction false} AfterKeeps(cfgs: seq<Config>, moves: seq<Move>, capacity: nat, n: nat, k: nat)
    requires |cfgs| == BOOKS && n < GROUPS && k < BOOKS
    ensures var s := After(cfgs, moves, capacity); Routed(s, n) && BookOk(cfgs, s, k)
    decreases |moves|
  {
    if |moves| > 0 {
      var init := moves[..|moves| - 1];
      AfterKeeps(cfgs, init, capacity, n, k);
      var s := After(cfgs, init, capacity);
      match moves[|moves| - 1]
      case Dispatch(o) => EnqueueKeeps(cfgs, s, o, capacity, n, k);
      case Work(m) =>
        ConsumeRoutes(cfgs, s, m, n);
        if m < GROUPS {
          AfterKeeps(cfgs, init, capacity, m, k);
          ConsumeTrades(cfgs, s, m, k);
        }
    }
  }

  /**
   Sharding is invisible: once a symbol's group has emptied its queue, the symbol's book and its
   trades, but for their ids, are those of the single engine fed in dispatch order.
   */
  lemma {:induction false} ShardingIsInvisible(cfgs: seq<Config>, moves: seq<Move>, capacity: nat, k: nat)
    requires |cfgs| == BOOKS && k < BOOKS
    requires After(cfgs, moves, capacity).groups[k / SLOTS].queue == []
    ensures var s := After(cfgs, moves, capacity);
            var sharded, single := s.groups[k / SLOTS].shard, Sequential(cfgs, s.log);
            && sharded.cells[k % SLOTS] == single.cells[k]
            && Bare(TradesOf(k, sharded.trades)) == Bare(TradesOf(k, single.trades))
            && single.cells[k].book == Run(cfgs[k], Start(), Submits(OrdersOf(k, s.log))).book
  {
    var s := After(cfgs, moves, capacity);
    AfterKeeps(cfgs, moves, capacity, k / SLOTS, k);
    SequentialAgrees(cfgs, s.log, k);
    var g := s.groups[k / SLOTS];
    assert g.taken + [] == g.taken;
    GroupThenBook(k, s.log);
    AloneIsRun(cfgs[k], OrdersOf(k, s.log));
  }

  // ----- Nothing is held up ---------------------------------------------------------------------------

  function Works(n: nat, k: nat): seq<Move> {
    if k == 0 then [] else Works(n, k - 1) + [Work(n)]
  }

  lemma {:induction false} AfterMore(cfgs: seq<Config>, moves: seq<Move>, m: Move, capacity: nat)
    requires |cfgs| == BOOKS
    ensures var s := After(cfgs, moves, capacity);
            var s' := After(cfgs, moves + [m], capacity);
            s' == if m.Work? then Consume(cfgs, s, m.group) else Enqueue(s, m.order, capacity)
  {
    assert (moves + [m])[..|moves|] == moves;
  }

  /** Each pass of a group's loop takes the front of its queue. */
  lemma {:induction false} ConsumeTakes(cfgs: seq<Config>, s: System, n: nat)
    requires Shaped(s) && |cfgs| == BOOKS && n < GROUPS && s.groups[n].queue != []
    ensures var g, g' := s.groups[n], Consume(cfgs, s, n).groups[n];
            && Consume(cfgs, s, n).log == s.log && g'.queue == g.queue[1..] && g'.taken == g.taken + [g.queue[0]]
  {
  }

  /** `k` passes in a row. */
  function Worked(cfgs: seq<Config>, s: System, n: nat, k: nat): (s': System)
    requires Shaped(s) && |cfgs| == BOOKS
    ensures Shaped(s')
  {
    if k == 0 then s else Consume(cfgs, Worked(cfgs, s, n, k - 1), n)
  }

  lemma {:induction false} WorkedTakes(cfgs: seq<Config>, s: System, n: nat, k: nat)
    requires Shaped(s) && |cfgs| == BOOKS && n < GROUPS && k <= |s.groups[n].queue|
    ensures var g, g' := s.groups[n], Worked(cfgs, s, n, k).groups[n];
            && Worked(cfgs, s, n, k).log == s.log
            && g'.queue == g.queue[k..] && g'.taken == g.taken + g.queue[..k]
    decreases k
  {
    var g := s.groups[n];
    if k == 0 {
      assert g.taken + g.queue[..k] == g.taken;
    } else {
      WorkedTakes(cfgs, s, n, k - 1);
      ConsumeTakes(cfgs, Worked(cfgs, s, n, k - 1), n);
      assert g.queue[k - 1..][1..] == g.queue[k..];
      assert g.taken + g.queue[..k - 1] + [g.queue[k - 1]] == g.taken + g.queue[..k];
    }
  }

  lemma {:induction false} WorkMore(cfgs: seq<Config>, moves: seq<Move>, capacity: nat, n: nat, k: nat)
    requires |cfgs| == BOOKS && k >= 1
    ensures After(cfgs, moves + Works(n, k), capacity)
         == Consume(cfgs, After(cfgs, moves + Works(n, k - 1), capacity), n)
  {
    var moves' := moves + Works(n, k - 1);
    assert moves + Works(n, k) == moves' + [Work(n)];
    AfterMore(cfgs, moves', Work(n), capacity);
  }

  lemma {:induction false} AfterWorks(cfgs: seq<Config>, moves: seq<Move>, capacity: nat, n: nat, k: nat)
    requires |cfgs| == BOOKS
    ensures After(cfgs, moves + Works(n, k), capacity) == Worked(cfgs, After(cfgs, moves, capacity), n, k)
    decreases k
  {
    if k == 0 {
      assert moves + Works(n, k) == moves;
    } else {
      AfterWorks(cfgs, moves, capacity, n, k - 1);
      WorkMore(cfgs, moves, capacity, n, k);
    }
  }

  /** So as many passes as a group has orders empty its queue, in order. */
  lemma {:induction false} WorkDrains(cfgs: seq<Config>, moves: seq<Move>, capacity: nat, n: nat)
    requires |cfgs| == BOOKS && n < GROUPS
    ensures var s := After(cfgs, moves, capacity);
            var s' := After(cfgs, moves + Works(n, |s.groups[n].queue|), capacity);
            && s'.log == s.log && s'.groups[n].queue == []
            && s'.groups[n].taken == s.groups[n].taken + s.groups[n].queue
  {
    var s := After(cfgs, moves, capacity);
    var queue := s.groups[n].queue;
    WorkedTakes(cfgs, s, n, |queue|);
    AfterWorks(cfgs, moves, capacity, n, |queue|);
    assert queue[|queue|..] == [] && queue[..|queue|] == queue;
  }

  /** An order is taken on exactly if its group's queue has room, and waits there behind all others. */
  lemma {:induction false} DispatchQueues(cfgs: seq<Config>, moves: seq<Move>, o: Order, capacity: nat)
    requires |cfgs| == BOOKS
    ensures GroupOf(o.symbol) < GROUPS
    ensures var s, s' := After(cfgs, moves, capacity), After(cfgs, moves + [Dispatch(o)], capacity);
            var g := GroupOf(o.symbol);
            if |s.groups[g].queue| < capacity
            then s'.log == s.log + [o] && s'.groups == s.groups[g := s.groups[g].(queue := s.groups[g].queue + [o])]
            else s' == s
  {
    RoutingIsExact(o.symbol);
    AfterMore(cfgs, moves, Dispatch(o), capacity);
  }

  /** However small the queues: all orders can be dispatched and processed. */
  lemma {:induction false} AllGetThrough(cfgs: seq<Config>, orders: seq<Order>, capacity: nat)
    returns (moves: seq<Move>)
    requires |cfgs| == BOOKS && capacity >= 1
    ensures var s := After(cfgs, moves, capacity);
            s.log == orders && forall g :: 0 <= g < GROUPS ==> s.groups[g].queue == []
    decreases |orders|
  {
    moves := [];
    if |orders| > 0 {
      var init, o := orders[..|orders| - 1], orders[|orders| - 1];
      moves := AllGetThrough(cfgs, init, capacity);
      DispatchQueues(cfgs, moves, o, capacity);
      AfterMore(cfgs, moves + [Dispatch(o)], Work(GroupOf(o.symbol)), capacity);
      moves := moves + [Dispatch(o)] + [Work(GroupOf(o.symbol))];
      assert init + [o] == orders;
    }
  }
}
