/** What the trading rules guarantee over every run of submissions and cancellations. */
module PriceTime {
  import opened Market
  import opened Reference

  // ----- Insertion -------------------------------------------------------------------

  lemma {:induction false} InsertKeeps(cfg: Config, side: Side, s: seq<Order>, o: Order)
    requires Ladder(cfg, side, s)
    requires o.side == side && o.quantity >= 1 && cfg.InBand(o.price) && o.id !in Ids(s)
    ensures var t := Insert(side, s, o);
            && Ladder(cfg, side, t) && Ids(t) == Ids(s) + {o.id}
            && |t| == |s| + 1 && SumQty(t) == SumQty(s) + o.quantity
            && t[0] == if s == [] || Key(side, o.price) < Key(side, s[0].price) then o else s[0]
    decreases |s|
  {
    if s == [] || Key(side, o.price) < Key(side, s[0].price) {
      assert ([o] + s)[1..] == s;
    } else {
      InsertKeeps(cfg, side, s[1..], o);
      var t := Insert(side, s[1..], o);
      assert ([s[0]] + t)[1..] == t;
    }
  }

  // ----- Removal ---------------------------------------------------------------------

  lemma {:induction false} WithoutKeeps(cfg: Config, side: Side, s: seq<Order>, id: nat)
    requires Ladder(cfg, side, s)
    ensures var t := Without(s, id);
            && Ladder(cfg, side, t) && Ids(t) == Ids(s) - {id}
            && |t| <= |s| && SumQty(s) == SumQty(t) + QtyOf(s, id)
            && (t != [] ==> Key(side, s[0].price) <= Key(side, t[0].price))
    decreases |s|
  {
    if s != [] && s[0].id != id {
      WithoutKeeps(cfg, side, s[1..], id);
      var t := Without(s[1..], id);
      assert ([s[0]] + t)[1..] == t;
    }
  }

  lemma {:induction false} IdsConcat(a: seq<Order>, b: seq<Order>)
    ensures Ids(a + b) == Ids(a) + Ids(b)
  {
    if a == [] {
      assert a + b == b;
    } else {
      assert (a + b)[1..] == a[1..] + b;
      IdsConcat(a[1..], b);
    }
  }

  /** An id occurs once, so removing it removes exactly the order that carries it. */
  lemma {:induction false} WithoutAt(cfg: Config, side: Side, a: seq<Order>, o: Order, b: seq<Order>)
    requires Ladder(cfg, side, a + [o] + b)
    ensures Without(a + [o] + b, o.id) == a + b && QtyOf(a + [o] + b, o.id) == o.quantity && o.id in Ids(a + [o] + b)
    decreases |a|
  {
    IdsConcat(a + [o], b);
    IdsConcat(a, [o]);
    if a == [] {
      assert a + [o] + b == [o] + b;
    } else {
      assert (a + [o] + b)[1..] == a[1..] + [o] + b;
      WithoutAt(cfg, side, a[1..], o, b);
      assert a + b == [a[0]] + (a[1..] + b);
    }
  }

  // ----- Matching ----------------------------------------------------------------------

  lemma {:induction false} MatchKeeps(cfg: Config, taker: Order, makers: seq<Order>, tid: nat)
    requires Ladder(cfg, taker.side.Opposite(), makers)
    ensures var r := Match(taker, makers, tid);
            && Ladder(cfg, taker.side.Opposite(), r.makers) && Ids(r.makers) <= Ids(makers) && |r.makers| <= |makers|
            && (r.makers != [] ==>
                  Key(taker.side.Opposite(), makers[0].price) <= Key(taker.side.Opposite(), r.makers[0].price))
            && (r.remaining == 0 || r.makers == [] || !CanTrade(taker, r.makers[0].price))
    decreases |makers|
  {
    if taker.quantity == 0 || makers == [] || !CanTrade(taker, makers[0].price) {
    } else if makers[0].quantity > taker.quantity {
      assert Match(taker, makers, tid).makers[1..] == makers[1..];
    } else {
      MatchKeeps(cfg, taker.(quantity := taker.quantity - makers[0].quantity), makers[1..], tid + 1);
    }
  }

  /** Trades carry consecutive ids and resting prices within the taker's limit, and get no better as it eats deeper. */
  ghost predicate FairTrades(cfg: Config, taker: Order, ts: seq<Trade>, tid: nat) {
    && (forall i :: 0 <= i < |ts| ==>
          && ts[i].id == tid + i && ts[i].quantity >= 1 && cfg.InBand(ts[i].price)
          && (taker.execution == MarketOrder
              || if taker.side == Buy then ts[i].price <= taker.price else ts[i].price >= taker.price))
    && (forall i :: 0 < i < |ts| ==>
          if taker.side == Buy then ts[i - 1].price <= ts[i].price else ts[i - 1].price >= ts[i].price)
  }

  lemma {:induction false} FairOneMore(cfg: Config, taker: Order, t: Trade, ts: seq<Trade>, tid: nat)
    requires FairTrades(cfg, taker, ts, tid + 1) && FairTrades(cfg, taker, [t], tid)
    requires ts != [] ==> if taker.side == Buy then t.price <= ts[0].price else t.price >= ts[0].price
    ensures FairTrades(cfg, taker, [t] + ts, tid)
  {
    var all := [t] + ts;
    assert [t][0] == t && forall i :: 0 < i < |all| ==> all[i] == ts[i - 1];
  }

  lemma {:induction false} MatchIsFair(cfg: Config, taker: Order, makers: seq<Order>, tid: nat)
    requires Ladder(cfg, taker.side.Opposite(), makers)
    ensures var ts := Match(taker, makers, tid).trades;
            FairTrades(cfg, taker, ts, tid) && (ts != [] ==> makers != [] && ts[0].price == makers[0].price)
    decreases |makers|
  {
    if taker.quantity == 0 || makers == [] || !CanTrade(taker, makers[0].price) || makers[0].quantity > taker.quantity {
    } else {
      var taker', t := taker.(quantity := taker.quantity - makers[0].quantity),
                       MakeTrade(tid, taker, makers[0], makers[0].quantity);
      var ts := Match(taker', makers[1..], tid + 1).trades;
      MatchIsFair(cfg, taker', makers[1..], tid + 1);
      assert FairTrades(cfg, taker, ts, tid + 1);
      FairOneMore(cfg, taker, t, ts, tid);
    }
  }

  // ----- One step -----------------------------------------------------------------------

  lemma {:induction false} InsertedBook(cfg: Config, b: Book, o: Order)
    requires Orderly(cfg, b)
    requires o.quantity >= 1 && cfg.InBand(o.price) && o.id !in Ids(b.bids) && o.id !in Ids(b.asks)
    requires var opp := b.Of(o.side.Opposite()); opp == [] || !Crosses(o.side, o.price, opp[0].price)
    ensures var t := Insert(o.side, b.Of(o.side), o);
            && Orderly(cfg, b.With(o.side, t))
            && |t| == |b.Of(o.side)| + 1 && SumQty(t) == SumQty(b.Of(o.side)) + o.quantity
            && Ids(t) == Ids(b.Of(o.side)) + {o.id}
  {
    InsertKeeps(cfg, o.side, b.Of(o.side), o);
  }

  lemma {:induction false} RestSettles(cfg: Config, st: State, o: Order)
    requires SoundWith(cfg, st, o.side, o.quantity)
    requires o.quantity >= 1 && cfg.InBand(o.price) && o.id !in Ids(st.book.bids) && o.id !in Ids(st.book.asks)
    requires var opp := st.book.Of(o.side.Opposite()); opp == [] || !Crosses(o.side, o.price, opp[0].price)
    ensures SoundWith(cfg, Rest(cfg, st, o), o.side, 0)
  {
    if st.book.Size() < cfg.capacity {
      InsertedBook(cfg, st.book, o);
    }
  }

  lemma {:induction false} TradesSettle(cfg: Config, st: State, o: Order)
    requires SoundWith(cfg, st, o.side, o.quantity)
    ensures SoundWith(cfg, Trades(st, o), o.side, Left(st, o))
    ensures var b := Trades(st, o).book;
            && Ids(b.bids) <= Ids(st.book.bids) && Ids(b.asks) <= Ids(st.book.asks)
            && var opp := b.Of(o.side.Opposite());
            Left(st, o) == 0 || opp == [] || !CanTrade(o, opp[0].price)
  {
    var makers, tid := st.book.Of(o.side.Opposite()), 1 + |st.trades|;
    MatchKeeps(cfg, o, makers, tid);
    MoreTrades(cfg, o, makers, st.trades);
    MatchConserves(o, makers, tid);
    SumTradedConcat(st.trades, Match(o, makers, tid).trades);
  }

  lemma {:induction false} MoreTrades(cfg: Config, o: Order, makers: seq<Order>, ts: seq<Trade>)
    requires Ladder(cfg, o.side.Opposite(), makers) && TradesOk(cfg, ts)
    ensures TradesOk(cfg, ts + Match(o, makers, 1 + |ts|).trades)
  {
    MatchIsFair(cfg, o, makers, 1 + |ts|);
  }

  lemma {:induction false} AcceptOwes(cfg: Config, st: State, o: Order)
    requires Sound(cfg, st)
    ensures SoundWith(cfg, Accept(st, o), o.side, o.quantity) && Left(Accept(st, o), o) == Left(st, o)
  {
  }

  lemma {:induction false} DiscardSettles(cfg: Config, st: State, side: Side, q: nat)
    requires SoundWith(cfg, st, side, q)
    ensures Sound(cfg, Discard(st, side, q))
  {
  }

  /** Nothing rests of a market order, or of an order filled. */
  lemma {:induction false} FilledSettles(cfg: Config, st: State, o: Order)
    requires SoundWith(cfg, st, o.side, o.quantity) && (Left(st, o) == 0 || o.execution == MarketOrder)
    ensures Sound(cfg, if Left(st, o) == 0 then Trades(st, o) else Discard(Trades(st, o), o.side, Left(st, o)))
  {
    TradesSettle(cfg, st, o);
    if Left(st, o) > 0 {
      DiscardSettles(cfg, Trades(st, o), o.side, Left(st, o));
    }
  }

  lemma {:induction false} LeftSettles(cfg: Config, st: State, o: Order)
    requires SoundWith(cfg, st, o.side, o.quantity) && Left(st, o) > 0 && o.execution != MarketOrder
    requires cfg.InBand(o.price) && o.id !in Ids(st.book.bids) && o.id !in Ids(st.book.asks)
    ensures Sound(cfg, Rest(cfg, Trades(st, o), o.(quantity := Left(st, o))))
  {
    TradesSettle(cfg, st, o);
    RestSettles(cfg, Trades(st, o), o.(quantity := Left(st, o)));
  }

  lemma {:induction false} SubmitKeepsSound(cfg: Config, st: State, o: Order)
    requires Sound(cfg, st) && Admissible(st, Submit(o))
    ensures Sound(cfg, DoSubmit(cfg, st, o))
  {
    var st0 := Accept(st, o);
    AcceptOwes(cfg, st, o);
    if o.execution != MarketOrder && !cfg.InBand(o.price) {
      DiscardSettles(cfg, st0, o.side, o.quantity);
    } else if Left(st, o) == 0 || o.execution == MarketOrder {
      FilledSettles(cfg, st0, o);
    } else {
      LeftSettles(cfg, st0, o);
    }
  }

  lemma {:induction false} WithoutBook(cfg: Config, b: Book, id: nat)
    requires Orderly(cfg, b)
    ensures Orderly(cfg, Book(Without(b.bids, id), Without(b.asks, id)))
  {
    WithoutKeeps(cfg, Buy, b.bids, id);
    WithoutKeeps(cfg, Sell, b.asks, id);
  }

  lemma {:induction false} CancelKeepsSound(cfg: Config, st: State, id: nat)
    requires Sound(cfg, st)
    ensures Sound(cfg, DoCancel(st, id))
  {
    WithoutBook(cfg, st.book, id);
    WithoutKeeps(cfg, Buy, st.book.bids, id);
    WithoutKeeps(cfg, Sell, st.book.asks, id);
  }

  lemma {:induction false} StepKeepsSound(cfg: Config, st: State, op: Op)
    requires Sound(cfg, st) && Admissible(st, op)
    ensures Sound(cfg, Step(cfg, st, op))
  {
    match op
    case Submit(o) => SubmitKeepsSound(cfg, st, o);
    case Cancel(id) => CancelKeepsSound(cfg, st, id);
  }

  // ----- Whole runs --------------------------------------------------------------------

  /**
   Over every admissible run: the book is sorted, one-sided per price, never crossed or locked,
   within capacity; ids are unique; and on each side submitted quantity is exactly traded plus
   resting plus dropped plus cancelled.
   */
  lemma {:induction false} RunKeepsSound(cfg: Config, st: State, ops: seq<Op>)
    requires Sound(cfg, st) && AdmissibleRun(cfg, st, ops)
    ensures Sound(cfg, Run(cfg, st, ops))
    decreases |ops|
  {
    if ops != [] {
      StepKeepsSound(cfg, st, ops[0]);
      RunKeepsSound(cfg, Step(cfg, st, ops[0]), ops[1..]);
    }
  }

  lemma {:induction false} RunConcat(cfg: Config, st: State, a: seq<Op>, b: seq<Op>)
    ensures Run(cfg, st, a + b) == Run(cfg, Run(cfg, st, a), b)
    decreases |a|
  {
    if a == [] {
      assert a + b == b;
    } else {
      assert (a + b)[1..] == a[1..] + b;
      RunConcat(cfg, Step(cfg, st, a[0]), a[1..], b);
    }
  }

  lemma {:induction false} AdmissibleConcat(cfg: Config, st: State, a: seq<Op>, b: seq<Op>)
    requires AdmissibleRun(cfg, st, a + b)
    ensures AdmissibleRun(cfg, st, a) && AdmissibleRun(cfg, Run(cfg, st, a), b)
    decreases |a|
  {
    if a == [] {
      assert a + b == b;
    } else {
      assert (a + b)[1..] == a[1..] + b;
      AdmissibleConcat(cfg, Step(cfg, st, a[0]), a[1..], b);
    }
  }

  // ----- Time priority -------------------------------------------------------------------

  /** When the order with this id arrived: the position, from 1, of its last submission; 0 if there was none. */
  function Arrival(ops: seq<Op>, id: nat): (k: nat)
    ensures k <= |ops| && (k > 0 ==> ops[k - 1].Submit? && ops[k - 1].order.id == id)
  {
    if |ops| == 0 then 0
    else if ops[|ops| - 1].Submit? && ops[|ops| - 1].order.id == id then |ops|
    else Arrival(ops[..|ops| - 1], id)
  }

  /** `x` is what is left of the order submitted when it arrived. */
  predicate Arrived(ops: seq<Op>, x: Order) {
    var k := Arrival(ops, x.id);
    k > 0 && x.quantity <= ops[k - 1].order.quantity && x == ops[k - 1].order.(quantity := x.quantity)
  }

  /** Neighbours at one price stand in the order of their arrival, which was no later than `now`. */
  predicate TimeSorted(ops: seq<Op>, s: seq<Order>, now: nat) {
    s == [] ||
    (&& Arrived(ops, s[0]) && s[0].execution != MarketOrder && Arrival(ops, s[0].id) <= now
     && (|s| > 1 && s[0].price == s[1].price ==> Arrival(ops, s[0].id) < Arrival(ops, s[1].id))
     && TimeSorted(ops, s[1..], now))
  }

  lemma {:induction false} MatchKeepsTime(ops: seq<Op>, taker: Order, makers: seq<Order>, tid: nat, now: nat)
    requires TimeSorted(ops, makers, now)
    ensures TimeSorted(ops, Match(taker, makers, tid).makers, now)
    decreases |makers|
  {
    if taker.quantity == 0 || makers == [] || !CanTrade(taker, makers[0].price) {
    } else if makers[0].quantity > taker.quantity {
      assert Match(taker, makers, tid).makers[1..] == makers[1..];
    } else {
      MatchKeepsTime(ops, taker.(quantity := taker.quantity - makers[0].quantity), makers[1..], tid + 1, now);
    }
  }

  lemma {:induction false} InsertKeepsTime(ops: seq<Op>, side: Side, s: seq<Order>, o: Order, now: nat)
    requires TimeSorted(ops, s, now) && Arrived(ops, o) && o.execution != MarketOrder && now < Arrival(ops, o.id)
    ensures TimeSorted(ops, Insert(side, s, o), Arrival(ops, o.id))
    decreases |s|
  {
    if s == [] || Key(side, o.price) < Key(side, s[0].price) {
      LaterIsFine(ops, s, now, Arrival(ops, o.id));
      assert ([o] + s)[1..] == s;
    } else {
      InsertKeepsTime(ops, side, s[1..], o, now);
      var t := Insert(side, s[1..], o);
      assert ([s[0]] + t)[1..] == t;
    }
  }

  lemma {:induction false} LaterIsFine(ops: seq<Op>, s: seq<Order>, now: nat, now': nat)
    requires TimeSorted(ops, s, now) && now <= now'
    ensures TimeSorted(ops, s, now')
    decreases |s|
  {
    if s != [] {
      LaterIsFine(ops, s[1..], now, now');
    }
  }

  lemma {:induction false} WithoutKeepsTime(ops: seq<Op>, cfg: Config, side: Side, s: seq<Order>, id: nat, now: nat)
    requires Ladder(cfg, side, s) && TimeSorted(ops, s, now)
    ensures TimeSorted(ops, Without(s, id), now)
    decreases |s|
  {
    if s != [] && s[0].id != id {
      WithoutKeepsTime(ops, cfg, side, s[1..], id, now);
      var t := Without(s[1..], id);
      assert ([s[0]] + t)[1..] == t;
    }
  }

  /** A new operation moves no arrival of an order that rests: a submission brings an id that does not. */
  lemma {:induction false} NextOpIsLater(ops: seq<Op>, op: Op, s: seq<Order>, now: nat)
    requires TimeSorted(ops, s, now) && (op.Submit? ==> op.order.id !in Ids(s))
    ensures TimeSorted(ops + [op], s, now)
    decreases |s|
  {
    assert (ops + [op])[..|ops|] == ops;
    if s != [] {
      NextOpIsLater(ops, op, s[1..], now);
    }
  }

  predicate BookTimed(ops: seq<Op>, b: Book, now: nat) {
    TimeSorted(ops, b.bids, now) && TimeSorted(ops, b.asks, now)
  }

  lemma {:induction false} BookLater(ops: seq<Op>, b: Book, now: nat)
    requires BookTimed(ops, b, now)
    ensures BookTimed(ops, b, now + 1)
  {
    LaterIsFine(ops, b.bids, now, now + 1);
    LaterIsFine(ops, b.asks, now, now + 1);
  }

  lemma {:induction false} RestedKeepsTime(cfg: Config, ops: seq<Op>, b: Book, o: Order, now: nat)
    requires BookTimed(ops, b, now) && Arrived(ops, o) && o.execution != MarketOrder && Arrival(ops, o.id) == now + 1
    ensures BookTimed(ops, Rested(cfg, b, o), now + 1)
  {
    BookLater(ops, b, now);
    InsertKeepsTime(ops, o.side, b.Of(o.side), o, now);
  }

  lemma {:induction false} SubmitKeepsTime(cfg: Config, st: State, ops: seq<Op>, o: Order, now: nat)
    requires BookTimed(ops, st.book, now) && Arrival(ops, o.id) == now + 1 && ops[now].order == o
    ensures BookTimed(ops, DoSubmit(cfg, st, o).book, now + 1)
  {
    BookLater(ops, st.book, now);
    if o.execution == MarketOrder || cfg.InBand(o.price) {
      var opp, tid := o.side.Opposite(), 1 + |st.trades|;
      var r := Match(o, st.book.Of(opp), tid);
      var b := st.book.With(opp, r.makers);
      MatchKeepsTime(ops, o, st.book.Of(opp), tid, now);
      assert BookTimed(ops, b, now);
      BookLater(ops, b, now);
      MatchConserves(o, st.book.Of(opp), tid);
      if o.execution != MarketOrder {
        RestedKeepsTime(cfg, ops, b, o.(quantity := r.remaining), now);
      }
      SubmitSpec(cfg, st, o, r);
    } else {
      assert DoSubmit(cfg, st, o).book == st.book;
    }
  }

  lemma {:induction false} StepKeepsTime(cfg: Config, st: State, ops: seq<Op>, op: Op)
    requires Sound(cfg, st) && Admissible(st, op)
    requires BookTimed(ops, st.book, |ops|)
    ensures BookTimed(ops + [op], Step(cfg, st, op).book, |ops| + 1)
  {
    var now, ops' := |ops|, ops + [op];
    NextOpIsLater(ops, op, st.book.bids, now);
    NextOpIsLater(ops, op, st.book.asks, now);
    match op
    case Submit(o) => SubmitKeepsTime(cfg, st, ops', o, now);
    case Cancel(id) =>
      WithoutKeepsTime(ops', cfg, Buy, st.book.bids, id, now);
      WithoutKeepsTime(ops', cfg, Sell, st.book.asks, id, now);
      BookLater(ops', DoCancel(st, id).book, now);
  }

  /** The last step of a run, and what holds before it. */
  lemma {:induction false} LastStep(cfg: Config, st: State, ops: seq<Op>)
    requires IsStart(st) && AdmissibleRun(cfg, st, ops) && |ops| > 0
    ensures var init, op := ops[..|ops| - 1], ops[|ops| - 1];
            && AdmissibleRun(cfg, st, init) && Run(cfg, st, ops) == Step(cfg, Run(cfg, st, init), op)
            && Admissible(Run(cfg, st, init), op) && Sound(cfg, Run(cfg, st, init))
  {
    var init, op := ops[..|ops| - 1], ops[|ops| - 1];
    assert ops == init + [op] && [op][1..] == [];
    AdmissibleConcat(cfg, st, init, [op]);
    RunConcat(cfg, st, init, [op]);
    StartIsSound(cfg, st);
    RunKeepsSound(cfg, st, init);
  }

  /** The same for any step of a run. */
  lemma {:induction false} StepAt(cfg: Config, st: State, ops: seq<Op>, i: nat)
    requires IsStart(st) && AdmissibleRun(cfg, st, ops) && i < |ops|
    ensures var before, after := Run(cfg, st, ops[..i]), Run(cfg, st, ops[..i + 1]);
            after == Step(cfg, before, ops[i]) && Admissible(before, ops[i]) && Sound(cfg, before) && Sound(cfg, after)
  {
    var now := ops[..i + 1];
    assert ops == now + ops[i + 1..] && now[..i] == ops[..i];
    AdmissibleConcat(cfg, st, now, ops[i + 1..]);
    LastStep(cfg, st, now);
    StepKeepsSound(cfg, Run(cfg, st, ops[..i]), ops[i]);
  }

  lemma {:induction false} RunKeepsTime(cfg: Config, st: State, ops: seq<Op>)
    requires IsStart(st) && AdmissibleRun(cfg, st, ops)
    ensures BookTimed(ops, Run(cfg, st, ops).book, |ops|)
    decreases |ops|
  {
    if |ops| > 0 {
      var init, op := ops[..|ops| - 1], ops[|ops| - 1];
      LastStep(cfg, st, ops);
      RunKeepsTime(cfg, st, init);
      LastKeepsTime(cfg, Run(cfg, st, init), init, op, ops);
    }
  }

  lemma {:induction false} LastKeepsTime(cfg: Config, st: State, init: seq<Op>, op: Op, ops: seq<Op>)
    requires Sound(cfg, st) && Admissible(st, op) && BookTimed(init, st.book, |init|)
    requires |ops| > 0 && init == ops[..|ops| - 1] && op == ops[|ops| - 1]
    ensures BookTimed(ops, Step(cfg, st, op).book, |ops|)
  {
    assert ops == init + [op];
    StepKeepsTime(cfg, st, init, op);
  }

  // ----- The same facts for any two resting orders ---------------------------------------

  lemma {:induction false} LadderPairs(cfg: Config, side: Side, ops: seq<Op>, s: seq<Order>, now: nat, i: nat, j: nat)
    requires Ladder(cfg, side, s) && TimeSorted(ops, s, now) && i < j < |s|
    ensures Key(side, s[i].price) <= Key(side, s[j].price)
    ensures s[i].price == s[j].price ==> Arrival(ops, s[i].id) < Arrival(ops, s[j].id)
    decreases j
  {
    if i > 0 {
      LadderPairs(cfg, side, ops, s[1..], now, i - 1, j - 1);
    } else if j > 1 {
      LadderPairs(cfg, side, ops, s[1..], now, 0, j - 1);
    } else {
      assert s[1..] != [] && s[1..][0] == s[1];
    }
  }

  /**
   Every resting order is what is left of a submission of the run, none of them a market order, and any two
   of one side stand in price-time order.
   */
  ghost predicate InPriority(side: Side, ops: seq<Op>, s: seq<Order>) {
    && (forall i :: 0 <= i < |s| ==> Arrived(ops, s[i]) && s[i].side == side && s[i].execution != MarketOrder)
    && (forall i, j :: 0 <= i < j < |s| ==>
          && (if side == Buy then s[i].price >= s[j].price else s[i].price <= s[j].price)
          && (s[i].price == s[j].price ==> Arrival(ops, s[i].id) < Arrival(ops, s[j].id)))
  }

  lemma {:induction false} LadderInPriority(cfg: Config, side: Side, ops: seq<Op>, s: seq<Order>, now: nat)
    requires Ladder(cfg, side, s) && TimeSorted(ops, s, now)
    ensures InPriority(side, ops, s)
  {
    forall i, j | 0 <= i < j < |s|
      ensures if side == Buy then s[i].price >= s[j].price else s[i].price <= s[j].price
      ensures s[i].price == s[j].price ==> Arrival(ops, s[i].id) < Arrival(ops, s[j].id)
    {
      LadderPairs(cfg, side, ops, s, now, i, j);
    }
    forall i | 0 <= i < |s|
      ensures Arrived(ops, s[i]) && s[i].side == side && s[i].execution != MarketOrder
    {
      AllArrived(cfg, side, ops, s, now, i);
    }
  }

  lemma {:induction false} AllArrived(cfg: Config, side: Side, ops: seq<Op>, s: seq<Order>, now: nat, i: nat)
    requires Ladder(cfg, side, s) && TimeSorted(ops, s, now) && i < |s|
    ensures Arrived(ops, s[i]) && s[i].side == side && s[i].execution != MarketOrder
    decreases |s|
  {
    if i > 0 {
      AllArrived(cfg, side, ops, s[1..], now, i - 1);
    }
  }

  lemma {:induction false} StartIsSound(cfg: Config, st: State)
    requires IsStart(st)
    ensures Sound(cfg, st)
  {
  }

  /** Every bid is below every ask. */
  ghost predicate Apart(b: Book) {
    forall i, j :: 0 <= i < |b.bids| && 0 <= j < |b.asks| ==> b.bids[i].price < b.asks[j].price
  }

  lemma {:induction false} BookInPriority(cfg: Config, ops: seq<Op>, b: Book)
    requires Orderly(cfg, b) && BookTimed(ops, b, |ops|)
    ensures InPriority(Buy, ops, b.bids) && InPriority(Sell, ops, b.asks) && Apart(b)
  {
    LadderInPriority(cfg, Buy, ops, b.bids, |ops|);
    LadderInPriority(cfg, Sell, ops, b.asks, |ops|);
  }

  /**
   Price-time priority and no crossing, over whole runs: every resting order is what is left of one of
   the run's submissions, and no market order; better prices stand in front, equal prices in the order of
   their submission; and every bid is below every ask.
   */
  lemma {:induction false} RunIsPriceTime(cfg: Config, st: State, ops: seq<Op>)
    requires IsStart(st) && AdmissibleRun(cfg, st, ops)
    ensures var b := Run(cfg, st, ops).book;
            InPriority(Buy, ops, b.bids) && InPriority(Sell, ops, b.asks) && Apart(b)
  {
    StartIsSound(cfg, st);
    RunKeepsSound(cfg, st, ops);
    RunKeepsTime(cfg, st, ops);
    BookInPriority(cfg, ops, Run(cfg, st, ops).book);
  }
}
