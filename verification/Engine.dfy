/** A group processor at work on one symbol: the matching loops. */
module Engine {
  import opened Market
  import opened Reference
  import opened Quotes
  import opened OrderBooks

  // ----- One round of the reference's matching ------------------------------------------

  // The switch of `Owes`, as in `Quotes`.
  ghost predicate UnlockOwes(k: int) {
    true
  }

  /** Matching `left` more units of `o` against `makers`, on top of the trades so far, ends in `goal`. */
  ghost predicate Owes(goal: MatchResult, trades: seq<Trade>, o: Order, left: nat, makers: seq<Order>) {
    forall k {:trigger UnlockOwes(k)} :: UnlockOwes(k) ==>
      var rest := Match(o.(quantity := left), makers, 1 + |trades|);
      goal == rest.(trades := trades + rest.trades)
  }

  lemma {:induction false} OwesWhole(goal: MatchResult, trades: seq<Trade>, o: Order, left: nat, makers: seq<Order>,
                                     trades': seq<Trade>)
    requires Owes(goal, trades, o, left, makers)
    requires left > 0 && makers != [] && CanTrade(o, makers[0].price) && makers[0].quantity <= left
    requires trades' == trades + [MakeTrade(1 + |trades|, o.(quantity := left), makers[0], makers[0].quantity)]
    ensures Owes(goal, trades', o, left - makers[0].quantity, makers[1..])
  {
    assert UnlockOwes(0);
    var t := MakeTrade(1 + |trades|, o, makers[0], makers[0].quantity);
    var rest := Match(o.(quantity := left - makers[0].quantity), makers[1..], 2 + |trades|);
    assert trades + ([t] + rest.trades) == trades + [t] + rest.trades;
  }

  lemma {:induction false} OwesPart(goal: MatchResult, trades: seq<Trade>, o: Order, left: nat, makers: seq<Order>,
                                    trades': seq<Trade>)
    requires Owes(goal, trades, o, left, makers)
    requires left > 0 && makers != [] && CanTrade(o, makers[0].price) && makers[0].quantity > left
    requires trades' == trades + [MakeTrade(1 + |trades|, o.(quantity := left), makers[0], left)]
    ensures Owes(goal, trades', o, 0, [makers[0].(quantity := makers[0].quantity - left)] + makers[1..])
  {
    assert UnlockOwes(0);
  }

  lemma {:induction false} OwesNothing(goal: MatchResult, trades: seq<Trade>, o: Order, left: nat, makers: seq<Order>)
    requires Owes(goal, trades, o, left, makers)
    requires left == 0 || makers == [] || !CanTrade(o, makers[0].price)
    ensures goal == MatchResult(trades, left, makers)
  {
    assert UnlockOwes(0);
    assert trades + [] == trades;
  }

  class GroupProcessor {
    const book: OrderBook
    /** The reference engine, run in lock step. */
    ghost var state: State
    /** What has been published to the trade ring, oldest first. */
    var trades: seq<Trade>
    var nextTradeId: nat
    var lastPrice: nat

    ghost predicate Valid()
      reads this, book, book.queues, book.queues.pool, book.queues.pool.nodes, book.queues.levels
    {
      && book.Valid()
      && nextTradeId == 1 + |trades|
      && lastPrice == if trades == [] then 0 else trades[|trades| - 1].price
    }

    /** The book, the published trades and the over-count of the totals are those of the reference. */
    ghost predicate Tracks(st: State)
      reads this, book
    {
      && st.book == book.resting && st.trades == trades
      && st.buys.cancelled == book.excess.buy && st.sells.cancelled == book.excess.sell
    }

    /** Valid, and in step with the reference. */
    ghost predicate InStep()
      reads this, book, book.queues, book.queues.pool, book.queues.pool.nodes, book.queues.levels
    {
      Valid() && Tracks(state)
    }

    constructor (poolSize: nat, lower: nat, upper: nat)
      requires 1 <= poolSize < 0x8000_0000 && ValidBand(Config(poolSize, lower, upper))
      ensures InStep() && IsStart(state) && book.cfg == Config(poolSize, lower, upper)
      ensures fresh(book) && fresh(book.queues) && fresh(book.queues.pool) && fresh(book.queues.pool.nodes)
      ensures fresh(book.queues.levels)
    {
      book := new OrderBook(poolSize, lower, upper);
      trades, nextTradeId, lastPrice := [], 1, 0;
      state := State(Book([], []), [], Ledger(0, 0, 0), Ledger(0, 0, 0));
    }

    method Publish(t: Trade)
      requires t.id == nextTradeId == 1 + |trades|
      modifies this`trades, this`nextTradeId, this`lastPrice
      ensures trades == old(trades) + [t] && nextTradeId == 1 + |trades| && lastPrice == t.price
    {
      trades := trades + [t];
      nextTradeId := nextTradeId + 1;
      lastPrice := t.price;
    }

    /** The loop condition on the best opposite price: within the limit, or for a market order inside the band. */
    predicate Reaches(o: Order, best: nat) {
      if o.execution == MarketOrder then book.cfg.InBand(best) else Crosses(o.side, o.price, best)
    }

    /** The loop goes on exactly as long as the reference can match. */
    lemma {:induction false} GuardIsExact(o: Order, best: nat)
      requires Valid() && book.IsBest(o.side.Opposite(), best)
      requires o.execution == MarketOrder || book.cfg.InBand(o.price)
      ensures var makers := book.resting.Of(o.side.Opposite());
              book.caches.Of(o.side.Opposite()).total > 0 && Reaches(o, best) <==>
                makers != [] && CanTrade(o, makers[0].price)
      ensures var opp := o.side.Opposite();
              o.execution != MarketOrder && !(book.caches.Of(opp).total > 0 && Reaches(o, best)) ==>
                o.price !in book.caches.Of(opp).heap
      ensures book.caches.Of(o.side.Opposite()).total > 0 && Reaches(o, best) ==>
              best != Sentinel(book.cfg, o.side.Opposite())
    {
      assert UnlockBook(0);
      var opp := o.side.Opposite();
      BooksFront(book.cfg, book.resting, book.orderMap.Keys, book.qty, opp);
      if book.caches.Of(opp).total == 0 {
        book.ZeroTotalIsClear(opp);
      }
    }

    /** Reads the order at the head of the best level. */
    method HeadOrder(side: Side, best: nat) returns (head: Order)
      requires Valid() && book.IsBest(side, best) && best != Sentinel(book.cfg, side)
      ensures book.resting.Of(side) != [] && head == book.resting.Of(side)[0] && head.price == best
      ensures head.quantity >= 1
    {
      assert UnlockBook(0);
      IndexExact(book.cfg, best);
      var i := PriceToIndex(book.cfg, best);
      book.HeadFacts(side, i);
      head := book.queues.pool.nodes[book.queues.levels[i].head].order;
    }

    /** Trades `o` whole against a bigger resting order, which keeps its place with what is left of it. */
    method FillPart(o: Order, head: Order, best: nat)
      requires Valid() && book.IsBest(o.side.Opposite(), best) && best != Sentinel(book.cfg, o.side.Opposite())
      requires book.resting.Of(o.side.Opposite()) != [] && head == book.resting.Of(o.side.Opposite())[0]
      requires head.price == best && 0 < o.quantity < head.quantity
      modifies this`trades, this`nextTradeId, this`lastPrice, book, book.queues, book.queues.pool,
               book.queues.pool.nodes, book.queues.levels
      ensures Valid() && book.excess == old(book.excess) && book.orderMap.Keys <= old(book.orderMap).Keys
      ensures trades == old(trades) + [MakeTrade(1 + |old(trades)|, o, head, o.quantity)]
      ensures var opp := o.side.Opposite();
              book.resting == old(book.resting).With(opp,
                [head.(quantity := head.quantity - o.quantity)] + old(book.resting).Of(opp)[1..])
    {
      Publish(MakeTrade(nextTradeId, o, head, o.quantity));
      IndexExact(book.cfg, best);
      book.HeadFacts(o.side.Opposite(), best - book.cfg.lower);
      var ok := book.ModifyQuantity(best, head.quantity - o.quantity);
      book.DecreaseTotal(o.side.Opposite(), o.quantity);
    }

    /** Trades the whole of the best resting order, removes it, and finds the next best price. */
    method FillWhole(o: Order, head: Order, best: nat) returns (best': nat)
      requires Valid() && book.IsBest(o.side.Opposite(), best) && best != Sentinel(book.cfg, o.side.Opposite())
      requires book.resting.Of(o.side.Opposite()) != [] && head == book.resting.Of(o.side.Opposite())[0]
      requires head.price == best && head.quantity <= o.quantity
      modifies this`trades, this`nextTradeId, this`lastPrice, book, book.queues, book.queues.pool,
               book.queues.pool.nodes, book.queues.levels
      ensures Valid() && book.excess == old(book.excess) && book.orderMap.Keys <= old(book.orderMap).Keys
      ensures book.IsBest(o.side.Opposite(), best')
      ensures trades == old(trades) + [MakeTrade(1 + |old(trades)|, o, head, head.quantity)]
      ensures var opp := o.side.Opposite();
              book.resting == old(book.resting).With(opp, old(book.resting).Of(opp)[1..])
    {
      Publish(MakeTrade(nextTradeId, o, head, head.quantity));
      book.HeadFacts(o.side.Opposite(), best - book.cfg.lower);
      var removed := book.RemoveHead(o.side.Opposite(), best);
      best' := book.BestPrice(o.side.Opposite(), best);
    }

    /** One round of the loop; it is the last one if the order is exhausted by a bigger resting order. */
    method Round(o: Order, left: nat, best: nat, ghost goal: MatchResult) returns (left': nat, best': nat, last: bool)
      requires Valid() && (o.execution == MarketOrder || book.cfg.InBand(o.price))
      requires book.IsBest(o.side.Opposite(), best)
      requires left > 0 && book.caches.Of(o.side.Opposite()).total > 0 && Reaches(o, best)
      requires Owes(goal, trades, o, left, book.resting.Of(o.side.Opposite()))
      modifies this`trades, this`nextTradeId, this`lastPrice, book, book.queues, book.queues.pool,
               book.queues.pool.nodes, book.queues.levels
      ensures Valid() && book.excess == old(book.excess) && book.orderMap.Keys <= old(book.orderMap).Keys
      ensures left' < left
      ensures if last then left' == 0 else book.IsBest(o.side.Opposite(), best')
      ensures Owes(goal, trades, o, left', book.resting.Of(o.side.Opposite()))
      ensures book.resting.Of(o.side) == old(book.resting).Of(o.side)
    {
      ghost var opp := o.side.Opposite();
      GuardIsExact(o, best);
      var head := HeadOrder(o.side.Opposite(), best);
      ghost var makers, trades0 := book.resting.Of(opp), trades;
      if head.quantity > left {
        FillPart(o.(quantity := left), head, best);
        assert book.resting.Of(opp) == [head.(quantity := head.quantity - left)] + makers[1..];
        OwesPart(goal, trades0, o, left, makers, trades);
        return 0, best, true;
      } else {
        best' := FillWhole(o.(quantity := left), head, best);
        assert book.resting.Of(opp) == makers[1..];
        OwesWhole(goal, trades0, o, left, makers, trades);
        return left - head.quantity, best', false;
      }
    }

    /**
     The matching loop shared by the four order kinds: trades against the best opposite price until
     the order is filled, the side is empty, or its best price is out of reach.
     */
    method Sweep(o: Order, ghost goal: MatchResult) returns (left: nat)
      requires Valid() && (o.execution == MarketOrder || book.cfg.InBand(o.price))
      requires Owes(goal, trades, o, o.quantity, book.resting.Of(o.side.Opposite()))
      modifies this`trades, this`nextTradeId, this`lastPrice, book, book.queues, book.queues.pool,
               book.queues.pool.nodes, book.queues.levels
      ensures Valid() && book.excess == old(book.excess) && book.orderMap.Keys <= old(book.orderMap).Keys
      ensures left == goal.remaining && trades == goal.trades
      ensures book.resting == old(book.resting).With(o.side.Opposite(), goal.makers)
      ensures left > 0 && o.execution != MarketOrder ==>
                && o.price !in book.caches.Of(o.side.Opposite()).heap
                && (goal.makers == [] || !CanTrade(o, goal.makers[0].price))
    {
      left := o.quantity;
      var best := book.BestPrice(o.side.Opposite(), -1);
      while left > 0 && book.caches.Of(o.side.Opposite()).total > 0 && Reaches(o, best)
        invariant Valid() && book.excess == old(book.excess) && book.orderMap.Keys <= old(book.orderMap).Keys
        invariant book.IsBest(o.side.Opposite(), best)
        invariant book.resting.Of(o.side) == old(book.resting).Of(o.side)
        invariant Owes(goal, trades, o, left, book.resting.Of(o.side.Opposite()))
        decreases left
      {
        var last;
        left, best, last := Round(o, left, best, goal);
        if last {
          OwesNothing(goal, trades, o, 0, book.resting.Of(o.side.Opposite()));
          return;
        }
      }
      SweepIsDone(o, left, best, goal);
    }

    /** Where the loop stops, so does the reference. */
    lemma {:induction false} SweepIsDone(o: Order, left: nat, best: nat, goal: MatchResult)
      requires Valid() && book.IsBest(o.side.Opposite(), best)
      requires (o.execution == MarketOrder || book.cfg.InBand(o.price))
      requires Owes(goal, trades, o, left, book.resting.Of(o.side.Opposite()))
      requires left == 0 || !(book.caches.Of(o.side.Opposite()).total > 0 && Reaches(o, best))
      ensures goal == MatchResult(trades, left, book.resting.Of(o.side.Opposite()))
      ensures left > 0 && o.execution != MarketOrder ==>
                && o.price !in book.caches.Of(o.side.Opposite()).heap
                && (goal.makers == [] || !CanTrade(o, goal.makers[0].price))
    {
      GuardIsExact(o, best);
      OwesNothing(goal, trades, o, left, book.resting.Of(o.side.Opposite()));
    }

    // ----- The order kinds -----------------------------------------------------------------

    /** A market order: whatever cannot be traded at once is dropped. */
    method ProcessMarket(o: Order, ghost st: State)
      requires Valid() && Tracks(st) && o.execution == MarketOrder
      modifies this`trades, this`nextTradeId, this`lastPrice, book, book.queues, book.queues.pool,
               book.queues.pool.nodes, book.queues.levels
      ensures Valid() && Tracks(DoSubmit(book.cfg, st, o))
    {
      ghost var r := Match(o, st.book.Of(o.side.Opposite()), 1 + |st.trades|);
      ghost var goal := r.(trades := trades + r.trades);
      SubmitSpec(book.cfg, st, o, r);
      if book.caches.Of(o.side.Opposite()).total == 0 {
        book.ZeroTotalIsClear(o.side.Opposite());
        OwesNothing(goal, trades, o, o.quantity, []);
        return;
      }
      var left := Sweep(o, goal);
    }

    /** The quick test before the loop: no opposite quantity at all, or its best price out of reach. */
    method CannotTrade(o: Order) returns (b: bool)
      requires Valid() && o.execution != MarketOrder && book.cfg.InBand(o.price)
      modifies book`caches, book.queues.levels
      ensures Valid()
      ensures var opp := o.side.Opposite();
              var makers := book.resting.Of(opp);
              b ==> o.price !in book.caches.Of(opp).heap && (makers == [] || !CanTrade(o, makers[0].price))
    {
      if book.caches.Of(o.side.Opposite()).total == 0 {
        book.ZeroTotalIsClear(o.side.Opposite());
        return true;
      }
      var best := book.BestPrice(o.side.Opposite(), -1);
      return !Crosses(o.side, o.price, best);
    }

    /** A limit order inside the band: trades what it can within its limit, then rests. */
    method ProcessLimit(o: Order, ghost st: State)
      requires Valid() && Tracks(st) && o.execution != MarketOrder && book.cfg.InBand(o.price)
      requires o.quantity >= 1 && o.id !in book.orderMap
      modifies this`trades, this`nextTradeId, this`lastPrice, book, book.queues, book.queues.pool,
               book.queues.pool.nodes, book.queues.levels
      ensures Valid() && Tracks(DoSubmit(book.cfg, st, o)) && |old(trades)| <= |trades|
      ensures forall k :: |old(trades)| <= k < |trades| ==>
                if o.side == Buy then trades[k].price <= o.price else trades[k].price >= o.price
    {
      ghost var r := Match(o, st.book.Of(o.side.Opposite()), 1 + |st.trades|);
      ghost var goal := r.(trades := trades + r.trades);
      SubmitSpec(book.cfg, st, o, r);
      MatchWithinLimit(o, st.book.Of(o.side.Opposite()), 1 + |st.trades|);
      IndexExact(book.cfg, o.price);
      var quick := CannotTrade(o);
      if quick {
        OwesNothing(goal, trades, o, o.quantity, book.resting.Of(o.side.Opposite()));
        assert o.(quantity := r.remaining) == o;
        var ok := book.AddOrder(o);
        return;
      }
      var left := Sweep(o, goal);
      if left > 0 {
        var ok := book.AddOrder(o.(quantity := left));
      }
    }

    // ----- Runs ----------------------------------------------------------------------------

    /** A limit order outside the band is refused; every other order is matched as the reference does it. */
    method ProcessOrder(o: Order)
      requires InStep() && Admissible(state, Submit(o))
      modifies this, book, book.queues, book.queues.pool, book.queues.pool.nodes, book.queues.levels
      ensures InStep() && state == Step(book.cfg, old(state), Submit(o))
    {
      FreshId(o);
      ghost var st := state;
      if o.execution == MarketOrder {
        ProcessMarket(o, st);
      } else if book.cfg.InBand(o.price) {
        ProcessLimit(o, st);
      }
      state := Step(book.cfg, st, Submit(o));
    }

    lemma {:induction false} FreshId(o: Order)
      requires InStep() && Admissible(state, Submit(o))
      ensures o.id !in book.orderMap
    {
      assert UnlockBook(0);
      assert UnlockBooks(0);
    }

    method Cancel(id: nat) returns (ok: bool)
      requires InStep()
      modifies this`state, book, book.queues, book.queues.pool, book.queues.pool.nodes, book.queues.levels
      ensures InStep() && state == Step(book.cfg, old(state), Reference.Cancel(id))
      ensures ok == (id in old(book.orderMap))
    {
      ok := book.CancelOrder(id);
      state := DoCancel(state, id);
    }

    /**
     Whole runs: for every admissible sequence of submissions and cancellations, the resting orders
     and the published trades are exactly those of the reference.
     */
    method RunAll(ops: seq<Op>)
      requires InStep() && AdmissibleRun(book.cfg, state, ops)
      modifies this, book, book.queues, book.queues.pool, book.queues.pool.nodes, book.queues.levels
      ensures InStep() && state == Run(book.cfg, old(state), ops)
    {
      var i := 0;
      while i < |ops|
        invariant i <= |ops| && InStep()
        invariant AdmissibleRun(book.cfg, state, ops[i..])
        invariant Run(book.cfg, state, ops[i..]) == Run(book.cfg, old(state), ops)
      {
        assert ops[i..][1..] == ops[i + 1..] && ops[i..][0] == ops[i];
        match ops[i] {
          case Submit(o) => ProcessOrder(o);
          case Cancel(id) => var ok := Cancel(id);
        }
        i := i + 1;
      }
    }
  }
}
