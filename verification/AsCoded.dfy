/**
 The order kinds as they are coded, on lists and with the running totals: the quick path, the loop
 guards and the final add, for any quantity.  For positive quantities this is the reference; for
 quantity 0, which the order management system lets through, it is not.
 */
module AsCoded {
  import opened Market
  import opened Reference
  import PriceTime

  /** A total is decremented without a check; below 0 it stands for the wrapped number, which is not 0 either. */
  datatype Totals = Totals(buy: int, sell: int) {
    function Of(side: Side): int {
      if side == Buy then buy else sell
    }
    function Plus(side: Side, q: int): Totals {
      if side == Buy then Totals(buy + q, sell) else Totals(buy, sell + q)
    }
  }

  datatype Coded = Coded(st: State, totals: Totals)

  datatype Swept = Swept(result: MatchResult, total: int)

  /** The matching loop, which also stops when the opposite total is 0. */
  function Sweep(taker: Order, makers: seq<Order>, tid: nat, total: int): Swept
    decreases |makers|
  {
    if taker.quantity == 0 || total == 0 || makers == [] || !CanTrade(taker, makers[0].price) then
      Swept(MatchResult([], taker.quantity, makers), total)
    else if makers[0].quantity > taker.quantity then
      Swept(MatchResult([MakeTrade(tid, taker, makers[0], taker.quantity)], 0,
                        [makers[0].(quantity := makers[0].quantity - taker.quantity)] + makers[1..]),
                          total - taker.quantity)
    else
      var q := makers[0].quantity;
      var r := Sweep(taker.(quantity := taker.quantity - q), makers[1..], tid + 1, total - q);
      Swept(r.result.(trades := [MakeTrade(tid, taker, makers[0], q)] + r.result.trades), r.total)
  }

  /** addBuyOrder and addSellOrder, which look at the room but not at the quantity. */
  function Add(cfg: Config, c: Coded, o: Order): Coded {
    if c.st.book.Size() < cfg.capacity then Coded(Rest(cfg, c.st, o), c.totals.Plus(o.side, o.quantity))
    else c.(st := Discard(c.st, o.side, o.quantity))
  }

  /** What the loop leaves of the book, the trades and the totals. */
  function AfterSweep(c: Coded, o: Order, r: Swept): Coded {
    var opp := o.side.Opposite();
    Coded(c.st.(book := c.st.book.With(opp, r.result.makers), trades := c.st.trades + r.result.trades),
          c.totals.Plus(opp, r.total - c.totals.Of(opp)))
  }

  /** The test that sends a limit order straight to the book. */
  predicate Quick(c: Coded, o: Order) {
    var makers := c.st.book.Of(o.side.Opposite());
    c.totals.Of(o.side.Opposite()) == 0 || makers == [] || !CanTrade(o, makers[0].price)
  }

  function SweepOf(c: Coded, o: Order): Swept {
    Sweep(o, c.st.book.Of(o.side.Opposite()), 1 + |c.st.trades|, c.totals.Of(o.side.Opposite()))
  }

  function Drop(c: Coded, o: Order, quantity: nat): Coded {
    c.(st := Discard(c.st, o.side, quantity))
  }

  function MarketCoded(c: Coded, o: Order): Coded {
    if c.totals.Of(o.side.Opposite()) == 0 then Drop(c, o, o.quantity)
    else Drop(AfterSweep(c, o, SweepOf(c, o)), o, SweepOf(c, o).result.remaining)
  }

  function LimitCoded(cfg: Config, c: Coded, o: Order): Coded {
    var left := SweepOf(c, o).result.remaining;
    if Quick(c, o) then Add(cfg, c, o)
    else if left > 0 then Add(cfg, AfterSweep(c, o, SweepOf(c, o)), o.(quantity := left))
    else AfterSweep(c, o, SweepOf(c, o))
  }

  function Submitted(cfg: Config, c: Coded, o: Order): Coded {
    var c0 := c.(st := Accept(c.st, o));
    if o.execution == MarketOrder then MarketCoded(c0, o)
    else if !cfg.InBand(o.price) then Drop(c0, o, o.quantity)
    else LimitCoded(cfg, c0, o)
  }

  function Next(cfg: Config, c: Coded, op: Op): Coded {
    match op
    case Submit(o) => Submitted(cfg, c, o)
    case Cancel(id) => c.(st := DoCancel(c.st, id))
  }

  function RunCoded(cfg: Config, c: Coded, ops: seq<Op>): Coded
    decreases |ops|
  {
    if ops == [] then c else RunCoded(cfg, Next(cfg, c, ops[0]), ops[1..])
  }

  // ----- Positive quantities ---------------------------------------------------------------------

  /** A total is what rests on its side and what was cancelled there. */
  predicate Honest(c: Coded) {
    && c.totals.buy == SumQty(c.st.book.bids) + c.st.buys.cancelled
    && c.totals.sell == SumQty(c.st.book.asks) + c.st.sells.cancelled
  }

  /** With at least the makers' quantity in the total, its guard never ends the loop early. */
  lemma {:induction false} SweepIsMatch(cfg: Config, side: Side, taker: Order, makers: seq<Order>, tid: nat, total: int)
    requires Ladder(cfg, side, makers) && total >= SumQty(makers)
    ensures var r := Match(taker, makers, tid);
            Sweep(taker, makers, tid, total) == Swept(r, total - SumTraded(r.trades))
    decreases |makers|
  {
    if taker.quantity == 0 || makers == [] || !CanTrade(taker, makers[0].price) {
    } else if makers[0].quantity > taker.quantity {
      assert Match(taker, makers, tid).trades[1..] == [];
    } else {
      var taker', q := taker.(quantity := taker.quantity - makers[0].quantity), makers[0].quantity;
      SweepIsMatch(cfg, side, taker', makers[1..], tid + 1, total - q);
      assert Match(taker, makers, tid).trades[1..] == Match(taker', makers[1..], tid + 1).trades;
    }
  }

  lemma {:induction false} NoneIfZero(cfg: Config, side: Side, s: seq<Order>)
    requires Ladder(cfg, side, s) && SumQty(s) == 0
    ensures s == []
  {
  }

  lemma {:induction false} InsertSum(side: Side, s: seq<Order>, o: Order)
    ensures SumQty(Insert(side, s, o)) == SumQty(s) + o.quantity
    decreases |s|
  {
    if s == [] || Key(side, o.price) < Key(side, s[0].price) {
      assert ([o] + s)[1..] == s;
    } else {
      InsertSum(side, s[1..], o);
      assert ([s[0]] + Insert(side, s[1..], o))[1..] == Insert(side, s[1..], o);
    }
  }

  lemma {:induction false} AddHonest(cfg: Config, c: Coded, o: Order)
    requires Honest(c)
    ensures Honest(Add(cfg, c, o))
  {
    InsertSum(o.side, c.st.book.Of(o.side), o);
  }

  lemma {:induction false} SweepHonest(cfg: Config, c: Coded, o: Order)
    requires Honest(c) && Ladder(cfg, o.side.Opposite(), c.st.book.Of(o.side.Opposite()))
    ensures Honest(AfterSweep(c, o, SweepOf(c, o)))
  {
    var opp, tid := o.side.Opposite(), 1 + |c.st.trades|;
    SweepIsMatch(cfg, opp, o, c.st.book.Of(opp), tid, c.totals.Of(opp));
    MatchConserves(o, c.st.book.Of(opp), tid);
  }

  lemma {:induction false} LimitHonest(cfg: Config, c: Coded, o: Order)
    requires Honest(c) && Ladder(cfg, o.side.Opposite(), c.st.book.Of(o.side.Opposite()))
    ensures Honest(LimitCoded(cfg, c, o))
  {
    SweepHonest(cfg, c, o);
    AddHonest(cfg, c, o);
    AddHonest(cfg, AfterSweep(c, o, SweepOf(c, o)), o.(quantity := SweepOf(c, o).result.remaining));
  }

  lemma {:induction false} TotalsStayHonest(cfg: Config, c: Coded, o: Order)
    requires Sound(cfg, c.st) && Honest(c)
    ensures Honest(Submitted(cfg, c, o))
  {
    var c0 := c.(st := Accept(c.st, o));
    assert Honest(c0) && c0.st.book == c.st.book;
    SweepHonest(cfg, c0, o);
    LimitHonest(cfg, c0, o);
  }

  /** The loop finds what the reference matches, and the quick path is taken only if that is nothing. */
  lemma {:induction false} GuardsAgree(cfg: Config, c: Coded, o: Order)
    requires Orderly(cfg, c.st.book) && Honest(c)
    ensures SweepOf(c, o).result == Match(o, c.st.book.Of(o.side.Opposite()), 1 + |c.st.trades|)
    ensures Quick(c, o) ==> SweepOf(c, o).result == MatchResult([], o.quantity, c.st.book.Of(o.side.Opposite()))
  {
    var opp, tid := o.side.Opposite(), 1 + |c.st.trades|;
    SweepIsMatch(cfg, opp, o, c.st.book.Of(opp), tid, c.totals.Of(opp));
    if c.totals.Of(opp) == 0 {
      NoneIfZero(cfg, opp, c.st.book.Of(opp));
    }
  }

  /** What is left of an accepted limit order joins the book, or none of it traded and all of it does. */
  lemma {:induction false} LimitIsReference(cfg: Config, c: Coded, o: Order)
    requires Orderly(cfg, c.st.book) && Honest(c) && o.quantity >= 1
    ensures LimitCoded(cfg, c, o).st
         == if Left(c.st, o) == 0 then Trades(c.st, o) else Rest(cfg, Trades(c.st, o), o.(quantity := Left(c.st, o)))
  {
    GuardsAgree(cfg, c, o);
    if Quick(c, o) {
      assert c.st.trades + [] == c.st.trades;
      assert Trades(c.st, o) == c.st && o.(quantity := o.quantity) == o;
    } else {
      assert AfterSweep(c, o, SweepOf(c, o)).st == Trades(c.st, o);
    }
  }

  lemma {:induction false} MarketIsReference(cfg: Config, c: Coded, o: Order)
    requires Orderly(cfg, c.st.book) && Honest(c)
    ensures MarketCoded(c, o).st == Discard(Trades(c.st, o), o.side, Left(c.st, o))
  {
    GuardsAgree(cfg, c, o);
    if c.totals.Of(o.side.Opposite()) == 0 {
      assert c.st.trades + [] == c.st.trades;
      assert Trades(c.st, o) == c.st;
    } else {
      assert AfterSweep(c, o, SweepOf(c, o)).st == Trades(c.st, o);
    }
  }

  /** For a positive quantity and honest totals the code does what the reference does, and the totals stay honest. */
  lemma {:induction false} SubmittedIsReference(cfg: Config, c: Coded, o: Order)
    requires Sound(cfg, c.st) && Honest(c) && o.quantity >= 1
    ensures Submitted(cfg, c, o).st == DoSubmit(cfg, c.st, o) && Honest(Submitted(cfg, c, o))
  {
    TotalsStayHonest(cfg, c, o);
    var c0 := c.(st := Accept(c.st, o));
    assert c0.st.book == c.st.book && c0.st.trades == c.st.trades && Left(c0.st, o) == Left(c.st, o);
    LimitIsReference(cfg, c0, o);
    MarketIsReference(cfg, c0, o);
  }

  lemma {:induction false} NextIsReference(cfg: Config, c: Coded, op: Op)
    requires Sound(cfg, c.st) && Honest(c) && Admissible(c.st, op)
    ensures Next(cfg, c, op).st == Step(cfg, c.st, op) && Honest(Next(cfg, c, op))
  {
    match op
    case Submit(o) => SubmittedIsReference(cfg, c, o);
    case Cancel(id) =>
      PriceTime.WithoutKeeps(cfg, Buy, c.st.book.bids, id);
      PriceTime.WithoutKeeps(cfg, Sell, c.st.book.asks, id);
  }

  /** Over whole runs the code on lists, with its totals and its quick path, is the reference. */
  lemma {:induction false} RunCodedIsReference(cfg: Config, c: Coded, ops: seq<Op>)
    requires Sound(cfg, c.st) && Honest(c) && AdmissibleRun(cfg, c.st, ops)
    ensures RunCoded(cfg, c, ops).st == Run(cfg, c.st, ops) && Honest(RunCoded(cfg, c, ops))
    decreases |ops|
  {
    if ops != [] {
      NextIsReference(cfg, c, ops[0]);
      PriceTime.StepKeepsSound(cfg, c.st, ops[0]);
      RunCodedIsReference(cfg, Next(cfg, c, ops[0]), ops[1..]);
    }
  }

  // ----- Quantity 0 ------------------------------------------------------------------------------

  /** An order for nothing rests exactly if the quick test passes and there is room; otherwise nothing happens. */
  lemma {:induction false} ZeroRestsExactlyIf(cfg: Config, c: Coded, o: Order)
    requires o.quantity == 0 && o.execution != MarketOrder && cfg.InBand(o.price)
    ensures var b, b' := c.st.book, Submitted(cfg, c, o).st.book;
            && (b' != b <==> Quick(c, o) && b.Size() < cfg.capacity)
            && (b' != b ==> b' == b.With(o.side, Insert(o.side, b.Of(o.side), o)))
    ensures Submitted(cfg, c, o).st.trades == c.st.trades && Submitted(cfg, c, o).totals == c.totals
  {
    InsertLonger(o.side, c.st.book.Of(o.side), o);
  }

  /** Where it does not rest, nothing at all happens; nor does the reference do anything. */
  lemma {:induction false} ZeroOtherwise(cfg: Config, c: Coded, o: Order)
    requires o.quantity == 0
    ensures o.execution == MarketOrder || !cfg.InBand(o.price) || !Quick(c, o) || c.st.book.Size() >= cfg.capacity ==>
              Submitted(cfg, c, o).st == c.st
    ensures DoSubmit(cfg, c.st, o) == c.st
  {
  }

  lemma {:induction false} InsertLonger(side: Side, s: seq<Order>, o: Order)
    ensures |Insert(side, s, o)| == |s| + 1
    decreases |s|
  {
    if s != [] && Key(side, o.price) >= Key(side, s[0].price) {
      InsertLonger(side, s[1..], o);
    }
  }

  /** The code does what the reference does exactly if the order is for something, or has no way to rest for nothing. */
  lemma {:induction false} SubmittedIsReferenceExactlyIf(cfg: Config, c: Coded, o: Order)
    requires Sound(cfg, c.st) && Honest(c)
    ensures Submitted(cfg, c, o).st == DoSubmit(cfg, c.st, o) <==>
              || o.quantity >= 1 || o.execution == MarketOrder || !cfg.InBand(o.price)
              || !Quick(c, o) || c.st.book.Size() >= cfg.capacity
  {
    if o.quantity >= 1 {
      SubmittedIsReference(cfg, c, o);
    } else {
      ZeroOtherwise(cfg, c, o);
      if o.execution != MarketOrder && cfg.InBand(o.price) {
        ZeroRestsExactlyIf(cfg, c, o);
      }
    }
  }

  /**
   The book then crosses: wherever nothing is on the books of a side, an order for nothing that passes the
   quick test rests there, and so does any order of the other side that could have traded with it.
   */
  lemma {:induction false} ZeroLetsTheBookCross(cfg: Config, c: Coded, zero: Order, o: Order)
    requires Sound(cfg, c.st) && Honest(c) && c.totals.Of(zero.side) == 0 && c.st.book.Size() + 2 <= cfg.capacity
    requires zero.quantity == 0 && zero.execution != MarketOrder && cfg.InBand(zero.price) && Quick(c, zero)
    requires o.side == zero.side.Opposite() && o.execution != MarketOrder && cfg.InBand(o.price)
    requires Crosses(o.side, o.price, zero.price)
    ensures var b := RunCoded(cfg, c, [Submit(zero), Submit(o)]).st.book;
            b.Of(zero.side) == [zero] && b.Of(o.side) == Insert(o.side, c.st.book.Of(o.side), o) && !Uncrossed(b)
  {
    NoneIfZero(cfg, zero.side, c.st.book.Of(zero.side));
    ZeroRestsExactlyIf(cfg, c, zero);
    InsertLonger(zero.side, c.st.book.Of(zero.side), zero);
    var c1 := Submitted(cfg, c, zero);
    assert c1.st.book == c.st.book.With(zero.side, [zero]) && c1.totals == c.totals;
    var c2 := Submitted(cfg, c1, o);
    assert c2.st.book == c1.st.book.With(o.side, Insert(o.side, c.st.book.Of(o.side), o));
    TwoSteps(cfg, c, zero, o);
  }

  /** The guard on the total is no idle one: where it is exact, orders for nothing behind the others are not reached. */
  lemma {:induction false} SweepLeavesZeros(taker: Order, makers: seq<Order>, zeros: seq<Order>, tid: nat)
    requires forall i :: 0 <= i < |makers| ==> makers[i].quantity >= 1 && CanTrade(taker, makers[i].price)
    requires taker.quantity >= SumQty(makers)
    ensures var r := Sweep(taker, makers + zeros, tid, SumQty(makers));
            && r.total == 0 && |r.result.trades| == |makers|
            && r.result.makers == zeros && r.result.remaining == taker.quantity - SumQty(makers)
    decreases |makers|
  {
    if makers == [] {
      assert makers + zeros == zeros;
    } else {
      var q := makers[0].quantity;
      assert (makers + zeros)[1..] == makers[1..] + zeros;
      SweepLeavesZeros(taker.(quantity := taker.quantity - q), makers[1..], zeros, tid + 1);
    }
  }

  lemma {:induction false} SweepNothing(taker: Order, zero: Order, tid: nat, total: int)
    requires taker.quantity >= 1 && zero.quantity == 0 && total != 0 && CanTrade(taker, zero.price)
    ensures Sweep(taker, [zero], tid, total)
         == Swept(MatchResult([MakeTrade(tid, taker, zero, 0)], taker.quantity, []), total)
  {
    assert [zero][1..] == [] && taker.(quantity := taker.quantity) == taker;
    assert Sweep(taker, [], tid + 1, total) == Swept(MatchResult([], taker.quantity, []), total);
    assert [MakeTrade(tid, taker, zero, 0)] + [] == [MakeTrade(tid, taker, zero, 0)];
  }

  /**
   After a cancellation on that side the total is not 0, and the order for nothing does not stay: the next
   order that crosses it matches it, publishes a trade of nothing, and rests whole.
   */
  lemma {:induction false} ZeroTradesForNothing(cfg: Config, c: Coded, zero: Order, o: Order)
    requires c.st.book.Of(zero.side) == [] && c.totals.Of(zero.side) != 0 && c.st.book.Size() < cfg.capacity
    requires zero.quantity == 0 && zero.execution != MarketOrder && cfg.InBand(zero.price) && Quick(c, zero)
    requires o.side == zero.side.Opposite() && o.execution != MarketOrder && cfg.InBand(o.price)
    requires Crosses(o.side, o.price, zero.price) && o.quantity >= 1
    ensures var r := RunCoded(cfg, c, [Submit(zero), Submit(o)]);
            && r.st.trades == c.st.trades + [MakeTrade(1 + |c.st.trades|, o, zero, 0)]
            && r.st.book == c.st.book.With(o.side, Insert(o.side, c.st.book.Of(o.side), o))
            && r.totals == c.totals.Plus(o.side, o.quantity)
  {
    ZeroRestsExactlyIf(cfg, c, zero);
    InsertLonger(zero.side, c.st.book.Of(zero.side), zero);
    TwoSteps(cfg, c, zero, o);
    var c1 := Submitted(cfg, c, zero);
    assert c1.st.book == c.st.book.With(zero.side, [zero]) && c1.totals == c.totals && c1.st.trades == c.st.trades;
    var c0 := c1.(st := Accept(c1.st, o));
    SweepNothing(o, zero, 1 + |c.st.trades|, c.totals.Of(zero.side));
    assert o.(quantity := o.quantity) == o && !Quick(c0, o);
    assert AfterSweep(c0, o, SweepOf(c0, o)).st.book == c.st.book;
  }

  /** Where nothing rests on a side, an order for nothing lets the book cross exactly if nothing was cancelled there. */
  lemma {:induction false} ZeroCrossesExactlyIf(cfg: Config, c: Coded, zero: Order, o: Order)
    requires Sound(cfg, c.st) && Honest(c) && c.st.book.Of(zero.side) == [] && c.st.book.Size() + 2 <= cfg.capacity
    requires zero.quantity == 0 && zero.execution != MarketOrder && cfg.InBand(zero.price) && Quick(c, zero)
    requires o.side == zero.side.Opposite() && o.execution != MarketOrder && cfg.InBand(o.price)
    requires Crosses(o.side, o.price, zero.price) && o.quantity >= 1
    ensures !Uncrossed(RunCoded(cfg, c, [Submit(zero), Submit(o)]).st.book) <==> c.st.LedgerOf(zero.side).cancelled == 0
  {
    if c.totals.Of(zero.side) == 0 {
      ZeroLetsTheBookCross(cfg, c, zero, o);
    } else {
      ZeroTradesForNothing(cfg, c, zero, o);
    }
  }

  lemma {:induction false} TwoSteps(cfg: Config, c: Coded, a: Order, b: Order)
    ensures RunCoded(cfg, c, [Submit(a), Submit(b)]) == Submitted(cfg, Submitted(cfg, c, a), b)
  {
    var ops := [Submit(a), Submit(b)];
    var c1 := Submitted(cfg, c, a);
    var c2 := Submitted(cfg, c1, b);
    assert ops[1..] == [Submit(b)] && ops[1..][1..] == [];
    assert RunCoded(cfg, c2, []) == c2;
    assert RunCoded(cfg, c1, ops[1..]) == RunCoded(cfg, c2, ops[1..][1..]);
  }
}
