/**
 What comes of each submission and where each trade comes from, in plain prices and quantities and without
 the reference's own tests: these lemmas fix what `Reference` has to do.
 */
module Outcomes {
  import opened Market
  import opened Reference
  import PriceTime

  // ----- One match --------------------------------------------------------------------------------

  /** The quantity on offer at a price the taker may trade at: any for a market order, else within its limit. */
  function OnOffer(taker: Order, makers: seq<Order>): nat {
    if |makers| == 0 then 0
    else
      OnOffer(taker, makers[1..])
      + if taker.execution == MarketOrder
           || (taker.side == Buy && makers[0].price <= taker.price)
           || (taker.side == Sell && makers[0].price >= taker.price)
        then makers[0].quantity
        else 0
  }

  function Min(a: nat, b: nat): nat {
    if a <= b then a else b
  }

  /** Behind a price out of reach everything is out of reach. */
  lemma {:induction false} NothingOnOffer(cfg: Config, taker: Order, makers: seq<Order>)
    requires Ladder(cfg, taker.side.Opposite(), makers)
    requires makers == [] || !CanTrade(taker, makers[0].price)
    ensures OnOffer(taker, makers) == 0
    decreases |makers|
  {
    if |makers| > 0 {
      assert |makers| > 1 ==> makers[1..][0] == makers[1];
      NothingOnOffer(cfg, taker, makers[1..]);
    }
  }

  lemma {:induction false} OnOfferIgnoresQuantity(taker: Order, q: nat, makers: seq<Order>)
    ensures OnOffer(taker.(quantity := q), makers) == OnOffer(taker, makers)
    decreases |makers|
  {
    if |makers| > 0 {
      OnOfferIgnoresQuantity(taker, q, makers[1..]);
    }
  }

  /** A match trades all that is asked for or all that is on offer, whichever is less. */
  lemma {:induction false} MatchTakesAll(cfg: Config, taker: Order, makers: seq<Order>, tid: nat)
    requires Ladder(cfg, taker.side.Opposite(), makers)
    ensures var r, traded := Match(taker, makers, tid), Min(taker.quantity, OnOffer(taker, makers));
            && SumTraded(r.trades) == traded && r.remaining == taker.quantity - traded
            && SumQty(r.makers) == SumQty(makers) - traded
    decreases |makers|
  {
    MatchConserves(taker, makers, tid);
    if taker.quantity == 0 {
    } else if makers == [] || !CanTrade(taker, makers[0].price) {
      NothingOnOffer(cfg, taker, makers);
    } else if makers[0].quantity <= taker.quantity {
      var taker' := taker.(quantity := taker.quantity - makers[0].quantity);
      MatchTakesAll(cfg, taker', makers[1..], tid + 1);
      OnOfferIgnoresQuantity(taker, taker'.quantity, makers[1..]);
    }
  }

  /** A market order takes all there is. */
  lemma {:induction false} MarketOnOffer(taker: Order, makers: seq<Order>)
    requires taker.execution == MarketOrder
    ensures OnOffer(taker, makers) == SumQty(makers)
    decreases |makers|
  {
    if |makers| > 0 {
      MarketOnOffer(taker, makers[1..]);
    }
  }

  // ----- One submission -----------------------------------------------------------------------------

  /** What a submission finds on offer; a limit order outside the band is turned away. */
  function Found(cfg: Config, st: State, o: Order): nat {
    if o.execution != MarketOrder && !(cfg.lower <= o.price <= cfg.upper) then 0
    else OnOffer(o, st.book.Of(o.side.Opposite()))
  }

  /**
   An order that trades and then rests, exactly if it is a limit order inside the band with something left
   and the book has room: what rests of it, and what is dropped.
   */
  ghost predicate Placed(cfg: Config, st: State, o: Order, st': State) {
    var opp, traded := o.side.Opposite(), Min(o.quantity, Found(cfg, st, o));
    var rests := && o.execution != MarketOrder && cfg.lower <= o.price <= cfg.upper && o.quantity > traded
                 && |st.book.Of(o.side)| + |st'.book.Of(opp)| < cfg.capacity;
    && SumTraded(st'.trades) == SumTraded(st.trades) + traded
    && SumQty(st'.book.Of(opp)) == SumQty(st.book.Of(opp)) - traded
    && Without(st'.book.Of(o.side), o.id) == st.book.Of(o.side)
    && (o.id in Ids(st'.book.Of(o.side)) <==> rests)
    && QtyOf(st'.book.Of(o.side), o.id) == (if rests then o.quantity - traded else 0)
    && st'.LedgerOf(opp) == st.LedgerOf(opp)
    && st'.LedgerOf(o.side) == Ledger(
         st.LedgerOf(o.side).submitted + o.quantity,
         st.LedgerOf(o.side).discarded + (if rests then 0 else o.quantity - traded),
         st.LedgerOf(o.side).cancelled)
  }

  lemma {:induction false} InsertThenWithout(side: Side, s: seq<Order>, o: Order)
    requires o.id !in Ids(s)
    ensures var t := Insert(side, s, o); Without(t, o.id) == s && o.id in Ids(t) && QtyOf(t, o.id) == o.quantity
    decreases |s|
  {
    if s == [] || Key(side, o.price) < Key(side, s[0].price) {
      assert ([o] + s)[1..] == s;
    } else {
      InsertThenWithout(side, s[1..], o);
      var t := [s[0]] + Insert(side, s[1..], o);
      assert t[0] == s[0] && t[1..] == Insert(side, s[1..], o);
      assert Without(t, o.id) == [s[0]] + Without(t[1..], o.id);
      assert s == [s[0]] + s[1..];
    }
  }

  /** Of the ledgers only the order's own changes, by what was submitted and what is dropped. */
  lemma {:induction false} SubmitLedgers(cfg: Config, st: State, o: Order, r: MatchResult)
    requires r == Match(o, st.book.Of(o.side.Opposite()), 1 + |st.trades|)
    ensures var st', l := DoSubmit(cfg, st, o), st.LedgerOf(o.side);
            var room := st.book.With(o.side.Opposite(), r.makers).Size() < cfg.capacity;
            var dropped := if o.execution != MarketOrder && !cfg.InBand(o.price) then o.quantity
                           else if o.execution == MarketOrder || !room then r.remaining
                           else 0;
            && st'.LedgerOf(o.side.Opposite()) == st.LedgerOf(o.side.Opposite())
            && st'.LedgerOf(o.side) == Ledger(l.submitted + o.quantity, l.discarded + dropped, l.cancelled)
  {
    var st0 := Accept(st, o);
    assert st0.book == st.book && st0.trades == st.trades;
    var st1 := Trades(st0, o);
    assert st1.book == st.book.With(o.side.Opposite(), r.makers) && st1.buys == st0.buys && st1.sells == st0.sells;
    assert Left(st, o) == r.remaining;
  }

  lemma {:induction false} RestedPlace(cfg: Config, b: Book, o: Order)
    requires o.id !in Ids(b.Of(o.side))
    ensures var s := Rested(cfg, b, o).Of(o.side);
            var rests := o.quantity > 0 && b.Size() < cfg.capacity;
            && Rested(cfg, b, o).Of(o.side.Opposite()) == b.Of(o.side.Opposite())
            && Without(s, o.id) == b.Of(o.side) && (o.id in Ids(s) <==> rests)
            && QtyOf(s, o.id) == if rests then o.quantity else 0
  {
    WithoutAbsent(b.Of(o.side), o.id);
    InsertThenWithout(o.side, b.Of(o.side), o);
  }

  lemma {:induction false} SubmitPlaces(cfg: Config, st: State, o: Order)
    requires Sound(cfg, st) && Admissible(st, Submit(o))
    ensures Placed(cfg, st, o, DoSubmit(cfg, st, o))
  {
    var opp, tid := o.side.Opposite(), 1 + |st.trades|;
    var r := Match(o, st.book.Of(opp), tid);
    var b := st.book.With(opp, r.makers);
    SubmitLedgers(cfg, st, o, r);
    WithoutAbsent(st.book.Of(o.side), o.id);
    if o.execution == MarketOrder || cfg.InBand(o.price) {
      MatchTakesAll(cfg, o, st.book.Of(opp), tid);
      SumTradedConcat(st.trades, r.trades);
      SubmitSpec(cfg, st, o, r);
      RestedPlace(cfg, b, o.(quantity := r.remaining));
    } else {
      assert DoSubmit(cfg, st, o).book == st.book && DoSubmit(cfg, st, o).trades == st.trades;
    }
  }

  // ----- Where trades come from -----------------------------------------------------------------------

  /**
   `t` is a trade of the `i`-th operation against an order submitted earlier, the `j`-th: at the latter's
   price, within both limits, and with each party's own client id on its own side.
   */
  ghost predicate Between(ops: seq<Op>, t: Trade, i: nat, j: nat) {
    && j < i < |ops| && ops[i].Submit? && ops[j].Submit?
    && var taker, maker := ops[i].order, ops[j].order;
       && maker.execution != MarketOrder && t.price == maker.price
       && t.timestamp == taker.timestamp && t.symbol == taker.symbol
       && 1 <= t.quantity <= taker.quantity && t.quantity <= maker.quantity
       && (taker.side == Buy ==>
             && maker.side == Sell && t.buyClient == taker.clientId && t.sellClient == maker.clientId
             && (taker.execution == MarketOrder || t.price <= taker.price))
       && (taker.side == Sell ==>
             && maker.side == Buy && t.buyClient == maker.clientId && t.sellClient == taker.clientId
             && (taker.execution == MarketOrder || t.price >= taker.price))
  }

  ghost predicate HasParties(ops: seq<Op>, t: Trade) {
    exists i, j :: Between(ops, t, i, j)
  }

  lemma {:induction false} LaterParties(ops: seq<Op>, op: Op, t: Trade)
    requires HasParties(ops, t)
    ensures HasParties(ops + [op], t)
  {
    var i, j :| Between(ops, t, i, j);
    assert Between(ops + [op], t, i, j);
  }

  /** Each trade of a match is with the maker at its place. */
  lemma {:induction false} MatchParties(taker: Order, makers: seq<Order>, tid: nat, k: nat)
    requires k < |Match(taker, makers, tid).trades|
    requires forall m :: 0 <= m < |makers| ==> makers[m].quantity >= 1
    ensures k < |makers|
    ensures var t, maker := Match(taker, makers, tid).trades[k], makers[k];
            && 1 <= t.quantity <= taker.quantity && t.quantity <= maker.quantity
            && t == MakeTrade(tid + k, taker, maker, t.quantity)
            && CanTrade(taker, maker.price)
    decreases |makers|
  {
    if makers[0].quantity <= taker.quantity && k > 0 {
      MatchParties(taker.(quantity := taker.quantity - makers[0].quantity), makers[1..], tid + 1, k - 1);
    }
  }

  /** A trade of the last operation. */
  lemma {:induction false} NewParties(cfg: Config, ops: seq<Op>, o: Order, b: Book, tid: nat, k: nat)
    requires Orderly(cfg, b) && PriceTime.BookTimed(ops, b, |ops|)
    requires k < |Match(o, b.Of(o.side.Opposite()), tid).trades|
    ensures HasParties(ops + [Submit(o)], Match(o, b.Of(o.side.Opposite()), tid).trades[k])
  {
    var side, makers := o.side.Opposite(), b.Of(o.side.Opposite());
    PriceTime.LadderInPriority(cfg, side, ops, makers, |ops|);
    AllPositive(cfg, side, makers);
    MatchParties(o, makers, tid, k);
    var t, j := Match(o, makers, tid).trades[k], PriceTime.Arrival(ops, makers[k].id) - 1;
    assert PriceTime.Arrived(ops, makers[k]);
    assert Between(ops + [Submit(o)], t, |ops|, j);
  }

  lemma {:induction false} AllPositive(cfg: Config, side: Side, s: seq<Order>)
    requires Ladder(cfg, side, s)
    ensures forall m :: 0 <= m < |s| ==> s[m].quantity >= 1
    decreases |s|
  {
    if s != [] {
      AllPositive(cfg, side, s[1..]);
    }
  }

  // ----- Whole runs -------------------------------------------------------------------------------------

  lemma {:induction false} StepParties(cfg: Config, st: State, ops: seq<Op>, op: Op, k: nat)
    requires Sound(cfg, st) && PriceTime.BookTimed(ops, st.book, |ops|) && k < |Step(cfg, st, op).trades|
    requires k < |st.trades| ==> HasParties(ops, st.trades[k])
    ensures HasParties(ops + [op], Step(cfg, st, op).trades[k])
  {
    OneStep(cfg, st, op);
    var ts := Step(cfg, st, op).trades;
    if k < |st.trades| {
      assert ts[k] == ts[..|st.trades|][k];
      LaterParties(ops, op, st.trades[k]);
    } else {
      assert ts[k] == ts[|st.trades|..][k - |st.trades|];
      NewParties(cfg, ops, op.order, st.book, 1 + |st.trades|, k - |st.trades|);
    }
  }

  /** Every trade of a run is between two of its submissions, within the limits of both. */
  lemma {:induction false} RunTradesHaveParties(cfg: Config, st: State, ops: seq<Op>, k: nat)
    requires IsStart(st) && AdmissibleRun(cfg, st, ops) && k < |Run(cfg, st, ops).trades|
    ensures HasParties(ops, Run(cfg, st, ops).trades[k])
    decreases |ops|
  {
    if |ops| > 0 {
      var init, op := ops[..|ops| - 1], ops[|ops| - 1];
      PriceTime.LastStep(cfg, st, ops);
      PriceTime.RunKeepsTime(cfg, st, init);
      if k < |Run(cfg, st, init).trades| {
        RunTradesHaveParties(cfg, st, init, k);
      }
      LastParties(cfg, Run(cfg, st, init), init, op, k, ops);
    }
  }

  lemma {:induction false} LastParties(cfg: Config, st: State, init: seq<Op>, op: Op, k: nat, ops: seq<Op>)
    requires Sound(cfg, st) && PriceTime.BookTimed(init, st.book, |init|) && k < |Step(cfg, st, op).trades|
    requires k < |st.trades| ==> HasParties(init, st.trades[k])
    requires |ops| > 0 && init == ops[..|ops| - 1] && op == ops[|ops| - 1]
    ensures HasParties(ops, Step(cfg, st, op).trades[k])
  {
    assert ops == init + [op];
    StepParties(cfg, st, init, op, k);
  }

  lemma {:induction false} OneStep(cfg: Config, st: State, op: Op)
    ensures Run(cfg, st, [op]) == Step(cfg, st, op) && |st.trades| <= |Step(cfg, st, op).trades|
    ensures Step(cfg, st, op).trades[..|st.trades|] == st.trades
    ensures |Step(cfg, st, op).trades| > |st.trades| ==>
              && op.Submit?
              && var r := Match(op.order, st.book.Of(op.order.side.Opposite()), 1 + |st.trades|);
                 Step(cfg, st, op).trades[|st.trades|..] == r.trades
  {
    assert [op][1..] == [];
    if op.Submit? && (op.order.execution == MarketOrder || cfg.InBand(op.order.price)) {
      SubmitSpec(cfg, st, op.order, Match(op.order, st.book.Of(op.order.side.Opposite()), 1 + |st.trades|));
    }
  }

  /**
   Every submission of a run trades the lesser of what it asks for and what is on offer within its limit;
   the rest of it rests exactly if it is a limit order inside the band and there is room, and is dropped
   otherwise.
   */
  lemma {:induction false} RunPlaces(cfg: Config, st: State, ops: seq<Op>, i: nat)
    requires IsStart(st) && AdmissibleRun(cfg, st, ops) && i < |ops| && ops[i].Submit?
    ensures Placed(cfg, Run(cfg, st, ops[..i]), ops[i].order, Run(cfg, st, ops[..i + 1]))
  {
    PriceTime.StepAt(cfg, st, ops, i);
    SubmitPlaces(cfg, Run(cfg, st, ops[..i]), ops[i].order);
  }

  /** A market order drops something only if it has emptied the other side. */
  lemma {:induction false} RunEmptiesForMarket(cfg: Config, st: State, ops: seq<Op>, i: nat)
    requires IsStart(st) && AdmissibleRun(cfg, st, ops) && i < |ops| && ops[i].Submit?
    requires ops[i].order.execution == MarketOrder
    ensures var o, before, after := ops[i].order, Run(cfg, st, ops[..i]), Run(cfg, st, ops[..i + 1]);
            var opp := o.side.Opposite();
            && SumTraded(after.trades) - SumTraded(before.trades) == Min(o.quantity, SumQty(before.book.Of(opp)))
            && (after.LedgerOf(o.side).discarded == before.LedgerOf(o.side).discarded || after.book.Of(opp) == [])
  {
    var o, before, after := ops[i].order, Run(cfg, st, ops[..i]), Run(cfg, st, ops[..i + 1]);
    RunPlaces(cfg, st, ops, i);
    MarketOnOffer(o, before.book.Of(o.side.Opposite()));
    PriceTime.StepAt(cfg, st, ops, i);
    AllPositive(cfg, o.side.Opposite(), after.book.Of(o.side.Opposite()));
  }

  // ----- Cancellations ------------------------------------------------------------------------------------

  ghost predicate RemovedAt(s: seq<Order>, id: nat, s': seq<Order>, gone: nat, k: nat) {
    k < |s| && s[k].id == id && s' == s[..k] + s[k + 1..] && gone == s[k].quantity
  }

  /** The order with this id, if there is one, has left the list; the others stand as they stood. */
  ghost predicate Removed(s: seq<Order>, id: nat, s': seq<Order>, gone: nat) {
    || ((forall k :: 0 <= k < |s| ==> s[k].id != id) && s' == s && gone == 0)
    || (exists k :: RemovedAt(s, id, s', gone, k))
  }

  lemma {:induction false} WithoutPresent(s: seq<Order>, id: nat) returns (k: nat)
    requires id in Ids(s)
    ensures RemovedAt(s, id, Without(s, id), QtyOf(s, id), k)
    decreases |s|
  {
    if s[0].id == id {
      k := 0;
      assert s[..0] + s[0 + 1..] == s[1..];
    } else {
      var j := WithoutPresent(s[1..], id);
      k := j + 1;
      assert [s[0]] + (s[1..][..j] + s[1..][j + 1..]) == s[..k] + s[k + 1..];
    }
  }

  lemma {:induction false} NotAmong(s: seq<Order>, id: nat)
    requires id !in Ids(s)
    ensures forall k :: 0 <= k < |s| ==> s[k].id != id
    decreases |s|
  {
    if |s| > 0 {
      NotAmong(s[1..], id);
      assert forall k :: 0 < k < |s| ==> s[k] == s[1..][k - 1];
    }
  }

  lemma {:induction false} WithoutRemoves(s: seq<Order>, id: nat)
    ensures Removed(s, id, Without(s, id), QtyOf(s, id))
  {
    if id in Ids(s) {
      var k := WithoutPresent(s, id);
    } else {
      NotAmong(s, id);
      WithoutAbsent(s, id);
    }
  }

  /** What a cancellation leaves of one side. */
  ghost predicate Cancelled(st: State, id: nat, side: Side, st': State) {
    var l, l' := st.LedgerOf(side), st'.LedgerOf(side);
    && st'.trades == st.trades && l'.submitted == l.submitted && l'.discarded == l.discarded
    && l'.cancelled >= l.cancelled && Removed(st.book.Of(side), id, st'.book.Of(side), l'.cancelled - l.cancelled)
  }

  lemma {:induction false} CancelRemoves(st: State, id: nat, side: Side)
    ensures Cancelled(st, id, side, DoCancel(st, id))
  {
    WithoutRemoves(st.book.Of(side), id);
  }

  /** Every cancellation of a run removes the order it names, whole and on whichever side, and does nothing else. */
  lemma {:induction false} RunCancels(cfg: Config, st: State, ops: seq<Op>, i: nat, side: Side)
    requires IsStart(st) && AdmissibleRun(cfg, st, ops) && i < |ops| && ops[i].Cancel?
    ensures Cancelled(Run(cfg, st, ops[..i]), ops[i].id, side, Run(cfg, st, ops[..i + 1]))
  {
    PriceTime.StepAt(cfg, st, ops, i);
    CancelRemoves(Run(cfg, st, ops[..i]), ops[i].id, side);
  }
}
