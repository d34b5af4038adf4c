/**
 What becomes of each client order over a whole run of one book: its quantity is traded, rests, or was
 dropped or cancelled.  Trades name the orders by their client ids.
 */
module Accounts {
  import opened Market
  import opened Reference
  import PriceTime

  // ----- Quantities by client order ---------------------------------------------------------------

  function Party(t: Trade, side: Side): nat {
    if side == Buy then t.buyClient else t.sellClient
  }

  /** What the trades filled of client order `c` on `side`. */
  function TradedBy(ts: seq<Trade>, side: Side, c: nat): nat {
    if |ts| == 0 then 0 else (if Party(ts[0], side) == c then ts[0].quantity else 0) + TradedBy(ts[1..], side, c)
  }

  function RestingBy(s: seq<Order>, c: nat): nat {
    if |s| == 0 then 0 else (if s[0].clientId == c then s[0].quantity else 0) + RestingBy(s[1..], c)
  }

  /** What of `c` stands under order id `id`. */
  function StandingUnder(s: seq<Order>, id: nat, c: nat): nat {
    if |s| == 0 then 0
    else if s[0].id == id then (if s[0].clientId == c then s[0].quantity else 0)
    else StandingUnder(s[1..], id, c)
  }

  function OrderedBy(o: Order, side: Side, c: nat): nat {
    if o.side == side && o.clientId == c then o.quantity else 0
  }

  function SubmittedBy(ops: seq<Op>, side: Side, c: nat): nat {
    if |ops| == 0 then 0
    else (if ops[0].Submit? then OrderedBy(ops[0].order, side, c) else 0) + SubmittedBy(ops[1..], side, c)
  }

  /** What a submission drops: all of an order outside the band, the rest of a market order, or what finds no room. */
  function Dropped(cfg: Config, st: State, o: Order): nat {
    if o.execution != MarketOrder && !cfg.InBand(o.price) then o.quantity
    else
      var r := Match(o, st.book.Of(o.side.Opposite()), 1 + |st.trades|);
      var b := st.book.With(o.side.Opposite(), r.makers);
      if o.execution == MarketOrder || b.Size() >= cfg.capacity then r.remaining else 0
  }

  /** What one step drops or cancels of `c` on `side`. */
  function GoneIn(cfg: Config, st: State, op: Op, side: Side, c: nat): nat {
    match op
    case Submit(o) => if o.side == side && o.clientId == c then Dropped(cfg, st, o) else 0
    case Cancel(id) => StandingUnder(st.book.Of(side), id, c)
  }

  function Gone(cfg: Config, st: State, ops: seq<Op>, side: Side, c: nat): nat
    decreases |ops|
  {
    if |ops| == 0 then 0 else GoneIn(cfg, st, ops[0], side, c) + Gone(cfg, Step(cfg, st, ops[0]), ops[1..], side, c)
  }

  // ----- One step -----------------------------------------------------------------------------------

  lemma {:induction false} TradedByConcat(a: seq<Trade>, b: seq<Trade>, side: Side, c: nat)
    ensures TradedBy(a + b, side, c) == TradedBy(a, side, c) + TradedBy(b, side, c)
  {
    if |a| == 0 {
      assert a + b == b;
    } else {
      assert (a + b)[1..] == a[1..] + b;
      TradedByConcat(a[1..], b, side, c);
    }
  }

  /** A match moves quantity from resting to traded for the makers, and fills the taker. */
  lemma {:induction false} MatchAccount(taker: Order, makers: seq<Order>, tid: nat, c: nat)
    ensures var r := Match(taker, makers, tid);
            && r.remaining <= taker.quantity
            && TradedBy(r.trades, taker.side, c) == (if taker.clientId == c then taker.quantity - r.remaining else 0)
            && TradedBy(r.trades, taker.side.Opposite(), c) + RestingBy(r.makers, c) == RestingBy(makers, c)
    decreases |makers|
  {
    var r := Match(taker, makers, tid);
    if taker.quantity == 0 || makers == [] || !CanTrade(taker, makers[0].price) {
    } else if makers[0].quantity > taker.quantity {
      assert r.trades[1..] == [] && r.makers[1..] == makers[1..];
    } else {
      var taker' := taker.(quantity := taker.quantity - makers[0].quantity);
      MatchAccount(taker', makers[1..], tid + 1, c);
      assert r.trades[1..] == Match(taker', makers[1..], tid + 1).trades;
    }
  }

  lemma {:induction false} InsertAccount(side: Side, s: seq<Order>, o: Order, c: nat)
    ensures RestingBy(Insert(side, s, o), c) == RestingBy(s, c) + if o.clientId == c then o.quantity else 0
    decreases |s|
  {
    if s == [] || Key(side, o.price) < Key(side, s[0].price) {
      assert ([o] + s)[1..] == s;
    } else {
      InsertAccount(side, s[1..], o, c);
      assert ([s[0]] + Insert(side, s[1..], o))[1..] == Insert(side, s[1..], o);
    }
  }

  lemma {:induction false} WithoutAccount(s: seq<Order>, id: nat, c: nat)
    ensures RestingBy(s, c) == RestingBy(Without(s, id), c) + StandingUnder(s, id, c)
    decreases |s|
  {
    if s != [] && s[0].id != id {
      WithoutAccount(s[1..], id, c);
      assert ([s[0]] + Without(s[1..], id))[1..] == Without(s[1..], id);
    }
  }

  /** What `st` accounts for of `c` on `side`. */
  function Held(st: State, side: Side, c: nat): nat {
    TradedBy(st.trades, side, c) + RestingBy(st.book.Of(side), c)
  }

  lemma {:induction false} RestedAccount(cfg: Config, b: Book, o: Order, side: Side, c: nat)
    ensures RestingBy(Rested(cfg, b, o).Of(side), c)
         == RestingBy(b.Of(side), c)
            + if o.side == side && o.clientId == c && b.Size() < cfg.capacity then o.quantity else 0
  {
    InsertAccount(o.side, b.Of(o.side), o, c);
  }

  lemma {:induction false} SubmitAccount(cfg: Config, st: State, o: Order, side: Side, c: nat)
    ensures Held(DoSubmit(cfg, st, o), side, c) + GoneIn(cfg, st, Submit(o), side, c)
            == Held(st, side, c) + OrderedBy(o, side, c)
  {
    var opp, tid := o.side.Opposite(), 1 + |st.trades|;
    if o.execution == MarketOrder || cfg.InBand(o.price) {
      var r := Match(o, st.book.Of(opp), tid);
      var b := st.book.With(opp, r.makers);
      SubmitSpec(cfg, st, o, r);
      MatchAccount(o, st.book.Of(opp), tid, c);
      TradedByConcat(st.trades, r.trades, side, c);
      RestedAccount(cfg, b, o.(quantity := r.remaining), side, c);
      assert side == o.side || side == opp;
    } else {
      assert DoSubmit(cfg, st, o).book == st.book && DoSubmit(cfg, st, o).trades == st.trades;
    }
  }

  /** `Dropped` is what the ledger of the order's side records. */
  lemma {:induction false} DroppedIsDiscarded(cfg: Config, st: State, o: Order)
    ensures DoSubmit(cfg, st, o).LedgerOf(o.side).discarded == st.LedgerOf(o.side).discarded + Dropped(cfg, st, o)
  {
  }

  lemma {:induction false} StepAccount(cfg: Config, st: State, op: Op, side: Side, c: nat)
    ensures Held(Step(cfg, st, op), side, c) + GoneIn(cfg, st, op, side, c)
         == Held(st, side, c) + if op.Submit? then OrderedBy(op.order, side, c) else 0
  {
    match op
    case Submit(o) => SubmitAccount(cfg, st, o, side, c);
    case Cancel(id) => WithoutAccount(st.book.Of(side), id, c);
  }

  // ----- Whole runs ----------------------------------------------------------------------------------

  /** Every unit a client order was submitted for has been traded, rests, or was dropped or cancelled. */
  lemma {:induction false} ClientAccount(cfg: Config, st: State, ops: seq<Op>, side: Side, c: nat)
    ensures Held(Run(cfg, st, ops), side, c) + Gone(cfg, st, ops, side, c)
            == Held(st, side, c) + SubmittedBy(ops, side, c)
    decreases |ops|
  {
    if ops != [] {
      StepAccount(cfg, st, ops[0], side, c);
      ClientAccount(cfg, Step(cfg, st, ops[0]), ops[1..], side, c);
    }
  }

  ghost predicate AllPositive(ts: seq<Trade>) {
    forall i :: 0 <= i < |ts| ==> ts[i].quantity >= 1
  }

  lemma {:induction false} StepTradesPositive(cfg: Config, st: State, op: Op)
    requires Sound(cfg, st) && AllPositive(st.trades)
    ensures AllPositive(Step(cfg, st, op).trades)
  {
    if op.Submit? && (op.order.execution == MarketOrder || cfg.InBand(op.order.price)) {
      var o := op.order;
      var makers, tid := st.book.Of(o.side.Opposite()), 1 + |st.trades|;
      PriceTime.MatchIsFair(cfg, o, makers, tid);
      SubmitSpec(cfg, st, o, Match(o, makers, tid));
    }
  }

  lemma {:induction false} TradesPositive(cfg: Config, st: State, ops: seq<Op>)
    requires Sound(cfg, st) && AllPositive(st.trades) && AdmissibleRun(cfg, st, ops)
    ensures AllPositive(Run(cfg, st, ops).trades)
    decreases |ops|
  {
    if ops != [] {
      StepTradesPositive(cfg, st, ops[0]);
      PriceTime.StepKeepsSound(cfg, st, ops[0]);
      TradesPositive(cfg, Step(cfg, st, ops[0]), ops[1..]);
    }
  }

  lemma {:induction false} TradedUpTo(ts: seq<Trade>, i: nat, side: Side, c: nat)
    requires i < |ts|
    ensures TradedBy(ts[..i], side, c)
            + (if Party(ts[i], side) == c then ts[i].quantity else 0) <= TradedBy(ts, side, c)
  {
    var rest := ts[i..];
    assert ts == ts[..i] + rest && rest[0] == ts[i];
    TradedByConcat(ts[..i], rest, side, c);
  }

  /**
   A client order submitted on one side for `q` units in all, as every iceberg child is: each of its trades,
   taken in order, is for at least one unit and for no more than is still open of it, and none has it on
   both sides.
   */
  lemma {:induction false} FillsFitTheirOrder(cfg: Config, st: State, ops: seq<Op>, side: Side, c: nat, i: nat)
    requires IsStart(st) && AdmissibleRun(cfg, st, ops) && SubmittedBy(ops, side.Opposite(), c) == 0
    requires i < |Run(cfg, st, ops).trades| && Party(Run(cfg, st, ops).trades[i], side) == c
    ensures var ts := Run(cfg, st, ops).trades;
            && 1 <= ts[i].quantity <= SubmittedBy(ops, side, c) - TradedBy(ts[..i], side, c)
            && Party(ts[i], side.Opposite()) != c
  {
    var ts := Run(cfg, st, ops).trades;
    PriceTime.StartIsSound(cfg, st);
    TradesPositive(cfg, st, ops);
    ClientAccount(cfg, st, ops, side, c);
    ClientAccount(cfg, st, ops, side.Opposite(), c);
    TradedUpTo(ts, i, side, c);
    TradedUpTo(ts, i, side.Opposite(), c);
  }
}
