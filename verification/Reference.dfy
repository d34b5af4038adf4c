/**
 The trading rules without any data structure: each side of a book is one list,
 sorted by price and then by arrival, and an incoming order eats the opposite list
 from the front.  The concrete engine is proved to agree with this.
 */
module Reference {
  import opened Market

  datatype Config = Config(capacity: nat, lower: nat, upper: nat) {
    predicate InBand(p: nat) {
      lower <= p <= upper
    }
  }

  datatype Book = Book(bids: seq<Order>, asks: seq<Order>) {
    function Of(side: Side): seq<Order> {
      if side == Buy then bids else asks
    }
    function With(side: Side, s: seq<Order>): Book {
      if side == Buy then Book(s, asks) else Book(bids, s)
    }
    function Size(): nat {
      |bids| + |asks|
    }
  }

  /** What has happened to all the quantity ever submitted on one side. */
  datatype Ledger = Ledger(submitted: nat, discarded: nat, cancelled: nat)

  datatype State = State(book: Book, trades: seq<Trade>, buys: Ledger, sells: Ledger) {
    function LedgerOf(side: Side): Ledger {
      if side == Buy then buys else sells
    }
    function WithLedger(side: Side, l: Ledger): State {
      if side == Buy then this.(buys := l) else this.(sells := l)
    }
  }

  /** An empty book that has never seen an order. */
  predicate IsStart(st: State) {
    && |st.book.bids| == 0 && |st.book.asks| == 0 && |st.trades| == 0
    && forall side ::
         st.LedgerOf(side).submitted == 0 && st.LedgerOf(side).discarded == 0 && st.LedgerOf(side).cancelled == 0
  }

  datatype Op = Submit(order: Order) | Cancel(id: nat)

  // ----- Matching --------------------------------------------------------------

  datatype MatchResult = MatchResult(trades: seq<Trade>, remaining: nat, makers: seq<Order>)

  function MakeTrade(tid: nat, taker: Order, maker: Order, quantity: nat): Trade {
    if taker.side == Buy
    then Trade(tid, taker.timestamp, maker.price, taker.clientId, maker.clientId, taker.symbol, quantity)
    else Trade(tid, taker.timestamp, maker.price, maker.clientId, taker.clientId, taker.symbol, quantity)
  }

  predicate CanTrade(taker: Order, price: int) {
    taker.execution == MarketOrder || Crosses(taker.side, taker.price, price)
  }

  /** Greedy matching of `taker` against the list `makers`, best first. */
  function Match(taker: Order, makers: seq<Order>, tid: nat): MatchResult
    decreases |makers|
  {
    if taker.quantity == 0 || makers == [] || !CanTrade(taker, makers[0].price) then
      MatchResult([], taker.quantity, makers)
    else if makers[0].quantity > taker.quantity then
      MatchResult([MakeTrade(tid, taker, makers[0], taker.quantity)], 0,
                  [makers[0].(quantity := makers[0].quantity - taker.quantity)] + makers[1..])
    else
      var r := Match(taker.(quantity := taker.quantity - makers[0].quantity), makers[1..], tid + 1);
      MatchResult([MakeTrade(tid, taker, makers[0], makers[0].quantity)] + r.trades, r.remaining, r.makers)
  }

  // ----- Resting and cancelling ------------------------------------------------

  /** Behind every order whose price is at least as good, ahead of the others. */
  function Insert(side: Side, s: seq<Order>, o: Order): seq<Order> {
    if s == [] || Key(side, o.price) < Key(side, s[0].price) then [o] + s
    else [s[0]] + Insert(side, s[1..], o)
  }

  function Without(s: seq<Order>, id: nat): seq<Order> {
    if s == [] then [] else if s[0].id == id then s[1..] else [s[0]] + Without(s[1..], id)
  }

  function Ids(s: seq<Order>): set<nat> {
    if s == [] then {} else {s[0].id} + Ids(s[1..])
  }

  function QtyOf(s: seq<Order>, id: nat): nat {
    if s == [] then 0 else if s[0].id == id then s[0].quantity else QtyOf(s[1..], id)
  }

  // ----- Steps and runs --------------------------------------------------------

  function Discard(st: State, side: Side, quantity: nat): State {
    var l := st.LedgerOf(side);
    st.WithLedger(side, l.(discarded := l.discarded + quantity))
  }

  /** Rest `o` if the book has room, otherwise drop it. */
  function Rest(cfg: Config, st: State, o: Order): State {
    if st.book.Size() < cfg.capacity
    then st.(book := st.book.With(o.side, Insert(o.side, st.book.Of(o.side), o)))
    else Discard(st, o.side, o.quantity)
  }

  function Accept(st: State, o: Order): State {
    var l := st.LedgerOf(o.side);
    st.WithLedger(o.side, l.(submitted := l.submitted + o.quantity))
  }

  /** Trade `o` against the opposite side; what is left of it is `Match(...).remaining`. */
  function Trades(st: State, o: Order): State {
    var opp := o.side.Opposite();
    var r := Match(o, st.book.Of(opp), 1 + |st.trades|);
    st.(book := st.book.With(opp, r.makers), trades := st.trades + r.trades)
  }

  function Left(st: State, o: Order): nat {
    Match(o, st.book.Of(o.side.Opposite()), 1 + |st.trades|).remaining
  }

  function DoSubmit(cfg: Config, st: State, o: Order): State {
    var st0 := Accept(st, o);
    if o.execution != MarketOrder && !cfg.InBand(o.price) then Discard(st0, o.side, o.quantity)
    else if Left(st, o) == 0 then Trades(st0, o)
    else if o.execution == MarketOrder then Discard(Trades(st0, o), o.side, Left(st, o))
    else Rest(cfg, Trades(st0, o), o.(quantity := Left(st, o)))
  }

  function DoCancel(st: State, id: nat): State {
    var b := st.book;
    State(Book(Without(b.bids, id), Without(b.asks, id)), st.trades,
          st.buys.(cancelled := st.buys.cancelled + QtyOf(b.bids, id)),
          st.sells.(cancelled := st.sells.cancelled + QtyOf(b.asks, id)))
  }

  function Step(cfg: Config, st: State, op: Op): State {
    match op
    case Submit(o) => DoSubmit(cfg, st, o)
    case Cancel(id) => DoCancel(st, id)
  }

  function Run(cfg: Config, st: State, ops: seq<Op>): State
    decreases |ops|
  {
    if ops == [] then st else Run(cfg, Step(cfg, st, ops[0]), ops[1..])
  }

  /** What the OMS owes the engine: a positive quantity and an id that is not resting. */
  predicate Admissible(st: State, op: Op) {
    op.Submit? ==> op.order.quantity >= 1 && op.order.id !in Ids(st.book.bids) && op.order.id !in Ids(st.book.asks)
  }

  predicate AdmissibleRun(cfg: Config, st: State, ops: seq<Op>)
    decreases |ops|
  {
    ops == [] || (Admissible(st, ops[0]) && AdmissibleRun(cfg, Step(cfg, st, ops[0]), ops[1..]))
  }

  // ----- What every reachable state satisfies ------------------------------------

  /** A well-formed side: live orders of that side inside the band, best price first, ids pairwise distinct. */
  predicate Ladder(cfg: Config, side: Side, s: seq<Order>) {
    s == [] ||
    (&& s[0].side == side && s[0].quantity >= 1 && cfg.InBand(s[0].price)
     && (|s| > 1 ==> Key(side, s[0].price) <= Key(side, s[1].price))
     && s[0].id !in Ids(s[1..])
     && Ladder(cfg, side, s[1..]))
  }

  /** Neither crossed nor locked: the best bid is strictly below the best ask. */
  predicate Uncrossed(b: Book) {
    b.bids == [] || b.asks == [] || b.bids[0].price < b.asks[0].price
  }

  predicate Orderly(cfg: Config, b: Book) {
    && Ladder(cfg, Buy, b.bids) && Ladder(cfg, Sell, b.asks)
    && Uncrossed(b)
    && Ids(b.bids) !! Ids(b.asks)
  }

  /** Every unit submitted has been traded, dropped or cancelled, still rests, or is among the `pending` ones. */
  predicate Balanced(st: State, side: Side, pending: nat) {
    var l := st.LedgerOf(side);
    l.submitted == SumTraded(st.trades) + SumQty(st.book.Of(side)) + l.discarded + l.cancelled + pending
  }

  /** What holds in the middle of a submission, while `pending` units of the taker are still to be placed. */
  ghost predicate SoundWith(cfg: Config, st: State, taker: Side, pending: nat) {
    && Orderly(cfg, st.book)
    && st.book.Size() <= cfg.capacity
    && Balanced(st, taker, pending) && Balanced(st, taker.Opposite(), 0)
    && TradesOk(cfg, st.trades)
  }

  /** Trades are numbered from 1, at prices inside the band. */
  ghost predicate TradesOk(cfg: Config, ts: seq<Trade>) {
    forall i :: 0 <= i < |ts| ==> ts[i].id == 1 + i && cfg.InBand(ts[i].price)
  }

  ghost predicate Sound(cfg: Config, st: State) {
    SoundWith(cfg, st, Buy, 0)
  }

  // ----- Matching, characterised -------------------------------------------------

  /** The first `k` trades consume the first `k` makers whole, in book order. */
  ghost predicate EatsWhole(taker: Order, makers: seq<Order>, trades: seq<Trade>, k: nat, tid: nat) {
    && k <= |makers| && k <= |trades|
    && forall i :: 0 <= i < k ==>
         trades[i] == MakeTrade(tid + i, taker, makers[i], makers[i].quantity) && CanTrade(taker, makers[i].price)
  }

  /**
   After the `k` makers eaten whole, either matching has stopped for good, or one more maker is
   filled in part, keeps its place at the front, and exhausts the taker.
   */
  ghost predicate EatsRest(taker: Order, makers: seq<Order>, r: MatchResult, k: nat, tid: nat)
    requires k <= |makers|
  {
    var q := taker.quantity - SumQty(makers[..k]);
    if |r.trades| == k then
      && r.makers == makers[k..]
      && r.remaining == q
      && (r.remaining == 0 || r.makers == [] || !CanTrade(taker, r.makers[0].price))
    else
      && k < |makers| && |r.trades| == k + 1 && r.remaining == 0
      && 0 < q < makers[k].quantity && CanTrade(taker, makers[k].price)
      && r.trades[k] == MakeTrade(tid + k, taker, makers[k], q)
      && r.makers == [makers[k].(quantity := makers[k].quantity - q)] + makers[k + 1..]
  }

  lemma {:induction false} EatOneMore(taker: Order, makers: seq<Order>, r': MatchResult, k': nat, tid: nat)
    requires makers != [] && makers[0].quantity <= taker.quantity && CanTrade(taker, makers[0].price)
    requires var taker' := taker.(quantity := taker.quantity - makers[0].quantity);
             EatsWhole(taker', makers[1..], r'.trades, k', tid + 1) && EatsRest(taker', makers[1..], r', k', tid + 1)
    ensures var r := r'.(trades := [MakeTrade(tid, taker, makers[0], makers[0].quantity)] + r'.trades);
            EatsWhole(taker, makers, r.trades, k' + 1, tid) && EatsRest(taker, makers, r, k' + 1, tid)
  {
    var rest, k := makers[1..], k' + 1;
    var trades := [MakeTrade(tid, taker, makers[0], makers[0].quantity)] + r'.trades;
    forall i | 0 <= i < k
      ensures trades[i] == MakeTrade(tid + i, taker, makers[i], makers[i].quantity) && CanTrade(taker, makers[i].price)
    {
      if i > 0 {
        assert makers[i] == rest[i - 1];
      }
    }
    assert makers[..k][1..] == rest[..k'];
    assert rest[k'..] == makers[k..];
    if |r'.trades| != k' {
      assert rest[k' + 1..] == makers[k + 1..];
    }
  }

  lemma {:induction false} MatchEats(taker: Order, makers: seq<Order>, tid: nat) returns (k: nat)
    ensures var r := Match(taker, makers, tid);
            EatsWhole(taker, makers, r.trades, k, tid) && EatsRest(taker, makers, r, k, tid)
    decreases |makers|
  {
    if taker.quantity == 0 || makers == [] || !CanTrade(taker, makers[0].price) || makers[0].quantity > taker.quantity {
      k := 0;
      assert makers[..0] == [] && makers[0..] == makers;
    } else {
      var taker' := taker.(quantity := taker.quantity - makers[0].quantity);
      k := MatchEats(taker', makers[1..], tid + 1);
      EatOneMore(taker, makers, Match(taker', makers[1..], tid + 1), k, tid);
      k := k + 1;
    }
  }

  lemma {:induction false} TradeWithinLimit(taker: Order, makers: seq<Order>, tid: nat, k: nat)
    requires taker.execution != MarketOrder && k < |Match(taker, makers, tid).trades|
    ensures var price := Match(taker, makers, tid).trades[k].price;
            if taker.side == Buy then price <= taker.price else price >= taker.price
    decreases |makers|
  {
    assert Crosses(taker.side, taker.price, makers[0].price);
    if k > 0 {
      TradeWithinLimit(taker.(quantity := taker.quantity - makers[0].quantity), makers[1..], tid + 1, k - 1);
    }
  }

  lemma {:induction false} MarketIsFilled(taker: Order, makers: seq<Order>, tid: nat)
    requires taker.execution == MarketOrder
    ensures Match(taker, makers, tid).remaining == 0 || Match(taker, makers, tid).makers == []
    decreases |makers|
  {
    if taker.quantity > 0 && makers != [] && makers[0].quantity <= taker.quantity {
      MarketIsFilled(taker.(quantity := taker.quantity - makers[0].quantity), makers[1..], tid + 1);
    }
  }

  /** A limit is never exceeded; a market order stops only when it is filled or the side is empty. */
  lemma {:induction false} MatchWithinLimit(taker: Order, makers: seq<Order>, tid: nat)
    ensures var r := Match(taker, makers, tid);
            && (taker.execution != MarketOrder ==>
                  forall i :: 0 <= i < |r.trades| ==>
                    if taker.side == Buy then r.trades[i].price <= taker.price else r.trades[i].price >= taker.price)
            && (taker.execution == MarketOrder ==> r.remaining == 0 || r.makers == [])
  {
    var ts := Match(taker, makers, tid).trades;
    if taker.execution == MarketOrder {
      MarketIsFilled(taker, makers, tid);
    } else {
      forall i | 0 <= i < |ts|
        ensures if taker.side == Buy then ts[i].price <= taker.price else ts[i].price >= taker.price
      {
        TradeWithinLimit(taker, makers, tid, i);
      }
    }
  }

  /** Both sides of a match are debited by exactly what was traded. */
  lemma {:induction false} MatchConserves(taker: Order, makers: seq<Order>, tid: nat)
    ensures var r := Match(taker, makers, tid);
            && taker.quantity == SumTraded(r.trades) + r.remaining
            && SumQty(makers) == SumTraded(r.trades) + SumQty(r.makers)
    decreases |makers|
  {
    if taker.quantity == 0 || makers == [] || !CanTrade(taker, makers[0].price) {
    } else if makers[0].quantity > taker.quantity {
      var r := Match(taker, makers, tid);
      assert r.makers[1..] == makers[1..];
      assert r.trades[1..] == [];
    } else {
      var taker' := taker.(quantity := taker.quantity - makers[0].quantity);
      MatchConserves(taker', makers[1..], tid + 1);
      var r, r' := Match(taker, makers, tid), Match(taker', makers[1..], tid + 1);
      assert r.trades[1..] == r'.trades;
    }
  }

  // ----- A submission, read off its match ----------------------------------------------

  /** The book after resting what is left of a limit order, if there is room. */
  function Rested(cfg: Config, b: Book, o: Order): Book {
    if o.quantity > 0 && b.Size() < cfg.capacity then b.With(o.side, Insert(o.side, b.Of(o.side), o)) else b
  }

  /** What a submission does to the book and the trades, read off the reference. */
  lemma {:induction false} SubmitSpec(cfg: Config, st: State, o: Order, r: MatchResult)
    requires o.execution == MarketOrder || cfg.InBand(o.price)
    requires r == Match(o, st.book.Of(o.side.Opposite()), 1 + |st.trades|)
    ensures var b := st.book.With(o.side.Opposite(), r.makers);
            var st' := DoSubmit(cfg, st, o);
            && st'.book == (if o.execution == MarketOrder then b else Rested(cfg, b, o.(quantity := r.remaining)))
            && st'.trades == st.trades + r.trades
            && st'.buys.cancelled == st.buys.cancelled && st'.sells.cancelled == st.sells.cancelled
  {
  }

  // ----- Insertion and removal, by place ----------------------------------------------

  lemma {:induction false} InsertPlace(side: Side, a: seq<Order>, b: seq<Order>, o: Order)
    requires forall x :: x in a ==> Key(side, x.price) <= Key(side, o.price)
    requires b == [] || Key(side, o.price) < Key(side, b[0].price)
    ensures Insert(side, a + b, o) == a + [o] + b
    decreases |a|
  {
    if a == [] {
      assert a + b == b;
    } else {
      assert (a + b)[1..] == a[1..] + b;
      InsertPlace(side, a[1..], b, o);
      assert a == [a[0]] + a[1..];
    }
  }

  lemma {:induction false} WithoutAbsent(s: seq<Order>, id: nat)
    requires id !in Ids(s)
    ensures Without(s, id) == s && QtyOf(s, id) == 0
    decreases |s|
  {
    if s != [] {
      WithoutAbsent(s[1..], id);
    }
  }
}
