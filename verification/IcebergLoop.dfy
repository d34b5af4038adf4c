/**
 The iceberg desk and the engine together: the desk's children go to one book, among other clients' orders
 and cancellations, and the book's trades come back to the desk in order.
 */
module IcebergLoop {
  import opened Market
  import opened Reference
  import opened Accounts
  import opened Iceberg
  import PriceTime

  // ----- Fills, leg by leg ------------------------------------------------------------------------

  datatype Fill = Fill(client: nat, quantity: nat)

  function FilledOf(fs: seq<Fill>, c: nat): nat {
    if |fs| == 0 then 0 else FilledOf(fs[..|fs| - 1], c) + if fs[|fs| - 1].client == c then fs[|fs| - 1].quantity else 0
  }

  lemma {:induction false} FilledOfOneMore(fs: seq<Fill>, f: Fill, c: nat)
    ensures FilledOf(fs + [f], c) == FilledOf(fs, c) + if f.client == c then f.quantity else 0
  {
    assert (fs + [f])[..|fs|] == fs;
  }

  /** Each trade is two fills, the buyer's first. */
  function Fills(ts: seq<Trade>): seq<Fill> {
    if |ts| == 0 then []
    else
      var t := ts[|ts| - 1];
      Fills(ts[..|ts| - 1]) + [Fill(t.buyClient, t.quantity)] + [Fill(t.sellClient, t.quantity)]
  }

  lemma {:induction false} FillsAreTrades(ts: seq<Trade>, c: nat)
    ensures FilledOf(Fills(ts), c) == TradedBy(ts, Buy, c) + TradedBy(ts, Sell, c)
  {
    if |ts| > 0 {
      var init, t := ts[..|ts| - 1], ts[|ts| - 1];
      assert ts == init + [t] && [t][1..] == [];
      FillsAreTrades(init, c);
      TradedByConcat(init, [t], Buy, c);
      TradedByConcat(init, [t], Sell, c);
      FilledOfOneMore(Fills(init), Fill(t.buyClient, t.quantity), c);
      FilledOfOneMore(Fills(init) + [Fill(t.buyClient, t.quantity)], Fill(t.sellClient, t.quantity), c);
    }
  }

  // ----- The desk's side of the account -----------------------------------------------------------

  /** What was dispatched for child `c` on `side`. */
  function SlicedBy(outbox: seq<Order>, side: Side, c: nat): nat {
    if |outbox| == 0 then 0 else SlicedBy(outbox[..|outbox| - 1], side, c) + OrderedBy(outbox[|outbox| - 1], side, c)
  }

  function Sliced(outbox: seq<Order>, c: nat): nat {
    SlicedBy(outbox, Buy, c) + SlicedBy(outbox, Sell, c)
  }

  lemma {:induction false} SlicedByOneMore(outbox: seq<Order>, o: Order, side: Side, c: nat)
    ensures SlicedBy(outbox + [o], side, c) == SlicedBy(outbox, side, c) + OrderedBy(o, side, c)
  {
    assert (outbox + [o])[..|outbox|] == outbox;
  }

  /** Children go out under rising ids, which are also their client ids. */
  ghost predicate OutboxOk(outbox: seq<Order>, nextChild: nat) {
    && nextChild > ICEBERG_BIT
    && (forall i :: 0 <= i < |outbox| ==>
          outbox[i].id == outbox[i].clientId && ICEBERG_BIT < outbox[i].id < nextChild && outbox[i].quantity >= 1)
    && (forall i, j :: 0 <= i < j < |outbox| ==> outbox[i].id < outbox[j].id)
  }

  lemma {:induction false} SlicedByNone(outbox: seq<Order>, side: Side, c: nat)
    requires forall i :: 0 <= i < |outbox| ==> outbox[i].clientId != c
    ensures SlicedBy(outbox, side, c) == 0
  {
    if |outbox| > 0 {
      SlicedByNone(outbox[..|outbox| - 1], side, c);
    }
  }

  /** A child is on one side only. */
  lemma {:induction false} SlicedOneSided(outbox: seq<Order>, nextChild: nat, side: Side, c: nat)
    requires OutboxOk(outbox, nextChild) && SlicedBy(outbox, side, c) > 0
    ensures SlicedBy(outbox, side.Opposite(), c) == 0
    decreases |outbox|
  {
    var init, o := outbox[..|outbox| - 1], outbox[|outbox| - 1];
    if o.clientId == c {
      SlicedByNone(init, side, c);
      SlicedByNone(init, side.Opposite(), c);
    } else {
      SlicedOneSided(init, nextChild, side, c);
    }
  }

  lemma {:induction false} SlicedByPrefix(outbox: seq<Order>, n: nat, side: Side, c: nat)
    requires n <= |outbox|
    ensures SlicedBy(outbox[..n], side, c) <= SlicedBy(outbox, side, c)
    decreases |outbox|
  {
    if n == |outbox| {
      assert outbox[..n] == outbox;
    } else {
      var init := outbox[..|outbox| - 1];
      assert init[..n] == outbox[..n];
      SlicedByPrefix(init, n, side, c);
    }
  }

  /** What is open of a live child is what was dispatched for it less what its fills have taken. */
  ghost predicate AccountAt(t: Tables, fs: seq<Fill>, c: nat) {
    ICEBERG_BIT < c < t.nextChild && c in t.open && t.open[c] + FilledOf(fs, c) == Sliced(t.outbox, c)
  }

  ghost predicate Account(t: Tables, fs: seq<Fill>) {
    && OutboxOk(t.outbox, t.nextChild)
    && forall c {:trigger AccountAt(t, fs, c)} :: c in t.childToParent ==> AccountAt(t, fs, c)
  }

  lemma {:induction false} AccountLeg(t: Tables, t': Tables, fs: seq<Fill>, child: nat, traded: nat)
    requires Account(t, fs) && Leg(t, t', child, traded) && FilledOf(fs, t.nextChild) == 0 && child != t.nextChild
    ensures Account(t', fs + [Fill(child, traded)])
  {
    var f := Fill(child, traded);
    forall c | c in t'.childToParent
      ensures AccountAt(t', fs + [f], c)
    {
      assert LegAt(t, t', child, traded, c);
      FilledOfOneMore(fs, f, c);
      if c in t.childToParent {
        assert AccountAt(t, fs, c);
        SlicedExtends(t, t', c);
      } else {
        SlicedNew(t, t');
      }
    }
  }

  lemma {:induction false} SlicedExtends(t: Tables, t': Tables, c: nat)
    requires Extends(t, t') && c < t.nextChild
    ensures Sliced(t'.outbox, c) == Sliced(t.outbox, c)
  {
    if t'.outbox != t.outbox {
      var o := t'.outbox[|t.outbox|];
      assert t'.outbox == t.outbox + [o];
      SlicedByOneMore(t.outbox, o, Buy, c);
      SlicedByOneMore(t.outbox, o, Sell, c);
    }
  }

  lemma {:induction false} SlicedNew(t: Tables, t': Tables)
    requires OutboxOk(t.outbox, t.nextChild) && Extends(t, t') && |t'.outbox| == |t.outbox| + 1
    ensures Sliced(t'.outbox, t.nextChild) == t'.outbox[|t.outbox|].quantity
  {
    var o, c := t'.outbox[|t.outbox|], t.nextChild;
    assert t'.outbox == t.outbox + [o];
    SlicedByNone(t.outbox, Buy, c);
    SlicedByNone(t.outbox, Sell, c);
    SlicedByOneMore(t.outbox, o, Buy, c);
    SlicedByOneMore(t.outbox, o, Sell, c);
  }

  /** A fill of nothing, or of something that is no live child, does not matter. */
  lemma {:induction false} AccountSkip(t: Tables, fs: seq<Fill>, f: Fill)
    requires f.client !in t.childToParent || f.quantity == 0
    ensures Account(t, fs) <==> Account(t, fs + [f])
  {
    forall x | x in t.childToParent
      ensures AccountAt(t, fs, x) <==> AccountAt(t, fs + [f], x)
    {
      FilledOfOneMore(fs, f, x);
    }
  }

  // ----- The engine's side of the account ---------------------------------------------------------

  /** An order of another client, or a cancellation: its ids do not carry the iceberg bit. */
  predicate Foreign(op: Op) {
    op.Submit? ==> op.order.id < ICEBERG_BIT && op.order.clientId < ICEBERG_BIT
  }

  /** Ids from here on have never been submitted. */
  function Unused(outbox: seq<Order>, fed: nat, nextChild: nat): nat {
    if fed < |outbox| then outbox[fed].id else nextChild
  }

  /** The book has been run on the first `fed` children, in their order, among foreign operations. */
  ghost predicate Fed(cfg: Config, start: State, ops: seq<Op>, outbox: seq<Order>, fed: nat, nextChild: nat) {
    && fed <= |outbox| && IsStart(start) && AdmissibleRun(cfg, start, ops)
    && (forall i :: 0 <= i < |ops| && ops[i].Submit? ==> ops[i].order.id < Unused(outbox, fed, nextChild))
    && (forall side, c {:trigger SubmittedBy(ops, side, c)} ::
          c >= ICEBERG_BIT ==> SubmittedBy(ops, side, c) == SlicedBy(outbox[..fed], side, c))
  }

  lemma {:induction false} SubmittedByOneMore(ops: seq<Op>, op: Op, side: Side, c: nat)
    ensures SubmittedBy(ops + [op], side, c)
         == SubmittedBy(ops, side, c) + if op.Submit? then OrderedBy(op.order, side, c) else 0
    decreases |ops|
  {
    if |ops| == 0 {
      assert ops + [op] == [op] && [op][1..] == [];
    } else {
      assert (ops + [op])[1..] == ops[1..] + [op];
      SubmittedByOneMore(ops[1..], op, side, c);
    }
  }

  lemma {:induction false} AdmissibleOneMore(cfg: Config, st: State, ops: seq<Op>, op: Op)
    requires AdmissibleRun(cfg, st, ops) && Admissible(Run(cfg, st, ops), op)
    ensures AdmissibleRun(cfg, st, ops + [op]) && Run(cfg, st, ops + [op]) == Step(cfg, Run(cfg, st, ops), op)
    decreases |ops|
  {
    if |ops| == 0 {
      assert ops + [op] == [op] && [op][1..] == [];
    } else {
      assert (ops + [op])[1..] == ops[1..] + [op];
      AdmissibleOneMore(cfg, Step(cfg, st, ops[0]), ops[1..], op);
    }
  }

  lemma {:induction false} IdStands(s: seq<Order>, id: nat) returns (i: nat)
    requires id in Ids(s)
    ensures i < |s| && s[i].id == id
    decreases |s|
  {
    if s[0].id == id {
      i := 0;
    } else {
      i := IdStands(s[1..], id);
      i := i + 1;
    }
  }

  /** An id that was never submitted does not rest. */
  lemma {:induction false} UnusedIsFree(cfg: Config, start: State, ops: seq<Op>, id: nat)
    requires IsStart(start) && AdmissibleRun(cfg, start, ops)
    requires forall i :: 0 <= i < |ops| && ops[i].Submit? ==> ops[i].order.id != id
    ensures var b := Run(cfg, start, ops).book; id !in Ids(b.bids) && id !in Ids(b.asks)
  {
    var b := Run(cfg, start, ops).book;
    PriceTime.RunIsPriceTime(cfg, start, ops);
    if id in Ids(b.bids) {
      var i := IdStands(b.bids, id);
    }
    if id in Ids(b.asks) {
      var i := IdStands(b.asks, id);
    }
  }

  /** The next child is always admissible. */
  lemma {:induction false} ChildIsAdmissible(cfg: Config, start: State, ops: seq<Op>, outbox: seq<Order>, fed: nat,
                                             nextChild: nat)
    requires Fed(cfg, start, ops, outbox, fed, nextChild) && OutboxOk(outbox, nextChild) && fed < |outbox|
    ensures Admissible(Run(cfg, start, ops), Submit(outbox[fed]))
  {
    UnusedIsFree(cfg, start, ops, outbox[fed].id);
  }

  /** Other clients' orders take their ids from one rising counter, below all ids of children. */
  ghost predicate Counted(ops: seq<Op>, nextId: nat) {
    && nextId <= ICEBERG_BIT
    && forall i :: 0 <= i < |ops| && ops[i].Submit? ==> ops[i].order.id < nextId || ops[i].order.id > ICEBERG_BIT
  }

  /** So another client's order is always admissible too. */
  lemma {:induction false} ForeignIsAdmissible(cfg: Config, start: State, ops: seq<Op>, nextId: nat, o: Order)
    requires IsStart(start) && AdmissibleRun(cfg, start, ops) && Counted(ops, nextId)
    requires o.id == nextId && o.quantity >= 1
    ensures Admissible(Run(cfg, start, ops), Submit(o))
  {
    UnusedIsFree(cfg, start, ops, nextId);
  }

  lemma {:induction false} FedChild(cfg: Config, start: State, ops: seq<Op>, outbox: seq<Order>, fed: nat,
                                    nextChild: nat)
    requires Fed(cfg, start, ops, outbox, fed, nextChild) && OutboxOk(outbox, nextChild) && fed < |outbox|
    ensures Fed(cfg, start, ops + [Submit(outbox[fed])], outbox, fed + 1, nextChild)
  {
    var o := outbox[fed];
    var ops' := ops + [Submit(o)];
    ChildIsAdmissible(cfg, start, ops, outbox, fed, nextChild);
    AdmissibleOneMore(cfg, start, ops, Submit(o));
    assert outbox[..fed + 1] == outbox[..fed] + [o];
    forall side, c | c >= ICEBERG_BIT
      ensures SubmittedBy(ops', side, c) == SlicedBy(outbox[..fed + 1], side, c)
    {
      SubmittedByOneMore(ops, Submit(o), side, c);
      SlicedByOneMore(outbox[..fed], o, side, c);
    }
  }

  lemma {:induction false} FedForeign(cfg: Config, start: State, ops: seq<Op>, outbox: seq<Order>, fed: nat,
                                      nextChild: nat, op: Op)
    requires Fed(cfg, start, ops, outbox, fed, nextChild) && OutboxOk(outbox, nextChild)
    requires Foreign(op) && Admissible(Run(cfg, start, ops), op)
    ensures Fed(cfg, start, ops + [op], outbox, fed, nextChild)
  {
    var ops' := ops + [op];
    AdmissibleOneMore(cfg, start, ops, op);
    forall side, c | c >= ICEBERG_BIT
      ensures SubmittedBy(ops', side, c) == SlicedBy(outbox[..fed], side, c)
    {
      SubmittedByOneMore(ops, op, side, c);
    }
  }

  /** New children in the outbox change nothing for the engine. */
  lemma {:induction false} FedExtends(cfg: Config, start: State, ops: seq<Op>, t: Tables, t': Tables, fed: nat)
    requires Fed(cfg, start, ops, t.outbox, fed, t.nextChild) && Extends(t, t')
    ensures Fed(cfg, start, ops, t'.outbox, fed, t'.nextChild)
  {
    assert t'.outbox[..fed] == t.outbox[..fed];
  }

  lemma {:induction false} TradesGrow(cfg: Config, st: State, op: Op, n: nat)
    requires n <= |st.trades|
    ensures |st.trades| <= |Step(cfg, st, op).trades| && Step(cfg, st, op).trades[..n] == st.trades[..n]
  {
    if op.Submit? && (op.order.execution == MarketOrder || cfg.InBand(op.order.price)) {
      var o := op.order;
      SubmitSpec(cfg, st, o, Match(o, st.book.Of(o.side.Opposite()), 1 + |st.trades|));
    }
  }

  /** A child not yet dispatched has no trades, and is party to none. */
  lemma {:induction false} UnbornHasNoTrades(cfg: Config, start: State, ops: seq<Op>, outbox: seq<Order>, fed: nat,
                                             nextChild: nat, read: nat, c: nat)
    requires Fed(cfg, start, ops, outbox, fed, nextChild) && OutboxOk(outbox, nextChild) && c >= nextChild
    requires read <= |Run(cfg, start, ops).trades|
    ensures FilledOf(Fills(Run(cfg, start, ops).trades[..read]), c) == 0
    ensures read < |Run(cfg, start, ops).trades| ==>
              Party(Run(cfg, start, ops).trades[read], Buy) != c && Party(Run(cfg, start, ops).trades[read], Sell) != c
  {
    var ts := Run(cfg, start, ops).trades;
    PriceTime.StartIsSound(cfg, start);
    TradesPositive(cfg, start, ops);
    forall side
      ensures TradedBy(ts, side, c) == 0
    {
      ClientAccount(cfg, start, ops, side, c);
      SlicedByNone(outbox[..fed], side, c);
    }
    assert ts == ts[..read] + ts[read..];
    TradedByConcat(ts[..read], ts[read..], Buy, c);
    TradedByConcat(ts[..read], ts[read..], Sell, c);
    FillsAreTrades(ts[..read], c);
    if read < |ts| {
      TradedUpTo(ts, read, Buy, c);
      TradedUpTo(ts, read, Sell, c);
    }
  }

  /** The next trade of a live child takes no more than is open of it, and has it on one side only. */
  lemma {:induction false} FillFits(cfg: Config, start: State, ops: seq<Op>, t: Tables, fed: nat, read: nat, side: Side)
    requires Fed(cfg, start, ops, t.outbox, fed, t.nextChild) && read < |Run(cfg, start, ops).trades|
    requires Account(t, Fills(Run(cfg, start, ops).trades[..read]))
    requires Party(Run(cfg, start, ops).trades[read], side) >= ICEBERG_BIT
    ensures var trade := Run(cfg, start, ops).trades[read];
            var c := Party(trade, side);
            && Party(trade, side.Opposite()) != c && trade.quantity >= 1
            && (c in t.childToParent ==> c in t.open && trade.quantity <= t.open[c])
  {
    var ts := Run(cfg, start, ops).trades;
    var c := Party(ts[read], side);
    PriceTime.StartIsSound(cfg, start);
    TradesPositive(cfg, start, ops);
    ClientAccount(cfg, start, ops, side, c);
    TradedUpTo(ts, read, side, c);
    SlicedByPrefix(t.outbox, fed, side, c);
    SlicedOneSided(t.outbox, t.nextChild, side, c);
    SlicedByPrefix(t.outbox, fed, side.Opposite(), c);
    assert SubmittedBy(ops, side.Opposite(), c) == 0;
    FillsFitTheirOrder(cfg, start, ops, side, c, read);
    ClientAccount(cfg, start, ops, side.Opposite(), c);
    TradedUpTo(ts, read, side.Opposite(), c);
    FillsAreTrades(ts[..read], c);
    if c in t.childToParent {
      assert AccountAt(t, Fills(ts[..read]), c);
    }
  }

  /** A live child was sent out on its parent's side only. */
  lemma {:induction false} SlicedOnTerms(outbox: seq<Order>, parentOf: map<nat, nat>, parents: map<nat, Parent>,
                                         side: Side, c: nat)
    requires SentOnTerms(outbox, parentOf, parents) && c in parentOf && parentOf[c] in parents
    requires parents[parentOf[c]].side != side
    ensures SlicedBy(outbox, side, c) == 0
    decreases |outbox|
  {
    assert UnlockTerms(0);
    if |outbox| > 0 {
      SlicedOnTerms(outbox[..|outbox| - 1], parentOf, parents, side, c);
    }
  }

  /** So the next trade has a live child on its parent's side. */
  lemma {:induction false} FillOnTerms(cfg: Config, start: State, ops: seq<Op>, t: Tables, fed: nat, read: nat,
                                       side: Side)
    requires Consistent(t, -1) && Fed(cfg, start, ops, t.outbox, fed, t.nextChild)
    requires read < |Run(cfg, start, ops).trades| && Account(t, Fills(Run(cfg, start, ops).trades[..read]))
    requires Party(Run(cfg, start, ops).trades[read], side) in t.childToParent
    ensures var id := t.childToParent[Party(Run(cfg, start, ops).trades[read], side)];
            id in t.parents && t.parents[id].side == side
  {
    assert UnlockTables(0);
    var ts := Run(cfg, start, ops).trades;
    var c := Party(ts[read], side);
    assert ChildOk(t, c, -1) && AccountAt(t, Fills(ts[..read]), c);
    PriceTime.StartIsSound(cfg, start);
    TradesPositive(cfg, start, ops);
    ClientAccount(cfg, start, ops, side, c);
    TradedUpTo(ts, read, side, c);
    SlicedByPrefix(t.outbox, fed, side, c);
    if t.parents[t.childToParent[c]].side != side {
      SlicedOnTerms(t.outbox, t.parentOf, t.parents, side, c);
    }
  }

  /** A buying parent is credited with the trades in which its live child buys, a selling one with its sales. */
  ghost predicate CreditedOnSide(before: map<nat, Parent>, after: map<nat, Parent>, childToParent: map<nat, nat>,
                                 trade: Trade) {
    forall id :: id in before ==>
      && id in after
      && var c := if before[id].side == Buy then trade.buyClient else trade.sellClient;
         after[id].filled == before[id].filled
           + if c in childToParent && childToParent[c] == id then trade.quantity else 0
  }

  lemma {:induction false} PaidOnSide(cfg: Config, start: State, ops: seq<Op>, t: Tables, after: map<nat, Parent>,
                                      fed: nat, read: nat)
    requires Consistent(t, -1) && Fed(cfg, start, ops, t.outbox, fed, t.nextChild) && t.nextChild < 2 * ICEBERG_BIT
    requires read < |Run(cfg, start, ops).trades| && Account(t, Fills(Run(cfg, start, ops).trades[..read]))
    requires PaidBoth(t.parents, after, t.childToParent, Run(cfg, start, ops).trades[read])
    ensures CreditedOnSide(t.parents, after, t.childToParent, Run(cfg, start, ops).trades[read])
  {
    var trade := Run(cfg, start, ops).trades[read];
    LiveIsIceberg(t, Fills(Run(cfg, start, ops).trades[..read]));
    if trade.buyClient in t.childToParent {
      FillOnTerms(cfg, start, ops, t, fed, read, Buy);
    }
    if trade.sellClient in t.childToParent {
      FillOnTerms(cfg, start, ops, t, fed, read, Sell);
    }
  }

  // ----- Desk and book in a loop --------------------------------------------------------------------

  class Floor {
    const cfg: Config
    const desk: Desk
    /** The book, by the reference; how many children it has taken and how many of its trades the desk has read. */
    var st: State
    var fed: nat
    var read: nat
    /** The counter from which all orders but children take their ids. */
    var nextId: nat
    ghost const start: State
    ghost var ops: seq<Op>

    /**
     At any time what is open of each live child is what was dispatched for it less the trades read so far,
     and the book has run on exactly the children taken from the outbox and on foreign operations.
     */
    ghost predicate Valid()
      reads this, desk
    {
      && desk.Valid() && st == Run(cfg, start, ops) && read <= |st.trades|
      && Fed(cfg, start, ops, desk.outbox, fed, desk.nextChild)
      && Account(desk.Now(), Fills(st.trades[..read])) && Counted(ops, nextId)
    }

    constructor (cfg: Config, boot: nat)
      requires boot <= ICEBERG_BIT
      ensures Valid() && fresh(desk) && this.cfg == cfg && nextId == boot && ops == [] && desk.parents == map[]
    {
      this.cfg := cfg;
      desk := new Desk();
      var empty := State(Book([], []), [], Ledger(0, 0, 0), Ledger(0, 0, 0));
      st, fed, read, nextId, start, ops := empty, 0, 0, boot, empty, [];
    }

    /** A client's iceberg order. */
    method Place(p: Parent)
      requires Valid() && p.clientId !in desk.parents && p.display >= 1 && p.filled == 0 && p.active
      modifies desk
      ensures Valid() && desk.parents == old(desk.parents)[p.clientId := p.(active := p.quantity > 0)]
    {
      ghost var t, fs := desk.Now(), Fills(st.trades[..read]);
      UnbornHasNoTrades(cfg, start, ops, t.outbox, fed, t.nextChild, read, t.nextChild);
      desk.Register(p);
      AccountLeg(t, desk.Now(), fs, 0, 0);
      AccountSkip(desk.Now(), fs, Fill(0, 0));
      FedExtends(cfg, start, ops, t, desk.Now(), fed);
    }

    /** The engine takes the next child. */
    method TakeChild()
      requires Valid() && fed < |desk.outbox|
      modifies this`st, this`fed, this`ops
      ensures Valid() && fed == old(fed) + 1 && ops == old(ops) + [Submit(desk.outbox[old(fed)])]
    {
      var o := desk.outbox[fed];
      ChildIsAdmissible(cfg, start, ops, desk.outbox, fed, desk.nextChild);
      FedChild(cfg, start, ops, desk.outbox, fed, desk.nextChild);
      AdmissibleOneMore(cfg, start, ops, Submit(o));
      TradesGrow(cfg, st, Submit(o), read);
      st, fed := DoSubmit(cfg, st, o), fed + 1;
      ops := ops + [Submit(o)];
    }

    /** Another client's order, market, limit or triggered stop: that its id is free is a consequence of the counter. */
    method TakeForeign(order: Order)
      requires Valid() && order.quantity >= 1 && order.clientId < ICEBERG_BIT && nextId < ICEBERG_BIT
      modifies this`st, this`ops, this`nextId
      ensures Valid() && nextId == old(nextId) + 1 && ops == old(ops) + [Submit(order.(id := old(nextId)))]
    {
      var o := order.(id := nextId);
      ForeignIsAdmissible(cfg, start, ops, nextId, o);
      Apply(Submit(o));
      nextId := nextId + 1;
    }

    /** A cancellation of any order, resting or not. */
    method TakeCancel(id: nat)
      requires Valid()
      modifies this`st, this`ops
      ensures Valid() && ops == old(ops) + [Cancel(id)]
    {
      Apply(Cancel(id));
    }

    /** The book takes an operation that is not the desk's. */
    method Apply(op: Op)
      requires Valid() && Foreign(op) && Admissible(st, op)
      modifies this`st, this`ops
      ensures st == Run(cfg, start, ops) && read <= |st.trades| && st.trades[..read] == old(st.trades[..read])
      ensures Fed(cfg, start, ops, desk.outbox, fed, desk.nextChild) && ops == old(ops) + [op]
    {
      FedForeign(cfg, start, ops, desk.outbox, fed, desk.nextChild, op);
      AdmissibleOneMore(cfg, start, ops, op);
      TradesGrow(cfg, st, op, read);
      st := Step(cfg, st, op);
      ops := ops + [op];
    }

    /**
     The desk reads the next trade.  That it fits what is open of each child it fills is a consequence, not
     an assumption, and so is that a child is filled on its parent's side.
     */
    method ReadTrade()
      requires Valid() && read < |st.trades| && desk.nextChild < 2 * ICEBERG_BIT
      modifies this`read, desk
      ensures Valid() && read == old(read) + 1
      ensures CreditedOnSide(old(desk.parents), desk.parents, old(desk.childToParent), st.trades[old(read)])
    {
      var trade := st.trades[read];
      ghost var t := desk.Now();
      TradeFits(cfg, start, ops, t, fed, read);
      ghost var mid := desk.CheckFill(trade);
      TradeAccounted(cfg, start, ops, t, mid, desk.Now(), fed, read);
      PaidOnSide(cfg, start, ops, t, desk.parents, fed, read);
      read := read + 1;
    }
  }

  /** What the desk asks of a trade is true of the next one. */
  lemma {:induction false} TradeFits(cfg: Config, start: State, ops: seq<Op>, t: Tables, fed: nat, read: nat)
    requires Consistent(t, -1) && Fed(cfg, start, ops, t.outbox, fed, t.nextChild)
    requires read < |Run(cfg, start, ops).trades|
    requires Account(t, Fills(Run(cfg, start, ops).trades[..read]))
    ensures var trade := Run(cfg, start, ops).trades[read];
            && (forall c :: c in t.childToParent && (c == trade.buyClient || c == trade.sellClient) ==>
                  c in t.open && 1 <= trade.quantity <= t.open[c])
            && (HasIcebergBit(trade.sellClient) ==>
               trade.buyClient != trade.sellClient && trade.sellClient != t.nextChild)
  {
    var trade := Run(cfg, start, ops).trades[read];
    LiveIsIceberg(t, Fills(Run(cfg, start, ops).trades[..read]));
    if trade.buyClient >= ICEBERG_BIT {
      FillFits(cfg, start, ops, t, fed, read, Buy);
    }
    if trade.sellClient >= ICEBERG_BIT {
      FillFits(cfg, start, ops, t, fed, read, Sell);
    }
    UnbornHasNoTrades(cfg, start, ops, t.outbox, fed, t.nextChild, read, t.nextChild);
  }

  lemma {:induction false} LiveIsIceberg(t: Tables, fs: seq<Fill>)
    requires Account(t, fs)
    ensures forall c :: c in t.childToParent ==> ICEBERG_BIT < c < t.nextChild
  {
    forall c | c in t.childToParent
      ensures ICEBERG_BIT < c < t.nextChild
    {
      assert AccountAt(t, fs, c);
    }
  }

  /** Reading a trade, leg by leg. */
  lemma {:induction false} TradeAccounted(cfg: Config, start: State, ops: seq<Op>, t: Tables, mid: Tables, t': Tables,
                                          fed: nat, read: nat)
    requires Consistent(t, -1) && Consistent(mid, -1) && t.nextChild < 2 * ICEBERG_BIT
    requires Fed(cfg, start, ops, t.outbox, fed, t.nextChild) && read < |Run(cfg, start, ops).trades|
    requires Account(t, Fills(Run(cfg, start, ops).trades[..read]))
    requires var trade := Run(cfg, start, ops).trades[read];
             && (if HasIcebergBit(trade.buyClient) then Leg(t, mid, trade.buyClient, trade.quantity) else mid == t)
             && (if HasIcebergBit(trade.sellClient) then Leg(mid, t', trade.sellClient, trade.quantity) else t' == mid)
    ensures Fed(cfg, start, ops, t'.outbox, fed, t'.nextChild)
    ensures Account(t', Fills(Run(cfg, start, ops).trades[..read + 1]))
  {
    var ts := Run(cfg, start, ops).trades;
    var trade, fs := ts[read], Fills(ts[..read]);
    var buy, sell := Fill(trade.buyClient, trade.quantity), Fill(trade.sellClient, trade.quantity);
    UnbornHasNoTrades(cfg, start, ops, t.outbox, fed, t.nextChild, read, t.nextChild);
    OneLeg(t, mid, fs, buy);
    if t != mid {
      FedExtends(cfg, start, ops, t, mid, fed);
    }
    assert mid.nextChild == t.nextChild || mid.nextChild == t.nextChild + 1;
    UnbornHasNoTrades(cfg, start, ops, t.outbox, fed, t.nextChild, read, mid.nextChild);
    FilledOfOneMore(fs, buy, mid.nextChild);
    OneLeg(mid, t', fs + [buy], sell);
    if mid != t' {
      FedExtends(cfg, start, ops, mid, t', fed);
    }
    assert ts[..read + 1][..read] == ts[..read];
  }

  lemma {:induction false} OneLeg(t: Tables, t': Tables, fs: seq<Fill>, f: Fill)
    requires Account(t, fs) && FilledOf(fs, t.nextChild) == 0 && f.client != t.nextChild
    requires t.nextChild <= 2 * ICEBERG_BIT
    requires if HasIcebergBit(f.client) then Leg(t, t', f.client, f.quantity) else t' == t
    ensures Account(t', fs + [f]) && (t' == t || Extends(t, t'))
  {
    if HasIcebergBit(f.client) {
      AccountLeg(t, t', fs, f.client, f.quantity);
    } else {
      LiveIsIceberg(t, fs);
      AccountSkip(t, fs, f);
    }
  }
}
