/** Iceberg slicing in the order management system. */
module Iceberg {
  import opened Market
  import opened Bits

  const ICEBERG_BIT: nat := 0x8000_0000_0000_0000

  predicate HasIcebergBit(id: nat) {
    (id / ICEBERG_BIT) % 2 == 1
  }

  datatype Parent = Parent(
    clientId: nat, price: nat, symbol: nat, trader: nat, side: Side,
    quantity: nat, display: nat, filled: nat, active: bool)

  // ----- One parent -----------------------------------------------------------------------

  function Min(a: nat, b: nat): nat {
    if a <= b then a else b
  }

  /** `count` displays. */
  function Displays(count: nat, display: nat): nat {
    if count == 0 then 0 else Displays(count - 1, display) + display
  }

  lemma {:induction false} DisplaysMultiply(count: nat, display: nat)
    ensures Displays(count, display) == count * display
    decreases count
  {
    if count > 0 {
      DisplaysMultiply(count - 1, display);
      NextMultiple(display, count - 1);
    }
  }

  /** The test by which check_fill decides that the live slice is used up. */
  predicate SliceFilled(p: Parent)
    requires p.display >= 1
  {
    p.filled % p.display == 0 || p.filled == p.quantity
  }

  /**
   A parent after `count` slices of together `sent` units, of which `open` are still in the market: an
   unfinished parent is active and has one live slice, a finished one is inactive and has none.
   */
  ghost predicate OnTrack(p: Parent, count: nat, open: nat, sent: nat) {
    && p.display >= 1 && p.filled <= p.quantity
    && p.filled + open == sent == Min(Displays(count, p.display), p.quantity)
    && (p.active <==> p.filled < p.quantity)
    && (p.active ==> open >= 1 && count >= 1 && Displays(count - 1, p.display) <= p.filled)
    && (!p.active ==> open == 0 && LastCount(p, count))
  }

  /** A parent between two slices: nothing of it is in the market. */
  ghost predicate Due(p: Parent, count: nat, sent: nat) {
    && p.display >= 1 && p.active && p.filled <= p.quantity && p.filled == sent
    && (p.filled < p.quantity ==> p.filled == Displays(count, p.display))
    && (p.filled == p.quantity ==> LastCount(p, count))
  }

  /** `count` slices are the fewest that cover the whole quantity. */
  ghost predicate LastCount(p: Parent, count: nat) {
    p.quantity <= Displays(count, p.display) && (count >= 1 ==> Displays(count - 1, p.display) < p.quantity)
  }

  function CeilDiv(q: nat, d: nat): nat
    requires d >= 1
  {
    (q + d - 1) / d
  }

  lemma {:induction false} LastCountIsCeil(p: Parent, count: nat)
    requires p.display >= 1 && LastCount(p, count)
    ensures count == CeilDiv(p.quantity, p.display)
  {
    var d := p.display;
    DisplaysMultiply(count, d);
    assert d * count == count * d;
    assert p.quantity + d - 1 - count * d < d;
    ModUnique(p.quantity + d - 1, d, count, p.quantity + d - 1 - count * d);
  }

  /** After a fill of the live slice, the modulo test fires exactly when nothing of the slice is left. */
  lemma {:induction false} TestIsExact(p: Parent, count: nat, open: nat, sent: nat, traded: nat)
    requires OnTrack(p, count, open, sent) && p.active && 1 <= traded <= open
    ensures p.display >= 1 && p.filled + traded <= p.quantity
    ensures SliceFilled(p.(filled := p.filled + traded)) <==> traded == open
    ensures traded < open ==> OnTrack(p.(filled := p.filled + traded), count, open - traded, sent)
  {
    var d, f := p.display, p.filled + traded;
    var low, high := Displays(count - 1, d), Displays(count, d);
    DisplaysMultiply(count - 1, d);
    DisplaysMultiply(count, d);
    assert d * (count - 1) == (count - 1) * d && d * count == count * d;
    assert high == low + d && low < f <= high;
    if f < high {
      ModUnique(f, d, count - 1, f - low);
    } else {
      ModUnique(f, d, count, 0);
    }
  }

  /** The next slice is a whole display, or what is left. */
  lemma {:induction false} SliceGoesOut(p: Parent, count: nat, sent: nat)
    requires Due(p, count, sent) && p.filled < p.quantity
    ensures var q := Min(p.display, p.quantity - p.filled); q >= 1 && OnTrack(p, count + 1, q, sent + q)
  {
  }

  /** A parent that is wholly filled has used exactly ceil(quantity / display) children, together its quantity. */
  lemma {:induction false} FilledParent(p: Parent, count: nat, open: nat, sent: nat)
    requires OnTrack(p, count, open, sent)
    ensures p.filled <= p.quantity && sent <= p.quantity && p.filled + open == sent
    ensures p.filled == p.quantity ==>
              && p.display >= 1 && count == CeilDiv(p.quantity, p.display)
              && sent == p.quantity && open == 0
    ensures p.filled < p.quantity ==> p.active && open >= 1
  {
    if p.filled == p.quantity {
      LastCountIsCeil(p, count);
    }
  }

  // ----- The desk ----------------------------------------------------------------------------

  /** Quantity sent out for one parent. */
  function SentFor(outbox: seq<Order>, parentOf: map<nat, nat>, parent: nat): nat {
    if outbox == [] then 0
    else SentFor(outbox[..|outbox| - 1], parentOf, parent)
         + (var o := outbox[|outbox| - 1]; if o.id in parentOf && parentOf[o.id] == parent then o.quantity else 0)
  }

  lemma {:induction false} SentForFresh(outbox: seq<Order>, parentOf: map<nat, nat>, child: nat, of: nat, parent: nat)
    requires forall i :: 0 <= i < |outbox| ==> outbox[i].id != child
    ensures SentFor(outbox, parentOf[child := of], parent) == SentFor(outbox, parentOf, parent)
    decreases |outbox|
  {
    if outbox != [] {
      SentForFresh(outbox[..|outbox| - 1], parentOf, child, of, parent);
    }
  }

  /** Sending a new child adds its quantity to its own parent's account only. */
  lemma {:induction false} SentForNew(outbox: seq<Order>, parentOf: map<nat, nat>, o: Order, of: nat, parent: nat)
    requires forall i :: 0 <= i < |outbox| ==> outbox[i].id != o.id
    ensures SentFor(outbox + [o], parentOf[o.id := of], parent)
         == SentFor(outbox, parentOf, parent) + if parent == of then o.quantity else 0
  {
    assert (outbox + [o])[..|outbox|] == outbox;
    SentForFresh(outbox, parentOf, o.id, of, parent);
  }

  /**
   The desk's tables, and what they mean: per parent, how many children it has had and which is live; per
   live child, what is open of it; and whose child each id was.
   */
  datatype Tables = Tables(
    parents: map<nat, Parent>, childToParent: map<nat, nat>, nextChild: nat, outbox: seq<Order>,
    count: map<nat, nat>, live: map<nat, nat>, open: map<nat, nat>, parentOf: map<nat, nat>)

  /** Every dispatched unit of a parent is filled or open in its one live child; a finished parent has none. */
  ghost predicate ParentOk(t: Tables, id: nat)
    requires id in t.parents && id in t.count
  {
    var p, sent := t.parents[id], SentFor(t.outbox, t.parentOf, id);
    if p.active
    then id in t.live && t.live[id] in t.open && t.live[id] in t.childToParent && t.childToParent[t.live[id]] == id
         && OnTrack(p, t.count[id], t.open[t.live[id]], sent)
    else OnTrack(p, t.count[id], 0, sent)
  }

  ghost predicate ChildOk(t: Tables, c: nat, due: int)
    requires c in t.childToParent
  {
    var id := t.childToParent[c];
    && c < t.nextChild && id in t.parents && id != due && t.parents[id].active && id in t.live && t.live[id] == c
    && c in t.parentOf && t.parentOf[c] == id
  }

  /** `o` is a limit order on the terms of its parent, under an id of its own. */
  ghost predicate OnTerms(o: Order, p: Parent) {
    && o.execution == LimitOrder && o.side == p.side && o.price == p.price && o.symbol == p.symbol
    && o.trader == p.trader && o.clientId == o.id
  }

  /** Every order sent out is on the terms of the parent it was sent for. */
  ghost predicate SentOnTerms(outbox: seq<Order>, parentOf: map<nat, nat>, parents: map<nat, Parent>) {
    forall k {:trigger UnlockTerms(k)} :: UnlockTerms(k) ==>
      forall i :: 0 <= i < |outbox| ==>
        var c := outbox[i].id;
        c in parentOf && parentOf[c] in parents && OnTerms(outbox[i], parents[parentOf[c]])
  }

  /** Changing what is filled of a parent changes no terms. */
  lemma {:induction false} TermsStay(outbox: seq<Order>, parentOf: map<nat, nat>, parents: map<nat, Parent>,
                                     parents': map<nat, Parent>)
    requires SentOnTerms(outbox, parentOf, parents)
    requires forall k :: k in parents ==> k in parents' && SameTerms(parents[k], parents'[k])
    ensures SentOnTerms(outbox, parentOf, parents')
  {
    assert UnlockTerms(0);
  }

  /** Everything but the state of parent `due`, which has no live child. */
  ghost predicate Consistent(t: Tables, due: int) {
    && t.count.Keys == t.parents.Keys && t.open.Keys == t.childToParent.Keys
    && forall k {:trigger UnlockTables(k)} :: UnlockTables(k) ==>
         && t.nextChild > ICEBERG_BIT
         && (forall i :: 0 <= i < |t.outbox| ==> t.outbox[i].id < t.nextChild)
         && (forall c :: c in t.parentOf ==> t.parentOf[c] in t.parents)
         && SentOnTerms(t.outbox, t.parentOf, t.parents)
         && (forall c {:trigger ChildOk(t, c, due)} :: c in t.childToParent ==> ChildOk(t, c, due))
         && (forall id {:trigger ParentOk(t, id)} :: id in t.parents && id != due ==> ParentOk(t, id))
  }

  // Switches, always true: the definitions of `Consistent` and `SentOnTerms` are consulted only where they
  // are asserted.
  ghost predicate UnlockTables(k: int) {
    true
  }

  ghost predicate UnlockTerms(k: int) {
    true
  }

  // ----- What the operations do to the tables ------------------------------------------------

  function ChildOrder(p: Parent, id: nat, quantity: nat): Order {
    Order(id, LimitOrder, p.price, 0, p.trader, p.side, p.symbol, quantity, id)
  }

  /** One more child of parent `id`, the size of a display or of what is left. */
  function Dispatched(t: Tables, id: nat): Tables
    requires id in t.parents && id in t.count && t.parents[id].filled <= t.parents[id].quantity
  {
    var p, c := t.parents[id], t.nextChild;
    var q := Min(p.display, p.quantity - p.filled);
    Tables(t.parents, t.childToParent[c := id], c + 1, t.outbox + [ChildOrder(p, c, q)],
           t.count[id := t.count[id] + 1], t.live[id := c], t.open[c := q], t.parentOf[c := id])
  }

  lemma {:induction false} OwnTracks(outbox: seq<Order>, parentOf: map<nat, nat>, p: Parent, child: nat, count: nat,
                                     id: nat)
    requires forall i :: 0 <= i < |outbox| ==> outbox[i].id < child
    requires Due(p, count, SentFor(outbox, parentOf, id)) && p.filled < p.quantity
    ensures var q := Min(p.display, p.quantity - p.filled);
            OnTrack(p, count + 1, q, SentFor(outbox + [ChildOrder(p, child, q)], parentOf[child := id], id))
  {
    var q := Min(p.display, p.quantity - p.filled);
    SentForNew(outbox, parentOf, ChildOrder(p, child, q), id, id);
    SliceGoesOut(p, count, SentFor(outbox, parentOf, id));
  }

  lemma {:induction false} OutboxIsOlder(t: Tables, due: int)
    requires Consistent(t, due)
    ensures forall i :: 0 <= i < |t.outbox| ==> t.outbox[i].id < t.nextChild
  {
    assert UnlockTables(0);
  }

  lemma {:induction false} DispatchOwn(t: Tables, id: nat)
    requires Consistent(t, id) && id in t.parents && t.parents[id].filled < t.parents[id].quantity
    requires Due(t.parents[id], t.count[id], SentFor(t.outbox, t.parentOf, id))
    ensures ParentOk(Dispatched(t, id), id)
  {
    OutboxIsOlder(t, id);
    OwnTracks(t.outbox, t.parentOf, t.parents[id], t.nextChild, t.count[id], id);
  }

  lemma {:induction false} DispatchOther(t: Tables, id: nat, k: nat)
    requires Consistent(t, id) && id in t.parents && t.parents[id].filled <= t.parents[id].quantity && k in t.parents
    requires k != id
    ensures ParentOk(Dispatched(t, id), k)
  {
    assert UnlockTables(0);
    var p := t.parents[id];
    SentForNew(t.outbox, t.parentOf, ChildOrder(p, t.nextChild, Min(p.display, p.quantity - p.filled)), id, k);
    assert ParentOk(t, k);
    if t.parents[k].active {
      assert ChildOk(t, t.live[k], id);
    }
  }

  lemma {:induction false} DispatchChildren(t: Tables, id: nat)
    requires Consistent(t, id) && id in t.parents && t.parents[id].filled < t.parents[id].quantity
    requires t.parents[id].active
    ensures var t' := Dispatched(t, id);
            forall c {:trigger ChildOk(t', c, -1)} :: c in t'.childToParent ==> ChildOk(t', c, -1)
  {
    assert UnlockTables(0);
    var t' := Dispatched(t, id);
    forall c | c in t'.childToParent
      ensures ChildOk(t', c, -1)
    {
      assert c != t.nextChild ==> ChildOk(t, c, id);
    }
  }

  lemma {:induction false} DispatchOnTerms(t: Tables, id: nat)
    requires Consistent(t, id) && id in t.parents && t.parents[id].filled <= t.parents[id].quantity
    ensures var t' := Dispatched(t, id); SentOnTerms(t'.outbox, t'.parentOf, t'.parents)
  {
    assert UnlockTables(0) && UnlockTerms(0);
    var t' := Dispatched(t, id);
    forall i | 0 <= i < |t'.outbox|
      ensures t'.outbox[i].id in t'.parentOf && t'.parentOf[t'.outbox[i].id] in t'.parents
      ensures OnTerms(t'.outbox[i], t'.parents[t'.parentOf[t'.outbox[i].id]])
    {
      if i < |t.outbox| {
        assert t'.outbox[i] == t.outbox[i] && t.outbox[i].id != t.nextChild;
      }
    }
  }

  lemma {:induction false} DispatchParents(t: Tables, id: nat)
    requires Consistent(t, id) && id in t.parents && t.parents[id].filled < t.parents[id].quantity
    requires Due(t.parents[id], t.count[id], SentFor(t.outbox, t.parentOf, id))
    ensures var t' := Dispatched(t, id);
            && t'.count.Keys == t'.parents.Keys
            && forall k {:trigger ParentOk(t', k)} :: k in t'.parents ==> ParentOk(t', k)
  {
    var t' := Dispatched(t, id);
    forall k | k in t'.parents
      ensures ParentOk(t', k)
    {
      if k == id { DispatchOwn(t, id); } else { DispatchOther(t, id, k); }
    }
  }

  lemma {:induction false} DispatchKeeps(t: Tables, id: nat)
    requires Consistent(t, id) && id in t.parents && t.parents[id].filled < t.parents[id].quantity
    requires Due(t.parents[id], t.count[id], SentFor(t.outbox, t.parentOf, id))
    ensures Consistent(Dispatched(t, id), -1)
  {
    assert UnlockTables(0);
    DispatchChildren(t, id);
    DispatchOnTerms(t, id);
    DispatchParents(t, id);
  }

  /** Only parent `id` and its live child `c` change; `c` may go. */
  ghost predicate OnlyParent(t: Tables, t': Tables, id: nat) {
    && t'.nextChild == t.nextChild && t'.outbox == t.outbox && t'.parentOf == t.parentOf && t'.live == t.live
    && t.count.Keys == t.parents.Keys && t.open.Keys == t.childToParent.Keys
    && t'.count.Keys == t'.parents.Keys && t'.open.Keys == t'.childToParent.Keys
    && (forall k :: k in t'.parents && k != id ==>
       k in t.parents && t'.parents[k] == t.parents[k] && t'.count[k] == t.count[k])
    && (forall c :: c in t'.childToParent ==> c in t.childToParent && t'.childToParent[c] == t.childToParent[c])
    && (forall c :: c in t.childToParent && t.childToParent[c] != id ==>
       c in t'.childToParent && t'.open[c] == t.open[c])
    && (forall k :: k in t.parents ==> k in t'.parents)
    && (id in t.parents ==> id in t'.parents && SameTerms(t.parents[id], t'.parents[id]))
  }

  ghost predicate SameTerms(p: Parent, p': Parent) {
    p'.side == p.side && p'.price == p.price && p'.symbol == p.symbol && p'.trader == p.trader
  }

  /** Changing one parent leaves the others consistent. */
  lemma {:induction false} OthersKeep(t: Tables, t': Tables, id: nat, due: int, due': int)
    requires Consistent(t, due) && t.count.Keys == t.parents.Keys && OnlyParent(t, t', id) && (due == -1 || due == id)
    requires if due' == id then (forall c :: c in t'.childToParent ==> t'.childToParent[c] != id)
             else && due' == -1 && id in t'.parents && ParentOk(t', id)
                  && (t'.parents[id].active || forall c :: c in t'.childToParent ==> t'.childToParent[c] != id)
    ensures Consistent(t', due')
  {
    assert UnlockTables(0);
    TermsStay(t.outbox, t.parentOf, t.parents, t'.parents);
    forall c | c in t'.childToParent
      ensures ChildOk(t', c, due')
    {
      assert ChildOk(t, c, due);
    }
    forall k | k in t'.parents && k != due'
      ensures ParentOk(t', k)
    {
      if k != id {
        assert ParentOk(t, k);
      }
    }
  }

  /** Parent `id` is finished. */
  function Closed(t: Tables, id: nat): Tables
    requires id in t.parents
  {
    t.(parents := t.parents[id := t.parents[id].(active := false)])
  }

  lemma {:induction false} CloseKeeps(t: Tables, id: nat)
    requires Consistent(t, id) && id in t.parents && t.parents[id].filled == t.parents[id].quantity
    requires Due(t.parents[id], t.count[id], SentFor(t.outbox, t.parentOf, id))
    ensures Consistent(Closed(t, id), -1)
  {
    assert UnlockTables(0);
    forall c | c in t.childToParent
      ensures t.childToParent[c] != id
    {
      assert ChildOk(t, c, id);
    }
    OthersKeep(t, Closed(t, id), id, id, -1);
  }

  /** `traded` units more for parent `id`, some of its live slice `child` still open. */
  function Credited(t: Tables, id: nat, child: nat, traded: nat): Tables
    requires id in t.parents && child in t.open && traded <= t.open[child]
  {
    var p := t.parents[id];
    t.(parents := t.parents[id := p.(filled := p.filled + traded)], open := t.open[child := t.open[child] - traded])
  }

  /** The live slice `child` of parent `id` is used up. */
  function UsedUp(t: Tables, id: nat, child: nat, traded: nat): Tables
    requires id in t.parents
  {
    var p := t.parents[id];
    t.(parents := t.parents[id := p.(filled := p.filled + traded)],
       childToParent := t.childToParent - {child}, open := t.open - {child})
  }

  /** A parent with `traded` more units filled. */
  function Filled(p: Parent, traded: nat): Parent {
    p.(filled := p.filled + traded, active := p.filled + traded < p.quantity)
  }

  lemma {:induction false} OnlyChild(t: Tables, child: nat)
    requires Consistent(t, -1) && child in t.childToParent
    ensures var id := t.childToParent[child];
            && id in t.parents && t.parents[id].active && id in t.live && t.live[id] == child
            && OnTrack(t.parents[id], t.count[id], t.open[child], SentFor(t.outbox, t.parentOf, id))
            && forall c :: c in t.childToParent ==> c < t.nextChild && (c != child ==> t.childToParent[c] != id)
  {
    assert UnlockTables(0);
    assert ChildOk(t, child, -1);
    assert ParentOk(t, t.childToParent[child]);
    forall c | c in t.childToParent
      ensures c < t.nextChild && (c != child ==> t.childToParent[c] != t.childToParent[child])
    {
      assert ChildOk(t, c, -1);
    }
  }

  lemma {:induction false} CreditKeeps(t: Tables, child: nat, traded: nat)
    requires Consistent(t, -1) && child in t.childToParent && child in t.open && 1 <= traded < t.open[child]
    ensures var id := t.childToParent[child]; id in t.parents && Consistent(Credited(t, id, child, traded), -1)
  {
    var id := t.childToParent[child];
    OnlyChild(t, child);
    TestIsExact(t.parents[id], t.count[id], t.open[child], SentFor(t.outbox, t.parentOf, id), traded);
    OthersKeep(t, Credited(t, id, child, traded), id, -1, -1);
  }

  lemma {:induction false} UseUpKeeps(t: Tables, child: nat)
    requires Consistent(t, -1) && child in t.childToParent && child in t.open
    ensures var id := t.childToParent[child];
            && id in t.parents
            && var t' := UsedUp(t, id, child, t.open[child]);
            Consistent(t', id) && Due(t'.parents[id], t'.count[id], SentFor(t'.outbox, t'.parentOf, id))
  {
    var id := t.childToParent[child];
    OnlyChild(t, child);
    OthersKeep(t, UsedUp(t, id, child, t.open[child]), id, -1, id);
  }

  // ----- What one leg does, child by child --------------------------------------------------------

  /** The outbox is as before, or has one new child under the next id. */
  ghost predicate Extends(t: Tables, t': Tables) {
    || (t'.outbox == t.outbox && t'.nextChild == t.nextChild)
    || (&& t'.nextChild == t.nextChild + 1 && |t'.outbox| == |t.outbox| + 1 && t'.outbox[..|t.outbox|] == t.outbox
        && var o := t'.outbox[|t.outbox|];
           o.id == o.clientId == t.nextChild && o.quantity >= 1)
  }

  /** A live child was live before and has lost what was traded of it, or is the new one and wholly open. */
  ghost predicate LegAt(t: Tables, t': Tables, child: nat, traded: nat, c: nat) {
    && c in t'.open
    && if c in t.childToParent then c in t.open && t'.open[c] + (if c == child then traded else 0) == t.open[c]
       else c == t.nextChild && |t'.outbox| == |t.outbox| + 1 && t'.open[c] == t'.outbox[|t.outbox|].quantity
  }

  ghost predicate Leg(t: Tables, t': Tables, child: nat, traded: nat) {
    && Extends(t, t')
    && forall c {:trigger LegAt(t, t', child, traded, c)} :: c in t'.childToParent ==> LegAt(t, t', child, traded, c)
  }

  /** A leg after which no new child is sent. */
  lemma {:induction false} LegSame(t: Tables, t': Tables, child: nat, traded: nat)
    requires t'.outbox == t.outbox && t'.nextChild == t.nextChild
    requires forall c :: c in t'.childToParent ==>
               c in t.childToParent && c in t'.open && c in t.open
               && t'.open[c] + (if c == child then traded else 0) == t.open[c]
    ensures Leg(t, t', child, traded)
  {
    forall c | c in t'.childToParent
      ensures LegAt(t, t', child, traded, c)
    {
    }
  }

  lemma {:induction false} LegDispatch(t: Tables, t1: Tables, id: nat, child: nat, traded: nat)
    requires Consistent(t, -1) && Consistent(t1, id) && id in t1.parents && t1.parents[id].display >= 1
    requires t1.parents[id].filled < t1.parents[id].quantity
    requires t1.outbox == t.outbox && t1.nextChild == t.nextChild
    requires forall c :: c in t1.childToParent ==>
               c in t.childToParent && (c == child ==> traded == 0) && c in t1.open && c in t.open
                 && t1.open[c] == t.open[c]
    ensures Leg(t, Dispatched(t1, id), child, traded)
  {
    var t' := Dispatched(t1, id);
    ChildrenAreOlder(t, -1);
    assert t'.outbox[..|t.outbox|] == t.outbox;
    forall c | c in t'.childToParent
      ensures LegAt(t, t', child, traded, c)
    {
    }
  }

  lemma {:induction false} ChildrenAreOlder(t: Tables, due: int)
    requires Consistent(t, due)
    ensures t.nextChild > ICEBERG_BIT && forall c :: c in t.childToParent ==> c < t.nextChild
  {
    assert UnlockTables(0);
    forall c | c in t.childToParent
      ensures c < t.nextChild
    {
      assert ChildOk(t, c, due);
    }
  }

  /** What a finished slice leaves: the child is gone, its parent is credited, the other children are as before. */
  lemma {:induction false} SliceIsFinished(t: Tables, t': Tables, id: nat, child: nat, traded: nat)
    requires Consistent(t, -1) && child in t.childToParent && t.childToParent[child] == id && id in t.parents
    requires var t1 := UsedUp(t, id, child, traded);
             && Consistent(t1, id) && t1.parents[id].filled <= t1.parents[id].quantity
                && t1.parents[id].display >= 1 && t1.parents[id].active
             && t' == if t1.parents[id].filled == t1.parents[id].quantity then Closed(t1, id) else Dispatched(t1, id)
    ensures child !in t'.childToParent && Leg(t, t', child, traded)
    ensures t'.parents == t.parents[id := Filled(t.parents[id], traded)]
    ensures forall c :: c in t'.childToParent ==> c in t.childToParent || c == t.nextChild
    ensures forall c :: c in t.childToParent && c != child ==>
              c in t'.childToParent && c in t'.open && c in t.open && t'.open[c] == t.open[c]
                && t'.childToParent[c] == t.childToParent[c]
  {
    var t1 := UsedUp(t, id, child, traded);
    ChildrenAreOlder(t, -1);
    if t1.parents[id].filled == t1.parents[id].quantity {
      LegSame(t, t', child, traded);
    } else {
      LegDispatch(t, t1, id, child, traded);
    }
  }

  /** A new parent, due its first slice. */
  function Enrolled(t: Tables, p: Parent): Tables {
    t.(parents := t.parents[p.clientId := p], count := t.count[p.clientId := 0])
  }

  lemma {:induction false} EnrolKeeps(t: Tables, p: Parent)
    requires Consistent(t, -1) && p.clientId !in t.parents && p.display >= 1 && p.filled == 0 && p.active
    ensures Consistent(Enrolled(t, p), p.clientId) && Due(p, 0, SentFor(t.outbox, t.parentOf, p.clientId))
  {
    assert UnlockTables(0);
    SentForNone(t.outbox, t.parentOf, p.clientId);
    forall c | c in t.childToParent
      ensures t.childToParent[c] != p.clientId
    {
      assert ChildOk(t, c, -1);
    }
    OthersKeep(t, Enrolled(t, p), p.clientId, -1, p.clientId);
  }

  lemma {:induction false} EnrolledLeg(t: Tables, p: Parent, t': Tables)
    requires Consistent(t, -1) && p.clientId !in t.parents && p.display >= 1 && p.filled == 0 && p.active
    requires var t1 := Enrolled(t, p);
             && Consistent(t1, p.clientId)
             && t' == if p.quantity == 0 then Closed(t1, p.clientId) else Dispatched(t1, p.clientId)
    ensures t'.parents == t.parents[p.clientId := p.(active := p.quantity > 0)] && Leg(t, t', 0, 0)
  {
    if p.quantity == 0 {
      LegSame(t, t', 0, 0);
    } else {
      LegDispatch(t, Enrolled(t, p), p.clientId, 0, 0);
    }
  }

  /** What a fill of `child` is worth to parent `id`. */
  function CreditOf(childToParent: map<nat, nat>, child: nat, traded: nat, id: nat): nat {
    if HasIcebergBit(child) && child in childToParent && childToParent[child] == id then traded else 0
  }

  /** Each parent is credited with what the fills of `child` are worth to it, and with nothing else. */
  ghost predicate Paid(before: map<nat, Parent>, after: map<nat, Parent>, childToParent: map<nat, nat>, child: nat,
                       traded: nat) {
    forall id {:trigger CreditOf(childToParent, child, traded, id)} :: id in before ==>
      id in after && after[id].filled == before[id].filled + CreditOf(childToParent, child, traded, id)
  }

  /** The same for both legs of a trade. */
  ghost predicate PaidBoth(before: map<nat, Parent>, after: map<nat, Parent>, childToParent: map<nat, nat>, t: Trade) {
    forall id :: id in before ==>
      && id in after
      && after[id].filled == before[id].filled
         + CreditOf(childToParent, t.buyClient, t.quantity, id) + CreditOf(childToParent, t.sellClient, t.quantity, id)
  }

  /** The buyer's leg, which leaves the seller's child where it is, and then the seller's. */
  lemma {:induction false} BothLegsPay(before: Tables, mid: Tables, after: Tables, t: Trade)
    requires if HasIcebergBit(t.buyClient)
             then Paid(before.parents, mid.parents, before.childToParent, t.buyClient, t.quantity)
             else mid == before
    requires if HasIcebergBit(t.sellClient)
             then Paid(mid.parents, after.parents, mid.childToParent, t.sellClient, t.quantity)
             else after == mid
    requires HasIcebergBit(t.sellClient) ==>
               var c := t.sellClient;
               && (c in mid.childToParent <==> c in before.childToParent)
               && (c in mid.childToParent ==> mid.childToParent[c] == before.childToParent[c])
    ensures PaidBoth(before.parents, after.parents, before.childToParent, t)
  {
    forall id | id in before.parents
      ensures id in after.parents
      ensures after.parents[id].filled == before.parents[id].filled
           + CreditOf(before.childToParent, t.buyClient, t.quantity, id)
           + CreditOf(before.childToParent, t.sellClient, t.quantity, id)
    {
      assert CreditOf(mid.childToParent, t.sellClient, t.quantity, id)
          == CreditOf(before.childToParent, t.sellClient, t.quantity, id);
    }
  }

  /**
   What the tables say of every parent at any time: fills and dispatched quantity never exceed its
   quantity; unfinished, it has exactly one live child, which carries all its open quantity; finished,
   it has none and has used exactly ceil(quantity / display) of them.  Every order sent out is a limit order
   on the side, at the price, in the symbol and for the trader of its parent.
   */
  lemma {:induction false} ParentAccount(t: Tables, id: nat)
    requires Consistent(t, -1) && id in t.parents
    ensures var p, sent := t.parents[id], SentFor(t.outbox, t.parentOf, id);
            && p.filled <= sent <= p.quantity
            && (p.filled < p.quantity ==>
                  && id in t.live && t.live[id] in t.childToParent && t.childToParent[t.live[id]] == id
                  && (forall c :: c in t.childToParent && t.childToParent[c] == id ==> c == t.live[id])
                  && t.live[id] in t.open && p.filled + t.open[t.live[id]] == sent)
            && (p.filled == p.quantity ==>
                  && (forall c :: c in t.childToParent ==> t.childToParent[c] != id)
                  && p.display >= 1 && t.count[id] == CeilDiv(p.quantity, p.display) && sent == p.quantity)
    ensures forall i :: 0 <= i < |t.outbox| ==>
              var o := t.outbox[i];
              && o.id in t.parentOf && t.parentOf[o.id] in t.parents
              && var p := t.parents[t.parentOf[o.id]];
                 && o.side == p.side && o.price == p.price && o.symbol == p.symbol && o.trader == p.trader
                 && o.execution == LimitOrder && o.clientId == o.id
  {
    assert UnlockTables(0) && UnlockTerms(0);
    assert ParentOk(t, id);
    var p, sent := t.parents[id], SentFor(t.outbox, t.parentOf, id);
    FilledParent(p, t.count[id], if p.active then t.open[t.live[id]] else 0, sent);
    forall c | c in t.childToParent && t.childToParent[c] == id
      ensures p.active && c == t.live[id]
    {
      assert ChildOk(t, c, -1);
    }
  }

  class Desk {
    var parents: map<nat, Parent>
    var childToParent: map<nat, nat>
    var nextChild: nat
    /** Children dispatched to the engine, oldest first. */
    var outbox: seq<Order>
    ghost var count: map<nat, nat>
    ghost var live: map<nat, nat>
    ghost var open: map<nat, nat>
    ghost var parentOf: map<nat, nat>

    ghost function Now(): Tables
      reads this
    {
      Tables(parents, childToParent, nextChild, outbox, count, live, open, parentOf)
    }

    ghost predicate Valid()
      reads this
    {
      Consistent(Now(), -1)
    }

    constructor ()
      ensures Valid() && parents == map[] && childToParent == map[] && outbox == [] && nextChild == ICEBERG_BIT + 1
    {
      parents, childToParent, nextChild, outbox := map[], map[], ICEBERG_BIT + 1, [];
      count, live, open, parentOf := map[], map[], map[], map[];
    }

    /** Sends the next slice of a parent that is due one, or closes it when everything is filled. */
    method SendSlice(id: nat)
      requires Consistent(Now(), id) && id in parents && Due(parents[id], count[id], SentFor(outbox, parentOf, id))
      modifies this
      ensures Valid() && id in old(parents)
      ensures var p := old(parents)[id];
              && p.filled <= p.quantity
              && (if p.filled == p.quantity then Now() == Closed(old(Now()), id)
                  else Now() == Dispatched(old(Now()), id))
              && (p.filled < p.quantity ==>
                    && |outbox| == |old(outbox)| + 1 && outbox[..|old(outbox)|] == old(outbox)
                    && var o, left := outbox[|old(outbox)|], p.quantity - p.filled;
                       && o.execution == LimitOrder && o.side == p.side && o.price == p.price && o.symbol == p.symbol
                       && o.trader == p.trader && o.id == o.clientId == old(nextChild)
                       && o.quantity == if p.display <= left then p.display else left)
    {
      ghost var t0 := Now();
      var parent := parents[id];
      var remaining := parent.quantity - parent.filled;
      if remaining == 0 {
        CloseKeeps(Now(), id);
        parents := parents[id := parent.(active := false)];
        assert Now() == Closed(t0, id);
        return;
      }
      DispatchKeeps(t0, id);
      ghost var t1 := Dispatched(t0, id);
      var quantity, child := Min(parent.display, remaining), nextChild;
      nextChild := nextChild + 1;
      childToParent := childToParent[child := id];
      outbox := outbox + [ChildOrder(parent, child, quantity)];
      count, live, open, parentOf := t1.count, t1.live, t1.open, t1.parentOf;
      assert Now() == t1;
    }

    /** Accepts an iceberg order and sends its first slice. */
    method Register(p: Parent)
      requires Valid() && p.clientId !in parents && p.display >= 1 && p.filled == 0 && p.active
      modifies this
      ensures Valid() && parents == old(parents)[p.clientId := p.(active := p.quantity > 0)]
      ensures Leg(old(Now()), Now(), 0, 0)
    {
      ghost var t0 := Now();
      EnrolKeeps(t0, p);
      parents := parents[p.clientId := p];
      count := count[p.clientId := 0];
      assert Now() == Enrolled(t0, p);
      SendSlice(p.clientId);
      EnrolledLeg(t0, p, Now());
    }

    /** Part of a live slice is filled. */
    method CreditSlice(child: nat, traded: nat)
      requires Valid() && child in childToParent && 1 <= traded < open[child]
      modifies this`parents, this`open
      ensures Valid() && childToParent[child] in old(parents)
      ensures Now() == Credited(old(Now()), childToParent[child], child, traded)
      ensures Leg(old(Now()), Now(), child, traded)
    {
      ghost var t0 := Now();
      var id := childToParent[child];
      CreditKeeps(t0, child, traded);
      var p := parents[id];
      parents := parents[id := p.(filled := p.filled + traded)];
      open := open[child := open[child] - traded];
      assert Now() == Credited(t0, id, child, traded);
      LegSame(t0, Now(), child, traded);
    }

    /** The rest of a live slice is filled: the child goes, and the next one is sent. */
    method FinishSlice(child: nat, traded: nat)
      requires Valid() && child in childToParent && traded == open[child]
      modifies this
      ensures Valid() && old(childToParent)[child] in old(parents) && child !in childToParent
      ensures var id := old(childToParent)[child]; parents == old(parents)[id := Filled(old(parents)[id], traded)]
      ensures forall c :: c in childToParent ==> c in old(childToParent) || c == old(nextChild)
      ensures forall c :: c in old(childToParent) && c != child ==>
                c in childToParent && open[c] == old(open)[c] && childToParent[c] == old(childToParent)[c]
      ensures Leg(old(Now()), Now(), child, traded)
    {
      ghost var t0 := Now();
      var id := childToParent[child];
      OnlyChild(t0, child);
      UseUpKeeps(t0, child);
      ghost var t1 := UsedUp(t0, id, child, traded);
      var p := parents[id];
      parents := parents[id := p.(filled := p.filled + traded)];
      childToParent := childToParent - {child};
      open := open - {child};
      assert Now() == t1;
      SendSlice(id);
      SliceIsFinished(t0, Now(), id, child, traded);
    }

    /** One leg of a trade: credits the parent of a live child, and sends the next slice once this one is used up. */
    method FillLeg(child: nat, traded: nat)
      requires Valid() && (child in childToParent ==> 1 <= traded <= open[child])
      modifies this
      ensures Valid()
      ensures child !in old(childToParent) ==> Now() == old(Now())
      ensures child in old(childToParent) ==>
                var id := old(childToParent)[child];
                && id in old(parents) && parents == old(parents)[id := Filled(old(parents)[id], traded)]
                && (traded < old(open)[child] ==> outbox == old(outbox) && childToParent == old(childToParent))
                && (traded == old(open)[child] ==> child !in childToParent)
      ensures forall c :: c in childToParent ==> c in old(childToParent) || c == old(nextChild)
      ensures forall c :: c in old(childToParent) && c != child ==>
                c in childToParent && open[c] == old(open)[c] && childToParent[c] == old(childToParent)[c]
      ensures Leg(old(Now()), Now(), child, traded)
      ensures HasIcebergBit(child) ==> Paid(old(parents), parents, old(childToParent), child, traded)
    {
      if child !in childToParent {
        LegSame(Now(), Now(), child, traded);
        return;
      }
      var id := childToParent[child];
      ghost var t0 := Now();
      OnlyChild(t0, child);
      TestIsExact(parents[id], count[id], open[child], SentFor(outbox, parentOf, id), traded);
      if SliceFilled(parents[id].(filled := parents[id].filled + traded)) {
        FinishSlice(child, traded);
      } else {
        CreditSlice(child, traded);
      }
    }

    /** A published trade: each side that carries the iceberg bit is a leg of its own. */
    method CheckFill(t: Trade) returns (ghost mid: Tables)
      requires Valid()
      requires forall c :: c in childToParent && (c == t.buyClient || c == t.sellClient) ==> 1 <= t.quantity <= open[c]
      requires HasIcebergBit(t.sellClient) ==> t.buyClient != t.sellClient && t.sellClient != nextChild
      modifies this
      ensures Valid() && Consistent(mid, -1)
      ensures if HasIcebergBit(t.buyClient) then Leg(old(Now()), mid, t.buyClient, t.quantity) else mid == old(Now())
      ensures if HasIcebergBit(t.sellClient) then Leg(mid, Now(), t.sellClient, t.quantity) else Now() == mid
      ensures PaidBoth(old(parents), parents, old(childToParent), t)
    {
      mid := Now();
      if !HasIcebergBit(t.buyClient) && !HasIcebergBit(t.sellClient) {
        return;
      }
      if HasIcebergBit(t.buyClient) {
        FillLeg(t.buyClient, t.quantity);
      }
      mid := Now();
      if HasIcebergBit(t.sellClient) {
        FillLeg(t.sellClient, t.quantity);
      }
      BothLegsPay(old(Now()), mid, Now(), t);
    }
  }

  lemma {:induction false} SentForNone(outbox: seq<Order>, parentOf: map<nat, nat>, parent: nat)
    requires forall i :: 0 <= i < |outbox| ==> outbox[i].id !in parentOf || parentOf[outbox[i].id] != parent
    ensures SentFor(outbox, parentOf, parent) == 0
    decreases |outbox|
  {
    if outbox != [] {
      SentForNone(outbox[..|outbox| - 1], parentOf, parent);
    }
  }
}
