/**
 Stop-loss orders of one registry slot.  A heap is a multiset whose front is any entry with the
 extreme trigger price, which is all the standard heap operations promise.
 */
module StopLoss {
  import opened Market

  datatype Stop = Stop(clientId: nat, price: nat, trigger: nat, trader: nat, side: Side, symbol: nat, quantity: nat)

  /** A registered stop and how many price changes had been handled before it. */
  datatype Entry = Entry(stop: Stop, since: nat)

  predicate Fires(s: Stop, ltp: nat) {
    if s.side == Sell then ltp <= s.trigger else ltp >= s.trigger
  }

  /** Sell stops leave by falling, buy stops by rising trigger price. */
  predicate NoLater(a: Entry, b: Entry) {
    if a.stop.side == Sell then a.stop.trigger >= b.stop.trigger else a.stop.trigger <= b.stop.trigger
  }

  predicate IsFront(heap: multiset<Entry>, e: Entry) {
    e in heap && forall x :: x in heap ==> NoLater(e, x)
  }

  ghost predicate OneSided(heap: multiset<Entry>, side: Side) {
    forall e :: e in heap ==> e.stop.side == side
  }

  lemma {:induction false} FrontExists(heap: multiset<Entry>, side: Side)
    requires |heap| > 0 && OneSided(heap, side)
    ensures exists e :: IsFront(heap, e)
    decreases |heap|
  {
    var x :| x in heap;
    var rest := heap - multiset{x};
    if |rest| == 0 {
      assert rest == multiset{} && heap == multiset{x};
      assert IsFront(heap, x);
    } else {
      FrontExists(rest, side);
      var e :| IsFront(rest, e);
      assert forall y :: y in heap ==> y == x || y in rest;
      assert IsFront(heap, if NoLater(x, e) then x else e);
    }
  }

  /** The engine order a triggered stop becomes. */
  function ToOrder(s: Stop, id: nat): Order {
    Order(id, LimitOrder, s.price, 0, s.trader, s.side, s.symbol, s.quantity, s.clientId)
  }

  /** A dispatched stop and the price change that triggered it. */
  datatype Sent = Sent(entry: Entry, tick: nat)

  /** How often `e` waits in a heap, and how often it has been sent. */
  function Waiting(heap: multiset<Entry>, e: Entry): nat {
    heap[e]
  }

  function Times(log: seq<Sent>, e: Entry): nat {
    if |log| == 0 then 0 else Times(log[..|log| - 1], e) + if log[|log| - 1].entry == e then 1 else 0
  }

  lemma {:induction false} TimesConcat(a: seq<Sent>, b: seq<Sent>, e: Entry)
    ensures Times(a + b, e) == Times(a, e) + Times(b, e)
    decreases |b|
  {
    if |b| == 0 {
      assert a + b == a;
    } else {
      TimesConcat(a, b[..|b| - 1], e);
      assert (a + b)[..|a + b| - 1] == a + b[..|b| - 1];
    }
  }

  /** Every registered stop waits in one of the two heaps or has been sent, and only once. */
  ghost predicate Splits(registered: multiset<Entry>, heap: multiset<Entry>, other: multiset<Entry>, sent: seq<Sent>) {
    forall e {:trigger Waiting(registered, e)} :: Waiting(registered, e)
           == Waiting(heap, e) + Waiting(other, e) + Times(sent, e)
  }

  /** `s` was sent at the first price change, since it was registered, at which it fires. */
  ghost predicate SentInTime(s: Sent, handled: seq<nat>) {
    && s.entry.since <= s.tick < |handled| && Fires(s.entry.stop, handled[s.tick])
    && forall i :: s.entry.since <= i < s.tick ==> !Fires(s.entry.stop, handled[i])
  }

  ghost predicate History(sent: seq<Sent>, handled: seq<nat>) {
    forall i :: 0 <= i < |sent| ==> SentInTime(sent[i], handled)
  }

  /**
   One limit order went to the engine per stop sent, in that order, under rising ids not yet given out to
   anyone else.
   */
  ghost predicate Orders(outbox: seq<Order>, sent: seq<Sent>, nextId: nat) {
    && |outbox| == |sent|
    && (forall i :: 0 <= i < |outbox| ==>
          var o, s := outbox[i], sent[i].entry.stop;
          && o.id < nextId && o.execution == LimitOrder && o.price == s.price && o.side == s.side
          && o.symbol == s.symbol && o.quantity == s.quantity && o.trader == s.trader && o.clientId == s.clientId)
    && (forall i, j :: 0 <= i < j < |outbox| ==> outbox[i].id < outbox[j].id)
  }

  /** A stop that still waits has fired at no price change handled since it was registered. */
  ghost predicate StillWaits(e: Entry, handled: seq<nat>) {
    e.since <= |handled| && forall i :: e.since <= i < |handled| ==> !Fires(e.stop, handled[i])
  }

  ghost predicate Pending(heap: multiset<Entry>, side: Side, handled: seq<nat>) {
    forall e {:trigger heap[e]} :: e in heap ==> e.stop.side == side && StillWaits(e, handled)
  }

  /** `batch` is sent in trigger order, ahead of everything in `rest`. */
  ghost predicate InOrder(batch: seq<Sent>, rest: multiset<Entry>) {
    && (forall i, x :: 0 <= i < |batch| && x in rest ==>
          var a, b := batch[i].entry.stop, x.stop;
          if a.side == Sell then a.trigger >= b.trigger else a.trigger <= b.trigger)
    && (forall i, j :: 0 <= i < j < |batch| ==>
          var a, b := batch[i].entry.stop, batch[j].entry.stop;
          if a.side == Sell then a.trigger >= b.trigger else a.trigger <= b.trigger)
  }

  /**
   `batch` is what a check at `ltp` sends from a heap, in trigger order: exactly the sell stops whose trigger
   the price has fallen to, or the buy stops whose trigger it has risen to.
   */
  ghost predicate Triggered(heap: multiset<Entry>, rest: multiset<Entry>, batch: seq<Sent>, side: Side, ltp: nat) {
    && (forall e {:trigger Waiting(heap, e)} :: Waiting(heap, e) == Waiting(rest, e) + Times(batch, e))
    && (forall s :: s in batch ==>
          if side == Sell then ltp <= s.entry.stop.trigger else s.entry.stop.trigger <= ltp)
    && (forall e :: e in rest ==> if side == Sell then e.stop.trigger < ltp else ltp < e.stop.trigger)
    && InOrder(batch, rest)
  }

  // ----- One stop at a time ---------------------------------------------------------------------

  lemma {:induction false} SplitsRegister(registered: multiset<Entry>, heap: multiset<Entry>, other: multiset<Entry>,
                                          sent: seq<Sent>, x: Entry)
    requires Splits(registered, heap, other, sent)
    ensures Splits(registered + multiset{x}, heap + multiset{x}, other, sent)
  {
    forall e
      ensures Waiting(registered + multiset{x}, e)
              == Waiting(heap + multiset{x}, e) + Waiting(other, e) + Times(sent, e)
    {
      assert Waiting(registered, e) == Waiting(heap, e) + Waiting(other, e) + Times(sent, e);
    }
  }

  lemma {:induction false} SplitsSend(registered: multiset<Entry>, heap: multiset<Entry>, other: multiset<Entry>,
                                      sent: seq<Sent>, s: Sent)
    requires Splits(registered, heap, other, sent) && s.entry in heap
    ensures Splits(registered, heap - multiset{s.entry}, other, sent + [s])
  {
    var heap' := heap - multiset{s.entry};
    forall e
      ensures Waiting(registered, e) == Waiting(heap', e) + Waiting(other, e) + Times(sent + [s], e)
    {
      assert Waiting(registered, e) == Waiting(heap, e) + Waiting(other, e) + Times(sent, e);
      assert (sent + [s])[..|sent|] == sent;
    }
  }

  lemma {:induction false} SplitsOther(registered: multiset<Entry>, heap: multiset<Entry>, other: multiset<Entry>,
                                       sent: seq<Sent>)
    requires Splits(registered, heap, other, sent)
    ensures Splits(registered, other, heap, sent)
  {
    forall e
      ensures Waiting(registered, e) == Waiting(other, e) + Waiting(heap, e) + Times(sent, e)
    {
      assert Waiting(registered, e) == Waiting(heap, e) + Waiting(other, e) + Times(sent, e);
    }
  }

  /** What two accounts of the same registrations say of the stops sent in between. */
  lemma {:induction false} SplitsDifference(registered: multiset<Entry>, heap: multiset<Entry>, rest: multiset<Entry>,
                                            other: multiset<Entry>, sent: seq<Sent>, batch: seq<Sent>, e: Entry)
    requires Splits(registered, heap, other, sent) && Splits(registered, rest, other, sent + batch)
    ensures Waiting(heap, e) == Waiting(rest, e) + Times(batch, e)
  {
    assert Waiting(registered, e) == Waiting(heap, e) + Waiting(other, e) + Times(sent, e);
    TimesConcat(sent, batch, e);
  }

  // ----- The account of a registry ----------------------------------------------------------------

  // A switch, always true: the definition of `Account` is consulted only where it is asserted.
  ghost predicate UnlockAccount(k: int) {
    true
  }

  datatype Books = Books(registered: multiset<Entry>, sent: seq<Sent>, outbox: seq<Order>, nextId: nat)

  /** Every registered stop waits or has been sent, in time and as one order of its own. */
  ghost predicate Account(b: Books, heap: multiset<Entry>, other: multiset<Entry>, ticks: seq<nat>) {
    forall k {:trigger UnlockAccount(k)} :: UnlockAccount(k) ==>
      Splits(b.registered, heap, other, b.sent) && History(b.sent, ticks) && Orders(b.outbox, b.sent, b.nextId)
  }

  lemma {:induction false} AccountOther(b: Books, heap: multiset<Entry>, other: multiset<Entry>, ticks: seq<nat>)
    requires Account(b, heap, other, ticks)
    ensures Account(b, other, heap, ticks)
  {
    assert UnlockAccount(0);
    SplitsOther(b.registered, heap, other, b.sent);
  }

  lemma {:induction false} AccountRegister(b: Books, heap: multiset<Entry>, other: multiset<Entry>, ticks: seq<nat>,
                                           e: Entry)
    requires Account(b, heap, other, ticks)
    ensures Account(b.(registered := b.registered + multiset{e}), heap + multiset{e}, other, ticks)
  {
    assert UnlockAccount(0);
    SplitsRegister(b.registered, heap, other, b.sent, e);
  }

  lemma {:induction false} AccountId(b: Books, heap: multiset<Entry>, other: multiset<Entry>, ticks: seq<nat>)
    requires Account(b, heap, other, ticks)
    ensures Account(b.(nextId := b.nextId + 1), heap, other, ticks)
    ensures forall i :: 0 <= i < |b.outbox| ==> b.outbox[i].id < b.nextId
  {
    assert UnlockAccount(0);
  }

  lemma {:induction false} AccountTick(b: Books, heap: multiset<Entry>, other: multiset<Entry>, ticks: seq<nat>,
                                       ltp: nat)
    requires Account(b, heap, other, ticks)
    ensures Account(b, heap, other, ticks + [ltp])
  {
    assert UnlockAccount(0);
    forall i | 0 <= i < |b.sent|
      ensures SentInTime(b.sent[i], ticks + [ltp])
    {
      assert SentInTime(b.sent[i], ticks);
    }
  }

  lemma {:induction false} AccountSend(b: Books, heap: multiset<Entry>, other: multiset<Entry>, ticks: seq<nat>,
                                       ltp: nat, e: Entry, b': Books)
    requires Account(b, heap, other, ticks + [ltp]) && e in heap && StillWaits(e, ticks) && Fires(e.stop, ltp)
    requires b' == b.(sent := b.sent + [Sent(e, |ticks|)], outbox := b.outbox + [ToOrder(e.stop, b.nextId)],
                      nextId := b.nextId + 1)
    ensures Account(b', heap - multiset{e}, other, ticks + [ltp])
  {
    assert UnlockAccount(0);
    SplitsSend(b.registered, heap, other, b.sent, Sent(e, |ticks|));
  }

  lemma {:induction false} AccountBatch(b: Books, b': Books, heap: multiset<Entry>, rest: multiset<Entry>,
                                        other: multiset<Entry>, ticks: seq<nat>, batch: seq<Sent>)
    requires Account(b, heap, other, ticks) && Account(b', rest, other, ticks)
    requires b'.registered == b.registered && b'.sent == b.sent + batch
    ensures forall e {:trigger Waiting(heap, e)} :: Waiting(heap, e) == Waiting(rest, e) + Times(batch, e)
  {
    assert UnlockAccount(0);
    forall e
      ensures Waiting(heap, e) == Waiting(rest, e) + Times(batch, e)
    {
      SplitsDifference(b.registered, heap, rest, other, b.sent, batch, e);
    }
  }

  // ----- Over whole runs ------------------------------------------------------------------------

  /** Some price change handled since it was registered makes `e` fire. */
  ghost predicate Fired(e: Entry, handled: seq<nat>) {
    exists i :: e.since <= i < |handled| && Fires(e.stop, handled[i])
  }

  lemma {:induction false} NeverSent(sent: seq<Sent>, handled: seq<nat>, e: Entry)
    requires History(sent, handled) && !Fired(e, handled)
    ensures Times(sent, e) == 0
  {
    if |sent| > 0 {
      var init, last := sent[..|sent| - 1], sent[|sent| - 1];
      assert SentInTime(last, handled);
      NeverSent(init, handled, e);
    }
  }

  /**
   At any time a registered sell stop has been sent, once, exactly if some price handled since its registration
   is at or below its trigger; a buy stop, if some such price is at or above it.
   */
  lemma {:induction false} SentExactlyIfFired(b: Books, sells: multiset<Entry>, buys: multiset<Entry>,
                                              handled: seq<nat>, e: Entry)
    requires Account(b, sells, buys, handled)
    requires Pending(sells, Sell, handled) && Pending(buys, Buy, handled)
    ensures e.stop.side == Sell ==>
              var hit := exists i :: e.since <= i < |handled| && handled[i] <= e.stop.trigger;
              Times(b.sent, e) == if hit then b.registered[e] else 0
    ensures e.stop.side == Buy ==>
              var hit := exists i :: e.since <= i < |handled| && handled[i] >= e.stop.trigger;
              Times(b.sent, e) == if hit then b.registered[e] else 0
  {
    assert UnlockAccount(0);
    assert Waiting(b.registered, e) == Waiting(sells, e) + Waiting(buys, e) + Times(b.sent, e);
    if Fired(e, handled) {
      assert !StillWaits(e, handled);
      assert e !in sells && e !in buys;
    } else {
      NeverSent(b.sent, handled, e);
    }
  }

  /**
   What happens around a registry: a client's stop, a price read by the polling loop, or an order that goes
   elsewhere.
   */
  datatype Event = Place(stop: Stop) | Price(ltp: nat) | Elsewhere

  function LastAfter(e: Event, last: nat): nat {
    if e.Price? then e.ltp else last
  }

  function Change(e: Event, last: nat): seq<nat> {
    if e.Price? && e.ltp != last then [e.ltp] else []
  }

  function Placing(e: Event, changes: nat): multiset<Entry> {
    if e.Place? then multiset{Entry(e.stop, changes)} else multiset{}
  }

  /** The price changes among the prices read. */
  function Changes(events: seq<Event>, last: nat): seq<nat> {
    if |events| == 0 then [] else Change(events[0], last) + Changes(events[1..], LastAfter(events[0], last))
  }

  /** The stops placed, each with the number of price changes before it. */
  function Placed(events: seq<Event>, last: nat, changes: nat): multiset<Entry> {
    if |events| == 0 then multiset{}
    else Placing(events[0], changes)
         + Placed(events[1..], LastAfter(events[0], last), changes + |Change(events[0], last)|)
  }

  lemma {:induction false} NextEvent(events: seq<Event>, i: nat, last: nat, handled: seq<nat>,
                                     registered: multiset<Entry>)
    requires i < |events|
    ensures var e := events[i];
            var last', handled' := LastAfter(e, last), handled + Change(e, last);
            && handled + Changes(events[i..], last) == handled' + Changes(events[i + 1..], last')
            && registered + Placed(events[i..], last, |handled|)
               == registered + Placing(e, |handled|) + Placed(events[i + 1..], last', |handled'|)
  {
    assert events[i..][0] == events[i] && events[i..][1..] == events[i + 1..];
  }

  // ----- The registry ---------------------------------------------------------------------------

  class Registry {
    var sellStops: multiset<Entry>
    var buyStops: multiset<Entry>
    var lastSeen: nat
    /** The order management system's next order id, shared with all other orders. */
    var nextId: nat
    /** Orders sent to the engine, oldest first. */
    var outbox: seq<Order>
    /** The price changes handled so far, all stops registered so far, and those sent, oldest first. */
    var handled: seq<nat>
    ghost var registered: multiset<Entry>
    ghost var sent: seq<Sent>

    ghost function Now(): Books
      reads this
    {
      Books(registered, sent, outbox, nextId)
    }

    ghost predicate Valid()
      reads this
    {
      && Pending(sellStops, Sell, handled) && Pending(buyStops, Buy, handled)
      && Account(Now(), sellStops, buyStops, handled)
    }

    constructor (bootId: nat)
      ensures Valid() && sellStops == buyStops == registered == multiset{} && sent == [] && lastSeen == 0
      ensures handled == []
    {
      sellStops, buyStops, lastSeen, nextId, outbox, handled := multiset{}, multiset{}, 0, bootId, [], [];
      registered, sent := multiset{}, [];
    }

    method Register(s: Stop)
      requires Valid()
      modifies this`sellStops, this`buyStops, this`registered
      ensures Valid() && registered == old(registered) + multiset{Entry(s, |handled|)}
      ensures s.side == Buy ==>
                && buyStops == old(buyStops) + multiset{Entry(s, |handled|)}
                && sellStops == old(sellStops)
      ensures s.side == Sell ==>
                && sellStops == old(sellStops) + multiset{Entry(s, |handled|)}
                && buyStops == old(buyStops)
    {
      var e := Entry(s, |handled|);
      if s.side == Buy {
        AccountOther(Now(), sellStops, buyStops, handled);
        AccountRegister(Now(), buyStops, sellStops, handled, e);
        AccountOther(Now().(registered := registered + multiset{e}), buyStops + multiset{e}, sellStops, handled);
        buyStops := buyStops + multiset{e};
      } else {
        AccountRegister(Now(), sellStops, buyStops, handled, e);
        sellStops := sellStops + multiset{e};
      }
      registered := registered + multiset{e};
    }

    /** Any other order of the system takes an id from the same counter. */
    method TakeId() returns (id: nat)
      requires Valid()
      modifies this`nextId
      ensures Valid() && id == old(nextId) < nextId && forall i :: 0 <= i < |outbox| ==> outbox[i].id < id
    {
      AccountId(Now(), sellStops, buyStops, handled);
      id := nextId;
      nextId := nextId + 1;
    }

    /** The order of a stop that fires goes to the engine. */
    method Send(e: Entry, ghost heap: multiset<Entry>, ghost other: multiset<Entry>, ghost ltp: nat)
      requires Account(Now(), heap, other, handled + [ltp])
      requires e in heap && StillWaits(e, handled) && Fires(e.stop, ltp)
      modifies this`outbox, this`nextId, this`sent
      ensures Account(Now(), heap - multiset{e}, other, handled + [ltp]) && sent == old(sent) + [Sent(e, |handled|)]
      ensures outbox == old(outbox) + [ToOrder(e.stop, old(nextId))]
    {
      sent := sent + [Sent(e, |handled|)];
      outbox, nextId := outbox + [ToOrder(e.stop, nextId)], nextId + 1;
      AccountSend(old(Now()), heap, other, handled, ltp, e, Now());
    }

    /** One of the two loops of the check: pops and sends entries while the front one fires. */
    method Drain(heap: multiset<Entry>, ghost other: multiset<Entry>, side: Side, ltp: nat)
      returns (rest: multiset<Entry>, ghost batch: seq<Sent>)
      requires Pending(heap, side, handled) && Account(Now(), heap, other, handled + [ltp])
      modifies this`outbox, this`nextId, this`sent
      ensures Pending(rest, side, handled + [ltp]) && Account(Now(), rest, other, handled + [ltp])
      ensures Triggered(heap, rest, batch, side, ltp) && sent == old(sent) + batch
    {
      rest, batch := heap, [];
      while |rest| > 0
        invariant Pending(rest, side, handled) && Account(Now(), rest, other, handled + [ltp])
        invariant InOrder(batch, rest) && sent == old(sent) + batch
        invariant forall s :: s in batch ==> s.entry.stop.side == side && Fires(s.entry.stop, ltp)
        decreases |rest|
      {
        FrontExists(rest, side);
        var e :| IsFront(rest, e);
        if (side == Sell && ltp > e.stop.trigger) || (side == Buy && ltp < e.stop.trigger) {
          break;
        }
        Send(e, rest, other, ltp);
        rest, batch := rest - multiset{e}, batch + [Sent(e, |handled|)];
      }
      AccountBatch(old(Now()), Now(), heap, rest, other, handled + [ltp], batch);
    }

    /** Sends every stop that fires at `ltp`, sell stops first, each side in trigger order, and nothing else. */
    method CheckAndTrigger(ltp: nat) returns (ghost sells: seq<Sent>, ghost buys: seq<Sent>)
      requires Valid()
      modifies this
      ensures Valid() && handled == old(handled) + [ltp] && registered == old(registered) && lastSeen == old(lastSeen)
      ensures Triggered(old(sellStops), sellStops, sells, Sell, ltp)
      ensures Triggered(old(buyStops), buyStops, buys, Buy, ltp)
      ensures sent == old(sent) + sells + buys
    {
      AccountTick(Now(), sellStops, buyStops, handled, ltp);
      sellStops, sells := Drain(sellStops, buyStops, Sell, ltp);
      AccountOther(Now(), sellStops, buyStops, handled + [ltp]);
      buyStops, buys := Drain(buyStops, sellStops, Buy, ltp);
      AccountOther(Now(), buyStops, sellStops, handled + [ltp]);
      handled := handled + [ltp];
    }

    /** One pass of the polling loop over this slot: only a changed price is looked at. */
    method OnPrice(ltp: nat)
      requires Valid()
      modifies this
      ensures Valid() && lastSeen == ltp && registered == old(registered)
      ensures handled == if ltp == old(lastSeen) then old(handled) else old(handled) + [ltp]
    {
      if ltp != lastSeen {
        ghost var sells, buys := CheckAndTrigger(ltp);
        lastSeen := ltp;
      }
    }

    /**
     Whole runs: the registered stops and the price changes handled are those of the events, and (by
     `SentExactlyIfFired`) the stops sent are exactly those that had to be.
     */
    method RunAll(events: seq<Event>)
      requires Valid()
      modifies this
      ensures Valid()
      ensures handled == old(handled) + Changes(events, old(lastSeen))
      ensures registered == old(registered) + Placed(events, old(lastSeen), |old(handled)|)
    {
      ghost var allChanges, allStops := handled + Changes(events, lastSeen),
        registered + Placed(events, lastSeen, |handled|);
      assert events[0..] == events;
      var i := 0;
      while i < |events|
        invariant i <= |events| && Valid()
        invariant handled + Changes(events[i..], lastSeen) == allChanges
        invariant registered + Placed(events[i..], lastSeen, |handled|) == allStops
      {
        NextEvent(events, i, lastSeen, handled, registered);
        Handle(events[i]);
        i := i + 1;
      }
    }

    method Handle(e: Event)
      requires Valid()
      modifies this
      ensures Valid() && lastSeen == LastAfter(e, old(lastSeen))
      ensures handled == old(handled) + Change(e, old(lastSeen))
      ensures registered == old(registered) + Placing(e, |old(handled)|)
    {
      match e {
        case Place(s) => Register(s);
        case Price(p) => OnPrice(p);
        case Elsewhere => var _ := TakeId();
      }
    }
  }
}
