/**
 The single-producer single-consumer queues.  Every load and every store of `push` and `pop` is one
 step, and the two threads interleave arbitrarily (under sequential consistency).

 Two layouts share one proof: the order queues keep wrapped indices masked with `capacity - 1` for a
 capacity that need not be a power of two; the message, gap and region queues keep free-running
 64-bit counters and mask them on use.
 */
module Spsc {
  import opened Bits

  const TWO64: nat := 0x1_0000_0000_0000_0000

  type Pos = n: nat | n >= 1 witness 1

  datatype Layout = Wrapped(capacity: Pos) | FreeRunning(size: Pos) {

    ghost predicate Valid() {
      match this
      case Wrapped(_) => true
      case FreeRunning(size) => IsPowerOfTwo(size) && TWO64 % size == 0
    }

    /** Length of the backing array. */
    function Length(): nat {
      if Wrapped? then capacity else size
    }

    /** The index after `c`, as the code computes it. */
    function Bump(c: nat): nat {
      if Wrapped? then And(c + 1, capacity - 1) else (c + 1) % TWO64
    }

    function Slot(c: nat): nat {
      if Wrapped? then c else And(c, size - 1)
    }

    predicate Full(head: nat, tail: nat) {
      if Wrapped? then Bump(tail) == head else And((tail + 1) % TWO64, size - 1) == And(head, size - 1)
    }

    /** How many slots are really in use. */
    function Slots(): Pos {
      if Wrapped? then TwoPart(capacity) else size
    }

    /** At how many operations an index comes round again. */
    function Period(): Pos {
      if Wrapped? then TwoPart(capacity) else TWO64
    }
  }

  // ----- Remainders ------------------------------------------------------------------------

  lemma {:induction false} ModMod(x: nat, m: nat, s: nat)
    requires m >= 1 && s >= 1 && m % s == 0
    ensures (x % m) % s == x % s
  {
    var a, b := x / m, m / s;
    assert x == m * a + x % m && m == s * b;
    var q, r := (x % m) / s, (x % m) % s;
    assert x == s * (b * a + q) + r by {
      assert m * a == s * (b * a);
      assert s * (b * a + q) == s * (b * a) + s * q;
    }
    ModUnique(x, s, b * a + q, r);
  }

  lemma {:induction false} ModNext(x: nat, m: nat)
    requires m >= 1
    ensures (x % m + 1) % m == (x + 1) % m
  {
    var q, r := x / m, x % m;
    var p := m * q;
    assert x == p + r;
    NextMultiple(m, q);
    if r + 1 < m {
      ModUnique(x + 1, m, q, r + 1);
      ModUnique(r + 1, m, 0, r + 1);
    } else {
      ModUnique(x + 1, m, q + 1, 0);
      ModUnique(r + 1, m, 1, 0);
    }
  }

  /** Numbers less than `n` apart have different remainders. */
  lemma {:induction false} ModDistinct(x: nat, y: nat, n: nat)
    requires n >= 1 && x <= y < x + n
    ensures x % n == y % n <==> x == y
  {
    if x % n == y % n {
      Distribute(n, y / n, x / n);
      Multiples(n, y / n - x / n);
    }
  }

  /** One more push would meet the oldest item exactly when all but one place is taken. */
  lemma {:induction false} ModFull(pushed: nat, popped: nat, s: nat)
    requires s >= 1 && popped <= pushed < popped + s
    ensures (pushed + 1) % s == popped % s <==> pushed + 1 == popped + s
  {
    if pushed + 1 == popped + s {
      var q := popped / s;
      NextMultiple(s, q);
      ModUnique(popped + s, s, q + 1, popped % s);
    } else {
      ModDistinct(popped, pushed + 1, s);
    }
  }

  /** Both layouts count modulo their period and address slots modulo their size. */
  lemma {:induction false} LayoutCounts(q: Layout, c: nat)
    requires q.Valid()
    ensures 1 <= q.Slots() <= q.Length() && q.Slots() <= q.Period() && q.Period() % q.Slots() == 0
    ensures q.Bump(c % q.Period()) == (c + 1) % q.Period()
    ensures q.Slot(c % q.Period()) == c % q.Slots() < q.Slots()
  {
    ModNext(c, q.Period());
    match q
    case Wrapped(capacity) => MaskCounts(c % q.Period() + 1, capacity);
    case FreeRunning(size) => MaskFree(c, size);
  }

  lemma {:induction false} MaskFree(c: nat, size: nat)
    requires IsPowerOfTwo(size) && TWO64 % size == 0
    ensures And(c % TWO64, size - 1) == c % size && 1 <= size <= TWO64
  {
    MaskPower(c % TWO64, size);
    ModMod(c, TWO64, size);
    var k := TWO64 / size;
    assert TWO64 == size * k;
    Multiples(size, k);
  }

  /** `full` fires exactly when all but one slot are taken, `empty` exactly when none is. */
  lemma {:induction false} TestsExact(q: Layout, pushed: nat, popped: nat)
    requires q.Valid() && popped <= pushed < popped + q.Slots()
    ensures q.Full(popped % q.Period(), pushed % q.Period()) <==> pushed - popped == q.Slots() - 1
    ensures popped % q.Period() == pushed % q.Period() <==> popped == pushed
  {
    LayoutCounts(q, pushed);
    LayoutCounts(q, popped);
    ModDistinct(popped, pushed, q.Period());
    ModFull(pushed, popped, q.Slots());
    match q
    case Wrapped(capacity) =>
    case FreeRunning(size) =>
      MaskPower((pushed + 1) % TWO64, size);
      MaskPower(popped % TWO64, size);
      ModNext(pushed, TWO64);
      ModMod(pushed + 1, TWO64, size);
      ModMod(popped, TWO64, size);
  }

  // ----- The two threads ---------------------------------------------------------------------

  datatype Producer<T> =
    | Idle
    | Loaded(item: T, tail: nat)    // own index read
    | Clear(item: T, tail: nat)     // the queue was seen not full; the slot is being written
    | Written(item: T, tail: nat)   // the slot holds the item

  datatype Consumer<T> =
    | Resting
    | Looking(head: nat)            // own index read
    | Ready(head: nat)              // the queue was seen not empty; the slot is being read
    | Holding(head: nat, got: T)    // the item has been copied out

  datatype State<T> = State(
    cells: seq<T>, head: nat, tail: nat,
    producer: Producer<T>, consumer: Consumer<T>,
    pushed: seq<T>, popped: seq<T>)  // what push accepted and what pop delivered, in order

  datatype Action<T> = PushCall(item: T) | LoadHead | Write | StoreTail | PopCall | LoadTail | Read | StoreHead

  /** One atomic step; an action that is not the thread's next one does nothing. */
  function Apply<T>(q: Layout, s: State<T>, a: Action<T>): State<T> {
    match (a, s.producer, s.consumer)
    case (PushCall(item), Idle, _) => s.(producer := Loaded(item, s.tail))
    case (LoadHead, Loaded(item, t), _) => s.(producer := if q.Full(s.head, t) then Idle else Clear(item, t))
    case (Write, Clear(item, t), _) =>
      if q.Slot(t) < |s.cells| then s.(cells := s.cells[q.Slot(t) := item], producer := Written(item, t)) else s
    case (StoreTail, Written(item, t), _) => s.(tail := q.Bump(t), producer := Idle, pushed := s.pushed + [item])
    case (PopCall, _, Resting) => s.(consumer := Looking(s.head))
    case (LoadTail, _, Looking(h)) => s.(consumer := if h == s.tail then Resting else Ready(h))
    case (Read, _, Ready(h)) =>
      if q.Slot(h) < |s.cells| then s.(consumer := Holding(h, s.cells[q.Slot(h)])) else s
    case (StoreHead, _, Holding(h, v)) => s.(head := q.Bump(h), consumer := Resting, popped := s.popped + [v])
    case _ => s
  }

  function Run<T>(q: Layout, s: State<T>, acts: seq<Action<T>>): State<T>
    decreases |acts|
  {
    if acts == [] then s else Run(q, Apply(q, s, acts[0]), acts[1..])
  }

  ghost predicate Init<T>(q: Layout, s: State<T>) {
    && |s.cells| == q.Length() && s.head == 0 && s.tail == 0
    && s.producer.Idle? && s.consumer.Resting? && |s.pushed| == 0 && |s.popped| == 0
  }

  // ----- The invariant -------------------------------------------------------------------------

  ghost predicate Counts<T>(q: Layout, s: State<T>) {
    && |s.cells| == q.Length()
    && |s.popped| <= |s.pushed| < |s.popped| + q.Slots()
    && s.head == |s.popped| % q.Period() && s.tail == |s.pushed| % q.Period()
  }

  /** What pop delivered is a prefix of what push accepted, and the rest is in its slots. */
  ghost predicate Fifo<T>(q: Layout, s: State<T>) {
    && s.popped <= s.pushed
    && forall i :: |s.popped| <= i < |s.pushed| ==> Stored(q, s.cells, i, s.pushed[i])
  }

  ghost predicate Stored<T>(q: Layout, cells: seq<T>, i: nat, v: T) {
    i % q.Slots() < |cells| && cells[i % q.Slots()] == v
  }

  ghost predicate Threads<T>(q: Layout, s: State<T>) {
    && (match s.producer
        case Idle => true
        case Loaded(_, t) => t == s.tail
        case Clear(_, t) => t == s.tail && |s.pushed| + 1 < |s.popped| + q.Slots()
        case Written(item, t) =>
          t == s.tail && |s.pushed| + 1 < |s.popped| + q.Slots() && Stored(q, s.cells, |s.pushed|, item))
    && (match s.consumer
        case Resting => true
        case Looking(h) => h == s.head
        case Ready(h) => h == s.head && |s.popped| < |s.pushed|
        case Holding(h, v) => h == s.head && |s.popped| < |s.pushed| && v == s.pushed[|s.popped|])
  }

  ghost predicate Inv<T>(q: Layout, s: State<T>) {
    Counts(q, s) && Fifo(q, s) && Threads(q, s)
  }

  /** Writing the slot of the next item disturbs no item still queued. */
  lemma {:induction false} WriteIsFree<T>(q: Layout, cells: seq<T>, pushed: nat, i: nat, v: T, item: T)
    requires q.Valid() && |cells| == q.Length() && i < pushed < i + q.Slots() && Stored(q, cells, i, v)
    ensures var k := q.Slot(pushed % q.Period());
            k == pushed % q.Slots() < |cells| && Stored(q, cells[k := item], i, v)
              && Stored(q, cells[k := item], pushed, item)
  {
    LayoutCounts(q, pushed);
    ModDistinct(i, pushed, q.Slots());
  }

  lemma {:induction false} WriteKeeps<T>(q: Layout, s: State<T>)
    requires q.Valid() && Inv(q, s) && s.producer.Clear?
    ensures Inv(q, Apply(q, s, Write))
  {
    var Clear(item, t) := s.producer;
    var n := |s.pushed|;
    LayoutCounts(q, n);
    var s' := Apply(q, s, Write);
    assert s'.cells == s.cells[n % q.Slots() := item];
    forall i | |s.popped| <= i < n
      ensures Stored(q, s'.cells, i, s.pushed[i])
    {
      WriteIsFree(q, s.cells, n, i, s.pushed[i], item);
    }
  }

  lemma {:induction false} StepKeeps<T>(q: Layout, s: State<T>, a: Action<T>)
    requires q.Valid() && Inv(q, s)
    ensures Inv(q, Apply(q, s, a))
  {
    match a
    case LoadHead => TestsExact(q, |s.pushed|, |s.popped|);
    case LoadTail => TestsExact(q, |s.pushed|, |s.popped|);
    case StoreTail => LayoutCounts(q, |s.pushed|);
    case StoreHead => LayoutCounts(q, |s.popped|);
    case Write =>
      if s.producer.Clear? {
        WriteKeeps(q, s);
      }
    case Read =>
      if s.consumer.Ready? {
        LayoutCounts(q, |s.popped|);
        assert Stored(q, s.cells, |s.popped|, s.pushed[|s.popped|]);
      }
    case _ =>
  }

  /** Every interleaving of one producer and one consumer keeps the invariant. */
  lemma {:induction false} RunKeeps<T>(q: Layout, s: State<T>, acts: seq<Action<T>>)
    requires q.Valid() && Inv(q, s)
    ensures Inv(q, Run(q, s, acts))
    decreases |acts|
  {
    if acts != [] {
      StepKeeps(q, s, acts[0]);
      RunKeeps(q, Apply(q, s, acts[0]), acts[1..]);
    }
  }

  /**
   The queue is a bounded FIFO in every interleaving: deliveries are a prefix of what was accepted; at
   most `Slots() - 1` items are in flight; a push is refused exactly when that many are, a pop exactly
   when none is; and no slot is written while it is being read.
   */
  lemma {:induction false} BoundedFifo<T>(q: Layout, s: State<T>, acts: seq<Action<T>>)
    requires q.Valid() && Init(q, s)
    ensures var e := Run(q, s, acts);
            && e.popped <= e.pushed && |e.pushed| - |e.popped| <= q.Slots() - 1
            && (e.producer.Loaded? ==>
                  if |e.pushed| - |e.popped| == q.Slots() - 1 then Apply(q, e, LoadHead).producer.Idle?
                  else Apply(q, e, LoadHead).producer == Clear(e.producer.item, e.producer.tail))
            && (e.consumer.Looking? ==>
                  if e.pushed == e.popped then Apply(q, e, LoadTail).consumer.Resting?
                  else Apply(q, e, LoadTail).consumer == Ready(e.consumer.head))
            && (e.producer.Clear? && e.consumer.Ready? ==> q.Slot(e.producer.tail) != q.Slot(e.consumer.head))
  {
    LayoutCounts(q, 0);
    assert Inv(q, s);
    RunKeeps(q, s, acts);
    var e := Run(q, s, acts);
    TestsExact(q, |e.pushed|, |e.popped|);
    LayoutCounts(q, |e.pushed|);
    LayoutCounts(q, |e.popped|);
    ModDistinct(|e.popped|, |e.pushed|, q.Slots());
  }

  // ----- What a push and a pop do -------------------------------------------------------------------

  function PushOf<T>(item: T): seq<Action<T>> {
    [PushCall(item), LoadHead, Write, StoreTail]
  }

  function PopOf<T>(): seq<Action<T>> {
    [PopCall, LoadTail, Read, StoreHead]
  }

  lemma {:induction false} FourSteps<T>(q: Layout, s: State<T>, a: Action<T>, b: Action<T>, c: Action<T>, d: Action<T>)
    ensures Run(q, s, [a, b, c, d]) == Apply(q, Apply(q, Apply(q, Apply(q, s, a), b), c), d)
  {
    var s1, s2 := Apply(q, s, a), Apply(q, Apply(q, s, a), b);
    var s3 := Apply(q, s2, c);
    assert [a, b, c, d][1..] == [b, c, d] && [b, c, d][1..] == [c, d] && [c, d][1..] == [d] && [d][1..] == [];
    assert Run(q, s3, [d]) == Run(q, Apply(q, s3, d), []);
    assert Run(q, s2, [c, d]) == Run(q, s3, [d]);
    assert Run(q, s1, [b, c, d]) == Run(q, s2, [c, d]);
  }

  /** In every reachable state a push by an idle producer appends its item if there is room, and else does nothing. */
  lemma {:induction false} PushAppends<T>(q: Layout, s: State<T>, acts: seq<Action<T>>, x: T)
    requires q.Valid() && Init(q, s) && Run(q, s, acts).producer.Idle?
    ensures var e := Run(q, s, acts);
            var e' := Run(q, e, PushOf(x));
            && e'.producer.Idle? && e'.popped == e.popped
            && e'.pushed == if |e.pushed| - |e.popped| < q.Slots() - 1 then e.pushed + [x] else e.pushed
  {
    var e := Run(q, s, acts);
    ReachedInv(q, s, acts);
    TestsExact(q, |e.pushed|, |e.popped|);
    LayoutCounts(q, |e.pushed|);
    FourSteps(q, e, PushCall(x), LoadHead, Write, StoreTail);
  }

  /** A pop by a resting consumer delivers the oldest item queued, exactly if there is one. */
  lemma {:induction false} PopDelivers<T>(q: Layout, s: State<T>, acts: seq<Action<T>>)
    requires q.Valid() && Init(q, s) && Run(q, s, acts).consumer.Resting?
    ensures var e := Run(q, s, acts);
            var e' := Run(q, e, PopOf());
            && e'.consumer.Resting? && e'.pushed == e.pushed && |e.popped| <= |e.pushed|
            && e'.popped == if |e.popped| < |e.pushed| then e.popped + [e.pushed[|e.popped|]] else e.popped
  {
    var e := Run(q, s, acts);
    ReachedInv(q, s, acts);
    TestsExact(q, |e.pushed|, |e.popped|);
    LayoutCounts(q, |e.popped|);
    assert |e.popped| < |e.pushed| ==> Stored(q, e.cells, |e.popped|, e.pushed[|e.popped|]);
    FourSteps(q, e, PopCall, LoadTail, Read, StoreHead);
  }

  lemma {:induction false} ReachedInv<T>(q: Layout, s: State<T>, acts: seq<Action<T>>)
    requires q.Valid() && Init(q, s)
    ensures Inv(q, Run(q, s, acts))
  {
    LayoutCounts(q, 0);
    RunKeeps(q, s, acts);
  }

  /** A push of `x` on top of `before` is past its test: after `done` of its two last steps. */
  ghost predicate Pushing<T>(s: State<T>, before: seq<T>, x: T, done: nat) {
    match done
    case 0 => s.producer.Clear? && s.producer.item == x && s.pushed == before
    case 1 => s.producer.Written? && s.producer.item == x && s.pushed == before
    case _ => |before| < |s.pushed| && s.pushed[..|before|] == before && s.pushed[|before|] == x
  }

  /** How far a push is after its next step, or after any other step. */
  function Advance<T>(a: Action<T>, done: nat): nat {
    if (done == 0 && a.Write?) || (done == 1 && a.StoreTail?) then done + 1 else done
  }

  function Progress<T>(acts: seq<Action<T>>, done: nat): nat {
    if |acts| == 0 then done else Progress(acts[1..], Advance(acts[0], done))
  }

  lemma {:induction false} PushStep<T>(q: Layout, s: State<T>, a: Action<T>, before: seq<T>, x: T, done: nat)
    requires q.Valid() && Inv(q, s) && Pushing(s, before, x, done)
    ensures Pushing(Apply(q, s, a), before, x, Advance(a, done))
  {
    LayoutCounts(q, |s.pushed|);
    var s' := Apply(q, s, a);
    assert s'.pushed == s.pushed || s'.pushed[..|s.pushed|] == s.pushed;
  }

  lemma {:induction false} PushGoesOn<T>(q: Layout, s: State<T>, acts: seq<Action<T>>, before: seq<T>, x: T, done: nat)
    requires q.Valid() && Inv(q, s) && Pushing(s, before, x, done)
    ensures Pushing(Run(q, s, acts), before, x, Progress(acts, done))
    decreases |acts|
  {
    if |acts| > 0 {
      StepKeeps(q, s, acts[0]);
      PushStep(q, s, acts[0], before, x, done);
      PushGoesOn(q, Apply(q, s, acts[0]), acts[1..], before, x, Advance(acts[0], done));
    }
  }

  /**
   Under any interleaving: a push whose test finds room is accepted once its two last steps have been taken,
   whatever else happens in between and afterwards; a push whose test finds none is over.
   */
  lemma {:induction false} PushIsAccepted<T>(q: Layout, s: State<T>, acts: seq<Action<T>>, acts': seq<Action<T>>)
    requires q.Valid() && Init(q, s) && Run(q, s, acts).producer.Loaded?
    ensures var e := Run(q, s, acts);
            var tested := Apply(q, e, LoadHead);
            var e' := Run(q, tested, acts');
            if |e.pushed| - |e.popped| < q.Slots() - 1
            then && (Progress(acts', 0) == 2 ==> e.pushed + [e.producer.item] <= e'.pushed)
                 && (Progress(acts', 0) < 2 ==> e'.pushed == e.pushed && !e'.producer.Idle?)
            else tested.producer.Idle? && tested.pushed == e.pushed
  {
    var e := Run(q, s, acts);
    ReachedInv(q, s, acts);
    TestsExact(q, |e.pushed|, |e.popped|);
    StepKeeps(q, e, LoadHead);
    if |e.pushed| - |e.popped| < q.Slots() - 1 {
      PushGoesOn(q, Apply(q, e, LoadHead), acts', e.pushed, e.producer.item, 0);
    }
  }

  /** A pop on top of `before` is past its test: after `done` of its two last steps. */
  ghost predicate Popping<T>(s: State<T>, before: seq<T>, x: T, done: nat) {
    match done
    case 0 => s.consumer.Ready? && s.popped == before && |before| < |s.pushed| && s.pushed[|before|] == x
    case 1 => s.consumer.Holding? && s.popped == before && s.consumer.got == x
    case _ => |before| < |s.popped| && s.popped[..|before|] == before && s.popped[|before|] == x
  }

  function PopAdvance<T>(a: Action<T>, done: nat): nat {
    if (done == 0 && a.Read?) || (done == 1 && a.StoreHead?) then done + 1 else done
  }

  function PopProgress<T>(acts: seq<Action<T>>, done: nat): nat {
    if |acts| == 0 then done else PopProgress(acts[1..], PopAdvance(acts[0], done))
  }

  lemma {:induction false} PopStep<T>(q: Layout, s: State<T>, a: Action<T>, before: seq<T>, x: T, done: nat)
    requires q.Valid() && Inv(q, s) && Popping(s, before, x, done)
    ensures Popping(Apply(q, s, a), before, x, PopAdvance(a, done))
  {
    LayoutCounts(q, |s.popped|);
    assert |s.popped| < |s.pushed| ==> Stored(q, s.cells, |s.popped|, s.pushed[|s.popped|]);
    var s' := Apply(q, s, a);
    assert s'.popped == s.popped || s'.popped[..|s.popped|] == s.popped;
  }

  lemma {:induction false} PopGoesOn<T>(q: Layout, s: State<T>, acts: seq<Action<T>>, before: seq<T>, x: T, done: nat)
    requires q.Valid() && Inv(q, s) && Popping(s, before, x, done)
    ensures Popping(Run(q, s, acts), before, x, PopProgress(acts, done))
    decreases |acts|
  {
    if |acts| > 0 {
      StepKeeps(q, s, acts[0]);
      PopStep(q, s, acts[0], before, x, done);
      PopGoesOn(q, Apply(q, s, acts[0]), acts[1..], before, x, PopAdvance(acts[0], done));
    }
  }

  /** Likewise a pop whose test finds something delivers the oldest item once its two last steps have been taken. */
  lemma {:induction false} PopIsDelivered<T>(q: Layout, s: State<T>, acts: seq<Action<T>>, acts': seq<Action<T>>)
    requires q.Valid() && Init(q, s) && Run(q, s, acts).consumer.Looking?
    ensures var e := Run(q, s, acts);
            var tested := Apply(q, e, LoadTail);
            var e' := Run(q, tested, acts');
            if |e.popped| < |e.pushed|
            then && (PopProgress(acts', 0) == 2 ==> e.popped + [e.pushed[|e.popped|]] <= e'.popped)
                 && (PopProgress(acts', 0) < 2 ==> e'.popped == e.popped && !e'.consumer.Resting?)
            else tested.consumer.Resting? && tested.popped == e.popped
  {
    var e := Run(q, s, acts);
    ReachedInv(q, s, acts);
    TestsExact(q, |e.pushed|, |e.popped|);
    StepKeeps(q, e, LoadTail);
    if |e.popped| < |e.pushed| {
      PopGoesOn(q, Apply(q, e, LoadTail), acts', e.popped, e.pushed[|e.popped|], 0);
    }
  }

  /** The default order-queue capacity of 10000 leaves room for 15 orders. */
  lemma {:induction false} DefaultCapacity()
    ensures Wrapped(10000).Valid() && Wrapped(10000).Slots() - 1 == 15
  {
    assert TwoPart(625) == 1;
    assert TwoPart(1250) == 2;
    assert TwoPart(2500) == 4;
    assert TwoPart(5000) == 8;
  }

  /** The free-running queues use all but one of their slots. */
  lemma {:induction false} CounterSizes()
    ensures FreeRunning(0x10_0000).Valid() && FreeRunning(32).Valid()
  {
    assert IsPowerOfTwo(32) && IsPowerOfTwo(32 * 32) && IsPowerOfTwo(0x10_0000);
  }
}
