/**
 The trade ring: one producer and any number of readers over slots guarded by a sequence number that
 is odd while the payload is being written.  Payloads are copied word by word; every load, store and
 word copy is one step, and all threads interleave arbitrarily (under sequential consistency).
 */
module Seqlock {
  import opened Bits
  import opened Spsc

  /** A trade as the words that are copied one at a time. */
  type Payload = seq<int>

  datatype Ring = Ring(size: nat, words: nat) {
    predicate Valid() {
      size >= 1
    }
  }

  datatype Slot = Slot(seqno: nat, payload: Payload)

  datatype Producer =
    | Between
    | Copying(trade: Payload, done: nat)   // the slot is marked odd, `done` words are written

  datatype Reader = Reader(expected: nat, pc: ReaderPc, log: seq<Receipt>)

  datatype ReaderPc =
    | Polling
    | Available(seen: nat)                                                 // any_new_trade said yes on number `seen`
    | Top(buffer: Payload, seq2: nat, seen: nat, junk: nat)                // about to load the first number
    | Reading(buffer: Payload, seq1: nat, done: nat, seen: nat, junk: nat) // even number loaded, `done` words copied

  /**
   What one get_trade call returned: for which number it was called, the number it left on, the buffer,
   whether it had been lapped, and what its uninitialised `seq2` held at the start.
   */
  datatype Receipt = Receipt(expected: nat, seqno: nat, buffer: Payload, lapped: bool, junk: nat)

  datatype State = State(
    slots: seq<Slot>,
    expected: nat,              // the producer's next_expected_seq
    producer: Producer,
    readers: seq<Reader>,
    published: seq<Payload>)    // complete trades, oldest first

  datatype Action =
    | Begin(trade: Payload)
    | CopyIn
    | Finish
    | Poll(r: nat)
    | Call(r: nat, junkBuffer: Payload, junkSeq: nat)  // the locals of get_trade start with arbitrary contents
    | LoadFirst(r: nat)
    | CopyOut(r: nat)
    | LoadSecond(r: nat)

  /** The ring index that goes with a sequence number: both advance together from 0 and 1. */
  function Index(g: Ring, expected: nat): nat
    requires g.Valid() && expected >= 1
  {
    (expected - 1) % g.size
  }

  /** How many trades have been begun. */
  function Begun(s: State): nat {
    |s.published| + if s.producer.Copying? then 1 else 0
  }

  function SlotAt(g: Ring, s: State, expected: nat): Slot
    requires g.Valid() && expected >= 1 && |s.slots| == g.size
  {
    s.slots[Index(g, expected)]
  }

  // ----- Steps -------------------------------------------------------------------------------

  predicate Shaped(g: Ring, s: State) {
    && g.Valid() && |s.slots| == g.size && s.expected >= 1
    && (forall i :: 0 <= i < |s.slots| ==> |s.slots[i].payload| == g.words)
    && (forall r :: 0 <= r < |s.readers| ==> ReaderShaped(g, s.readers[r]))
    && (s.producer.Copying? ==> |s.producer.trade| == g.words && s.producer.done <= g.words)
  }

  predicate ReaderShaped(g: Ring, rd: Reader) {
    && rd.expected >= 1
    && (rd.pc.Top? ==> |rd.pc.buffer| == g.words)
    && (rd.pc.Reading? ==> |rd.pc.buffer| == g.words && rd.pc.done <= g.words)
  }

  /** add_trade, in three kinds of steps. */
  function ProducerStep(g: Ring, s: State, a: Action): State
    requires Shaped(g, s)
  {
    var i := Index(g, s.expected);
    match (a, s.producer)
    case (Begin(trade), Between) =>
      if |trade| != g.words then s
      else s.(slots := s.slots[i := s.slots[i].(seqno := 2 * s.expected + 1)], producer := Copying(trade, 0))
    case (CopyIn, Copying(trade, d)) =>
      if d == g.words then s
      else s.(slots := s.slots[i := s.slots[i].(payload := s.slots[i].payload[d := trade[d]])],
        producer := Copying(trade, d + 1))
    case (Finish, Copying(trade, d)) =>
      if d < g.words then s
      else s.(slots := s.slots[i := s.slots[i].(seqno := 2 * s.expected + 2)],
              expected := s.expected + 1, producer := Between, published := s.published + [trade])
    case _ => s
  }

  /** Leaving get_trade with `buffer` on sequence number `q`. */
  function Leave(g: Ring, s: State, rd: Reader, buffer: Payload, q: nat, junk: nat): Reader {
    Reader(rd.expected + 1, Polling, rd.log + [Receipt(rd.expected, q, buffer, Begun(s) >= rd.expected + g.size, junk)])
  }

  /**
   any_new_trade and get_trade; `continue` jumps to the loop test, so an odd number equal to the last one
   read ends the loop.
   */
  function ReaderStep(g: Ring, s: State, rd: Reader, a: Action): Reader
    requires Shaped(g, s) && ReaderShaped(g, rd)
  {
    var q := SlotAt(g, s, rd.expected);
    match (a, rd.pc)
    case (Poll(_), Polling) => if q.seqno >= rd.expected then rd.(pc := Available(q.seqno)) else rd
    case (Call(_, junkBuffer, junkSeq), Available(seen)) =>
      if |junkBuffer| == g.words then rd.(pc := Top(junkBuffer, junkSeq, seen, junkSeq)) else rd
    case (LoadFirst(_), Top(buffer, seq2, seen, junk)) =>
      if q.seqno % 2 == 0 then rd.(pc := Reading(buffer, q.seqno, 0, seen, junk))
      else if q.seqno == seq2 then Leave(g, s, rd, buffer, q.seqno, junk)
      else rd
    case (CopyOut(_), Reading(buffer, seq1, d, seen, junk)) =>
      if d == g.words then rd else rd.(pc := Reading(buffer[d := q.payload[d]], seq1, d + 1, seen, junk))
    case (LoadSecond(_), Reading(buffer, seq1, d, seen, junk)) =>
      if d < g.words then rd
      else if q.seqno == seq1 then Leave(g, s, rd, buffer, seq1, junk)
      else rd.(pc := Top(buffer, q.seqno, seen, junk))
    case _ => rd
  }

  function Apply(g: Ring, s: State, a: Action): State
    requires Shaped(g, s)
  {
    if a.Begin? || a.CopyIn? || a.Finish? then ProducerStep(g, s, a)
    else if a.r < |s.readers| then s.(readers := s.readers[a.r := ReaderStep(g, s, s.readers[a.r], a)])
    else s
  }

  // ----- What holds of the slots ----------------------------------------------------------------

  /** The last trade begun on slot `i`, counting from 1; 0 if there was none. */
  function LastOn(g: Ring, i: nat, begun: nat): nat
    requires g.Valid() && i < g.size
  {
    if begun <= i then 0 else begun - (begun - 1 - i) % g.size
  }

  /** A slot holds its last trade, or is being given it. */
  ghost predicate SlotOk(g: Ring, s: State, i: nat)
    requires Shaped(g, s) && i < g.size
  {
    var n := LastOn(g, i, Begun(s));
    var slot := s.slots[i];
    if n == 0 then slot.seqno == 0
    else if s.producer.Copying? && n == Begun(s) then
      && slot.seqno == 2 * n + 1
      && slot.payload[..s.producer.done] == s.producer.trade[..s.producer.done]
    else slot.seqno == 2 * n + 2 && n <= |s.published| && slot.payload == s.published[n - 1]
  }

  /** The reader has been lapped, or its number is too high for the poll to be exact. */
  ghost predicate Behind(g: Ring, s: State, expected: nat) {
    Begun(s) >= expected + g.size || expected + 2 >= 2 * g.size
  }

  /**
   A reader in the middle of a copy has, as long as the number has not moved, only words of the current
   payload.  Unless it is behind, it copies only its own trade, and `seq2` keeps its initial contents
   until it is done.
   */
  ghost predicate ReaderOk(g: Ring, s: State, rd: Reader)
    requires Shaped(g, s) && ReaderShaped(g, rd)
  {
    var q := SlotAt(g, s, rd.expected);
    && |rd.log| + 1 == rd.expected
    && (rd.pc.Available? ==> rd.expected <= rd.pc.seen <= q.seqno)
    && (rd.pc.Top? ==> rd.expected <= rd.pc.seen <= q.seqno && (rd.pc.seq2 == rd.pc.junk || Behind(g, s, rd.expected)))
    && (rd.pc.Reading? ==>
          && rd.expected <= rd.pc.seen <= rd.pc.seq1 <= q.seqno && rd.pc.seq1 % 2 == 0
          && (rd.pc.seq1 >= 2 * rd.expected + 2 || Behind(g, s, rd.expected))
          && (q.seqno == rd.pc.seq1 ==> rd.pc.buffer[..rd.pc.done] == q.payload[..rd.pc.done]))
    && (forall n :: 0 <= n < |rd.log| ==> rd.log[n].expected == n + 1 && Honest(g, s, rd.log[n]))
  }

  /**
   What a receipt is worth: left on an even number, it is one whole published trade of the right slot.
   If the reader was not behind, it is exactly the trade asked for, or else it was left on the odd
   number of that trade because `seq2` held this number to begin with.
   */
  ghost predicate Honest(g: Ring, s: State, c: Receipt)
    requires g.Valid()
  {
    && c.expected >= 1
    && (c.seqno % 2 == 0 ==>
          && 4 <= c.seqno <= 2 * |s.published| + 2
          && c.buffer == s.published[c.seqno / 2 - 2]
          && (c.seqno / 2 - 2) % g.size == Index(g, c.expected))
    && (!c.lapped && c.expected + 2 < 2 * g.size ==>
          c.seqno == 2 * c.expected + 2 || (c.seqno == 2 * c.expected + 1 && c.junk == c.seqno))
  }

  ghost predicate Inv(g: Ring, s: State) {
    && Shaped(g, s)
    && s.expected == |s.published| + 1
    && (forall i {:trigger SlotOk(g, s, i)} :: 0 <= i < g.size ==> SlotOk(g, s, i))
    && (forall r {:trigger s.readers[r]} :: 0 <= r < |s.readers| ==> ReaderOk(g, s, s.readers[r]))
  }

  // ----- The last trade on a slot ------------------------------------------------------------------

  lemma {:induction false} LastIsHere(g: Ring, i: nat, begun: nat)
    requires g.Valid() && i < g.size
    ensures LastOn(g, i, begun) <= begun
    ensures LastOn(g, i, begun) > 0 ==> (LastOn(g, i, begun) - 1) % g.size == i
  {
    if begun > i {
      var d := begun - 1 - i;
      var q := d / g.size;
      assert d == g.size * q + d % g.size;
      ModUnique(LastOn(g, i, begun) - 1, g.size, q, i);
    }
  }

  lemma {:induction false} LastNext(g: Ring, i: nat, begun: nat)
    requires g.Valid() && i < g.size
    ensures LastOn(g, i, begun + 1) == if begun % g.size == i then begun + 1 else LastOn(g, i, begun)
  {
    var n := g.size;
    if begun < i {
      ModUnique(begun, n, 0, begun);
    } else if begun == i {
      ModUnique(begun, n, 0, begun);
      ModUnique(0, n, 0, 0);
    } else {
      var d := begun - 1 - i;
      ModNext(d, n);
      var q, r := d / n, d % n;
      assert d == n * q + r;
      NextMultiple(n, q);
      if r + 1 == n {
        ModUnique(d + 1, n, q + 1, 0);
        ModUnique(begun, n, q + 1, i);
      } else {
        ModUnique(d + 1, n, q, r + 1);
        if begun % n == i {
          var p := begun / n;
          assert begun == n * p + i;
          ModUnique(d + 1, n, p, 0);
          assert false;
        }
      }
    }
  }

  /** Sequence numbers on a slot say which trade it holds, and never exceed the newest one. */
  lemma {:induction false} SlotBound(g: Ring, s: State, i: nat)
    requires Inv(g, s) && i < g.size
    ensures s.slots[i].seqno <= 2 * Begun(s) + 2
    ensures s.slots[i].seqno == 2 * Begun(s) + 2 ==> s.producer.Between?
    ensures s.producer.Copying? && i == Index(g, s.expected) ==>
            s.slots[i].seqno == 2 * s.expected + 1 && LastOn(g, i, Begun(s)) == s.expected
    ensures s.producer.Copying? && i != Index(g, s.expected) ==> LastOn(g, i, Begun(s)) != Begun(s)
  {
    assert SlotOk(g, s, i);
    LastIsHere(g, i, Begun(s));
    if s.producer.Copying? {
      LastNext(g, i, |s.published|);
      LastIsHere(g, i, |s.published|);
    }
  }

  // ----- Every step keeps the invariant ----------------------------------------------------------------

  /** A producer step only ever raises the number of the slot it writes, and leaves even numbers' payloads alone. */
  lemma {:induction false} ReaderFrame(g: Ring, s: State, s': State, rd: Reader)
    requires Shaped(g, s) && Shaped(g, s') && ReaderShaped(g, rd) && ReaderOk(g, s, rd) && s.published <= s'.published
    requires Begun(s) <= Begun(s')
    requires var q, q' := SlotAt(g, s, rd.expected), SlotAt(g, s', rd.expected);
             q == q' || q.seqno < q'.seqno || (q.seqno == q'.seqno && q.seqno % 2 == 1)
    ensures ReaderOk(g, s', rd)
  {
    forall n | 0 <= n < |rd.log|
      ensures Honest(g, s', rd.log[n])
    {
      assert Honest(g, s, rd.log[n]);
    }
  }

  lemma {:induction false} AllReadersFrame(g: Ring, s: State, s': State, k: nat)
    requires Inv(g, s) && Shaped(g, s') && k < g.size && s'.readers == s.readers
    requires s.published <= s'.published && Begun(s) <= Begun(s') && s'.slots == s.slots[k := s'.slots[k]]
    requires var q, q' := s.slots[k], s'.slots[k]; q.seqno < q'.seqno || (q.seqno == q'.seqno && q.seqno % 2 == 1)
    ensures forall r {:trigger s'.readers[r]} :: 0 <= r < |s'.readers| ==> ReaderOk(g, s', s'.readers[r])
  {
    forall r | 0 <= r < |s'.readers|
      ensures ReaderOk(g, s', s'.readers[r])
    {
      ReaderFrame(g, s, s', s.readers[r]);
    }
  }

  lemma {:induction false} BeginKeeps(g: Ring, s: State, trade: Payload)
    requires Inv(g, s) && s.producer.Between? && |trade| == g.words
    ensures Inv(g, ProducerStep(g, s, Begin(trade)))
  {
    var s', k := ProducerStep(g, s, Begin(trade)), Index(g, s.expected);
    SlotBound(g, s, k);
    forall i | 0 <= i < g.size
      ensures SlotOk(g, s', i)
    {
      assert SlotOk(g, s, i);
      LastNext(g, i, |s.published|);
      LastIsHere(g, i, |s.published|);
    }
    AllReadersFrame(g, s, s', k);
  }

  lemma {:induction false} CopyInSlot(g: Ring, s: State, i: nat)
    requires Inv(g, s) && s.producer.Copying? && s.producer.done < g.words && i < g.size
    ensures SlotOk(g, ProducerStep(g, s, CopyIn), i)
  {
    var s', k, d := ProducerStep(g, s, CopyIn), Index(g, s.expected), s.producer.done;
    assert SlotOk(g, s, i);
    SlotBound(g, s, i);
    if i == k {
      assert s.producer.trade[..d + 1] == s.producer.trade[..d] + [s.producer.trade[d]];
      assert s'.slots[k].payload[..d + 1] == s.slots[k].payload[..d] + [s.producer.trade[d]];
    }
  }

  lemma {:induction false} CopyInKeeps(g: Ring, s: State)
    requires Inv(g, s) && s.producer.Copying? && s.producer.done < g.words
    ensures Inv(g, ProducerStep(g, s, CopyIn))
  {
    var s', k := ProducerStep(g, s, CopyIn), Index(g, s.expected);
    SlotBound(g, s, k);
    forall i | 0 <= i < g.size
      ensures SlotOk(g, s', i)
    {
      CopyInSlot(g, s, i);
    }
    AllReadersFrame(g, s, s', k);
  }

  lemma {:induction false} FinishKeeps(g: Ring, s: State)
    requires Inv(g, s) && s.producer.Copying? && s.producer.done == g.words
    ensures Inv(g, ProducerStep(g, s, Finish))
  {
    var s', k, t := ProducerStep(g, s, Finish), Index(g, s.expected), s.producer.trade;
    SlotBound(g, s, k);
    forall i | 0 <= i < g.size
      ensures SlotOk(g, s', i)
    {
      assert SlotOk(g, s, i);
      SlotBound(g, s, i);
      if i == k {
        assert t[..g.words] == t && s.slots[k].payload[..g.words] == s.slots[k].payload;
      }
    }
    AllReadersFrame(g, s, s', k);
  }

  /** The reader that is not lapped and expects a number below `2 * size - 2` can only be looking at its own trade. */
  lemma {:induction false} OwnTrade(g: Ring, n: nat, expected: nat, begun: nat)
    requires g.Valid() && n >= 1 && expected >= 1 && (n - 1) % g.size == Index(g, expected)
    requires n <= begun < expected + g.size && expected + 2 < 2 * g.size && 2 * n + 2 >= expected
    ensures n == expected
  {
    if n < expected {
      ModDistinct(n - 1, if expected < n + g.size then expected - 1 else n - 1, g.size);
    } else {
      ModDistinct(expected - 1, n - 1, g.size);
    }
  }

  /** The number found on a slot by a reader that is not behind is that of its own trade. */
  lemma {:induction false} OwnNumber(g: Ring, s: State, expected: nat)
    requires Inv(g, s) && expected >= 1 && SlotAt(g, s, expected).seqno >= expected
    ensures Behind(g, s, expected) || 2 * expected + 1 <= SlotAt(g, s, expected).seqno <= 2 * expected + 2
  {
    var i := Index(g, expected);
    var n := LastOn(g, i, Begun(s));
    assert SlotOk(g, s, i);
    LastIsHere(g, i, Begun(s));
    if !Behind(g, s, expected) {
      OwnTrade(g, n, expected, Begun(s));
    }
  }

  lemma {:induction false} EvenExit(g: Ring, s: State, rd: Reader)
    requires Inv(g, s) && ReaderShaped(g, rd) && ReaderOk(g, s, rd)
    requires rd.pc.Reading? && rd.pc.done == g.words && SlotAt(g, s, rd.expected).seqno == rd.pc.seq1
    ensures ReaderOk(g, s, ReaderStep(g, s, rd, LoadSecond(0)))
  {
    var i := Index(g, rd.expected);
    var n := LastOn(g, i, Begun(s));
    var q := s.slots[i];
    assert SlotOk(g, s, i);
    LastIsHere(g, i, Begun(s));
    assert n >= 1 && q.seqno == 2 * n + 2 && q.payload == s.published[n - 1];
    assert rd.pc.buffer == rd.pc.buffer[..g.words] && q.payload == q.payload[..g.words];
    OwnNumber(g, s, rd.expected);
    var rd' := ReaderStep(g, s, rd, LoadSecond(0));
    assert Honest(g, s, rd'.log[|rd.log|]);
  }

  lemma {:induction false} OddExit(g: Ring, s: State, rd: Reader)
    requires Inv(g, s) && ReaderShaped(g, rd) && ReaderOk(g, s, rd) && rd.pc.Top?
    requires SlotAt(g, s, rd.expected).seqno % 2 == 1 && SlotAt(g, s, rd.expected).seqno == rd.pc.seq2
    ensures var rd' := ReaderStep(g, s, rd, LoadFirst(0)); ReaderShaped(g, rd') && ReaderOk(g, s, rd')
  {
    OwnNumber(g, s, rd.expected);
    var rd' := ReaderStep(g, s, rd, LoadFirst(0));
    assert Honest(g, s, rd'.log[|rd.log|]);
    assert forall n :: 0 <= n < |rd.log| ==> rd'.log[n] == rd.log[n];
  }

  lemma {:induction false} LoadFirstKeeps(g: Ring, s: State, rd: Reader)
    requires Inv(g, s) && ReaderShaped(g, rd) && ReaderOk(g, s, rd) && rd.pc.Top?
    ensures var rd' := ReaderStep(g, s, rd, LoadFirst(0)); ReaderShaped(g, rd') && ReaderOk(g, s, rd')
  {
    var q := SlotAt(g, s, rd.expected);
    if q.seqno % 2 == 1 && q.seqno == rd.pc.seq2 {
      OddExit(g, s, rd);
    } else {
      OwnNumber(g, s, rd.expected);
    }
  }

  lemma {:induction false} RetryKeeps(g: Ring, s: State, rd: Reader)
    requires Inv(g, s) && ReaderShaped(g, rd) && ReaderOk(g, s, rd)
    requires rd.pc.Reading? && rd.pc.done == g.words && SlotAt(g, s, rd.expected).seqno != rd.pc.seq1
    ensures var rd' := ReaderStep(g, s, rd, LoadSecond(0)); ReaderShaped(g, rd') && ReaderOk(g, s, rd')
  {
    OwnNumber(g, s, rd.expected);
  }

  lemma {:induction false} ReaderKeeps(g: Ring, s: State, rd: Reader, a: Action)
    requires Inv(g, s) && ReaderShaped(g, rd) && ReaderOk(g, s, rd)
    ensures ReaderShaped(g, ReaderStep(g, s, rd, a)) && ReaderOk(g, s, ReaderStep(g, s, rd, a))
  {
    if a.LoadSecond? && rd.pc.Reading? && rd.pc.done == g.words {
      if SlotAt(g, s, rd.expected).seqno == rd.pc.seq1 {
        EvenExit(g, s, rd);
      } else {
        RetryKeeps(g, s, rd);
      }
    } else if a.CopyOut? && rd.pc.Reading? && rd.pc.done < g.words {
      var q, d, b := SlotAt(g, s, rd.expected), rd.pc.done, rd.pc.buffer;
      assert b[d := q.payload[d]][..d + 1] == b[..d] + [q.payload[d]];
      assert q.payload[..d + 1] == q.payload[..d] + [q.payload[d]];
    } else if a.LoadFirst? && rd.pc.Top? {
      LoadFirstKeeps(g, s, rd);
    }
  }

  lemma {:induction false} StepKeeps(g: Ring, s: State, a: Action)
    requires Inv(g, s)
    ensures Inv(g, Apply(g, s, a))
  {
    if a.Begin? && s.producer.Between? && |a.trade| == g.words {
      BeginKeeps(g, s, a.trade);
    } else if a.CopyIn? && s.producer.Copying? && s.producer.done < g.words {
      CopyInKeeps(g, s);
    } else if a.Finish? && s.producer.Copying? && s.producer.done == g.words {
      FinishKeeps(g, s);
    } else if !(a.Begin? || a.CopyIn? || a.Finish?) && a.r < |s.readers| {
      ReaderKeeps(g, s, s.readers[a.r], a);
      ReadersFrame(g, s, Apply(g, s, a), a.r);
    }
  }

  /** Readers disturb neither the slots nor each other. */
  lemma {:induction false} ReadersFrame(g: Ring, s: State, s': State, k: nat)
    requires Inv(g, s) && k < |s.readers| && s' == s.(readers := s'.readers) && |s'.readers| == |s.readers|
    requires forall r :: 0 <= r < |s.readers| && r != k ==> s'.readers[r] == s.readers[r]
    requires ReaderShaped(g, s'.readers[k]) && ReaderOk(g, s, s'.readers[k])
    ensures Inv(g, s')
  {
    forall i | 0 <= i < g.size
      ensures SlotOk(g, s', i)
    {
      assert SlotOk(g, s, i);
    }
    forall r | 0 <= r < |s'.readers|
      ensures ReaderOk(g, s', s'.readers[r])
    {
      ReaderFrame(g, s, s', s'.readers[r]);
    }
  }

  // ----- Whole runs ---------------------------------------------------------------------------------------

  ghost predicate Init(g: Ring, s: State) {
    && Shaped(g, s) && s.expected == 1 && s.producer.Between? && |s.published| == 0
    && (forall i :: 0 <= i < g.size ==> s.slots[i].seqno == 0)
    && (forall r :: 0 <= r < |s.readers| ==>
       s.readers[r].expected == 1 && s.readers[r].pc.Polling? && |s.readers[r].log| == 0)
  }

  /** `s` is reached from `s0` by some interleaving of the producer and the readers. */
  ghost predicate Reaches(g: Ring, s0: State, acts: seq<Action>, s: State)
    decreases |acts|
  {
    if acts == [] then s == s0
    else Shaped(g, s0) && Reaches(g, Apply(g, s0, acts[0]), acts[1..], s)
  }

  lemma {:induction false} ReachesKeeps(g: Ring, s0: State, acts: seq<Action>, s: State)
    requires Inv(g, s0) && Reaches(g, s0, acts, s)
    ensures Inv(g, s)
    decreases |acts|
  {
    if acts != [] {
      StepKeeps(g, s0, acts[0]);
      ReachesKeeps(g, Apply(g, s0, acts[0]), acts[1..], s);
    }
  }

  lemma {:induction false} InitInv(g: Ring, s: State)
    requires Init(g, s)
    ensures Inv(g, s)
  {
    forall i | 0 <= i < g.size
      ensures SlotOk(g, s, i)
    {
    }
  }

  lemma {:induction false} ReachedReceipt(g: Ring, s0: State, acts: seq<Action>, s: State, r: nat, n: nat)
    requires Init(g, s0) && Reaches(g, s0, acts, s) && r < |s.readers| && n < |s.readers[r].log|
    ensures g.Valid() && s.readers[r].log[n].expected == n + 1 && Honest(g, s, s.readers[r].log[n])
  {
    InitInv(g, s0);
    ReachesKeeps(g, s0, acts, s);
    assert ReaderOk(g, s, s.readers[r]);
  }

  /**
   In every interleaving, what any reader, lapped or not, takes away on an even number is one whole
   published trade, a whole number of laps from the one it asked for.
   */
  lemma {:induction false} NoTornReads(g: Ring, s0: State, acts: seq<Action>, s: State, r: nat, n: nat)
    requires Init(g, s0) && Reaches(g, s0, acts, s) && r < |s.readers| && n < |s.readers[r].log|
    requires s.readers[r].log[n].seqno % 2 == 0
    ensures var buffer := s.readers[r].log[n].buffer;
            exists m :: 0 <= m < |s.published| && buffer == s.published[m] && m % g.size == n % g.size
  {
    ReachedReceipt(g, s0, acts, s, r, n);
    var m := s.readers[r].log[n].seqno / 2 - 2;
    assert s.readers[r].log[n].buffer == s.published[m] && m % g.size == n % g.size;
  }

  /**
   In every interleaving the n-th read of a reader that was not lapped, with n below `2 * size - 2`, is
   exactly the n-th published trade, unless the call found in its uninitialised `seq2` the very number
   the slot carries while that trade is being written, and left on it.
   */
  lemma {:induction false} ReadsInOrder(g: Ring, s0: State, acts: seq<Action>, s: State, r: nat, n: nat)
    requires Init(g, s0) && Reaches(g, s0, acts, s) && r < |s.readers| && n < |s.readers[r].log|
    requires !s.readers[r].log[n].lapped && n + 3 < 2 * g.size
    ensures var c := s.readers[r].log[n];
            (n < |s.published| && c.buffer == s.published[n]) || c.seqno == c.junk == 2 * (n + 1) + 1
  {
    ReachedReceipt(g, s0, acts, s, r, n);
  }

  /**
   any_new_trade compares a doubled number with an undoubled one.  Below `2 * size - 2` it is exact:
   it answers yes just when the expected trade has been begun.
   */
  lemma {:induction false} PollExact(g: Ring, s: State, expected: nat)
    requires Inv(g, s) && 1 <= expected && expected + 2 < 2 * g.size
    ensures SlotAt(g, s, expected).seqno >= expected <==> Begun(s) >= expected
  {
    var i := Index(g, expected);
    var n := LastOn(g, i, Begun(s));
    assert SlotOk(g, s, i);
    LastIsHere(g, i, Begun(s));
    if Begun(s) >= expected {
      LastIsLatest(g, i, Begun(s), expected);
    } else if n > 0 {
      ModDistinct(n - 1, if expected < n + g.size then expected - 1 else n - 1, g.size);
    }
  }

  lemma {:induction false} LastIsLatest(g: Ring, i: nat, begun: nat, m: nat)
    requires g.Valid() && i < g.size && 1 <= m <= begun && (m - 1) % g.size == i
    ensures LastOn(g, i, begun) >= m
    decreases begun
  {
    LastNext(g, i, begun - 1);
    if m < begun {
      LastIsLatest(g, i, begun - 1, m);
    }
  }

  /**
   From `2 * size - 2` on it is not: with everything before the expected trade published and nothing begun,
   it already answers yes.
   */
  lemma {:induction false} PollFalseAlarm(g: Ring, s: State, expected: nat)
    requires Inv(g, s) && s.producer.Between? && |s.published| + 1 == expected && expected + 2 >= 2 * g.size
    requires expected > g.size
    ensures Begun(s) < expected && SlotAt(g, s, expected).seqno >= expected
  {
    var i := Index(g, expected);
    assert SlotOk(g, s, i);
    var m, q := expected - g.size, (expected - 1) / g.size;
    assert expected - 1 == g.size * q + i;
    NextMultiple(g.size, q - 1);
    ModUnique(m - 1, g.size, q - 1, i);
    LastIsLatest(g, i, Begun(s), m);
  }

  /** The ring index and the sequence number advance together. */
  lemma {:induction false} IndexFollows(g: Ring, expected: nat)
    requires g.Valid() && IsPowerOfTwo(g.size) && expected >= 1
    ensures And(Index(g, expected) + 1, g.size - 1) == Index(g, expected + 1)
  {
    MaskPower(Index(g, expected) + 1, g.size);
    ModNext(expected - 1, g.size);
  }
}
