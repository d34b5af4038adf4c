/**
 The reads that the guarantees of get_trade leave out, shown on every ring: an exit on an odd number with
 something that was never published, and an exit on an even number with a trade already read.
 */
module OddExits {
  import opened Bits
  import opened Seqlock

  // ----- Runs, one step at a time ---------------------------------------------------------------

  lemma {:induction false} ReachesMore(g: Ring, s0: State, acts: seq<Action>, s: State, a: Action)
    requires Reaches(g, s0, acts, s) && Shaped(g, s)
    ensures Reaches(g, s0, acts + [a], Apply(g, s, a))
    decreases |acts|
  {
    if acts == [] {
      assert ([] + [a])[1..] == [];
    } else {
      assert (acts + [a])[1..] == acts[1..] + [a];
      ReachesMore(g, Apply(g, s0, acts[0]), acts[1..], s, a);
    }
  }

  // The invariant is carried along below without its definition, which is consulted only where
  // `UnlockInv` is asserted.
  ghost predicate UnlockInv(k: int) {
    true
  }

  /** `acts` lead from `s0` to `s`, where the invariant holds. */
  ghost predicate Run(g: Ring, s0: State, acts: seq<Action>, s: State) {
    && Shaped(g, s) && Reaches(g, s0, acts, s)
    && forall k {:trigger UnlockInv(k)} :: UnlockInv(k) ==> Inv(g, s)
  }

  lemma {:induction false} Start(g: Ring, s: State)
    requires Inv(g, s)
    ensures Run(g, s, [], s)
  {
  }

  /** The run so far and one more step. */
  lemma {:induction false} Then(g: Ring, s0: State, acts: seq<Action>, s: State, a: Action)
    returns (acts': seq<Action>, s': State)
    requires Run(g, s0, acts, s)
    ensures s' == Apply(g, s, a) && Run(g, s0, acts', s')
  {
    assert UnlockInv(0);
    acts', s' := acts + [a], Apply(g, s, a);
    ReachesMore(g, s0, acts, s, a);
    StepKeeps(g, s, a);
  }

  /** `s` differs from `base` only in the producer, in what reader `r` is doing, and in the slot it looks at. */
  ghost predicate Scene(g: Ring, base: State, s: State, r: nat, producer: Producer, pc: ReaderPc, slot: Slot) {
    && Shaped(g, base) && Shaped(g, s) && r < |base.readers|
    && s.published == base.published && s.expected == base.expected && s.producer == producer
    && |s.readers| == |base.readers| && s.readers[r] == base.readers[r].(pc := pc)
    && SlotAt(g, s, base.readers[r].expected) == slot
  }

  /** Reader `r` copies all the words it still lacks. */
  lemma {:induction false} CopyRest(g: Ring, s0: State, base: State, acts: seq<Action>, s: State, r: nat, slot: Slot)
    returns (acts': seq<Action>, s': State)
    requires Run(g, s0, acts, s) && r < |s.readers| && s.readers[r].pc.Reading?
    requires Scene(g, base, s, r, s.producer, s.readers[r].pc, slot)
    ensures Run(g, s0, acts', s')
    ensures var pc := s.readers[r].pc;
            && |pc.buffer| == |slot.payload| == g.words && pc.done <= g.words
            && Scene(g, base, s', r, s.producer,
               pc.(buffer := pc.buffer[..pc.done] + slot.payload[pc.done..], done := g.words), slot)
    decreases g.words - s.readers[r].pc.done
  {
    var pc := s.readers[r].pc;
    assert ReaderShaped(g, s.readers[r]);
    if pc.done == g.words {
      acts', s' := acts, s;
      assert pc.buffer[..pc.done] + slot.payload[pc.done..] == pc.buffer;
    } else {
      var acts1, s1 := Then(g, s0, acts, s, CopyOut(r));
      var pc1 := pc.(buffer := pc.buffer[pc.done := slot.payload[pc.done]], done := pc.done + 1);
      assert Scene(g, base, s1, r, s.producer, pc1, slot);
      acts', s' := CopyRest(g, s0, base, acts1, s1, r, slot);
      assert pc1.buffer[..pc1.done] + slot.payload[pc1.done..] == pc.buffer[..pc.done] + slot.payload[pc.done..];
    }
  }

  // ----- The number found in an uninitialised variable --------------------------------------------

  /**
   A reader that is up to date, on whatever number: if its `seq2` happens to hold the number of the trade
   being begun, the call returns at once with a buffer it never wrote to.
   */
  lemma {:induction false} JunkRun(g: Ring, s: State, r: nat, trade: Payload, junk: Payload)
    returns (acts: seq<Action>, s': State)
    requires Run(g, s, [], s) && s.producer.Between? && r < |s.readers| && s.readers[r].pc.Polling?
    requires s.readers[r].expected == s.expected
    requires |trade| == |junk| == g.words
    ensures Run(g, s, acts, s') && s'.published == s.published && |s'.readers| == |s.readers|
    ensures var e := s.expected; s'.readers[r].log == s.readers[r].log + [Receipt(e, 2 * e + 1, junk, false, 2 * e + 1)]
  {
    assert s.expected == |s.published| + 1 by {
      assert UnlockInv(0);
    }
    var e, q := s.expected, SlotAt(g, s, s.expected);
    var marked := q.(seqno := 2 * e + 1);
    acts, s' := Then(g, s, [], s, Begin(trade));
    assert Scene(g, s, s', r, Copying(trade, 0), Polling, marked);
    acts, s' := Then(g, s, acts, s', Poll(r));
    assert Scene(g, s, s', r, Copying(trade, 0), Available(2 * e + 1), marked);
    acts, s' := Then(g, s, acts, s', Call(r, junk, 2 * e + 1));
    assert Scene(g, s, s', r, Copying(trade, 0), Top(junk, 2 * e + 1, 2 * e + 1, 2 * e + 1), marked);
    acts, s' := Then(g, s, acts, s', LoadFirst(r));
  }

  // ----- The same odd number twice ----------------------------------------------------------------

  /** First half: the reader has copied one word of the old trade when the producer overwrites two. */
  lemma {:induction false} Overtaken(g: Ring, s: State, r: nat, trade: Payload)
    returns (acts: seq<Action>, s': State, pc: ReaderPc)
    requires Run(g, s, [], s) && s.producer.Between? && r < |s.readers| && s.readers[r].pc.Polling?
    requires Index(g, s.expected) == Index(g, s.readers[r].expected) && |trade| == g.words >= 2
    requires var q := SlotAt(g, s, s.expected); q.seqno % 2 == 0 && q.seqno >= s.readers[r].expected
    ensures Run(g, s, acts, s') && pc.Reading? && |pc.buffer| == g.words && pc.done == 1
    ensures pc.seq1 == SlotAt(g, s, s.expected).seqno && pc.junk == 0
    ensures var prior := SlotAt(g, s, s.expected).payload;
            && |prior| == g.words && pc.buffer[0] == prior[0]
            && Scene(g, s, s', r, Copying(trade, 2), pc, Slot(2 * s.expected + 1, prior[0 := trade[0]][1 := trade[1]]))
  {
    var q := SlotAt(g, s, s.expected);
    var e, n, prior := s.expected, q.seqno, q.payload;
    acts, s' := Then(g, s, [], s, Poll(r));
    acts, s' := Then(g, s, acts, s', Call(r, prior, 0));
    assert Scene(g, s, s', r, Between, Top(prior, 0, n, 0), q);
    acts, s' := Then(g, s, acts, s', LoadFirst(r));
    acts, s' := Then(g, s, acts, s', CopyOut(r));
    pc := Reading(prior[0 := prior[0]], n, 1, n, 0);
    assert Scene(g, s, s', r, Between, pc, q);
    acts, s' := Then(g, s, acts, s', Begin(trade));
    assert Scene(g, s, s', r, Copying(trade, 0), pc, Slot(2 * e + 1, prior));
    acts, s' := Then(g, s, acts, s', CopyIn);
    acts, s' := Then(g, s, acts, s', CopyIn);
  }

  /**
   Whenever the producer is about to write the slot a reader copies from, the call can return the old
   trade with a word of the new one in it: it sees the odd number at its end, goes round, loads the same
   odd number again, and leaves.
   */
  lemma {:induction false} TornRun(g: Ring, s: State, r: nat, trade: Payload) returns (acts: seq<Action>, s': State)
    requires Run(g, s, [], s) && s.producer.Between? && r < |s.readers| && s.readers[r].pc.Polling?
    requires Index(g, s.expected) == Index(g, s.readers[r].expected) && |trade| == g.words >= 2
    requires var q := SlotAt(g, s, s.expected); q.seqno % 2 == 0 && q.seqno >= s.readers[r].expected
    ensures Run(g, s, acts, s') && s'.published == s.published && |s'.readers| == |s.readers|
    ensures |s'.readers[r].log| == |s.readers[r].log| + 1 && |SlotAt(g, s, s.expected).payload| == g.words
    ensures var c := s'.readers[r].log[|s.readers[r].log|];
            && c.seqno == 2 * s.expected + 1 && c.buffer == SlotAt(g, s, s.expected).payload[1 := trade[1]]
            && c.junk == 0 && c.lapped == (|s.published| + 1 >= s.readers[r].expected + g.size)
  {
    var prior := SlotAt(g, s, s.expected).payload;
    var pc;
    acts, s', pc := Overtaken(g, s, r, trade);
    var slot := Slot(2 * s.expected + 1, prior[0 := trade[0]][1 := trade[1]]);
    acts, s' := CopyRest(g, s, s, acts, s', r, slot);
    var torn := pc.buffer[..1] + slot.payload[1..];
    assert torn == prior[1 := trade[1]];
    acts, s' := Then(g, s, acts, s', LoadSecond(r));
    assert Scene(g, s, s', r, Copying(trade, 2), Top(torn, slot.seqno, pc.seen, pc.junk), slot);
    acts, s' := Then(g, s, acts, s', LoadFirst(r));
  }

  // ----- Reached from the start, on every ring ------------------------------------------------------

  /** The producer publishes the rest of a trade it has begun, while no reader moves. */
  lemma {:induction false} FinishTrade(g: Ring, s0: State, acts: seq<Action>, s: State)
    returns (acts': seq<Action>, s': State)
    requires Run(g, s0, acts, s) && s.producer.Copying?
    ensures Run(g, s0, acts', s') && s'.producer.Between? && s'.readers == s.readers
    ensures s'.published == s.published + [s.producer.trade]
    decreases g.words - s.producer.done
  {
    if s.producer.done < g.words {
      acts', s' := Then(g, s0, acts, s, CopyIn);
      acts', s' := FinishTrade(g, s0, acts', s');
    } else {
      acts', s' := Then(g, s0, acts, s, Finish);
    }
  }

  lemma {:induction false} PublishMany(g: Ring, s0: State, acts: seq<Action>, s: State, trade: Payload, n: nat)
    returns (acts': seq<Action>, s': State)
    requires Run(g, s0, acts, s) && s.producer.Between? && |trade| == g.words
    ensures Run(g, s0, acts', s') && s'.producer.Between? && s'.readers == s.readers
    ensures |s'.published| == |s.published| + n && forall i :: |s.published| <= i < |s'.published| ==>
            s'.published[i] == trade
    decreases n
  {
    acts', s' := acts, s;
    if n > 0 {
      acts', s' := PublishMany(g, s0, acts, s, trade, n - 1);
      acts', s' := Then(g, s0, acts', s', Begin(trade));
      acts', s' := FinishTrade(g, s0, acts', s');
    }
  }

  /**
   On every ring, from the start: a reader that is lapped in the middle of a copy can return a mixture of two
   trades.
   */
  lemma {:induction false} LappedReaderTears(g: Ring, s0: State, r: nat, a: Payload, b: Payload)
    returns (acts: seq<Action>, s: State)
    requires Init(g, s0) && r < |s0.readers| && |a| == |b| == g.words >= 2 && a[1] != b[1]
    ensures Reaches(g, s0, acts, s) && r < |s.readers| && |s.readers[r].log| == 1
    ensures s.readers[r].log[0].buffer == a[1 := b[1]] && s.readers[r].log[0].buffer !in s.published
  {
    InitInv(g, s0);
    Start(g, s0);
    var s1;
    acts, s1 := PublishMany(g, s0, [], s0, a, g.size);
    assert UnlockInv(0);
    FirstSlot(g, s1);
    Start(g, s1);
    var more;
    more, s := TornRun(g, s1, r, b);
    ReachesConcat(g, s0, acts, s1, more, s);
    acts := acts + more;
    assert forall x :: x in s1.published ==> x == a;
  }

  /** After one lap the producer is back at the slot that holds the first trade. */
  lemma {:induction false} FirstSlot(g: Ring, s: State)
    requires Inv(g, s) && s.producer.Between? && |s.published| == g.size
    ensures Index(g, s.expected) == Index(g, 1) == 0 && SlotAt(g, s, 1) == Slot(4, s.published[0])
  {
    assert SlotOk(g, s, 0);
    ModUnique(0, g.size, 0, 0);
    ModUnique(g.size, g.size, 1, 0);
    ModUnique(g.size - 1, g.size, 0, g.size - 1);
  }

  /** The newest trade is on its slot, under its even number. */
  lemma {:induction false} NewestSlot(g: Ring, s: State)
    requires Inv(g, s) && s.producer.Between? && |s.published| >= 1
    ensures var n := |s.published|; SlotAt(g, s, n) == Slot(2 * n + 2, s.published[n - 1])
  {
    var n := |s.published|;
    assert SlotOk(g, s, Index(g, n));
    LastNext(g, Index(g, n), n - 1);
  }

  /** Reader `r` has made `n` reads, as many as there are trades, and nothing is going on. */
  ghost predicate UpToDate(g: Ring, s: State, r: nat, n: nat) {
    && s.producer.Between? && |s.published| == n && s.expected == n + 1
    && r < |s.readers| && s.readers[r].pc.Polling? && s.readers[r].expected == n + 1 && |s.readers[r].log| == n
  }

  /** A reader that finds an even number it accepts, and is not disturbed, takes away what is on the slot. */
  lemma {:induction false} ReadSlot(g: Ring, s0: State, acts: seq<Action>, s: State, r: nat, q: Slot)
    returns (acts': seq<Action>, s': State)
    requires Run(g, s0, acts, s) && s.producer.Between? && r < |s.readers| && s.readers[r].pc.Polling?
    requires SlotAt(g, s, s.readers[r].expected) == q && q.seqno % 2 == 0 && q.seqno >= s.readers[r].expected
    ensures Run(g, s0, acts', s') && s'.producer.Between? && s'.published == s.published && s'.expected == s.expected
    ensures |s'.readers| == |s.readers| && s'.readers[r] == Leave(g, s, s.readers[r], q.payload, q.seqno, 0)
  {
    acts', s' := Then(g, s0, acts, s, Poll(r));
    acts', s' := Then(g, s0, acts', s', Call(r, q.payload, 0));
    assert Scene(g, s, s', r, Between, Top(q.payload, 0, q.seqno, 0), q);
    acts', s' := Then(g, s0, acts', s', LoadFirst(r));
    assert Scene(g, s, s', r, Between, Reading(q.payload, q.seqno, 0, q.seqno, 0), q);
    acts', s' := CopyRest(g, s0, s, acts', s', r, q);
    assert q.payload[..0] + q.payload[0..] == q.payload;
    acts', s' := Then(g, s0, acts', s', LoadSecond(r));
  }

  /** One trade is published and read. */
  lemma {:induction false} ReadOne(g: Ring, s0: State, acts: seq<Action>, s: State, r: nat, n: nat, trade: Payload)
    returns (acts': seq<Action>, s': State)
    requires Run(g, s0, acts, s) && UpToDate(g, s, r, n) && |trade| == g.words
    ensures Run(g, s0, acts', s') && UpToDate(g, s', r, n + 1) && s'.published == s.published + [trade]
  {
    acts', s' := Then(g, s0, acts, s, Begin(trade));
    acts', s' := FinishTrade(g, s0, acts', s');
    var q := Slot(2 * n + 4, trade);
    assert SlotAt(g, s', n + 1) == q && s'.expected == n + 2 by {
      assert UnlockInv(0);
      NewestSlot(g, s');
    }
    acts', s' := ReadSlot(g, s0, acts', s', r, q);
  }

  lemma {:induction false} ReadMany(g: Ring, s0: State, r: nat, n: nat, trade: Payload)
    returns (acts: seq<Action>, s: State)
    requires Init(g, s0) && r < |s0.readers| && |trade| == g.words
    ensures Run(g, s0, acts, s) && UpToDate(g, s, r, n) && forall x :: x in s.published ==> x == trade
    decreases n
  {
    if n == 0 {
      acts, s := [], s0;
      InitInv(g, s0);
      Start(g, s0);
    } else {
      acts, s := ReadMany(g, s0, r, n - 1, trade);
      acts, s := ReadOne(g, s0, acts, s, r, n - 1, trade);
    }
  }

  /**
   The exception in `ReadsInOrder` is real, on every ring and for every n: a reader that is up to date and
   finds the odd number in `seq2` returns a buffer it never wrote to, before the n-th trade exists.
   */
  lemma {:induction false} JunkExit(g: Ring, s0: State, r: nat, n: nat, trade: Payload, junk: Payload)
    returns (acts: seq<Action>, s: State)
    requires Init(g, s0) && r < |s0.readers| && |trade| == |junk| == g.words
    ensures Reaches(g, s0, acts, s) && r < |s.readers| && |s.readers[r].log| == n + 1 && |s.published| == n
    ensures s.readers[r].log[n] == Receipt(n + 1, 2 * (n + 1) + 1, junk, false, 2 * (n + 1) + 1)
  {
    var s1, more;
    acts, s1 := ReadMany(g, s0, r, n, trade);
    assert UnlockInv(0);
    more, s := JunkRun(g, s1, r, trade, junk);
    ReachesConcat(g, s0, acts, s1, more, s);
    acts := acts + more;
  }

  /**
   So is its bound: from n = 2 * size - 3 on (once round the ring), a reader that is not lapped and whose
   `seq2` is 0 can return a mixture of two trades, because the poll lets it in too early.
   */
  lemma {:induction false} TornExit(g: Ring, s0: State, r: nat, n: nat, a: Payload, b: Payload)
    returns (acts: seq<Action>, s: State)
    requires Init(g, s0) && r < |s0.readers| && |a| == |b| == g.words >= 2 && a[1] != b[1]
    requires n >= g.size && n + 3 >= 2 * g.size
    ensures Reaches(g, s0, acts, s) && r < |s.readers| && |s.readers[r].log| == n + 1
    ensures !s.readers[r].log[n].lapped && s.readers[r].log[n].junk == 0
    ensures s.readers[r].log[n].buffer == a[1 := b[1]] && s.readers[r].log[n].buffer !in s.published
  {
    var s1, more;
    acts, s1 := ReadMany(g, s0, r, n, a);
    TornStart(g, s0, acts, s1, r, n, a);
    more, s := TornRun(g, s1, r, b);
    ReachesConcat(g, s0, acts, s1, more, s);
    acts := acts + more;
  }

  /**
   Past the bound not even an exit on an even number helps: with n trades published, the reader that has read
   them all can read the one a lap earlier once more.
   */
  lemma {:induction false} StaleExit(g: Ring, s0: State, r: nat, n: nat, a: Payload)
    returns (acts: seq<Action>, s: State)
    requires Init(g, s0) && r < |s0.readers| && |a| == g.words && n >= g.size && n + 3 >= 2 * g.size
    ensures Reaches(g, s0, acts, s) && r < |s.readers| && |s.readers[r].log| == n + 1 && |s.published| == n
    ensures !s.readers[r].log[n].lapped && s.readers[r].log[n].junk == 0 && s.readers[r].log[n].seqno % 2 == 0
    ensures s.readers[r].log[n].buffer == a && a in s.published
  {
    acts, s := ReadMany(g, s0, r, n, a);
    TornStart(g, s0, acts, s, r, n, a);
    assert s.published[0] in s.published;
    acts, s := ReadSlot(g, s0, acts, s, r, SlotAt(g, s, n + 1));
  }

  /** The slot of the trade to come still holds the one a lap earlier, and its even number passes the poll. */
  lemma {:induction false} TornStart(g: Ring, s0: State, acts: seq<Action>, s: State, r: nat, n: nat, a: Payload)
    requires Run(g, s0, acts, s) && UpToDate(g, s, r, n) && (forall x :: x in s.published ==> x == a)
    requires n >= g.size && n + 3 >= 2 * g.size
    ensures Run(g, s, [], s)
    ensures var q := SlotAt(g, s, n + 1); q.seqno % 2 == 0 && q.seqno >= n + 1 && q.payload == a
  {
    assert UnlockInv(0);
    PollFalseAlarm(g, s, n + 1);
    var i := Index(g, n + 1);
    assert SlotOk(g, s, i);
    var k := LastOn(g, i, n);
    assert k > 0;
    assert s.slots[i].payload == s.published[k - 1] && s.published[k - 1] in s.published;
  }

  lemma {:induction false} ReachesConcat(g: Ring, s0: State, acts: seq<Action>, s: State, more: seq<Action>, s': State)
    requires Reaches(g, s0, acts, s) && Reaches(g, s, more, s')
    ensures Reaches(g, s0, acts + more, s')
    decreases |acts|
  {
    if acts == [] {
      assert acts + more == more;
    } else {
      assert (acts + more)[1..] == acts[1..] + more;
      ReachesConcat(g, Apply(g, s0, acts[0]), acts[1..], s, more, s');
    }
  }
}
