/**
 The retransmitter's two threads on one cache: one stores records word by word, the other compares the
 number of a slot with the request and then sends the slot word by word.  Nothing keeps them apart.  Words
 are copied in any order, every load and store of a word is one step, and the threads interleave arbitrarily
 (under sequential consistency).
 */
module Overlap {
  import opened Bits
  import Wire
  import Retransmit

  /** A record as the words that are copied one at a time; word `KEY` is its number. */
  type Payload = seq<int>

  const WORDS: nat := 8
  const KEY: nat := 4

  /** The size of the cache, the number of the first record, and what the slots hold at the start. */
  datatype Cache = Cache(size: nat, first: nat, cold: seq<Payload>) {
    ghost predicate Valid() {
      size >= 1 && |cold| == size && AllWide(cold)
    }
  }

  datatype Reader =
    | Waiting
    | Sending(number: nat, stored: nat, answer: Payload, unsent: set<nat>)  // the comparison held

  /** A request: its number, how many records were complete when it was compared and begun when it was done. */
  datatype Receipt = Receipt(number: nat, stored: nat, begun: nat, answered: bool, answer: Payload)

  datatype State = State(
    slots: seq<Payload>,
    log: seq<Payload>,     // records begun, oldest first
    unstored: set<nat>,    // words of the last one that are still to be copied
    reader: Reader,
    receipts: seq<Receipt>)

  datatype Action =
    | Begin(record: Payload)
    | Store(w: nat)
    | Compare(number: nat)
    | Send(w: nat)
    | Finish

  ghost predicate AllWide(ps: seq<Payload>) {
    forall i :: 0 <= i < |ps| ==> |ps[i]| == WORDS
  }

  const ALL: set<nat> := {0, 1, 2, 3, 4, 5, 6, 7}

  /** The slot of the n-th record, counting from 0. */
  function Place(c: Cache, n: nat): nat
    requires c.size >= 1
  {
    (c.first + n) % c.size
  }

  // ----- Steps ------------------------------------------------------------------------------------

  ghost predicate Shaped(c: Cache, s: State) {
    && c.Valid() && |s.slots| == c.size && AllWide(s.slots) && AllWide(s.log)
    && s.unstored <= ALL && (s.unstored != {} ==> |s.log| >= 1)
    && (s.reader.Sending? ==> |s.reader.answer| == WORDS && s.reader.unsent <= ALL)
  }

  /** How many records are complete. */
  function Complete(s: State): nat {
    if s.unstored != {} && |s.log| >= 1 then |s.log| - 1 else |s.log|
  }

  ghost function Step(c: Cache, s: State, a: Action): (s': State)
    requires Shaped(c, s)
    ensures Shaped(c, s')
  {
    match (a, s.reader)
    case (Begin(record), _) =>
      if s.unstored == {} && |record| == WORDS && record[KEY] == c.first + |s.log|
      then s.(log := s.log + [record], unstored := ALL)
      else s
    case (Store(w), _) =>
      if w in s.unstored then
        var n := |s.log| - 1;
        var i := Place(c, n);
        s.(slots := s.slots[i := s.slots[i][w := s.log[n][w]]], unstored := s.unstored - {w})
      else s
    case (Compare(number), Waiting) =>
      if s.slots[number % c.size][KEY] == number
      then s.(reader := Sending(number, Complete(s), seq(WORDS, _ => 0), ALL))
      else s.(receipts := s.receipts + [Receipt(number, Complete(s), |s.log|, false, [])])
    case (Send(w), Sending(number, stored, answer, unsent)) =>
      if w in unsent then
        s.(reader := Sending(number, stored, answer[w := s.slots[number % c.size][w]], unsent - {w}))
      else s
    case (Finish, Sending(number, stored, answer, unsent)) =>
      if unsent == {}
      then s.(reader := Waiting, receipts := s.receipts + [Receipt(number, stored, |s.log|, true, answer)])
      else s
    case _ => s
  }

  ghost function Run(c: Cache, s: State, acts: seq<Action>): (s': State)
    requires Shaped(c, s)
    ensures Shaped(c, s')
    decreases |acts|
  {
    if |acts| == 0 then s else Step(c, Run(c, s, acts[..|acts| - 1]), acts[|acts| - 1])
  }

  function Initial(c: Cache): State {
    State(c.cold, [], {}, Waiting, [])
  }

  // ----- What the slots hold ------------------------------------------------------------------------

  /** What slot `i` holds once the records of `log` are stored. */
  function SlotOf(c: Cache, log: seq<Payload>, i: nat): Payload
    requires c.size >= 1 && i < |c.cold|
  {
    if |log| == 0 then c.cold[i]
    else if Place(c, |log| - 1) == i then log[|log| - 1]
    else SlotOf(c, log[..|log| - 1], i)
  }

  lemma {:induction false} SlotOfWide(c: Cache, log: seq<Payload>, i: nat)
    requires c.Valid() && i < c.size && AllWide(log)
    ensures |SlotOf(c, log, i)| == WORDS
    decreases |log|
  {
    if |log| > 0 {
      SlotOfWide(c, log[..|log| - 1], i);
    }
  }

  /** A word of a slot is that of the last record begun there, or still that of the one before. */
  ghost predicate WordOk(c: Cache, slots: seq<Payload>, log: seq<Payload>, unstored: set<nat>, i: nat, w: nat)
    requires c.Valid() && |slots| == c.size && AllWide(slots) && (unstored != {} ==> |log| >= 1)
    requires i < c.size && w < WORDS
  {
    var n := |log|;
    var held := SlotOf(c, if w in unstored && Place(c, n - 1) == i then log[..n - 1] else log, i);
    |held| == WORDS && slots[i][w] == held[w]
  }

  lemma {:induction false} DistinctPlaces(c: Cache, m: nat, n: nat)
    requires c.size >= 1 && m < n < m + c.size
    ensures Place(c, m) != Place(c, n)
  {
    var a, b := c.first + m, c.first + n;
    if a % c.size == b % c.size {
      Distribute(c.size, b / c.size, a / c.size);
      Multiples(c.size, b / c.size - a / c.size);
    }
  }

  /** A record stays in its slot until the one that is a lap later. */
  lemma {:induction false} SlotOfLast(c: Cache, log: seq<Payload>, n: nat)
    requires c.Valid() && n < |log| <= n + c.size
    ensures SlotOf(c, log, Place(c, n)) == log[n]
    decreases |log|
  {
    if n < |log| - 1 {
      DistinctPlaces(c, n, |log| - 1);
      SlotOfLast(c, log[..|log| - 1], n);
    }
  }

  /** `x` is word `w` of a record that fell on slot `i`, or was there at the start. */
  ghost predicate FromSlot(c: Cache, log: seq<Payload>, i: nat, w: nat, x: int)
    requires c.Valid() && i < c.size && w < WORDS && AllWide(log)
  {
    x == c.cold[i][w] || exists n :: 0 <= n < |log| && log[n][w] == x && Place(c, n) == i
  }

  lemma {:induction false} SlotOfFrom(c: Cache, log: seq<Payload>, i: nat, w: nat)
    requires c.Valid() && i < c.size && w < WORDS && AllWide(log)
    ensures |SlotOf(c, log, i)| == WORDS && FromSlot(c, log, i, w, SlotOf(c, log, i)[w])
    decreases |log|
  {
    if |log| > 0 {
      var init := log[..|log| - 1];
      SlotOfFrom(c, init, i, w);
      if Place(c, |log| - 1) != i {
        FromSlotMore(c, init, log[|log| - 1], i, w, SlotOf(c, init, i)[w]);
        assert init + [log[|log| - 1]] == log;
      }
    }
  }

  lemma {:induction false} FromSlotMore(c: Cache, log: seq<Payload>, record: Payload, i: nat, w: nat, x: int)
    requires c.Valid() && i < c.size && w < WORDS && AllWide(log) && |record| == WORDS && FromSlot(c, log, i, w, x)
    ensures FromSlot(c, log + [record], i, w, x)
  {
    if x != c.cold[i][w] {
      var n :| 0 <= n < |log| && log[n][w] == x && Place(c, n) == i;
      assert (log + [record])[n][w] == x;
    }
  }

  // ----- The invariant ------------------------------------------------------------------------------

  /** No record on the slot of `number` was incomplete when it was compared, or begun before it was answered. */
  ghost predicate Quiet(c: Cache, number: nat, stored: nat, begun: nat)
    requires c.size >= 1
  {
    forall n :: stored <= n < begun ==> Place(c, n) != number % c.size
  }

  lemma {:induction false} QuietSlot(c: Cache, log: seq<Payload>, number: nat, stored: nat)
    requires c.Valid() && stored <= |log| && Quiet(c, number, stored, |log|)
    ensures SlotOf(c, log, number % c.size) == SlotOf(c, log[..stored], number % c.size)
    decreases |log|
  {
    if stored == |log| {
      assert log[..stored] == log;
    } else {
      var init := log[..|log| - 1];
      assert Place(c, |log| - 1) != number % c.size;
      QuietSlot(c, init, number, stored);
      assert init[..stored] == log[..stored];
    }
  }

  /** A word sent belongs to the slot; if nothing disturbs it, to what the slot held when it was compared. */
  ghost predicate SentOk(c: Cache, log: seq<Payload>, number: nat, stored: nat, begun: nat, w: nat, x: int)
    requires c.Valid() && w < WORDS && AllWide(log) && stored <= |log|
  {
    var i := number % c.size;
    && FromSlot(c, log, i, w, x)
    && (Quiet(c, number, stored, begun) ==>
          var held := SlotOf(c, log[..stored], i);
          |held| == WORDS && x == held[w])
  }

  ghost predicate ReaderOk(c: Cache, s: State)
    requires Shaped(c, s)
  {
    s.reader.Sending? ==>
      var r := s.reader;
      && r.stored <= Complete(s)
      && (Quiet(c, r.number, r.stored, |s.log|) ==>
            var held := SlotOf(c, s.log[..r.stored], r.number % c.size);
            |held| == WORDS && held[KEY] == r.number)
      && forall w :: 0 <= w < WORDS && w !in r.unsent ==> SentOk(c, s.log, r.number, r.stored, |s.log|, w, r.answer[w])
  }

  ghost predicate ReceiptOk(c: Cache, log: seq<Payload>, r: Receipt)
    requires c.Valid() && AllWide(log)
  {
    && r.stored <= r.begun <= |log|
    && (Quiet(c, r.number, r.stored, r.begun) ==>
          var held := SlotOf(c, log[..r.stored], r.number % c.size);
          |held| == WORDS && (r.answered <==> held[KEY] == r.number))
    && (r.answered ==>
          && |r.answer| == WORDS
          && forall w :: 0 <= w < WORDS ==> SentOk(c, log, r.number, r.stored, r.begun, w, r.answer[w]))
  }

  ghost predicate Numbered(c: Cache, log: seq<Payload>) {
    AllWide(log) && forall n :: 0 <= n < |log| ==> log[n][KEY] == c.first + n
  }

  ghost predicate MemoryOk(c: Cache, s: State)
    requires Shaped(c, s)
  {
    forall i, w :: 0 <= i < c.size && 0 <= w < WORDS ==> WordOk(c, s.slots, s.log, s.unstored, i, w)
  }

  ghost predicate Inv(c: Cache, s: State) {
    && Shaped(c, s) && Numbered(c, s.log) && MemoryOk(c, s) && ReaderOk(c, s)
    && forall k :: 0 <= k < |s.receipts| ==> ReceiptOk(c, s.log, s.receipts[k])
  }

  /** As long as a slot is quiet, it holds what it held. */
  lemma {:induction false} QuietWord(c: Cache, s: State, number: nat, stored: nat, w: nat)
    requires Shaped(c, s) && MemoryOk(c, s) && stored <= Complete(s) && Quiet(c, number, stored, |s.log|) && w < WORDS
    ensures var i := number % c.size;
            var held := SlotOf(c, s.log[..stored], i);
            |held| == WORDS && s.slots[i][w] == held[w]
  {
    assert WordOk(c, s.slots, s.log, s.unstored, number % c.size, w);
    QuietSlot(c, s.log, number, stored);
  }

  lemma {:induction false} WordIsSent(c: Cache, s: State, number: nat, stored: nat, w: nat)
    requires Shaped(c, s) && MemoryOk(c, s) && stored <= Complete(s) && w < WORDS
    ensures SentOk(c, s.log, number, stored, |s.log|, w, s.slots[number % c.size][w])
  {
    var i, n := number % c.size, |s.log|;
    assert WordOk(c, s.slots, s.log, s.unstored, i, w);
    SlotOfFrom(c, s.log, i, w);
    if w in s.unstored && Place(c, n - 1) == i {
      SlotOfFrom(c, s.log[..n - 1], i, w);
      FromSlotMore(c, s.log[..n - 1], s.log[n - 1], i, w, s.slots[i][w]);
      assert s.log[..n - 1] + [s.log[n - 1]] == s.log;
    }
    if Quiet(c, number, stored, n) {
      QuietWord(c, s, number, stored, w);
    }
  }

  // ----- Every step keeps it ------------------------------------------------------------------------

  lemma {:induction false} SentMore(c: Cache, log: seq<Payload>, record: Payload, number: nat, stored: nat, begun: nat,
                                    begun': nat, w: nat, x: int)
    requires c.Valid() && w < WORDS && AllWide(log) && |record| == WORDS && stored <= |log| && begun <= begun'
    requires SentOk(c, log, number, stored, begun, w, x)
    ensures SentOk(c, log + [record], number, stored, begun', w, x)
  {
    FromSlotMore(c, log, record, number % c.size, w, x);
    assert (log + [record])[..stored] == log[..stored];
  }

  lemma {:induction false} ReceiptMore(c: Cache, log: seq<Payload>, record: Payload, r: Receipt)
    requires c.Valid() && AllWide(log) && |record| == WORDS && ReceiptOk(c, log, r)
    ensures ReceiptOk(c, log + [record], r)
  {
    assert (log + [record])[..r.stored] == log[..r.stored];
    if r.answered {
      forall w | 0 <= w < WORDS
        ensures SentOk(c, log + [record], r.number, r.stored, r.begun, w, r.answer[w])
      {
        SentMore(c, log, record, r.number, r.stored, r.begun, r.begun, w, r.answer[w]);
      }
    }
  }

  lemma {:induction false} BeginKeeps(c: Cache, s: State, record: Payload)
    requires Inv(c, s)
    ensures Inv(c, Step(c, s, Begin(record)))
  {
    var s' := Step(c, s, Begin(record));
    if s' != s {
      var r := s.reader;
      assert s'.log[..|s.log|] == s.log;
      forall i, w | 0 <= i < c.size && 0 <= w < WORDS
        ensures WordOk(c, s'.slots, s'.log, s'.unstored, i, w)
      {
        assert WordOk(c, s.slots, s.log, s.unstored, i, w);
      }
      if r.Sending? {
        assert s'.log[..r.stored] == s.log[..r.stored];
        forall w | 0 <= w < WORDS && w !in r.unsent
          ensures SentOk(c, s'.log, r.number, r.stored, |s'.log|, w, r.answer[w])
        {
          SentMore(c, s.log, record, r.number, r.stored, |s.log|, |s'.log|, w, r.answer[w]);
        }
      }
      forall k | 0 <= k < |s.receipts|
        ensures ReceiptOk(c, s'.log, s.receipts[k])
      {
        ReceiptMore(c, s.log, record, s.receipts[k]);
      }
    }
  }

  lemma {:induction false} StoreKeeps(c: Cache, s: State, w: nat)
    requires Inv(c, s)
    ensures Inv(c, Step(c, s, Store(w)))
  {
    var s' := Step(c, s, Store(w));
    forall i, v | 0 <= i < c.size && 0 <= v < WORDS
      ensures WordOk(c, s'.slots, s'.log, s'.unstored, i, v)
    {
      assert WordOk(c, s.slots, s.log, s.unstored, i, v);
      SlotOfWide(c, s.log, i);
    }
  }

  lemma {:induction false} CompareKeeps(c: Cache, s: State, number: nat)
    requires Inv(c, s)
    ensures Inv(c, Step(c, s, Compare(number)))
  {
    if Quiet(c, number, Complete(s), |s.log|) {
      QuietWord(c, s, number, Complete(s), KEY);
    }
  }

  lemma {:induction false} SendKeeps(c: Cache, s: State, w: nat)
    requires Inv(c, s)
    ensures Inv(c, Step(c, s, Send(w)))
  {
    if s.reader.Sending? && w in s.reader.unsent {
      WordIsSent(c, s, s.reader.number, s.reader.stored, w);
    }
  }

  lemma {:induction false} StepKeeps(c: Cache, s: State, a: Action)
    requires Inv(c, s)
    ensures Inv(c, Step(c, s, a))
  {
    match a
    case Begin(record) => BeginKeeps(c, s, record);
    case Store(w) => StoreKeeps(c, s, w);
    case Compare(number) => CompareKeeps(c, s, number);
    case Send(w) => SendKeeps(c, s, w);
    case Finish =>
  }

  lemma {:induction false} RunKeeps(c: Cache, acts: seq<Action>)
    requires c.Valid()
    ensures Inv(c, Run(c, Initial(c), acts))
    decreases |acts|
  {
    if |acts| > 0 {
      RunKeeps(c, acts[..|acts| - 1]);
      StepKeeps(c, Run(c, Initial(c), acts[..|acts| - 1]), acts[|acts| - 1]);
    }
  }

  /**
   In every interleaving: a request during which nothing is stored on its slot is answered exactly if the
   slot held its number when it was compared, and with exactly the record it held.  Whatever is answered
   otherwise consists of words of records that fell on the slot.
   */
  lemma {:induction false} QuietIsAtomic(c: Cache, acts: seq<Action>, k: nat)
    requires c.Valid() && k < |Run(c, Initial(c), acts).receipts|
    ensures var s := Run(c, Initial(c), acts);
            var r := s.receipts[k];
            && r.stored <= r.begun <= |s.log|
            && (Quiet(c, r.number, r.stored, r.begun) ==>
                  var held := SlotOf(c, s.log[..r.stored], r.number % c.size);
                  && |held| == WORDS
                  && (r.answered <==> held[KEY] == r.number) && (r.answered ==> r.answer == held))
            && (r.answered ==>
                  && |r.answer| == WORDS
                  && forall w :: 0 <= w < WORDS ==> FromSlot(c, s.log, r.number % c.size, w, r.answer[w]))
  {
    RunKeeps(c, acts);
    var s := Run(c, Initial(c), acts);
    var r := s.receipts[k];
    assert ReceiptOk(c, s.log, r);
    if r.answered {
      assert forall w :: 0 <= w < WORDS ==> SentOk(c, s.log, r.number, r.stored, r.begun, w, r.answer[w]);
    }
  }

  /**
   So a request for a record that was complete when it was compared is answered with that very record, if
   the one a lap later is not begun before the answer is out.
   */
  lemma {:induction false} AnswerIsWhole(c: Cache, acts: seq<Action>, k: nat)
    requires c.Valid() && k < |Run(c, Initial(c), acts).receipts|
    ensures var s := Run(c, Initial(c), acts);
            var r := s.receipts[k];
            c.first <= r.number < c.first + r.stored && r.begun <= r.number - c.first + c.size ==>
              r.stored <= |s.log| && r.answered && r.answer == s.log[r.number - c.first]
  {
    RunKeeps(c, acts);
    QuietIsAtomic(c, acts, k);
    var s := Run(c, Initial(c), acts);
    var r := s.receipts[k];
    if c.first <= r.number < c.first + r.stored && r.begun <= r.number - c.first + c.size {
      var n := r.number - c.first;
      forall m | r.stored <= m < r.begun
        ensures Place(c, m) != r.number % c.size
      {
        DistinctPlaces(c, n, m);
      }
      SlotOfLast(c, s.log[..r.stored], n);
    }
  }
  // ----- The same as the atomic request ---------------------------------------------------------------

  /** `p` is message `m` in memory, whatever its padding. */
  ghost predicate Image(p: Payload, m: Wire.Message) {
    && |p| == WORDS
    && p[..KEY + 1] == [m.tradeId, m.timestamp, m.price, m.symbol + 0x1_0000_0000 * m.quantity, m.seqNum]
  }

  ghost predicate Images(ps: seq<Payload>, ms: seq<Wire.Message>) {
    |ps| == |ms| && forall i :: 0 <= i < |ps| ==> Image(ps[i], ms[i])
  }

  lemma {:induction false} SlotImage(c: Cache, log: seq<Payload>, cold: seq<Wire.Message>, ms: seq<Wire.Message>,
                                     i: nat)
    requires c.Valid() && c.size == Retransmit.SIZE && i < c.size && Numbered(c, log)
    requires Images(c.cold, cold) && Images(log, ms)
    ensures Image(SlotOf(c, log, i), Retransmit.Slot(cold, ms, i))
    decreases |log|
  {
    if |log| > 0 {
      var n := |log| - 1;
      assert Image(log[n], ms[n]) && log[n][..KEY + 1][KEY] == ms[n].seqNum;
      SlotImage(c, log[..n], cold, ms[..n], i);
    }
  }

  /** A request during which nothing is stored on its slot is answered as `Retransmitter.Request` answers it. */
  lemma {:induction false} QuietIsRequest(c: Cache, acts: seq<Action>, k: nat, cold: seq<Wire.Message>,
                                          ms: seq<Wire.Message>)
    requires c.Valid() && c.size == Retransmit.SIZE && k < |Run(c, Initial(c), acts).receipts|
    requires Images(c.cold, cold) && Images(Run(c, Initial(c), acts).log, ms)
    ensures var r := Run(c, Initial(c), acts).receipts[k];
            && r.stored <= |ms|
            && (Quiet(c, r.number, r.stored, r.begun) ==>
                  var m := Retransmit.Slot(cold, ms[..r.stored], r.number % Retransmit.SIZE);
                  (r.answered <==> m.seqNum == r.number) && (r.answered ==> Image(r.answer, m)))
  {
    RunKeeps(c, acts);
    QuietIsAtomic(c, acts, k);
    var s := Run(c, Initial(c), acts);
    var r := s.receipts[k];
    var held, m := SlotOf(c, s.log[..r.stored], r.number % c.size),
                   Retransmit.Slot(cold, ms[..r.stored], r.number % c.size);
    SlotImage(c, s.log[..r.stored], cold, ms[..r.stored], r.number % c.size);
    assert held[..KEY + 1][KEY] == m.seqNum;
  }

  // ----- When something is stored meanwhile -------------------------------------------------------------

  // A switch, always true: the definition of `Reached` is consulted only where it is asserted.
  ghost predicate UnlockRun(k: int) {
    true
  }

  /** `acts` lead from the start to `s`. */
  ghost predicate Reached(c: Cache, acts: seq<Action>, s: State) {
    Shaped(c, s) && forall k {:trigger UnlockRun(k)} :: UnlockRun(k) ==> Run(c, Initial(c), acts) == s
  }

  /** `s` differs from `base` only in the slots, in the records begun and in what the reader is doing. */
  ghost predicate Scene(base: State, s: State, log: seq<Payload>, unstored: set<nat>, reader: Reader) {
    s.log == log && s.unstored == unstored && s.reader == reader && s.receipts == base.receipts
  }

  lemma {:induction false} Then(c: Cache, acts: seq<Action>, s: State, a: Action)
    returns (acts': seq<Action>, s': State)
    requires Reached(c, acts, s)
    ensures s' == Step(c, s, a) && Reached(c, acts', s')
  {
    assert UnlockRun(0);
    acts', s' := acts + [a], Step(c, s, a);
    assert acts'[..|acts|] == acts;
  }

  lemma {:induction false} StoreRest(c: Cache, acts: seq<Action>, s: State) returns (acts': seq<Action>, s': State)
    requires Reached(c, acts, s)
    ensures Reached(c, acts', s') && Scene(s, s', s.log, {}, s.reader)
    decreases s.unstored
  {
    acts', s' := acts, s;
    if s.unstored != {} {
      var w :| w in s.unstored;
      acts', s' := Then(c, acts, s, Store(w));
      acts', s' := StoreRest(c, acts', s');
    }
  }

  lemma {:induction false} StoreOne(c: Cache, acts: seq<Action>, s: State, record: Payload)
    returns (acts': seq<Action>, s': State)
    requires Reached(c, acts, s) && s.unstored == {} && |record| == WORDS && record[KEY] == c.first + |s.log|
    ensures Reached(c, acts', s') && Scene(s, s', s.log + [record], {}, s.reader)
  {
    acts', s' := Then(c, acts, s, Begin(record));
    acts', s' := StoreRest(c, acts', s');
  }

  lemma {:induction false} StoreMany(c: Cache, log: seq<Payload>) returns (acts: seq<Action>, s: State)
    requires c.Valid() && Numbered(c, log)
    ensures Reached(c, acts, s) && Scene(Initial(c), s, log, {}, Waiting)
    decreases |log|
  {
    acts, s := [], Initial(c);
    if |log| > 0 {
      var init := log[..|log| - 1];
      acts, s := StoreMany(c, init);
      acts, s := StoreOne(c, acts, s, log[|log| - 1]);
      assert init + [log[|log| - 1]] == log;
    }
  }

  function From(k: nat): set<nat> {
    set w | w in ALL && k <= w
  }

  function Splice(a: Payload, b: Payload, j: nat, k: nat): Payload
    requires j <= k <= |a| == |b|
  {
    a[..j] + b[j..k] + a[k..]
  }

  lemma {:induction false} SpliceOneMore(a: Payload, b: Payload, j: nat, k: nat)
    requires j < k <= |a| == |b|
    ensures Splice(a[j := b[j]], b, j + 1, k) == Splice(a, b, j, k)
  {
  }

  /** Sends the words from `j` up to `k`, which are those of `content`. */
  lemma {:induction false} SendSome(c: Cache, acts: seq<Action>, s: State, j: nat, k: nat, content: Payload)
    returns (acts': seq<Action>, s': State)
    requires Reached(c, acts, s) && s.reader.Sending? && s.reader.unsent == From(j) && j <= k <= WORDS == |content|
    requires forall w :: j <= w < k ==> s.slots[s.reader.number % c.size][w] == content[w]
    ensures Reached(c, acts', s') && s'.slots == s.slots
    ensures var answer := Splice(s.reader.answer, content, j, k);
            Scene(s, s', s.log, s.unstored, s.reader.(answer := answer, unsent := From(k)))
    decreases k - j
  {
    acts', s' := acts, s;
    if j == k {
      assert Splice(s.reader.answer, content, j, k) == s.reader.answer;
    } else {
      assert j in ALL && From(j) - {j} == From(j + 1);
      SpliceOneMore(s.reader.answer, content, j, k);
      acts', s' := Then(c, acts, s, Send(j));
      acts', s' := SendSome(c, acts', s', j + 1, k, content);
    }
  }

  /** Between records every slot holds its last one. */
  lemma {:induction false} SlotIsHeld(c: Cache, acts: seq<Action>, s: State, i: nat)
    requires Reached(c, acts, s) && i < c.size && s.unstored == {}
    ensures s.slots[i] == SlotOf(c, s.log, i)
  {
    assert UnlockRun(0);
    RunKeeps(c, acts);
    SlotOfWide(c, s.log, i);
    forall w | 0 <= w < WORDS
      ensures s.slots[i][w] == SlotOf(c, s.log, i)[w]
    {
      assert WordOk(c, s.slots, s.log, s.unstored, i, w);
    }
  }

  /** A request whose comparison holds, and the first `k` words of its answer. */
  lemma {:induction false} SendFirst(c: Cache, acts: seq<Action>, s: State, number: nat, k: nat, content: Payload)
    returns (acts': seq<Action>, s': State)
    requires Reached(c, acts, s) && s.reader.Waiting? && k <= WORDS
    requires s.slots[number % c.size] == content && |content| == WORDS && content[KEY] == number
    ensures Reached(c, acts', s') && s'.slots == s.slots && s'.reader.Sending? && |s'.reader.answer| == WORDS
    ensures s'.reader.answer[..k] == content[..k]
    ensures Scene(s, s', s.log, s.unstored, Sending(number, Complete(s), s'.reader.answer, From(k)))
  {
    assert ALL == From(0);
    acts', s' := Then(c, acts, s, Compare(number));
    acts', s' := SendSome(c, acts', s', 0, k, content);
  }

  /** The rest of the answer. */
  lemma {:induction false} SendLast(c: Cache, acts: seq<Action>, s: State, k: nat, content: Payload)
    returns (acts': seq<Action>, s': State)
    requires Reached(c, acts, s) && s.reader.Sending? && s.reader.unsent == From(k) && k <= WORDS == |content|
    requires s.slots[s.reader.number % c.size] == content
    ensures Reached(c, acts', s')
    ensures var r := s.reader;
            s'.receipts == s.receipts + [Receipt(r.number, r.stored, |s.log|, true, r.answer[..k] + content[k..])]
  {
    acts', s' := SendSome(c, acts, s, k, WORDS, content);
    assert From(WORDS) == {};
    assert Splice(s.reader.answer, content, k, WORDS) == s.reader.answer[..k] + content[k..];
    acts', s' := Then(c, acts', s', Finish);
  }

  lemma {:induction false} NextLap(c: Cache, n: nat)
    requires c.size >= 1
    ensures Place(c, n + c.size) == Place(c, n)
  {
    var x := c.first + n;
    NextMultiple(c.size, x / c.size);
    ModUnique(x + c.size, c.size, x / c.size + 1, x % c.size);
  }

  /**
   The condition is needed.  For every cache, every record and every k: if the record a lap later is stored
   after k words have been sent, the answer is k words of one and the rest of the other.
   */
  lemma {:induction false} MixedAnswer(c: Cache, log: seq<Payload>, n: nat, k: nat) returns (acts: seq<Action>)
    requires c.Valid() && Numbered(c, log) && |log| == n + c.size + 1 && k <= WORDS
    ensures Run(c, Initial(c), acts).receipts
         == [Receipt(c.first + n, n + c.size, n + c.size + 1, true, log[n][..k] + log[n + c.size][k..])]
  {
    var before, last, i := log[..n + c.size], log[n + c.size], Place(c, n);
    var s;
    acts, s := StoreMany(c, before);
    SlotIsHeld(c, acts, s, i);
    SlotOfLast(c, before, n);
    acts, s := SendFirst(c, acts, s, c.first + n, k, log[n]);
    acts, s := StoreOne(c, acts, s, last);
    assert before + [last] == log;
    SlotIsHeld(c, acts, s, i);
    NextLap(c, n);
    acts, s := SendLast(c, acts, s, k, last);
    assert UnlockRun(0);
  }

  /** A record of which only the number is stored. */
  lemma {:induction false} StoreNumber(c: Cache, acts: seq<Action>, s: State, record: Payload)
    returns (acts': seq<Action>, s': State)
    requires Reached(c, acts, s) && s.unstored == {} && |record| == WORDS && record[KEY] == c.first + |s.log|
    ensures Reached(c, acts', s') && Scene(s, s', s.log + [record], ALL - {KEY}, s.reader) && Complete(s') == |s.log|
    ensures var i := Place(c, |s.log|); s'.slots[i] == s.slots[i][KEY := record[KEY]]
  {
    acts', s' := Then(c, acts, s, Begin(record));
    acts', s' := Then(c, acts', s', Store(KEY));
    assert 0 in s'.unstored;
  }

  /**
   So is its other half: if the number of a record is stored first, and the request comes before the rest is,
   the answer is what the slot held before, under the new number.
   */
  lemma {:induction false} HurriedAnswer(c: Cache, log: seq<Payload>, n: nat) returns (acts: seq<Action>)
    requires c.Valid() && Numbered(c, log) && |log| == n + 1
    ensures var held := SlotOf(c, log[..n], Place(c, n));
            && |held| == WORDS
            && Run(c, Initial(c), acts).receipts == [Receipt(c.first + n, n, n + 1, true, held[KEY := c.first + n])]
  {
    var before, i := log[..n], Place(c, n);
    SlotOfWide(c, before, i);
    var content := SlotOf(c, before, i)[KEY := c.first + n];
    var s;
    acts, s := StoreMany(c, before);
    SlotIsHeld(c, acts, s, i);
    acts, s := StoreNumber(c, acts, s, log[n]);
    acts, s := SendFirst(c, acts, s, c.first + n, 0, content);
    assert s.reader.answer[..0] + content[0..] == content;
    acts, s := SendLast(c, acts, s, 0, content);
    assert UnlockRun(0);
  }
}
