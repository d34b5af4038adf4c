/** The retransmitter: reassembles records from the TCP stream and answers requests from a cache. */
module Retransmit {
  import opened Wire
  import Bits

  const SIZE: nat := 0x10_0000
  const BUFFER: nat := 94208

  datatype Option<T> = None | Some(value: T)

  // ----- The cache as a function of the log ---------------------------------------------------

  /** What slot `i` holds: the last message stored whose number falls on it, or what was there at the start. */
  function Slot(cold: seq<Message>, log: seq<Message>, i: nat): Message
    requires i < |cold|
  {
    if |log| == 0 then cold[i]
    else if log[|log| - 1].seqNum % SIZE == i then log[|log| - 1]
    else Slot(cold, log[..|log| - 1], i)
  }

  /** No slot starts out with a number that belongs there. */
  predicate NoAccidents(cold: seq<Message>) {
    |cold| == SIZE && forall i :: 0 <= i < |cold| ==> cold[i].seqNum % SIZE != i
  }

  predicate Consecutive(log: seq<Message>, first: nat) {
    forall j :: 0 <= j < |log| ==> log[j].seqNum == first + j
  }

  predicate Stored(log: seq<Message>, first: nat, s: nat) {
    first <= s < first + |log|
  }

  /** No stored number falls on slot `i`. */
  ghost predicate Untouched(log: seq<Message>, i: nat) {
    forall j :: 0 <= j < |log| ==> log[j].seqNum % SIZE != i
  }

  lemma {:induction false} StoredTouches(log: seq<Message>, first: nat, s: nat)
    requires Consecutive(log, first) && Stored(log, first, s)
    ensures !Untouched(log, s % SIZE)
  {
    assert log[s - first].seqNum % SIZE == s % SIZE;
  }

  lemma {:induction false} UntouchedSlot(cold: seq<Message>, log: seq<Message>, i: nat)
    requires |cold| == SIZE && i < SIZE && Untouched(log, i)
    ensures Slot(cold, log, i) == cold[i]
    decreases |log|
  {
    if |log| > 0 {
      assert log[|log| - 1].seqNum % SIZE != i;
      UntouchedSlot(cold, log[..|log| - 1], i);
    }
  }

  /** A slot that was written holds the last number stored on it. */
  lemma {:induction false} TouchedSlot(cold: seq<Message>, log: seq<Message>, first: nat, s: nat)
    requires |cold| == SIZE && Consecutive(log, first) && !Untouched(log, s % SIZE)
    ensures var m := Slot(cold, log, s % SIZE);
            && (m.seqNum == s <==> Stored(log, first, s) && !Stored(log, first, s + SIZE))
            && (m.seqNum == s ==> m == log[s - first])
            && first <= m.seqNum && m.seqNum % SIZE == s % SIZE && (Stored(log, first, s) ==> m.seqNum >= s)
    decreases |log|
  {
    var init, last := log[..|log| - 1], log[|log| - 1];
    if last.seqNum % SIZE == s % SIZE {
      if last.seqNum > s {
        assert last.seqNum >= s + SIZE;
      }
    } else {
      assert !Untouched(init, s % SIZE);
      TouchedSlot(cold, init, first, s);
    }
  }

  /**
   For any cold cache: the slot of `s` holds `s` exactly when `s` was stored and the number one lap later
   was not, or when the slot carried `s` from the start and nothing was stored on it.
   */
  lemma {:induction false} SlotIsExact(cold: seq<Message>, log: seq<Message>, first: nat, s: nat)
    requires |cold| == SIZE && Consecutive(log, first)
    ensures var m := Slot(cold, log, s % SIZE);
            && (m.seqNum == s <==>
                  || (Stored(log, first, s) && !Stored(log, first, s + SIZE))
                  || (cold[s % SIZE].seqNum == s && Untouched(log, s % SIZE)))
            && (m.seqNum == s ==> m == if Stored(log, first, s) then log[s - first] else cold[s % SIZE])
  {
    if Stored(log, first, s) {
      StoredTouches(log, first, s);
    }
    if Untouched(log, s % SIZE) {
      UntouchedSlot(cold, log, s % SIZE);
    } else {
      TouchedSlot(cold, log, first, s);
    }
  }

  lemma {:induction false} MaskIsRemainder(x: nat)
    ensures Bits.And(x, SIZE - 1) == x % SIZE
  {
    assert Bits.IsPowerOfTwo(1024);
    assert Bits.IsPowerOfTwo(SIZE);
    Bits.MaskPower(x, SIZE);
  }

  // ----- Reassembly -----------------------------------------------------------------------------

  lemma {:induction false} ParseRecord(bs: seq<Byte>, block: seq<Byte>)
    requires |bs| % RECORD == 0 && |block| == RECORD
    ensures Parse(bs + block) == Parse(bs) + [Decode(block)]
  {
    var all := bs + block;
    var n := |all| / RECORD;
    assert RECORD * (n - 1) == |bs|;
    assert all[..|bs|] == bs && all[|bs|..RECORD * n] == block;
  }

  /** An incomplete record at the end changes nothing. */
  lemma {:induction false} ParseRest(bs: seq<Byte>, rest: seq<Byte>)
    requires |bs| % RECORD == 0 && |rest| < RECORD
    ensures Parse(bs + rest) == Parse(bs)
  {
    if |bs| > 0 {
      var all := bs + rest;
      var n := |bs| / RECORD;
      assert |all| / RECORD == n;
      assert all[..RECORD * (n - 1)] == bs[..RECORD * (n - 1)];
      assert all[RECORD * (n - 1)..RECORD * n] == bs[RECORD * (n - 1)..RECORD * n];
    }
  }

  /** `log` was parsed from `whole`, which with `rest` behind it makes up what was received. */
  ghost predicate Split(received: seq<Byte>, whole: seq<Byte>, rest: seq<Byte>, log: seq<Message>) {
    received == whole + rest && |whole| % RECORD == 0 && log == Parse(whole)
  }

  lemma {:induction false} SplitNext(received: seq<Byte>, whole: seq<Byte>, rest: seq<Byte>, log: seq<Message>)
    requires Split(received, whole, rest, log) && |rest| >= RECORD
    ensures Split(received, whole + rest[..RECORD], rest[RECORD..], log + [Decode(rest[..RECORD])])
  {
    ParseRecord(whole, rest[..RECORD]);
    assert rest == rest[..RECORD] + rest[RECORD..];
    assert whole + rest[..RECORD] + rest[RECORD..] == whole + (rest[..RECORD] + rest[RECORD..]);
  }

  ghost predicate Cached(cache: seq<Message>, cold: seq<Message>, log: seq<Message>) {
    |cache| == |cold| == SIZE && forall i :: 0 <= i < SIZE ==> cache[i] == Slot(cold, log, i)
  }

  lemma {:induction false} CacheNext(cache: seq<Message>, cold: seq<Message>, log: seq<Message>, m: Message)
    requires Cached(cache, cold, log)
    ensures Bits.And(m.seqNum, SIZE - 1) < SIZE && Cached(cache[Bits.And(m.seqNum, SIZE - 1) := m], cold, log + [m])
  {
    MaskIsRemainder(m.seqNum);
    assert (log + [m])[..|log|] == log;
  }

  class Retransmitter {
    const buffer: array<Byte>
    var buffered: nat
    const cache: array<Message>
    /** Bookkeeping: the cache at the start, all bytes received, and the messages stored from them. */
    ghost const cold: seq<Message>
    ghost var received: seq<Byte>
    ghost var log: seq<Message>

    /** Everything received has been stored, except the beginning of a record. */
    ghost predicate Valid()
      reads this, buffer, cache
    {
      && buffer.Length == BUFFER && buffered < RECORD && cache.Length == SIZE
      && Cached(cache[..], cold, log)
      && log == Parse(received) && buffered <= |received| && buffer[..buffered] == received[|received| - buffered..]
      && |received| == RECORD * |log| + buffered
    }

    constructor (cold: seq<Message>)
      requires |cold| == SIZE
      ensures Valid() && fresh(buffer) && fresh(cache) && this.cold == cold && received == [] && log == []
    {
      buffer := new Byte[BUFFER](_ => 0);
      cache := new Message[SIZE](i requires 0 <= i < SIZE => cold[i]);
      buffered, this.cold, received, log := 0, cold, [], [];
    }

    /** One successful receive: stores every complete record and keeps the rest for the next one. */
    method Receive(chunk: seq<Byte>)
      requires Valid() && buffered + |chunk| <= BUFFER
      modifies this`buffered, this`received, this`log, buffer, cache
      ensures Valid() && received == old(received) + chunk
    {
      ghost var whole, rest := received[..|received| - buffered], received[|received| - buffered..];
      ParseRest(whole, rest);
      assert received == whole + rest;
      received := received + chunk;
      Append(chunk, rest);
      assert received == whole + (rest + chunk);
      var offset;
      offset, whole := StoreRecords(whole, rest + chunk);
      rest := buffer[offset..buffered];
      Shift(offset);
      ParseRest(whole, rest);
      assert received[|received| - buffered..] == rest;
    }

    /** The receive itself writes behind what is already there. */
    method Append(chunk: seq<Byte>, ghost rest: seq<Byte>)
      requires buffer.Length == BUFFER && buffered + |chunk| <= BUFFER && buffer[..buffered] == rest
      modifies this`buffered, buffer
      ensures buffered == old(buffered) + |chunk| && buffer[..buffered] == rest + chunk
    {
      forall i | 0 <= i < |chunk| {
        buffer[buffered + i] := chunk[i];
      }
      buffered := buffered + |chunk|;
    }

    /** The parsing loop: copies complete records into the cache, oldest first. */
    method StoreRecords(ghost whole: seq<Byte>, ghost rest: seq<Byte>) returns (offset: nat, ghost whole': seq<Byte>)
      requires buffer.Length == BUFFER && buffered <= BUFFER && cache.Length == SIZE && Cached(cache[..], cold, log)
      requires Split(received, whole, rest, log) && buffer[..buffered] == rest
      modifies this`log, cache
      ensures offset <= buffered < offset + RECORD && Cached(cache[..], cold, log)
      ensures Split(received, whole', buffer[offset..buffered], log)
    {
      offset, whole' := 0, whole;
      ghost var left := rest;
      while buffered - offset >= RECORD
        invariant 0 <= offset <= buffered && left == buffer[offset..buffered]
        invariant Cached(cache[..], cold, log) && Split(received, whole', left, log)
        decreases buffered - offset
      {
        var m := Decode(buffer[offset..offset + RECORD]);
        assert left[..RECORD] == buffer[offset..offset + RECORD] && left[RECORD..] == buffer[offset + RECORD..buffered];
        SplitNext(received, whole', left, log);
        CacheNext(cache[..], cold, log, m);
        cache[Bits.And(m.seqNum, SIZE - 1)] := m;
        whole', left, log := whole' + left[..RECORD], left[RECORD..], log + [m];
        offset := offset + RECORD;
      }
    }

    /** Moves an incomplete record to the front of the buffer. */
    method Shift(offset: nat)
      requires buffer.Length == BUFFER && offset <= buffered <= BUFFER
      modifies this`buffered, buffer
      ensures buffered == old(buffered) - offset && buffer[..buffered] == old(buffer[offset..buffered])
    {
      var leftover := buffered - offset;
      if leftover > 0 && offset > 0 {
        forall i | 0 <= i < leftover {
          buffer[i] := buffer[offset + i];
        }
      }
      buffered := leftover;
    }

    /**
     A request for number `s`.  With consecutively numbered messages it is answered exactly when `s` was
     stored and `s + SIZE` was not, and with message `s`; or, wrongly, when the cache started out with the
     number `s` on a slot on which nothing was stored.
     */
    method Request(s: nat, ghost first: nat) returns (r: Option<Message>)
      requires Valid()
      ensures r == var m := Slot(cold, log, s % SIZE); if m.seqNum == s then Some(m) else None
      ensures Consecutive(log, first) ==>
                && (r.Some? <==>
                      || (Stored(log, first, s) && !Stored(log, first, s + SIZE))
                      || (cold[s % SIZE].seqNum == s && Untouched(log, s % SIZE)))
                && (r.Some? ==> r.value == if Stored(log, first, s) then log[s - first] else cold[s % SIZE])
      ensures NoAccidents(cold) && Consecutive(log, first) ==>
                (r.Some? <==> Stored(log, first, s) && !Stored(log, first, s + SIZE))
    {
      MaskIsRemainder(s);
      if Consecutive(log, first) {
        SlotIsExact(cold, log, first, s);
      }
      var cached := cache[Bits.And(s, SIZE - 1)];
      return if cached.seqNum == s then Some(cached) else None;
    }
  }
}
