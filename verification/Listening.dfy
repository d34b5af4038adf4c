/** A listener on the multicast: finds the gaps in the sequence numbers and asks for what is missing. */
module Listening {
  import opened Wire

  // ----- What the loop requests, as a function of the numbers seen -------------------------------

  /** The numbers strictly between `last` and `n`. */
  function Missing(last: nat, n: nat): (r: seq<nat>)
    ensures |r| == if n > last + 1 then n - last - 1 else 0
    ensures forall i :: 0 <= i < |r| ==> r[i] == last + 1 + i
  {
    if n > last + 1 then Missing(last, n - 1) + [n - 1] else []
  }

  function LastOf(seen: seq<nat>): nat {
    if |seen| == 0 then 0 else seen[|seen| - 1]
  }

  function GapsOf(seen: seq<nat>): seq<nat> {
    if |seen| == 0 then []
    else GapsOf(seen[..|seen| - 1]) + Missing(LastOf(seen[..|seen| - 1]), seen[|seen| - 1])
  }

  ghost predicate Rising(s: seq<nat>) {
    forall i, j :: 0 <= i < j < |s| ==> s[i] < s[j]
  }

  ghost predicate Distinct(s: seq<nat>) {
    forall i, j :: 0 <= i < j < |s| ==> s[i] != s[j]
  }

  /** Seen and requested numbers are disjoint, together cover 1 to `last`, and none is requested twice. */
  ghost predicate Covered(requests: seq<nat>, seen: seq<nat>, last: nat) {
    && Distinct(requests)
    && (forall n :: n in requests ==> 1 <= n < last && n !in seen)
    && (forall n :: n in seen ==> n <= last)
    && (forall n :: 1 <= n <= last ==> n in requests || n in seen)
  }

  lemma {:induction false} RisingConcat(a: seq<nat>, b: seq<nat>, pivot: int)
    requires Rising(a) && Rising(b)
    requires (forall i :: 0 <= i < |a| ==> a[i] <= pivot) && forall i :: 0 <= i < |b| ==> pivot < b[i]
    ensures Rising(a + b)
  {
  }

  lemma {:induction false} DistinctConcat(a: seq<nat>, b: seq<nat>, pivot: int)
    requires Distinct(a) && Distinct(b)
    requires (forall i :: 0 <= i < |a| ==> a[i] <= pivot) && forall i :: 0 <= i < |b| ==> pivot < b[i]
    ensures Distinct(a + b)
  {
  }

  lemma {:induction false} CoveredNext(requests: seq<nat>, seen: seq<nat>, n: nat)
    requires Covered(requests, seen, LastOf(seen)) && Rising(seen + [n])
    ensures Covered(requests + Missing(LastOf(seen), n), seen + [n], n)
  {
    var last := LastOf(seen);
    var gap := Missing(last, n);
    assert (seen + [n])[|seen|] == n;
    assert |seen| > 0 ==> (seen + [n])[|seen| - 1] == last;
    assert n > last || (n == 0 && last == 0);
    forall k | 1 <= k <= n
      ensures k in requests + gap || k in seen + [n]
    {
      if last < k < n {
        assert gap[k - last - 1] == k;
      }
    }
    assert forall k :: k in gap ==> last < k < n;
    assert forall i :: 0 <= i < |requests| ==> requests[i] in requests;
    DistinctConcat(requests, gap, last);
  }

  /** Without reordering every number up to the last is received or requested, once; number 0 is never requested. */
  lemma {:induction false} GapsAreExact(seen: seq<nat>)
    requires Rising(seen)
    ensures Covered(GapsOf(seen), seen, LastOf(seen))
  {
    if |seen| > 0 {
      var init, n := seen[..|seen| - 1], seen[|seen| - 1];
      GapsAreExact(init);
      assert init + [n] == seen;
      CoveredNext(GapsOf(init), init, n);
    }
  }

  // ----- Exactly when ----------------------------------------------------------------------------

  /** The highest number seen, 0 if none. */
  function TopOf(seen: seq<nat>): (t: nat)
    ensures forall n :: n in seen ==> n <= t
    ensures t > 0 ==> t in seen
  {
    if |seen| == 0 then 0
    else
      var n, t := seen[|seen| - 1], TopOf(seen[..|seen| - 1]);
      assert seen == seen[..|seen| - 1] + [n];
      if n > t then n else t
  }

  /**
   The next number does no harm: a late one was seen before (or is 0), and none is skipped while the listener
   is behind the top.
   */
  predicate NextOk(seen: seq<nat>, n: nat) {
    && (1 <= n <= TopOf(seen) ==> n in seen)
    && (n > LastOf(seen) + 1 ==> LastOf(seen) == TopOf(seen))
  }

  predicate Tame(seen: seq<nat>) {
    |seen| == 0 || (Tame(seen[..|seen| - 1]) && NextOk(seen[..|seen| - 1], seen[|seen| - 1]))
  }

  lemma {:induction false} MissingHas(last: nat, n: nat, k: nat)
    requires last < k < n
    ensures k in Missing(last, n)
  {
    assert Missing(last, n)[k - last - 1] == k;
  }

  /** What holds of any arrivals: requests lie between 1 and the top, and no number up to the top is forgotten. */
  lemma {:induction false} NoneForgotten(seen: seq<nat>)
    ensures forall n :: n in GapsOf(seen) ==> 1 <= n < TopOf(seen)
    ensures forall n :: 1 <= n <= TopOf(seen) ==> n in GapsOf(seen) || n in seen
  {
    if |seen| > 0 {
      var init, n := seen[..|seen| - 1], seen[|seen| - 1];
      NoneForgotten(init);
      assert seen == init + [n];
      var last := LastOf(init);
      assert last <= TopOf(init);
      forall k | 1 <= k <= TopOf(seen)
        ensures k in GapsOf(seen) || k in seen
      {
        if TopOf(init) < k < n {
          MissingHas(last, n, k);
        }
      }
    }
  }

  /** No number is requested twice, and none that is received. */
  ghost predicate NoRepeats(seen: seq<nat>) {
    Distinct(GapsOf(seen)) && forall n :: n in GapsOf(seen) ==> n !in seen
  }

  lemma {:induction false} DistinctOnce(a: seq<nat>, b: seq<nat>, k: nat)
    requires Distinct(a + b) && k in a
    ensures k !in b
  {
    var i :| 0 <= i < |a| && a[i] == k;
    forall j | 0 <= j < |b|
      ensures b[j] != k
    {
      assert (a + b)[i] != (a + b)[|a| + j];
    }
  }

  lemma {:induction false} PrefixKeeps(seen: seq<nat>)
    requires |seen| > 0 && NoRepeats(seen)
    ensures NoRepeats(seen[..|seen| - 1])
  {
    var init, n := seen[..|seen| - 1], seen[|seen| - 1];
    var gaps, all := GapsOf(init), GapsOf(seen);
    assert all == gaps + Missing(LastOf(init), n) && seen == init + [n];
    forall i, j | 0 <= i < j < |gaps|
      ensures gaps[i] != gaps[j]
    {
      assert all[i] != all[j];
    }
    forall k | k in gaps
      ensures k !in init
    {
      assert k in all && k !in seen;
    }
  }

  lemma {:induction false} NextIsOk(init: seq<nat>, n: nat)
    requires NoRepeats(init + [n])
    ensures NextOk(init, n)
  {
    var seen := init + [n];
    assert seen[..|init|] == init;
    NoneForgotten(init);
    var gaps, more := GapsOf(init), Missing(LastOf(init), n);
    assert GapsOf(seen) == gaps + more;
    forall k | k in gaps || k in more
      ensures k !in init && k != n
    {
      assert k in GapsOf(seen) && k !in seen;
    }
    forall k | k in gaps
      ensures k !in more
    {
      DistinctOnce(gaps, more, k);
    }
    if n > LastOf(init) + 1 {
      var k := LastOf(init) + 1;
      MissingHas(LastOf(init), n, k);
      assert k !in gaps && k !in init;
      assert |init| > 0 ==> init[|init| - 1] in init;
    }
  }

  lemma {:induction false} OkIsNext(init: seq<nat>, n: nat)
    requires NoRepeats(init) && NextOk(init, n)
    ensures NoRepeats(init + [n])
  {
    var seen := init + [n];
    assert seen[..|init|] == init;
    NoneForgotten(init);
    var gaps, more := GapsOf(init), Missing(LastOf(init), n);
    assert forall k :: k in more ==> LastOf(init) < k < n;
    assert forall i :: 0 <= i < |gaps| ==> gaps[i] in gaps;
    if |more| > 0 {
      DistinctConcat(gaps, more, LastOf(init));
    } else {
      assert gaps + more == gaps;
    }
  }

  lemma {:induction false} NoRepeatsExactlyIfTame(seen: seq<nat>)
    ensures NoRepeats(seen) <==> Tame(seen)
  {
    if |seen| > 0 {
      var init, n := seen[..|seen| - 1], seen[|seen| - 1];
      assert seen == init + [n];
      NoRepeatsExactlyIfTame(init);
      if NoRepeats(seen) {
        PrefixKeeps(seen);
        NextIsOk(init, n);
      }
      if Tame(seen) {
        OkIsNext(init, n);
      }
    }
  }

  /** Requests that repeat nothing are also made in rising order. */
  lemma {:induction false} RequestsRise(seen: seq<nat>)
    requires NoRepeats(seen)
    ensures Rising(GapsOf(seen))
  {
    if |seen| > 0 {
      var init, n := seen[..|seen| - 1], seen[|seen| - 1];
      assert seen == init + [n];
      PrefixKeeps(seen);
      RequestsRise(init);
      NextIsOk(init, n);
      NoneForgotten(init);
      var gaps, more := GapsOf(init), Missing(LastOf(init), n);
      assert forall i :: 0 <= i < |gaps| ==> gaps[i] in gaps;
      if |more| > 0 {
        RisingConcat(gaps, more, LastOf(init));
      } else {
        assert gaps + more == gaps;
      }
    }
  }

  /**
   Exactly when received and requested numbers are disjoint, cover 1 to the last and none is requested
   twice, for any arrivals whatever, lost, repeated or reordered: every number that comes late was seen
   before (or is 0), nothing is skipped before the top is reached again, and the last number is the top.
   */
  lemma {:induction false} CoveredExactlyIf(seen: seq<nat>)
    ensures Covered(GapsOf(seen), seen, LastOf(seen)) <==> Tame(seen) && LastOf(seen) == TopOf(seen)
  {
    NoneForgotten(seen);
    NoRepeatsExactlyIfTame(seen);
    assert |seen| > 0 ==> seen[|seen| - 1] in seen;
  }

  /** Distinct numbers are tame only if they rise, but for a 0 that comes last. */
  lemma {:induction false} TameRises(seen: seq<nat>)
    requires Distinct(seen) && Tame(seen)
    ensures Rising(seen) || (LastOf(seen) == 0 < TopOf(seen) && 0 in seen)
  {
    if |seen| > 0 {
      var init, n := seen[..|seen| - 1], seen[|seen| - 1];
      assert seen == init + [n];
      TameRises(init);
      assert n !in init;
      if n > TopOf(init) {
        assert forall i :: 0 <= i < |init| ==> init[i] in init;
        if Rising(init) {
          RisingConcat(init, [n], TopOf(init));
        }
      } else if |init| == 0 {
        assert Rising(seen);
      } else {
        assert n == 0;
      }
    }
  }

  /**
   Where no number arrives twice, the promise is kept exactly if they arrive in rising order: any
   number overtaken by a later one, 0 included, breaks it.
   */
  lemma {:induction false} ReorderingBreaksIt(seen: seq<nat>)
    requires Distinct(seen)
    ensures Covered(GapsOf(seen), seen, LastOf(seen)) <==> Rising(seen)
  {
    if Rising(seen) {
      GapsAreExact(seen);
    }
    if Covered(GapsOf(seen), seen, LastOf(seen)) {
      CoveredExactlyIf(seen);
      TameRises(seen);
    }
  }

  // ----- The listener -----------------------------------------------------------------------------

  function Numbers(ms: seq<Message>): (r: seq<nat>)
    ensures |r| == |ms| && forall i :: 0 <= i < |ms| ==> r[i] == ms[i].seqNum
  {
    if |ms| == 0 then [] else Numbers(ms[..|ms| - 1]) + [ms[|ms| - 1].seqNum]
  }

  /** The numbers in a list of packets, in order; bytes behind the last whole record of a packet are ignored. */
  function Heard(packets: seq<seq<Byte>>): seq<nat> {
    if |packets| == 0 then [] else Heard(packets[..|packets| - 1]) + Numbers(Parse(packets[|packets| - 1]))
  }

  /** The messages a packet's byte count makes room for are read off one at a time. */
  lemma {:induction false} ParseOneMore(packet: seq<Byte>, k: nat)
    requires RECORD * (k + 1) <= |packet|
    ensures Parse(packet[..RECORD * (k + 1)])
            == Parse(packet[..RECORD * k]) + [Decode(packet[RECORD * k..RECORD * (k + 1)])]
  {
    var front := packet[..RECORD * (k + 1)];
    assert |front| / RECORD == k + 1;
    assert front[..RECORD * k] == packet[..RECORD * k];
    assert front[RECORD * k..RECORD * (k + 1)] == packet[RECORD * k..RECORD * (k + 1)];
  }

  lemma {:induction false} ParseWhole(packet: seq<Byte>)
    ensures Parse(packet[..RECORD * (|packet| / RECORD)]) == Parse(packet)
  {
    var n := |packet| / RECORD;
    var front := packet[..RECORD * n];
    if n > 0 {
      assert |front| / RECORD == n;
      assert front[..RECORD * (n - 1)] == packet[..RECORD * (n - 1)];
      assert front[RECORD * (n - 1)..RECORD * n] == packet[RECORD * (n - 1)..RECORD * n];
    }
  }

  lemma {:induction false} HeardNext(packets: seq<seq<Byte>>, i: nat, before: seq<nat>)
    requires i < |packets|
    ensures before + Heard(packets[..i]) + Numbers(Parse(packets[i])) == before + Heard(packets[..i + 1])
  {
    assert packets[..i + 1][..i] == packets[..i];
  }

  class Listener {
    var lastSeq: nat
    /** Requests pushed so far, oldest first. */
    var requests: seq<nat>
    /** The numbers received so far, in the order of arrival. */
    ghost var seen: seq<nat>

    ghost predicate Valid()
      reads this
    {
      requests == GapsOf(seen) && lastSeq == LastOf(seen)
    }

    constructor ()
      ensures Valid() && seen == []
    {
      lastSeq, requests, seen := 0, [], [];
    }

    method See(n: nat)
      requires Valid()
      modifies this
      ensures Valid() && seen == old(seen) + [n]
    {
      ghost var gaps := requests;
      if n > lastSeq + 1 {
        var missing := lastSeq + 1;
        while missing < n
          invariant lastSeq + 1 <= missing <= n && lastSeq == old(lastSeq) && seen == old(seen)
          invariant requests == gaps + Missing(lastSeq, missing)
        {
          requests := requests + [missing];
          missing := missing + 1;
        }
      }
      assert (seen + [n])[..|seen|] == seen;
      lastSeq := n;
      seen := seen + [n];
    }

    /** The inner loop over one packet. */
    method Packet(packet: seq<Byte>)
      requires Valid()
      modifies this
      ensures Valid() && seen == old(seen) + Numbers(Parse(packet))
    {
      var count := |packet| / RECORD;
      ghost var done: seq<Message> := [];
      for k := 0 to count
        invariant Valid() && done == Parse(packet[..RECORD * k]) && seen == old(seen) + Numbers(done)
      {
        var m := Decode(packet[RECORD * k..RECORD * (k + 1)]);
        ParseOneMore(packet, k);
        See(m.seqNum);
        assert (done + [m])[..|done|] == done;
        done := done + [m];
      }
      ParseWhole(packet);
    }

    /** One batch of packets; nothing is forgotten between packets or between batches. */
    method Batch(packets: seq<seq<Byte>>)
      requires Valid()
      modifies this
      ensures Valid() && seen == old(seen) + Heard(packets)
    {
      ghost var before := seen;
      for i := 0 to |packets|
        invariant Valid() && seen == before + Heard(packets[..i])
      {
        HeardNext(packets, i, before);
        Packet(packets[i]);
      }
      assert packets[..|packets|] == packets;
    }
  }
}
