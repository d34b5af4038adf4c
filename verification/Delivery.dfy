/** Sender, lossy multicast, listener and retransmitter together. */
module Delivery {
  import opened Wire
  import opened Feed
  import opened Listening
  import Retransmit

  /** The packets that survive. */
  function Kept(packets: seq<seq<Byte>>, mask: seq<bool>): seq<seq<Byte>>
    requires |packets| == |mask|
  {
    if |packets| == 0 then []
    else Kept(packets[..|packets| - 1], mask[..|mask| - 1]) + if mask[|mask| - 1] then [packets[|packets| - 1]] else []
  }

  function Survivors(mask: seq<bool>): nat {
    if |mask| == 0 then 0 else Survivors(mask[..|mask| - 1]) + if mask[|mask| - 1] then 1 else 0
  }

  /** Exactly the packets marked survive, each behind the survivors before it. */
  lemma {:induction false} KeptIsExact(packets: seq<seq<Byte>>, mask: seq<bool>)
    requires |packets| == |mask|
    ensures |Kept(packets, mask)| == Survivors(mask)
    ensures forall i :: 0 <= i < |mask| && mask[i] ==>
              Survivors(mask[..i]) < |Kept(packets, mask)| && Kept(packets, mask)[Survivors(mask[..i])] == packets[i]
    decreases |mask|
  {
    if |mask| > 0 {
      var n := |mask| - 1;
      KeptIsExact(packets[..n], mask[..n]);
      forall i | 0 <= i < |mask| && mask[i]
        ensures Survivors(mask[..i]) < |Kept(packets, mask)| && Kept(packets, mask)[Survivors(mask[..i])] == packets[i]
      {
        assert mask[..n][..i] == mask[..i];
      }
    }
  }

  lemma {:induction false} ParseConcat(a: seq<Byte>, b: seq<Byte>)
    requires |a| % RECORD == 0 && |b| % RECORD == 0
    ensures Parse(a + b) == Parse(a) + Parse(b)
    decreases |b|
  {
    if |b| == 0 {
      assert a + b == a;
    } else {
      var init, block := b[..|b| - RECORD], b[|b| - RECORD..];
      var front, m := a + init, Decode(block);
      assert b == init + block && a + b == front + block;
      assert Parse(front) == Parse(a) + Parse(init) by {
        ParseConcat(a, init);
      }
      assert Parse(b) == Parse(init) + [m] by {
        Retransmit.ParseRecord(init, block);
      }
      assert Parse(a + b) == Parse(front) + [m] by {
        Retransmit.ParseRecord(front, block);
      }
    }
  }

  lemma {:induction false} NumbersConcat(a: seq<Message>, b: seq<Message>)
    ensures Numbers(a + b) == Numbers(a) + Numbers(b)
  {
  }

  /** Reading the packets one by one is reading the whole stream. */
  lemma {:induction false} HeardIsStream(packets: seq<seq<Byte>>)
    requires forall i :: 0 <= i < |packets| ==> Aligned(packets[i])
    ensures Heard(packets) == Numbers(Parse(Join(packets))) && |Join(packets)| % RECORD == 0
  {
    if |packets| > 0 {
      var init, last := packets[..|packets| - 1], packets[|packets| - 1];
      HeardIsStream(init);
      ParseConcat(Join(init), last);
      NumbersConcat(Parse(Join(init)), Parse(last));
    }
  }

  /** Losing packets leaves the numbers that do arrive in rising order. */
  lemma {:induction false} KeptRises(packets: seq<seq<Byte>>, mask: seq<bool>)
    requires |packets| == |mask| && Rising(Heard(packets))
    ensures Rising(Heard(Kept(packets, mask)))
    ensures forall i :: 0 <= i < |Heard(Kept(packets, mask))| ==> Heard(Kept(packets, mask))[i] in Heard(packets)
  {
    if |packets| > 0 {
      var n := |packets| - 1;
      var init, mask' := packets[..n], mask[..n];
      var all, few, more := Heard(init), Heard(Kept(init, mask')), Numbers(Parse(packets[n]));
      assert Heard(packets) == all + more;
      RisingParts(all, more);
      KeptRises(init, mask');
      if mask[n] {
        assert Kept(packets, mask)[..|Kept(init, mask')|] == Kept(init, mask');
        assert Heard(Kept(packets, mask)) == few + more;
        RisingTogether(all, few, more);
      } else {
        assert Kept(packets, mask) == Kept(init, mask');
      }
    }
  }

  lemma {:induction false} RisingParts(a: seq<nat>, b: seq<nat>)
    requires Rising(a + b)
    ensures Rising(a) && Rising(b)
    ensures forall i, j :: 0 <= i < |a| && 0 <= j < |b| ==> a[i] < b[j]
  {
    var s := a + b;
    forall i, j | 0 <= i < j < |a|
      ensures a[i] < a[j]
    {
      assert s[i] < s[j];
    }
    forall i, j | 0 <= i < j < |b|
      ensures b[i] < b[j]
    {
      assert s[|a| + i] < s[|a| + j];
    }
    forall i, j | 0 <= i < |a| && 0 <= j < |b|
      ensures a[i] < b[j]
    {
      assert s[i] < s[|a| + j];
    }
  }

  lemma {:induction false} RisingTogether(a: seq<nat>, few: seq<nat>, b: seq<nat>)
    requires Rising(few) && Rising(b) && (forall i :: 0 <= i < |few| ==> few[i] in a)
    requires forall i, j :: 0 <= i < |a| && 0 <= j < |b| ==> a[i] < b[j]
    ensures Rising(few + b) && forall i :: 0 <= i < |few + b| ==> (few + b)[i] in a + b
  {
  }

  lemma {:induction false} MessagesAt(rs: seq<Record>, i: nat)
    requires i < |rs|
    ensures Messages(rs)[i] == rs[i].message
    decreases |rs|
  {
    if i < |rs| - 1 {
      MessagesAt(rs[..|rs| - 1], i);
    }
  }

  /** What arrives over TCP is what was packed. */
  lemma {:induction false} CarriedIsParsed(packets: seq<seq<Byte>>, stream: seq<Byte>, rs: seq<Record>)
    requires Carried(packets, stream, rs)
    ensures Parse(stream) == Messages(rs)
  {
    ParseStream(rs, []);
    assert stream + [] == stream;
  }

  lemma {:induction false} SentRises(packets: seq<seq<Byte>>, stream: seq<Byte>, rs: seq<Record>, next: nat)
    requires Carried(packets, stream, rs) && Numbered(rs, next)
    ensures Rising(Heard(packets)) && |Heard(packets)| == |rs|
    ensures forall i :: 0 <= i < |rs| ==> Heard(packets)[i] == rs[i].message.seqNum
  {
    HeardIsStream(packets);
    CarriedIsParsed(packets, stream, rs);
    forall i | 0 <= i < |rs|
      ensures Heard(packets)[i] == rs[i].message.seqNum
    {
      MessagesAt(rs, i);
    }
  }

  /**
   Whatever packets the multicast loses, the listener receives or requests every number from 1 to the
   last it sees, never both and none twice.
   */
  lemma {:induction false} LossIsNoticed(packets: seq<seq<Byte>>, stream: seq<Byte>, rs: seq<Record>, next: nat,
                                         mask: seq<bool>)
    requires Carried(packets, stream, rs) && Numbered(rs, next) && |mask| == |packets|
    ensures var seen := Heard(Kept(packets, mask)); Covered(GapsOf(seen), seen, LastOf(seen))
  {
    SentRises(packets, stream, rs, next);
    KeptRises(packets, mask);
    GapsAreExact(Heard(Kept(packets, mask)));
  }

  /** Nothing is requested that was not sent. */
  lemma {:induction false} RequestsWereSent(packets: seq<seq<Byte>>, stream: seq<Byte>, rs: seq<Record>, next: nat,
                                            mask: seq<bool>, n: nat)
    requires Carried(packets, stream, rs) && Numbered(rs, next) && |mask| == |packets|
    requires n in GapsOf(Heard(Kept(packets, mask)))
    ensures n < next
  {
    var seen := Heard(Kept(packets, mask));
    LossIsNoticed(packets, stream, rs, next, mask);
    SentRises(packets, stream, rs, next);
    KeptRises(packets, mask);
    assert n < LastOf(seen) && seen[|seen| - 1] in Heard(packets);
  }

  /**
   If no message was dropped before sending, each number requested less than a lap late is answered with that
   very message, whatever the cache held at the start.
   */
  lemma {:induction false} LossIsRepaired(packets: seq<seq<Byte>>, stream: seq<Byte>, rs: seq<Record>, mask: seq<bool>,
                                          cold: seq<Message>, n: nat)
    requires Carried(packets, stream, rs) && Numbered(rs, |rs|) && |mask| == |packets| && |cold| == Retransmit.SIZE
    requires n in GapsOf(Heard(Kept(packets, mask))) && |rs| <= n + Retransmit.SIZE
    ensures n < |rs| && Retransmit.Slot(cold, Parse(stream), n % Retransmit.SIZE) == rs[n].message
    ensures rs[n].message.seqNum == n
  {
    RequestsWereSent(packets, stream, rs, |rs|, mask, n);
    CarriedIsParsed(packets, stream, rs);
    SlotHoldsMessage(rs, cold, n);
  }

  lemma {:induction false} SlotHoldsMessage(rs: seq<Record>, cold: seq<Message>, n: nat)
    requires Numbered(rs, |rs|) && |cold| == Retransmit.SIZE && n < |rs| <= n + Retransmit.SIZE
    ensures Retransmit.Slot(cold, Messages(rs), n % Retransmit.SIZE) == rs[n].message && rs[n].message.seqNum == n
  {
    var log := Messages(rs);
    assert Retransmit.Consecutive(log, 0) && rs[n].message.seqNum == n && log[n] == rs[n].message by {
      ConsecutiveMessages(rs);
      MessagesAt(rs, n);
    }
    Retransmit.SlotIsExact(cold, log, 0, n);
    assert Retransmit.Stored(log, 0, n) && !Retransmit.Stored(log, 0, n + Retransmit.SIZE);
  }

  lemma {:induction false} ConsecutiveMessages(rs: seq<Record>)
    requires Numbered(rs, |rs|)
    ensures Retransmit.Consecutive(Messages(rs), 0) && forall i :: 0 <= i < |rs| ==> rs[i].message.seqNum == i
  {
    forall i | 0 <= i < |rs|
      ensures rs[i].message.seqNum == i && Messages(rs)[i].seqNum == i
    {
      MessagesAt(rs, i);
      TopNumbers(rs, i);
    }
  }

  /** `n` rising numbers below `n` leave no room. */
  lemma {:induction false} TopNumbers(rs: seq<Record>, i: nat)
    requires Numbered(rs, |rs|) && i < |rs|
    ensures rs[i].message.seqNum == i
    decreases |rs| - i
  {
    if i + 1 < |rs| {
      TopNumbers(rs, i + 1);
    }
  }

  /**
   At any time a sender's packets carry the records taken; so does its stream exactly if TCP never refused
   a byte; and the numbers have no hole while nothing was dropped.
   */
  lemma {:induction false} SenderCarries(s: Sender)
    requires s.Valid()
    ensures Carried(s.packets, Stream(s.popped), s.popped) && Numbered(s.popped, s.seqNum)
    ensures s.stream == Stream(s.popped) <==> s.lost == 0
    ensures s.dropped == 0 ==> Numbered(s.popped, |s.popped|)
  {
    assert UnlockSent(0);
    var all := s.popped + s.queue;
    assert forall i :: 0 <= i < |s.popped| ==> s.popped[i] == all[i];
    if s.dropped == 0 {
      forall i | 0 <= i < |s.popped|
        ensures s.popped[i].message.seqNum == i
      {
        TopNumbers(all, i);
      }
    }
  }

  /** A retransmitter that gets all the bytes TCP took recovers the messages exactly if it refused none. */
  lemma {:induction false} ParsedExactlyIf(s: Sender)
    requires s.Valid()
    ensures Parse(s.stream) == Messages(s.popped) <==> s.lost == 0
  {
    assert UnlockSent(0);
    if s.lost == 0 {
      ParseStream(s.popped, []);
      assert s.stream + [] == s.stream;
    } else {
      assert |s.stream| < RECORD * |s.popped|;
    }
  }
}
