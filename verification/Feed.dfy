/** The sender of the market feed: numbering, packing into UDP packets, and the parallel TCP stream. */
module Feed {
  import opened Market
  import opened Wire

  const PER_PACKET: nat := 23
  const PACKET: nat := 1472
  const CAPACITY: nat := 64
  const BATCH: nat := 1472
  const TCP_CAPACITY: nat := 94208

  // ----- Buffers ------------------------------------------------------------------------------

  /** A packet buffer of fixed size and how much of it is to be sent. */
  datatype Iov = Iov(base: seq<Byte>, len: nat)

  predicate Sized(iov: seq<Iov>, tcp: seq<Byte>) {
    |iov| == CAPACITY && |tcp| == TCP_CAPACITY && forall p :: 0 <= p < |iov| ==> |iov[p].base| == PACKET
  }

  /** Overwrites part of a buffer. */
  function Write(buf: seq<Byte>, at: nat, bs: seq<Byte>): (r: seq<Byte>)
    requires at + |bs| <= |buf|
    ensures |r| == |buf|
  {
    buf[..at] + bs + buf[at + |bs|..]
  }

  /** A buffer of `size` bytes that begins with `bs`. */
  ghost predicate Filled(buf: seq<Byte>, size: nat, bs: seq<Byte>) {
    |buf| == size && bs <= buf
  }

  lemma {:induction false} WriteAppends(buf: seq<Byte>, size: nat, bs: seq<Byte>, more: seq<Byte>)
    requires Filled(buf, size, bs) && |bs| + |more| <= size
    ensures Filled(Write(buf, |bs|, more), size, bs + more)
  {
  }

  /** What the first `n` packet buffers hold for sending. */
  function Packets(iov: seq<Iov>, n: nat): (ps: seq<seq<Byte>>)
    requires n <= |iov|
    ensures |ps| == n
  {
    if n == 0 then []
    else Packets(iov, n - 1)
         + [if iov[n - 1].len <= |iov[n - 1].base| then iov[n - 1].base[..iov[n - 1].len] else iov[n - 1].base]
  }

  lemma {:induction false} PacketsFrame(iov: seq<Iov>, iov': seq<Iov>, n: nat)
    requires n <= |iov| && n <= |iov'| && forall p :: 0 <= p < n ==> iov[p] == iov'[p]
    ensures Packets(iov, n) == Packets(iov', n)
  {
    if n > 0 {
      PacketsFrame(iov, iov', n - 1);
    }
  }

  function Join(ps: seq<seq<Byte>>): seq<Byte> {
    if |ps| == 0 then [] else Join(ps[..|ps| - 1]) + ps[|ps| - 1]
  }

  lemma {:induction false} JoinConcat(a: seq<seq<Byte>>, b: seq<seq<Byte>>)
    ensures Join(a + b) == Join(a) + Join(b)
    decreases |b|
  {
    if |b| == 0 {
      assert a + b == a;
    } else {
      JoinConcat(a, b[..|b| - 1]);
      assert (a + b)[..|a + b| - 1] == a + b[..|b| - 1];
    }
  }

  /** One more packet, holding the records that follow those already packed. */
  lemma {:induction false} OneMorePacket(iov: seq<Iov>, iov': seq<Iov>, p: nat, done: seq<Record>, batch: seq<Record>)
    requires p < |iov| == |iov'| && (forall i :: 0 <= i < p ==> iov[i] == iov'[i]) && AllValid(done) && AllValid(batch)
    requires Join(Packets(iov, p)) == Stream(done)
    requires Filled(iov'[p].base, PACKET, Stream(batch)) && iov'[p].len == |Stream(batch)|
    ensures AllValid(done + batch) && Join(Packets(iov', p + 1)) == Stream(done + batch)
  {
    PacketsFrame(iov, iov', p);
    var ps := Packets(iov', p + 1);
    assert ps[..p] == Packets(iov', p);
    StreamConcat(done, batch);
  }

  /** `n` records fill packets of 23 and leave the remainder in a last, shorter one. */
  predicate Shape(iov: seq<Iov>, n: nat)
    requires |iov| == CAPACITY && n <= BATCH
  {
    && (forall p :: 0 <= p < n / PER_PACKET ==> iov[p].len == PACKET)
    && (n % PER_PACKET > 0 ==> iov[n / PER_PACKET].len == RECORD * (n % PER_PACKET))
  }

  lemma {:induction false} PacketsCount(count: nat, packed: nat)
    requires packed < PER_PACKET
    ensures var n := PER_PACKET * count + packed;
            && (RECORD * n) / RECORD == n && n % PER_PACKET == packed && n / PER_PACKET == count
            && (n + PER_PACKET - 1) / PER_PACKET == if packed > 0 then count + 1 else count
  {
  }

  /** In the middle of a batch: `count` packets are complete and hold `whole`, and `part` has been copied behind it. */
  ghost predicate Batched(iov: seq<Iov>, tcp: seq<Byte>, count: nat, offset: nat, whole: seq<Record>,
                          part: seq<Record>) {
    && Sized(iov, tcp) && count <= CAPACITY && |whole| == PER_PACKET * count
    && AllValid(whole) && AllValid(part) && AllValid(whole + part)
    && (forall i :: 0 <= i < count ==> iov[i].len == PACKET) && Join(Packets(iov, count)) == Stream(whole)
    && offset == |Stream(whole + part)| && Filled(tcp, TCP_CAPACITY, Stream(whole + part))
  }

  lemma {:induction false} DropEmpty(a: seq<Record>, b: seq<Record>, c: seq<Record>)
    requires |b| == 0
    ensures a + b + c == a + c
  {
  }

  /** A packet completed. */
  lemma {:induction false} PacketDone(iov: seq<Iov>, iov': seq<Iov>, tcp: seq<Byte>, tcp': seq<Byte>, count: nat,
                                      offset: nat, whole: seq<Record>, part: seq<Record>)
    requires Batched(iov, tcp, count, offset, whole, []) && count < CAPACITY && Sized(iov', tcp')
    requires AllValid(part) && |part| == PER_PACKET && forall i :: 0 <= i < count ==> iov[i] == iov'[i]
    requires Filled(iov'[count].base, PACKET, Stream(part)) && iov'[count].len == PACKET
    requires Filled(tcp', TCP_CAPACITY, Stream(whole) + Stream(part))
    ensures Batched(iov', tcp', count + 1, offset + PACKET, whole + part, [])
  {
    OneMorePacket(iov, iov', count, whole, part);
    StreamConcat(whole, part);
    assert whole + [] == whole;
    assert whole + part + [] == whole + part;
  }

  /** A packet left incomplete. */
  lemma {:induction false} PacketPart(iov: seq<Iov>, iov': seq<Iov>, tcp: seq<Byte>, tcp': seq<Byte>, count: nat,
                                      offset: nat, whole: seq<Record>, part: seq<Record>)
    requires Batched(iov, tcp, count, offset, whole, []) && count < CAPACITY && Sized(iov', tcp')
    requires AllValid(part) && forall i :: 0 <= i < count ==> iov[i] == iov'[i]
    requires Filled(tcp', TCP_CAPACITY, Stream(whole) + Stream(part))
    ensures Batched(iov', tcp', count, offset + RECORD * |part|, whole, part)
  {
    PacketsFrame(iov, iov', count);
    StreamConcat(whole, part);
    assert whole + [] == whole;
  }

  /** A packet of between 1 and 23 whole records. */
  predicate Aligned(p: seq<Byte>) {
    0 < |p| <= PACKET && |p| % RECORD == 0
  }

  lemma {:induction false} PacketsAt(iov: seq<Iov>, n: nat, i: nat)
    requires i < n <= |iov| && iov[i].len <= |iov[i].base|
    ensures Packets(iov, n)[i] == iov[i].base[..iov[i].len]
  {
    if i < n - 1 {
      PacketsAt(iov, n - 1, i);
    }
  }

  lemma {:induction false} ShapeAligned(iov: seq<Iov>, tcp: seq<Byte>, n: nat, count: nat)
    requires Sized(iov, tcp) && n <= BATCH && Shape(iov, n) && count == (n + PER_PACKET - 1) / PER_PACKET
    ensures forall i :: 0 <= i < count ==> Aligned(Packets(iov, count)[i])
  {
    forall i | 0 <= i < count
      ensures Aligned(Packets(iov, count)[i])
    {
      assert i < n / PER_PACKET || (i == n / PER_PACKET && n % PER_PACKET > 0);
      PacketsAt(iov, count, i);
    }
  }

  /** The packets together, and the TCP stream, carry exactly these records. */
  ghost predicate Carried(packets: seq<seq<Byte>>, stream: seq<Byte>, rs: seq<Record>) {
    && AllValid(rs) && Join(packets) == stream == Stream(rs)
    && forall i :: 0 <= i < |packets| ==> Aligned(packets[i])
  }

  lemma {:induction false} Delivered(packets: seq<seq<Byte>>, stream: seq<Byte>, rs: seq<Record>,
                                     packets': seq<seq<Byte>>, stream': seq<Byte>, rs': seq<Record>)
    requires Carried(packets, stream, rs) && Carried(packets', stream', rs')
    ensures Carried(packets + packets', stream + stream', rs + rs')
  {
    JoinConcat(packets, packets');
    StreamConcat(rs, rs');
  }

  /** A batch ready to be sent. */
  ghost predicate Packed(iov: seq<Iov>, tcp: seq<Byte>, count: nat, rs: seq<Record>) {
    && Sized(iov, tcp) && AllValid(rs) && |rs| <= BATCH
    && count == (|rs| + PER_PACKET - 1) / PER_PACKET && count <= CAPACITY
    && forall k {:trigger UnlockPacked(k)} :: UnlockPacked(k) ==>
       Shape(iov, |rs|) && Join(Packets(iov, count)) == Stream(rs)
  }

  // Two switches, always true: the definitions of `Packed` and `Sent` are consulted only where they are asserted.

  ghost predicate UnlockPacked(k: int) {
    true
  }

  ghost predicate UnlockSent(k: int) {
    true
  }

  lemma {:induction false} FlushedPart(iov: seq<Iov>, iov': seq<Iov>, tcp: seq<Byte>, count: nat, offset: nat,
                                       whole: seq<Record>, part: seq<Record>)
    requires Batched(iov, tcp, count, offset, whole, part) && count < CAPACITY && 0 < |part| < PER_PACKET
    requires Filled(iov[count].base, PACKET, Stream(part)) && iov' == iov[count := iov[count].(len := RECORD * |part|)]
    ensures Packed(iov', tcp, count + 1, whole + part)
  {
    assert Sized(iov', tcp);
    assert |whole + part| <= BATCH && Shape(iov', |whole + part|)
           && count + 1 == (|whole + part| + PER_PACKET - 1) / PER_PACKET by {
      ShapeIsSet(iov', count, |part|);
    }
    assert AllValid(whole + part) && Join(Packets(iov', count + 1)) == Stream(whole + part) by {
      OneMorePacket(iov, iov', count, whole, part);
    }
  }

  /** `count` full packets and a last one of `packed` records have the shape of a batch. */
  lemma {:induction false} ShapeIsSet(iov: seq<Iov>, count: nat, packed: nat)
    requires |iov| == CAPACITY && count < CAPACITY && 0 < packed < PER_PACKET
    requires (forall p :: 0 <= p < count ==> iov[p].len == PACKET) && iov[count].len == RECORD * packed
    ensures var n := PER_PACKET * count + packed;
            n <= BATCH && Shape(iov, n) && count + 1 == (n + PER_PACKET - 1) / PER_PACKET
  {
    PacketsCount(count, packed);
  }

  lemma {:induction false} FlushedNone(iov: seq<Iov>, tcp: seq<Byte>, count: nat, offset: nat, whole: seq<Record>,
                                       part: seq<Record>)
    requires Batched(iov, tcp, count, offset, whole, part) && |part| == 0
    ensures Packed(iov, tcp, count, whole + part)
  {
    PacketsCount(count, 0);
    assert whole + part == whole;
  }

  /** The TCP stream lacks `lost` bytes of these records, and is complete if that is none. */
  ghost predicate Streamed(stream: seq<Byte>, lost: nat, rs: seq<Record>) {
    AllValid(rs) && |stream| + lost == |Stream(rs)| && (lost == 0 ==> stream == Stream(rs))
  }

  lemma {:induction false} StreamedMore(stream: seq<Byte>, lost: nat, rs: seq<Record>, more: seq<Record>,
                                        bytes: seq<Byte>, sent: nat)
    requires Streamed(stream, lost, rs) && AllValid(more) && bytes == Stream(more) && sent <= |bytes|
    ensures Streamed(stream + bytes[..sent], lost + (|bytes| - sent), rs + more)
  {
    StreamConcat(rs, more);
    if sent == |bytes| {
      assert bytes[..sent] == bytes;
    }
  }

  /** The packets sent carry all the records taken; the stream sent lacks `lost` bytes of them. */
  ghost predicate Sent(packets: seq<seq<Byte>>, stream: seq<Byte>, lost: nat, rs: seq<Record>) {
    AllValid(rs) && forall k {:trigger UnlockSent(k)} :: UnlockSent(k) ==>
      Carried(packets, Stream(rs), rs) && Streamed(stream, lost, rs)
  }

  /** Both sends of a batch, of which TCP took the first `sent` bytes. */
  lemma {:induction false} BatchSent(iov: seq<Iov>, tcp: seq<Byte>, count: nat, offset: nat, done: seq<Record>,
                                     packets: seq<seq<Byte>>, stream: seq<Byte>, lost: nat, popped: seq<Record>,
                                     sent: nat)
    requires Packed(iov, tcp, count, done) && sent <= offset == |Stream(done)|
    requires Filled(tcp, TCP_CAPACITY, Stream(done))
    requires Sent(packets, stream, lost, popped)
    ensures Sent(packets + Packets(iov, count), stream + tcp[..sent], lost + (offset - sent), popped + done)
    ensures tcp[..sent] == Stream(done)[..sent]
  {
    var bytes := Stream(done);
    assert UnlockPacked(0) && UnlockSent(0);
    assert tcp[..sent] == bytes[..sent];
    assert AllValid(popped + done) && Carried(packets + Packets(iov, count), Stream(popped + done), popped + done) by {
      ShapeAligned(iov, tcp, |done|, count);
      Delivered(packets, Stream(popped), popped, Packets(iov, count), bytes, done);
      StreamConcat(popped, done);
    }
    StreamedMore(stream, lost, popped, done, bytes, sent);
  }

  // ----- The sender -----------------------------------------------------------------------------

  class Sender {
    var seqNum: nat
    var queue: seq<Record>
    const queueSize: nat
    var iov: seq<Iov>
    var tcp: seq<Byte>
    /** All packets multicast and all bytes sent over TCP. */
    var packets: seq<seq<Byte>>
    var stream: seq<Byte>
    /**
     Bookkeeping: the records taken from the queue, how many never entered it, and how many bytes TCP did not
     take.
     */
    ghost var popped: seq<Record>
    ghost var dropped: nat
    ghost var lost: nat

    ghost predicate Valid()
      reads this
    {
      && Sized(iov, tcp) && AllValid(queue) && AllValid(popped)
      && Sent(packets, stream, lost, popped)
      && |popped| + |queue| + dropped == seqNum
      && Numbered(popped + queue, seqNum)
    }

    constructor (queueSize: nat, packetMemory: seq<Byte>, tcpMemory: seq<Byte>)
      requires |packetMemory| == PACKET && |tcpMemory| == TCP_CAPACITY
      ensures Valid() && seqNum == 0 && queue == [] && popped == [] && dropped == 0 && lost == 0
    {
      this.queueSize := queueSize;
      seqNum, queue, packets, stream := 0, [], [], [];
      popped, dropped, lost := [], 0, 0;
      iov, tcp := seq(CAPACITY, i => Iov(packetMemory, 0)), tcpMemory;
    }

    /** Numbers a trade and offers it to the queue, which refuses it when full. */
    method Publish(t: Trade, pad: seq<Byte>)
      requires Valid() && Record(Message(t.id, t.timestamp, t.price, t.symbol, t.quantity, seqNum), pad).Valid()
      modifies this`seqNum, this`queue, this`dropped
      ensures Valid() && seqNum == old(seqNum) + 1
      ensures |old(queue)| < queueSize ==>
                var m := Message(t.id, t.timestamp, t.price, t.symbol, t.quantity, old(seqNum));
                queue == old(queue) + [Record(m, pad)] && dropped == old(dropped)
      ensures |old(queue)| >= queueSize ==> queue == old(queue) && dropped == old(dropped) + 1
    {
      var r := Record(Message(t.id, t.timestamp, t.price, t.symbol, t.quantity, seqNum), pad);
      assert popped + (queue + [r]) == popped + queue + [r];
      seqNum := seqNum + 1;
      if |queue| < queueSize {
        queue := queue + [r];
      } else {
        dropped := dropped + 1;
      }
    }

    /**
     The inner loop: moves up to 23 records from the queue into packet `p` and, behind `sent`, into the TCP
     buffer.
     */
    method PackPacket(p: nat, offset: nat, ghost sent: seq<Byte>) returns (packed: nat, ghost done: seq<Record>)
      requires Sized(iov, tcp) && AllValid(queue) && p < CAPACITY
      requires offset == |sent| && offset + PACKET <= TCP_CAPACITY && Filled(tcp, TCP_CAPACITY, sent)
      modifies this`queue, this`iov, this`tcp
      ensures Sized(iov, tcp) && forall i :: 0 <= i < CAPACITY && i != p ==> iov[i] == old(iov)[i]
      ensures old(queue) == done + queue && packed == |done| <= PER_PACKET && (packed < PER_PACKET ==> queue == [])
      ensures AllValid(done) && AllValid(queue)
      ensures Filled(iov[p].base, PACKET, Stream(done)) && Filled(tcp, TCP_CAPACITY, sent + Stream(done))
    {
      packed, done := 0, [];
      assert sent + Stream(done) == sent;
      while packed < PER_PACKET && queue != []
        invariant old(queue) == done + queue && packed == |done| <= PER_PACKET
        invariant AllValid(done) && AllValid(queue)
        invariant Sized(iov, tcp) && forall i :: 0 <= i < CAPACITY && i != p ==> iov[i] == old(iov)[i]
        invariant Filled(iov[p].base, PACKET, Stream(done)) && Filled(tcp, TCP_CAPACITY, sent + Stream(done))
        decreases |queue|
      {
        var r := queue[0];
        PackOne(r, p, RECORD * packed, offset + RECORD * packed, done, sent);
        queue, packed := queue[1..], packed + 1;
        assert done + [r] + queue == done + ([r] + queue);
        done := done + [r];
      }
    }

    /** One round of the outer loop: the packet is complete, or the queue ran dry and it is left for the flush. */
    method NextPacket(count: nat, offset: nat, ghost whole: seq<Record>)
      returns (count': nat, offset': nat, flush: bool, ghost whole': seq<Record>, ghost part: seq<Record>)
      requires count < CAPACITY && AllValid(queue) && Batched(iov, tcp, count, offset, whole, [])
      modifies this`queue, this`iov, this`tcp
      ensures AllValid(queue) && Batched(iov, tcp, count', offset', whole', part)
      ensures whole + old(queue) == whole' + part + queue
      ensures if flush then count' == count && |part| < PER_PACKET && queue == []
              && Filled(iov[count].base, PACKET, Stream(part))
              else count' == count + 1 && part == []
    {
      ghost var iov0, tcp0, q := iov, tcp, queue;
      assert whole + [] == whole;
      var packed;
      packed, part := PackPacket(count, offset, Stream(whole));
      assert whole + q == whole + part + queue;
      offset', flush := offset + RECORD * packed, packed < PER_PACKET;
      if flush {
        PacketPart(iov0, iov, tcp0, tcp, count, offset, whole, part);
        count', whole' := count, whole;
      } else {
        iov := iov[count := iov[count].(len := RECORD * packed)];
        PacketDone(iov0, iov, tcp0, tcp, count, offset, whole, part);
        count', whole', part := count + 1, whole + part, [];
        assert whole' + [] == whole';
      }
    }

    /** Sends along the packet that was being filled, its size worked out from the bytes copied. */
    method Flush(count: nat, offset: nat, ghost whole: seq<Record>, ghost part: seq<Record>) returns (count': nat)
      requires Batched(iov, tcp, count, offset, whole, part) && |part| < PER_PACKET
      requires (count == CAPACITY ==> part == [])
      requires count < CAPACITY && part != [] ==> Filled(iov[count].base, PACKET, Stream(part))
      modifies this`iov
      ensures Packed(iov, tcp, count', whole + part)
    {
      PacketsCount(count, |part|);
      count' := count;
      if count < CAPACITY {
        var current := (offset / RECORD) % PER_PACKET;
        if current > 0 {
          ghost var iov0 := iov;
          iov := iov[count := iov[count].(len := RECORD * current)];
          FlushedPart(iov0, iov, tcp, count, offset, whole, part);
          count' := count + 1;
          return;
        }
      }
      FlushedNone(iov, tcp, count, offset, whole, part);
    }

    /**
     The outer loop and the flush.  Takes as many records as the batch can hold, or all there are; the
     queue stands for the records that arrive before a pop first fails.
     */
    method FillBatch() returns (count: nat, offset: nat, ghost done: seq<Record>)
      requires Sized(iov, tcp) && AllValid(queue)
      modifies this`queue, this`iov, this`tcp
      ensures AllValid(queue) && old(queue) == done + queue && (|done| < BATCH ==> queue == [])
      ensures Packed(iov, tcp, count, done) && offset == |Stream(done)| && Filled(tcp, TCP_CAPACITY, Stream(done))
    {
      count, offset := 0, 0;
      ghost var whole: seq<Record>, part: seq<Record> := [], [];
      var flush := false;
      while count < CAPACITY && !flush
        invariant AllValid(queue) && Batched(iov, tcp, count, offset, whole, part)
        invariant old(queue) == whole + part + queue
        invariant if flush then count < CAPACITY && |part| < PER_PACKET && queue == []
                  && Filled(iov[count].base, PACKET, Stream(part))
                  else part == []
        decreases CAPACITY - count, !flush
      {
        DropEmpty(whole, part, queue);
        count, offset, flush, whole, part := NextPacket(count, offset, whole);
      }
      done := whole + part;
      count := Flush(count, offset, whole, part);
    }

    /**
     One pass of the sending loop: the batch goes out as packets and as one piece of the TCP stream, of
     which the connection takes `room` bytes before it would block; what is left then is given up.
     */
    method SendBatch(room: nat)
      requires Valid()
      modifies this`queue, this`iov, this`tcp, this`packets, this`stream, this`popped, this`lost
      ensures Valid() && popped + queue == old(popped) + old(queue)
      ensures |popped| == |old(popped)| + (if |old(queue)| < BATCH then |old(queue)| else BATCH)
      ensures var bytes := Stream(popped[|old(popped)|..]);
              var sent := if room < |bytes| then room else |bytes|;
              stream == old(stream) + bytes[..sent] && lost == old(lost) + |bytes| - sent
    {
      ghost var q := queue;
      var count, offset;
      ghost var done;
      count, offset, done := FillBatch();
      assert popped + q == popped + done + queue;
      if count == 0 {
        assert done == [] && popped[|popped|..] == [];
        return;
      }
      Transmit(count, offset, done, room);
      assert popped[|old(popped)|..] == done;
    }

    /** The two sends of a batch. */
    method Transmit(count: nat, offset: nat, ghost done: seq<Record>, room: nat)
      requires Packed(iov, tcp, count, done) && offset == |Stream(done)| && Filled(tcp, TCP_CAPACITY, Stream(done))
      requires Sent(packets, stream, lost, popped)
      modifies this`packets, this`stream, this`popped, this`lost
      ensures popped == old(popped) + done && Sent(packets, stream, lost, popped)
      ensures lost == old(lost) + if room < offset then offset - room else 0
      ensures stream == old(stream) + Stream(done)[..if room < offset then room else offset]
    {
      var sent := if room < offset then room else offset;
      BatchSent(iov, tcp, count, offset, done, packets, stream, lost, popped, sent);
      packets, stream := packets + Packets(iov, count), stream + tcp[..sent];
      popped, lost := popped + done, lost + (offset - sent);
    }

    /** The two copies of one record. */
    method PackOne(r: Record, p: nat, at: nat, tcpAt: nat, ghost done: seq<Record>, ghost sent: seq<Byte>)
      requires Sized(iov, tcp) && p < CAPACITY && r.Valid() && AllValid(done)
      requires at == |Stream(done)| && at + RECORD <= PACKET && tcpAt == |sent| + at && tcpAt + RECORD <= TCP_CAPACITY
      requires Filled(iov[p].base, PACKET, Stream(done)) && Filled(tcp, TCP_CAPACITY, sent + Stream(done))
      modifies this`iov, this`tcp
      ensures Sized(iov, tcp) && forall i :: 0 <= i < CAPACITY && i != p ==> iov[i] == old(iov)[i]
      ensures AllValid(done + [r])
      ensures Filled(iov[p].base, PACKET, Stream(done + [r])) && Filled(tcp, TCP_CAPACITY, sent + Stream(done + [r]))
    {
      WriteAppends(iov[p].base, PACKET, Stream(done), r.Bytes());
      WriteAppends(tcp, TCP_CAPACITY, sent + Stream(done), r.Bytes());
      assert sent + Stream(done) + r.Bytes() == sent + Stream(done + [r]);
      iov := iov[p := iov[p].(base := Write(iov[p].base, at, r.Bytes()))];
      tcp := Write(tcp, tcpAt, r.Bytes());
    }
  }

  /** Numbers rise, stay below `next`, and are consecutive as long as none is missing. */
  ghost predicate Numbered(rs: seq<Record>, next: nat) {
    && (forall i :: 0 <= i < |rs| ==> i <= rs[i].message.seqNum < next)
    && (forall i, j :: 0 <= i < j < |rs| ==> rs[i].message.seqNum < rs[j].message.seqNum)
  }

}
