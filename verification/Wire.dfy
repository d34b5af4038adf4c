/** Market data messages as they travel: 64-byte records, little-endian, the last 24 bytes padding. */
module Wire {
  import Bits

  const RECORD: nat := 64
  const PADDING: nat := 24

  type Byte = b: nat | b < 256

  datatype Message = Message(tradeId: nat, timestamp: nat, price: nat, symbol: nat, quantity: nat, seqNum: nat)

  /** What fits in a number of `n` bytes. */
  function Limit(n: nat): (l: nat)
    ensures l >= 1
  {
    if n == 0 then 1 else 256 * Limit(n - 1)
  }

  /** Every field fits its width. */
  predicate Fits(m: Message) {
    && m.tradeId < Limit(8) && m.timestamp < Limit(8) && m.price < Limit(8)
    && m.symbol < Limit(4) && m.quantity < Limit(4) && m.seqNum < Limit(8)
  }

  function Little(x: nat, n: nat): (bs: seq<Byte>)
    ensures |bs| == n
  {
    if n == 0 then [] else [x % 256] + Little(x / 256, n - 1)
  }

  function Number(bs: seq<Byte>): nat {
    if |bs| == 0 then 0 else bs[0] + 256 * Number(bs[1..])
  }

  lemma {:induction false} NumberOfLittle(x: nat, n: nat)
    requires x < Limit(n)
    ensures Number(Little(x, n)) == x
    decreases n
  {
    if n > 0 {
      NumberOfLittle(x / 256, n - 1);
      assert Little(x, n)[1..] == Little(x / 256, n - 1);
    }
  }

  /** The memory image of a message; the padding holds whatever it held. */
  function Encode(m: Message, pad: seq<Byte>): (bs: seq<Byte>)
    requires |pad| == PADDING
    ensures |bs| == RECORD
  {
    Little(m.tradeId, 8) + Little(m.timestamp, 8) + Little(m.price, 8) + Little(m.symbol, 4) + Little(m.quantity, 4)
    + Little(m.seqNum, 8) + pad
  }

  function Decode(bs: seq<Byte>): Message
    requires |bs| == RECORD
  {
    Message(Number(bs[..8]), Number(bs[8..16]), Number(bs[16..24]), Number(bs[24..28]), Number(bs[28..32]),
      Number(bs[32..40]))
  }

  lemma {:induction false} DecodeEncode(m: Message, pad: seq<Byte>)
    requires Fits(m) && |pad| == PADDING
    ensures Decode(Encode(m, pad)) == m
  {
    var bs := Encode(m, pad);
    assert bs[..8] == Little(m.tradeId, 8);
    assert bs[8..16] == Little(m.timestamp, 8);
    assert bs[16..24] == Little(m.price, 8);
    assert bs[24..28] == Little(m.symbol, 4);
    assert bs[28..32] == Little(m.quantity, 4);
    assert bs[32..40] == Little(m.seqNum, 8);
    NumberOfLittle(m.tradeId, 8);
    NumberOfLittle(m.timestamp, 8);
    NumberOfLittle(m.price, 8);
    NumberOfLittle(m.symbol, 4);
    NumberOfLittle(m.quantity, 4);
    NumberOfLittle(m.seqNum, 8);
  }

  /** Byte `k` of a number, the lowest first. */
  lemma {:induction false} LittleAt(x: nat, n: nat, k: nat)
    requires k < n
    ensures Little(x, n)[k] == (x / Limit(k)) % 256
    decreases k
  {
    if k > 0 {
      LittleAt(x / 256, n - 1, k - 1);
      DivTwice(x, Limit(k - 1));
    }
  }

  lemma {:induction false} DivTwice(x: nat, d: nat)
    requires d >= 1
    ensures (x / 256) / d == x / (256 * d)
  {
    var q, r := (x / 256) / d, (x / 256) % d;
    assert x / 256 == q * d + r && x == 256 * (x / 256) + x % 256;
    assert x == (256 * d) * q + (256 * r + x % 256) by {
      assert 256 * (q * d) == (256 * d) * q;
    }
    Bits.ModUnique(x, 256 * d, q, 256 * r + x % 256);
  }

  /** Where each field stands in a record, byte by byte. */
  lemma {:induction false} FieldsAt(m: Message, pad: seq<Byte>, k: nat)
    requires |pad| == PADDING && k < 8
    ensures var bs := Encode(m, pad);
            && bs[k] == (m.tradeId / Limit(k)) % 256
            && bs[8 + k] == (m.timestamp / Limit(k)) % 256
            && bs[16 + k] == (m.price / Limit(k)) % 256
            && (k < 4 ==> bs[24 + k] == (m.symbol / Limit(k)) % 256)
            && (k < 4 ==> bs[28 + k] == (m.quantity / Limit(k)) % 256)
            && bs[32 + k] == (m.seqNum / Limit(k)) % 256
            && bs[40..] == pad
  {
    LittleAt(m.tradeId, 8, k);
    LittleAt(m.timestamp, 8, k);
    LittleAt(m.price, 8, k);
    LittleAt(m.seqNum, 8, k);
    if k < 4 {
      LittleAt(m.symbol, 4, k);
      LittleAt(m.quantity, 4, k);
    }
  }

  // ----- Streams of records -------------------------------------------------------------------

  /** A message in memory, padding included. */
  datatype Record = Record(message: Message, pad: seq<Byte>) {
    predicate Valid() {
      Fits(message) && |pad| == PADDING
    }
    function Bytes(): (bs: seq<Byte>)
      requires Valid()
      ensures |bs| == RECORD
    {
      Encode(message, pad)
    }
  }

  predicate AllValid(rs: seq<Record>) {
    forall i :: 0 <= i < |rs| ==> rs[i].Valid()
  }

  function Stream(rs: seq<Record>): (bs: seq<Byte>)
    requires AllValid(rs)
    ensures |bs| == RECORD * |rs|
  {
    if |rs| == 0 then [] else Stream(rs[..|rs| - 1]) + rs[|rs| - 1].Bytes()
  }

  lemma {:induction false} StreamConcat(a: seq<Record>, b: seq<Record>)
    requires AllValid(a) && AllValid(b)
    ensures AllValid(a + b) && Stream(a + b) == Stream(a) + Stream(b)
    decreases |b|
  {
    if |b| == 0 {
      assert a + b == a;
    } else {
      StreamConcat(a, b[..|b| - 1]);
      assert (a + b)[..|a + b| - 1] == a + b[..|b| - 1];
    }
  }

  function Messages(rs: seq<Record>): (ms: seq<Message>)
    ensures |ms| == |rs|
  {
    if |rs| == 0 then [] else Messages(rs[..|rs| - 1]) + [rs[|rs| - 1].message]
  }

  /** The messages in the complete records at the front of a byte stream. */
  function Parse(bs: seq<Byte>): (ms: seq<Message>)
    ensures |ms| == |bs| / RECORD
    decreases |bs|
  {
    if |bs| < RECORD then [] else
      var n := |bs| / RECORD;
      Parse(bs[..RECORD * (n - 1)]) + [Decode(bs[RECORD * (n - 1)..RECORD * n])]
  }

  /** Reading a stream back, whatever incomplete record follows it, gives the messages written. */
  lemma {:induction false} ParseStream(rs: seq<Record>, rest: seq<Byte>)
    requires AllValid(rs) && |rest| < RECORD
    ensures Parse(Stream(rs) + rest) == Messages(rs)
    decreases |rs|
  {
    var n, bs := |rs|, Stream(rs) + rest;
    assert |bs| / RECORD == n;
    if n > 0 {
      var init, last := rs[..n - 1], rs[n - 1];
      ParseStream(init, []);
      assert Stream(init) + [] == Stream(init);
      assert bs[..RECORD * (n - 1)] == Stream(init);
      assert bs[RECORD * (n - 1)..RECORD * n] == last.Bytes();
      DecodeEncode(last.message, last.pad);
    }
  }
}
