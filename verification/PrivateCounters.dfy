/**
 The counters under which records are masked (`nonce` and `cipher` in `container.rs`): read off the bytes of
 sealed and opened records, they never repeat within an object.
 */
module PrivateCounters {
  import opened Bytes
  import opened Positional
  import opened Records
  import opened PrivateRecords

  /** How far the initial counters of two chunks are apart. */
  const STRIDE: nat := 0x1_0000_0000_0000_0000

  /** The blocks of sixteen bytes that cover the body of a record. */
  const BLOCKS: nat := (MAC - BODY + 15) / 16

  // ----- big-endian numbers

  lemma BigEndianAppend(s: seq<byte>, b: byte)
    ensures BigEndian(s + [b]) == 256 * BigEndian(s) + b
  {
    assert (s + [b])[..|s|] == s;
  }

  lemma {:induction false} BigEndianConcat(s: seq<byte>, t: seq<byte>)
    ensures BigEndian(s + t) == BigEndian(s) * Power(256, |t|) + BigEndian(t)
    decreases |t|
  {
    hide BigEndian;
    if t == [] {
      assert s + t == s;
      NoBytes();
    } else {
      var init, b := t[..|t| - 1], t[|t| - 1];
      assert s + t == (s + init) + [b] && t == init + [b];
      BigEndianAppend(s + init, b);
      BigEndianAppend(init, b);
      BigEndianConcat(s, init);
      PowerUnfolds(256, |init|);
      Associate(256, BigEndian(s), Power(256, |init|));
      Associate(BigEndian(s), 256, Power(256, |init|));
    }
  }

  lemma NoBytes()
    ensures BigEndian([]) == 0 && Power(256, 0) == 1
  {}

  lemma {:induction false} BigEndianZeros(n: nat)
    ensures BigEndian(Zeros(n)) == 0
  {
    if n > 0 {
      var z := Zeros(n - 1);
      BigEndianZeros(n - 1);
      BigEndianConcat([0], z);
      OneByte(0);
    }
  }

  lemma OneByte(b: byte)
    ensures BigEndian([b]) == b
  {
    assert [b][..0] == [];
  }

  lemma {:induction false} ReversedIsBigEndian(s: seq<byte>)
    ensures BigEndian(Reversed(s)) == FromLE(s)
  {
    hide BigEndian;
    hide FromLE;
    if s == [] {
      NoBytes();
      NothingLittle();
    } else {
      ReversedIsBigEndian(s[1..]);
      BigEndianAppend(Reversed(s[1..]), s[0]);
      FromLEUnfolds(s);
    }
  }

  lemma NothingLittle()
    ensures FromLE([]) == 0
  {}

  lemma FromLEUnfolds(s: seq<byte>)
    requires s != []
    ensures FromLE(s) == s[0] + 256 * FromLE(s[1..])
  {
    hide Value;
    assert s == [s[0]] + s[1..];
    ValueUnfolds(256, s[0], s[1..]);
  }

  lemma NonceIs(index: nat)
    requires index < U32
    ensures BigEndian(Nonce(index)) == index * STRIDE
  {
    hide BigEndian;
    hide Reversed;
    hide LE;
    hide FromLE;
    hide Power;
    var middle := Reversed(LE(4, index));
    BigEndianConcat(Zeros(4) + middle, Zeros(8));
    BigEndianConcat(Zeros(4), middle);
    BigEndianZeros(4);
    BigEndianZeros(8);
    ReversedIsBigEndian(LE(4, index));
    Powers();
    FieldRoundTrip(4, index);
  }

  // ----- records

  lemma SealedLayout(crypto: Crypto, meta: Meta, index: nat, bytes: seq<byte>, padding: seq<byte>)
    requires |bytes| + |padding| == CHUNK
    ensures var record := SealRecord(crypto, meta, index, bytes, padding);
            && |record| == RECORD && |Content(meta, bytes, padding)| == MAC - BODY
            && record[HEADER..BODY] == Nonce(index)
            && record[BODY..MAC] == Mask(crypto, meta.id, Nonce(index), Content(meta, bytes, padding))
  {
    hide Header;
    hide Content;
    hide Mask;
    hide Nonce;
    HeaderFields(crypto, meta, index);
    ContentFields(meta, bytes, padding);
    var head, body := Header(crypto, meta, index), Mask(crypto, meta.id, Nonce(index), Content(meta, bytes, padding));
    SealedSlices(head, body, crypto.mac(meta.id, head + body));
  }

  /** The initial counter that a sealed record carries is its index times 2^64. */
  lemma SealedCounter(crypto: Crypto, meta: Meta, index: nat, bytes: seq<byte>, padding: seq<byte>)
    requires index < U32 && |bytes| + |padding| == CHUNK
    ensures var record := SealRecord(crypto, meta, index, bytes, padding);
            |record| == RECORD && BigEndian(record[64..80]) == index * STRIDE
  {
    hide BigEndian;
    hide SealRecord;
    hide Nonce;
    SealedLayout(crypto, meta, index, bytes, padding);
    NonceIs(index);
  }

  lemma NoWrap(index: nat, k: nat)
    requires index < U32 && k < MAC - BODY
    ensures (index * STRIDE + k / 16) % COUNTERS == index * STRIDE + k / 16 < COUNTERS
  {}

  /** Each byte of the body is the content under the block at the record's own counter, advanced by sixteen bytes a block. */
  lemma SealedBytes(crypto: Crypto, meta: Meta, index: nat, bytes: seq<byte>, padding: seq<byte>, k: nat)
    requires index < U32 && |bytes| + |padding| == CHUNK && k < MAC - BODY
    ensures var record, content := SealRecord(crypto, meta, index, bytes, padding), Content(meta, bytes, padding);
            && |record| == RECORD && |content| == MAC - BODY
            && record[BODY + k] == XorByte(content[k], crypto.block(meta.id, BigEndian(record[64..80]) + k / 16)[k % 16])
  {
    hide BigEndian;
    hide SealRecord;
    hide Nonce;
    hide Content;
    hide Xor;
    var record := SealRecord(crypto, meta, index, bytes, padding);
    SealedLayout(crypto, meta, index, bytes, padding);
    NonceIs(index);
    NoWrap(index, k);
    assert record[BODY + k] == record[BODY..MAC][k];
  }

  /** The blocks that cover the bodies of two records of one object are disjoint, and none is beyond the last counter. */
  lemma CountersNeverRepeat(crypto: Crypto, meta: Meta, i: nat, a: seq<byte>, pad: seq<byte>, j: nat, b: seq<byte>, pad2: seq<byte>)
    requires i < U32 && j < U32 && i != j
    requires |a| + |pad| == CHUNK && |b| + |pad2| == CHUNK
    ensures var r, q := SealRecord(crypto, meta, i, a, pad), SealRecord(crypto, meta, j, b, pad2);
            && |r| == RECORD && |q| == RECORD
            && var x, y := BigEndian(r[64..80]), BigEndian(q[64..80]);
               && x + BLOCKS <= COUNTERS && y + BLOCKS <= COUNTERS
               && (x + BLOCKS <= y || y + BLOCKS <= x)
  {
    hide BigEndian;
    hide SealRecord;
    SealedCounter(crypto, meta, i, a, pad);
    SealedCounter(crypto, meta, j, b, pad2);
    Apart(i, j);
  }

  lemma Apart(i: nat, j: nat)
    requires i < U32 && j < U32 && i != j
    ensures i * STRIDE + BLOCKS <= COUNTERS && j * STRIDE + BLOCKS <= COUNTERS
    ensures i * STRIDE + BLOCKS <= j * STRIDE || j * STRIDE + BLOCKS <= i * STRIDE
  {}

  lemma IndexFits(record: seq<byte>)
    requires |record| == RECORD
    ensures FromLE(record[56..60]) < U32
  {
    hide FromLE;
    Powers();
    FieldIsCanonical(record[56..60]);
  }

  /** Every record that is opened carries the counter of its own index. */
  lemma OpenedCounter(crypto: Crypto, record: seq<byte>)
    requires OpenRecord(crypto, record).Ok? && OpenRecord(crypto, record).value.Authenticated?
    ensures |record| == RECORD && BigEndian(record[64..80]) == OpenRecord(crypto, record).value.chunk.index * STRIDE
  {
    hide BigEndian;
    hide Nonce;
    hide FromLE;
    hide Mask;
    hide ParseKind;
    hide ChunkCount;
    hide ContentTypeOf;
    hide SizeOf;
    IndexFits(record);
    NonceIs(FromLE(record[56..60]));
  }

  // ----- exclusive or

  /** Binary digit `k`. */
  predicate HasBit(x: nat, k: nat) {
    if k == 0 then x % 2 == 1 else HasBit(x / 2, k - 1)
  }

  lemma {:induction false} XorBit(bits: nat, a: nat, b: nat, k: nat)
    requires k < bits
    ensures HasBit(Xor(bits, a, b), k) <==> HasBit(a, k) != HasBit(b, k)
    decreases bits
  {
    hide Xor;
    XorHalves(bits, a, b);
    if k > 0 {
      XorBit(bits - 1, a / 2, b / 2, k - 1);
    }
  }

  lemma XorHalves(bits: nat, a: nat, b: nat)
    requires bits > 0
    ensures Xor(bits, a, b) / 2 == Xor(bits - 1, a / 2, b / 2)
    ensures Xor(bits, a, b) % 2 == 1 <==> (a % 2 == 1) != (b % 2 == 1)
  {
    hide Xor;
    XorUnfolds(bits, a, b);
    OddSum(a, b, Xor(bits - 1, a / 2, b / 2));
  }

  lemma OddSum(a: nat, b: nat, rest: nat)
    ensures ((a + b) % 2 + 2 * rest) / 2 == rest
    ensures ((a + b) % 2 + 2 * rest) % 2 == 1 <==> (a % 2 == 1) != (b % 2 == 1)
  {}

  /** Bit by bit, a masked byte differs from the content exactly where the keystream has a one. */
  lemma XorByteIs(a: byte, b: byte, k: nat)
    requires k < 8
    ensures HasBit(XorByte(a, b), k) <==> HasBit(a, k) != HasBit(b, k)
  {
    hide Xor;
    XorBit(8, a, b, k);
  }
}
