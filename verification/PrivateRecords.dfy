/**
 Private records (`container.rs`): sealing one chunk and opening one record. The key derivation,
 the block cipher, the authenticator and the digest are any functions; the cipher runs in counter mode.
 */
module PrivateRecords {
  import opened Bytes
  import opened Positional
  import opened Records

  type Digest = s: seq<byte> | |s| == 32 witness Zeros(32)
  type Tag = s: seq<byte> | |s| == 16 witness Zeros(16)

  /** The functions keyed by one root secret; `block` is the block of keystream at a counter. */
  datatype Crypto = Crypto(tag: Digest -> Tag, block: (Digest, nat) -> Tag,
                           mac: (Digest, seq<byte>) -> Digest, sha: seq<byte> -> Digest)

  const RECORD: nat := 32_928
  const HEADER: nat := 64
  const BODY: nat := 80
  const MAC: nat := 32_896
  const METADATA: nat := 48

  // ----- the cipher

  function Xor(bits: nat, a: nat, b: nat): nat {
    if bits == 0 then 0 else (a + b) % 2 + 2 * Xor(bits - 1, a / 2, b / 2)
  }

  lemma {:induction false} XorTwice(bits: nat, a: nat, b: nat)
    requires a < Power(2, bits)
    ensures Xor(bits, Xor(bits, a, b), b) == a
  {
    hide Xor;
    XorUnfolds(bits, a, b);
    XorUnfolds(bits, Xor(bits, a, b), b);
    if bits > 0 {
      XorTwice(bits - 1, a / 2, b / 2);
      Parity(a, b, Xor(bits - 1, a / 2, b / 2));
    }
  }

  lemma XorUnfolds(bits: nat, a: nat, b: nat)
    ensures Xor(bits, a, b) == if bits == 0 then 0 else (a + b) % 2 + 2 * Xor(bits - 1, a / 2, b / 2)
  {}

  lemma Parity(a: nat, b: nat, rest: nat)
    ensures ((a + b) % 2 + 2 * rest) / 2 == rest
    ensures ((a + b) % 2 + 2 * rest + b) % 2 == a % 2
  {}

  lemma {:induction false} XorBound(bits: nat, a: nat, b: nat)
    ensures Xor(bits, a, b) < Power(2, bits)
  {
    if bits > 0 {
      XorBound(bits - 1, a / 2, b / 2);
    }
  }

  lemma Octet()
    ensures Power(2, 8) == 256
  {
    assert Power(2, 4) == 16;
    PowerAdd(2, 4, 4);
  }

  function XorByte(a: byte, b: byte): (x: byte) {
    Octet();
    XorBound(8, a, b);
    Xor(8, a, b)
  }

  const COUNTERS: nat := 0x1_0000000000000000_0000000000000000

  function BigEndian(s: seq<byte>): nat {
    if s == [] then 0 else 256 * BigEndian(s[..|s| - 1]) + s[|s| - 1]
  }

  /** `Ctr128BE`: byte `k` of the keystream is in the block `k / 16` counters after the initial one. */
  function KeyByte(crypto: Crypto, id: Digest, iv: Tag, k: nat): byte {
    crypto.block(id, (BigEndian(iv) + k / 16) % COUNTERS)[k % 16]
  }

  function Mask(crypto: Crypto, id: Digest, iv: Tag, s: seq<byte>): (t: seq<byte>)
    ensures |t| == |s|
  {
    seq<byte>(|s|, k requires 0 <= k < |s| => XorByte(s[k], KeyByte(crypto, id, iv, k)))
  }

  /** The cipher undoes itself. */
  lemma MaskTwice(crypto: Crypto, id: Digest, iv: Tag, s: seq<byte>)
    ensures Mask(crypto, id, iv, Mask(crypto, id, iv, s)) == s
  {
    hide KeyByte;
    hide Xor;
    var t := Mask(crypto, id, iv, s);
    forall k | 0 <= k < |s| ensures XorByte(t[k], KeyByte(crypto, id, iv, k)) == s[k] {
      Octet();
      XorTwice(8, s[k], KeyByte(crypto, id, iv, k));
    }
  }

  // ----- sealing

  /** The initial counter of a chunk: its index in eight big-endian bytes, then zeros. */
  function Nonce(index: nat): (iv: Tag) {
    Zeros(4) + Reversed(LE(4, index)) + Zeros(8)
  }

  function Reversed(s: seq<byte>): (r: seq<byte>)
    ensures |r| == |s|
  {
    if s == [] then [] else Reversed(s[1..]) + [s[0]]
  }

  /** What every record of one object says about the whole. */
  datatype Meta = Meta(id: Digest, count: nat, total: nat, digest: Digest, contentType: ContentType)

  datatype Chunk = Chunk(meta: Meta, index: nat, bytes: seq<byte>, recordDigest: Digest)

  function Header(crypto: Crypto, meta: Meta, index: nat): (h: seq<byte>)
    ensures |h| == BODY
  {
    Private.Prefix() + meta.id + crypto.tag(meta.id) + LE(4, index) + LE(4, meta.count) + Nonce(index)
  }

  function Content(meta: Meta, bytes: seq<byte>, padding: seq<byte>): seq<byte> {
    meta.digest + LE(8, meta.total) + LE(4, meta.contentType.Code()) + Zeros(4) + bytes + padding
  }

  /** One sealed record: header, masked content, authenticator. */
  function SealRecord(crypto: Crypto, meta: Meta, index: nat, bytes: seq<byte>, padding: seq<byte>): seq<byte> {
    var sealed := Header(crypto, meta, index) + Mask(crypto, meta.id, Nonce(index), Content(meta, bytes, padding));
    sealed + crypto.mac(meta.id, sealed)
  }

  // ----- opening

  datatype RecordHeader = RecordHeader(id: Digest, tag: Tag, index: nat, count: nat)

  /** `inspect_header`. */
  function InspectHeader(record: seq<byte>): (r: Result<RecordHeader>)
    ensures r.Ok? ==> |record| == RECORD && r.value.index < r.value.count
  {
    if |record| != RECORD then Err(Invalid)
    else if ParseKind(record).Err? then Err(ParseKind(record).error)
    else if ParseKind(record).value != Private then Err(Invalid)
    else
      var h := RecordHeader(record[8..40], record[40..56], FromLE(record[56..60]), FromLE(record[60..64]));
      if h.count > 0 && h.index < h.count then Ok(h) else Err(Invalid)
  }

  datatype Match = Unrelated | Authenticated(chunk: Chunk)

  function SizeOf(total: nat, index: nat): nat {
    if total < index * CHUNK then 0 else if total - index * CHUNK < CHUNK then total - index * CHUNK else CHUNK
  }

  /** Reading the deciphered body of an authenticated record. */
  function ReadBody(h: RecordHeader, body: seq<byte>, recordDigest: Digest): Result<Match>
    requires |body| == MAC - BODY
  {
    var total := FromLE(body[32..40]);
    if ChunkCount(total).Err? then Err(ChunkCount(total).error)
    else if ChunkCount(total).value != h.count then Err(Invalid)
    else if ContentTypeOf(FromLE(body[40..44])).Err? then Err(ContentTypeOf(FromLE(body[40..44])).error)
    else if body[44..48] != Zeros(4) then Err(Unsupported)
    else if total < h.index * CHUNK then Err(Missing)
    else
      var meta := Meta(h.id, h.count, total, body[..32], ContentTypeOf(FromLE(body[40..44])).value);
      Ok(Authenticated(Chunk(meta, h.index, body[METADATA..METADATA + SizeOf(total, h.index)], recordDigest)))
  }

  /** `open_record`. */
  function OpenRecord(crypto: Crypto, record: seq<byte>): Result<Match> {
    if !StartsWith(record, MAGIC) then Ok(Unrelated)
    else if ParseKind(record).Err? then Err(ParseKind(record).error)
    else if ParseKind(record).value != Private then Ok(Unrelated)
    else if InspectHeader(record).Err? then Err(InspectHeader(record).error)
    else
      var h := InspectHeader(record).value;
      if h.tag != crypto.tag(h.id) then Ok(Unrelated)
      else if crypto.mac(h.id, record[..MAC]) != record[MAC..] then Err(Invalid)
      else if record[HEADER..BODY] != Nonce(h.index) then Err(Invalid)
      else ReadBody(h, Mask(crypto, h.id, Nonce(h.index), record[BODY..MAC]), crypto.sha(record))
  }

  // ----- what an authenticated chunk is

  predicate WellFormed(c: Chunk) {
    && ChunkCount(c.meta.total) == Ok(c.meta.count)
    && c.index < c.meta.count
    && |c.bytes| == SizeOf(c.meta.total, c.index)
  }

  /** Chunk `index` of a complete length starts within it. */
  lemma OffsetWithin(total: nat, index: nat)
    requires ChunkCount(total).Ok? && index < ChunkCount(total).value
    ensures index * CHUNK < total && 0 < SizeOf(total, index) <= CHUNK
  {}

  /** An authenticated chunk has the size its place demands, and no record fails for its chunk offset. */
  lemma OpenedIsWellFormed(crypto: Crypto, record: seq<byte>)
    ensures var r := OpenRecord(crypto, record);
            && (r.Err? ==> r.error == Invalid || r.error == Unsupported)
            && (r.Ok? && r.value.Authenticated? ==> WellFormed(r.value.chunk) && r.value.chunk.recordDigest == crypto.sha(record))
  {
    hide ParseKind;
    hide FromLE;
    hide Mask;
    hide Nonce;
    hide SizeOf;
    hide Zeros;
    if InspectHeader(record).Ok? {
      KindErrors(record);
      var h := InspectHeader(record).value;
      BodyIsWellFormed(h, Mask(crypto, h.id, Nonce(h.index), record[BODY..MAC]), crypto.sha(record));
    } else {
      KindErrors(record);
    }
  }

  lemma KindErrors(record: seq<byte>)
    ensures ParseKind(record).Err? ==> ParseKind(record).error == Invalid || ParseKind(record).error == Unsupported
  {}

  lemma BodyIsWellFormed(h: RecordHeader, body: seq<byte>, recordDigest: Digest)
    requires |body| == MAC - BODY && h.index < h.count
    ensures var r := ReadBody(h, body, recordDigest);
            && (r.Err? ==> r.error == Invalid || r.error == Unsupported)
            && (r.Ok? ==> r.value.Authenticated? && WellFormed(r.value.chunk) && r.value.chunk.recordDigest == recordDigest)
  {
    hide FromLE;
    hide Zeros;
    hide SizeOf;
    var total := FromLE(body[32..40]);
    if ChunkCount(total) == Ok(h.count) {
      OffsetWithin(total, h.index);
    }
  }

  // ----- round trip of one record

  lemma Cut(a: seq<byte>, b: seq<byte>, c: seq<byte>)
    ensures (a + b + c)[|a|..|a| + |b|] == b
  {}

  /** The fields of a sealed header. */
  lemma HeaderFields(crypto: Crypto, meta: Meta, index: nat)
    ensures var h := Header(crypto, meta, index);
            && StartsWith(h, Private.Prefix()) && h[8..40] == meta.id && h[40..56] == crypto.tag(meta.id)
            && h[56..60] == LE(4, index) && h[60..64] == LE(4, meta.count) && h[64..80] == Nonce(index)
  {
    hide LE;
    hide Nonce;
    var p, t, i, c, n := Private.Prefix(), crypto.tag(meta.id), LE(4, index), LE(4, meta.count), Nonce(index);
    var h := Header(crypto, meta, index);
    assert h == p + meta.id + (t + i + c + n);
    assert h == (p + meta.id) + t + (i + c + n);
    assert h == (p + meta.id + t) + i + (c + n);
  }

  lemma ContentFields(meta: Meta, bytes: seq<byte>, padding: seq<byte>)
    ensures var b := Content(meta, bytes, padding);
            && |b| == METADATA + |bytes| + |padding|
            && b[..32] == meta.digest && b[32..40] == LE(8, meta.total)
            && b[40..44] == LE(4, meta.contentType.Code()) && b[44..48] == Zeros(4)
            && b[METADATA..METADATA + |bytes|] == bytes
  {
    hide LE;
    hide Zeros;
    var d, l, k, z := meta.digest, LE(8, meta.total), LE(4, meta.contentType.Code()), Zeros(4);
    var b := Content(meta, bytes, padding);
    assert b == d + l + (k + z + bytes + padding);
    assert b == (d + l) + k + (z + bytes + padding);
    assert b == (d + l + k) + z + (bytes + padding);
    assert b == (d + l + k + z) + bytes + padding;
  }

  lemma BodyRoundTrip(meta: Meta, index: nat, bytes: seq<byte>, padding: seq<byte>, tag: Tag, recordDigest: Digest)
    requires WellFormed(Chunk(meta, index, bytes, recordDigest)) && |bytes| + |padding| == CHUNK
    ensures |Content(meta, bytes, padding)| == MAC - BODY
    ensures ReadBody(RecordHeader(meta.id, tag, index, meta.count), Content(meta, bytes, padding), recordDigest)
         == Ok(Authenticated(Chunk(meta, index, bytes, recordDigest)))
  {
    hide LE;
    hide Zeros;
    hide Content;
    hide FromLE;
    hide SizeOf;
    ContentFields(meta, bytes, padding);
    Powers();
    FieldRoundTrip(8, meta.total);
    FieldRoundTrip(4, meta.contentType.Code());
    OffsetWithin(meta.total, index);
  }

  /** Opening a sealed record gives its chunk back. */
  lemma RecordRoundTrip(crypto: Crypto, meta: Meta, index: nat, bytes: seq<byte>, padding: seq<byte>)
    requires WellFormed(Chunk(meta, index, bytes, meta.digest)) && |bytes| + |padding| == CHUNK
    ensures var record := SealRecord(crypto, meta, index, bytes, padding);
            && InspectHeader(record) == Ok(RecordHeader(meta.id, crypto.tag(meta.id), index, meta.count))
            && OpenRecord(crypto, record) == Ok(Authenticated(Chunk(meta, index, bytes, crypto.sha(record))))
  {
    hide Header;
    hide Content;
    hide Mask;
    hide Nonce;
    hide ReadBody;
    hide LE;
    hide FromLE;
    hide ParseKind;
    hide SizeOf;
    hide Zeros;
    var record := SealRecord(crypto, meta, index, bytes, padding);
    var head := Header(crypto, meta, index);
    var body := Mask(crypto, meta.id, Nonce(index), Content(meta, bytes, padding));
    BodyRoundTrip(meta, index, bytes, padding, crypto.tag(meta.id), crypto.sha(record));
    MaskTwice(crypto, meta.id, Nonce(index), Content(meta, bytes, padding));
    HeaderFields(crypto, meta, index);
    SealedSlices(head, body, crypto.mac(meta.id, head + body));
    KindIsPrefix(record, Private);
    MagicOf(record);
    Powers();
    FieldRoundTrip(4, index);
    FieldRoundTrip(4, meta.count);
  }

  lemma MagicOf(record: seq<byte>)
    requires StartsWith(record, Private.Prefix())
    ensures StartsWith(record, MAGIC)
  {
    assert record[..4] == record[..8][..4];
  }

  lemma SealedSlices(head: seq<byte>, body: seq<byte>, mac: Digest)
    requires |head| == BODY && |body| == MAC - BODY && StartsWith(head, Private.Prefix())
    ensures var r := head + body + mac;
            && |r| == RECORD && StartsWith(r, Private.Prefix())
            && r[8..40] == head[8..40] && r[40..56] == head[40..56] && r[56..60] == head[56..60]
            && r[60..64] == head[60..64] && r[HEADER..BODY] == head[64..80]
            && r[BODY..MAC] == body && r[..MAC] == head + body && r[MAC..] == mac
  {
    var r := head + body + mac;
    assert r[..BODY] == head;
    assert r[..8] == head[..8];
  }
}
