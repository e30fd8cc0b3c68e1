/**
 Multipart objects (`multipart.rs`): the geometry of parts and leaves, and the byte form of the three
 kinds of record, as the library writes and reads them and as the independent script reads them.
 */
module Multipart {
  import opened Bytes
  import opened Positional
  import opened Records

  const RECORD_BYTES: nat := 262_144
  const DATA_BYTES: nat := 262_132
  const FANOUT: nat := 511
  const MAX_PARTS: nat := 32_630
  const MAX_OBJECT: nat := 8_553_279_476
  const MAX_NODES: nat := 32_695

  // ----- geometry

  datatype Geometry = Geometry(length: nat, parts: nat, leaves: nat) {
    predicate Valid() {
      NewGeometry(length) == Ok(this)
    }

    function Nodes(): nat {
      parts + leaves + 1
    }

    /** `part_length`, where the part exists. */
    function PartLength(i: nat): nat
      requires Valid() && i < parts
    {
      PartStarts(this, i);
      if length - i * DATA_BYTES < DATA_BYTES then length - i * DATA_BYTES else DATA_BYTES
    }

    /** `leaf_entries`, where the leaf exists. */
    function LeafEntries(j: nat): nat
      requires Valid() && j < leaves
    {
      if parts - j * FANOUT < FANOUT then parts - j * FANOUT else FANOUT
    }
  }

  /** `Geometry::new`: no width is ever exceeded. */
  function NewGeometry(length: nat): (r: Result<Geometry>)
    ensures r.Ok? <==> length <= MAX_OBJECT
    ensures r.Err? ==> r.error == Invalid
  {
    if length > MAX_OBJECT then Err(Invalid)
    else
      var parts := if DivCeil(length, DATA_BYTES) < 1 then 1 else DivCeil(length, DATA_BYTES);
      if parts >= U32 then Err(Integer)
      else
        var leaves := DivCeil(parts, FANOUT);
        if leaves >= 0x10000 then Err(Integer) else Ok(Geometry(length, parts, leaves))
  }

  lemma PartStarts(g: Geometry, i: nat)
    requires g.Valid() && i < g.parts
    ensures i * DATA_BYTES <= g.length && (i > 0 ==> i * DATA_BYTES < g.length)
  {}

  /** The bounds of every geometry. */
  lemma GeometryBounds(g: Geometry)
    requires g.Valid()
    ensures 1 <= g.parts <= MAX_PARTS && 1 <= g.leaves <= 64 && g.Nodes() <= MAX_NODES
    ensures g.length <= g.parts * DATA_BYTES && g.parts <= g.leaves * FANOUT && (g.leaves - 1) * FANOUT < g.parts
  {}

  /** The bytes in the first `n` parts. */
  function PartsLength(g: Geometry, n: nat): nat
    requires g.Valid() && n <= g.parts
  {
    if n == 0 then 0 else PartsLength(g, n - 1) + g.PartLength(n - 1)
  }

  /** The parts in the first `n` leaves. */
  function LeavesParts(g: Geometry, n: nat): nat
    requires g.Valid() && n <= g.leaves
  {
    if n == 0 then 0 else LeavesParts(g, n - 1) + g.LeafEntries(n - 1)
  }

  /** Each part starts where the one before it ends, and the last ends with the object. */
  lemma {:induction false} PartsPartition(g: Geometry, n: nat)
    requires g.Valid() && n <= g.parts
    ensures PartsLength(g, n) == if n < g.parts then n * DATA_BYTES else g.length
  {
    if n > 0 {
      PartsPartition(g, n - 1);
      PartEnds(g, n - 1);
    }
  }

  lemma PartEnds(g: Geometry, i: nat)
    requires g.Valid() && i < g.parts
    ensures i * DATA_BYTES + g.PartLength(i) == if i + 1 < g.parts then (i + 1) * DATA_BYTES else g.length
    ensures g.length > 0 ==> g.PartLength(i) > 0
  {
    GeometryBounds(g);
    PartStarts(g, i);
    if i + 1 < g.parts {
      PartStarts(g, i + 1);
    }
  }

  /** Each leaf starts where the one before it ends, and the last ends with the parts. */
  lemma {:induction false} LeavesPartition(g: Geometry, n: nat)
    requires g.Valid() && n <= g.leaves
    ensures LeavesParts(g, n) == if n < g.leaves then n * FANOUT else g.parts
  {
    GeometryBounds(g);
    if n > 0 {
      LeavesPartition(g, n - 1);
    }
  }

  // ----- records

  type Hash = s: seq<byte> | |s| == 32 witness Zeros(32)
  type Tag = s: seq<byte> | |s| == 8 witness Zeros(8)

  datatype Reference = Reference(txid: Hash, recordHash: Hash)

  datatype Record =
    | Data(index: nat, payload: seq<byte>)
    | Leaf(index: nat, entries: seq<Reference>)
    | Root(length: nat, payloadHash: Hash, profile: Tag, entries: seq<Reference>)
  {
    function Kind(): Kind {
      match this
      case Data(_, _) => DataPart
      case Leaf(_, _) => LeafManifest
      case Root(_, _, _, _) => RootManifest
    }

    /** What encoding accepts. */
    predicate Encodable() {
      match this
      case Data(i, payload) => i < MAX_PARTS && |payload| <= DATA_BYTES
      case Leaf(i, entries) => i < FANOUT && 1 <= |entries| <= FANOUT
      case Root(length, _, _, entries) => length <= MAX_OBJECT && |entries| == NewGeometry(length).value.leaves
    }

    /** The fields between the prefix and the payload or references. */
    function Fields(): seq<byte>
      requires Encodable()
    {
      match this
      case Data(i, _) => LE(4, i)
      case Leaf(i, entries) => LE(2, i) + LE(2, |entries|) + LE(4, i * FANOUT)
      case Root(length, hash, profile, _) =>
        var g := NewGeometry(length).value;
        LE(8, length) + hash + LE(4, g.parts) + LE(2, g.leaves) + [0, 0] + profile
    }

    function Tail(): seq<byte> {
      match this
      case Data(_, payload) => payload
      case Leaf(_, entries) => References(entries)
      case Root(_, _, _, entries) => References(entries)
    }

    function Encoded(): seq<byte>
      requires Encodable()
    {
      Kind().Prefix() + Fields() + Tail()
    }
  }

  function ReferenceBytes(r: Reference): (s: seq<byte>)
    ensures |s| == 64
  {
    r.txid + r.recordHash
  }

  function References(entries: seq<Reference>): (s: seq<byte>)
    ensures |s| == 64 * |entries|
  {
    if entries == [] then [] else ReferenceBytes(entries[0]) + References(entries[1..])
  }

  /** `encode_references`. */
  method EncodeReferences(bytes: seq<byte>, entries: seq<Reference>) returns (r: seq<byte>)
    ensures r == bytes + References(entries)
  {
    hide ReferenceBytes;
    r := bytes;
    assert entries[0..] == entries;
    for i := 0 to |entries|
      invariant r + References(entries[i..]) == bytes + References(entries)
    {
      assert entries[i..][1..] == entries[i + 1..];
      ghost var before := r;
      r := r + ReferenceBytes(entries[i]);
      assert before + (ReferenceBytes(entries[i]) + References(entries[i + 1..])) == r + References(entries[i + 1..]);
    }
    assert entries[|entries|..] == [];
    assert r + [] == r;
  }

  /** `encode`. */
  method Encode(record: Record) returns (r: Result<seq<byte>>)
    ensures r.Ok? <==> record.Encodable()
    ensures r.Ok? ==> r.value == record.Encoded()
    ensures r.Ok? ==> |r.value| <= RECORD_BYTES
  {
    hide LE;
    hide References;
    var bytes := record.Kind().Prefix();
    match record {
      case Data(index, payload) =>
        if index >= MAX_PARTS || |payload| > DATA_BYTES {
          return Err(Invalid);
        }
        bytes := bytes + LE(4, index);
        bytes := bytes + payload;
      case Leaf(index, entries) =>
        if index >= FANOUT || |entries| < 1 || |entries| > FANOUT {
          return Err(Invalid);
        }
        bytes := bytes + (LE(2, index) + LE(2, |entries|) + LE(4, index * FANOUT));
        bytes := EncodeReferences(bytes, entries);
      case Root(length, payloadHash, profile, entries) =>
        var geometry := NewGeometry(length);
        if geometry.Err? {
          return Err(geometry.error);
        }
        if |entries| != geometry.value.leaves {
          return Err(Invalid);
        }
        GeometryBounds(geometry.value);
        bytes := bytes + (LE(8, length) + payloadHash + LE(4, geometry.value.parts) + LE(2, geometry.value.leaves)
                          + [0, 0] + profile);
        bytes := EncodeReferences(bytes, entries);
    }
    r := Ok(bytes);
  }

  // ----- decoding

  function Slice64(bytes: seq<byte>): (entries: seq<Reference>)
    ensures |entries| == |bytes| / 64
  {
    if |bytes| < 64 then [] else [Reference(bytes[..32], bytes[32..64])] + Slice64(bytes[64..])
  }

  /** `decode_references`. */
  function DecodeReferences(bytes: seq<byte>, count: nat): Result<seq<Reference>> {
    if !(1 <= count <= FANOUT) then Err(Invalid)
    else if |bytes| != 64 * count then Err(Invalid)
    else Ok(Slice64(bytes))
  }

  function DecodeData(bytes: seq<byte>): Result<Record> {
    if |bytes| < 12 then Err(Invalid)
    else if FromLE(bytes[8..12]) >= MAX_PARTS then Err(Invalid)
    else Ok(Data(FromLE(bytes[8..12]), bytes[12..]))
  }

  function DecodeLeaf(bytes: seq<byte>): Result<Record> {
    if |bytes| < 16 then Err(Invalid)
    else
      var index, count, first := FromLE(bytes[8..10]), FromLE(bytes[10..12]), FromLE(bytes[12..16]);
      if !(index < FANOUT && first == index * FANOUT) then Err(Invalid)
      else match DecodeReferences(bytes[16..], count)
           case Err(e) => Err(e)
           case Ok(entries) => Ok(Leaf(index, entries))
  }

  function DecodeRoot(bytes: seq<byte>): Result<Record> {
    if |bytes| < 64 then Err(Invalid)
    else if NewGeometry(FromLE(bytes[8..16])).Err? then Err(Invalid)
    else
      var g := NewGeometry(FromLE(bytes[8..16])).value;
      if !(FromLE(bytes[48..52]) == g.parts && FromLE(bytes[52..54]) == g.leaves) then Err(Invalid)
      else if bytes[54..56] != [0, 0] then Err(Invalid)
      else match DecodeReferences(bytes[64..], FromLE(bytes[52..54]))
           case Err(e) => Err(e)
           case Ok(entries) => Ok(Root(FromLE(bytes[8..16]), bytes[16..48], bytes[56..64], entries))
  }

  /** `decode`. */
  function Decode(bytes: seq<byte>): Result<Record> {
    if ParseKind(bytes).Err? then Err(ParseKind(bytes).error)
    else if |bytes| > RECORD_BYTES then Err(Invalid)
    else match ParseKind(bytes).value
         case DataPart => DecodeData(bytes)
         case LeafManifest => DecodeLeaf(bytes)
         case RootManifest => DecodeRoot(bytes)
         case _ => Err(Invalid)
  }

  // ----- round trips

  lemma {:induction false} ReferencesRoundTrip(entries: seq<Reference>)
    ensures Slice64(References(entries)) == entries
  {
    if entries != [] {
      var e, rest := entries[0], References(entries[1..]);
      var s := ReferenceBytes(e) + rest;
      assert s[..32] == e.txid && s[32..64] == e.recordHash && s[64..] == rest;
      ReferencesRoundTrip(entries[1..]);
    }
  }

  lemma {:induction false} ReferencesAreCanonical(bytes: seq<byte>)
    requires |bytes| % 64 == 0
    ensures References(Slice64(bytes)) == bytes
  {
    if |bytes| >= 64 {
      ReferencesAreCanonical(bytes[64..]);
      var entries := Slice64(bytes);
      assert entries[1..] == Slice64(bytes[64..]);
      assert bytes[..32] + bytes[32..64] + bytes[64..] == bytes;
    }
  }

  lemma Slices2(p: seq<byte>, f: seq<byte>, t: seq<byte>, lo: nat, hi: nat)
    requires lo <= hi <= |f|
    ensures (p + f + t)[|p| + lo..|p| + hi] == f[lo..hi]
    ensures (p + f + t)[|p| + |f|..] == t && (p + f + t)[..|p|] == p
  {}

  lemma EncodedParses(record: Record)
    requires record.Encodable()
    ensures ParseKind(record.Encoded()) == Ok(record.Kind())
  {
    hide LE;
    hide ParseKind;
    hide Record.Fields;
    hide Record.Tail;
    var bytes := record.Encoded();
    assert bytes[..8] == record.Kind().Prefix();
    KindIsPrefix(bytes, record.Kind());
  }

  lemma EncodedData(record: Record)
    requires record.Data? && record.Encodable()
    ensures |record.Encoded()| <= RECORD_BYTES && DecodeData(record.Encoded()) == Ok(record)
  {
    hide LE;
    hide FromLE;
    var p, f, t := record.Kind().Prefix(), record.Fields(), record.Tail();
    Slices2(p, f, t, 0, 4);
    assert f[0..4] == f;
    Powers();
    FieldRoundTrip(4, record.index);
  }

  lemma EncodedLeaf(record: Record)
    requires record.Leaf? && record.Encodable()
    ensures |record.Encoded()| <= RECORD_BYTES && DecodeLeaf(record.Encoded()) == Ok(record)
  {
    hide LE;
    hide FromLE;
    hide References;
    hide Slice64;
    var p, f, t := record.Kind().Prefix(), record.Fields(), record.Tail();
    Slices2(p, f, t, 0, 2);
    Slices2(p, f, t, 2, 4);
    Slices2(p, f, t, 4, 8);
    assert f[0..2] == LE(2, record.index) && f[2..4] == LE(2, |record.entries|) && f[4..8] == LE(4, record.index * FANOUT);
    Powers();
    FieldRoundTrip(2, record.index);
    FieldRoundTrip(2, |record.entries|);
    FieldRoundTrip(4, record.index * FANOUT);
    ReferencesRoundTrip(record.entries);
  }

  lemma RootFields(length: nat, hash: Hash, parts: nat, leaves: nat, profile: Tag)
    ensures var f := LE(8, length) + hash + LE(4, parts) + LE(2, leaves) + [0, 0] + profile;
            && |f| == 56 && f[0..8] == LE(8, length) && f[8..40] == hash && f[40..44] == LE(4, parts)
            && f[44..46] == LE(2, leaves) && f[46..48] == [0, 0] && f[48..56] == profile
  {
    hide LE;
  }

  lemma EncodedRoot(record: Record)
    requires record.Root? && record.Encodable()
    ensures |record.Encoded()| <= RECORD_BYTES && DecodeRoot(record.Encoded()) == Ok(record)
  {
    hide LE;
    hide FromLE;
    hide References;
    hide Slice64;
    hide NewGeometry;
    var p, f, t := record.Kind().Prefix(), record.Fields(), record.Tail();
    var g := NewGeometry(record.length).value;
    GeometryOf(record.length);
    GeometryBounds(g);
    RootFields(record.length, record.payloadHash, g.parts, g.leaves, record.profile);
    Slices2(p, f, t, 0, 8);
    Slices2(p, f, t, 8, 40);
    Slices2(p, f, t, 40, 44);
    Slices2(p, f, t, 44, 46);
    Slices2(p, f, t, 46, 48);
    Slices2(p, f, t, 48, 56);
    Powers();
    FieldRoundTrip(8, record.length);
    FieldRoundTrip(4, g.parts);
    FieldRoundTrip(2, g.leaves);
    ReferencesRoundTrip(record.entries);
  }

  lemma GeometryOf(length: nat)
    requires length <= MAX_OBJECT
    ensures NewGeometry(length).value.Valid() && NewGeometry(length).value.length == length
  {}

  /** Decoding undoes encoding. */
  lemma EncodeThenDecode(record: Record)
    requires record.Encodable()
    ensures |record.Encoded()| <= RECORD_BYTES && Decode(record.Encoded()) == Ok(record)
  {
    hide DecodeData;
    hide DecodeLeaf;
    hide DecodeRoot;
    hide ParseKind;
    hide Record.Encoded;
    hide Record.Encodable;
    EncodedParses(record);
    match record {
      case Data(_, _) => EncodedData(record);
      case Leaf(_, _) => EncodedLeaf(record);
      case Root(_, _, _, _) => EncodedRoot(record);
    }
  }

  lemma DecodedData(bytes: seq<byte>)
    requires |bytes| <= RECORD_BYTES && DecodeData(bytes).Ok?
    ensures var r := DecodeData(bytes).value; r.Data? && r.Encodable() && r.Fields() + r.Tail() == bytes[8..]
  {
    hide LE;
    hide FromLE;
    FieldIsCanonical(bytes[8..12]);
    assert bytes[8..12] + bytes[12..] == bytes[8..];
  }

  lemma DecodedLeaf(bytes: seq<byte>)
    requires DecodeLeaf(bytes).Ok?
    ensures var r := DecodeLeaf(bytes).value; r.Leaf? && r.Encodable() && r.Fields() + r.Tail() == bytes[8..]
  {
    hide LE;
    hide FromLE;
    hide References;
    hide Slice64;
    FieldIsCanonical(bytes[8..10]);
    FieldIsCanonical(bytes[10..12]);
    FieldIsCanonical(bytes[12..16]);
    ReferencesAreCanonical(bytes[16..]);
    assert bytes[8..10] + bytes[10..12] + bytes[12..16] + bytes[16..] == bytes[8..];
  }

  lemma DecodedRoot(bytes: seq<byte>)
    requires DecodeRoot(bytes).Ok?
    ensures var r := DecodeRoot(bytes).value; r.Root? && r.Encodable() && r.Fields() + r.Tail() == bytes[8..]
  {
    hide LE;
    hide FromLE;
    hide References;
    hide Slice64;
    hide NewGeometry;
    FieldIsCanonical(bytes[8..16]);
    FieldIsCanonical(bytes[48..52]);
    FieldIsCanonical(bytes[52..54]);
    ReferencesAreCanonical(bytes[64..]);
    RootBytes(bytes);
  }

  lemma RootBytes(bytes: seq<byte>)
    requires |bytes| >= 64
    ensures bytes[8..16] + bytes[16..48] + bytes[48..52] + bytes[52..54] + bytes[54..56] + bytes[56..64] + bytes[64..] == bytes[8..]
  {
    assert bytes[8..48] == bytes[8..16] + bytes[16..48];
    assert bytes[8..54] == bytes[8..48] + bytes[48..52] + bytes[52..54];
    assert bytes[8..64] == bytes[8..54] + bytes[54..56] + bytes[56..64];
    assert bytes[8..] == bytes[8..64] + bytes[64..];
  }

  /** Encoding undoes decoding: every accepted byte string is the encoding of its record. */
  lemma DecodeThenEncode(bytes: seq<byte>)
    requires Decode(bytes).Ok?
    ensures Decode(bytes).value.Encodable() && Decode(bytes).value.Encoded() == bytes
  {
    hide DecodeData;
    hide DecodeLeaf;
    hide DecodeRoot;
    hide ParseKind;
    hide Record.Fields;
    hide Record.Tail;
    hide Record.Encodable;
    var kind := ParseKind(bytes).value;
    KindIsPrefix(bytes, kind);
    assert bytes == bytes[..8] + bytes[8..];
    match kind {
      case DataPart => DecodedData(bytes);
      case LeafManifest => DecodedLeaf(bytes);
      case RootManifest => DecodedRoot(bytes);
      case _ =>
    }
    var r := Decode(bytes).value;
    assert r.Kind().Prefix() + r.Fields() + r.Tail() == r.Kind().Prefix() + (r.Fields() + r.Tail());
  }
}
