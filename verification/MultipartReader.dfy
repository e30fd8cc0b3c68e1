/**
 The independent offline reader (`read-multipart.py`): decoding with a cursor, and rebuilding an object
 from its root. Fetching and proving a record is a map from transaction ids to authors and records.
 */
module MultipartReader {
  import opened Bytes
  import opened Positional
  import opened Records
  import opened Multipart

  // ----- the cursor

  /** `Reader`: every read moves the position past what it took, or fails. */
  class Reader {
    const b: seq<byte>
    var pos: nat

    predicate Valid()
      reads this
    {
      pos <= |b|
    }

    constructor (b: seq<byte>)
      ensures this.b == b && pos == 0 && Valid()
    {
      this.b := b;
      pos := 0;
    }

    method Take(n: nat) returns (r: Option<seq<byte>>)
      requires Valid()
      modifies this
      ensures Valid()
      ensures r.Some? <==> old(pos) + n <= |b|
      ensures r.Some? ==> pos == old(pos) + n && r.value == b[old(pos)..pos]
      ensures r.None? ==> pos == old(pos)
    {
      if pos + n > |b| {
        return None;
      }
      r := Some(b[pos..pos + n]);
      pos := pos + n;
    }

    method Number(n: nat) returns (r: Option<nat>)
      requires Valid()
      modifies this
      ensures Valid()
      ensures r.Some? <==> old(pos) + n <= |b|
      ensures r.Some? ==> pos == old(pos) + n && r.value == FromLE(b[old(pos)..pos])
    {
      var s := Take(n);
      if s.None? {
        return None;
      }
      r := Some(FromLE(s.value));
    }

    /** `k` references, one after another. */
    method TakeReferences(k: nat) returns (r: Option<seq<Reference>>)
      requires Valid()
      modifies this
      ensures Valid()
      ensures old(pos) + 64 * k == |b| ==> r == Some(Slice64(b[old(pos)..]))
    {
      hide Slice64;
      var entries: seq<Reference> := [];
      ghost var start := pos;
      if start <= |b| {
        assert [] + Slice64(b[start..]) == Slice64(b[start..]);
      }
      for i := 0 to k
        invariant Valid() && pos == start + 64 * i
        invariant entries + Slice64(b[pos..]) == Slice64(b[start..])
      {
        var txid := Take(32);
        if txid.None? {
          return None;
        }
        var hash := Take(32);
        if hash.None? {
          return None;
        }
        NextReference(b, pos - 64);
        ghost var before := entries;
        entries := entries + [Reference(txid.value, hash.value)];
        assert before + ([Reference(txid.value, hash.value)] + Slice64(b[pos..])) == entries + Slice64(b[pos..]);
      }
      r := Some(entries);
      if pos == |b| {
        NoReferences(b);
        assert entries + [] == entries;
      }
    }
  }

  lemma NextReference(b: seq<byte>, at: nat)
    requires at + 64 <= |b|
    ensures Slice64(b[at..]) == [Reference(b[at..at + 32], b[at + 32..at + 64])] + Slice64(b[at + 64..])
  {
    assert b[at..][..32] == b[at..at + 32] && b[at..][32..64] == b[at + 32..at + 64] && b[at..][64..] == b[at + 64..];
  }

  lemma NoReferences(b: seq<byte>)
    ensures Slice64(b[|b|..]) == []
  {}

  // ----- decoding

  /** `decode` of the script, as far as the prefix. */
  predicate Prefixed(b: seq<byte>) {
    8 <= |b| <= RECORD_BYTES && b[..5] == MAGIC + [0] && b[6..8] == [0, 0]
  }

  lemma PrefixAgrees(b: seq<byte>)
    ensures Prefixed(b) && 1 <= b[5] <= 12 <==> ParseKind(b).Ok? && |b| <= RECORD_BYTES
    ensures ParseKind(b).Ok? ==> |b| >= 8 && ParseKind(b).value == KINDS[b[5] - 1]
  {
    if |b| >= 8 {
      assert b[..5] == b[..4] + [b[4]];
      assert (MAGIC + [0])[..4] == MAGIC && (b[..5])[..4] == b[..4];
    }
  }

  /** What the library's decoder makes of a byte string, without its reasons for refusing. */
  function Accepted(b: seq<byte>): Option<Record> {
    if Decode(b).Ok? then Some(Decode(b).value) else None
  }

  lemma AcceptedByKind(b: seq<byte>)
    requires Prefixed(b)
    ensures b[5] == 7 ==> Accepted(b) == AsOption(DecodeData(b))
    ensures b[5] == 8 ==> Accepted(b) == AsOption(DecodeLeaf(b))
    ensures b[5] == 9 ==> Accepted(b) == AsOption(DecodeRoot(b))
    ensures !(7 <= b[5] <= 9) ==> Accepted(b) == None
  {
    hide DecodeData;
    hide DecodeLeaf;
    hide DecodeRoot;
    PrefixAgrees(b);
  }

  function AsOption(r: Result<Record>): Option<Record> {
    if r.Ok? then Some(r.value) else None
  }

  method ReadData(b: seq<byte>) returns (r: Option<Record>)
    requires Prefixed(b)
    ensures r == AsOption(DecodeData(b))
  {
    hide FromLE;
    var reader := new Reader(b);
    var _ := reader.Take(8);
    var i := reader.Number(4);
    if i.None? || i.value >= DivCeil(MAX_OBJECT, DATA_BYTES) {
      return None;
    }
    var payload := reader.Take(|b| - 12);
    assert b[12..|b|] == b[12..];
    r := Some(Data(i.value, payload.value));
  }

  method ReadLeaf(b: seq<byte>) returns (r: Option<Record>)
    requires Prefixed(b)
    ensures r == AsOption(DecodeLeaf(b))
  {
    hide FromLE;
    hide Slice64;
    var reader := new Reader(b);
    var _ := reader.Take(8);
    var j := reader.Number(2);
    if j.None? { return None; }
    var k := reader.Number(2);
    if k.None? { return None; }
    var first := reader.Number(4);
    if first.None? { return None; }
    if !(j.value < FANOUT && 1 <= k.value <= FANOUT && first.value == j.value * FANOUT) {
      return None;
    }
    if |b| != 16 + 64 * k.value {
      return None;
    }
    var entries := reader.TakeReferences(k.value);
    r := Some(Leaf(j.value, entries.value));
  }

  /** `geometry` of the script. */
  function GeometryPair(length: nat): Option<(nat, nat)> {
    if length > MAX_OBJECT then None
    else
      var n := if (length + DATA_BYTES - 1) / DATA_BYTES < 1 then 1 else (length + DATA_BYTES - 1) / DATA_BYTES;
      Some((n, (n + FANOUT - 1) / FANOUT))
  }

  lemma GeometriesAgree(length: nat)
    ensures GeometryPair(length).Some? <==> NewGeometry(length).Ok?
    ensures NewGeometry(length).Ok? ==> 1 <= NewGeometry(length).value.leaves <= FANOUT
    ensures NewGeometry(length).Ok? ==>
              GeometryPair(length).value == (NewGeometry(length).value.parts, NewGeometry(length).value.leaves)
  {}

  method ReadRoot(b: seq<byte>) returns (r: Option<Record>)
    requires Prefixed(b)
    ensures r == AsOption(DecodeRoot(b))
  {
    hide FromLE;
    hide Slice64;
    hide NewGeometry;
    hide GeometryPair;
    var reader := new Reader(b);
    var _ := reader.Take(8);
    var length := reader.Number(8);
    if length.None? { return None; }
    var digest := reader.Take(32);
    if digest.None? { return None; }
    var n := reader.Number(4);
    if n.None? { return None; }
    var m := reader.Number(2);
    if m.None? { return None; }
    GeometriesAgree(length.value);
    if GeometryPair(length.value) != Some((n.value, m.value)) {
      return None;
    }
    var reserved := reader.Number(2);
    if reserved.None? { return None; }
    if reserved.value != 0 {
      ReservedZero(b[54..56]);
      return None;
    }
    ReservedZero(b[54..56]);
    var profile := reader.Take(8);
    if profile.None? { return None; }
    if |b| != 64 + 64 * m.value {
      return None;
    }
    var entries := reader.TakeReferences(m.value);
    r := Some(Root(length.value, digest.value, profile.value, entries.value));
  }

  lemma ReservedZero(s: seq<byte>)
    requires |s| == 2
    ensures FromLE(s) == 0 <==> s == [0, 0]
  {
    hide Value;
    assert s == [s[0]] + [s[1]] == [s[0], s[1]];
    ValueUnfolds(256, s[0], [s[1]]);
    ValueOne(256, s[1]);
  }

  /** `decode` of the script: it accepts what the library accepts, with the same record. */
  method ReadRecord(b: seq<byte>) returns (r: Option<Record>)
    ensures r == Accepted(b)
  {
    hide DecodeData;
    hide DecodeLeaf;
    hide DecodeRoot;
    hide Accepted;
    hide ParseKind;
    PrefixAgrees(b);
    if !Prefixed(b) {
      RefusedPrefix(b);
      return None;
    }
    AcceptedByKind(b);
    if b[5] == 7 {
      r := ReadData(b);
    } else if b[5] == 8 {
      r := ReadLeaf(b);
    } else if b[5] == 9 {
      r := ReadRoot(b);
    } else {
      r := None;
    }
  }

  lemma RefusedPrefix(b: seq<byte>)
    requires !Prefixed(b)
    ensures Accepted(b) == None
  {
    hide DecodeData;
    hide DecodeLeaf;
    hide DecodeRoot;
    PrefixAgrees(b);
  }
}
