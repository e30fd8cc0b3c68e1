/** Offline containers (`pack` and `unpack` in `container.rs`): a count and length-prefixed private records. */
module Containers {
  import opened Bytes
  import opened Positional
  import opened Records
  import opened PrivateRecords

  const ENTRY: nat := RECORD + 4
  const CONTAINER_HEADER: nat := 12

  type Record = r: seq<byte> | |r| == RECORD witness Zeros(RECORD)
  type Entry = e: seq<byte> | |e| == ENTRY witness Zeros(ENTRY)

  // ----- framing

  /** `as_chunks`: the whole entries at the front of a byte string. */
  function Slices(s: seq<byte>): (entries: seq<Entry>) {
    if |s| < ENTRY then [] else [s[..ENTRY]] + Slices(s[ENTRY..])
  }

  /** `framed_records`; the size of 2^32 entries still fits in 64 bits. */
  function Framed(bytes: seq<byte>): (r: Result<seq<Entry>>)
    ensures r.Ok? ==> |bytes| >= CONTAINER_HEADER + ENTRY && r.value == Slices(bytes[CONTAINER_HEADER..])
  {
    if ParseKind(bytes).Err? then Err(ParseKind(bytes).error)
    else if ParseKind(bytes).value != Container then Err(Invalid)
    else if |bytes| < CONTAINER_HEADER then Err(Invalid)
    else if FromLE(bytes[8..12]) == 0 then Err(Invalid)
    else if |bytes| != FromLE(bytes[8..12]) * ENTRY + CONTAINER_HEADER then Err(Invalid)
    else Ok(Slices(bytes[CONTAINER_HEADER..]))
  }

  /** `framed_record`. */
  function FramedRecord(entry: Entry): Result<Record> {
    if FromLE(entry[..4]) != RECORD then Err(Invalid) else Ok(entry[4..])
  }

  function EntryOf(record: seq<byte>): seq<byte> {
    LE(4, |record|) + record
  }

  /** An entry is accepted exactly when it is the entry of its record. */
  lemma EntryRoundTrip(entry: Entry, record: Record)
    ensures FramedRecord(entry) == Ok(record) <==> entry == EntryOf(record)
  {
    hide LE;
    hide FromLE;
    Powers();
    FieldRoundTrip(4, RECORD);
    FieldIsCanonical(entry[..4]);
    assert EntryOf(record)[..4] == LE(4, RECORD) && EntryOf(record)[4..] == record;
    assert entry == entry[..4] + entry[4..];
  }

  function Flat(entries: seq<seq<byte>>): (s: seq<byte>) {
    if entries == [] then [] else entries[0] + Flat(entries[1..])
  }

  predicate AreEntries(entries: seq<seq<byte>>) {
    forall i :: 0 <= i < |entries| ==> |entries[i]| == ENTRY
  }

  lemma {:induction false} SlicesOfFlat(entries: seq<seq<byte>>)
    requires AreEntries(entries)
    ensures |Flat(entries)| == |entries| * ENTRY && Slices(Flat(entries)) == entries
  {
    if entries != [] {
      var rest: seq<byte> := Flat(entries[1..]);
      assert (entries[0] + rest)[..ENTRY] == entries[0] && (entries[0] + rest)[ENTRY..] == rest;
      SlicesOfFlat(entries[1..]);
    }
  }

  // ----- unpacking

  /** One turn of the first loop of `unpack`. */
  function UnpackEntry(entry: Entry): Result<Record> {
    match FramedRecord(entry)
    case Err(e) => Err(e)
    case Ok(record) => if InspectHeader(record).Err? then Err(InspectHeader(record).error) else Ok(record)
  }

  function UnpackEntries(entries: seq<Entry>): (r: Result<seq<Record>>)
    ensures r.Ok? ==> |r.value| == |entries|
  {
    if entries == [] then Ok([])
    else match UnpackEntry(entries[0])
         case Err(e) => Err(e)
         case Ok(record) => Prepend([record], UnpackEntries(entries[1..]))
  }

  function Prepend(records: seq<Record>, r: Result<seq<Record>>): Result<seq<Record>> {
    match r
    case Err(e) => Err(e)
    case Ok(rest) => Ok(records + rest)
  }

  lemma PrependTwice(a: seq<Record>, b: seq<Record>, r: Result<seq<Record>>)
    ensures Prepend(a, Prepend(b, r)) == Prepend(a + b, r)
  {
    if r.Ok? {
      assert a + (b + r.value) == a + b + r.value;
    }
  }

  predicate Inspected(records: seq<seq<byte>>) {
    forall i :: 0 <= i < |records| ==> InspectHeader(records[i]).Ok?
  }

  predicate SameId(records: seq<seq<byte>>)
    requires Inspected(records)
  {
    forall i :: 0 <= i < |records| ==> InspectHeader(records[i]).value.id == InspectHeader(records[0]).value.id
  }

  /** Unpacked entries are those of their records, and the records have private headers. */
  lemma {:induction false} UnpackedIff(entries: seq<Entry>)
    ensures UnpackEntries(entries).Ok? <==>
              forall i :: 0 <= i < |entries| ==> UnpackEntry(entries[i]).Ok?
    ensures UnpackEntries(entries).Ok? ==>
              forall i :: 0 <= i < |entries| ==> UnpackEntry(entries[i]) == Ok(UnpackEntries(entries).value[i])
  {
    hide UnpackEntry;
    if entries != [] {
      var rest := entries[1..];
      UnpackedIff(rest);
      forall i | 1 <= i < |entries| ensures entries[i] == rest[i - 1] {}
      if UnpackEntries(rest).Err? {
        var j :| 0 <= j < |rest| && UnpackEntry(rest[j]).Err?;
        assert entries[j + 1] == rest[j];
      }
    }
  }

  lemma UnpackedAreInspected(entries: seq<Entry>)
    requires UnpackEntries(entries).Ok?
    ensures Inspected(UnpackEntries(entries).value)
  {
    hide InspectHeader;
    hide FramedRecord;
    hide UnpackEntries;
    UnpackedIff(entries);
    var records := UnpackEntries(entries).value;
    forall i | 0 <= i < |records| ensures InspectHeader(records[i]).Ok? {
      assert UnpackEntry(entries[i]) == Ok(records[i]);
    }
  }

  function Unpacked(bytes: seq<byte>): Result<seq<Record>> {
    match Framed(bytes)
    case Err(e) => Err(e)
    case Ok(entries) =>
      match UnpackEntries(entries)
      case Err(e) => Err(e)
      case Ok(records) =>
        UnpackedAreInspected(entries);
        if SameId(records) then Ok(records) else Err(Invalid)
  }

  /** `unpack`. */
  method Unpack(bytes: seq<byte>) returns (r: Result<seq<Record>>)
    ensures r == Unpacked(bytes)
  {
    hide InspectHeader;
    hide UnpackEntries;
    hide UnpackEntry;
    hide Prepend;
    hide Slices;
    var framed := Framed(bytes);
    if framed.Err? {
      return Err(framed.error);
    }
    var entries := framed.value;
    SlicesExist(bytes[CONTAINER_HEADER..]);
    var records: seq<Record> := [];
    assert entries[0..] == entries;
    NothingPrepended(UnpackEntries(entries));
    for i := 0 to |entries|
      invariant |records| == i
      invariant Prepend(records, UnpackEntries(entries[i..])) == UnpackEntries(entries)
    {
      UnpackUnfolds(entries, i, records);
      var record := UnpackEntry(entries[i]);
      if record.Err? {
        return Err(record.error);
      }
      records := records + [record.value];
    }
    UnpackEnds(entries, records);
    UnpackedAreInspected(entries);
    var id := InspectHeader(records[0]).value.id;
    for i := 0 to |records|
      invariant forall j :: 0 <= j < i ==> InspectHeader(records[j]).value.id == id
    {
      if InspectHeader(records[i]).value.id != id {
        return Err(Invalid);
      }
    }
    r := Ok(records);
  }

  lemma SlicesExist(s: seq<byte>)
    requires |s| >= ENTRY
    ensures Slices(s) != []
  {}

  lemma NothingPrepended(r: Result<seq<Record>>)
    ensures Prepend([], r) == r
  {
    if r.Ok? {
      assert [] + r.value == r.value;
    }
  }

  lemma UnpackUnfolds(entries: seq<Entry>, i: nat, records: seq<Record>)
    requires i < |entries| && Prepend(records, UnpackEntries(entries[i..])) == UnpackEntries(entries)
    ensures var record := UnpackEntry(entries[i]);
            && (record.Err? ==> UnpackEntries(entries) == Err(record.error))
            && (record.Ok? ==> Prepend(records + [record.value], UnpackEntries(entries[i + 1..])) == UnpackEntries(entries))
  {
    hide UnpackEntry;
    assert entries[i..][1..] == entries[i + 1..];
    if UnpackEntry(entries[i]).Ok? {
      PrependTwice(records, [UnpackEntry(entries[i]).value], UnpackEntries(entries[i + 1..]));
    }
  }

  lemma UnpackEnds(entries: seq<Entry>, records: seq<Record>)
    requires Prepend(records, UnpackEntries(entries[|entries|..])) == UnpackEntries(entries)
    ensures UnpackEntries(entries) == Ok(records)
  {
    hide UnpackEntry;
    assert entries[|entries|..] == [];
    assert records + [] == records;
  }

  // ----- packing

  function EntriesOf(records: seq<seq<byte>>): (entries: seq<seq<byte>>)
    ensures |entries| == |records|
    ensures forall i :: 0 <= i < |records| ==> entries[i] == EntryOf(records[i])
  {
    seq(|records|, i requires 0 <= i < |records| => EntryOf(records[i]))
  }

  function Packed(records: seq<seq<byte>>): seq<byte> {
    Container.Prefix() + LE(4, |records|) + Flat(EntriesOf(records))
  }

  predicate Packable(records: seq<seq<byte>>) {
    0 < |records| < U32 && Inspected(records) && SameId(records)
  }

  /** `pack`: fails unless the records are private records of one object. */
  method Pack(records: seq<seq<byte>>) returns (r: Result<seq<byte>>)
    ensures r.Ok? <==> Packable(records)
    ensures r.Ok? ==> r.value == Packed(records)
  {
    hide InspectHeader;
    hide Flat;
    hide EntryOf;
    hide LE;
    if |records| >= U32 {
      return Err(Integer);
    }
    if |records| == 0 {
      return Err(Invalid);
    }
    var first := InspectHeader(records[0]);
    if first.Err? {
      return Err(first.error);
    }
    var bytes := Container.Prefix() + LE(4, |records|);
    ghost var head := bytes;
    FlatNothing();
    assert EntriesOf(records)[..0] == [];
    for i := 0 to |records|
      invariant bytes == head + Flat(EntriesOf(records)[..i])
      invariant forall j :: 0 <= j < i ==> InspectHeader(records[j]).Ok? && InspectHeader(records[j]).value.id == first.value.id
    {
      var header := InspectHeader(records[i]);
      if header.Err? {
        return Err(header.error);
      }
      if header.value.id != first.value.id {
        return Err(Invalid);
      }
      FlatAppend(EntriesOf(records)[..i], EntryOf(records[i]));
      assert EntriesOf(records)[..i + 1] == EntriesOf(records)[..i] + [EntryOf(records[i])];
      bytes := bytes + EntryOf(records[i]);
    }
    assert EntriesOf(records)[..|records|] == EntriesOf(records);
    r := Ok(bytes);
  }

  lemma FlatNothing()
    ensures Flat([]) == []
  {}

  lemma {:induction false} FlatAppend(entries: seq<seq<byte>>, e: seq<byte>)
    ensures Flat(entries + [e]) == Flat(entries) + e
  {
    if entries == [] {
      assert entries + [e] == [e];
      assert [e][1..] == [];
    } else {
      assert (entries + [e])[1..] == entries[1..] + [e];
      FlatAppend(entries[1..], e);
    }
  }

  lemma PackedIsFramed(records: seq<seq<byte>>)
    requires 0 < |records| < U32 && AreEntries(EntriesOf(records))
    ensures Framed(Packed(records)) == Ok(EntriesOf(records))
  {
    hide LE;
    hide FromLE;
    hide ParseKind;
    hide Slices;
    hide EntriesOf;
    var bytes, tail := Packed(records), Flat(EntriesOf(records));
    var p, n := Container.Prefix(), LE(4, |records|);
    Cut(p, n, tail);
    assert bytes[8..12] == n;
    assert bytes[CONTAINER_HEADER..] == tail;
    assert bytes[..8] == p;
    KindIsPrefix(bytes, Container);
    Powers();
    FieldRoundTrip(4, |records|);
    SlicesOfFlat(EntriesOf(records));
  }

  /** Unpacking undoes packing. */
  lemma PackRoundTrip(records: seq<seq<byte>>)
    requires Packable(records)
    ensures Unpacked(Packed(records)) == Ok(records)
  {
    hide InspectHeader;
    hide Framed;
    hide Packed;
    hide UnpackEntries;
    hide FramedRecord;
    hide EntryOf;
    var entries := EntriesOf(records);
    forall i | 0 <= i < |entries| ensures |entries[i]| == ENTRY && UnpackEntry(entries[i]) == Ok(records[i]) {
      EntrySize(records[i]);
      EntryRoundTrip(entries[i], records[i]);
    }
    PackedIsFramed(records);
    UnpackedIff(entries);
    assert UnpackEntries(entries).value == records;
  }

  lemma EntrySize(record: seq<byte>)
    ensures |EntryOf(record)| == |record| + 4
  {}
}
