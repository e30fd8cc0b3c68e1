/** Recovery does not depend on the order of records, and agrees with the strict reader of containers. */
module RecoveryOrder {
  import opened Bytes
  import opened Records
  import opened PrivateRecords
  import opened PrivateObjects
  import opened PrivateFiles
  import opened Containers
  import opened Recovery

  // ----- order

  /** Two different records with one digest. */
  predicate Collides(crypto: Crypto, records: seq<seq<byte>>) {
    exists r, s :: r in records && s in records && r != s && crypto.sha(r) == crypto.sha(s)
  }

  predicate Gives(crypto: Crypto, r: seq<byte>, c: Chunk) {
    Classify(crypto, r) == Take(c)
  }

  lemma {:induction false} TakenFrom(crypto: Crypto, records: seq<seq<byte>>, c: Chunk)
    ensures c in Taken(crypto, records) <==> exists r :: r in records && Gives(crypto, r, c)
  {
    hide Classify;
    if records != [] {
      var head, rest := records[0], records[1..];
      TakenFrom(crypto, rest, c);
      assert records == [head] + rest;
      if Gives(crypto, head, c) {
        assert head in records;
      }
    }
  }

  lemma {:induction false} TallyConcat(crypto: Crypto, a: seq<seq<byte>>, b: seq<seq<byte>>)
    ensures Skipped(crypto, a + b) == Skipped(crypto, a) + Skipped(crypto, b)
    ensures Rejected(crypto, a + b) == Rejected(crypto, a) + Rejected(crypto, b)
  {
    hide Classify;
    if a == [] {
      assert a + b == b;
    } else {
      assert (a + b)[1..] == a[1..] + b;
      TallyConcat(crypto, a[1..], b);
    }
  }

  /** Counts are those of the multiset. */
  lemma {:induction false} TallyIgnoresOrder(crypto: Crypto, a: seq<seq<byte>>, b: seq<seq<byte>>)
    requires multiset(a) == multiset(b)
    ensures Skipped(crypto, a) == Skipped(crypto, b)
    ensures Rejected(crypto, a) == Rejected(crypto, b)
    decreases |a|
  {
    hide Classify;
    hide Skipped;
    hide Rejected;
    if a == [] {
      Emptied(b);
    } else {
      var x, rest := a[0], a[1..];
      assert a == [x] + rest;
      var before, after := Without(a, b);
      TallyIgnoresOrder(crypto, rest, before + after);
      TallyConcat(crypto, [x], rest);
      TallyConcat(crypto, before, after);
      TallyConcat(crypto, before, [x] + after);
      TallyConcat(crypto, [x], after);
    }
  }

  lemma Emptied<T>(b: seq<T>)
    requires multiset(b) == multiset{}
    ensures b == []
  {
    assert |multiset(b)| == |b|;
  }

  /** What is around one occurrence of the first of `a` in `b`. */
  lemma Without<T>(a: seq<T>, b: seq<T>) returns (before: seq<T>, after: seq<T>)
    requires a != [] && multiset(a) == multiset(b)
    ensures b == before + ([a[0]] + after) && multiset(a[1..]) == multiset(before + after)
  {
    var x := a[0];
    assert a == [x] + a[1..];
    assert x in multiset(b);
    var k :| 0 <= k < |b| && b[k] == x;
    before, after := b[..k], b[k + 1..];
    assert b == before + ([x] + after);
    Parts(before, x, after);
    Parts([], x, a[1..]);
    assert [] + ([x] + a[1..]) == a && [] + a[1..] == a[1..];
    Cancel(multiset(a[1..]), multiset(before + after), multiset{x});
  }

  lemma Parts<T>(before: seq<T>, x: T, after: seq<T>)
    ensures multiset(before + ([x] + after)) == multiset(before + after) + multiset{x}
  {
    assert multiset([x] + after) == multiset{x} + multiset(after);
    assert multiset(before + ([x] + after)) == multiset(before) + multiset([x] + after);
    assert multiset(before + after) == multiset(before) + multiset(after);
  }

  lemma Cancel<T>(m: multiset<T>, n: multiset<T>, x: multiset<T>)
    requires m + x == n + x
    ensures m == n
  {
    assert m == (m + x) - x && n == (n + x) - x;
  }

  lemma TakenIgnoresOrder(crypto: Crypto, a: seq<seq<byte>>, b: seq<seq<byte>>, c: Chunk)
    requires multiset(a) == multiset(b)
    ensures c in Taken(crypto, a) <==> c in Taken(crypto, b)
  {
    hide Gives;
    hide Taken;
    TakenFrom(crypto, a, c);
    TakenFrom(crypto, b, c);
    forall r ensures r in a <==> r in b {
      assert r in a <==> r in multiset(a);
      assert r in b <==> r in multiset(b);
    }
  }

  /** Each chunk taken from `records` at one index is the same chunk, unless two records collide. */
  lemma SameDigestSameChunk(crypto: Crypto, records: seq<seq<byte>>, c: Chunk, d: Chunk)
    requires c in Taken(crypto, records) && d in Taken(crypto, records) && c.recordDigest == d.recordDigest
    ensures c == d || Collides(crypto, records)
  {
    hide Classify;
    hide Taken;
    TakenFrom(crypto, records, c);
    TakenFrom(crypto, records, d);
    var r :| r in records && Gives(crypto, r, c);
    var s :| s in records && Gives(crypto, s, d);
    NothingIsFatal(crypto, r);
    NothingIsFatal(crypto, s);
  }

  ghost predicate SameMembers(cs: seq<Chunk>, ds: seq<Chunk>) {
    forall c :: c in cs <==> c in ds
  }

  lemma CompatibilityIgnoresOrder(cs: seq<Chunk>, ds: seq<Chunk>)
    requires SameMembers(cs, ds)
    ensures AllCompatible(cs) <==> AllCompatible(ds)
    ensures cs == [] <==> ds == []
  {
    hide Compatible;
    if cs != [] { assert cs[0] in ds; }
    if ds != [] { assert ds[0] in cs; }
  }

  /** One digest names one chunk. */
  predicate Named(cs: seq<Chunk>) {
    forall c, d :: c in cs && d in cs && c.recordDigest == d.recordDigest ==> c == d
  }

  lemma GatherIgnoresOrder(cs: seq<Chunk>, ds: seq<Chunk>)
    requires cs != [] && ds != [] && SameMembers(cs, ds) && Named(cs) && Gather(cs).Some? && Gather(ds).Some?
    ensures Gather(cs) == Gather(ds)
  {
    hide Gather;
    hide AllCompatible;
    GatherIff(cs);
    GatherIff(ds);
    var o, q := Gather(cs).value, Gather(ds).value;
    assert cs[0] in cs && cs[0] in ds;
    assert o.meta == q.meta;
    forall i | i in o.chunks ensures i in q.chunks && q.chunks[i] == o.chunks[i] {
      assert o.chunks[i] in ds;
      assert q.chunks[i] in cs;
    }
    forall i | i in q.chunks ensures i in o.chunks {
      assert q.chunks[i] in cs;
    }
    assert o.chunks == q.chunks;
  }

  /**
   Recovery of the same records in any order is the same recovery, or two of them are different with the
   same digest.
   */
  lemma RecoveryIgnoresOrder(crypto: Crypto, a: seq<seq<byte>>, b: seq<seq<byte>>)
    requires multiset(a) == multiset(b)
    ensures RecoverRecords(crypto, a) == RecoverRecords(crypto, b) || Collides(crypto, a)
  {
    hide RecoverRecords;
    hide Collides;
    hide Taken;
    hide Gather;
    hide Finished;
    hide AllCompatible;
    hide Skipped;
    hide Rejected;
    RecoveryIsSummary(crypto, a);
    RecoveryIsSummary(crypto, b);
    TallyIgnoresOrder(crypto, a, b);
    var cs, ds := Taken(crypto, a), Taken(crypto, b);
    forall c ensures c in cs <==> c in ds { TakenIgnoresOrder(crypto, a, b, c); }
    CompatibilityIgnoresOrder(cs, ds);
    if !Collides(crypto, a) && cs != [] {
      GatherIff(cs);
      GatherIff(ds);
      forall c, d | c in cs && d in cs && c.recordDigest == d.recordDigest ensures c == d {
        SameDigestSameChunk(crypto, a, c, d);
      }
      if Gather(cs).Some? {
        GatherIgnoresOrder(cs, ds);
      }
    }
  }

  lemma {:induction false} EntriesIgnoreOrder(a: seq<Entry>, b: seq<Entry>)
    requires multiset(a) == multiset(b)
    ensures multiset(RecordsOf(a)) == multiset(RecordsOf(b))
    ensures AllFramed(a) <==> AllFramed(b)
    decreases |a|
  {
    hide FramedRecord;
    hide RecordsOf;
    hide AllFramed;
    if a == [] {
      Emptied(b);
    } else {
      var x, rest := a[0], a[1..];
      var before, after := Without(a, b);
      assert [] + ([x] + rest) == a && [] + rest == rest;
      EntriesIgnoreOrder(rest, before + after);
      EntrySplit([], x, rest);
      EntrySplit(before, x, after);
    }
  }

  lemma EntrySplit(before: seq<Entry>, x: Entry, after: seq<Entry>)
    ensures var all := before + ([x] + after);
            && multiset(RecordsOf(all)) == multiset(RecordsOf(before + after)) + multiset{x[4..]}
            && (AllFramed(all) <==> AllFramed(before + after) && FramedRecord(x).Ok?)
  {
    hide FramedRecord;
    var all, less := before + ([x] + after), before + after;
    FramedSplit(before, x, after);
    assert RecordsOf(all) == RecordsOf(before) + ([x[4..]] + RecordsOf(after));
    assert RecordsOf(less) == RecordsOf(before) + RecordsOf(after);
    Parts(RecordsOf(before), x[4..], RecordsOf(after));
  }

  lemma FramedSplit(before: seq<Entry>, x: Entry, after: seq<Entry>)
    ensures AllFramed(before + ([x] + after)) <==> AllFramed(before + after) && FramedRecord(x).Ok?
  {
    hide FramedRecord;
    var all, less, k := before + ([x] + after), before + after, |before|;
    assert all[k] == x;
    if AllFramed(all) {
      forall i | 0 <= i < |less| ensures FramedRecord(less[i]).Ok? {
        assert less[i] == if i < k then all[i] else all[i + 1];
      }
    }
    if AllFramed(less) && FramedRecord(x).Ok? {
      forall i | 0 <= i < |all| ensures FramedRecord(all[i]).Ok? {
        assert i < k ==> all[i] == less[i];
        assert i > k ==> all[i] == less[i - 1];
      }
    }
  }

  /** Two containers with the same entries in any order are recovered alike, or show a collision. */
  lemma ContainersIgnoreOrder(crypto: Crypto, x: seq<byte>, y: seq<byte>)
    requires Framed(x).Ok? && Framed(y).Ok? && multiset(Framed(x).value) == multiset(Framed(y).value)
    ensures RecoverContainer(crypto, x) == RecoverContainer(crypto, y) || Collides(crypto, RecordsOf(Framed(x).value))
  {
    hide Framed;
    hide AllFramed;
    hide RecordsOf;
    hide RecoverRecords;
    hide Collides;
    var a, b := Framed(x).value, Framed(y).value;
    EntriesIgnoreOrder(a, b);
    RecoveryIgnoresOrder(crypto, RecordsOf(a), RecordsOf(b));
  }

  /** A recovery accounts for every entry, with as many authenticated ones as the rest leaves. */
  lemma RecoveryAccounts(crypto: Crypto, records: seq<seq<byte>>)
    requires RecoverRecords(crypto, records).Ok?
    ensures var r := RecoverRecords(crypto, records).value;
            && r.skipped + r.rejected + |Taken(crypto, records)| == |records|
            && |r.bytes| == r.meta.total && crypto.sha(r.bytes) == r.meta.digest
            && forall c :: c in Taken(crypto, records) ==> c.meta == r.meta
  {
    hide RecoverRecords;
    hide Taken;
    hide Gather;
    RecoveryIsSummary(crypto, records);
    EntriesAddUp(crypto, records);
    GatherIff(Taken(crypto, records));
  }

  // ----- the strict reader

  /** Strict reading: `unpack`, then `open`. */
  function StrictOpen(crypto: Crypto, bytes: seq<byte>): Result<seq<byte>> {
    match Unpacked(bytes)
    case Err(e) => Err(e)
    case Ok(records) => OpenAll(crypto, records)
  }

  lemma RequiredIsTaken(crypto: Crypto, record: seq<byte>)
    ensures Required(crypto, record).Ok? <==> Classify(crypto, record).Take?
    ensures Required(crypto, record).Ok? ==> Required(crypto, record).value == Classify(crypto, record).chunk
  {
    hide OpenRecord;
  }

  /** Nothing skipped and nothing rejected: every record is a chunk, and they are the chunks taken. */
  lemma {:induction false} NoneLeftOut(crypto: Crypto, records: seq<seq<byte>>)
    ensures Skipped(crypto, records) == 0 && Rejected(crypto, records) == 0 <==> AllRequired(crypto, records)
    ensures AllRequired(crypto, records) ==> Taken(crypto, records) == ChunksOf(crypto, records)
  {
    hide Classify;
    hide Required;
    hide ChunksOf;
    if records != [] {
      var head, rest := records[0], records[1..];
      NoneLeftOut(crypto, rest);
      NothingIsFatal(crypto, head);
      RequiredIsTaken(crypto, head);
      RequiredSplit(crypto, records);
      if AllRequired(crypto, records) {
        assert ChunksOf(crypto, records) == [Required(crypto, head).value] + ChunksOf(crypto, rest);
      }
    }
  }

  lemma RequiredSplit(crypto: Crypto, records: seq<seq<byte>>)
    requires records != []
    ensures AllRequired(crypto, records) <==> Required(crypto, records[0]).Ok? && AllRequired(crypto, records[1..])
  {
    hide Required;
    var rest := records[1..];
    if Required(crypto, records[0]).Ok? && AllRequired(crypto, rest) {
      forall i | 0 <= i < |records| ensures Required(crypto, records[i]).Ok? {
        assert i > 0 ==> records[i] == rest[i - 1];
      }
    }
    if AllRequired(crypto, records) {
      forall i | 0 <= i < |rest| ensures Required(crypto, rest[i]).Ok? {
        assert rest[i] == records[i + 1];
      }
    }
  }

  /** Opening records is recovery that leaves nothing out. */
  lemma OpeningIsCleanRecovery(crypto: Crypto, records: seq<seq<byte>>, plain: seq<byte>)
    ensures OpenAll(crypto, records) == Ok(plain) <==>
            var r := RecoverRecords(crypto, records);
            r.Ok? && r.value.bytes == plain && r.value.skipped == 0 && r.value.rejected == 0
  {
    hide RecoverRecords;
    hide Taken;
    hide Skipped;
    hide Rejected;
    hide AllRequired;
    hide ChunksOf;
    hide Gather;
    hide Finished;
    hide OpenPrefix;
    RecoveryIsSummary(crypto, records);
    NoneLeftOut(crypto, records);
    if records == [] {
      NothingTaken(crypto);
    } else {
      OpeningGathers(crypto, records);
      if AllRequired(crypto, records) {
        assert |ChunksOf(crypto, records)| == |records|;
      }
    }
  }

  lemma NothingTaken(crypto: Crypto)
    ensures Taken(crypto, []) == []
  {}

  /** A required record has a private header with the id of its chunk. */
  lemma RequiredHeader(crypto: Crypto, record: seq<byte>)
    requires Required(crypto, record).Ok?
    ensures InspectHeader(record).Ok? && InspectHeader(record).value.id == Required(crypto, record).value.meta.id
  {
    hide InspectHeader;
    hide ParseKind;
    hide Mask;
    hide ChunkCount;
    hide ContentTypeOf;
    hide SizeOf;
    hide Nonce;
  }

  lemma GatheredShareId(crypto: Crypto, records: seq<seq<byte>>)
    requires records != [] && OpenPrefix(crypto, records).Ok?
    ensures Inspected(records) && SameId(records)
  {
    hide OpenPrefix;
    hide Required;
    hide Gather;
    hide InspectHeader;
    OpeningGathers(crypto, records);
    var cs := ChunksOf(crypto, records);
    GatherIff(cs);
    forall i | 0 <= i < |records|
      ensures InspectHeader(records[i]).Ok? && InspectHeader(records[i]).value.id == cs[0].meta.id
    {
      RequiredHeader(crypto, records[i]);
      assert cs[i] in cs && cs[0] in cs;
      assert Compatible(cs[i], cs[0]);
    }
  }

  /** Unpacking gives the records that recovery reads, if their headers are those of one object. */
  lemma UnpackedRecords(entries: seq<Entry>)
    ensures UnpackEntries(entries).Ok? <==> AllFramed(entries) && Inspected(RecordsOf(entries))
    ensures UnpackEntries(entries).Ok? ==> UnpackEntries(entries).value == RecordsOf(entries)
  {
    hide UnpackEntries;
    hide InspectHeader;
    hide FromLE;
    UnpackedIff(entries);
    var records := RecordsOf(entries);
    if UnpackEntries(entries).Ok? {
      forall i | 0 <= i < |entries|
        ensures FramedRecord(entries[i]).Ok? && InspectHeader(records[i]).Ok? && UnpackEntries(entries).value[i] == records[i]
      {
        assert UnpackEntry(entries[i]) == Ok(UnpackEntries(entries).value[i]);
      }
    }
    if AllFramed(entries) && Inspected(records) {
      forall i | 0 <= i < |entries| ensures UnpackEntry(entries[i]).Ok? {
        assert FramedRecord(entries[i]) == Ok(records[i]);
        assert InspectHeader(records[i]).Ok?;
      }
    }
  }

  /**
   On every byte string, unpacking and opening succeeds exactly when recovery succeeds with nothing
   skipped and nothing rejected, and then with the same bytes.
   */
  lemma StrictIsCleanRecovery(crypto: Crypto, bytes: seq<byte>, plain: seq<byte>)
    ensures StrictOpen(crypto, bytes) == Ok(plain) <==>
            var r := RecoverContainer(crypto, bytes);
            r.Ok? && r.value.bytes == plain && r.value.skipped == 0 && r.value.rejected == 0
  {
    hide Framed;
    hide UnpackEntries;
    hide AllFramed;
    hide RecordsOf;
    hide RecoverRecords;
    hide OpenPrefix;
    hide Inspected;
    hide SameId;
    hide Finished;
    if Framed(bytes).Ok? {
      var entries := Framed(bytes).value;
      var records := RecordsOf(entries);
      UnpackedRecords(entries);
      OpeningIsCleanRecovery(crypto, records, plain);
      if records != [] && OpenPrefix(crypto, records).Ok? {
        GatheredShareId(crypto, records);
      }
    }
  }

  /** Sealing, packing in any covering arrangement and reading back, strictly or tolerantly, gives the plaintext. */
  lemma ContainerRoundTrip(crypto: Crypto, file: File, order: seq<nat>)
    requires 1 <= |file.plaintext| <= MAX_PRIVATE && |order| < U32
    requires Within(file, order) && Covers(file, order)
    ensures var bytes := Packed(Arranged(crypto, file, order));
            && StrictOpen(crypto, bytes) == Ok(file.plaintext)
            && RecoverContainer(crypto, bytes).Ok?
            && var r := RecoverContainer(crypto, bytes).value;
               r.bytes == file.plaintext && r.skipped == 0 && r.rejected == 0
  {
    hide Packed;
    hide Unpacked;
    hide OpenPrefix;
    hide RecoverContainer;
    hide Inspected;
    hide SameId;
    hide File.Record;
    hide Finished;
    var records := Arranged(crypto, file, order);
    assert 0 in order;
    AnyArrangementOpens(crypto, file, order);
    GatheredShareId(crypto, records);
    PackRoundTrip(records);
    StrictIsCleanRecovery(crypto, Packed(records), file.plaintext);
  }
}
