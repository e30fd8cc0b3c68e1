/** Sealing a whole file and opening its records in any arrangement (`seal` and `open` in `container.rs`). */
module PrivateFiles {
  import opened Bytes
  import opened Records
  import opened PrivateRecords
  import opened PrivateObjects

  /** A file to seal; `id` and `noise` are the random bytes that sealing draws. */
  datatype File = File(plaintext: seq<byte>, contentType: ContentType, id: Digest, noise: (nat, nat) -> byte) {
    predicate Sealable() {
      ChunkCount(|plaintext|).Ok?
    }

    function Count(): nat
      requires Sealable()
    {
      ChunkCount(|plaintext|).value
    }

    function Meta(crypto: Crypto): Meta
      requires Sealable()
    {
      PrivateRecords.Meta(id, Count(), |plaintext|, crypto.sha(plaintext), contentType)
    }

    /** The bytes of chunk `i`. */
    function Piece(i: nat): (s: seq<byte>)
      requires Sealable() && i < Count()
      ensures |s| == SizeOf(|plaintext|, i) <= CHUNK
    {
      OffsetWithin(|plaintext|, i);
      plaintext[i * CHUNK..i * CHUNK + SizeOf(|plaintext|, i)]
    }

    function Padding(i: nat): (s: seq<byte>)
      requires Sealable() && i < Count()
      ensures |s| == CHUNK - |Piece(i)|
    {
      Noise(noise, i, CHUNK - |Piece(i)|)
    }

    function Record(crypto: Crypto, i: nat): seq<byte>
      requires Sealable() && i < Count()
    {
      SealRecord(crypto, Meta(crypto), i, Piece(i), Padding(i))
    }

    function ChunkAt(crypto: Crypto, i: nat): Chunk
      requires Sealable() && i < Count()
    {
      Chunk(Meta(crypto), i, Piece(i), crypto.sha(Record(crypto, i)))
    }
  }

  function Noise(noise: (nat, nat) -> byte, i: nat, n: nat): (s: seq<byte>)
    ensures |s| == n
  {
    seq<byte>(n, k requires 0 <= k => noise(i, k))
  }

  /** `seal`: one record per chunk, in order; neither the count nor an index exceeds its width. */
  method Seal(crypto: Crypto, file: File) returns (r: Result<seq<seq<byte>>>)
    ensures r.Ok? <==> file.Sealable()
    ensures r.Ok? ==> |r.value| == file.Count() && forall i :: 0 <= i < file.Count() ==> r.value[i] == file.Record(crypto, i)
  {
    hide ChunkCount;
    hide SealRecord;
    hide File.Piece;
    hide File.Padding;
    var count := ChunkCount(|file.plaintext|);
    if count.Err? {
      return Err(count.error);
    }
    var meta := Meta(file.id, count.value, |file.plaintext|, crypto.sha(file.plaintext), file.contentType);
    var records := [];
    for position := 0 to count.value
      invariant |records| == position
      invariant forall i :: 0 <= i < position ==> records[i] == file.Record(crypto, i)
    {
      var record := SealChunk(crypto, meta, position, file.Piece(position), file.Padding(position));
      records := records + [record];
    }
    r := Ok(records);
  }

  /** One turn of the loop of `seal`. */
  method SealChunk(crypto: Crypto, meta: Meta, index: nat, chunk: seq<byte>, padding: seq<byte>) returns (record: seq<byte>)
    ensures record == SealRecord(crypto, meta, index, chunk, padding)
  {
    record := Private.Prefix() + meta.id + crypto.tag(meta.id) + LE(4, index) + LE(4, meta.count);
    var iv := Nonce(index);
    record := record + iv;
    var body := meta.digest + LE(8, meta.total) + LE(4, meta.contentType.Code()) + Zeros(4);
    body := body + chunk + padding;
    record := record + Mask(crypto, meta.id, iv, body);
    record := record + crypto.mac(meta.id, record);
  }

  // ----- opening

  /** `required_chunk`. */
  function Required(crypto: Crypto, record: seq<byte>): Result<Chunk> {
    match OpenRecord(crypto, record)
    case Err(e) => Err(e)
    case Ok(m) => if m.Authenticated? then Ok(m.chunk) else Err(Invalid)
  }

  function OpenPrefix(crypto: Crypto, records: seq<seq<byte>>): Result<Assembly>
    requires records != []
  {
    var n := |records| - 1;
    if n == 0 then
      match Required(crypto, records[0])
      case Err(e) => Err(e)
      case Ok(c) => Ok(Started(c))
    else match OpenPrefix(crypto, records[..n])
         case Err(e) => Err(e)
         case Ok(o) => OpenNext(o, Required(crypto, records[n]))
  }

  function OpenNext(o: Assembly, c: Result<Chunk>): Result<Assembly> {
    match c
    case Err(e) => Err(e)
    case Ok(c) => if Inserted(o, c).1 then Ok(Inserted(o, c).0) else Err(Invalid)
  }

  function OpenAll(crypto: Crypto, records: seq<seq<byte>>): Result<seq<byte>> {
    if records == [] then Err(Missing)
    else match OpenPrefix(crypto, records)
         case Err(e) => Err(e)
         case Ok(o) => Finished(crypto.sha, o)
  }

  lemma {:induction false} FailureStays(crypto: Crypto, records: seq<seq<byte>>, n: nat)
    requires 0 < n <= |records| && OpenPrefix(crypto, records[..n]).Err?
    ensures OpenPrefix(crypto, records) == OpenPrefix(crypto, records[..n])
  {
    hide Required;
    hide OpenNext;
    if n == |records| {
      assert records[..n] == records;
    } else {
      var most := records[..|records| - 1];
      assert most[..n] == records[..n];
      FailureStays(crypto, most, n);
    }
  }

  lemma PrefixUnfolds(crypto: Crypto, records: seq<seq<byte>>, n: nat)
    requires 0 < n < |records| && OpenPrefix(crypto, records[..n]).Ok?
    ensures OpenPrefix(crypto, records[..n + 1]) == OpenNext(OpenPrefix(crypto, records[..n]).value, Required(crypto, records[n]))
  {
    hide Required;
    hide OpenNext;
    assert records[..n + 1][..n] == records[..n];
  }

  /** `open`. */
  method Open(crypto: Crypto, records: seq<seq<byte>>) returns (r: Result<seq<byte>>)
    ensures r == OpenAll(crypto, records)
  {
    hide OpenPrefix;
    hide Required;
    hide Inserted;
    hide Finished;
    if records == [] {
      return Err(Missing);
    }
    FirstUnfolds(crypto, records);
    var first := Required(crypto, records[0]);
    if first.Err? {
      FailureStays(crypto, records, 1);
      return Err(first.error);
    }
    var assembly := new PrivateObject(first.value);
    for i := 1 to |records|
      invariant OpenPrefix(crypto, records[..i]) == Ok(assembly.State())
    {
      PrefixUnfolds(crypto, records, i);
      var chunk := Required(crypto, records[i]);
      if chunk.Err? {
        FailureStays(crypto, records, i + 1);
        return Err(chunk.error);
      }
      var ok := assembly.Insert(chunk.value);
      if !ok {
        FailureStays(crypto, records, i + 1);
        return Err(Invalid);
      }
    }
    assert records[..|records|] == records;
    r := assembly.Finish(crypto.sha);
  }

  lemma FirstUnfolds(crypto: Crypto, records: seq<seq<byte>>)
    requires records != []
    ensures var c := Required(crypto, records[0]);
            OpenPrefix(crypto, records[..1]) == if c.Ok? then Ok(Started(c.value)) else Err(c.error)
  {
    hide Required;
  }

  // ----- opening and gathering

  predicate AllRequired(crypto: Crypto, records: seq<seq<byte>>) {
    forall i :: 0 <= i < |records| ==> Required(crypto, records[i]).Ok?
  }

  function ChunksOf(crypto: Crypto, records: seq<seq<byte>>): (cs: seq<Chunk>)
    requires AllRequired(crypto, records)
    ensures |cs| == |records| && forall i :: 0 <= i < |records| ==> cs[i] == Required(crypto, records[i]).value
  {
    seq(|records|, i requires 0 <= i < |records| => Required(crypto, records[i]).value)
  }

  /** Opening succeeds so far exactly when every record is a chunk and the chunks can be gathered. */
  lemma {:induction false} OpeningGathers(crypto: Crypto, records: seq<seq<byte>>)
    requires records != []
    ensures OpenPrefix(crypto, records).Ok? <==> AllRequired(crypto, records) && Gather(ChunksOf(crypto, records)).Some?
    ensures OpenPrefix(crypto, records).Ok? ==> OpenPrefix(crypto, records).value == Gather(ChunksOf(crypto, records)).value
  {
    hide Required;
    hide Inserted;
    hide ChunksOf;
    var n := |records| - 1;
    if n > 0 {
      var most := records[..n];
      OpeningGathers(crypto, most);
      if AllRequired(crypto, records) {
        assert ChunksOf(crypto, records)[..n] == ChunksOf(crypto, most);
      }
    }
  }

  // ----- round trip

  lemma SealedOpens(crypto: Crypto, file: File, i: nat)
    requires file.Sealable() && i < file.Count()
    ensures Required(crypto, file.Record(crypto, i)) == Ok(file.ChunkAt(crypto, i))
  {
    hide OpenRecord;
    hide SealRecord;
    hide SizeOf;
    RecordRoundTrip(crypto, file.Meta(crypto), i, file.Piece(i), file.Padding(i));
  }

  predicate Within(file: File, order: seq<nat>)
    requires file.Sealable()
  {
    forall k :: 0 <= k < |order| ==> order[k] < file.Count()
  }

  predicate Covers(file: File, order: seq<nat>)
    requires file.Sealable()
  {
    forall i: nat :: i < file.Count() ==> i in order
  }

  /** The sealed records in the given order, with whatever repetitions it has. */
  function Arranged(crypto: Crypto, file: File, order: seq<nat>): (records: seq<seq<byte>>)
    requires file.Sealable() && Within(file, order)
    ensures |records| == |order| && forall k :: 0 <= k < |order| ==> records[k] == file.Record(crypto, order[k])
  {
    seq(|order|, k requires 0 <= k < |order| => file.Record(crypto, order[k]))
  }

  /** An assembly with exactly the chunks of a file. */
  predicate Holds(crypto: Crypto, file: File, o: Assembly)
    requires file.Sealable()
  {
    && o.meta == file.Meta(crypto) && !o.conflict && o.chunks.Keys == Indices(file.Count())
    && forall i :: i in o.chunks && i < file.Count() ==> o.chunks[i] == file.ChunkAt(crypto, i)
  }

  lemma {:induction false} JoinedIsPlaintext(crypto: Crypto, file: File, o: Assembly, n: nat)
    requires file.Sealable() && Holds(crypto, file, o) && n <= file.Count()
    ensures Joined(o.chunks, n) == Some(file.plaintext[..Reach(|file.plaintext|, n)])
  {
    hide Reach;
    hide SizeOf;
    hide Indices;
    hide File.Meta;
    hide File.Record;
    hide ChunkCount;
    NothingReached(|file.plaintext|);
    if n > 0 {
      JoinedIsPlaintext(crypto, file, o, n - 1);
      assert n - 1 in o.chunks.Keys;
      assert o.chunks[n - 1].bytes == file.Piece(n - 1);
      PiecesJoin(file, n - 1);
    }
  }

  lemma PiecesJoin(file: File, n: nat)
    requires file.Sealable() && n < file.Count()
    ensures file.plaintext[..Reach(|file.plaintext|, n)] + file.Piece(n) == file.plaintext[..Reach(|file.plaintext|, n + 1)]
  {
    ReachStep(|file.plaintext|, n);
    OffsetWithin(|file.plaintext|, n);
  }

  lemma HeldFinishes(crypto: Crypto, file: File, o: Assembly)
    requires file.Sealable() && Holds(crypto, file, o)
    ensures Finished(crypto.sha, o) == Ok(file.plaintext)
  {
    hide Joined;
    hide Indices;
    hide File.ChunkAt;
    JoinedIsPlaintext(crypto, file, o, file.Count());
    assert |o.chunks| == |o.chunks.Keys|;
    assert Reach(|file.plaintext|, file.Count()) == |file.plaintext|;
    assert file.plaintext[..|file.plaintext|] == file.plaintext;
  }

  /** Chunks `order` of the file. */
  predicate AreChunks(crypto: Crypto, file: File, order: seq<nat>, cs: seq<Chunk>)
    requires file.Sealable() && Within(file, order)
  {
    |cs| == |order| && forall k :: 0 <= k < |order| ==> cs[k] == file.ChunkAt(crypto, order[k])
  }

  lemma ArrangementGathers(crypto: Crypto, file: File, order: seq<nat>, cs: seq<Chunk>)
    requires file.Sealable() && order != [] && Within(file, order) && Covers(file, order) && AreChunks(crypto, file, order, cs)
    ensures Gather(cs).Some? && Holds(crypto, file, Gather(cs).value)
  {
    hide File.Meta;
    hide File.Record;
    hide File.Piece;
    hide File.Count;
    hide File.Sealable;
    hide Gather;
    GatherIff(cs);
    var o := Gather(cs).value;
    forall i: nat | i < file.Count() ensures i in o.chunks {
      assert i in order;
      var k :| 0 <= k < |order| && order[k] == i;
      assert cs[k] in cs;
    }
    forall i | i in o.chunks ensures i < file.Count() && o.chunks[i] == file.ChunkAt(crypto, i) {
      var k :| 0 <= k < |cs| && cs[k] == o.chunks[i];
    }
    assert cs[0] in cs;
    assert o.chunks.Keys == Indices(file.Count());
  }

  lemma ArrangedChunks(crypto: Crypto, file: File, order: seq<nat>)
    requires file.Sealable() && Within(file, order)
    ensures AllRequired(crypto, Arranged(crypto, file, order))
    ensures AreChunks(crypto, file, order, ChunksOf(crypto, Arranged(crypto, file, order)))
  {
    hide File.Meta;
    hide File.Record;
    hide File.ChunkAt;
    hide Required;
    var records := Arranged(crypto, file, order);
    forall k | 0 <= k < |order| ensures Required(crypto, records[k]) == Ok(file.ChunkAt(crypto, order[k])) {
      SealedOpens(crypto, file, order[k]);
    }
  }

  /**
   Every plaintext of 1 to MAX_PRIVATE bytes comes back from any arrangement of its records that has
   every index at least once.
   */
  lemma AnyArrangementOpens(crypto: Crypto, file: File, order: seq<nat>)
    requires 1 <= |file.plaintext| <= MAX_PRIVATE
    requires Within(file, order) && Covers(file, order)
    ensures OpenAll(crypto, Arranged(crypto, file, order)) == Ok(file.plaintext)
  {
    hide File.Meta;
    hide File.Record;
    hide File.ChunkAt;
    hide Required;
    hide OpenPrefix;
    hide Gather;
    hide Finished;
    hide AreChunks;
    hide Holds;
    assert 0 in order;
    var records := Arranged(crypto, file, order);
    ArrangedChunks(crypto, file, order);
    ArrangementGathers(crypto, file, order, ChunksOf(crypto, records));
    OpeningGathers(crypto, records);
    HeldFinishes(crypto, file, Gather(ChunksOf(crypto, records)).value);
  }
}
