/**
 Tolerant recovery of a container (`recover_container` in `container.rs`): unrelated and rejected records
 are counted, authenticated ones must all belong to one object.
 */
module Recovery {
  import opened Bytes
  import opened Records
  import opened PrivateRecords
  import opened PrivateObjects
  import opened PrivateFiles
  import opened Containers

  datatype Progress = Progress(objects: map<Digest, Assembly>, skipped: nat, rejected: nat)

  datatype Recovered = Recovered(meta: Meta, bytes: seq<byte>, skipped: nat, rejected: nat)

  /** What recovery makes of one record. */
  datatype Verdict = Skip | Reject | Take(chunk: Chunk) | Fatal(error: Error)

  /** `recovery_record` and `classify_rejection`. */
  function Classify(crypto: Crypto, record: seq<byte>): Verdict {
    match OpenRecord(crypto, record)
    case Ok(m) => if m.Authenticated? then Take(m.chunk) else Skip
    case Err(e) => if e == Invalid || e == Unsupported then Reject else Fatal(e)
  }

  function TakeChunk(p: Progress, c: Chunk): Result<Progress> {
    var id := c.meta.id;
    if id !in p.objects then
      var objects := p.objects[id := Started(c)];
      if |objects| == 1 then Ok(p.(objects := objects)) else Err(Invalid)
    else if !Inserted(p.objects[id], c).1 then Err(Invalid)
    else
      var objects := p.objects[id := Inserted(p.objects[id], c).0];
      if |objects| == 1 then Ok(p.(objects := objects)) else Err(Invalid)
  }

  function Step(p: Progress, v: Verdict): Result<Progress> {
    match v
    case Skip => Ok(p.(skipped := p.skipped + 1))
    case Reject => Ok(p.(rejected := p.rejected + 1))
    case Take(c) => TakeChunk(p, c)
    case Fatal(e) => Err(e)
  }

  function Run(crypto: Crypto, p: Progress, records: seq<seq<byte>>): Result<Progress>
    decreases |records|
  {
    if records == [] then Ok(p)
    else match Step(p, Classify(crypto, records[0]))
         case Err(e) => Err(e)
         case Ok(next) => Run(crypto, next, records[1..])
  }

  const START := Progress(map[], 0, 0)

  /** The only value of a map with one key. */
  function Sole(objects: map<Digest, Assembly>): Assembly
    requires |objects| == 1
  {
    SoleKey(objects.Keys);
    var id :| id in objects;
    objects[id]
  }

  lemma SoleKey(ids: set<Digest>)
    requires |ids| == 1
    ensures forall a, b :: a in ids && b in ids ==> a == b
  {
    forall a, b | a in ids && b in ids ensures a == b {
      var rest := ids - {a};
      assert |rest| == 0;
    }
  }

  function Conclude(crypto: Crypto, p: Progress): Result<Recovered> {
    if |p.objects| != 1 then Err(Invalid)
    else
      var o := Sole(p.objects);
      match Finished(crypto.sha, o)
      case Err(e) => Err(e)
      case Ok(bytes) => Ok(Recovered(o.meta, bytes, p.skipped, p.rejected))
  }

  function RecoverRecords(crypto: Crypto, records: seq<seq<byte>>): Result<Recovered> {
    match Run(crypto, START, records)
    case Err(e) => Err(e)
    case Ok(p) => Conclude(crypto, p)
  }

  /** The check of all entry lengths that comes before any record is opened. */
  predicate AllFramed(entries: seq<Entry>) {
    forall i :: 0 <= i < |entries| ==> FramedRecord(entries[i]).Ok?
  }

  function RecordsOf(entries: seq<Entry>): (records: seq<seq<byte>>)
    ensures |records| == |entries| && forall i :: 0 <= i < |entries| ==> records[i] == entries[i][4..]
  {
    seq(|entries|, i requires 0 <= i < |entries| => entries[i][4..])
  }

  function RecoverContainer(crypto: Crypto, bytes: seq<byte>): Result<Recovered> {
    match Framed(bytes)
    case Err(e) => Err(e)
    case Ok(entries) => if AllFramed(entries) then RecoverRecords(crypto, RecordsOf(entries)) else Err(Invalid)
  }

  /** `recover_container`. */
  method Recover(crypto: Crypto, bytes: seq<byte>) returns (r: Result<Recovered>)
    ensures r == RecoverContainer(crypto, bytes)
  {
    hide Framed;
    hide FramedRecord;
    hide Classify;
    hide Step;
    hide Run;
    hide Finished;
    var framed := Framed(bytes);
    if framed.Err? {
      return Err(framed.error);
    }
    var entries := framed.value;
    for i := 0 to |entries|
      invariant forall j :: 0 <= j < i ==> FramedRecord(entries[j]).Ok?
    {
      if FramedRecord(entries[i]).Err? {
        FramedErrors(entries[i]);
        return Err(FramedRecord(entries[i]).error);
      }
    }
    ghost var records := RecordsOf(entries);
    var p := START;
    assert records[0..] == records;
    for i := 0 to |entries|
      invariant Run(crypto, p, records[i..]) == Run(crypto, START, records)
    {
      RunUnfolds(crypto, p, records, i);
      var next := Step(p, Classify(crypto, entries[i][4..]));
      if next.Err? {
        return Err(next.error);
      }
      p := next.value;
    }
    RunEnds(crypto, p, records);
    r := Conclude(crypto, p);
  }

  lemma FramedErrors(entry: Entry)
    ensures FramedRecord(entry).Err? ==> FramedRecord(entry).error == Invalid
  {}

  lemma RunUnfolds(crypto: Crypto, p: Progress, records: seq<seq<byte>>, i: nat)
    requires i < |records|
    ensures var next := Step(p, Classify(crypto, records[i]));
            Run(crypto, p, records[i..]) == if next.Err? then Err(next.error) else Run(crypto, next.value, records[i + 1..])
  {
    hide Step;
    hide Classify;
    assert records[i..][1..] == records[i + 1..];
  }

  lemma RunEnds(crypto: Crypto, p: Progress, records: seq<seq<byte>>)
    ensures Run(crypto, p, records[|records|..]) == Ok(p)
  {
    assert records[|records|..] == [];
  }

  // ----- what recovery collects

  /** The authenticated chunks, in order. */
  function Taken(crypto: Crypto, records: seq<seq<byte>>): seq<Chunk> {
    if records == [] then []
    else
      var v := Classify(crypto, records[0]);
      (if v.Take? then [v.chunk] else []) + Taken(crypto, records[1..])
  }

  function Skipped(crypto: Crypto, records: seq<seq<byte>>): nat {
    if records == [] then 0
    else (if Classify(crypto, records[0]).Skip? then 1 else 0) + Skipped(crypto, records[1..])
  }

  function Rejected(crypto: Crypto, records: seq<seq<byte>>): nat {
    if records == [] then 0
    else (if Classify(crypto, records[0]).Reject? then 1 else 0) + Rejected(crypto, records[1..])
  }

  lemma NothingIsFatal(crypto: Crypto, record: seq<byte>)
    ensures !Classify(crypto, record).Fatal?
    ensures Classify(crypto, record).Take? ==> WellFormed(Classify(crypto, record).chunk)
    ensures Classify(crypto, record).Take? ==> Classify(crypto, record).chunk.recordDigest == crypto.sha(record)
  {
    hide OpenRecord;
    hide WellFormed;
    OpenedIsWellFormed(crypto, record);
  }

  /** Every entry is skipped, rejected or taken. */
  lemma {:induction false} EntriesAddUp(crypto: Crypto, records: seq<seq<byte>>)
    ensures Skipped(crypto, records) + Rejected(crypto, records) + |Taken(crypto, records)| == |records|
  {
    hide Classify;
    if records != [] {
      NothingIsFatal(crypto, records[0]);
      EntriesAddUp(crypto, records[1..]);
    }
  }

  /** Chunks that can be gathered, or none yet. */
  predicate Gatherable(cs: seq<Chunk>) {
    cs == [] || Gather(cs).Some?
  }

  /** The objects recovery holds after taking `cs`. */
  function ObjectsOf(cs: seq<Chunk>): map<Digest, Assembly>
    requires Gatherable(cs)
  {
    if cs == [] then map[] else map[Gather(cs).value.meta.id := Gather(cs).value]
  }

  lemma GatherUnfolds(cs: seq<Chunk>, c: Chunk)
    requires cs != []
    ensures Gather(cs + [c]) == if Gather(cs).Some? && Inserted(Gather(cs).value, c).1 then Some(Inserted(Gather(cs).value, c).0) else None
  {
    hide Inserted;
    assert (cs + [c])[..|cs|] == cs;
  }

  lemma OneGathers(c: Chunk)
    ensures Gather([c]) == Some(Started(c))
  {}

  lemma InsertedMeta(o: Assembly, c: Chunk)
    ensures Inserted(o, c).0.meta == o.meta
    ensures Inserted(o, c).1 ==> o.meta == c.meta
  {}

  /** Taking one more chunk is gathering one more. */
  lemma TakeGathers(p: Progress, cs: seq<Chunk>, c: Chunk)
    requires Gatherable(cs) && p.objects == ObjectsOf(cs)
    ensures Gatherable(cs + [c]) ==> TakeChunk(p, c) == Ok(p.(objects := ObjectsOf(cs + [c])))
    ensures !Gatherable(cs + [c]) ==> TakeChunk(p, c) == Err(Invalid)
  {
    hide Gather;
    hide Inserted;
    if cs == [] {
      OneGathers(c);
      assert cs + [c] == [c];
      assert map[][c.meta.id := Started(c)] == map[c.meta.id := Started(c)];
    } else {
      var o := Gather(cs).value;
      GatherUnfolds(cs, c);
      InsertedMeta(o, c);
      var next := Inserted(o, c).0;
      if c.meta.id == o.meta.id {
        assert p.objects[c.meta.id := next] == map[o.meta.id := next];
      } else {
        assert p.objects[c.meta.id := Started(c)].Keys == {o.meta.id, c.meta.id};
        assert |p.objects[c.meta.id := Started(c)]| == |{o.meta.id, c.meta.id}| == 2;
      }
    }
  }

  lemma {:induction false} RefusedStays(cs: seq<Chunk>, more: seq<Chunk>)
    requires !Gatherable(cs)
    ensures !Gatherable(cs + more)
    decreases |more|
  {
    hide Gather;
    if more == [] {
      assert cs + more == cs;
    } else {
      GatherUnfolds(cs, more[0]);
      assert cs + more == (cs + [more[0]]) + more[1..];
      RefusedStays(cs + [more[0]], more[1..]);
    }
  }

  function Added(crypto: Crypto, p: Progress, all: seq<Chunk>, records: seq<seq<byte>>): Progress
    requires Gatherable(all)
  {
    Progress(ObjectsOf(all), p.skipped + Skipped(crypto, records), p.rejected + Rejected(crypto, records))
  }

  /** Recovery holds what gathering the taken chunks gives, and fails exactly when they cannot be gathered. */
  lemma {:induction false} RunGathers(crypto: Crypto, p: Progress, cs: seq<Chunk>, records: seq<seq<byte>>)
    requires Gatherable(cs) && p.objects == ObjectsOf(cs)
    ensures var all := cs + Taken(crypto, records);
            Run(crypto, p, records) == if Gatherable(all) then Ok(Added(crypto, p, all, records)) else Err(Invalid)
    decreases |records|
  {
    hide Classify;
    hide Gatherable;
    hide ObjectsOf;
    hide TakeChunk;
    if records == [] {
      assert cs + [] == cs;
    } else {
      var v, rest := Classify(crypto, records[0]), records[1..];
      NothingIsFatal(crypto, records[0]);
      if v.Take? {
        var more := cs + [v.chunk];
        assert cs + Taken(crypto, records) == more + Taken(crypto, rest);
        TakeGathers(p, cs, v.chunk);
        if Gatherable(more) {
          RunGathers(crypto, p.(objects := ObjectsOf(more)), more, rest);
        } else {
          RefusedStays(more, Taken(crypto, rest));
        }
      } else {
        assert Taken(crypto, records) == Taken(crypto, rest);
        RunGathers(crypto, Step(p, v).value, cs, rest);
      }
    }
  }

  /** Recovery in closed form. */
  function Summary(crypto: Crypto, records: seq<seq<byte>>): Result<Recovered> {
    var cs := Taken(crypto, records);
    if cs == [] || Gather(cs).None? then Err(Invalid)
    else
      var o := Gather(cs).value;
      match Finished(crypto.sha, o)
      case Err(e) => Err(e)
      case Ok(bytes) => Ok(Recovered(o.meta, bytes, Skipped(crypto, records), Rejected(crypto, records)))
  }

  lemma SoleOf(id: Digest, o: Assembly)
    ensures |map[id := o]| == 1 && Sole(map[id := o]) == o
  {}

  lemma RecoveryIsSummary(crypto: Crypto, records: seq<seq<byte>>)
    ensures RecoverRecords(crypto, records) == Summary(crypto, records)
  {
    hide Taken;
    hide Skipped;
    hide Rejected;
    hide Run;
    hide Gather;
    hide Finished;
    hide Sole;
    var cs := Taken(crypto, records);
    RunGathers(crypto, START, [], records);
    assert [] + cs == cs;
    if Gatherable(cs) && cs != [] {
      SoleOf(Gather(cs).value.meta.id, Gather(cs).value);
    }
  }
}
