/**
 Reassembly of a private object (`PrivateObject` and `open` in `container.rs`): chunks in any order, with
 duplicates, until the whole file can be joined and its digest checked.
 */
module PrivateObjects {
  import opened Bytes
  import opened Records
  import opened PrivateRecords

  datatype Assembly = Assembly(meta: Meta, chunks: map<nat, Chunk>, conflict: bool)

  function Started(c: Chunk): Assembly {
    Assembly(c.meta, map[c.index := c], false)
  }

  /** The assembly after one insertion, and whether it was accepted. */
  function Inserted(o: Assembly, c: Chunk): (Assembly, bool) {
    if o.meta != c.meta then (o.(conflict := true), false)
    else if c.index in o.chunks then
      if o.chunks[c.index].recordDigest != c.recordDigest then (o.(conflict := true), false) else (o, true)
    else (o.(chunks := o.chunks[c.index := c]), true)
  }

  /** The bytes of chunks 0 to `n`, unless one is missing. */
  function Joined(chunks: map<nat, Chunk>, n: nat): Option<seq<byte>> {
    if n == 0 then Some([])
    else match Joined(chunks, n - 1)
         case None => None
         case Some(bytes) => if n - 1 in chunks then Some(bytes + chunks[n - 1].bytes) else None
  }

  function Finished(sha: seq<byte> -> Digest, o: Assembly): Result<seq<byte>> {
    if o.conflict then Err(Invalid)
    else if |o.chunks| >= U32 then Err(Integer)
    else if |o.chunks| != o.meta.count then Err(Invalid)
    else match Joined(o.chunks, o.meta.count)
         case None => Err(Missing)
         case Some(bytes) => if |bytes| == o.meta.total && sha(bytes) == o.meta.digest then Ok(bytes) else Err(Invalid)
  }

  class PrivateObject {
    var meta: Meta
    var chunks: map<nat, Chunk>
    var conflict: bool

    function State(): Assembly
      reads this
    {
      Assembly(meta, chunks, conflict)
    }

    constructor (chunk: Chunk)
      ensures State() == Started(chunk)
    {
      meta := chunk.meta;
      chunks := map[chunk.index := chunk];
      conflict := false;
    }

    method Insert(chunk: Chunk) returns (ok: bool)
      modifies this
      ensures (State(), ok) == Inserted(old(State()), chunk)
    {
      if meta != chunk.meta {
        conflict := true;
        return false;
      }
      if chunk.index in chunks {
        if chunks[chunk.index].recordDigest != chunk.recordDigest {
          conflict := true;
          return false;
        }
      } else {
        chunks := chunks[chunk.index := chunk];
      }
      return true;
    }

    method Finish(sha: seq<byte> -> Digest) returns (r: Result<seq<byte>>)
      ensures r == Finished(sha, State())
    {
      if conflict {
        return Err(Invalid);
      }
      if |chunks| >= U32 {
        return Err(Integer);
      }
      if |chunks| != meta.count {
        return Err(Invalid);
      }
      var bytes := [];
      for index := 0 to meta.count
        invariant Joined(chunks, index) == Some(bytes)
      {
        if index !in chunks {
          MissingStays(chunks, index, meta.count);
          return Err(Missing);
        }
        bytes := bytes + chunks[index].bytes;
      }
      r := if |bytes| == meta.total && sha(bytes) == meta.digest then Ok(bytes) else Err(Invalid);
    }
  }

  lemma {:induction false} MissingStays(chunks: map<nat, Chunk>, i: nat, n: nat)
    requires i < n && i !in chunks
    ensures Joined(chunks, n) == None
  {
    if i < n - 1 {
      MissingStays(chunks, i, n - 1);
    }
  }

  // ----- what every assembly of authenticated chunks keeps

  predicate Sound(o: Assembly) {
    ChunkCount(o.meta.total) == Ok(o.meta.count) && AllPlaced(o)
  }

  predicate AllPlaced(o: Assembly) {
    forall i :: i in o.chunks ==> Placed(o, i)
  }

  predicate Placed(o: Assembly, i: nat)
    requires i in o.chunks
  {
    o.chunks[i].index == i && o.chunks[i].meta == o.meta && WellFormed(o.chunks[i])
  }

  lemma StartedIsSound(c: Chunk)
    requires WellFormed(c)
    ensures Sound(Started(c))
  {}

  lemma InsertedIsSound(o: Assembly, c: Chunk)
    requires Sound(o) && WellFormed(c)
    ensures Sound(Inserted(o, c).0)
  {
    hide WellFormed;
  }

  function Indices(n: nat): (s: set<nat>)
    ensures |s| == n && forall i: nat :: i in s <==> i < n
  {
    if n == 0 then {} else Indices(n - 1) + {n - 1}
  }

  lemma {:induction false} SubsetSize(a: set<nat>, b: set<nat>)
    requires a <= b
    ensures |a| <= |b| && (|a| == |b| ==> a == b)
  {
    if a != {} {
      var x :| x in a;
      SubsetSize(a - {x}, b - {x});
      assert a == (a - {x}) + {x} && b == (b - {x}) + {x};
    }
  }

  /** As many chunks as the count are all the chunks. */
  lemma CompleteHasAll(o: Assembly)
    requires Sound(o)
    ensures |o.chunks| <= o.meta.count < U32
    ensures |o.chunks| == o.meta.count ==> o.chunks.Keys == Indices(o.meta.count)
  {
    forall i | i in o.chunks ensures i < o.meta.count { assert Placed(o, i); }
    assert o.chunks.Keys <= Indices(o.meta.count);
    SubsetSize(o.chunks.Keys, Indices(o.meta.count));
    assert |o.chunks| == |o.chunks.Keys|;
  }

  function Reach(total: nat, n: nat): nat {
    if n * CHUNK < total then n * CHUNK else total
  }

  /** The joined chunks of a sound assembly reach as far as their number says. */
  lemma {:induction false} JoinedLength(o: Assembly, n: nat)
    requires Sound(o) && o.chunks.Keys == Indices(o.meta.count) && n <= o.meta.count
    ensures Joined(o.chunks, n).Some? && |Joined(o.chunks, n).value| == Reach(o.meta.total, n)
  {
    hide Indices;
    hide Reach;
    hide SizeOf;
    NothingReached(o.meta.total);
    if n > 0 {
      JoinedLength(o, n - 1);
      assert n - 1 in o.chunks.Keys;
      assert Placed(o, n - 1);
      ReachStep(o.meta.total, n - 1);
    }
  }

  lemma NothingReached(total: nat)
    ensures Reach(total, 0) == 0
  {}

  lemma ReachStep(total: nat, n: nat)
    requires ChunkCount(total).Ok? && n < ChunkCount(total).value
    ensures Reach(total, n + 1) == Reach(total, n) + SizeOf(total, n)
  {
    OffsetWithin(total, n);
  }

  /**
   Of an assembly of authenticated chunks, joining finds every chunk and the right length: it fails only
   for a conflict, for being incomplete, or for the digest of the whole file.
   */
  lemma FinishFailsOnlyFor(sha: seq<byte> -> Digest, o: Assembly)
    requires Sound(o)
    ensures var r := Finished(sha, o);
            && (r.Err? ==> r.error == Invalid)
            && (r.Ok? <==> !o.conflict && |o.chunks| == o.meta.count
                           && Joined(o.chunks, o.meta.count).Some? && sha(Joined(o.chunks, o.meta.count).value) == o.meta.digest)
    ensures !o.conflict && |o.chunks| == o.meta.count ==>
              Joined(o.chunks, o.meta.count).Some? && |Joined(o.chunks, o.meta.count).value| == o.meta.total
  {
    hide Joined;
    CompleteHasAll(o);
    if |o.chunks| == o.meta.count {
      JoinedLength(o, o.meta.count);
      assert ChunkCount(o.meta.total) == Ok(o.meta.count);
    }
  }

  // ----- many chunks

  /** Insert chunks one after another; nothing if one is refused. */
  function Gather(cs: seq<Chunk>): Option<Assembly>
    requires cs != []
  {
    if |cs| == 1 then Some(Started(cs[0]))
    else match Gather(cs[..|cs| - 1])
         case None => None
         case Some(o) => var (next, ok) := Inserted(o, cs[|cs| - 1]); if ok then Some(next) else None
  }

  predicate Compatible(c: Chunk, d: Chunk) {
    c.meta == d.meta && (c.index == d.index ==> c.recordDigest == d.recordDigest)
  }

  predicate AllCompatible(cs: seq<Chunk>) {
    forall c, d :: c in cs && d in cs ==> Compatible(c, d)
  }

  /** The assembly that gathers `cs`: their metadata and one of them at each of their indices. */
  predicate Gathers(o: Assembly, cs: seq<Chunk>) {
    && !o.conflict
    && (forall c :: c in cs ==> c.meta == o.meta && c.index in o.chunks && c.recordDigest == o.chunks[c.index].recordDigest)
    && (forall i :: i in o.chunks ==> o.chunks[i] in cs && o.chunks[i].index == i)
  }

  lemma {:induction false} GatherIff(cs: seq<Chunk>)
    requires cs != []
    ensures Gather(cs).Some? <==> AllCompatible(cs)
    ensures Gather(cs).Some? ==> Gathers(Gather(cs).value, cs)
  {
    hide AllCompatible;
    hide Gathers;
    var n := |cs| - 1;
    if n == 0 {
      OneChunk(cs[0], cs);
    } else {
      var most, c := cs[..n], cs[n];
      assert cs == most + [c];
      GatherIff(most);
      if Gather(most).Some? {
        OneMore(Gather(most).value, most, c);
      } else {
        FewerCompatible(most, c);
      }
    }
  }

  lemma OneChunk(c: Chunk, cs: seq<Chunk>)
    requires cs == [c]
    ensures AllCompatible(cs) && Gathers(Started(c), cs)
  {}

  lemma FewerCompatible(most: seq<Chunk>, c: Chunk)
    ensures AllCompatible(most + [c]) ==> AllCompatible(most)
  {
    if AllCompatible(most + [c]) {
      forall a, b | a in most && b in most ensures Compatible(a, b) {
        assert a in most + [c] && b in most + [c];
      }
    }
  }

  lemma OneMore(o: Assembly, most: seq<Chunk>, c: Chunk)
    requires most != [] && Gathers(o, most) && AllCompatible(most)
    ensures Inserted(o, c).1 <==> AllCompatible(most + [c])
    ensures Inserted(o, c).1 ==> Gathers(Inserted(o, c).0, most + [c])
  {
    if Inserted(o, c).1 {
      forall a | a in most ensures Compatible(a, c) {}
      Extend(most, c);
    } else if o.meta != c.meta {
      NotCompatible(most[0], c, most);
    } else {
      NotCompatible(o.chunks[c.index], c, most);
    }
  }

  lemma Extend(most: seq<Chunk>, c: Chunk)
    requires AllCompatible(most) && forall a :: a in most ==> Compatible(a, c)
    ensures AllCompatible(most + [c])
  {
    forall a, b | a in most + [c] && b in most + [c] ensures Compatible(a, b) {}
  }

  lemma NotCompatible(a: Chunk, c: Chunk, most: seq<Chunk>)
    requires a in most && !Compatible(a, c)
    ensures !AllCompatible(most + [c])
  {
    assert a in most + [c] && c in most + [c];
  }

  lemma {:induction false} GatheredIsSound(cs: seq<Chunk>)
    requires cs != [] && (forall c :: c in cs ==> WellFormed(c)) && Gather(cs).Some?
    ensures Sound(Gather(cs).value)
  {
    hide WellFormed;
    hide Sound;
    hide Inserted;
    var n := |cs| - 1;
    if n == 0 {
      StartedIsSound(cs[0]);
    } else {
      GatheredIsSound(cs[..n]);
      InsertedIsSound(Gather(cs[..n]).value, cs[n]);
    }
  }
}
