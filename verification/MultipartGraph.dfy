/**
 Rebuilding an object from its root (`reconstruct` in `read-multipart.py`). A source maps a transaction id to
 the author and the record that the proof of that transaction carries, where there is such a proof.
 */
module MultipartGraph {
  import opened Bytes
  import opened Records
  import opened Multipart

  datatype Signed = Signed(author: Hash, record: seq<byte>)

  /** Where records come from, how they are hashed, and the local limits. */
  datatype Source = Source(nodes: map<Hash, Signed>, sha: seq<byte> -> Hash, maxBytes: nat, maxNodes: nat)

  /** `get`: the record behind a reference, if it hashes to what the reference says. */
  function Fetch(source: Source, author: Hash, ref: Reference): Option<Record> {
    if ref.txid !in source.nodes then None
    else
      var node := source.nodes[ref.txid];
      if source.sha(node.record) != ref.recordHash || Decode(node.record).Err? || node.author != author then None
      else Some(Decode(node.record).value)
  }

  /** The references of leaf `j`. */
  function LeafRefs(source: Source, author: Hash, g: Geometry, ref: Reference, j: nat): (r: Option<seq<Reference>>)
    requires g.Valid() && j < g.leaves
    ensures r.Some? ==> |r.value| == g.LeafEntries(j)
  {
    match Fetch(source, author, ref)
    case None => None
    case Some(record) =>
      if record.Leaf? && record.index == j && |record.entries| == g.LeafEntries(j) then Some(record.entries) else None
  }

  /** The payload of part `i`. */
  function PartBytes(source: Source, author: Hash, g: Geometry, ref: Reference, i: nat): (r: Option<seq<byte>>)
    requires g.Valid() && i < g.parts
    ensures r.Some? ==> |r.value| == g.PartLength(i)
  {
    match Fetch(source, author, ref)
    case None => None
    case Some(record) =>
      if record.Data? && record.index == i && |record.payload| == g.PartLength(i) then Some(record.payload) else None
  }

  /** The references of the first `n` leaves. */
  function Inventory(source: Source, author: Hash, g: Geometry, refs: seq<Reference>, n: nat): (r: Option<seq<Reference>>)
    requires g.Valid() && n <= g.leaves == |refs|
    ensures r.Some? ==> |r.value| == LeavesParts(g, n)
  {
    if n == 0 then Some([])
    else
      var most, last := Inventory(source, author, g, refs, n - 1), LeafRefs(source, author, g, refs[n - 1], n - 1);
      if most.Some? && last.Some? then Some(most.value + last.value) else None
  }

  /** The payload of the first `n` parts. */
  function Payload(source: Source, author: Hash, g: Geometry, inventory: seq<Reference>, n: nat): (r: Option<seq<byte>>)
    requires g.Valid() && n <= g.parts == |inventory|
    ensures r.Some? ==> |r.value| == PartsLength(g, n)
  {
    if n == 0 then Some([])
    else
      var most, last := Payload(source, author, g, inventory, n - 1), PartBytes(source, author, g, inventory[n - 1], n - 1);
      if most.Some? && last.Some? then Some(most.value + last.value) else None
  }

  function Txids(refs: seq<Reference>): (ids: seq<Hash>)
    ensures |ids| == |refs| && forall i :: 0 <= i < |refs| ==> ids[i] == refs[i].txid
  {
    seq(|refs|, i requires 0 <= i < |refs| => refs[i].txid)
  }

  predicate Distinct(ids: seq<Hash>) {
    forall i, j :: 0 <= i < j < |ids| ==> ids[i] != ids[j]
  }

  /** The root behind a transaction id, within the local limits. */
  function RootOf(source: Source, txid: Hash): (r: Option<Record>)
    ensures r.Some? ==> txid in source.nodes && r.value.Root? && r.value.Encodable()
  {
    if txid !in source.nodes || Decode(source.nodes[txid].record).Err? then None
    else
      DecodeThenEncode(source.nodes[txid].record);
      var record := Decode(source.nodes[txid].record).value;
      if !record.Root? then None
      else
        var g := NewGeometry(record.length).value;
        if record.length > source.maxBytes || g.Nodes() > source.maxNodes then None else Some(record)
  }

  /** What `reconstruct` returns, if it accepts. */
  function Reconstructed(source: Source, txid: Hash): Option<seq<byte>> {
    if RootOf(source, txid).None? then None
    else
      var root, author := RootOf(source, txid).value, source.nodes[txid].author;
      var g := NewGeometry(root.length).value;
      GeometryOf(root.length);
      var inventory := Inventory(source, author, g, root.entries, g.leaves);
      if inventory.None? || !Distinct([txid] + Txids(root.entries) + Txids(inventory.value)) then None
      else
        LeavesPartition(g, g.leaves);
        var payload := Payload(source, author, g, inventory.value, g.parts);
        if payload.None? || source.sha(payload.value) != root.payloadHash then None else payload
  }

  // ----- the loops

  /** The set of transaction ids seen so far, one at a time. */
  ghost predicate Seen(seen: set<Hash>, ids: seq<Hash>) {
    Distinct(ids) && forall id :: id in seen <==> id in ids
  }

  /** `distinct`, over a list of references. */
  method AddDistinct(before: set<Hash>, ghost ids: seq<Hash>, refs: seq<Reference>) returns (ok: bool, seen: set<Hash>)
    requires Seen(before, ids)
    ensures ok <==> Distinct(ids + Txids(refs))
    ensures ok ==> Seen(seen, ids + Txids(refs))
  {
    hide Distinct;
    seen := before;
    assert ids + Txids(refs)[..0] == ids;
    for i := 0 to |refs|
      invariant Seen(seen, ids + Txids(refs)[..i])
    {
      ghost var sofar := ids + Txids(refs)[..i];
      assert ids + Txids(refs)[..i + 1] == sofar + [refs[i].txid];
      DistinctExtends(sofar, refs[i].txid);
      if refs[i].txid in seen {
        DistinctPrefix(ids + Txids(refs), |ids| + i + 1);
        assert (ids + Txids(refs))[..|ids| + i + 1] == ids + Txids(refs)[..i + 1];
        return false, seen;
      }
      seen := seen + {refs[i].txid};
    }
    assert Txids(refs)[..|refs|] == Txids(refs);
    ok := true;
  }

  lemma DistinctExtends(ids: seq<Hash>, id: Hash)
    ensures Distinct(ids + [id]) <==> Distinct(ids) && id !in ids
  {
    var all := ids + [id];
    if Distinct(all) {
      forall i, j | 0 <= i < j < |ids| ensures ids[i] != ids[j] {
        assert all[i] == ids[i] && all[j] == ids[j];
      }
      forall i | 0 <= i < |ids| ensures ids[i] != id {
        assert all[i] == ids[i] && all[|ids|] == id;
      }
    }
  }

  lemma DistinctPrefix(ids: seq<Hash>, n: nat)
    requires n <= |ids|
    ensures Distinct(ids) ==> Distinct(ids[..n])
  {
    forall i, j | Distinct(ids) && 0 <= i < j < n ensures ids[..n][i] != ids[..n][j] {
      assert ids[i] != ids[j];
    }
  }

  lemma {:induction false} InventoryStops(source: Source, author: Hash, g: Geometry, refs: seq<Reference>, j: nat, n: nat)
    requires g.Valid() && j < n <= g.leaves == |refs| && LeafRefs(source, author, g, refs[j], j).None?
    ensures Inventory(source, author, g, refs, n) == None
  {
    hide LeafRefs;
    if j < n - 1 {
      InventoryStops(source, author, g, refs, j, n - 1);
    }
  }

  lemma {:induction false} PayloadStops(source: Source, author: Hash, g: Geometry, inventory: seq<Reference>, i: nat, n: nat)
    requires g.Valid() && i < n <= g.parts == |inventory| && PartBytes(source, author, g, inventory[i], i).None?
    ensures Payload(source, author, g, inventory, n) == None
  {
    hide PartBytes;
    if i < n - 1 {
      PayloadStops(source, author, g, inventory, i, n - 1);
    }
  }

  lemma {:induction false} InventoryGrows(source: Source, author: Hash, g: Geometry, refs: seq<Reference>, k: nat, n: nat)
    requires g.Valid() && k <= n <= g.leaves == |refs| && Inventory(source, author, g, refs, n).Some?
    ensures Inventory(source, author, g, refs, k).Some?
    ensures Inventory(source, author, g, refs, k).value <= Inventory(source, author, g, refs, n).value
  {
    hide LeafRefs;
    if k < n {
      InventoryGrows(source, author, g, refs, k, n - 1);
    }
  }

  /** The loop over leaves: every leaf checked, every reference of every leaf distinct. */
  method ReadLeaves(source: Source, author: Hash, g: Geometry, refs: seq<Reference>, seen: set<Hash>, ghost ids: seq<Hash>)
    returns (inventory: Option<seq<Reference>>)
    requires g.Valid() && g.leaves == |refs| && Seen(seen, ids)
    ensures var all := Inventory(source, author, g, refs, g.leaves);
            inventory == if all.Some? && Distinct(ids + Txids(all.value)) then all else None
  {
    hide LeafRefs;
    hide Distinct;
    hide Seen;
    hide Inventory;
    ghost var all := Inventory(source, author, g, refs, g.leaves);
    var list: seq<Reference> := [];
    var known := seen;
    InventoryStarts(source, author, g, refs);
    assert ids + Txids([]) == ids;
    for j := 0 to g.leaves
      invariant Inventory(source, author, g, refs, j) == Some(list)
      invariant Seen(known, ids + Txids(list))
    {
      InventoryUnfolds(source, author, g, refs, j);
      var entries := LeafRefs(source, author, g, refs[j], j);
      if entries.None? {
        InventoryStops(source, author, g, refs, j, g.leaves);
        return None;
      }
      var ok, more := AddDistinct(known, ids + Txids(list), entries.value);
      assert ids + Txids(list) + Txids(entries.value) == ids + Txids(list + entries.value);
      if !ok {
        if all.Some? {
          InventoryGrows(source, author, g, refs, j + 1, g.leaves);
          TxidsPrefix(ids, list + entries.value, all.value);
        }
        return None;
      }
      list, known := list + entries.value, more;
    }
    SeenIsDistinct(known, ids + Txids(list));
    inventory := Some(list);
  }

  lemma SeenIsDistinct(seen: set<Hash>, ids: seq<Hash>)
    requires Seen(seen, ids)
    ensures Distinct(ids)
  {}

  lemma InventoryStarts(source: Source, author: Hash, g: Geometry, refs: seq<Reference>)
    requires g.Valid() && g.leaves == |refs|
    ensures Inventory(source, author, g, refs, 0) == Some([])
  {}

  lemma InventoryUnfolds(source: Source, author: Hash, g: Geometry, refs: seq<Reference>, j: nat)
    requires g.Valid() && j < g.leaves == |refs| && Inventory(source, author, g, refs, j).Some?
    ensures var entries := LeafRefs(source, author, g, refs[j], j);
            Inventory(source, author, g, refs, j + 1)
            == if entries.Some? then Some(Inventory(source, author, g, refs, j).value + entries.value) else None
  {
    hide LeafRefs;
  }

  lemma TxidsPrefix(ids: seq<Hash>, some: seq<Reference>, all: seq<Reference>)
    requires some <= all && !Distinct(ids + Txids(some))
    ensures !Distinct(ids + Txids(all))
  {
    hide Distinct;
    DistinctPrefix(ids + Txids(all), |ids| + |some|);
    assert (ids + Txids(all))[..|ids| + |some|] == ids + Txids(some);
  }

  /** The loop over parts. */
  method ReadParts(source: Source, author: Hash, g: Geometry, inventory: seq<Reference>) returns (payload: Option<seq<byte>>)
    requires g.Valid() && g.parts == |inventory|
    ensures payload == Payload(source, author, g, inventory, g.parts)
  {
    hide PartBytes;
    var output: seq<byte> := [];
    for i := 0 to g.parts
      invariant Payload(source, author, g, inventory, i) == Some(output)
    {
      var bytes := PartBytes(source, author, g, inventory[i], i);
      if bytes.None? {
        PayloadStops(source, author, g, inventory, i, g.parts);
        return None;
      }
      output := output + bytes.value;
    }
    payload := Some(output);
  }

  /** `reconstruct`; the final check of the length never fails. */
  method Reconstruct(source: Source, txid: Hash) returns (r: Option<seq<byte>>)
    ensures r == Reconstructed(source, txid)
    ensures r.Some? ==> |r.value| == RootOf(source, txid).value.length
  {
    hide Decode;
    hide Inventory;
    hide Payload;
    hide NewGeometry;
    hide Distinct;
    hide Seen;
    hide RootOf;
    if RootOf(source, txid).None? {
      return None;
    }
    var root, author := RootOf(source, txid).value, source.nodes[txid].author;
    var g := NewGeometry(root.length).value;
    GeometryOf(root.length);
    OneSeen(txid);
    var ok, seen := AddDistinct({txid}, [txid], root.entries);
    if !ok {
      NotDistinctStays([txid] + Txids(root.entries), Inventory(source, author, g, root.entries, g.leaves));
      return None;
    }
    var inventory := ReadLeaves(source, author, g, root.entries, seen, [txid] + Txids(root.entries));
    if inventory.None? {
      return None;
    }
    LeavesPartition(g, g.leaves);
    var payload := ReadParts(source, author, g, inventory.value);
    if payload.None? {
      return None;
    }
    PartsPartition(g, g.parts);
    if |payload.value| != root.length || source.sha(payload.value) != root.payloadHash {
      return None;
    }
    r := payload;
  }

  lemma OneSeen(txid: Hash)
    ensures Seen({txid}, [txid])
  {}

  lemma NotDistinctStays(ids: seq<Hash>, more: Option<seq<Reference>>)
    requires !Distinct(ids)
    ensures more.Some? ==> !Distinct(ids + Txids(more.value))
  {
    hide Distinct;
    if more.Some? {
      DistinctPrefix(ids + Txids(more.value), |ids|);
      assert (ids + Txids(more.value))[..|ids|] == ids;
    }
  }
}
