/** Publishing an object as a graph of records and rebuilding it: each undoes the other. */
module MultipartRoundTrip {
  import opened Bytes
  import opened Records
  import opened Multipart
  import opened MultipartGraph

  /** An object, and the transactions that carry its records. */
  datatype Graph = Graph(payload: seq<byte>, profile: Tag, sha: seq<byte> -> Hash, root: Hash, leaf: nat -> Hash, part: nat -> Hash) {
    predicate Fits() {
      |payload| <= MAX_OBJECT
    }

    function Shape(): (g: Geometry)
      requires Fits()
      ensures g.Valid() && g.length == |payload|
    {
      GeometryOf(|payload|);
      NewGeometry(|payload|).value
    }

    function Piece(i: nat): (s: seq<byte>)
      requires Fits() && i < Shape().parts
      ensures |s| == Shape().PartLength(i)
    {
      PartStarts(Shape(), i);
      payload[i * DATA_BYTES..i * DATA_BYTES + Shape().PartLength(i)]
    }

    function PartRecord(i: nat): (r: Record)
      requires Fits() && i < Shape().parts
      ensures r.Encodable() && r.Data?
    {
      GeometryBounds(Shape());
      Data(i, Piece(i))
    }

    function PartRef(i: nat): Reference
      requires Fits() && i < Shape().parts
    {
      Reference(part(i), sha(PartRecord(i).Encoded()))
    }

    function PartRefs(first: nat, n: nat): (refs: seq<Reference>)
      requires Fits() && first + n <= Shape().parts
      ensures |refs| == n && forall i :: 0 <= i < n ==> refs[i] == PartRef(first + i)
    {
      seq(n, i requires 0 <= i < n => PartRef(first + i))
    }

    function LeafRecord(j: nat): (r: Record)
      requires Fits() && j < Shape().leaves
      ensures r.Encodable() && r.Leaf?
    {
      GeometryBounds(Shape());
      Leaf(j, PartRefs(j * FANOUT, Shape().LeafEntries(j)))
    }

    function LeafRef(j: nat): Reference
      requires Fits() && j < Shape().leaves
    {
      Reference(leaf(j), sha(LeafRecord(j).Encoded()))
    }

    function LeafRefList(): (refs: seq<Reference>)
      requires Fits()
      ensures |refs| == Shape().leaves && forall j :: 0 <= j < Shape().leaves ==> refs[j] == LeafRef(j)
    {
      seq(Shape().leaves, j requires 0 <= j < Shape().leaves => LeafRef(j))
    }

    function RootRecord(): (r: Record)
      requires Fits()
      ensures r.Encodable() && r.Root?
    {
      Root(|payload|, sha(payload), profile, LeafRefList())
    }

    /** Every transaction id of the graph. */
    function Ids(): seq<Hash>
      requires Fits()
    {
      [root] + Txids(LeafRefList()) + Txids(PartRefs(0, Shape().parts))
    }

    predicate RootPublished(source: Source, author: Hash)
      requires Fits()
    {
      root in source.nodes && source.nodes[root] == Signed(author, RootRecord().Encoded())
    }

    predicate LeafPublished(source: Source, author: Hash, j: nat)
      requires Fits() && j < Shape().leaves
    {
      leaf(j) in source.nodes && source.nodes[leaf(j)] == Signed(author, LeafRecord(j).Encoded())
    }

    predicate PartPublished(source: Source, author: Hash, i: nat)
      requires Fits() && i < Shape().parts
    {
      part(i) in source.nodes && source.nodes[part(i)] == Signed(author, PartRecord(i).Encoded())
    }

    /** Every record of the graph is in the source, in its transaction, by one author. */
    ghost predicate Published(source: Source, author: Hash)
      requires Fits()
    {
      && source.sha == sha
      && RootPublished(source, author)
      && (forall j :: 0 <= j < Shape().leaves ==> LeafPublished(source, author, j))
      && (forall i :: 0 <= i < Shape().parts ==> PartPublished(source, author, i))
    }

    predicate Within(source: Source)
      requires Fits()
    {
      |payload| <= source.maxBytes && Shape().Nodes() <= source.maxNodes
    }
  }

  // ----- a published graph is rebuilt

  lemma PublishedLeaf(graph: Graph, source: Source, author: Hash, j: nat)
    requires graph.Fits() && graph.Published(source, author) && j < graph.Shape().leaves
    ensures LeafRefs(source, author, graph.Shape(), graph.LeafRef(j), j) == Some(graph.LeafRecord(j).entries)
  {
    hide Decode;
    hide Record.Encoded;
    hide Record.Encodable;
    hide NewGeometry;
    assert graph.LeafPublished(source, author, j);
    EncodeThenDecode(graph.LeafRecord(j));
  }

  lemma PublishedPart(graph: Graph, source: Source, author: Hash, i: nat)
    requires graph.Fits() && graph.Published(source, author) && i < graph.Shape().parts
    ensures PartBytes(source, author, graph.Shape(), graph.PartRef(i), i) == Some(graph.Piece(i))
  {
    hide Decode;
    hide Record.Encoded;
    hide Record.Encodable;
    hide NewGeometry;
    hide Graph.Piece;
    assert graph.PartPublished(source, author, i);
    EncodeThenDecode(graph.PartRecord(i));
  }

  lemma {:induction false} PublishedInventory(graph: Graph, source: Source, author: Hash, n: nat)
    requires graph.Fits() && graph.Published(source, author) && n <= graph.Shape().leaves
    ensures LeavesParts(graph.Shape(), n) <= graph.Shape().parts
    ensures Inventory(source, author, graph.Shape(), graph.LeafRefList(), n) == Some(graph.PartRefs(0, LeavesParts(graph.Shape(), n)))
  {
    hide LeafRefs;
    hide Graph.Published;
    hide Graph.Shape;
    hide Graph.PartRef;
    hide Graph.LeafRef;
    hide Geometry.LeafEntries;
    hide Geometry.Valid;
    var g := graph.Shape();
    LeavesPartition(g, n);
    LeafBound(g, n);
    if n > 0 {
      var j := n - 1;
      LeavesPartition(g, j);
      PublishedInventory(graph, source, author, j);
      PublishedLeaf(graph, source, author, j);
      assert graph.PartRefs(0, j * FANOUT) + graph.PartRefs(j * FANOUT, g.LeafEntries(j)) == graph.PartRefs(0, LeavesParts(g, n));
    } else {
      assert graph.PartRefs(0, 0) == [];
    }
  }

  lemma LeafBound(g: Geometry, n: nat)
    requires g.Valid() && n <= g.leaves
    ensures LeavesParts(g, n) <= g.parts
    ensures n > 0 ==> (n - 1) * FANOUT + g.LeafEntries(n - 1) <= g.parts
  {
    GeometryBounds(g);
    LeavesPartition(g, n);
  }

  lemma {:induction false} PublishedPayload(graph: Graph, source: Source, author: Hash, n: nat)
    requires graph.Fits() && graph.Published(source, author) && n <= graph.Shape().parts
    ensures PartsLength(graph.Shape(), n) <= |graph.payload|
    ensures Payload(source, author, graph.Shape(), graph.PartRefs(0, graph.Shape().parts), n)
         == Some(graph.payload[..PartsLength(graph.Shape(), n)])
  {
    hide PartBytes;
    hide Graph.Published;
    hide Graph.Shape;
    hide Graph.PartRef;
    hide Geometry.Valid;
    hide Geometry.PartLength;
    var g := graph.Shape();
    PartBound(g, n);
    if n > 0 {
      var i := n - 1;
      PartBound(g, i);
      PartsPartition(g, i);
      PublishedPayload(graph, source, author, i);
      PublishedPart(graph, source, author, i);
      assert graph.payload[..i * DATA_BYTES] + graph.Piece(i) == graph.payload[..PartsLength(g, n)];
    }
  }

  lemma PartBound(g: Geometry, n: nat)
    requires g.Valid() && n <= g.parts
    ensures PartsLength(g, n) <= g.length
  {
    GeometryBounds(g);
    PartsPartition(g, n);
    if n < g.parts {
      PartStarts(g, n);
    }
  }

  lemma PublishedRoot(graph: Graph, source: Source, author: Hash)
    requires graph.Fits() && graph.Published(source, author) && graph.Within(source)
    ensures RootOf(source, graph.root) == Some(graph.RootRecord()) && source.nodes[graph.root].author == author
  {
    hide Decode;
    hide Record.Encoded;
    hide Record.Encodable;
    hide NewGeometry;
    EncodeThenDecode(graph.RootRecord());
  }

  /** An object published in distinct transactions is rebuilt from its root. */
  lemma PublishedIsRebuilt(graph: Graph, source: Source, author: Hash)
    requires graph.Fits() && graph.Published(source, author) && graph.Within(source) && Distinct(graph.Ids())
    ensures Reconstructed(source, graph.root) == Some(graph.payload)
  {
    hide RootOf;
    hide Inventory;
    hide Payload;
    hide Distinct;
    hide NewGeometry;
    hide Graph.PartRefs;
    hide Graph.LeafRefList;
    hide Graph.RootPublished;
    hide Graph.LeafPublished;
    hide Graph.PartPublished;
    hide Record.Encodable;
    var g := graph.Shape();
    PublishedRoot(graph, source, author);
    PublishedInventory(graph, source, author, g.leaves);
    LeavesPartition(g, g.leaves);
    PublishedPayload(graph, source, author, g.parts);
    PartsPartition(g, g.parts);
    assert graph.payload[..|graph.payload|] == graph.payload;
  }

  // ----- what is rebuilt was published

  lemma SliceStays<T>(s: seq<T>, t: seq<T>, lo: nat, hi: nat)
    requires lo <= hi <= |s|
    ensures (s + t)[lo..hi] == s[lo..hi]
  {}

  lemma {:induction false} PayloadHolds(source: Source, author: Hash, g: Geometry, inventory: seq<Reference>, i: nat, n: nat)
    requires g.Valid() && i < n <= g.parts == |inventory| && Payload(source, author, g, inventory, n).Some?
    ensures var out := Payload(source, author, g, inventory, n).value;
            && i * DATA_BYTES + g.PartLength(i) <= |out|
            && PartBytes(source, author, g, inventory[i], i) == Some(out[i * DATA_BYTES..i * DATA_BYTES + g.PartLength(i)])
  {
    hide PartBytes;
    hide Geometry.Valid;
    hide Geometry.PartLength;
    if i < n - 1 {
      PayloadHolds(source, author, g, inventory, i, n - 1);
      var most, last := Payload(source, author, g, inventory, n - 1).value, PartBytes(source, author, g, inventory[n - 1], n - 1).value;
      SliceStays(most, last, i * DATA_BYTES, i * DATA_BYTES + g.PartLength(i));
    } else {
      PartsPartition(g, i);
      var most, last := Payload(source, author, g, inventory, i).value, PartBytes(source, author, g, inventory[i], i).value;
      assert (most + last)[|most|..|most| + |last|] == last;
    }
  }

  lemma {:induction false} InventoryHolds(source: Source, author: Hash, g: Geometry, refs: seq<Reference>, j: nat, n: nat)
    requires g.Valid() && j < n <= g.leaves == |refs| && Inventory(source, author, g, refs, n).Some?
    ensures var list := Inventory(source, author, g, refs, n).value;
            && j * FANOUT + g.LeafEntries(j) <= |list|
            && LeafRefs(source, author, g, refs[j], j) == Some(list[j * FANOUT..j * FANOUT + g.LeafEntries(j)])
  {
    hide LeafRefs;
    hide Geometry.Valid;
    hide Geometry.LeafEntries;
    if j < n - 1 {
      InventoryHolds(source, author, g, refs, j, n - 1);
      var most, last := Inventory(source, author, g, refs, n - 1).value, LeafRefs(source, author, g, refs[n - 1], n - 1).value;
      SliceStays(most, last, j * FANOUT, j * FANOUT + g.LeafEntries(j));
    } else {
      LeavesPartition(g, j);
      var most, last := Inventory(source, author, g, refs, j).value, LeafRefs(source, author, g, refs[j], j).value;
      assert (most + last)[|most|..|most| + |last|] == last;
    }
  }

  /** A fetched record is in the source as its encoding. */
  lemma FetchedIsEncoded(source: Source, author: Hash, ref: Reference)
    requires Fetch(source, author, ref).Some?
    ensures var record := Fetch(source, author, ref).value;
            && record.Encodable() && ref.txid in source.nodes && source.nodes[ref.txid] == Signed(author, record.Encoded())
            && ref == Reference(ref.txid, source.sha(record.Encoded()))
  {
    hide Decode;
    hide Record.Encoded;
    hide Record.Encodable;
    DecodeThenEncode(source.nodes[ref.txid].record);
  }

  /** The graph that a successful reconstruction followed. */
  function Followed(source: Source, root: Record, txid: Hash, inventory: seq<Reference>, out: seq<byte>): Graph
    requires root.Root?
  {
    Graph(out, root.profile, source.sha, txid,
          (j: nat) => if j < |root.entries| then root.entries[j].txid else txid,
          (i: nat) => if i < |inventory| then inventory[i].txid else txid)
  }

  lemma RebuiltPart(graph: Graph, source: Source, author: Hash, inventory: seq<Reference>, i: nat)
    requires graph.Fits() && i < graph.Shape().parts == |inventory| && source.sha == graph.sha && graph.part(i) == inventory[i].txid
    requires PartBytes(source, author, graph.Shape(), inventory[i], i) == Some(graph.Piece(i))
    ensures graph.PartPublished(source, author, i) && inventory[i] == graph.PartRef(i)
  {
    hide Decode;
    hide Record.Encoded;
    hide Record.Encodable;
    hide Fetch;
    hide Graph.Piece;
    hide NewGeometry;
    FetchedIsEncoded(source, author, inventory[i]);
  }

  lemma RebuiltLeaf(graph: Graph, source: Source, author: Hash, refs: seq<Reference>, j: nat)
    requires graph.Fits() && j < graph.Shape().leaves == |refs| && source.sha == graph.sha && graph.leaf(j) == refs[j].txid
    requires LeafRefs(source, author, graph.Shape(), refs[j], j) == Some(graph.LeafRecord(j).entries)
    ensures graph.LeafPublished(source, author, j) && refs[j] == graph.LeafRef(j)
  {
    hide Decode;
    hide Record.Encoded;
    hide Record.Encodable;
    hide Fetch;
    hide Graph.PartRefs;
    hide NewGeometry;
    FetchedIsEncoded(source, author, refs[j]);
  }

  lemma RebuiltParts(graph: Graph, source: Source, author: Hash, inventory: seq<Reference>)
    requires graph.Fits() && |inventory| == graph.Shape().parts && source.sha == graph.sha
    requires forall i :: 0 <= i < |inventory| ==> graph.part(i) == inventory[i].txid
    requires Payload(source, author, graph.Shape(), inventory, graph.Shape().parts) == Some(graph.payload)
    ensures forall i :: 0 <= i < graph.Shape().parts ==> graph.PartPublished(source, author, i)
    ensures inventory == graph.PartRefs(0, graph.Shape().parts)
  {
    hide Graph.PartPublished;
    hide Graph.PartRef;
    hide Graph.Shape;
    hide PartBytes;
    hide Payload;
    hide Geometry.Valid;
    hide Geometry.PartLength;
    forall i | 0 <= i < |inventory| ensures graph.PartPublished(source, author, i) && inventory[i] == graph.PartRef(i) {
      PayloadHolds(source, author, graph.Shape(), inventory, i, |inventory|);
      RebuiltPart(graph, source, author, inventory, i);
    }
  }

  lemma RebuiltLeaves(graph: Graph, source: Source, author: Hash, refs: seq<Reference>)
    requires graph.Fits() && |refs| == graph.Shape().leaves && source.sha == graph.sha
    requires forall j :: 0 <= j < |refs| ==> graph.leaf(j) == refs[j].txid
    requires Inventory(source, author, graph.Shape(), refs, graph.Shape().leaves) == Some(graph.PartRefs(0, graph.Shape().parts))
    ensures forall j :: 0 <= j < graph.Shape().leaves ==> graph.LeafPublished(source, author, j)
    ensures refs == graph.LeafRefList()
  {
    hide Graph.LeafPublished;
    hide Graph.LeafRef;
    hide Graph.PartRef;
    hide Graph.Shape;
    hide LeafRefs;
    hide Inventory;
    hide Geometry.Valid;
    hide Geometry.LeafEntries;
    var g, list := graph.Shape(), graph.PartRefs(0, graph.Shape().parts);
    forall j | 0 <= j < |refs| ensures graph.LeafPublished(source, author, j) && refs[j] == graph.LeafRef(j) {
      InventoryHolds(source, author, g, refs, j, |refs|);
      assert list[j * FANOUT..j * FANOUT + g.LeafEntries(j)] == graph.PartRefs(j * FANOUT, g.LeafEntries(j));
      RebuiltLeaf(graph, source, author, refs, j);
    }
  }

  lemma RootShape(source: Source, txid: Hash)
    requires RootOf(source, txid).Some?
    ensures var root := RootOf(source, txid).value;
            && txid in source.nodes && root.Root? && root.Encodable() && root.length <= MAX_OBJECT
            && source.nodes[txid].record == root.Encoded() && |root.entries| == NewGeometry(root.length).value.leaves
            && root.length <= source.maxBytes && NewGeometry(root.length).value.Nodes() <= source.maxNodes
  {
    hide Decode;
    hide Record.Encoded;
    hide NewGeometry;
    DecodeThenEncode(source.nodes[txid].record);
  }

  /** Whatever is rebuilt was published: its source holds exactly the records of that object, in distinct transactions. */
  lemma RebuiltWasPublished(source: Source, txid: Hash) returns (graph: Graph)
    requires Reconstructed(source, txid).Some?
    ensures graph.root == txid && Some(graph.payload) == Reconstructed(source, txid) && graph.Fits()
    ensures txid in source.nodes && graph.Published(source, source.nodes[txid].author)
    ensures graph.Within(source) && Distinct(graph.Ids())
  {
    hide RootOf;
    hide Inventory;
    hide Payload;
    hide Distinct;
    hide NewGeometry;
    hide Graph.PartRefs;
    hide Graph.LeafRefList;
    hide Graph.LeafPublished;
    hide Graph.PartPublished;
    hide Record.Encoded;
    hide Record.Encodable;
    RootShape(source, txid);
    var root, author := RootOf(source, txid).value, source.nodes[txid].author;
    var g := NewGeometry(root.length).value;
    GeometryOf(root.length);
    LeavesPartition(g, g.leaves);
    PartsPartition(g, g.parts);
    var inventory := Inventory(source, author, g, root.entries, g.leaves).value;
    graph := Followed(source, root, txid, inventory, Reconstructed(source, txid).value);
    assert graph.Shape() == g;
    RebuiltParts(graph, source, author, inventory);
    RebuiltLeaves(graph, source, author, root.entries);
    assert graph.RootRecord() == root;
  }
}
