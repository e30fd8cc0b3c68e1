/**
 Transaction inclusion in a block (`TransactionProof` and `BlockProofBuilder` in `inclusion.rs`, block
 integrity in `validation.rs`): four Merkle paths and the witness commitment of BIP 141, section
 "Commitment structure". Decoding and hashing are any functions.
 */
module BlockProofs {
  import opened Bytes
  import opened MerkleInclusion

  datatype Input = Input(isNull: bool, stack: seq<seq<byte>>)

  datatype Transaction = Transaction(txid: Hash, wtxid: Hash, inputs: seq<Input>, outputs: seq<seq<byte>>) {
    predicate IsCoinbase() {
      |inputs| == 1 && inputs[0].isNull
    }
  }

  datatype Block = Block(root: Hash, transactions: seq<Transaction>)

  /** SHA-256d of two hashes, and of a witness root and a reserved value. */
  datatype Hashing = Hashing(pair: Pairing, commit: (Hash, seq<byte>) -> Hash)

  const MAGIC: seq<byte> := [0x6a, 0x24, 0xaa, 0x21, 0xa9, 0xed]
  predicate IsCommitment(script: seq<byte>) {
    |script| >= 38 && script[..6] == MAGIC
  }

  /** The commitment in the last output that carries one. */
  function Commitment(outputs: seq<seq<byte>>): Option<seq<byte>>
  {
    if outputs == [] then None
    else
      var init, last := outputs[..|outputs| - 1], outputs[|outputs| - 1];
      if IsCommitment(last) then Some(last[6..38]) else Commitment(init)
  }

  /** The commitment is the 32 bytes after the mark of an output that carries one, with no later output that does. */
  lemma {:induction false} CommitmentIsTheLast(outputs: seq<seq<byte>>) returns (k: nat)
    ensures Commitment(outputs).Some? ==>
              && k < |outputs| && |outputs[k]| >= 38 && outputs[k][..6] == [0x6a, 0x24, 0xaa, 0x21, 0xa9, 0xed]
              && Commitment(outputs).value == outputs[k][6..38]
              && forall j :: k < j < |outputs| ==> !(|outputs[j]| >= 38 && outputs[j][..6] == [0x6a, 0x24, 0xaa, 0x21, 0xa9, 0xed])
    ensures Commitment(outputs).None? ==>
              forall j :: 0 <= j < |outputs| ==> !(|outputs[j]| >= 38 && outputs[j][..6] == [0x6a, 0x24, 0xaa, 0x21, 0xa9, 0xed])
  {
    k := 0;
    if outputs != [] {
      var n := |outputs| - 1;
      if IsCommitment(outputs[n]) {
        k := n;
      } else {
        k := CommitmentIsTheLast(outputs[..n]);
      }
    }
  }

  function Txids(ts: seq<Transaction>): (r: seq<Hash>)
    ensures |r| == |ts| 
    ensures forall i :: 0 <= i < |ts| ==> r[i] == ts[i].txid
  {
    seq(|ts|, i requires 0 <= i < |ts| => ts[i].txid)
  }

  /** The coinbase counts as zero in the witness tree. */
  function WitnessHash(ts: seq<Transaction>, i: nat): Hash
    requires i < |ts|
  {
    if i == 0 then Zeros(32) else ts[i].wtxid
  }

  function Wtxids(ts: seq<Transaction>): (r: seq<Hash>)
    ensures |r| == |ts| 
    ensures forall i :: 0 <= i < |ts| ==> r[i] == WitnessHash(ts, i)
  {
    seq(|ts|, i requires 0 <= i < |ts| => WitnessHash(ts, i))
  }

  predicate Plain(t: Transaction) {
    forall i :: i in t.inputs ==> i.stack == []
  }

  predicate AllPlain(ts: seq<Transaction>) {
    forall t :: t in ts ==> Plain(t)
  }

  predicate HoldsReserved(coinbase: Transaction) {
    coinbase.IsCoinbase() && |coinbase.inputs[0].stack| == 1 && |coinbase.inputs[0].stack[0]| == 32
  }

  /** `check_witness_commitment`. */
  predicate WitnessesCommitted(hashing: Hashing, ts: seq<Transaction>) {
    if ts == [] then false
    else match Commitment(ts[0].outputs)
         case Some(c) =>
           HoldsReserved(ts[0]) && c == hashing.commit(Root(hashing.pair, Wtxids(ts)), ts[0].inputs[0].stack[0])
         case None => AllPlain(ts)
  }

  /** `validate_block_integrity` against the block's own hash. */
  predicate Integrity(hashing: Hashing, block: Block) {
    && block.transactions != []
    && block.root == Root(hashing.pair, Txids(block.transactions))
    && WitnessesCommitted(hashing, block.transactions)
  }

  datatype Proof = Proof(transaction: seq<byte>, txidPath: MerklePath, coinbase: seq<byte>, coinbasePath: MerklePath,
                         witnessPath: MerklePath, coinbaseWitnessPath: MerklePath)

  datatype Error = Path(cause: PathError) | Undecodable | BadIntegrity | TooLarge | InconsistentPaths
    | CoinbaseTarget | InvalidCoinbase | RootMismatch | InvalidReservedValue
    | MissingCommitment | WitnessRootMismatch | CommitmentMismatch

  datatype Verdict<T> = Accepted(value: T) | Rejected(error: Error)

  // ----- building

  /** What the builder keeps of a block. */
  datatype Builder = Builder(txids: seq<Hash>, wtxids: seq<Hash>, coinbases: seq<bool>)

  function NewBuilder(hashing: Hashing, block: Block): Verdict<Builder> {
    var ts := block.transactions;
    if |ts| > MAX_TRANSACTIONS then Rejected(TooLarge)
    else if !Integrity(hashing, block) then Rejected(BadIntegrity)
    else Accepted(Builder(Txids(ts), Wtxids(ts), seq(|ts|, i requires 0 <= i < |ts| => ts[i].IsCoinbase())))
  }

  function PathOf(hashing: Hashing, leaves: seq<Hash>, position: nat): MerklePath
    requires position < |leaves|
  {
    MerklePath(position, |leaves|, Siblings(hashing.pair, leaves, position))
  }

  function BuildProof(hashing: Hashing, b: Builder, position: nat, raw: seq<byte>, coinbase: seq<byte>): Verdict<Proof>
    requires |b.txids| == |b.wtxids| == |b.coinbases|
  {
    if position == 0 then Rejected(CoinbaseTarget)
    else if position >= |b.coinbases| then Rejected(Path(InvalidPath))
    else if b.coinbases[position] then Rejected(CoinbaseTarget)
    else Accepted(Proof(raw, PathOf(hashing, b.txids, position), coinbase, PathOf(hashing, b.txids, 0),
                        PathOf(hashing, b.wtxids, position), PathOf(hashing, b.wtxids, 0)))
  }

  function FromBlock(hashing: Hashing, block: Block, position: nat, raw: seq<byte>, coinbase: seq<byte>): Verdict<Proof> {
    match NewBuilder(hashing, block)
    case Rejected(e) => Rejected(e)
    case Accepted(b) => BuildProof(hashing, b, position, raw, coinbase)
  }

  /** `from_block`: build both trees, then read four paths off their levels. */
  method ProveFromBlock(hashing: Hashing, block: Block, position: nat, raw: seq<byte>, coinbase: seq<byte>)
    returns (r: Verdict<Proof>)
    ensures r == FromBlock(hashing, block, position, raw, coinbase)
  {
    hide Siblings;
    hide Levels;
    hide Integrity;
    hide Txids;
    hide Wtxids;
    var ts := block.transactions;
    if |ts| > MAX_TRANSACTIONS {
      return Rejected(TooLarge);
    }
    if !Integrity(hashing, block) {
      return Rejected(BadIntegrity);
    }
    var txids, wtxids := Txids(ts), Wtxids(ts);
    var txidLevels := BuildLevels(hashing.pair, txids);
    var witnessLevels := BuildLevels(hashing.pair, wtxids);
    if position == 0 {
      return Rejected(CoinbaseTarget);
    }
    if position >= |ts| {
      return Rejected(Path(InvalidPath));
    }
    if ts[position].IsCoinbase() {
      return Rejected(CoinbaseTarget);
    }
    var p := ExtractPath(hashing.pair, txids, txidLevels, position);
    var q := ExtractPath(hashing.pair, txids, txidLevels, 0);
    var s := ExtractPath(hashing.pair, wtxids, witnessLevels, position);
    var t := ExtractPath(hashing.pair, wtxids, witnessLevels, 0);
    r := Accepted(Proof(raw, p, coinbase, q, s, t));
  }

  // ----- verifying

  function FirstBad(paths: seq<MerklePath>): Option<PathError> {
    if paths == [] then None
    else match Checked(paths[0])
         case Some(e) => Some(e)
         case None => FirstBad(paths[1..])
  }

  function Paths(proof: Proof): seq<MerklePath> {
    [proof.txidPath, proof.coinbasePath, proof.witnessPath, proof.coinbaseWitnessPath]
  }

  /** The part of `verify` about the witness commitment. */
  function VerifyWitness(hashing: Hashing, proof: Proof, transaction: Transaction, coinbase: Transaction): Verdict<nat>
    requires coinbase.IsCoinbase()
  {
    var stack := coinbase.inputs[0].stack;
    if |stack| != 1 || |stack[0]| != 32 then Rejected(InvalidReservedValue)
    else match Commitment(coinbase.outputs)
         case None => Rejected(MissingCommitment)
         case Some(commitment) =>
           match PathRoot(hashing.pair, proof.witnessPath, transaction.wtxid)
           case Err(e) => Rejected(Path(e))
           case Ok(root) =>
             match PathRoot(hashing.pair, proof.coinbaseWitnessPath, Zeros(32))
             case Err(e) => Rejected(Path(e))
             case Ok(other) =>
               if other != root then Rejected(WitnessRootMismatch)
               else if hashing.commit(root, stack[0]) != commitment then Rejected(CommitmentMismatch)
               else Accepted(proof.txidPath.index)
  }

  /** `verify`, against the Merkle root of a header: the position of the transaction. */
  function Verify(hashing: Hashing, decode: seq<byte> -> Option<Transaction>, proof: Proof, root: Hash): Verdict<nat> {
    if FirstBad(Paths(proof)).Some? then Rejected(Path(FirstBad(Paths(proof)).value))
    else if || proof.coinbasePath.count != proof.txidPath.count
            || proof.witnessPath.count != proof.txidPath.count
            || proof.coinbaseWitnessPath.count != proof.txidPath.count
            || proof.txidPath.index != proof.witnessPath.index
            || proof.coinbasePath.index != 0
            || proof.coinbaseWitnessPath.index != 0 then Rejected(InconsistentPaths)
    else if proof.txidPath.index == 0 then Rejected(CoinbaseTarget)
    else match decode(proof.transaction)
         case None => Rejected(Undecodable)
         case Some(transaction) =>
           match decode(proof.coinbase)
           case None => Rejected(Undecodable)
           case Some(coinbase) =>
             if transaction.IsCoinbase() then Rejected(CoinbaseTarget)
             else if !coinbase.IsCoinbase() then Rejected(InvalidCoinbase)
             else match PathRoot(hashing.pair, proof.txidPath, transaction.txid)
                  case Err(e) => Rejected(Path(e))
                  case Ok(r) =>
                    if r != root then Rejected(RootMismatch)
                    else match PathRoot(hashing.pair, proof.coinbasePath, coinbase.txid)
                         case Err(e) => Rejected(Path(e))
                         case Ok(c) =>
                           if c != root then Rejected(RootMismatch)
                           else VerifyWitness(hashing, proof, transaction, coinbase)
  }

  // ----- completeness

  lemma BuiltPath(hashing: Hashing, leaves: seq<Hash>, position: nat)
    requires position < |leaves| <= MAX_TRANSACTIONS
    ensures var path := PathOf(hashing, leaves, position);
            Checked(path) == None && PathRoot(hashing.pair, path, leaves[position]) == Ok(Root(hashing.pair, leaves))
  {
    hide Siblings;
    hide Climb;
    PathIsAccepted(hashing.pair, leaves, position);
  }

  lemma BuiltPathsChecked(proof: Proof)
    requires Checked(proof.txidPath) == None && Checked(proof.coinbasePath) == None
    requires Checked(proof.witnessPath) == None && Checked(proof.coinbaseWitnessPath) == None
    ensures FirstBad(Paths(proof)) == None
  {
    hide Checked;
    var p, q, r, t := proof.txidPath, proof.coinbasePath, proof.witnessPath, proof.coinbaseWitnessPath;
    assert FirstBad([]) == None;
    FirstBadUnfolds(t, []);
    FirstBadUnfolds(r, [t]);
    FirstBadUnfolds(q, [r, t]);
    FirstBadUnfolds(p, [q, r, t]);
  }

  lemma FirstBadUnfolds(path: MerklePath, rest: seq<MerklePath>)
    ensures FirstBad([path] + rest) == if Checked(path).Some? then Checked(path) else FirstBad(rest)
  {
    assert ([path] + rest)[1..] == rest;
  }

  /**
   The proof built for any noncoinbase position of an intact block of at most a million transactions
   verifies at that position exactly when the coinbase carries a witness commitment.
   */
  lemma BuiltProofVerifies(hashing: Hashing, decode: seq<byte> -> Option<Transaction>, block: Block, position: nat,
                           raw: seq<byte>, coinbase: seq<byte>)
    requires |block.transactions| <= MAX_TRANSACTIONS && Integrity(hashing, block)
    requires 0 < position < |block.transactions| && !block.transactions[position].IsCoinbase()
    requires decode(raw) == Some(block.transactions[position]) && decode(coinbase) == Some(block.transactions[0])
    ensures FromBlock(hashing, block, position, raw, coinbase).Accepted?
    ensures Verify(hashing, decode, FromBlock(hashing, block, position, raw, coinbase).value, block.root) == Accepted(position)
            <==> Commitment(block.transactions[0].outputs).Some?
  {
    hide Siblings;
    hide Climb;
    hide Checked;
    hide PathRoot;
    hide Root;
    hide FirstBad;
    hide Commitment;
    hide IsCommitment;
    var ts := block.transactions;
    BuiltPath(hashing, Txids(ts), position);
    BuiltPath(hashing, Txids(ts), 0);
    BuiltPath(hashing, Wtxids(ts), position);
    BuiltPath(hashing, Wtxids(ts), 0);
    BuiltPathsChecked(FromBlock(hashing, block, position, raw, coinbase).value);
  }

  // ----- soundness

  /** What an adversary must have found to pass off a transaction that is not in the block. */
  datatype Forgery = Pairs(pairs: Collision)
    | Commitments(root: Hash, reserved: seq<byte>, root2: Hash, reserved2: seq<byte>)
    | Coinbases(one: Transaction, other: Transaction)
  {
    predicate Breaks(hashing: Hashing) {
      match this
      case Pairs(c) => c.Breaks(hashing.pair)
      case Commitments(r, v, r2, v2) => (r, v) != (r2, v2) && hashing.commit(r, v) == hashing.commit(r2, v2)
      case Coinbases(one, other) => one.txid == other.txid && one.outputs != other.outputs
    }
  }

  /** What acceptance says of the decoded transactions. */
  lemma AcceptedShape(hashing: Hashing, decode: seq<byte> -> Option<Transaction>, proof: Proof, root: Hash)
    requires Verify(hashing, decode, proof, root).Accepted?
    ensures Verify(hashing, decode, proof, root).value == proof.txidPath.index == proof.witnessPath.index > 0
    ensures proof.coinbasePath.index == proof.coinbaseWitnessPath.index == 0
    ensures proof.coinbasePath.count == proof.witnessPath.count == proof.coinbaseWitnessPath.count == proof.txidPath.count
    ensures decode(proof.transaction).Some? && decode(proof.coinbase).Some?
    ensures PathRoot(hashing.pair, proof.txidPath, decode(proof.transaction).value.txid) == Ok(root)
    ensures PathRoot(hashing.pair, proof.coinbasePath, decode(proof.coinbase).value.txid) == Ok(root)
    ensures decode(proof.coinbase).value.IsCoinbase()
    ensures VerifyWitness(hashing, proof, decode(proof.transaction).value, decode(proof.coinbase).value).Accepted?
  {
    hide PathRoot;
    hide FirstBad;
    hide Commitment;
  }

  lemma WitnessShape(hashing: Hashing, proof: Proof, transaction: Transaction, coinbase: Transaction)
    requires coinbase.IsCoinbase() && VerifyWitness(hashing, proof, transaction, coinbase).Accepted?
    ensures HoldsReserved(coinbase) && Commitment(coinbase.outputs).Some?
    ensures PathRoot(hashing.pair, proof.witnessPath, transaction.wtxid).Ok?
    ensures hashing.commit(PathRoot(hashing.pair, proof.witnessPath, transaction.wtxid).value, coinbase.inputs[0].stack[0])
         == Commitment(coinbase.outputs).value
  {
    hide PathRoot;
    hide Commitment;
  }

  /**
   Exactly these proofs are accepted: four well-formed paths with one count, target and coinbase in their
   places and of their kinds, both transactions under the header's root, and the target and a zero coinbase
   under one witness root, to which the coinbase commits.
   */
  lemma AcceptedIff(hashing: Hashing, decode: seq<byte> -> Option<Transaction>, proof: Proof, root: Hash)
    ensures Verify(hashing, decode, proof, root).Accepted? <==>
            && Checked(proof.txidPath) == None && Checked(proof.coinbasePath) == None
            && Checked(proof.witnessPath) == None && Checked(proof.coinbaseWitnessPath) == None
            && proof.coinbasePath.count == proof.witnessPath.count == proof.coinbaseWitnessPath.count == proof.txidPath.count
            && proof.txidPath.index == proof.witnessPath.index > 0 && proof.coinbasePath.index == proof.coinbaseWitnessPath.index == 0
            && decode(proof.transaction).Some? && decode(proof.coinbase).Some?
            && var t, c := decode(proof.transaction).value, decode(proof.coinbase).value;
               && !t.IsCoinbase() && HoldsReserved(c) && Commitment(c.outputs).Some?
               && PathRoot(hashing.pair, proof.txidPath, t.txid) == Ok(root)
               && PathRoot(hashing.pair, proof.coinbasePath, c.txid) == Ok(root)
               && var top := PathRoot(hashing.pair, proof.witnessPath, t.wtxid);
                  && top.Ok? && PathRoot(hashing.pair, proof.coinbaseWitnessPath, Zeros(32)) == top
                  && hashing.commit(top.value, c.inputs[0].stack[0]) == Commitment(c.outputs).value
  {
    hide PathRoot;
    hide Checked;
    hide Commitment;
    hide FirstBad;
    hide VerifyWitness;
    FirstBadIff(proof);
    if decode(proof.transaction).Some? && decode(proof.coinbase).Some? && decode(proof.coinbase).value.IsCoinbase() {
      WitnessIff(hashing, proof, decode(proof.transaction).value, decode(proof.coinbase).value);
    }
  }

  lemma FirstBadIff(proof: Proof)
    ensures FirstBad(Paths(proof)).None? <==>
            && Checked(proof.txidPath) == None && Checked(proof.coinbasePath) == None
            && Checked(proof.witnessPath) == None && Checked(proof.coinbaseWitnessPath) == None
  {
    hide Checked;
    var p, q, r, t := proof.txidPath, proof.coinbasePath, proof.witnessPath, proof.coinbaseWitnessPath;
    assert FirstBad([]) == None;
    FirstBadUnfolds(t, []);
    FirstBadUnfolds(r, [t]);
    FirstBadUnfolds(q, [r, t]);
    FirstBadUnfolds(p, [q, r, t]);
  }

  lemma WitnessIff(hashing: Hashing, proof: Proof, t: Transaction, c: Transaction)
    requires c.IsCoinbase()
    ensures VerifyWitness(hashing, proof, t, c).Accepted? <==>
            && HoldsReserved(c) && Commitment(c.outputs).Some?
            && var top := PathRoot(hashing.pair, proof.witnessPath, t.wtxid);
               && top.Ok? && PathRoot(hashing.pair, proof.coinbaseWitnessPath, Zeros(32)) == top
               && hashing.commit(top.value, c.inputs[0].stack[0]) == Commitment(c.outputs).value
  {
    hide PathRoot;
    hide Commitment;
    hide Zeros;
  }

  /** A path with the tree's own count that reaches its root starts at its leaf. */
  lemma OnlyTheLeaf(pair: Pairing, leaves: seq<Hash>, path: MerklePath, h: Hash) returns (x: Collision)
    requires path.count == |leaves| > 0 && PathRoot(pair, path, h) == Ok(Root(pair, leaves))
    ensures path.index < |leaves| && (h == leaves[path.index] || x.Breaks(pair))
  {
    hide Climb;
    hide Root;
    x := OnlyTheLeafClimbs(pair, leaves, path.siblings, path.index, h);
  }

  /**
   An accepted proof with the block's own transaction count carries the transaction at its position, witness
   included, or shows how a hash was broken.
   */
  lemma AcceptedIsIncluded(hashing: Hashing, decode: seq<byte> -> Option<Transaction>, block: Block, proof: Proof)
    returns (x: Forgery)
    requires Integrity(hashing, block) && proof.txidPath.count == |block.transactions|
    requires Verify(hashing, decode, proof, block.root).Accepted?
    ensures var i := Verify(hashing, decode, proof, block.root).value;
            && 0 < i < |block.transactions| && decode(proof.transaction).Some?
            && var t, u := decode(proof.transaction).value, block.transactions[i];
               (t.txid == u.txid && t.wtxid == u.wtxid) || x.Breaks(hashing)
  {
    hide Verify;
    hide VerifyWitness;
    hide Root;
    hide PathRoot;
    hide Commitment;
    hide Plain;
    hide Collision.Breaks;
    var ts := block.transactions;
    AcceptedShape(hashing, decode, proof, block.root);
    var t, c := decode(proof.transaction).value, decode(proof.coinbase).value;
    WitnessShape(hashing, proof, t, c);
    var y := OnlyTheLeaf(hashing.pair, Txids(ts), proof.txidPath, t.txid);
    var z := OnlyTheLeaf(hashing.pair, Txids(ts), proof.coinbasePath, c.txid);
    if y.Breaks(hashing.pair) {
      x := Pairs(y);
    } else if z.Breaks(hashing.pair) {
      x := Pairs(z);
    } else if c.outputs != ts[0].outputs {
      x := Coinbases(c, ts[0]);
    } else {
      var root, root2 := PathRoot(hashing.pair, proof.witnessPath, t.wtxid).value, Root(hashing.pair, Wtxids(ts));
      x := Commitments(root, c.inputs[0].stack[0], root2, ts[0].inputs[0].stack[0]);
      if !x.Breaks(hashing) {
        var w := OnlyTheLeaf(hashing.pair, Wtxids(ts), proof.witnessPath, t.wtxid);
        x := Pairs(w);
      }
    }
  }
}
