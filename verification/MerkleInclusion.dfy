/**
 Merkle inclusion proofs (`inclusion.rs`): building the levels of a tree, extracting a path, checking
 and evaluating it. The pair hash is any function; soundness is "or here is a collision".
 */
module MerkleInclusion {
  import opened Bytes

  type Hash = seq<byte>
  type Pairing = (Hash, Hash) -> Hash

  const MAX_TRANSACTIONS := 1_000_000
  const MAX_PATH_LEVELS := 20

  function Half(n: nat): nat {
    (n + 1) / 2
  }

  // ----- the tree

  /** The right child of pair `i`: an odd level repeats its last hash. */
  function Right(level: seq<Hash>, i: nat): Hash
    requires 2 * i < |level|
  {
    if 2 * i + 1 < |level| then level[2 * i + 1] else level[2 * i]
  }

  function Above(parent: Pairing, level: seq<Hash>): (up: seq<Hash>)
    ensures |up| == Half(|level|)
    ensures forall i :: 0 <= i < |up| ==> up[i] == parent(level[2 * i], Right(level, i))
  {
    seq(Half(|level|), i requires 0 <= i < Half(|level|) => parent(level[2 * i], Right(level, i)))
  }

  /** The Merkle root, level by level. */
  function Root(parent: Pairing, level: seq<Hash>): Hash
    requires level != []
    decreases |level|
  {
    if |level| == 1 then level[0] else Root(parent, Above(parent, level))
  }

  function Levels(parent: Pairing, level: seq<Hash>): (levels: seq<seq<Hash>>)
    ensures |levels| >= 1 && levels[0] == level
    decreases |level|
  {
    if |level| <= 1 then [level] else [level] + Levels(parent, Above(parent, level))
  }

  /** One pass of `chunks(2)` over a level. */
  method NextLevel(parent: Pairing, level: seq<Hash>) returns (next: seq<Hash>)
    ensures next == Above(parent, level)
  {
    next := [];
    for i := 0 to Half(|level|)
      invariant next == Above(parent, level)[..i]
    {
      next := next + [parent(level[2 * i], if 2 * i + 1 < |level| then level[2 * i + 1] else level[2 * i])];
    }
  }

  /** `build_levels`. */
  method BuildLevels(parent: Pairing, hashes: seq<Hash>) returns (levels: seq<seq<Hash>>)
    ensures levels == Levels(parent, hashes)
  {
    hide Levels;
    hide Above;
    var last := hashes;
    levels := [hashes];
    LevelsUnfold(parent, hashes);
    assert [] + Levels(parent, hashes) == Levels(parent, hashes);
    ghost var done: seq<seq<Hash>> := [];
    while |last| > 1
      invariant levels == done + [last]
      invariant done + Levels(parent, last) == Levels(parent, hashes)
      decreases |last|
    {
      LevelsUnfold(parent, last);
      var next := NextLevel(parent, last);
      assert done + ([last] + Levels(parent, next)) == done + [last] + Levels(parent, next);
      done := levels;
      levels := levels + [next];
      last := next;
    }
    LevelsUnfold(parent, last);
  }

  lemma LevelsUnfold(parent: Pairing, level: seq<Hash>)
    ensures |level| <= 1 ==> Levels(parent, level) == [level]
    ensures |level| > 1 ==> Levels(parent, level) == [level] + Levels(parent, Above(parent, level))
  {}

  // ----- paths

  /** The other child of the parent of `index`. */
  function Sibling(level: seq<Hash>, index: nat): Hash
    requires index < |level|
  {
    if index % 2 == 1 then level[index - 1] else Right(level, index / 2)
  }

  function Siblings(parent: Pairing, level: seq<Hash>, index: nat): seq<Hash>
    requires index < |level|
    decreases |level|
  {
    if |level| == 1 then []
    else [Sibling(level, index)] + Siblings(parent, Above(parent, level), index / 2)
  }

  datatype MerklePath = MerklePath(index: nat, count: nat, siblings: seq<Hash>)

  /** `path`: siblings of `position` in all levels but the last. */
  method ExtractPath(parent: Pairing, leaves: seq<Hash>, levels: seq<seq<Hash>>, position: nat)
    returns (path: MerklePath)
    requires position < |leaves| && levels == Levels(parent, leaves)
    ensures path == MerklePath(position, |leaves|, Siblings(parent, leaves, position))
  {
    hide Levels;
    hide Siblings;
    hide Above;
    hide Sibling;
    var index: nat := position;
    var siblings: seq<Hash> := [];
    ghost var level := leaves;
    assert levels[0..] == levels;
    for k := 0 to |levels| - 1
      invariant index < |level| && levels[k..] == Levels(parent, level)
      invariant siblings + Siblings(parent, level, index) == Siblings(parent, leaves, position)
    {
      LevelsUnfold(parent, level);
      assert levels[k] == levels[k..][0] == level;
      assert levels[k + 1..] == levels[k..][1..];
      var sibling := GetSibling(levels[k], index);
      SiblingsUnfold(parent, level, index);
      ghost var rest := Siblings(parent, Above(parent, level), index / 2);
      assert siblings + ([sibling] + rest) == siblings + [sibling] + rest;
      siblings := siblings + [sibling];
      index := index / 2;
      level := Above(parent, level);
    }
    LevelsUnfold(parent, level);
    SiblingsUnfold(parent, level, index);
    assert siblings + [] == siblings;
    path := MerklePath(position, |leaves|, siblings);
  }

  /** `level.get(index ^ 1)`, or the hash itself where there is none. */
  method GetSibling(level: seq<Hash>, index: nat) returns (sibling: Hash)
    requires index < |level|
    ensures sibling == Sibling(level, index)
  {
    var other := if index % 2 == 0 then index + 1 else index - 1;
    sibling := if other < |level| then level[other] else level[index];
  }

  lemma SiblingsUnfold(parent: Pairing, level: seq<Hash>, index: nat)
    requires index < |level|
    ensures |level| == 1 ==> Siblings(parent, level, index) == []
    ensures |level| > 1 ==>
              Siblings(parent, level, index) == [Sibling(level, index)] + Siblings(parent, Above(parent, level), index / 2)
  {}

  function Depth(width: nat): nat {
    if width <= 1 then 0 else 1 + Depth(Half(width))
  }

  datatype PathError = LimitExceeded | InvalidPath | InvalidPadding

  datatype Result<T> = Ok(value: T) | Err(error: PathError)

  /** `check`. */
  method Check(path: MerklePath) returns (r: Option<PathError>)
    ensures r == Checked(path)
  {
    if path.count > MAX_TRANSACTIONS || |path.siblings| > MAX_PATH_LEVELS {
      return Some(LimitExceeded);
    }
    if path.count == 0 || path.index >= path.count {
      return Some(InvalidPath);
    }
    var width, levels := path.count, 0;
    while width > 1
      invariant levels + Depth(width) == Depth(path.count)
    {
      width := Half(width);
      levels := levels + 1;
    }
    if |path.siblings| != levels {
      return Some(InvalidPath);
    }
    r := None;
  }

  function Checked(path: MerklePath): Option<PathError> {
    if path.count > MAX_TRANSACTIONS || |path.siblings| > MAX_PATH_LEVELS then Some(LimitExceeded)
    else if path.count == 0 || path.index >= path.count then Some(InvalidPath)
    else if |path.siblings| != Depth(path.count) then Some(InvalidPath)
    else None
  }

  /** The hash at the top of a path, climbing from `hash`. */
  function Climb(parent: Pairing, siblings: seq<Hash>, index: nat, width: nat, hash: Hash): Result<Hash>
    decreases |siblings|
  {
    if siblings == [] then Ok(hash)
    else if index % 2 == 1 then Climb(parent, siblings[1..], index / 2, Half(width), parent(siblings[0], hash))
    else if index + 1 == width && siblings[0] != hash then Err(InvalidPadding)
    else Climb(parent, siblings[1..], index / 2, Half(width), parent(hash, siblings[0]))
  }

  function PathRoot(parent: Pairing, path: MerklePath, hash: Hash): Result<Hash> {
    match Checked(path)
    case Some(e) => Err(e)
    case None => Climb(parent, path.siblings, path.index, path.count, hash)
  }

  /** `root`. */
  method EvaluatePath(parent: Pairing, path: MerklePath, leaf: Hash) returns (r: Result<Hash>)
    ensures r == PathRoot(parent, path, leaf)
  {
    var bad := Check(path);
    if bad.Some? {
      return Err(bad.value);
    }
    var hash, index, width := leaf, path.index, path.count;
    assert path.siblings[0..] == path.siblings;
    for k := 0 to |path.siblings|
      invariant Climb(parent, path.siblings[k..], index, width, hash) == Climb(parent, path.siblings, path.index, path.count, leaf)
    {
      var sibling := path.siblings[k];
      assert path.siblings[k..][1..] == path.siblings[k + 1..];
      if index % 2 == 0 {
        if index + 1 == width && sibling != hash {
          return Err(InvalidPadding);
        }
        hash := parent(hash, sibling);
      } else {
        hash := parent(sibling, hash);
      }
      index := index / 2;
      width := Half(width);
    }
    r := Ok(hash);
  }

  // ----- completeness

  lemma {:induction false} PathLength(parent: Pairing, level: seq<Hash>, index: nat)
    requires index < |level|
    ensures |Siblings(parent, level, index)| == Depth(|level|)
    decreases |level|
  {
    if |level| > 1 {
      PathLength(parent, Above(parent, level), index / 2);
    }
  }

  function Pow2(k: nat): nat {
    if k == 0 then 1 else 2 * Pow2(k - 1)
  }

  lemma {:induction false} DepthBound(width: nat, k: nat)
    requires width <= Pow2(k)
    ensures Depth(width) <= k
    decreases k
  {
    if width > 1 {
      DepthBound(Half(width), k - 1);
    }
  }

  /** A node and its sibling hash to their parent, and an odd last node is its own sibling. */
  lemma SiblingPairs(parent: Pairing, level: seq<Hash>, index: nat)
    requires index < |level|
    ensures index / 2 < |Above(parent, level)|
    ensures var s := Sibling(level, index);
            Above(parent, level)[index / 2] == if index % 2 == 1 then parent(s, level[index]) else parent(level[index], s)
    ensures index % 2 == 0 && index + 1 == |level| ==> Sibling(level, index) == level[index]
  {
    assert Above(parent, level)[index / 2] == parent(level[2 * (index / 2)], Right(level, index / 2));
  }

  lemma ClimbStep(parent: Pairing, s: Hash, rest: seq<Hash>, index: nat, width: nat, hash: Hash)
    requires index % 2 == 0 && index + 1 == width ==> s == hash
    ensures Climb(parent, [s] + rest, index, width, hash)
         == Climb(parent, rest, index / 2, Half(width), if index % 2 == 1 then parent(s, hash) else parent(hash, s))
  {
    assert ([s] + rest)[1..] == rest;
  }

  lemma {:induction false} ClimbsToRoot(parent: Pairing, level: seq<Hash>, index: nat)
    requires index < |level|
    ensures Climb(parent, Siblings(parent, level, index), index, |level|, level[index]) == Ok(Root(parent, level))
    decreases |level|
  {
    hide Siblings;
    hide Sibling;
    hide Above;
    SiblingsUnfold(parent, level, index);
    if |level| > 1 {
      var up := Above(parent, level);
      SiblingPairs(parent, level, index);
      ClimbsToRoot(parent, up, index / 2);
      ClimbStep(parent, Sibling(level, index), Siblings(parent, up, index / 2), index, |level|, level[index]);
    }
  }

  /** A path extracted from a tree of at most a million leaves is accepted and evaluates to its root. */
  lemma PathIsAccepted(parent: Pairing, leaves: seq<Hash>, index: nat)
    requires index < |leaves| <= MAX_TRANSACTIONS
    ensures var path := MerklePath(index, |leaves|, Siblings(parent, leaves, index));
            |path.siblings| <= 20 && PathRoot(parent, path, leaves[index]) == Ok(Root(parent, leaves))
  {
    hide Climb;
    hide Siblings;
    PathLength(parent, leaves, index);
    assert Pow2(20) == 1_048_576 by { PowersOfTwo(); }
    DepthBound(|leaves|, 20);
    ClimbsToRoot(parent, leaves, index);
  }

  lemma PowersOfTwo()
    ensures Pow2(20) == 1_048_576
  {
    assert Pow2(5) == 32;
    assert Pow2(10) == 1024;
    assert Pow2(15) == 32768;
  }

  // ----- soundness

  /** Two different pairs with the same hash. */
  datatype Collision = Collision(a: Hash, b: Hash, c: Hash, d: Hash) {
    predicate Breaks(parent: Pairing) {
      (a, b) != (c, d) && parent(a, b) == parent(c, d)
    }
  }

  /**
   A path of the right shape that leads from `h` to the root leads from leaf `index`, or descending
   from the root shows a collision.
   */
  lemma {:induction false} OnlyTheLeafClimbs(parent: Pairing, level: seq<Hash>, siblings: seq<Hash>, index: nat, h: Hash)
    returns (x: Collision)
    requires index < |level| && |siblings| == Depth(|level|)
    requires Climb(parent, siblings, index, |level|, h) == Ok(Root(parent, level))
    ensures h == level[index] || x.Breaks(parent)
    decreases |level|
  {
    if |level| == 1 {
      x := Collision(h, h, h, h);
    } else {
      var up, i, s := Above(parent, level), index / 2, siblings[0];
      var a, b := if index % 2 == 1 then s else h, if index % 2 == 1 then h else s;
      x := OnlyTheLeafClimbs(parent, up, siblings[1..], i, parent(a, b));
      assert up[i] == parent(level[2 * i], Right(level, i));
      if !x.Breaks(parent) {
        x := Collision(a, b, level[2 * i], Right(level, i));
      }
    }
  }
}
