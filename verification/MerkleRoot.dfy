/** The Merkle tree of a block: its root, the flag for a list that repeats its end, and what the flag is worth. */
module MerkleRoot {
  import opened Hashing

  /** The level above: neighbours hashed together, a last single one with itself. */
  function Above(hash: Combine, level: seq<Digest>): (r: seq<Digest>)
    ensures |r| == (|level| + 1) / 2
  {
    seq((|level| + 1) / 2, i requires 0 <= i < (|level| + 1) / 2 =>
      hash(level[2 * i], level[if 2 * i + 1 < |level| then 2 * i + 1 else |level| - 1]))
  }

  /** The last two of a level form a pair and are the same. */
  predicate TwinEnd(level: seq<Digest>) {
    |level| > 1 && |level| % 2 == 0 && level[|level| - 2] == level[|level| - 1]
  }

  function Root(hash: Combine, level: seq<Digest>): Digest
    decreases |level|
  {
    if level == [] then 0 else if |level| == 1 then level[0] else Root(hash, Above(hash, level))
  }

  /** Some level ends in a pair of equal hashes. */
  predicate Mutated(hash: Combine, level: seq<Digest>)
    decreases |level|
  {
    |level| > 1 && (TwinEnd(level) || Mutated(hash, Above(hash, level)))
  }

  // ---------------------------------------------------------------- the loop

  /** One level of the tree is appended, and a pair of equal hashes at its end is noted. */
  method BuildLevel(hash: Combine, tree: seq<Digest>, j: nat, mutated: bool) returns (tree': seq<Digest>, mutated': bool)
    requires j <= |tree|
    ensures tree' == tree + Above(hash, tree[j..]) && mutated' == (mutated || TwinEnd(tree[j..]))
  {
    tree', mutated' := tree, mutated;
    ghost var level := tree[j..];
    var i, nSize := 0, |tree| - j;
    while i < nSize
      invariant 0 <= i <= nSize + 1 && i % 2 == 0
      invariant tree' == tree + Above(hash, level)[..i / 2]
      invariant mutated' == (mutated || (i >= nSize && TwinEnd(level)))
    {
      var i2 := if i + 1 < nSize then i + 1 else nSize - 1;
      assert tree'[j + i] == level[i] && tree'[j + i2] == level[i2];
      if i2 == i + 1 && i2 + 1 == nSize && tree'[j + i] == tree'[j + i2] {
        mutated' := true;
      }
      assert Above(hash, level)[i / 2] == hash(level[i], level[i2]);
      tree' := tree' + [hash(tree'[j + i], tree'[j + i2])];
      i := i + 2;
    }
  }

  /** BuildMerkleTree: all levels in one list, the root last. */
  method BuildMerkleTree(hash: Combine, leaves: seq<Digest>) returns (root: Digest, mutated: bool, tree: seq<Digest>)
    ensures root == Root(hash, leaves) && mutated == Mutated(hash, leaves)
    ensures leaves <= tree && (leaves != [] ==> tree[|tree| - 1] == root)
  {
    hide Above, TwinEnd;
    tree, mutated := leaves, false;
    var j: nat, nSize: nat := 0, |leaves|;
    assert leaves[0..] == leaves;
    while nSize > 1
      invariant j + nSize == |tree| && leaves <= tree && (nSize == 0 <==> leaves == []) && (leaves == [] ==> tree == [])
      invariant Root(hash, leaves) == Root(hash, tree[j..])
      invariant Mutated(hash, leaves) == (mutated || Mutated(hash, tree[j..]))
      decreases nSize
    {
      ghost var level := tree[j..];
      tree, mutated := BuildLevel(hash, tree, j, mutated);
      j, nSize := j + nSize, (nSize + 1) / 2;
      assert tree[j..] == Above(hash, level);
    }
    root := if tree == [] then 0 else tree[|tree| - 1];
    assert tree != [] ==> tree[j..] == [root];
  }

  // ---------------------------------------------------------------- what the flag is worth

  /** No transaction id is the hash of an inner node. */
  ghost predicate Outer(hash: Combine, leaves: seq<Digest>) {
    forall i, a, b | 0 <= i < |leaves| :: leaves[i] != hash(a, b)
  }

  lemma AboveAt(hash: Combine, level: seq<Digest>, i: nat)
    requires i < |level|
    ensures Above(hash, level)[i / 2] == hash(level[i / 2 * 2], level[if i / 2 * 2 + 1 < |level| then i / 2 * 2 + 1 else |level| - 1])
  {
  }

  /** A level determines the one below, up to repeating its last hash. */
  lemma BelowIsSame(hash: Combine, x: seq<Digest>, y: seq<Digest>)
    requires Injective(hash) && !TwinEnd(x) && !TwinEnd(y) && Above(hash, x) == Above(hash, y)
    ensures x == y
  {
    hide Above;
    if |x| < |y| {
      SameLength(hash, x, y);
    } else if |y| < |x| {
      SameLength(hash, y, x);
    }
    forall i | 0 <= i < |x| && i < |y| ensures x[i] == y[i] {
      AboveAt(hash, x, i);
      AboveAt(hash, y, i);
    }
  }

  lemma SameLength(hash: Combine, x: seq<Digest>, y: seq<Digest>)
    requires Injective(hash) && !TwinEnd(y) && Above(hash, x) == Above(hash, y) && |x| <= |y|
    ensures |x| == |y|
  {
    if |x| < |y| {
      assert |x| % 2 == 1 && |y| == |x| + 1;
      AboveAt(hash, x, |x| - 1);
      AboveAt(hash, y, |x| - 1);
    }
  }

  /** How many times the list is halved until one hash is left. */
  function Depth(n: nat): nat {
    if n <= 1 then 0 else 1 + Depth((n + 1) / 2)
  }

  /** Some level of more than two hashes ends in a pair of equal ones. */
  predicate Malleable(hash: Combine, level: seq<Digest>)
    decreases |level|
  {
    |level| > 2 && (TwinEnd(level) || Malleable(hash, Above(hash, level)))
  }

  /** The flag covers every list that can be changed without changing its root. */
  lemma {:induction false} MalleableFlagged(hash: Combine, x: seq<Digest>)
    requires Malleable(hash, x)
    ensures Mutated(hash, x)
    decreases |x|
  {
    if !TwinEnd(x) {
      MalleableFlagged(hash, Above(hash, x));
    }
  }

  /** Two lists of the same depth that cannot be shortened and have one root are the same list. */
  lemma {:induction false} SameDepthSame(hash: Combine, x: seq<Digest>, y: seq<Digest>)
    requires Injective(hash) && x != [] && y != [] && Depth(|x|) == Depth(|y|)
    requires !Malleable(hash, x) && !Malleable(hash, y) && Root(hash, x) == Root(hash, y)
    ensures x == y
    decreases |x|
  {
    if |x| > 1 {
      SameDepthSame(hash, Above(hash, x), Above(hash, y));
      if |x| > 2 && |y| > 2 {
        BelowIsSame(hash, x, y);
      } else {
        AboveAt(hash, x, 0);
        AboveAt(hash, y, 0);
      }
    }
  }

  /** A deeper list has another root: its inner hashes are no transaction ids. */
  lemma {:induction false} DeeperDiffers(hash: Combine, x: seq<Digest>, y: seq<Digest>)
    requires Injective(hash) && x != [] && y != [] && Depth(|x|) > Depth(|y|) && Outer(hash, y)
    requires !Malleable(hash, x) && !Malleable(hash, y)
    ensures Root(hash, x) != Root(hash, y)
    decreases |x|
  {
    var z := Above(hash, x);
    AboveAt(hash, x, 0);
    if Depth(|z|) > Depth(|y|) {
      DeeperDiffers(hash, z, y);
    } else if Root(hash, x) == Root(hash, y) {
      SameDepthSame(hash, z, y);
    }
  }

  /** Lists that cannot be shortened are told apart by their roots. */
  lemma RootBinds(hash: Combine, x: seq<Digest>, y: seq<Digest>)
    requires Injective(hash) && Outer(hash, x) && Outer(hash, y) && x != [] && y != []
    requires !Malleable(hash, x) && !Malleable(hash, y)
    ensures Root(hash, x) == Root(hash, y) <==> x == y
  {
    if Depth(|x|) > Depth(|y|) {
      DeeperDiffers(hash, x, y);
    } else if Depth(|y|) > Depth(|x|) {
      DeeperDiffers(hash, y, x);
    } else if Root(hash, x) == Root(hash, y) {
      SameDepthSame(hash, x, y);
    }
  }

  lemma AbovePrefix(hash: Combine, x: seq<Digest>, m: nat)
    requires 2 * m <= |x|
    ensures Above(hash, x[..2 * m]) == Above(hash, x)[..m]
  {
  }

  lemma DropTwin(hash: Combine, x: seq<Digest>)
    requires TwinEnd(x)
    ensures Above(hash, x[..|x| - 1]) == Above(hash, x)
  {
    var a, b := Above(hash, x[..|x| - 1]), Above(hash, x);
    forall i | 0 <= i < |b| ensures a[i] == b[i] {
      assert 2 * i < |x| - 1;
    }
  }

  /** A list that can be shortened has a proper prefix with its root. */
  lemma {:induction false} Shorten(hash: Combine, x: seq<Digest>) returns (y: seq<Digest>)
    requires Malleable(hash, x)
    ensures 0 < |y| < |x| && y <= x && Root(hash, y) == Root(hash, x)
    decreases |x|
  {
    hide Above;
    if TwinEnd(x) {
      y := x[..|x| - 1];
      DropTwin(hash, x);
    } else {
      var z := Shorten(hash, Above(hash, x));
      y := x[..2 * |z|];
      AbovePrefix(hash, x, |z|);
      assert Above(hash, y) == z;
    }
  }

  /** Shortening ends at a list that cannot be shortened. */
  lemma {:induction false} Shortest(hash: Combine, x: seq<Digest>) returns (y: seq<Digest>)
    requires x != []
    ensures 0 < |y| && y <= x && Root(hash, y) == Root(hash, x) && !Malleable(hash, y)
    decreases |x|
  {
    y := x;
    if Malleable(hash, x) {
      var z := Shorten(hash, x);
      y := Shortest(hash, z);
    }
  }

  /** A shorter list of transactions has the same root exactly if some level of more than two hashes ends in a
      pair of equal ones. */
  lemma ShorterExactly(hash: Combine, x: seq<Digest>)
    requires Injective(hash) && Outer(hash, x) && x != []
    ensures Malleable(hash, x) <==> exists y :: 0 < |y| < |x| && Outer(hash, y) && Root(hash, y) == Root(hash, x)
  {
    if Malleable(hash, x) {
      var y := Shorten(hash, x);
      assert Outer(hash, y);
    } else if y :| 0 < |y| < |x| && Outer(hash, y) && Root(hash, y) == Root(hash, x) {
      var z := Shortest(hash, y);
      assert Outer(hash, z);
      RootBinds(hash, x, z);
    }
  }

  /** A root that passes the check stands for one list of transactions only. */
  lemma UnflaggedUnique(hash: Combine, x: seq<Digest>, y: seq<Digest>)
    requires Injective(hash) && Outer(hash, x) && Outer(hash, y) && x != [] && y != [] && !Mutated(hash, x) && !Mutated(hash, y)
    ensures Root(hash, x) == Root(hash, y) <==> x == y
  {
    if Malleable(hash, x) {
      MalleableFlagged(hash, x);
    }
    if Malleable(hash, y) {
      MalleableFlagged(hash, y);
    }
    RootBinds(hash, x, y);
  }

  ghost predicate Distinct(level: seq<Digest>) {
    forall i, j | 0 <= i < j < |level| :: level[i] != level[j]
  }

  lemma AboveDistinct(hash: Combine, x: seq<Digest>)
    requires Injective(hash) && Distinct(x)
    ensures Distinct(Above(hash, x))
  {
    hide Above;
    var up := Above(hash, x);
    forall i, j | 0 <= i < j < |up| ensures up[i] != up[j] {
      AboveAt(hash, x, 2 * i);
      AboveAt(hash, x, 2 * j);
    }
  }

  /** A list of different ids is never flagged. */
  lemma {:induction false} DistinctUnflagged(hash: Combine, x: seq<Digest>)
    requires Injective(hash) && Distinct(x)
    ensures !Mutated(hash, x)
    decreases |x|
  {
    hide Above, Injective;
    if |x| > 1 {
      AboveDistinct(hash, x);
      DistinctUnflagged(hash, Above(hash, x));
    }
  }

  /** The flag is raised for some lists that cannot be shortened: a pair of equal ids is one. */
  lemma TwinsFlagged(hash: Combine, a: Digest)
    ensures Mutated(hash, [a, a]) && !Malleable(hash, [a, a])
  {
    assert TwinEnd([a, a]);
  }
}
