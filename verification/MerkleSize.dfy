/**
 * The number of flag bits of a partial Merkle tree. The size guarantee in the documentation of the class takes it to be
 * at most twice the number of hashes less one, which fails for a match below a node that has no right child.
 */
module MerkleSize {
  import opened Powers
  import opened Hashing
  import opened MerkleTree

  /** Nodes with a match below them and only one child. */
  ghost function Singles(n: nat, height: nat, pos: nat, match_: seq<bool>): nat
    requires |match_| == n && Lo(height, pos) < n
  {
    var found := Lo(height, pos) <= Hi(n, height, pos) && AnyMatch(match_, Lo(height, pos), Hi(n, height, pos));
    if height == 0 || !found then 0
    else
      Split(n, height, pos);
      Singles(n, height - 1, 2 * pos, match_) +
      (if 2 * pos + 1 < Width(n, height - 1) then Singles(n, height - 1, 2 * pos + 1, match_) else 1)
  }

  /** Each inner node joins two encodings with one more bit, or takes a bit for itself. */
  lemma {:induction false} BitsAndHashes(hash: Combine, height: nat, pos: nat, txids: seq<Digest>, match_: seq<bool>)
    requires |match_| == |txids| && Lo(height, pos) < |txids|
    ensures |Build(hash, height, pos, txids, match_).bits| + 1 ==
            2 * |Build(hash, height, pos, txids, match_).hashes| + Singles(|txids|, height, pos, match_)
  {
    if height > 0 {
      Split(|txids|, height, pos);
      hide Lo, Hi, Width, CalcHash;
      BitsAndHashes(hash, height - 1, 2 * pos, txids, match_);
      if 2 * pos + 1 < Width(|txids|, height - 1) {
        BitsAndHashes(hash, height - 1, 2 * pos + 1, txids, match_);
      }
    }
  }

  /** A node whose leaves all exist has only nodes with two children below it. */
  lemma {:induction false} FullHasNone(n: nat, height: nat, pos: nat, match_: seq<bool>)
    requires |match_| == n && Lo(height, pos) < n && Lo(height, pos + 1) <= n
    ensures Singles(n, height, pos, match_) == 0
  {
    if height > 0 {
      Split(n, height, pos);
      Children(height, pos);
      hide Lo, Hi, Width;
      FullHasNone(n, height - 1, 2 * pos, match_);
      FullHasNone(n, height - 1, 2 * pos + 1, match_);
    }
  }

  /** The last node of a level. */
  function Last(n: nat, height: nat): (pos: nat)
    requires n > 0
    ensures Lo(height, pos) < n <= Lo(height, pos + 1) && Width(n, height) == pos + 1
  {
    WidthIff(n, height, 0);
    assert Lo(height, 0) == 0;
    var pos := Width(n, height) - 1;
    WidthIff(n, height, pos);
    WidthIff(n, height, pos + 1);
    pos
  }

  /** The last node of the level below is the last child; it is the only one if that level has an odd width. */
  lemma LastChild(n: nat, height: nat)
    requires n > 0 && height > 0
    ensures var pos, w := Last(n, height), Width(n, height - 1);
            && (2 * pos + 1 < w ==> Last(n, height - 1) == 2 * pos + 1 && w % 2 == 0)
            && (!(2 * pos + 1 < w) ==> Last(n, height - 1) == 2 * pos && w % 2 == 1)
  {
    hide Lo, Width, Last;
    var pos := Last(n, height);
    Children(height, pos);
    WidthIff(n, height - 1, 2 * pos);
    WidthIff(n, height - 1, 2 * pos + 2);
  }

  /** A selected leaf lies below the last node of a level, and that node has no right child. */
  ghost predicate LoneMatch(n: nat, match_: seq<bool>, height: nat)
    requires n > 0 && |match_| == n && height > 0
  {
    Width(n, height - 1) % 2 == 1 && AnyMatch(match_, Lo(height, Last(n, height)), n)
  }

  lemma {:induction false} LastSingles(n: nat, height: nat, match_: seq<bool>)
    requires n > 0 && |match_| == n
    ensures Singles(n, height, Last(n, height), match_) > 0 <==> exists h :: 1 <= h <= height && LoneMatch(n, match_, h)
    ensures (exists h :: 1 <= h <= height && LoneMatch(n, match_, h)) ==> AnyMatch(match_, Lo(height, Last(n, height)), n)
    ensures Singles(n, height, Last(n, height), match_) <= height
  {
    hide Lo, Width, Last, Singles;
    if height > 0 {
      LastStep(n, height, match_);
      LastSingles(n, height - 1, match_);
      var below := exists h :: 1 <= h <= height - 1 && LoneMatch(n, match_, h);
      assert (exists h :: 1 <= h <= height && LoneMatch(n, match_, h)) <==> below || LoneMatch(n, match_, height);
    } else {
      LeafHasNone(n, match_);
    }
  }

  lemma LeafHasNone(n: nat, match_: seq<bool>)
    requires n > 0 && |match_| == n
    ensures Singles(n, 0, Last(n, 0), match_) == 0
  {
  }

  /** Only along the last nodes of the levels can a node have one child. */
  lemma LastStep(n: nat, height: nat, match_: seq<bool>)
    requires n > 0 && |match_| == n && height > 0
    ensures var any, next := AnyMatch(match_, Lo(height, Last(n, height)), n), Singles(n, height - 1, Last(n, height - 1), match_);
            && (AnyMatch(match_, Lo(height - 1, Last(n, height - 1)), n) ==> any)
            && Singles(n, height, Last(n, height), match_) == if !any then 0 else next + Width(n, height - 1) % 2
  {
    hide Lo, Hi, Width, Last;
    var pos := Last(n, height);
    LastEnds(n, height);
    LastChild(n, height);
    Split(n, height, pos);
    Children(height, pos);
    if 2 * pos + 1 < Width(n, height - 1) {
      FullHasNone(n, height - 1, 2 * pos, match_);
    }
  }

  lemma LastEnds(n: nat, height: nat)
    requires n > 0
    ensures Hi(n, height, Last(n, height)) == n
  {
  }

  lemma TopIsLast(n: nat)
    requires n > 0
    ensures Last(n, TreeHeight(n)) == 0
  {
    var h := TreeHeight(n);
    assert n <= Pow2(h) == Lo(h, 1);
    hide TreeHeight, HeightFrom, Lo, Width;
    WidthIff(n, h, 1);
  }

  /** The bound on the flag bits holds if and only if no selected leaf lies below a node without a right child. It is
      never exceeded by more than the height of the tree. */
  lemma FlagBits(hash: Combine, txids: seq<Digest>, match_: seq<bool>)
    requires txids != [] && |match_| == |txids|
    ensures |EncodeAll(hash, txids, match_).bits| <= 2 * |EncodeAll(hash, txids, match_).hashes| - 1 <==>
            forall h | 1 <= h <= TreeHeight(|txids|) :: !LoneMatch(|txids|, match_, h)
    ensures |EncodeAll(hash, txids, match_).bits| <= 2 * |EncodeAll(hash, txids, match_).hashes| - 1 + TreeHeight(|txids|)
  {
    var n := |txids|;
    hide TreeHeight, Build, Singles, Width, Lo, Hi, LoneMatch;
    TopIsLast(n);
    BitsAndHashes(hash, TreeHeight(n), 0, txids, match_);
    LastSingles(n, TreeHeight(n), match_);
  }

  /** The smallest case: of three transactions the last is selected. Four bits, two hashes. */
  lemma FlagBitsExceed(hash: Combine, txids: seq<Digest>)
    requires |txids| == 3
    ensures var e := EncodeAll(hash, txids, [false, false, true]); |e.bits| > 2 * |e.hashes| - 1
  {
    var match_ := [false, false, true];
    hide TreeHeight, Build, Width, Lo, Last, Pow2;
    ThreeLeaves();
    assert match_[2];
    assert LoneMatch(3, match_, 1);
    FlagBits(hash, txids, match_);
  }

  lemma ThreeLeaves()
    ensures TreeHeight(3) == 2 && Width(3, 0) == 3 && Lo(1, Last(3, 1)) == 2
  {
    assert Pow2(0) == 1 && Pow2(1) == 2 && Pow2(2) == 4;
    assert Width(3, 0) == 3 && Width(3, 1) == 2 && Width(3, 2) == 1;
  }
}
