/**
 * The serialized size of a partial Merkle tree. The documentation of the class guarantees at most 10 + ceil(32.25 * N)
 * bytes for N hashes; nodes without a right child can break that by a byte or two.
 */
module MerkleBytes {
  import opened Powers
  import opened Hashing
  import opened MerkleTree
  import opened MerkleSize

  /** The bytes of a variable-length count. */
  function CompactSize(n: nat): nat {
    if n < 253 then 1 else if n <= 0xffff then 3 else if n <= 0xffff_ffff then 5 else 9
  }

  /** Four bytes for the number of transactions, then the hashes and the flag bytes, each with its count. */
  function Bytes(hashes: nat, bits: nat): nat {
    var flags := (bits + 7) / 8;
    4 + CompactSize(hashes) + 32 * hashes + CompactSize(flags) + flags
  }

  /** 10 + ceil(32.25 * n). */
  function Guaranteed(n: nat): nat { 10 + 32 * n + (n + 3) / 4 }

  /** Few enough flag bytes for a count of one byte, or bits to spare in the last one for all nodes with one child. */
  predicate Fits(hashes: nat, singles: nat) {
    (2 * hashes + singles + 6) / 8 < 253 || (2 * hashes + 6) % 8 + singles < 8
  }

  lemma FlagBytes(h: nat, s: nat)
    requires s <= 16
    ensures var f := (2 * h + s + 6) / 8;
            (h + 3) / 4 <= f <= (h + 3) / 4 + 2 && (f == (h + 3) / 4 <==> (2 * h + 6) % 8 + s < 8)
  {
    assert (2 * h + 6) / 8 == (h + 3) / 4;
  }

  lemma BytesExactly(h: nat, s: nat)
    requires 1 <= h <= 33333 && s <= 16
    ensures Bytes(h, 2 * h + s - 1) <= Guaranteed(h) <==> Fits(h, s)
  {
    FlagBytes(h, s);
  }

  lemma HeightLimit(n: nat)
    requires 0 < n <= MAX_TRANSACTIONS
    ensures TreeHeight(n) <= 16
  {
    Pow2Values();
    Pow2Add(8, 8);
    hide Pow2;
    if TreeHeight(n) > 16 {
      LowerIsWide(n, 0, 16);
    }
  }

  /** Below the height of the tree a level has more than one node. */
  lemma {:induction false} LowerIsWide(n: nat, from: nat, h: nat)
    requires from <= h < HeightFrom(n, from)
    ensures n > Pow2(h)
    decreases h - from
  {
    Pow2Exceeds(from);
    WidthIff(n, from, 1);
    if from < h {
      LowerIsWide(n, from + 1, h);
    }
  }

  /** The guarantee holds if and only if the flag bytes of a tree fit. */
  lemma SizeGuarantee(hash: Combine, txids: seq<Digest>, match_: seq<bool>)
    requires 0 < |txids| <= MAX_TRANSACTIONS && |match_| == |txids|
    ensures var e, s := EncodeAll(hash, txids, match_), Singles(|txids|, TreeHeight(|txids|), 0, match_);
            Bytes(|e.hashes|, |e.bits|) <= Guaranteed(|e.hashes|) <==> Fits(|e.hashes|, s)
  {
    var n := |txids|;
    hide TreeHeight, Build, Singles, Width, Lo, Hi, LoneMatch, Bytes, Guaranteed, Fits, MatchedIn;
    TopIsLast(n);
    assert Lo(TreeHeight(n), 0) < n by {
      WholeRange(n);
    }
    BitsAndHashes(hash, TreeHeight(n), 0, txids, match_);
    LastSingles(n, TreeHeight(n), match_);
    HeightLimit(n);
    EncodingSize(hash, txids, match_);
    SomeHash(hash, TreeHeight(n), 0, txids, match_);
    var e := EncodeAll(hash, txids, match_);
    BytesExactly(|e.hashes|, Singles(n, TreeHeight(n), 0, match_));
  }

  lemma {:induction false} SomeHash(hash: Combine, height: nat, pos: nat, txids: seq<Digest>, match_: seq<bool>)
    requires |match_| == |txids| && Lo(height, pos) < |txids|
    ensures |Build(hash, height, pos, txids, match_).hashes| >= 1
  {
    if height > 0 {
      Split(|txids|, height, pos);
      hide Lo, Hi, Width, CalcHash;
      SomeHash(hash, height - 1, 2 * pos, txids, match_);
    }
  }

  // ---------------------------------------------------------------- all transactions selected

  function All(n: nat): (r: seq<bool>)
    ensures |r| == n && forall i | 0 <= i < n :: r[i]
  {
    seq(n, _ => true)
  }

  lemma AllAny(n: nat, lo: nat, hi: nat)
    requires lo < hi <= n
    ensures AnyMatch(All(n), lo, hi)
  {
    assert All(n)[lo];
  }

  lemma LeafRange(n: nat, pos: nat)
    requires Lo(0, pos) < n
    ensures Lo(0, pos) == pos && Hi(n, 0, pos) == pos + 1
  {
  }

  lemma {:induction false} AllHashes(hash: Combine, height: nat, pos: nat, txids: seq<Digest>)
    requires Lo(height, pos) < |txids|
    ensures Lo(height, pos) <= Hi(|txids|, height, pos)
    ensures |Build(hash, height, pos, txids, All(|txids|)).hashes| == Hi(|txids|, height, pos) - Lo(height, pos)
  {
    hide Lo, Hi, Width, CalcHash, Build, AnyMatch, All;
    var n := |txids|;
    if height > 0 {
      Split(n, height, pos);
      AllAny(n, Lo(height, pos), Hi(n, height, pos));
      BuildUnfold(hash, height, pos, txids, All(n));
      AllHashes(hash, height - 1, 2 * pos, txids);
      if 2 * pos + 1 < Width(n, height - 1) {
        AllHashes(hash, height - 1, 2 * pos + 1, txids);
      }
    } else {
      LeafRange(n, pos);
      BuildEnd(hash, 0, pos, txids, All(n));
    }
  }

  /** The levels below a height with an odd number of nodes. */
  function OddLevels(n: nat, height: nat): nat {
    if height == 0 then 0 else OddLevels(n, height - 1) + Width(n, height - 1) % 2
  }

  lemma {:induction false} AllSingles(n: nat, height: nat)
    requires n > 0
    ensures Singles(n, height, Last(n, height), All(n)) == OddLevels(n, height)
  {
    hide Lo, Width, Last, Singles;
    if height > 0 {
      AllSingles(n, height - 1);
      LastStep(n, height, All(n));
      assert All(n)[n - 1];
    } else {
      LeafHasNone(n, All(n));
    }
  }

  lemma HeightIs(n: nat, h: nat)
    requires 0 < n <= Pow2(h) && (h > 0 ==> n > Pow2(h - 1))
    ensures TreeHeight(n) == h
  {
    hide Pow2;
    if TreeHeight(n) > h {
      LowerIsWide(n, 0, h);
    } else if TreeHeight(n) < h {
      Pow2Mono(TreeHeight(n), h - 1);
    }
  }

  lemma Powers1024()
    ensures Pow2(0) == 1 && Pow2(1) == 2 && Pow2(2) == 4 && Pow2(3) == 8 && Pow2(4) == 16 && Pow2(5) == 32
    ensures Pow2(6) == 64 && Pow2(7) == 128 && Pow2(8) == 256 && Pow2(9) == 512 && Pow2(10) == 1024
  {
    assert Pow2(4) == 16;
    assert Pow2(8) == 256;
  }

  lemma WidthIs(n: nat, h: nat, p: nat, w: nat)
    requires Pow2(h) == p && w * p - p < n <= w * p
    ensures Width(n, h) == w
  {
    var x := n + p - 1;
    ModIs(x, p, w, x - w * p);
  }

  lemma Widths()
    ensures TreeHeight(1012) == 10 && OddLevels(1012, 10) == 2
  {
    hide Pow2, Width, TreeHeight;
    Powers1024();
    HeightIs(1012, 10);
    WidthIs(1012, 0, 1, 1012);
    WidthIs(1012, 1, 2, 506);
    WidthIs(1012, 2, 4, 253);
    WidthIs(1012, 3, 8, 127);
    WidthIs(1012, 4, 16, 64);
    WidthIs(1012, 5, 32, 32);
    WidthIs(1012, 6, 64, 16);
    WidthIs(1012, 7, 128, 8);
    WidthIs(1012, 8, 256, 4);
    WidthIs(1012, 9, 512, 2);
    assert OddLevels(1012, 2) == 0;
    assert OddLevels(1012, 4) == 2;
    assert OddLevels(1012, 7) == 2;
  }

  /** All of 1012 transactions selected: 1012 hashes, 2025 flag bits, 32648 bytes, one more than guaranteed. */
  lemma SizeExceeds(hash: Combine, txids: seq<Digest>)
    requires |txids| == 1012
    ensures var e := EncodeAll(hash, txids, All(1012));
            |e.hashes| == 1012 && |e.bits| == 2025 && Bytes(1012, 2025) == 32648 && Guaranteed(1012) == 32647
  {
    hide TreeHeight, HeightFrom, Build, Singles, Width, Lo, Hi, OddLevels, Last;
    Widths();
    TopIsLast(1012);
    WholeRange(1012);
    AllSingles(1012, 10);
    BitsAndHashes(hash, 10, 0, txids, All(1012));
    AllHashes(hash, 10, 0, txids);
  }
}
