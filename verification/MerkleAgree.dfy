/** The root a partial tree is checked against is the root a block header holds. */
module MerkleAgree {
  import opened Powers
  import opened Hashing
  import MerkleRoot
  import opened MerkleTree

  /** The level of BuildMerkleTree at a height. */
  function Level(hash: Combine, txids: seq<Digest>, height: nat): seq<Digest> {
    if height == 0 then txids else MerkleRoot.Above(hash, Level(hash, txids, height - 1))
  }

  /** Each level is half as wide as the one below, rounded up. */
  lemma HalfWidth(n: nat, height: nat)
    ensures Width(n, height + 1) == (Width(n, height) + 1) / 2
  {
    hide Lo, Width;
    var w := Width(n, height + 1);
    Children(height + 1, w);
    WidthIff(n, height + 1, w);
    WidthIff(n, height, 2 * w);
    if w > 0 {
      Children(height + 1, w - 1);
      WidthIff(n, height + 1, w - 1);
      WidthIff(n, height, 2 * (w - 1));
    }
  }

  /** The hashes of a level are those that CalcHash computes. */
  lemma {:induction false} LevelIsCalcHash(hash: Combine, txids: seq<Digest>, height: nat)
    ensures |Level(hash, txids, height)| == Width(|txids|, height)
    ensures forall pos | 0 <= pos < Width(|txids|, height) ::
              Lo(height, pos) < |txids| && Level(hash, txids, height)[pos] == CalcHash(hash, height, pos, txids)
  {
    if height == 0 {
      forall pos: nat ensures Lo(0, pos) == pos {
      }
      WidthLeaves(|txids|);
    } else {
      var k := height - 1;
      LevelIsCalcHash(hash, txids, k);
      HalfWidth(|txids|, k);
      hide Lo, Width, Hi, CalcHash;
      forall pos | 0 <= pos < Width(|txids|, height)
        ensures Lo(height, pos) < |txids| && Level(hash, txids, height)[pos] == CalcHash(hash, height, pos, txids)
      {
        WidthIff(|txids|, height, pos);
        OneAbove(hash, txids, k, pos, Level(hash, txids, k));
      }
    }
  }

  lemma WidthLeaves(n: nat)
    ensures Width(n, 0) == n
  {
    assert Pow2(0) == 1;
  }

  lemma OneAbove(hash: Combine, txids: seq<Digest>, k: nat, pos: nat, below: seq<Digest>)
    requires Lo(k + 1, pos) < |txids| && 2 * pos < |below| == Width(|txids|, k)
    requires Lo(k, 2 * pos) < |txids| && below[2 * pos] == CalcHash(hash, k, 2 * pos, txids)
    requires 2 * pos + 1 < |below| ==> Lo(k, 2 * pos + 1) < |txids| && below[2 * pos + 1] == CalcHash(hash, k, 2 * pos + 1, txids)
    ensures MerkleRoot.Above(hash, below)[pos] == CalcHash(hash, k + 1, pos, txids)
  {
    hide Lo, Width, CalcHash;
    CalcUnfold(hash, k + 1, pos, txids);
  }

  lemma {:induction false} SameFrom(hash: Combine, txids: seq<Digest>, height: nat)
    requires txids != []
    ensures var h := HeightFrom(|txids|, height);
            Lo(h, 0) < |txids| && MerkleRoot.Root(hash, Level(hash, txids, height)) == CalcHash(hash, h, 0, txids)
    decreases |txids| - height
  {
    LevelIsCalcHash(hash, txids, height);
    Pow2Exceeds(height);
    WidthIff(|txids|, height, 1);
    WidthIff(|txids|, height, 0);
    assert Lo(height, 0) == 0;
    hide CalcHash, Lo;
    if Width(|txids|, height) > 1 {
      hide Width;
      SameFrom(hash, txids, height + 1);
      assert Level(hash, txids, height + 1) == MerkleRoot.Above(hash, Level(hash, txids, height));
    }
  }

  /** CalcHash from the top and the levels of BuildMerkleTree give one root. */
  lemma RootsAgree(hash: Combine, txids: seq<Digest>)
    requires txids != []
    ensures Root(hash, txids) == MerkleRoot.Root(hash, txids)
  {
    SameFrom(hash, txids, 0);
  }

  /** A partial tree that yields the root of a header matches only transactions of its block. */
  lemma HeaderSound(hash: Combine, t: Packed, bad: bool, txids: seq<Digest>)
    requires Injective(hash) && txids != [] && t.n == |txids|
    requires Decode(hash, t, bad).ok && Decode(hash, t, bad).root == MerkleRoot.Root(hash, txids)
    ensures var d := Decode(hash, t, bad);
            |d.places| == |d.matched| && forall i | 0 <= i < |d.matched| :: d.places[i] < |txids| && d.matched[i] == txids[d.places[i]]
  {
    hide Decode, Root, MerkleRoot.Root;
    RootsAgree(hash, txids);
    DecodeSound(hash, t, bad, txids);
  }
}
