/** CPartialMerkleTree: building and extracting by recursion over shared bit and hash vectors, and the
    packing of the flag bits into bytes. */
module PartialMerkle {
  import opened Hashing
  import opened MerkleTree

  // ---------------------------------------------------------------- flag bits in bytes

  function Mask(k: nat): bv8
    requires k < 8
  {
    if k == 0 then 1 else if k == 1 then 2 else if k == 2 then 4 else if k == 3 then 8
    else if k == 4 then 16 else if k == 5 then 32 else if k == 6 then 64 else 128
  }

  predicate BitOf(x: bv8, k: nat)
    requires k < 8
  {
    x & Mask(k) != 0
  }

  lemma OrOther(x: bv8, k: nat, j: nat)
    requires k < 8 && j < 8
    ensures BitOf(x | Mask(k), j) == (j == k || BitOf(x, j))
  {
    if j == 0 {
    } else if j == 1 {
    } else if j == 2 {
    } else if j == 3 {
    } else if j == 4 {
    } else if j == 5 {
    } else if j == 6 {
    } else {
    }
  }

  /** The flag bit at a position of the packed bytes. */
  predicate BitAt(bytes: seq<bv8>, p: nat)
    requires p < 8 * |bytes|
  {
    BitOf(bytes[p / 8], p % 8)
  }

  lemma SetBit(bytes: seq<bv8>, p: nat, q: nat)
    requires p < 8 * |bytes| && q < 8 * |bytes|
    ensures BitAt(bytes[p / 8 := bytes[p / 8] | Mask(p % 8)], q) == (q == p || BitAt(bytes, q))
  {
    hide BitOf, Mask;
    if q / 8 == p / 8 {
      OrOther(bytes[p / 8], p % 8, q % 8);
    }
  }

  /** Packs bits least significant first; the last byte is padded with zeros. */
  method PackBits(bits: seq<bool>) returns (bytes: seq<bv8>)
    ensures |bytes| == (|bits| + 7) / 8
    ensures forall p | 0 <= p < 8 * |bytes| :: BitAt(bytes, p) == (p < |bits| && bits[p])
  {
    hide BitOf, Mask;
    bytes := seq((|bits| + 7) / 8, _ => 0);
    forall p | 0 <= p < 8 * |bytes| ensures !BitAt(bytes, p) {
      NoBits(p % 8);
    }
    for p := 0 to |bits|
      invariant |bytes| == (|bits| + 7) / 8
      invariant forall q | 0 <= q < 8 * |bytes| :: BitAt(bytes, q) == (q < p && bits[q])
    {
      if bits[p] {
        var next := bytes[p / 8 := bytes[p / 8] | Mask(p % 8)];
        forall q | 0 <= q < 8 * |next| ensures BitAt(next, q) == (q == p || BitAt(bytes, q)) {
          SetBit(bytes, p, q);
        }
        bytes := next;
      }
    }
  }

  lemma NoBits(k: nat)
    requires k < 8
    ensures !BitOf(0, k)
  {
  }

  method UnpackBits(bytes: seq<bv8>) returns (bits: seq<bool>)
    ensures |bits| == 8 * |bytes| && forall p | 0 <= p < |bits| :: bits[p] == BitAt(bytes, p)
  {
    bits := [];
    for p := 0 to 8 * |bytes|
      invariant |bits| == p && forall q | 0 <= q < p :: bits[q] == BitAt(bytes, q)
    {
      bits := bits + [BitAt(bytes, p)];
    }
  }

  // ---------------------------------------------------------------- the tree object

  class PartialMerkleTree {
    const hash: Combine
    var nTransactions: nat
    var vBits: seq<bool>
    var vHash: seq<Digest>
    var fBad: bool

    ghost function Data(): Packed
      reads this
    {
      Packed(nTransactions, vBits, vHash)
    }

    /** Builds the proof for a selection of a block's transactions. */
    constructor (hash: Combine, txids: seq<Digest>, match_: seq<bool>)
      requires txids != [] && |match_| == |txids|
      ensures this.hash == hash && nTransactions == |txids| && !fBad
      ensures Encoding(vBits, vHash) == EncodeAll(hash, txids, match_)
    {
      this.hash, nTransactions, vBits, vHash, fBad := hash, |txids|, [], [], false;
      new;
      hide Build, Lo, Width;
      var height := Height();
      WholeRange(|txids|);
      TraverseAndBuild(height, 0, txids, match_);
      assert [] + vBits == vBits && [] + vHash == vHash;
    }

    /** An object received from the network. */
    constructor Received(hash: Combine, n: nat, bytes: seq<bv8>, hashes: seq<Digest>)
      ensures this.hash == hash && nTransactions == n && vHash == hashes && !fBad
      ensures |vBits| == 8 * |bytes| && forall p | 0 <= p < |vBits| :: vBits[p] == BitAt(bytes, p)
    {
      this.hash, nTransactions, vBits, vHash, fBad := hash, n, [], hashes, false;
      new;
      vBits := UnpackBits(bytes);
    }

    method Height() returns (height: nat)
      ensures height == TreeHeight(nTransactions)
    {
      hide Width;
      height := 0;
      while Width(nTransactions, height) > 1
        invariant HeightFrom(nTransactions, height) == TreeHeight(nTransactions)
        decreases HeightFrom(nTransactions, height) - height
      {
        height := height + 1;
      }
    }

    /** Whether any transaction of a range is selected. */
    method ParentOfMatch(match_: seq<bool>, lo: nat, hi: nat) returns (found: bool)
      requires lo <= hi <= |match_|
      ensures found <==> AnyMatch(match_, lo, hi)
    {
      found := false;
      for p := lo to hi
        invariant found <==> exists q :: lo <= q < p && match_[q]
      {
        found := found || match_[p];
      }
    }

    method TraverseAndBuild(height: nat, pos: nat, txids: seq<Digest>, match_: seq<bool>)
      requires nTransactions == |txids| == |match_| && Lo(height, pos) < |txids|
      modifies this`vBits, this`vHash
      ensures var e := Build(hash, height, pos, txids, match_); vBits == old(vBits) + e.bits && vHash == old(vHash) + e.hashes
      decreases height
    {
      hide Lo, Hi, Width, CalcHash, AnyMatch, Build;
      Leaf(height, pos, |txids|);
      var found := ParentOfMatch(match_, Lo(height, pos), Hi(nTransactions, height, pos));
      vBits := vBits + [found];
      if height == 0 || !found {
        BuildEnd(hash, height, pos, txids, match_);
        vHash := vHash + [CalcHash(hash, height, pos, txids)];
      } else {
        Split(|txids|, height, pos);
        BuildUnfold(hash, height, pos, txids, match_);
        TraverseAndBuild(height - 1, 2 * pos, txids, match_);
        if 2 * pos + 1 < Width(nTransactions, height - 1) {
          TraverseAndBuild(height - 1, 2 * pos + 1, txids, match_);
        }
      }
    }

    /** Consumes bits and hashes for one node; failures only set the flag. */
    method TraverseAndExtract(height: nat, pos: nat, bits: nat, hashes: nat, matched: seq<Digest>, ghost places: seq<nat>)
      returns (h: Digest, nBitsUsed: nat, nHashUsed: nat, vMatch: seq<Digest>, ghost where: seq<nat>)
      modifies this`fBad
      ensures (Cursor(nBitsUsed, nHashUsed, fBad, vMatch, where), h) ==
              Extract(hash, old(Data()), height, pos, Cursor(bits, hashes, old(fBad), matched, places))
      decreases height
    {
      hide Width, Extract;
      ExtractStops(hash, Data(), height, pos, Cursor(bits, hashes, fBad, matched, places));
      h, nBitsUsed, nHashUsed, vMatch, where := ZERO, bits, hashes, matched, places;
      if nBitsUsed >= |vBits| {
        fBad := true;
        return;
      }
      var fParentOfMatch := vBits[nBitsUsed];
      nBitsUsed := nBitsUsed + 1;
      if height == 0 || !fParentOfMatch {
        if nHashUsed >= |vHash| {
          fBad := true;
          return;
        }
        h := vHash[nHashUsed];
        nHashUsed := nHashUsed + 1;
        if height == 0 && fParentOfMatch {
          vMatch, where := vMatch + [h], where + [pos];
        }
      } else {
        ExtractUnfold(hash, Data(), height, pos, Cursor(bits, hashes, fBad, matched, places));
        var left, right;
        left, nBitsUsed, nHashUsed, vMatch, where := TraverseAndExtract(height - 1, 2 * pos, nBitsUsed, nHashUsed, vMatch, where);
        if 2 * pos + 1 < Width(nTransactions, height - 1) {
          right, nBitsUsed, nHashUsed, vMatch, where := TraverseAndExtract(height - 1, 2 * pos + 1, nBitsUsed, nHashUsed, vMatch, where);
          if right == left {
            fBad := true;
          }
        } else {
          right := left;
        }
        h := hash(left, right);
      }
    }

    /** Returns the root, or zero on failure, and the matched transactions. */
    method ExtractMatches() returns (root: Digest, vMatch: seq<Digest>)
      modifies this`fBad
      ensures var d := Decode(hash, old(Data()), old(fBad)); root == d.root && vMatch == d.matched
    {
      hide Extract, TreeHeight;
      root, vMatch := ZERO, [];
      if nTransactions == 0 || nTransactions > MAX_TRANSACTIONS || |vHash| > nTransactions || |vBits| < |vHash| {
        return;
      }
      var height := Height();
      var nBitsUsed, nHashUsed;
      ghost var places;
      root, nBitsUsed, nHashUsed, vMatch, places := TraverseAndExtract(height, 0, 0, 0, [], []);
      if fBad || (nBitsUsed + 7) / 8 != (|vBits| + 7) / 8 || nHashUsed != |vHash| {
        root := ZERO;
      }
    }
  }

  /** Build, send as bytes, receive, extract: the block's root and exactly the selected transactions. */
  method RoundTrip(hash: Combine, txids: seq<Digest>, match_: seq<bool>) returns (root: Digest, matched: seq<Digest>)
    requires Injective(hash) && Distinct(txids) && 0 < |txids| <= MAX_TRANSACTIONS && |match_| == |txids|
    ensures root == Root(hash, txids) && matched == MatchedIn(txids, match_, 0, |txids|)
  {
    hide Injective, Distinct, EncodeAll, Root, MatchedIn, Decode, BitAt;
    var sent := new PartialMerkleTree(hash, txids, match_);
    var bytes := PackBits(sent.vBits);
    var received := new PartialMerkleTree.Received(hash, sent.nTransactions, bytes, sent.vHash);
    assert received.vBits[..|sent.vBits|] == sent.vBits;
    DecodeComplete(hash, txids, match_, received.vBits);
    root, matched := received.ExtractMatches();
  }
}
