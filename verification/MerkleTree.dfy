/** Partial Merkle trees as values: the tree of a block, the depth-first encoding of a selection of its
    leaves, and the decoder, over an arbitrary hash of two digests. */
module MerkleTree {
  import opened Powers
  import opened Hashing

  const ZERO: Digest := 0

  // ---------------------------------------------------------------- shape

  /** Number of nodes at a height. */
  function Width(n: nat, height: nat): nat {
    (n + Pow2(height) - 1) / Pow2(height)
  }

  /** The first leaf below a node. */
  function Lo(height: nat, pos: nat): nat { pos * Pow2(height) }

  /** One past the last leaf below a node. */
  function Hi(n: nat, height: nat, pos: nat): nat { if n < Lo(height, pos + 1) then n else Lo(height, pos + 1) }

  lemma DivBelow(a: nat, d: nat, p: nat)
    requires d > 0
    ensures p < (a + d - 1) / d <==> p * d < a
  {
    var q := (a + d - 1) / d;
    var r := (a + d - 1) % d;
    assert a + d - 1 == q * d + r;
    if p < q {
      MulMono(p + 1, q, d);
    } else {
      MulMono(q, p, d);
    }
  }

  lemma MulMono(x: nat, y: nat, d: nat)
    requires x <= y
    ensures x * d <= y * d
  {
  }

  /** A node exists exactly if its first leaf does. */
  lemma WidthIff(n: nat, height: nat, pos: nat)
    ensures pos < Width(n, height) <==> Lo(height, pos) < n
  {
    DivBelow(n, Pow2(height), pos);
  }

  lemma Children(height: nat, pos: nat)
    requires height > 0
    ensures Lo(height - 1, 2 * pos) == Lo(height, pos)
    ensures Lo(height - 1, 2 * pos + 2) == Lo(height, pos + 1)
    ensures Lo(height, pos) < Lo(height - 1, 2 * pos + 1) < Lo(height, pos + 1)
  {
    var p := Pow2(height - 1);
    assert Pow2(height) == 2 * p;
    assert pos * (2 * p) == (2 * pos) * p;
    assert (2 * pos + 1) * p == (2 * pos) * p + p;
    assert (pos + 1) * (2 * p) == (2 * pos) * p + 2 * p == (2 * pos + 2) * p;
  }

  /** A node with leaves below it: the two halves split them. */
  lemma Split(n: nat, height: nat, pos: nat)
    requires height > 0 && Lo(height, pos) < n
    ensures Lo(height - 1, 2 * pos) == Lo(height, pos) < Hi(n, height, pos) <= n
    ensures 2 * pos + 1 < Width(n, height - 1) <==> Lo(height - 1, 2 * pos + 1) < n
    ensures 2 * pos + 1 < Width(n, height - 1) ==>
              Hi(n, height - 1, 2 * pos) == Lo(height - 1, 2 * pos + 1) && Hi(n, height - 1, 2 * pos + 1) == Hi(n, height, pos)
    ensures !(2 * pos + 1 < Width(n, height - 1)) ==> Hi(n, height - 1, 2 * pos) == Hi(n, height, pos)
  {
    hide Lo, Width;
    Children(height, pos);
    WidthIff(n, height - 1, 2 * pos + 1);
  }

  // ---------------------------------------------------------------- hashes

  function CalcHash(hash: Combine, height: nat, pos: nat, txids: seq<Digest>): Digest
    requires Lo(height, pos) < |txids|
  {
    if height == 0 then txids[pos]
    else
      Split(|txids|, height, pos);
      var left := CalcHash(hash, height - 1, 2 * pos, txids);
      var right := if 2 * pos + 1 < Width(|txids|, height - 1) then CalcHash(hash, height - 1, 2 * pos + 1, txids) else left;
      hash(left, right)
  }

  ghost predicate Distinct(txids: seq<Digest>) {
    forall i, j | 0 <= i < j < |txids| :: txids[i] != txids[j]
  }

  /** Equal hashes at one height mean equal first leaves. */
  lemma {:induction false} SameHashSameLeaf(hash: Combine, height: nat, pos: nat, pos': nat, txids: seq<Digest>)
    requires Injective(hash) && Lo(height, pos) < |txids| && Lo(height, pos') < |txids|
    requires CalcHash(hash, height, pos, txids) == CalcHash(hash, height, pos', txids)
    ensures txids[Lo(height, pos)] == txids[Lo(height, pos')]
  {
    if height > 0 {
      hide Lo, Width;
      Split(|txids|, height, pos);
      Split(|txids|, height, pos');
      SameHashSameLeaf(hash, height - 1, 2 * pos, 2 * pos', txids);
    }
  }

  /** Siblings of a tree with distinct leaves never hash alike. */
  lemma SiblingsDiffer(hash: Combine, height: nat, pos: nat, txids: seq<Digest>)
    requires Injective(hash) && Distinct(txids) && Lo(height, pos) < |txids| && Lo(height, pos + 1) < |txids|
    ensures CalcHash(hash, height, pos, txids) != CalcHash(hash, height, pos + 1, txids)
  {
    assert Lo(height, pos) < Lo(height, pos + 1);
    hide Lo;
    if CalcHash(hash, height, pos, txids) == CalcHash(hash, height, pos + 1, txids) {
      SameHashSameLeaf(hash, height, pos, pos + 1, txids);
    }
  }

  // ---------------------------------------------------------------- encoding

  ghost predicate AnyMatch(match_: seq<bool>, lo: nat, hi: nat)
    requires lo <= hi <= |match_|
  {
    exists p :: lo <= p < hi && match_[p]
  }

  datatype Encoding = Encoding(bits: seq<bool>, hashes: seq<Digest>)
  {
    function Then(that: Encoding): Encoding { Encoding(bits + that.bits, hashes + that.hashes) }
  }

  /** The depth-first encoding of one node. */
  ghost function Build(hash: Combine, height: nat, pos: nat, txids: seq<Digest>, match_: seq<bool>): (e: Encoding)
    requires |match_| == |txids| && Lo(height, pos) < |txids|
    ensures |e.bits| >= |e.hashes| >= 1
  {
    var found := Lo(height, pos) <= Hi(|txids|, height, pos) && AnyMatch(match_, Lo(height, pos), Hi(|txids|, height, pos));
    if height == 0 || !found then Encoding([found], [CalcHash(hash, height, pos, txids)])
    else
      Split(|txids|, height, pos);
      var here := Encoding([true], []).Then(Build(hash, height - 1, 2 * pos, txids, match_));
      if 2 * pos + 1 < Width(|txids|, height - 1) then here.Then(Build(hash, height - 1, 2 * pos + 1, txids, match_)) else here
  }

  /** The selected leaves of a range, in order. */
  ghost function MatchedIn(txids: seq<Digest>, match_: seq<bool>, lo: nat, hi: nat): seq<Digest>
    requires |match_| == |txids| && lo <= hi <= |txids|
  {
    if lo == hi then [] else MatchedIn(txids, match_, lo, hi - 1) + if match_[hi - 1] then [txids[hi - 1]] else []
  }

  lemma {:induction false} MatchedSplit(txids: seq<Digest>, match_: seq<bool>, lo: nat, mid: nat, hi: nat)
    requires |match_| == |txids| && lo <= mid <= hi <= |txids|
    ensures MatchedIn(txids, match_, lo, hi) == MatchedIn(txids, match_, lo, mid) + MatchedIn(txids, match_, mid, hi)
  {
    if mid < hi {
      MatchedSplit(txids, match_, lo, mid, hi - 1);
    }
  }

  lemma {:induction false} NoMatches(txids: seq<Digest>, match_: seq<bool>, lo: nat, hi: nat)
    requires |match_| == |txids| && lo <= hi <= |txids|
    ensures MatchedIn(txids, match_, lo, hi) == [] <==> !AnyMatch(match_, lo, hi)
  {
    if lo < hi {
      NoMatches(txids, match_, lo, hi - 1);
      if match_[hi - 1] {
        assert AnyMatch(match_, lo, hi);
      } else {
        assert AnyMatch(match_, lo, hi) ==> AnyMatch(match_, lo, hi - 1);
        assert AnyMatch(match_, lo, hi - 1) ==> AnyMatch(match_, lo, hi);
      }
    }
  }

  // ---------------------------------------------------------------- size

  /** No more hashes than leaves. */
  lemma {:induction false} HashesAtMostLeaves(hash: Combine, height: nat, pos: nat, txids: seq<Digest>, match_: seq<bool>)
    requires |match_| == |txids| && Lo(height, pos) < |txids|
    ensures Lo(height, pos) < Hi(|txids|, height, pos)
    ensures |Build(hash, height, pos, txids, match_).hashes| <= Hi(|txids|, height, pos) - Lo(height, pos)
  {
    if height > 0 {
      Split(|txids|, height, pos);
      hide Lo, Hi, Width, CalcHash;
      HashesAtMostLeaves(hash, height - 1, 2 * pos, txids, match_);
      if 2 * pos + 1 < Width(|txids|, height - 1) {
        HashesAtMostLeaves(hash, height - 1, 2 * pos + 1, txids, match_);
      }
    }
  }

  lemma HashBudget(h: nat, left: nat, right: nat)
    requires left + right >= 1
    ensures (1 + left * h) + (1 + right * h) <= 1 + (left + right) * (h + 1)
  {
    assert (left + right) * (h + 1) == left * h + right * h + left + right;
  }

  // ---------------------------------------------------------------- decoding

  datatype Packed = Packed(n: nat, bits: seq<bool>, hashes: seq<Digest>)

  /** The state threaded through the traversal; `places` records at which leaf each match was found. */
  datatype Cursor = Cursor(nBitsUsed: nat, nHashUsed: nat, bad: bool, matched: seq<Digest>, places: seq<nat>)

  /** A node whose hash is stored; at a matched leaf `found` is its place. */
  function Stop(t: Packed, c: Cursor, found: seq<nat>): (Cursor, Digest)
    requires |found| <= 1
  {
    if c.nHashUsed >= |t.hashes| then (c.(bad := true), ZERO)
    else
      var h := t.hashes[c.nHashUsed];
      var c1 := c.(nHashUsed := c.nHashUsed + 1);
      (if found == [] then c1 else c1.(matched := c.matched + [h], places := c.places + found), h)
  }

  function Extract(hash: Combine, t: Packed, height: nat, pos: nat, c: Cursor): (Cursor, Digest) {
    if c.nBitsUsed >= |t.bits| then (c.(bad := true), ZERO)
    else
      var parent := t.bits[c.nBitsUsed];
      var c1 := c.(nBitsUsed := c.nBitsUsed + 1);
      if height == 0 || !parent then Stop(t, c1, if height == 0 && parent then [pos] else [])
      else
        var (c2, left) := Extract(hash, t, height - 1, 2 * pos, c1);
        if 2 * pos + 1 < Width(t.n, height - 1) then
          var (c3, right) := Extract(hash, t, height - 1, 2 * pos + 1, c2);
          (if right == left then c3.(bad := true) else c3, hash(left, right))
        else (c2, hash(left, left))
  }

  lemma {:induction false} BadStays(hash: Combine, t: Packed, height: nat, pos: nat, c: Cursor)
    requires c.bad
    ensures Extract(hash, t, height, pos, c).0.bad
  {
    if height > 0 && c.nBitsUsed < |t.bits| && t.bits[c.nBitsUsed] {
      var c1 := c.(nBitsUsed := c.nBitsUsed + 1);
      BadStays(hash, t, height - 1, 2 * pos, c1);
      BadStays(hash, t, height - 1, 2 * pos + 1, Extract(hash, t, height - 1, 2 * pos, c1).0);
    }
  }

  // One level of each recursion, for proofs that keep the functions themselves folded.

  function RightOrLeft(hash: Combine, height: nat, pos: nat, txids: seq<Digest>): Digest
    requires height > 0 && Lo(height, pos) < |txids|
  {
    Split(|txids|, height, pos);
    if 2 * pos + 1 < Width(|txids|, height - 1) then CalcHash(hash, height - 1, 2 * pos + 1, txids)
    else CalcHash(hash, height - 1, 2 * pos, txids)
  }

  lemma CalcUnfold(hash: Combine, height: nat, pos: nat, txids: seq<Digest>)
    requires height > 0 && Lo(height, pos) < |txids|
    ensures Lo(height - 1, 2 * pos) < |txids|
    ensures CalcHash(hash, height, pos, txids) ==
            hash(CalcHash(hash, height - 1, 2 * pos, txids), RightOrLeft(hash, height, pos, txids))
  {
    Split(|txids|, height, pos);
    hide Lo, Width;
  }

  lemma ExtractStops(hash: Combine, t: Packed, height: nat, pos: nat, c: Cursor)
    ensures c.nBitsUsed >= |t.bits| ==> Extract(hash, t, height, pos, c) == (c.(bad := true), ZERO)
    ensures c.nBitsUsed < |t.bits| && (height == 0 || !t.bits[c.nBitsUsed]) ==>
              Extract(hash, t, height, pos, c) ==
              Stop(t, c.(nBitsUsed := c.nBitsUsed + 1), if height == 0 && t.bits[c.nBitsUsed] then [pos] else [])
  {
    hide Width;
  }

  lemma ExtractUnfold(hash: Combine, t: Packed, height: nat, pos: nat, c: Cursor)
    requires height > 0 && c.nBitsUsed < |t.bits| && t.bits[c.nBitsUsed]
    ensures var (c2, left) := Extract(hash, t, height - 1, 2 * pos, c.(nBitsUsed := c.nBitsUsed + 1));
            if 2 * pos + 1 < Width(t.n, height - 1) then
              var (c3, right) := Extract(hash, t, height - 1, 2 * pos + 1, c2);
              Extract(hash, t, height, pos, c) == (if right == left then c3.(bad := true) else c3, hash(left, right))
            else Extract(hash, t, height, pos, c) == (c2, hash(left, left))
  {
    hide Width;
  }

  lemma BuildUnfold(hash: Combine, height: nat, pos: nat, txids: seq<Digest>, match_: seq<bool>)
    requires |match_| == |txids| && Lo(height, pos) < |txids| && height > 0
    requires Lo(height, pos) < Hi(|txids|, height, pos) <= |txids| && AnyMatch(match_, Lo(height, pos), Hi(|txids|, height, pos))
    ensures Lo(height - 1, 2 * pos) < |txids|
    ensures var e, el := Build(hash, height, pos, txids, match_), Build(hash, height - 1, 2 * pos, txids, match_);
            if 2 * pos + 1 < Width(|txids|, height - 1) then
              && Lo(height - 1, 2 * pos + 1) < |txids|
              && var er := Build(hash, height - 1, 2 * pos + 1, txids, match_);
                 e.bits == [true] + (el.bits + er.bits) && e.hashes == el.hashes + er.hashes
            else e.bits == [true] + el.bits && e.hashes == el.hashes
  {
    Split(|txids|, height, pos);
    hide Lo, Hi, Width, CalcHash;
    var e, el := Build(hash, height, pos, txids, match_), Build(hash, height - 1, 2 * pos, txids, match_);
    if 2 * pos + 1 < Width(|txids|, height - 1) {
      var er := Build(hash, height - 1, 2 * pos + 1, txids, match_);
      assert e == Encoding([true], []).Then(el).Then(er);
      assert e.bits == [true] + (el.bits + er.bits);
      assert e.hashes == el.hashes + er.hashes;
    } else {
      assert e == Encoding([true], []).Then(el);
    }
  }

  // ---------------------------------------------------------------- soundness

  /** Every match so far is the leaf at its place, at increasing places below the bound. */
  ghost predicate Faithful(c: Cursor, txids: seq<Digest>, bound: nat) {
    && |c.places| == |c.matched|
    && (forall i | 0 <= i < |c.places| :: c.places[i] < bound && c.places[i] < |txids| && c.matched[i] == txids[c.places[i]])
    && (forall i, j | 0 <= i < j < |c.places| :: c.places[i] < c.places[j])
  }

  lemma InjectiveAt(hash: Combine, a: Digest, b: Digest, c: Digest, d: Digest)
    requires Injective(hash) && hash(a, b) == hash(c, d)
    ensures a == c && b == d
  {
  }

  lemma ExtractEnd(hash: Combine, t: Packed, height: nat, pos: nat, c: Cursor, txids: seq<Digest>)
    requires t.n == |txids| && Lo(height, pos) < |txids| && Faithful(c, txids, Lo(height, pos))
    requires c.nBitsUsed < |t.bits| && (height == 0 || !t.bits[c.nBitsUsed])
    requires !Extract(hash, t, height, pos, c).0.bad
    requires Extract(hash, t, height, pos, c).1 == CalcHash(hash, height, pos, txids)
    ensures Faithful(Extract(hash, t, height, pos, c).0, txids, Hi(|txids|, height, pos))
  {
    Leaf(height, pos, |txids|);
    hide Lo, Hi;
  }

  lemma BitsLeft(hash: Combine, t: Packed, height: nat, pos: nat, c: Cursor)
    requires !Extract(hash, t, height, pos, c).0.bad
    ensures c.nBitsUsed < |t.bits|
  {
    hide Width;
  }

  /** Whatever the bits and hashes are: a traversal that does not fail and yields the true hash of a
      node reports only true leaves. */
  lemma {:induction false} ExtractSound(hash: Combine, t: Packed, height: nat, pos: nat, c: Cursor, txids: seq<Digest>)
    requires Injective(hash) && t.n == |txids| && Lo(height, pos) < |txids| && Faithful(c, txids, Lo(height, pos))
    requires !Extract(hash, t, height, pos, c).0.bad
    requires Extract(hash, t, height, pos, c).1 == CalcHash(hash, height, pos, txids)
    ensures Faithful(Extract(hash, t, height, pos, c).0, txids, Hi(|txids|, height, pos))
  {
    hide Lo, Hi, Width, Extract, CalcHash, Injective, Faithful;
    BitsLeft(hash, t, height, pos, c);
    if height == 0 || !t.bits[c.nBitsUsed] {
      ExtractEnd(hash, t, height, pos, c, txids);
    } else {
      Split(|txids|, height, pos);
      CalcUnfold(hash, height, pos, txids);
      ExtractUnfold(hash, t, height, pos, c);
      var c1 := c.(nBitsUsed := c.nBitsUsed + 1);
      FaithfulMoved(c, c1, txids, Lo(height, pos));
      var (c2, left) := Extract(hash, t, height - 1, 2 * pos, c1);
      var cl := CalcHash(hash, height - 1, 2 * pos, txids);
      if 2 * pos + 1 < Width(t.n, height - 1) {
        var (c3, right) := Extract(hash, t, height - 1, 2 * pos + 1, c2);
        InjectiveAt(hash, left, right, cl, RightOrLeft(hash, height, pos, txids));
        if c2.bad {
          BadStays(hash, t, height - 1, 2 * pos + 1, c2);
        }
        ExtractSound(hash, t, height - 1, 2 * pos, c1, txids);
        ExtractSound(hash, t, height - 1, 2 * pos + 1, c2, txids);
      } else {
        InjectiveAt(hash, left, left, cl, cl);
        ExtractSound(hash, t, height - 1, 2 * pos, c1, txids);
      }
    }
  }

  lemma FaithfulMoved(c: Cursor, c': Cursor, txids: seq<Digest>, bound: nat)
    requires Faithful(c, txids, bound) && c'.places == c.places && c'.matched == c.matched
    ensures Faithful(c', txids, bound)
  {
  }

  lemma Leaf(height: nat, pos: nat, n: nat)
    requires Lo(height, pos) < n
    ensures Lo(height, pos) < Hi(n, height, pos) <= n
    ensures height == 0 ==> Lo(height, pos) == pos && Hi(n, height, pos) == pos + 1
  {
    assert Lo(height, pos) < Lo(height, pos + 1);
  }

  // ---------------------------------------------------------------- completeness

  ghost predicate At<T(!new)>(s: seq<T>, i: nat, x: seq<T>) {
    i + |x| <= |s| && s[i..i + |x|] == x
  }

  lemma AtParts<T(!new)>(s: seq<T>, i: nat, x: seq<T>, y: seq<T>)
    requires At(s, i, x + y)
    ensures At(s, i, x) && At(s, i + |x|, y)
  {
    var z := s[i..i + |x + y|];
    assert s[i..i + |x|] == z[..|x|] == x;
    assert s[i + |x|..i + |x| + |y|] == z[|x|..] == y;
  }

  /** Where the decoder stands after reading an encoded node. */
  function Advanced(c: Cursor, e: Encoding, found: seq<Digest>, places: seq<nat>): Cursor {
    c.(nBitsUsed := c.nBitsUsed + |e.bits|, nHashUsed := c.nHashUsed + |e.hashes|,
       matched := c.matched + found, places := places)
  }

  /** The encoded node lies where the decoder stands. */
  ghost predicate Here(t: Packed, c: Cursor, e: Encoding) {
    At(t.bits, c.nBitsUsed, e.bits) && At(t.hashes, c.nHashUsed, e.hashes)
  }

  /** The decoder reads the node: its hash, exactly its selected leaves, and not a bit more. */
  ghost predicate Decodes(hash: Combine, t: Packed, height: nat, pos: nat, c: Cursor, txids: seq<Digest>, match_: seq<bool>)
    requires t.n == |txids| == |match_| && Lo(height, pos) < |txids|
  {
    var (c', h) := Extract(hash, t, height, pos, c);
    var e := Build(hash, height, pos, txids, match_);
    && h == CalcHash(hash, height, pos, txids)
    && Lo(height, pos) < Hi(|txids|, height, pos) <= |txids|
    && c' == Advanced(c, e, MatchedIn(txids, match_, Lo(height, pos), Hi(|txids|, height, pos)), c'.places)
  }

  lemma DecodesEnd(hash: Combine, t: Packed, height: nat, pos: nat, c: Cursor, txids: seq<Digest>, match_: seq<bool>)
    requires t.n == |txids| == |match_| && Lo(height, pos) < |txids|
    requires Lo(height, pos) < Hi(|txids|, height, pos) <= |txids|
    requires height == 0 || !AnyMatch(match_, Lo(height, pos), Hi(|txids|, height, pos))
    requires Here(t, c, Build(hash, height, pos, txids, match_))
    ensures Decodes(hash, t, height, pos, c, txids, match_)
  {
    var lo, hi := Lo(height, pos), Hi(|txids|, height, pos);
    NoMatches(txids, match_, lo, hi);
    var e := Build(hash, height, pos, txids, match_);
    assert t.bits[c.nBitsUsed..c.nBitsUsed + 1][0] == e.bits[0];
    assert t.hashes[c.nHashUsed..c.nHashUsed + 1][0] == e.hashes[0];
    hide CalcHash;
    if height == 0 {
      Leaf(height, pos, |txids|);
      assert MatchedIn(txids, match_, lo, hi) == if match_[pos] then [txids[pos]] else [];
    }
  }

  /** Decoding an encoded node gives its hash and exactly its selected leaves. */
  lemma {:induction false} ExtractComplete(hash: Combine, t: Packed, height: nat, pos: nat, c: Cursor, txids: seq<Digest>, match_: seq<bool>)
    requires Injective(hash) && Distinct(txids) && t.n == |txids| == |match_| && Lo(height, pos) < |txids|
    requires Here(t, c, Build(hash, height, pos, txids, match_))
    ensures Decodes(hash, t, height, pos, c, txids, match_)
  {
    hide Lo, Hi, Width, MatchedIn, Build, Extract, CalcHash, Injective, Distinct, AnyMatch, Here;
    Leaf(height, pos, |txids|);
    if height == 0 || !AnyMatch(match_, Lo(height, pos), Hi(|txids|, height, pos)) {
      DecodesEnd(hash, t, height, pos, c, txids, match_);
    } else {
      BuildUnfold(hash, height, pos, txids, match_);
      CalcUnfold(hash, height, pos, txids);
      Split(|txids|, height, pos);
      var el := Build(hash, height - 1, 2 * pos, txids, match_);
      var c1 := c.(nBitsUsed := c.nBitsUsed + 1);
      if 2 * pos + 1 < Width(|txids|, height - 1) {
        var er := Build(hash, height - 1, 2 * pos + 1, txids, match_);
        HereBoth(t, c, Build(hash, height, pos, txids, match_), el, er);
        ExtractUnfold(hash, t, height, pos, c);
        ExtractComplete(hash, t, height - 1, 2 * pos, c1, txids, match_);
        var c2 := Extract(hash, t, height - 1, 2 * pos, c1).0;
        HereNext(t, c2, er);
        ExtractComplete(hash, t, height - 1, 2 * pos + 1, c2, txids, match_);
        SiblingsDiffer(hash, height - 1, 2 * pos, txids);
        MatchedSplit(txids, match_, Lo(height, pos), Lo(height - 1, 2 * pos + 1), Hi(|txids|, height, pos));
      } else {
        HereOne(t, c, Build(hash, height, pos, txids, match_), el);
        ExtractUnfold(hash, t, height, pos, c);
        ExtractComplete(hash, t, height - 1, 2 * pos, c1, txids, match_);
      }
    }
  }

  lemma HereNext(t: Packed, c: Cursor, e: Encoding)
    requires At(t.bits, c.nBitsUsed, e.bits) && At(t.hashes, c.nHashUsed, e.hashes)
    ensures Here(t, c, e)
  {
  }

  lemma HereOne(t: Packed, c: Cursor, e: Encoding, el: Encoding)
    requires Here(t, c, e) && e.bits == [true] + el.bits && e.hashes == el.hashes
    ensures c.nBitsUsed < |t.bits| && t.bits[c.nBitsUsed] && Here(t, c.(nBitsUsed := c.nBitsUsed + 1), el)
  {
    AtParts(t.bits, c.nBitsUsed, [true], el.bits);
    assert t.bits[c.nBitsUsed..c.nBitsUsed + 1][0];
  }

  lemma HereBoth(t: Packed, c: Cursor, e: Encoding, el: Encoding, er: Encoding)
    requires Here(t, c, e) && e.bits == [true] + (el.bits + er.bits) && e.hashes == el.hashes + er.hashes
    ensures c.nBitsUsed < |t.bits| && t.bits[c.nBitsUsed] && Here(t, c.(nBitsUsed := c.nBitsUsed + 1), el)
    ensures At(t.bits, c.nBitsUsed + 1 + |el.bits|, er.bits) && At(t.hashes, c.nHashUsed + |el.hashes|, er.hashes)
  {
    AtParts(t.bits, c.nBitsUsed, [true], el.bits + er.bits);
    AtParts(t.bits, c.nBitsUsed + 1, el.bits, er.bits);
    AtParts(t.hashes, c.nHashUsed, el.hashes, er.hashes);
    assert t.bits[c.nBitsUsed..c.nBitsUsed + 1][0];
  }

  /** At most one hash, and one more per selected leaf and level. */
  lemma {:induction false} HashesAtMostMatches(hash: Combine, height: nat, pos: nat, txids: seq<Digest>, match_: seq<bool>)
    requires |match_| == |txids| && Lo(height, pos) < |txids|
    ensures Lo(height, pos) < Hi(|txids|, height, pos) <= |txids|
    ensures |Build(hash, height, pos, txids, match_).hashes| <=
            1 + |MatchedIn(txids, match_, Lo(height, pos), Hi(|txids|, height, pos))| * height
  {
    hide Lo, Hi, Width, MatchedIn, Build, CalcHash, AnyMatch;
    Leaf(height, pos, |txids|);
    var lo, hi := Lo(height, pos), Hi(|txids|, height, pos);
    NoMatches(txids, match_, lo, hi);
    var m := |MatchedIn(txids, match_, lo, hi)|;
    if height == 0 || !AnyMatch(match_, lo, hi) {
      BuildEnd(hash, height, pos, txids, match_);
      assert m * height >= 0;
    } else {
      Split(|txids|, height, pos);
      BuildUnfold(hash, height, pos, txids, match_);
      HashesAtMostMatches(hash, height - 1, 2 * pos, txids, match_);
      if 2 * pos + 1 < Width(|txids|, height - 1) {
        var mid := Lo(height - 1, 2 * pos + 1);
        HashesAtMostMatches(hash, height - 1, 2 * pos + 1, txids, match_);
        MatchedSplit(txids, match_, lo, mid, hi);
        HashBudget(height - 1, |MatchedIn(txids, match_, lo, mid)|, |MatchedIn(txids, match_, mid, hi)|);
      } else {
        HashBudget(height - 1, m, 0);
      }
    }
  }

  lemma BuildEnd(hash: Combine, height: nat, pos: nat, txids: seq<Digest>, match_: seq<bool>)
    requires |match_| == |txids| && Lo(height, pos) < |txids|
    requires Lo(height, pos) < Hi(|txids|, height, pos) <= |txids|
    requires height == 0 || !AnyMatch(match_, Lo(height, pos), Hi(|txids|, height, pos))
    ensures Build(hash, height, pos, txids, match_) ==
            Encoding([AnyMatch(match_, Lo(height, pos), Hi(|txids|, height, pos))], [CalcHash(hash, height, pos, txids)])
  {
    hide Lo, Hi, CalcHash;
  }

  // ---------------------------------------------------------------- whole trees

  /** The least height, from a given one on, at which a single node remains. */
  function HeightFrom(n: nat, height: nat): (h: nat)
    ensures h >= height && n <= Pow2(h)
    decreases n - height
  {
    Pow2Exceeds(height);
    WidthIff(n, height, 1);
    if Width(n, height) > 1 then HeightFrom(n, height + 1) else height
  }

  function TreeHeight(n: nat): nat { HeightFrom(n, 0) }

  /** The Merkle root of a block. */
  function Root(hash: Combine, txids: seq<Digest>): Digest
    requires txids != []
  {
    CalcHash(hash, TreeHeight(|txids|), 0, txids)
  }

  ghost function EncodeAll(hash: Combine, txids: seq<Digest>, match_: seq<bool>): Encoding
    requires txids != [] && |match_| == |txids|
  {
    Build(hash, TreeHeight(|txids|), 0, txids, match_)
  }

  lemma WholeRange(n: nat)
    requires n > 0
    ensures Lo(TreeHeight(n), 0) == 0 && Hi(n, TreeHeight(n), 0) == n
  {
  }

  /** One transaction takes at least 60 bytes of a block. */
  const MAX_TRANSACTIONS: nat := 2000000 / 60

  /** ExtractMatches: the traversal and the checks around it. */
  datatype Decoded = Decoded(ok: bool, root: Digest, matched: seq<Digest>, places: seq<nat>)

  function Decode(hash: Combine, t: Packed, bad: bool): Decoded {
    if t.n == 0 || t.n > MAX_TRANSACTIONS || |t.hashes| > t.n || |t.bits| < |t.hashes| then Decoded(false, ZERO, [], [])
    else
      var (c, root) := Extract(hash, t, TreeHeight(t.n), 0, Cursor(0, 0, bad, [], []));
      var ok := !c.bad && (c.nBitsUsed + 7) / 8 == (|t.bits| + 7) / 8 && c.nHashUsed == |t.hashes|;
      Decoded(ok, if ok then root else ZERO, c.matched, c.places)
  }

  /** Soundness for arbitrary input: a proof that yields the root of a block with as many transactions
      matches only transactions of that block, each at its own place and in block order. */
  lemma DecodeSound(hash: Combine, t: Packed, bad: bool, txids: seq<Digest>)
    requires Injective(hash) && txids != [] && t.n == |txids|
    requires Decode(hash, t, bad).ok && Decode(hash, t, bad).root == Root(hash, txids)
    ensures var d := Decode(hash, t, bad);
            && |d.places| == |d.matched|
            && (forall i | 0 <= i < |d.matched| :: d.places[i] < |txids| && d.matched[i] == txids[d.places[i]])
            && (forall i, j | 0 <= i < j < |d.places| :: d.places[i] < d.places[j])
  {
    hide Extract, CalcHash, Injective, TreeHeight, Lo, Hi;
    WholeRange(|txids|);
    ExtractSound(hash, t, TreeHeight(t.n), 0, Cursor(0, 0, bad, [], []), txids);
  }

  /** Completeness: the encoding of any selection of distinct transactions, with its flag bits padded to
      whole bytes, decodes to the root and exactly the selected transactions in order. */
  lemma DecodeComplete(hash: Combine, txids: seq<Digest>, match_: seq<bool>, bits: seq<bool>)
    requires Injective(hash) && Distinct(txids) && 0 < |txids| <= MAX_TRANSACTIONS && |match_| == |txids|
    requires var e := EncodeAll(hash, txids, match_); |e.bits| <= |bits| && |bits| == (|e.bits| + 7) / 8 * 8 && bits[..|e.bits|] == e.bits
    ensures var d := Decode(hash, Packed(|txids|, bits, EncodeAll(hash, txids, match_).hashes), false);
            d.ok && d.root == Root(hash, txids) && d.matched == MatchedIn(txids, match_, 0, |txids|)
  {
    hide Extract, CalcHash, Injective, TreeHeight, Lo, Hi, Build, MatchedIn, Distinct;
    var e := EncodeAll(hash, txids, match_);
    var t := Packed(|txids|, bits, e.hashes);
    var c := Cursor(0, 0, false, [], []);
    WholeRange(|txids|);
    HashesAtMostLeaves(hash, TreeHeight(|txids|), 0, txids, match_);
    assert bits[0..0 + |e.bits|] == e.bits && e.hashes[0..0 + |e.hashes|] == e.hashes;
    ExtractComplete(hash, t, TreeHeight(|txids|), 0, c, txids, match_);
  }

  /** More bits and hashes behind those a traversal uses do not change what it finds. */
  lemma {:induction false} ExtractExtends(hash: Combine, t: Packed, t': Packed, height: nat, pos: nat, c: Cursor)
    requires t'.n == t.n && t.bits <= t'.bits && t.hashes <= t'.hashes
    requires !Extract(hash, t, height, pos, c).0.bad
    ensures Extract(hash, t', height, pos, c) == Extract(hash, t, height, pos, c)
  {
    if c.nBitsUsed < |t.bits| && height > 0 && t.bits[c.nBitsUsed] {
      var c1 := c.(nBitsUsed := c.nBitsUsed + 1);
      var c2 := Extract(hash, t, height - 1, 2 * pos, c1).0;
      if c2.bad {
        BadStays(hash, t, height - 1, 2 * pos + 1, c2);
      }
      ExtractExtends(hash, t, t', height - 1, 2 * pos, c1);
      if 2 * pos + 1 < Width(t.n, height - 1) {
        ExtractExtends(hash, t, t', height - 1, 2 * pos + 1, c2);
      }
    }
  }

  /** Nothing may be left over: of all the ways to go on from an accepted proof, those accepted are the ones
      that add no hash and no flag byte, and they prove the same. */
  lemma NothingLeftOver(hash: Combine, t: Packed, t': Packed, bad: bool)
    requires Decode(hash, t, bad).ok && t'.n == t.n && t.bits <= t'.bits && t.hashes <= t'.hashes
    ensures Decode(hash, t', bad).ok <==> |t'.hashes| == |t.hashes| && (|t'.bits| + 7) / 8 == (|t.bits| + 7) / 8
    ensures Decode(hash, t', bad).ok ==> Decode(hash, t', bad) == Decode(hash, t, bad)
    ensures 0 < t.n <= MAX_TRANSACTIONS && |t.hashes| <= t.n && |t.hashes| <= |t.bits|
  {
    hide Extract, TreeHeight;
    ExtractExtends(hash, t, t', TreeHeight(t.n), 0, Cursor(0, 0, bad, [], []));
  }

  /** The encoding is small: at most one hash per transaction, and at most one plus one per match and level. */
  lemma EncodingSize(hash: Combine, txids: seq<Digest>, match_: seq<bool>)
    requires txids != [] && |match_| == |txids|
    ensures |EncodeAll(hash, txids, match_).hashes| <= |txids|
    ensures |EncodeAll(hash, txids, match_).hashes| <= 1 + |MatchedIn(txids, match_, 0, |txids|)| * TreeHeight(|txids|)
  {
    hide TreeHeight, Lo, Hi, Build, MatchedIn;
    WholeRange(|txids|);
    HashesAtMostLeaves(hash, TreeHeight(|txids|), 0, txids, match_);
    HashesAtMostMatches(hash, TreeHeight(|txids|), 0, txids, match_);
  }
}
