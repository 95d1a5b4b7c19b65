/** What a transaction pays and reveals, item by item: independent readings of the sums and the
    nullifier list that the checks of a transaction go by. */
module Values {
  import opened Primitives
  import opened ChainSpec

  function Sum(s: seq<int>): int {
    if s == [] then 0 else s[0] + Sum(s[1..])
  }

  function OutValues(vout: seq<TxOut>): seq<int> { seq(|vout|, i requires 0 <= i < |vout| => vout[i].nValue) }
  function OldValues(js: seq<JoinSplit>): seq<int> { seq(|js|, i requires 0 <= i < |js| => js[i].vpubOld) }
  function NewValues(js: seq<JoinSplit>): seq<int> { seq(|js|, i requires 0 <= i < |js| => js[i].vpubNew) }

  /** What the joinsplits move into the shielded pool, one after the other. */
  function Pool(js: seq<JoinSplit>): int {
    if js == [] then 0 else js[0].vpubOld - js[0].vpubNew + Pool(js[1..])
  }

  /** The nullifier number b of the joinsplit number a. */
  ghost predicate RevealsAt(js: seq<JoinSplit>, a: nat, b: nat, nf: Hash) {
    a < |js| && b < |js[a].nullifiers| && js[a].nullifiers[b] == nf
  }

  ghost predicate Reveals(js: seq<JoinSplit>, nf: Hash) {
    exists a: nat, b: nat :: RevealsAt(js, a, b, nf)
  }

  // ---------------------------------------------------------------- sums

  lemma {:induction false} SumPush(s: seq<int>, x: int)
    ensures Sum(s + [x]) == Sum(s) + x
  {
    if s != [] {
      SumPush(s[1..], x);
      assert (s + [x])[1..] == s[1..] + [x];
    }
  }

  lemma {:induction false} SumNonNegative(s: seq<int>, k: nat)
    requires k <= |s| && forall i | 0 <= i < |s| :: s[i] >= 0
    ensures 0 <= Sum(s[..k]) <= Sum(s)
  {
    if s != [] {
      if k > 0 {
        SumNonNegative(s[1..], k - 1);
        assert s[..k][1..] == s[1..][..k - 1];
      } else {
        SumNonNegative(s[1..], 0);
      }
    }
  }

  /** The running totals of the checks are the sums of the items. */
  lemma {:induction false} SumOutIs(vout: seq<TxOut>)
    ensures SumOut(vout) == Sum(OutValues(vout))
  {
    if vout != [] {
      var k := |vout| - 1;
      SumOutIs(vout[..k]);
      SumPush(OutValues(vout[..k]), vout[k].nValue);
      assert OutValues(vout) == OutValues(vout[..k]) + [vout[k].nValue];
    }
  }

  lemma {:induction false} SumOldIs(js: seq<JoinSplit>)
    ensures SumOld(js) == Sum(OldValues(js))
  {
    if js != [] {
      var k := |js| - 1;
      SumOldIs(js[..k]);
      SumPush(OldValues(js[..k]), js[k].vpubOld);
      assert OldValues(js) == OldValues(js[..k]) + [js[k].vpubOld];
    }
  }

  lemma {:induction false} SumNewIs(js: seq<JoinSplit>)
    ensures SumNew(js) == Sum(NewValues(js))
  {
    if js != [] {
      var k := |js| - 1;
      SumNewIs(js[..k]);
      SumPush(NewValues(js[..k]), js[k].vpubNew);
      assert NewValues(js) == NewValues(js[..k]) + [js[k].vpubNew];
    }
  }

  lemma {:induction false} PoolIs(js: seq<JoinSplit>)
    ensures Pool(js) == Sum(OldValues(js)) - Sum(NewValues(js))
  {
    if js != [] {
      PoolIs(js[1..]);
      assert OldValues(js)[1..] == OldValues(js[1..]);
      assert NewValues(js)[1..] == NewValues(js[1..]);
    }
  }

  // ---------------------------------------------------------------- nullifiers

  lemma RevealsPush(js: seq<JoinSplit>, j: JoinSplit, nf: Hash)
    ensures Reveals(js + [j], nf) <==> Reveals(js, nf) || nf in j.nullifiers
  {
    var all := js + [j];
    if Reveals(js, nf) {
      var a: nat, b: nat :| RevealsAt(js, a, b, nf);
      assert RevealsAt(all, a, b, nf);
    }
    if nf in j.nullifiers {
      var b: nat :| b < |j.nullifiers| && j.nullifiers[b] == nf;
      assert RevealsAt(all, |js|, b, nf);
    }
    if Reveals(all, nf) {
      var a: nat, b: nat :| RevealsAt(all, a, b, nf);
      if a < |js| {
        assert RevealsAt(js, a, b, nf);
      }
    }
  }

  /** The nullifiers of a transaction are those its joinsplits list, each one of them and no other. */
  lemma {:induction false} NullifiersAre(js: seq<JoinSplit>, nf: Hash)
    ensures nf in JoinSplitNullifiers(js) <==> Reveals(js, nf)
  {
    if js != [] {
      var k := |js| - 1;
      NullifiersAre(js[..k], nf);
      RevealsPush(js[..k], js[k], nf);
      assert js[..k] + [js[k]] == js;
    }
  }

  /** No two joinsplit inputs of the list reveal the same nullifier. */
  ghost predicate DistinctReveals(js: seq<JoinSplit>) {
    forall nf, a: nat, b: nat, c: nat, d: nat | RevealsAt(js, a, b, nf) && RevealsAt(js, c, d, nf) :: a == c && b == d
  }

  lemma {:induction false} DistinctAre(js: seq<JoinSplit>)
    ensures DistinctHashes(JoinSplitNullifiers(js)) <==> DistinctReveals(js)
  {
    if js != [] {
      var k := |js| - 1;
      var front, own := js[..k], js[k].nullifiers;
      DistinctAre(front);
      assert js == front + [js[k]];
      DistinctParts(JoinSplitNullifiers(front), own);
      DistinctPush(front, js[k]);
    }
  }

  lemma DistinctParts(s: seq<Hash>, t: seq<Hash>)
    ensures DistinctHashes(s + t) <==> DistinctHashes(s) && DistinctHashes(t) && forall x | x in t :: x !in s
  {
    var all := s + t;
    if DistinctHashes(all) {
      forall i, j | 0 <= i < j < |s| ensures s[i] != s[j] {
        assert all[i] != all[j];
      }
      forall i, j | 0 <= i < j < |t| ensures t[i] != t[j] {
        assert all[|s| + i] != all[|s| + j];
      }
      forall x | x in t ensures x !in s {
        var j :| 0 <= j < |t| && t[j] == x;
        assert all[|s| + j] == x;
        forall i | 0 <= i < |s| ensures s[i] != x {
          assert all[i] != all[|s| + j];
        }
      }
    } else if DistinctHashes(s) && DistinctHashes(t) {
      var i, j :| 0 <= i < j < |all| && all[i] == all[j];
      assert i < |s| <= j;
      assert t[j - |s|] in t && s[i] in s;
    }
  }

  lemma DistinctPush(js: seq<JoinSplit>, j: JoinSplit)
    ensures DistinctReveals(js + [j]) <==>
            DistinctReveals(js) && DistinctHashes(j.nullifiers) && forall x | x in j.nullifiers :: x !in JoinSplitNullifiers(js)
  {
    var all := js + [j];
    forall nf, a: nat, b: nat ensures RevealsAt(all, a, b, nf) <==>
      RevealsAt(js, a, b, nf) || (a == |js| && b < |j.nullifiers| && j.nullifiers[b] == nf) {
    }
    forall nf ensures nf in JoinSplitNullifiers(js) <==> Reveals(js, nf) {
      NullifiersAre(js, nf);
    }
    if DistinctReveals(all) {
      forall nf, a: nat, b: nat, c: nat, d: nat | RevealsAt(js, a, b, nf) && RevealsAt(js, c, d, nf) ensures a == c && b == d {
        assert RevealsAt(all, a, b, nf) && RevealsAt(all, c, d, nf);
      }
      forall x | x in j.nullifiers ensures x !in JoinSplitNullifiers(js) {
        var b: nat :| b < |j.nullifiers| && j.nullifiers[b] == x;
        assert RevealsAt(all, |js|, b, x);
      }
      forall b: nat, d: nat | b < d < |j.nullifiers| ensures j.nullifiers[b] != j.nullifiers[d] {
        assert RevealsAt(all, |js|, b, j.nullifiers[b]);
        assert RevealsAt(all, |js|, d, j.nullifiers[d]);
      }
    } else if DistinctReveals(js) && DistinctHashes(j.nullifiers) {
      var nf, a: nat, b: nat, c: nat, d: nat :| RevealsAt(all, a, b, nf) && RevealsAt(all, c, d, nf) && !(a == c && b == d);
      assert nf in j.nullifiers;
      assert a < |js| ==> RevealsAt(js, a, b, nf);
      assert c < |js| ==> RevealsAt(js, c, d, nf);
      assert Reveals(js, nf);
    }
  }

  // ---------------------------------------------------------------- the rules of one transaction

  ghost predicate AllInRange(s: seq<int>) {
    forall i | 0 <= i < |s| :: MoneyRange(s[i])
  }

  lemma {:induction false} OutsInRange(vout: seq<TxOut>)
    ensures OutValuesOk(vout) <==> AllInRange(OutValues(vout)) && Sum(OutValues(vout)) <= MAX_MONEY
  {
    if vout != [] {
      var k := |vout| - 1;
      OutsInRange(vout[..k]);
      SumOutIs(vout);
      SumPush(OutValues(vout[..k]), vout[k].nValue);
      assert OutValues(vout) == OutValues(vout[..k]) + [vout[k].nValue];
      if AllInRange(OutValues(vout)) {
        SumNonNegative(OutValues(vout), k);
        assert AllInRange(OutValues(vout)[..k]);
      }
      assert AllInRange(OutValues(vout[..k])) && MoneyRange(vout[k].nValue) ==> AllInRange(OutValues(vout));
      if OutValuesOk(vout[..k]) {
        SumNonNegative(OutValues(vout[..k]), 0);
      }
    }
  }

  /** A joinsplit on its own: two nullifiers, amounts in range, and one of the amounts zero. */
  predicate JoinSplitOk(j: JoinSplit) {
    |j.nullifiers| == NUM_JS_INPUTS && MoneyRange(j.vpubOld) && MoneyRange(j.vpubNew) && (j.vpubOld == 0 || j.vpubNew == 0)
  }

  lemma {:induction false} JoinSplitsInRange(start: int, js: seq<JoinSplit>)
    requires start >= 0
    ensures JoinSplitsOk(start, js) && js != [] ==> start <= MAX_MONEY
    ensures js != [] ==>
              (JoinSplitsOk(start, js) <==>
               && (forall a | 0 <= a < |js| :: JoinSplitOk(js[a]))
               && start + Sum(OldValues(js)) <= MAX_MONEY && Sum(NewValues(js)) <= MAX_MONEY)
  {
    if js != [] {
      var k := |js| - 1;
      JoinSplitsInRange(start, js[..k]);
      SumOldIs(js);
      SumNewIs(js);
      SumPush(OldValues(js[..k]), js[k].vpubOld);
      SumPush(NewValues(js[..k]), js[k].vpubNew);
      assert OldValues(js) == OldValues(js[..k]) + [js[k].vpubOld];
      assert NewValues(js) == NewValues(js[..k]) + [js[k].vpubNew];
      if forall a | 0 <= a < |js| :: JoinSplitOk(js[a]) {
        SumNonNegative(OldValues(js), k);
        SumNonNegative(NewValues(js), k);
      }
      if JoinSplitsOk(start, js[..k]) && k > 0 {
        SumNonNegative(OldValues(js[..k]), 0);
        SumNonNegative(NewValues(js[..k]), 0);
      }
    }
  }

  /** The rules for one transaction, without running totals. */
  ghost predicate Lawful(tx: Tx) {
    && tx.nVersion >= MIN_TX_VERSION
    && (tx.vin != [] || tx.vjoinsplit != [])
    && (tx.vout != [] || tx.vjoinsplit != [])
    && AllInRange(OutValues(tx.vout))
    && (forall a | 0 <= a < |tx.vjoinsplit| :: JoinSplitOk(tx.vjoinsplit[a]))
    && Sum(OutValues(tx.vout)) + Sum(OldValues(tx.vjoinsplit)) <= MAX_MONEY
    && Sum(NewValues(tx.vjoinsplit)) <= MAX_MONEY
    && DistinctOutPoints(tx.vin)
    && DistinctReveals(tx.vjoinsplit)
    && (tx.IsCoinBase() ==> tx.vjoinsplit == [])
    && (!tx.IsCoinBase() ==> forall i | 0 <= i < |tx.vin| :: !tx.vin[i].IsNull())
  }

  /** The running totals of the checks refuse nothing but sums that are too large. */
  lemma CheckTxExactly(tx: Tx)
    ensures CheckTx(tx) <==> Lawful(tx)
  {
    hide OutValuesOk, JoinSplitsOk, DistinctReveals, DistinctHashes, JoinSplitNullifiers;
    OutsInRange(tx.vout);
    SumOutIs(tx.vout);
    DistinctAre(tx.vjoinsplit);
    var js := tx.vjoinsplit;
    if AllInRange(OutValues(tx.vout)) {
      SumNonNegative(OutValues(tx.vout), 0);
      JoinSplitsInRange(SumOut(tx.vout), js);
    }
    if forall a | 0 <= a < |js| :: JoinSplitOk(js[a]) {
      SumNonNegative(OldValues(js), 0);
    }
    if js == [] {
      assert JoinSplitsOk(SumOut(tx.vout), js) by { NoJoinSplits(SumOut(tx.vout)); }
    }
  }

  lemma NoJoinSplits(start: int)
    ensures JoinSplitsOk(start, [])
  {
  }
}
