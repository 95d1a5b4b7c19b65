/** Disconnecting a block is the exact inverse of connecting it. */
module UndoProofs {
  import opened Primitives
  import opened ChainSpec
  import MerkleRoot

  /** Every record is clean, has an unspent output, and comes from a block after genesis. */
  ghost predicate WellFormed(m: CoinMap) {
    forall t | t in m :: m[t].Clean() && m[t].vout != [] && m[t].nHeight >= 1
  }

  // ---------------------------------------------------------------- one input

  lemma SpendInner(c: Coin, n: nat)
    requires c.Clean() && c.IsAvailable(n) && n < |c.vout| - 1
    ensures Spend(c, n).vout == c.vout[n := NULL_OUT]
  {
    var v := c.vout[n := NULL_OUT];
    CleanupUnique(v, |v|);
    assert v[..|v|] == v;
  }

  /** A vector grown back with spent slots. */
  lemma GrowSpent(v: seq<TxOut>, w: seq<TxOut>)
    requires w <= v && forall i | |w| <= i < |v| :: v[i] == NULL_OUT
    ensures w + seq(|v| - |w|, _ => NULL_OUT) == v
  {
  }

  /** Restoring a spent output gives back the record it was taken from. */
  lemma RestoreSpent(c: Coin, n: nat)
    requires c.Clean() && c.IsAvailable(n)
    ensures Restore(Spend(c, n), n, c.vout[n]) == c
    ensures Spend(c, n).Clean()
  {
    var v := c.vout[n := NULL_OUT];
    assert v[n := c.vout[n]] == c.vout;
    CleanupUnique(c.vout, |c.vout|);
    assert c.vout[..|c.vout|] == c.vout;
    CleanupClean(c.(vout := v));
    if n < |c.vout| - 1 {
      SpendInner(c, n);
    } else {
      var w := Cleanup(v);
      assert v[n].IsNull();
      GrowSpent(v, w);
    }
  }

  lemma UndoSpend(m: CoinMap, o: OutPoint)
    requires WellFormed(m) && Available(m, o)
    ensures var (m', u) := SpendInput(m, o); WellFormed(m') && UndoInput(m', u, o) == Some(m)
  {
    var (m', u) := SpendInput(m, o);
    var c := m[o.hash];
    RestoreSpent(c, o.n);
    if Spend(c, o.n).vout == [] {
      assert Coin(u.fCoinBase, [], u.nHeight, u.nVersion) == Spend(c, o.n);
      assert m'[o.hash := c] == m;
    } else {
      assert m'[o.hash := c] == m;
    }
  }

  lemma {:induction false} UndoSpends(m: CoinMap, vin: seq<OutPoint>)
    requires WellFormed(m) && HaveInputs(m, vin) && DistinctOutPoints(vin)
    ensures var (m', us) := SpendInputs(m, vin); WellFormed(m') && UndoInputs(m', vin, us) == Some(m)
  {
    if vin != [] {
      var k := |vin| - 1;
      UndoSpends(m, vin[..k]);
      var (m1, us) := SpendInputs(m, vin[..k]);
      UndoSpend(m1, vin[k]);
      var (m2, all) := SpendInputs(m, vin);
      assert all[..k] == us;
    }
  }

  // ---------------------------------------------------------------- one transaction

  lemma {:induction false} OutValueNotNull(vout: seq<TxOut>, i: nat)
    requires OutValuesOk(vout) && i < |vout|
    ensures MoneyRange(vout[i].nValue)
  {
    if i < |vout| - 1 {
      OutValueNotNull(vout[..|vout| - 1], i);
    }
  }

  /** The record a checked transaction creates is clean and survives a second clearing pass. */
  lemma FromTxStable(tx: Tx, h: int)
    requires OutValuesOk(tx.vout)
    ensures FromTx(tx, h).Clean()
    ensures ClearUnspendable(FromTx(tx, h).vout) == FromTx(tx, h).vout
  {
    forall i | 0 <= i < |tx.vout| ensures MoneyRange(tx.vout[i].nValue) {
      OutValueNotNull(tx.vout, i);
    }
    var v := FromTx(tx, h).vout;
    assert NullUnspendable(v) == v;
    CleanupUnique(v, |v|);
    assert v[..|v|] == v;
  }

  /** Adding a transaction's outputs where there were none is recognised and removed exactly. */
  lemma OutputsRecognised(m: CoinMap, tx: Tx, h: int)
    requires OutValuesOk(tx.vout) && tx.nVersion >= 0 && tx.txid !in m
    ensures var m' := SetCoin(m, tx.txid, FromTx(tx, h));
            OutputsMatch(CoinAt(m', tx.txid), tx, h) && m' - {tx.txid} == m
  {
    FromTxStable(tx, h);
    CleanPruned(FromTx(tx, h));
  }

  lemma OutputsWellFormed(m: CoinMap, tx: Tx, h: int)
    requires WellFormed(m) && OutValuesOk(tx.vout) && h >= 1
    ensures WellFormed(SetCoin(m, tx.txid, FromTx(tx, h)))
  {
    FromTxStable(tx, h);
  }

  /** The ledger between spending the inputs and adding the outputs. */
  ghost function Spent(m: CoinMap, tx: Tx): (CoinMap, TxUndo)
    requires CheckTx(tx)
    requires !tx.IsCoinBase() ==> HaveInputs(m, tx.vin)
  {
    if tx.IsCoinBase() then (m, []) else SpendInputs(m, tx.vin)
  }

  lemma UndoApply(l: Ledger, tx: Tx, h: int)
    requires CheckTx(tx) && WellFormed(l.coins) && h >= 1
    requires !tx.IsCoinBase() ==> HaveInputs(l.coins, tx.vin)
    requires tx.txid !in l.coins && Nullifiers(tx) !! l.nulls
    ensures var (l', undo) := ApplyTx(l, tx, h);
            WellFormed(l'.coins) && UndoTx(l', tx, !tx.IsCoinBase(), undo, h) == Some(l)
  {
    var m := Spent(l.coins, tx).0;
    assert tx.txid !in m;
    if !tx.IsCoinBase() {
      UndoSpends(l.coins, tx.vin);
    }
    OutputsRecognised(m, tx, h);
    OutputsWellFormed(m, tx, h);
    assert (l.nulls + Nullifiers(tx)) - Nullifiers(tx) == l.nulls;
  }

  /** Applying a transaction adds no record but its own, and that one only with spendable outputs. */
  lemma ApplyKeys(l: Ledger, tx: Tx, h: int, t: Hash)
    requires CheckTx(tx)
    requires !tx.IsCoinBase() ==> HaveInputs(l.coins, tx.vin)
    requires t in ApplyTx(l, tx, h).0.coins && t !in l.coins
    ensures t == tx.txid && FromTx(tx, h).vout != []
  {
    var m := Spent(l.coins, tx).0;
    assert t !in m;
  }

  // ---------------------------------------------------------------- the transactions of a block

  ghost predicate Connects(p: Params, l: Ledger, txs: seq<Tx>, h: int) {
    AllCheckTx(txs) && ConnectTxs(p, l, txs, h).Some?
  }

  /** The ledger before transaction k of a connecting list. */
  ghost function Before(p: Params, l: Ledger, txs: seq<Tx>, h: int, k: nat): Ledger
    requires Connects(p, l, txs, h) && k <= |txs|
  {
    PrefixConnects(p, l, txs, h, k);
    ConnectTxs(p, l, txs[..k], h).value.ledger
  }

  lemma {:induction false} PrefixConnects(p: Params, l: Ledger, txs: seq<Tx>, h: int, k: nat)
    requires Connects(p, l, txs, h) && k <= |txs|
    ensures Connects(p, l, txs[..k], h)
  {
    if k == |txs| {
      assert txs[..k] == txs;
    } else {
      var last := |txs| - 1;
      PrefixConnects(p, l, txs[..last], h, k);
      assert txs[..last][..k] == txs[..k];
    }
  }

  /** One step: transaction k takes the ledger before it to the ledger after it. */
  lemma StepConnects(p: Params, l: Ledger, txs: seq<Tx>, h: int, k: nat)
    requires Connects(p, l, txs, h) && k < |txs|
    ensures ConnectTx(p, Before(p, l, txs, h, k), txs[k], h).Some?
    ensures ConnectTx(p, Before(p, l, txs, h, k), txs[k], h).value.ledger == Before(p, l, txs, h, k + 1)
  {
    PrefixConnects(p, l, txs, h, k + 1);
    PrefixConnects(p, l, txs, h, k);
    assert txs[..k + 1][..k] == txs[..k];
  }

  lemma BeforeFirst(p: Params, l: Ledger, txs: seq<Tx>, h: int)
    requires Connects(p, l, txs, h)
    ensures Before(p, l, txs, h, 0) == l
  {
    assert txs[..0] == [];
  }

  /** The only record a step can add is that of its own transaction. */
  lemma StepAdds(p: Params, l: Ledger, txs: seq<Tx>, h: int, k: nat, t: Hash)
    requires Connects(p, l, txs, h) && k < |txs|
    requires t in Before(p, l, txs, h, k + 1).coins && t !in Before(p, l, txs, h, k).coins
    ensures txs[k].txid == t && FromTx(txs[k], h).vout != []
  {
    StepConnects(p, l, txs, h, k);
    ApplyKeys(Before(p, l, txs, h, k), txs[k], h, t);
  }

  /** A record present during the block was there before it or was written by a transaction
      of the block that has spendable outputs. */
  lemma {:induction false} RecordOrigin(p: Params, l: Ledger, txs: seq<Tx>, h: int, k: nat, t: Hash)
    requires Connects(p, l, txs, h) && k <= |txs|
    requires t in Before(p, l, txs, h, k).coins
    ensures t in l.coins || exists i :: 0 <= i < k && txs[i].txid == t && FromTx(txs[i], h).vout != []
  {
    hide Before, Connects, FromTx;
    if k == 0 {
      BeforeFirst(p, l, txs, h);
    } else {
      if t in Before(p, l, txs, h, k - 1).coins {
        RecordOrigin(p, l, txs, h, k - 1, t);
      } else {
        StepAdds(p, l, txs, h, k - 1, t);
      }
    }
  }

  /** No two transactions of the block share an id unless the earlier one leaves nothing to spend. */
  ghost predicate LiveDistinct(txs: seq<Tx>, h: int) {
    forall i, j | 0 <= i < j < |txs| && txs[i].txid == txs[j].txid :: FromTx(txs[i], h).vout == []
  }

  lemma FreshWhenReached(p: Params, l: Ledger, txs: seq<Tx>, h: int, k: nat)
    requires Connects(p, l, txs, h) && k < |txs|
    requires NoOverwrite(l, txs) && LiveDistinct(txs, h)
    ensures txs[k].txid !in Before(p, l, txs, h, k).coins
  {
    if txs[k].txid in Before(p, l, txs, h, k).coins {
      RecordOrigin(p, l, txs, h, k, txs[k].txid);
      assert false;
    }
  }

  ghost predicate CoinBaseShape(txs: seq<Tx>, nonCoinBase: nat) {
    forall i | 0 <= i < |txs| :: txs[i].IsCoinBase() <==> i <= nonCoinBase
  }

  /** Undoing a connecting list of transactions gives back the ledger it started from. */
  lemma {:induction false} UndoConnectTxs(p: Params, l: Ledger, txs: seq<Tx>, h: int, nonCoinBase: nat)
    requires Connects(p, l, txs, h) && h >= 1 && WellFormed(l.coins)
    requires NoOverwrite(l, txs) && LiveDistinct(txs, h) && CoinBaseShape(txs, nonCoinBase)
    ensures var r := ConnectTxs(p, l, txs, h).value;
            WellFormed(r.ledger.coins) && UndoTxs(r.ledger, txs, r.undos, nonCoinBase, h) == Some(l)
  {
    if txs != [] {
      var k := |txs| - 1;
      PrefixConnects(p, l, txs, h, k);
      UndoConnectTxs(p, l, txs[..k], h, nonCoinBase);
      FreshWhenReached(p, l, txs, h, k);
      UndoLastTx(p, l, txs, h, nonCoinBase);
    }
  }

  lemma UndoLastTx(p: Params, l: Ledger, txs: seq<Tx>, h: int, nonCoinBase: nat)
    requires Connects(p, l, txs, h) && h >= 1 && txs != [] && CoinBaseShape(txs, nonCoinBase)
    requires var k := |txs| - 1; var before := Before(p, l, txs, h, k);
             WellFormed(before.coins) && txs[k].txid !in before.coins
    ensures var k := |txs| - 1;
            var r := ConnectTxs(p, l, txs, h).value;
            var before := ConnectTxs(p, l, txs[..k], h).value;
            && WellFormed(r.ledger.coins) && r.undos[..k] == before.undos
            && UndoTx(r.ledger, txs[k], k > nonCoinBase, r.undos[k], h) == Some(before.ledger)
  {
    var k := |txs| - 1;
    var before := Before(p, l, txs, h, k);
    CheckedNullifiers(p, before, txs[k], h);
    UndoApply(before, txs[k], h);
  }

  /** A connecting transaction reveals only new nullifiers. */
  lemma CheckedNullifiers(p: Params, l: Ledger, tx: Tx, h: int)
    requires CheckTx(tx) && ConnectTx(p, l, tx, h).Some?
    ensures Nullifiers(tx) !! l.nulls
  {
  }

  // ---------------------------------------------------------------- ids inside a block

  /** The id function does not collide on the transactions of the block. */
  predicate CollisionFree(txs: seq<Tx>) {
    forall i, j | 0 <= i < j < |txs| && txs[i].txid == txs[j].txid :: txs[i] == txs[j]
  }

  ghost predicate DistinctIds(txs: seq<Tx>, k: nat)
    requires k <= |txs|
  {
    forall i, j | 0 <= i < j < k :: txs[i].txid != txs[j].txid
  }

  /** An output of another transaction that is available after a step was available before it and not spent by it. */
  lemma StepSpends(p: Params, l: Ledger, txs: seq<Tx>, h: int, k: nat, o: OutPoint)
    requires Connects(p, l, txs, h) && k < |txs| && txs[k].txid != o.hash
    requires Available(Before(p, l, txs, h, k + 1).coins, o)
    ensures Available(Before(p, l, txs, h, k).coins, o)
    ensures txs[k].IsCoinBase() || o !in txs[k].vin
  {
    StepConnects(p, l, txs, h, k);
    var m := Spent(Before(p, l, txs, h, k).coins, txs[k]).0;
    assert Available(m, o);
  }

  /** An output spent at step i stays spent as long as its transaction is not added again. */
  lemma {:induction false} StaysSpent(p: Params, l: Ledger, txs: seq<Tx>, h: int, i: nat, k: nat, o: OutPoint)
    requires Connects(p, l, txs, h) && i < k <= |txs|
    requires !txs[i].IsCoinBase() && o in txs[i].vin
    requires forall m | i <= m < k :: txs[m].txid != o.hash
    ensures !Available(Before(p, l, txs, h, k).coins, o)
  {
    hide Before, Connects, Available;
    if Available(Before(p, l, txs, h, k).coins, o) {
      StepSpends(p, l, txs, h, k - 1, o);
      if i < k - 1 {
        StaysSpent(p, l, txs, h, i, k - 1, o);
      }
      assert false;
    }
  }

  lemma {:induction false} NullifiersStay(p: Params, l: Ledger, txs: seq<Tx>, h: int, i: nat, k: nat)
    requires Connects(p, l, txs, h) && i < k <= |txs|
    ensures Nullifiers(txs[i]) <= Before(p, l, txs, h, k).nulls
  {
    StepConnects(p, l, txs, h, k - 1);
    if i < k - 1 {
      NullifiersStay(p, l, txs, h, i, k - 1);
    }
  }

  lemma HasNullifier(tx: Tx) returns (nf: Hash)
    requires CheckTx(tx) && tx.vjoinsplit != []
    ensures nf in Nullifiers(tx)
  {
    var all := JoinSplitNullifiers(tx.vjoinsplit);
    assert |all| >= NUM_JS_INPUTS;
    nf := all[0];
  }

  /** The record an input refers to is not that of any transaction from the spender's position on. */
  lemma InputRecordIsOlder(p: Params, l: Ledger, txs: seq<Tx>, h: int, i: nat, k: nat, o: OutPoint)
    requires Connects(p, l, txs, h) && NoOverwrite(l, txs) && i < k <= |txs| && DistinctIds(txs, k)
    requires Available(Before(p, l, txs, h, i).coins, o)
    ensures forall m | i <= m < k :: txs[m].txid != o.hash
  {
    RecordOrigin(p, l, txs, h, i, o.hash);
  }

  /** A transaction cannot be connected twice: its inputs or its nullifiers are gone. */
  lemma NotConnectedTwice(p: Params, l: Ledger, txs: seq<Tx>, h: int, i: nat, k: nat)
    requires Connects(p, l, txs, h) && NoOverwrite(l, txs)
    requires i < k < |txs| && DistinctIds(txs, k) && !txs[k].IsCoinBase()
    ensures txs[i] != txs[k]
  {
    if txs[i] == txs[k] {
      var tx := txs[k];
      StepConnects(p, l, txs, h, i);
      StepConnects(p, l, txs, h, k);
      if tx.vin != [] {
        var o := tx.vin[0];
        assert o in tx.vin;
        InputRecordIsOlder(p, l, txs, h, i, k, o);
        StaysSpent(p, l, txs, h, i, k, o);
      } else {
        var nf := HasNullifier(tx);
        NullifiersStay(p, l, txs, h, i, k);
      }
      assert false;
    }
  }

  /** Connecting a block with one coinbase already rules out repeated ids, if ids do not collide. */
  lemma {:induction false} ConnectedIdsDistinct(p: Params, l: Ledger, txs: seq<Tx>, h: int, k: nat)
    requires Connects(p, l, txs, h) && NoOverwrite(l, txs) && CollisionFree(txs) && k <= |txs|
    requires forall i | 1 <= i < |txs| :: !txs[i].IsCoinBase()
    ensures DistinctIds(txs, k)
  {
    hide Connects, NoOverwrite;
    if k > 0 {
      ConnectedIdsDistinct(p, l, txs, h, k - 1);
      forall i | 0 <= i < k - 1 ensures txs[i].txid != txs[k - 1].txid {
        NotConnectedTwice(p, l, txs, h, i, k - 1);
      }
    }
  }

  // ---------------------------------------------------------------- blocks

  lemma LiveDistinctUndo(p: Params, l: Ledger, block: Block, h: nat)
    requires SubsidyParams(p) && h >= 1 && WellFormed(l.coins)
    requires ConnectBlock(p, l, block, h).Some? && LiveDistinct(block.vtx, h)
    ensures var r := ConnectBlock(p, l, block, h).value;
            WellFormed(r.ledger.coins) && DisconnectBlock(p, r.ledger, block, r.undo, h) == Some(l)
  {
    hide UndoTxs, ConnectTxs, FromTx, CheckTx;
    var txs := block.vtx;
    var r := ConnectTxs(p, l, txs, h).value;
    UndoConnectTxs(p, l, txs, h, LastCoinBase(p, h));
    CoinBaseUndoEmpty(p, l, txs, h);
    assert [[]] + r.undos[1..] == r.undos;
    var c := ConnectBlock(p, l, block, h).value;
    UndoTxsIgnoresAnchor(r.ledger, c.ledger.anchor, txs, r.undos, LastCoinBase(p, h), h);
  }

  lemma {:induction false} CoinBaseUndoEmpty(p: Params, l: Ledger, txs: seq<Tx>, h: int)
    requires Connects(p, l, txs, h) && txs != [] && txs[0].IsCoinBase()
    ensures ConnectTxs(p, l, txs, h).value.undos[0] == []
  {
    if |txs| > 1 {
      PrefixConnects(p, l, txs, h, |txs| - 1);
      CoinBaseUndoEmpty(p, l, txs[..|txs| - 1], h);
    }
  }

  lemma {:induction false} UndoTxsIgnoresAnchor(l: Ledger, a: Hash, txs: seq<Tx>, undos: seq<TxUndo>, nonCoinBase: nat, h: int)
    requires |undos| == |txs|
    ensures var x := UndoTxs(l, txs, undos, nonCoinBase, h);
            var y := UndoTxs(l.(anchor := a), txs, undos, nonCoinBase, h);
            if x.Some? then y == Some(x.value.(anchor := a)) else y.None?
    decreases |txs|
  {
    if txs != [] {
      var k := |txs| - 1;
      var last := UndoTx(l, txs[k], k > nonCoinBase, undos[k], h);
      if last.Some? {
        UndoTxsIgnoresAnchor(last.value, a, txs[..k], undos[..k], nonCoinBase, h);
      }
    }
  }

  /** Outside the fork range, disconnecting a connected block restores every coin, nullifier and
      the best anchor, and reports a clean undo. */
  lemma DisconnectInvertsConnect(p: Params, l: Ledger, block: Block, h: nat)
    requires SubsidyParams(p) && h >= 1 && WellFormed(l.coins) && !p.IsForkBlock(h)
    requires CollisionFree(block.vtx)
    requires ConnectBlock(p, l, block, h).Some?
    ensures var r := ConnectBlock(p, l, block, h).value;
            WellFormed(r.ledger.coins) && DisconnectBlock(p, r.ledger, block, r.undo, h) == Some(l)
  {
    ConnectedIdsDistinct(p, l, block.vtx, h, |block.vtx|);
    LiveDistinctUndo(p, l, block, h);
  }

  // ---------------------------------------------------------------- fork blocks

  lemma LiveRecordMissing(l: Ledger, tx: Tx, undo: TxUndo, h: int)
    requires tx.txid !in l.coins && FromTx(tx, h).vout != []
    ensures UndoTx(l, tx, false, undo, h).None?
  {
    var v := FromTx(tx, h).vout;
    assert !v[|v| - 1].IsNull();
  }

  /** Undoing a coinbase only takes its record away. */
  lemma UndoCoinBase(l: Ledger, tx: Tx, undo: TxUndo, h: int)
    ensures var r := UndoTx(l, tx, false, undo, h); r.Some? ==> r.value.coins == l.coins - {tx.txid}
  {
  }

  /** A live coinbase whose record is already gone stops the undo. */
  lemma {:induction false} MissingRecordStopsUndo(l: Ledger, txs: seq<Tx>, undos: seq<TxUndo>, nonCoinBase: nat, h: int, i: nat)
    requires |undos| == |txs| <= nonCoinBase + 1
    requires i < |txs| && txs[i].txid !in l.coins && FromTx(txs[i], h).vout != []
    ensures UndoTxs(l, txs, undos, nonCoinBase, h).None?
    decreases |txs|
  {
    hide UndoTx, FromTx;
    var k := |txs| - 1;
    var last := UndoTx(l, txs[k], false, undos[k], h);
    if i == k {
      LiveRecordMissing(l, txs[k], undos[k], h);
    } else if last.Some? {
      UndoCoinBase(l, txs[k], undos[k], h);
      MissingRecordStopsUndo(last.value, txs[..k], undos[..k], nonCoinBase, h, i);
    }
  }

  lemma {:induction false} RepeatStopsUndo(l: Ledger, txs: seq<Tx>, undos: seq<TxUndo>, nonCoinBase: nat, h: int, i: nat, j: nat)
    requires |undos| == |txs| <= nonCoinBase + 1
    requires i < j < |txs| && txs[i].txid == txs[j].txid && FromTx(txs[i], h).vout != []
    ensures UndoTxs(l, txs, undos, nonCoinBase, h).None?
    decreases |txs|
  {
    hide UndoTx, FromTx;
    var k := |txs| - 1;
    var last := UndoTx(l, txs[k], false, undos[k], h);
    if last.Some? {
      if j == k {
        UndoCoinBase(l, txs[k], undos[k], h);
        MissingRecordStopsUndo(last.value, txs[..k], undos[..k], nonCoinBase, h, i);
      } else {
        assert txs[..k][i].txid == txs[..k][j].txid;
        RepeatStopsUndo(last.value, txs[..k], undos[..k], nonCoinBase, h, i, j);
      }
      assert UndoTxs(last.value, txs[..k], undos[..k], nonCoinBase, h).None?;
    }
  }

  /** In the fork range every transaction is a coinbase and ids may repeat. The undo is clean, and
      exact, precisely when no repeated id belongs to a transaction with spendable outputs. */
  lemma ForkDisconnectExact(p: Params, l: Ledger, block: Block, h: nat)
    requires SubsidyParams(p) && h >= 1 && WellFormed(l.coins) && p.IsForkBlock(h)
    requires ConnectBlock(p, l, block, h).Some?
    ensures var r := ConnectBlock(p, l, block, h).value;
            DisconnectBlock(p, r.ledger, block, r.undo, h) == if LiveDistinct(block.vtx, h) then Some(l) else None
  {
    hide FromTx, UndoTxs, ConnectTxs;
    var r := ConnectBlock(p, l, block, h).value;
    if LiveDistinct(block.vtx, h) {
      LiveDistinctUndo(p, l, block, h);
    } else {
      var i, j :| 0 <= i < j < |block.vtx| && block.vtx[i].txid == block.vtx[j].txid && FromTx(block.vtx[i], h).vout != [];
      RepeatStopsUndo(r.ledger, block.vtx, [[]] + r.undo.vtxundo, LastCoinBase(p, h), h, i, j);
    }
  }

  /** A list of three ids is not flagged as repeating its end if the two hashes above differ. */
  lemma ThreeUnflagged(combine: (Hash, Hash) -> Hash, ids: seq<Hash>)
    requires |ids| == 3 && combine(ids[0], ids[1]) != combine(ids[2], ids[2])
    ensures !MerkleRoot.Mutated(combine, ids)
  {
    var up := MerkleRoot.Above(combine, ids);
    assert |up| == 2 && up[0] != up[1];
    assert !MerkleRoot.TwinEnd(up) && !MerkleRoot.TwinEnd(ids);
    assert |MerkleRoot.Above(combine, up)| == 1;
    assert !MerkleRoot.Mutated(combine, up);
  }

  /** Coinbases connect whatever came before. */
  lemma {:induction false} CoinBasesConnect(p: Params, l: Ledger, txs: seq<Tx>, h: int)
    requires AllCheckTx(txs) && forall i | 0 <= i < |txs| :: txs[i].IsCoinBase()
    ensures ConnectTxs(p, l, txs, h).Some?
    decreases |txs|
  {
    if txs != [] {
      CoinBasesConnect(p, l, txs[..|txs| - 1], h);
    }
  }

  /** The smallest coinbase with an output. */
  function SmallCoinBase(id: Hash): Tx {
    Tx(id, 1, [OutPoint(NULL_HASH, NULL_INDEX)], [TxOut(7, [])], [])
  }

  lemma SmallCoinBaseOk(id: Hash, h: int)
    ensures CheckTx(SmallCoinBase(id)) && SmallCoinBase(id).IsCoinBase() && FromTx(SmallCoinBase(id), h).vout != []
  {
    var tx := SmallCoinBase(id);
    assert tx.vout[..0] == [];
    assert OutValuesOk(tx.vout[..0]);
    assert SumOut(tx.vout[..0]) == 0;
    assert NullUnspendable([]) == [];
    assert NullUnspendable(tx.vout) == tx.vout;
  }

  /** A fork block that connects and cannot be disconnected: the same coinbase twice, then another. */
  lemma ForkRepeatNotUndone() returns (p: Params, block: Block)
    ensures SubsidyParams(p) && p.IsForkBlock(1)
    ensures CheckBlock(p, block, 1) && ConnectBlock(p, Genesis(p), block, 1).Some?
    ensures var r := ConnectBlock(p, Genesis(p), block, 1).value;
            DisconnectBlock(p, r.ledger, block, r.undo, 1).None?
  {
    hide SmallCoinBase, CheckTx, FromTx, ConnectTxs, DisconnectBlock, MerkleRoot.Mutated;
    p := Params(100, false, 0, 10, 5, 0, 0, 0, 840000, 1, 2, (r, c) => r, (a, b) => a + 2 * b);
    var tx, other := SmallCoinBase(9), SmallCoinBase(10);
    assert tx.txid == 9 && other.txid == 10 by {
      SmallIds();
    }
    SmallCoinBaseOk(9, 1);
    SmallCoinBaseOk(10, 1);
    block := Block(3, [tx, tx, other]);
    ThreeUnflagged(p.combine, TxIds(block.vtx));
    assert CheckBlock(p, block, 1);
    CoinBasesConnect(p, Genesis(p), block.vtx, 1);
    assert block.vtx[0].txid == block.vtx[1].txid;
    ForkDisconnectExact(p, Genesis(p), block, 1);
  }

  lemma SmallIds()
    ensures forall id :: SmallCoinBase(id).txid == id
  {
  }
}
