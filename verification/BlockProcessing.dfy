/** Connecting and disconnecting blocks on a stack of caches, proved against the flat ledger.
    Script, signature, proof, size and anchor checks are inputs: `external`. */
module BlockProcessing {
  import opened Primitives
  import opened ChainSpec
  import opened UndoProofs
  import opened CacheLayer
  import opened CoinsViews
  import opened Values

  ghost predicate Ready(view: CoinsViewCache)
    reads view.Repr
  {
    view.Valid() && !view.hasModifier
  }

  ghost function LedgerOf(view: CoinsViewCache): Ledger
    requires view.Valid()
    reads view.Repr
  {
    view.View().ledger
  }

  /** The block pointers of a view and everything its base shows. */
  ghost function Pointers(view: CoinsViewCache): (Hash, Hash, ViewState)
    requires view.Valid()
    reads view.Repr
  {
    (view.hashBlock, view.hashAnchor, view.base.View())
  }

  // ---------------------------------------------------------------- UpdateCoins

  /** CCoins::Spend. */
  method SpendOutput(c: Coin, n: nat) returns (ok: bool, d: Coin)
    ensures ok == c.IsAvailable(n)
    ensures d == if ok then Spend(c, n) else c
  {
    if n >= |c.vout| || c.vout[n].IsNull() {
      return false, c;
    }
    var vout := CleanupVout(c.vout[n := NULL_OUT]);
    return true, c.(vout := vout);
  }

  /** One input of UpdateCoins; its `assert(false)` is unreachable. */
  method SpendInView(view: CoinsViewCache, o: OutPoint) returns (undo: TxInUndo)
    requires Ready(view) && Available(LedgerOf(view).coins, o)
    modifies view.Repr
    ensures Ready(view) && Pointers(view) == old(Pointers(view))
    ensures (LedgerOf(view).coins, undo) == SpendInput(old(LedgerOf(view).coins), o)
    ensures LedgerOf(view) == old(LedgerOf(view)).(coins := LedgerOf(view).coins)
  {
    hide LayerOk, Through, NullifiersOk, NullifiersThrough, CoinsOk;
    var c := view.BeginModify(o.hash);
    assert c.IsAvailable(o.n);
    undo := TxInUndo(c.vout[o.n], false, 0, 0);
    var ok, d := SpendOutput(c, o.n);
    if |d.vout| == 0 {
      undo := undo.(nHeight := d.nHeight, fCoinBase := d.fCoinBase, nVersion := d.nVersion);
    }
    SpendKeepsClean(c, o.n);
    view.EndModify(d);
  }

  lemma SpendKeepsClean(c: Coin, n: nat)
    requires c.Clean() && c.IsAvailable(n)
    ensures Spend(c, n).Clean() && Cleanup(Spend(c, n).vout) == Spend(c, n).vout
  {
    RestoreSpent(c, n);
    var w := Spend(c, n).vout;
    CleanupUnique(w, |w|);
    assert w[..|w|] == w;
  }

  method SpendInputsInView(view: CoinsViewCache, vin: seq<OutPoint>) returns (undo: TxUndo)
    requires Ready(view) && HaveInputs(LedgerOf(view).coins, vin) && DistinctOutPoints(vin)
    modifies view.Repr
    ensures Ready(view) && Pointers(view) == old(Pointers(view))
    ensures (LedgerOf(view).coins, undo) == SpendInputs(old(LedgerOf(view).coins), vin)
    ensures LedgerOf(view) == old(LedgerOf(view)).(coins := LedgerOf(view).coins)
  {
    hide LayerOk, Through, NullifiersOk, NullifiersThrough, CoinsOk, CoinsViewCache.View, Available, SpendInput, Pointers;
    ghost var m := LedgerOf(view).coins;
    undo := [];
    for i := 0 to |vin|
      invariant Ready(view) && Pointers(view) == old(Pointers(view))
      invariant HaveInputs(m, vin[..i]) && DistinctOutPoints(vin[..i])
      invariant (LedgerOf(view).coins, undo) == SpendInputs(m, vin[..i])
      invariant LedgerOf(view) == old(LedgerOf(view)).(coins := LedgerOf(view).coins)
    {
      assert vin[..i + 1][..i] == vin[..i];
      assert Available(m, vin[i]) && vin[i] !in vin[..i];
      var u := SpendInView(view, vin[i]);
      undo := undo + [u];
    }
    assert vin[..|vin|] == vin;
  }

  /** Marks every nullifier of every joinsplit spent, or unspent, and no other. */
  method MarkNullifiers(view: CoinsViewCache, js: seq<JoinSplit>, spent: bool)
    requires Ready(view)
    modifies view
    ensures Ready(view) && Pointers(view) == old(Pointers(view))
    ensures LedgerOf(view) == old(LedgerOf(view)).(nulls := LedgerOf(view).nulls)
    ensures forall nf :: nf in LedgerOf(view).nulls <==> if Reveals(js, nf) then spent else nf in old(LedgerOf(view).nulls)
    ensures var was := old(LedgerOf(view));
            var all := set nf | nf in JoinSplitNullifiers(js);
            LedgerOf(view) == was.(nulls := if spent then was.nulls + all else was.nulls - all)
  {
    hide LayerOk, Through, NullifiersOk, NullifiersThrough, CoinsOk, CoinsViewCache.View, Pointers, Reveals;
    ghost var was := LedgerOf(view);
    for i := 0 to |js|
      invariant Ready(view) && Pointers(view) == old(Pointers(view))
      invariant var all := set nf | nf in JoinSplitNullifiers(js[..i]);
                LedgerOf(view) == was.(nulls := if spent then was.nulls + all else was.nulls - all)
    {
      MarkAll(view, js[i].nullifiers, spent);
      assert js[..i + 1][..i] == js[..i];
    }
    assert js[..|js|] == js;
    forall nf ensures nf in JoinSplitNullifiers(js) <==> Reveals(js, nf) {
      NullifiersAre(js, nf);
    }
  }

  method MarkAll(view: CoinsViewCache, nfs: seq<Hash>, spent: bool)
    requires Ready(view)
    modifies view
    ensures Ready(view) && Pointers(view) == old(Pointers(view))
    ensures var was := old(LedgerOf(view));
            var all := set nf | nf in nfs;
            LedgerOf(view) == was.(nulls := if spent then was.nulls + all else was.nulls - all)
  {
    hide LayerOk, Through, NullifiersOk, NullifiersThrough, CoinsOk;
    ghost var was := LedgerOf(view);
    for i := 0 to |nfs|
      invariant Ready(view) && Pointers(view) == old(Pointers(view))
      invariant var all := set nf | nf in nfs[..i];
                LedgerOf(view) == was.(nulls := if spent then was.nulls + all else was.nulls - all)
    {
      view.SetNullifier(nfs[i], spent);
      assert forall nf :: nf in nfs[..i + 1] <==> nf in nfs[..i] || nf == nfs[i];
    }
    assert nfs[..|nfs|] == nfs;
  }

  /** Replaces the whole record of a transaction. */
  method WriteRecord(view: CoinsViewCache, t: Hash, c: Coin)
    requires Ready(view) && c.Clean()
    modifies view.Repr
    ensures Ready(view) && Pointers(view) == old(Pointers(view))
    ensures LedgerOf(view) == old(LedgerOf(view)).(coins := SetCoin(old(LedgerOf(view).coins), t, c))
  {
    hide LayerOk, Through, NullifiersOk, NullifiersThrough, CoinsOk, SetCoin;
    CleanupUnique(c.vout, |c.vout|);
    assert c.vout[..|c.vout|] == c.vout;
    var _ := view.BeginModify(t);
    view.EndModify(c);
  }

  /** UpdateCoins: the view and the undo record after one transaction. */
  method UpdateCoins(view: CoinsViewCache, tx: Tx, h: int) returns (undo: TxUndo)
    requires Ready(view) && CheckTx(tx)
    requires !tx.IsCoinBase() ==> HaveInputs(LedgerOf(view).coins, tx.vin)
    modifies view.Repr
    ensures Ready(view) && Pointers(view) == old(Pointers(view))
    ensures (LedgerOf(view), undo) == ApplyTx(old(LedgerOf(view)), tx, h)
    ensures forall nf :: nf in LedgerOf(view).nulls <==> nf in old(LedgerOf(view).nulls) || Reveals(tx.vjoinsplit, nf)
  {
    hide LayerOk, Through, NullifiersOk, NullifiersThrough, CoinsOk, SetCoin, Reveals, CoinsViewCache.View, SpendInputs,
         HaveInputs, FromTx, Pointers;
    undo := [];
    if !tx.IsCoinBase() {
      undo := SpendInputsInView(view, tx.vin);
    }
    MarkNullifiers(view, tx.vjoinsplit, true);
    FromTxStable(tx, h);
    WriteRecord(view, tx.txid, FromTx(tx, h));
  }

  // ---------------------------------------------------------------- undoing

  ghost predicate UndoOutOk(undo: TxInUndo) {
    undo.txout.IsNull() ==> undo.txout == NULL_OUT
  }

  method GrowVout(vout: seq<TxOut>, n: nat, txout: TxOut) returns (r: seq<TxOut>)
    ensures r == (if |vout| < n + 1 then vout + seq(n + 1 - |vout|, _ => NULL_OUT) else vout)[n := txout]
    ensures (forall i | 0 <= i < |vout| :: vout[i].IsNull() ==> vout[i] == NULL_OUT) &&
            (txout.IsNull() ==> txout == NULL_OUT) ==>
            forall i | 0 <= i < |r| :: r[i].IsNull() ==> r[i] == NULL_OUT
  {
    r := if |vout| < n + 1 then vout + seq(n + 1 - |vout|, _ => NULL_OUT) else vout;
    r := r[n := txout];
  }

  /** ApplyTxInUndo: clean exactly when the flat undo succeeds, and then with the same result. */
  method ApplyTxInUndo(view: CoinsViewCache, undo: TxInUndo, o: OutPoint) returns (clean: bool)
    requires Ready(view) && UndoOutOk(undo)
    modifies view.Repr
    ensures Ready(view) && Pointers(view) == old(Pointers(view))
    ensures clean <==> UndoInput(old(LedgerOf(view).coins), undo, o).Some?
    ensures clean ==> LedgerOf(view).coins == UndoInput(old(LedgerOf(view).coins), undo, o).value
    ensures LedgerOf(view) == old(LedgerOf(view)).(coins := LedgerOf(view).coins)
  {
    hide LayerOk, Through, NullifiersOk, NullifiersThrough, CoinsOk, SetCoin, Cleanup;
    clean := true;
    var c := view.BeginModify(o.hash);
    CleanPruned(c);
    if undo.nHeight != 0 {
      if !c.IsPruned() {
        clean := false;
      }
      c := Coin(undo.fCoinBase, [], undo.nHeight, undo.nVersion);
    } else {
      if c.IsPruned() {
        clean := false;
      }
    }
    if c.IsAvailable(o.n) {
      clean := false;
    }
    var vout := GrowVout(c.vout, o.n, undo.txout);
    view.EndModify(c.(vout := vout));
  }

  method UndoInputsInView(view: CoinsViewCache, vin: seq<OutPoint>, undos: TxUndo) returns (clean: bool)
    requires Ready(view) && |undos| == |vin| && forall i | 0 <= i < |undos| :: UndoOutOk(undos[i])
    modifies view.Repr
    ensures Ready(view) && Pointers(view) == old(Pointers(view))
    ensures clean <==> UndoInputs(old(LedgerOf(view).coins), vin, undos).Some?
    ensures clean ==> LedgerOf(view).coins == UndoInputs(old(LedgerOf(view).coins), vin, undos).value
    ensures LedgerOf(view) == old(LedgerOf(view)).(coins := LedgerOf(view).coins)
  {
    hide LayerOk, Through, NullifiersOk, NullifiersThrough, CoinsOk, CoinsViewCache.View, UndoInput, Pointers;
    clean := true;
    ghost var goal := UndoInputs(LedgerOf(view).coins, vin, undos);
    var j := |vin|;
    assert vin[..j] == vin && undos[..j] == undos;
    while j > 0
      invariant 0 <= j <= |vin|
      invariant Ready(view) && Pointers(view) == old(Pointers(view))
      invariant LedgerOf(view) == old(LedgerOf(view)).(coins := LedgerOf(view).coins)
      invariant if clean then goal == UndoInputs(LedgerOf(view).coins, vin[..j], undos[..j]) else goal.None?
    {
      j := j - 1;
      assert vin[..j + 1][..j] == vin[..j] && undos[..j + 1][..j] == undos[..j];
      var ok := ApplyTxInUndo(view, undos[j], vin[j]);
      if !ok {
        clean := false;
      }
    }
  }

  /** The output check of DisconnectBlock, and the removal of the outputs. */
  method RemoveOutputs(view: CoinsViewCache, tx: Tx, h: int) returns (clean: bool)
    requires Ready(view)
    modifies view.Repr
    ensures Ready(view) && Pointers(view) == old(Pointers(view))
    ensures clean <==> OutputsMatch(CoinAt(old(LedgerOf(view).coins), tx.txid), tx, h)
    ensures LedgerOf(view) == old(LedgerOf(view)).(coins := old(LedgerOf(view).coins) - {tx.txid})
  {
    hide LayerOk, Through, NullifiersOk, NullifiersThrough, CoinsOk;
    var outs := view.BeginModify(tx.txid);
    MatchIgnoresSpent(outs, tx, h);
    var vout := ClearUnspendableVout(outs.vout);
    outs := outs.(vout := vout);
    var outsBlock := FromTx(tx, h);
    if outsBlock.nVersion < 0 {
      outs := outs.(nVersion := outsBlock.nVersion);
    }
    clean := outs.SameAs(outsBlock);
    view.EndModify(EMPTY_COIN);
  }

  /** Which spent record is left behind makes no difference to the output check. */
  lemma MatchIgnoresSpent(got: Coin, tx: Tx, h: int)
    ensures got.vout == [] ==> OutputsMatch(got, tx, h) == OutputsMatch(EMPTY_COIN, tx, h)
  {
    if got.vout == [] {
      var want := FromTx(tx, h).vout;
      assert ClearUnspendable([]) == [];
      assert want != [] ==> !want[|want| - 1].IsNull();
    }
  }

  /** One transaction of DisconnectBlock. `consistent` is false when block and undo data disagree. */
  method UndoTxInView(view: CoinsViewCache, tx: Tx, spends: bool, undo: TxUndo, h: int) returns (consistent: bool, clean: bool)
    requires Ready(view) && forall i | 0 <= i < |undo| :: UndoOutOk(undo[i])
    modifies view.Repr
    ensures Ready(view) && Pointers(view) == old(Pointers(view))
    ensures consistent && clean <==> UndoTx(old(LedgerOf(view)), tx, spends, undo, h).Some?
    ensures consistent && clean ==> LedgerOf(view) == UndoTx(old(LedgerOf(view)), tx, spends, undo, h).value
  {
    hide LayerOk, Through, NullifiersOk, NullifiersThrough, CoinsOk, CoinsViewCache.View, OutputsMatch, UndoInputs, Pointers;
    consistent := true;
    clean := RemoveOutputs(view, tx, h);
    MarkNullifiers(view, tx.vjoinsplit, false);
    if spends {
      if |undo| != |tx.vin| {
        return false, clean;
      }
      var ok := UndoInputsInView(view, tx.vin, undo);
      if !ok {
        clean := false;
      }
    }
  }

  ghost predicate UndoOk(undo: BlockUndo) {
    && undo.oldRoot != NULL_HASH
    && forall i, j | 0 <= i < |undo.vtxundo| && 0 <= j < |undo.vtxundo[i]| :: UndoOutOk(undo.vtxundo[i][j])
  }

  /** DisconnectBlock on a view: succeeds exactly when the flat undo is clean, with the same ledger. */
  method DisconnectBlockInView(p: Params, view: CoinsViewCache, block: Block, undo: BlockUndo, h: nat, prevHash: Hash)
    returns (ok: bool)
    requires Ready(view) && UndoOk(undo) && prevHash != NULL_HASH
    modifies view.Repr
    ensures Ready(view) && view.base.View() == old(view.base.View())
    ensures ok <==> DisconnectBlock(p, old(LedgerOf(view)), block, undo, h).Some?
    ensures ok ==> LedgerOf(view) == DisconnectBlock(p, old(LedgerOf(view)), block, undo, h).value
    ensures ok ==> view.hashBlock == prevHash && view.hashAnchor == undo.oldRoot
  {
    hide LayerOk, Through, NullifiersOk, NullifiersThrough, CoinsOk, UndoTx, UndoOutOk;
    if |undo.vtxundo| + 1 != |block.vtx| {
      return false;
    }
    var nonCoinBase := LastCoinBase(p, h);
    var clean := UndoTxsInView(view, block.vtx, undo, nonCoinBase, h);
    if !clean {
      return false;
    }
    view.SetBestAnchor(undo.oldRoot);
    view.SetBestBlock(prevHash);
    return true;
  }

  /** The transaction loop of DisconnectBlock, last to first. */
  method UndoTxsInView(view: CoinsViewCache, txs: seq<Tx>, undo: BlockUndo, nonCoinBase: nat, h: int) returns (clean: bool)
    requires Ready(view) && UndoOk(undo) && |undo.vtxundo| + 1 == |txs|
    modifies view.Repr
    ensures Ready(view) && Pointers(view) == old(Pointers(view))
    ensures var r := UndoTxs(old(LedgerOf(view)), txs, [[]] + undo.vtxundo, nonCoinBase, h);
            (clean <==> r.Some?) && (clean ==> LedgerOf(view) == r.value)
  {
    hide LayerOk, Through, NullifiersOk, NullifiersThrough, CoinsOk, CoinsViewCache.View, UndoTx, UndoOutOk, Pointers;
    ghost var undos := [[]] + undo.vtxundo;
    ghost var goal := UndoTxs(LedgerOf(view), txs, undos, nonCoinBase, h);
    clean := true;
    var i := |txs|;
    assert txs[..i] == txs && undos[..i] == undos;
    while i > 0
      invariant 0 <= i <= |txs|
      invariant Ready(view) && Pointers(view) == old(Pointers(view))
      invariant if clean then goal == UndoTxs(LedgerOf(view), txs[..i], undos[..i], nonCoinBase, h) else goal.None?
    {
      i := i - 1;
      assert txs[..i + 1][..i] == txs[..i] && undos[..i + 1][..i] == undos[..i];
      var txundo: TxUndo := if i == 0 then [] else undo.vtxundo[i - 1];
      assert txundo == undos[i];
      var consistent, ok := UndoTxInView(view, txs[i], i > nonCoinBase, txundo, h);
      if !consistent {
        return false;
      }
      if !ok {
        clean := false;
      }
    }
  }

  // ---------------------------------------------------------------- checks on a view

  /** CCoinsViewCache::HaveInputs for a transaction that is not a coinbase. */
  method HaveInputsInView(view: CoinsViewCache, vin: seq<OutPoint>) returns (have: bool)
    requires Ready(view)
    modifies view.Repr
    ensures Ready(view) && Pointers(view) == old(Pointers(view)) && LedgerOf(view) == old(LedgerOf(view))
    ensures have <==> HaveInputs(LedgerOf(view).coins, vin)
  {
    hide LayerOk, Through, NullifiersOk, NullifiersThrough, CoinsOk;
    for i := 0 to |vin|
      invariant Ready(view) && Pointers(view) == old(Pointers(view)) && LedgerOf(view) == old(LedgerOf(view))
      invariant forall j | 0 <= j < i :: Available(LedgerOf(view).coins, vin[j])
    {
      var ok, c := view.GetCoins(vin[i].hash);
      if !ok || !c.IsAvailable(vin[i].n) {
        assert !Available(LedgerOf(view).coins, vin[i]);
        return false;
      }
    }
    return true;
  }

  /** The nullifier part of HaveJoinSplitRequirements. */
  method NullifiersUnspent(view: CoinsViewCache, tx: Tx) returns (unspent: bool)
    requires Ready(view)
    modifies view.Repr
    ensures Ready(view) && Pointers(view) == old(Pointers(view)) && LedgerOf(view) == old(LedgerOf(view))
    ensures unspent <==> forall nf | Reveals(tx.vjoinsplit, nf) :: nf !in LedgerOf(view).nulls
    ensures unspent <==> Nullifiers(tx) !! LedgerOf(view).nulls
  {
    hide LayerOk, Through, NullifiersOk, NullifiersThrough, CoinsOk, CoinsViewCache.View, Pointers, Reveals;
    var js := tx.vjoinsplit;
    forall nf ensures nf in JoinSplitNullifiers(js) <==> Reveals(js, nf) {
      NullifiersAre(js, nf);
    }
    unspent := true;
    for i := 0 to |js|
      invariant Ready(view) && Pointers(view) == old(Pointers(view)) && LedgerOf(view) == old(LedgerOf(view))
      invariant forall nf | nf in JoinSplitNullifiers(js[..i]) :: nf !in LedgerOf(view).nulls
    {
      var ok := NoneMarked(view, js[i].nullifiers);
      assert js[..i + 1][..i] == js[..i];
      if !ok {
        ghost var nf :| nf in js[i].nullifiers && nf in LedgerOf(view).nulls;
        RevealsOne(js, i, nf);
        assert nf in Nullifiers(tx);
        return false;
      }
    }
    assert js[..|js|] == js;
  }

  lemma RevealsOne(js: seq<JoinSplit>, a: nat, nf: Hash)
    requires a < |js| && nf in js[a].nullifiers
    ensures Reveals(js, nf)
  {
    var b: nat :| b < |js[a].nullifiers| && js[a].nullifiers[b] == nf;
    assert RevealsAt(js, a, b, nf);
  }

  /** Whether no nullifier of one joinsplit is marked. */
  method NoneMarked(view: CoinsViewCache, nfs: seq<Hash>) returns (none: bool)
    requires Ready(view)
    modifies view.Repr
    ensures Ready(view) && Pointers(view) == old(Pointers(view)) && LedgerOf(view) == old(LedgerOf(view))
    ensures none <==> forall nf | nf in nfs :: nf !in LedgerOf(view).nulls
  {
    hide LayerOk, Through, NullifiersOk, NullifiersThrough, CoinsOk;
    for i := 0 to |nfs|
      invariant Ready(view) && Pointers(view) == old(Pointers(view)) && LedgerOf(view) == old(LedgerOf(view))
      invariant forall j | 0 <= j < i :: nfs[j] !in LedgerOf(view).nulls
    {
      var spent := view.GetNullifier(nfs[i]);
      if spent {
        assert nfs[i] in nfs;
        return false;
      }
    }
    return true;
  }

  /** The input loop of CheckTxInputs with its running total. */
  method CheckInputValues(p: Params, view: CoinsViewCache, tx: Tx, h: int) returns (ok: bool, valueIn: int)
    requires Ready(view) && HaveInputs(LedgerOf(view).coins, tx.vin)
    modifies view.Repr
    ensures Ready(view) && Pointers(view) == old(Pointers(view)) && LedgerOf(view) == old(LedgerOf(view))
    ensures ok <==> InputsOk(p, LedgerOf(view).coins, tx.vin, tx.vout != [], h)
    ensures ok ==> valueIn == ValueIn(LedgerOf(view).coins, tx.vin)
  {
    hide LayerOk, Through, NullifiersOk, NullifiersThrough, CoinsOk, CoinSpendable;
    ghost var m := LedgerOf(view).coins;
    valueIn := 0;
    var vin := tx.vin;
    for i := 0 to |vin|
      invariant Ready(view) && Pointers(view) == old(Pointers(view)) && LedgerOf(view) == old(LedgerOf(view))
      invariant HaveInputs(m, vin[..i])
      invariant InputsOk(p, m, vin[..i], tx.vout != [], h) && valueIn == ValueIn(m, vin[..i])
    {
      assert vin[..i + 1][..i] == vin[..i];
      assert Available(m, vin[i]);
      var ok', c := view.GetCoins(vin[i].hash);
      assert ok' && c == m[vin[i].hash];
      valueIn := valueIn + c.vout[vin[i].n].nValue;
      if !CoinSpendable(p, c, tx.vout != [], h) || !MoneyRange(c.vout[vin[i].n].nValue) || !MoneyRange(valueIn) {
        InputsOkPrefix(p, m, vin, tx.vout != [], h, i + 1);
        return false, valueIn;
      }
    }
    assert vin[..|vin|] == vin;
    return true, valueIn;
  }

  lemma {:induction false} InputsOkPrefix(p: Params, m: CoinMap, vin: seq<OutPoint>, hasOutputs: bool, h: int, k: nat)
    requires HaveInputs(m, vin) && k <= |vin|
    ensures InputsOk(p, m, vin, hasOutputs, h) ==> InputsOk(p, m, vin[..k], hasOutputs, h)
  {
    if k < |vin| {
      InputsOkPrefix(p, m, vin[..|vin| - 1], hasOutputs, h, k);
      assert vin[..|vin| - 1][..k] == vin[..k];
    } else {
      assert vin[..k] == vin;
    }
  }

  /** CheckTxInputs with the availability checks, and the fee. */
  method CheckTxInView(p: Params, view: CoinsViewCache, tx: Tx, h: int) returns (ok: bool, fee: int)
    requires Ready(view)
    modifies view.Repr
    ensures Ready(view) && Pointers(view) == old(Pointers(view)) && LedgerOf(view) == old(LedgerOf(view))
    ensures ok <==> CheckTxInputs(p, LedgerOf(view), tx, h)
    ensures ok ==> fee == ValueIn(LedgerOf(view).coins, tx.vin) + SumNew(tx.vjoinsplit) - ValueOut(tx)
  {
    hide LayerOk, Through, NullifiersOk, NullifiersThrough, CoinsOk, CoinsViewCache.View, HaveInputs, InputsOk, ValueIn, Pointers;
    var have := HaveInputsInView(view, tx.vin);
    if !have {
      return false, 0;
    }
    var unspent := NullifiersUnspent(view, tx);
    if !unspent {
      return false, 0;
    }
    var inputsOk, valueIn := CheckInputValues(p, view, tx, h);
    if !inputsOk {
      return false, 0;
    }
    valueIn := valueIn + SumNew(tx.vjoinsplit);
    if !MoneyRange(valueIn) || valueIn < ValueOut(tx) {
      return false, 0;
    }
    return true, valueIn - ValueOut(tx);
  }

  // ---------------------------------------------------------------- ConnectBlock

  ghost predicate AllTrue(s: seq<bool>) {
    forall i | 0 <= i < |s| :: s[i]
  }

  /** One transaction of the ConnectBlock loop. */
  method ConnectTxInView(p: Params, view: CoinsViewCache, tx: Tx, h: int, external: bool) returns (ok: bool, undo: TxUndo, fee: int)
    requires Ready(view) && CheckTx(tx)
    modifies view.Repr
    ensures Ready(view) && Pointers(view) == old(Pointers(view))
    ensures ok <==> external && ConnectTx(p, old(LedgerOf(view)), tx, h).Some?
    ensures ok ==> ConnectTx(p, old(LedgerOf(view)), tx, h) == Some(TxResult(LedgerOf(view), undo, fee))
  {
    hide LayerOk, Through, NullifiersOk, NullifiersThrough, CoinsOk, CoinsViewCache.View, HaveInputs, InputsOk, ValueIn, CheckTx,
         ApplyTx, Pointers;
    undo, fee := [], 0;
    if !external {
      return false, undo, fee;
    }
    if !tx.IsCoinBase() {
      ok, fee := CheckTxInView(p, view, tx, h);
      if !ok {
        return false, undo, fee;
      }
    }
    undo := UpdateCoins(view, tx, h);
    ok := true;
  }

  method ConnectTxsInView(p: Params, view: CoinsViewCache, txs: seq<Tx>, h: int, external: seq<bool>)
    returns (ok: bool, undos: seq<TxUndo>, fees: int)
    requires Ready(view) && AllCheckTx(txs) && |external| == |txs|
    modifies view.Repr
    ensures Ready(view) && Pointers(view) == old(Pointers(view))
    ensures ok <==> AllTrue(external) && ConnectTxs(p, old(LedgerOf(view)), txs, h).Some?
    ensures ok ==> ConnectTxs(p, old(LedgerOf(view)), txs, h) == Some(TxsResult(LedgerOf(view), undos, fees))
  {
    hide LayerOk, Through, NullifiersOk, NullifiersThrough, CoinsOk, CoinsViewCache.View, CheckTx, ConnectTx, Pointers;
    ghost var l := LedgerOf(view);
    undos, fees := [], 0;
    for i := 0 to |txs|
      invariant Ready(view) && Pointers(view) == old(Pointers(view))
      invariant AllTrue(external[..i]) && AllCheckTx(txs[..i])
      invariant ConnectTxs(p, l, txs[..i], h) == Some(TxsResult(LedgerOf(view), undos, fees))
    {
      assert txs[..i + 1][..i] == txs[..i];
      var good, undo, fee := ConnectTxInView(p, view, txs[i], h, external[i]);
      if !good {
        if external[i] && Connects(p, l, txs, h) {
          PrefixConnects(p, l, txs, h, i + 1);
          assert false;
        }
        return false, undos, fees;
      }
      undos, fees := undos + [undo], fees + fee;
    }
    assert txs[..|txs|] == txs && external[..|txs|] == external;
    ok := true;
  }

  /** The check that no transaction of the block overwrites an unspent one. */
  method NoOverwriteInView(view: CoinsViewCache, txs: seq<Tx>) returns (ok: bool)
    requires Ready(view)
    modifies view.Repr
    ensures Ready(view) && Pointers(view) == old(Pointers(view)) && LedgerOf(view) == old(LedgerOf(view))
    ensures ok <==> NoOverwrite(LedgerOf(view), txs)
  {
    hide LayerOk, Through, NullifiersOk, NullifiersThrough, CoinsOk;
    for i := 0 to |txs|
      invariant Ready(view) && Pointers(view) == old(Pointers(view)) && LedgerOf(view) == old(LedgerOf(view))
      invariant forall j | 0 <= j < i :: txs[j].txid !in LedgerOf(view).coins
    {
      var have, c := view.GetCoins(txs[i].txid);
      CleanPruned(c);
      if have && !c.IsPruned() {
        return false;
      }
    }
    return true;
  }

  ghost predicate RootsOk(p: Params) {
    && p.emptyRoot != NULL_HASH && p.resetRoot != NULL_HASH
    && forall r, c :: p.nextRoot(r, c) != NULL_HASH
  }

  /** ConnectBlock on a view: succeeds exactly when every modelled and external check passes,
      and then leaves the ledger and the undo record of the flat function. Whatever happens,
      the view below is untouched. */
  method ConnectBlockInView(p: Params, view: CoinsViewCache, block: Block, h: nat, external: seq<bool>, externalBlock: bool)
    returns (ok: bool, undo: BlockUndo)
    requires SubsidyParams(p) && RootsOk(p) && h >= 1 && block.hash != NULL_HASH && |external| == |block.vtx|
    requires Ready(view)
    modifies view.Repr
    ensures Ready(view) && view.base.View() == old(view.base.View())
    ensures ok <==> externalBlock && AllTrue(external) && ConnectBlock(p, old(LedgerOf(view)), block, h).Some?
    ensures ok ==> ConnectBlock(p, old(LedgerOf(view)), block, h) == Some(Connected(LedgerOf(view), undo))
    ensures ok ==> view.hashBlock == block.hash && view.hashAnchor != NULL_HASH
  {
    hide LayerOk, Through, NullifiersOk, NullifiersThrough, CoinsOk, CheckTx, ConnectTxs, NoOverwrite, BlockSubsidy;
    undo := BlockUndo([], NULL_HASH);
    if !CheckBlock(p, block, h) {
      return false, undo;
    }
    var fresh_ids := NoOverwriteInView(view, block.vtx);
    if !fresh_ids {
      return false, undo;
    }
    var oldRoot := view.GetBestAnchor();
    var good, undos, fees := ConnectTxsInView(p, view, block.vtx, h, external);
    if !good {
      return false, undo;
    }
    var newRoot := if h == p.zResetHeight then p.resetRoot else p.nextRoot(oldRoot, BlockCommitments(block.vtx));
    view.SetBestAnchor(newRoot);
    if !p.IsForkBlock(h) {
      if ValueOut(block.vtx[0]) > fees + BlockSubsidy(p, h) {
        return false, undo;
      }
    }
    if !externalBlock {
      return false, undo;
    }
    undo := BlockUndo(undos[1..], oldRoot);
    view.SetBestBlock(block.hash);
    ok := true;
  }
}
