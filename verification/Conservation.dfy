/** Value is conserved: a block adds at most its subsidy to the unspent outputs and the shielded
    pool together, or in the fork range what its coinbases pay out. */
module Conservation {
  import opened Primitives
  import opened ChainSpec
  import opened Values
  import MerkleRoot

  /** The value of the unspent outputs in a vector. */
  function Live(vout: seq<TxOut>): int {
    if vout == [] then 0
    else Live(vout[..|vout| - 1]) + if vout[|vout| - 1].IsNull() then 0 else vout[|vout| - 1].nValue
  }

  /** The value of all unspent outputs. */
  ghost function Total(m: CoinMap): int
    decreases |m|
  {
    if m == map[] then 0
    else
      var t :| t in m;
      Live(m[t].vout) + Total(m - {t})
  }

  ghost predicate NonNegativeOuts(vout: seq<TxOut>) {
    forall i | 0 <= i < |vout| :: vout[i].IsNull() || vout[i].nValue >= 0
  }

  ghost predicate NonNegative(m: CoinMap) {
    forall t | t in m :: NonNegativeOuts(m[t].vout)
  }

  // ---------------------------------------------------------------- sums over vectors and maps

  lemma {:induction false} LiveCleanup(vout: seq<TxOut>)
    ensures Live(Cleanup(vout)) == Live(vout)
  {
    if vout != [] && vout[|vout| - 1].IsNull() {
      LiveCleanup(vout[..|vout| - 1]);
    }
  }

  lemma {:induction false} LiveUpdate(vout: seq<TxOut>, n: nat)
    requires n < |vout| && !vout[n].IsNull()
    ensures Live(vout[n := NULL_OUT]) == Live(vout) - vout[n].nValue
  {
    var k := |vout| - 1;
    if n < k {
      LiveUpdate(vout[..k], n);
      assert vout[n := NULL_OUT][..k] == vout[..k][n := NULL_OUT];
    } else {
      assert vout[n := NULL_OUT][..k] == vout[..k];
    }
  }

  lemma {:induction false} LiveNonNegative(vout: seq<TxOut>)
    requires NonNegativeOuts(vout)
    ensures Live(vout) >= 0
  {
    if vout != [] {
      LiveNonNegative(vout[..|vout| - 1]);
    }
  }

  lemma {:induction false} TotalRemove(m: CoinMap, t: Hash)
    requires t in m
    ensures Total(m) == Live(m[t].vout) + Total(m - {t})
    decreases |m|
  {
    var x :| x in m && Total(m) == Live(m[x].vout) + Total(m - {x});
    if x != t {
      TotalRemove(m - {x}, t);
      TotalRemove(m - {t}, x);
      assert (m - {x}) - {t} == (m - {t}) - {x};
    }
  }

  lemma TotalSetCoin(m: CoinMap, t: Hash, c: Coin)
    ensures Total(SetCoin(m, t, c)) == Total(m - {t}) + Live(c.vout)
  {
    if c.vout != [] {
      TotalRemove(m[t := c], t);
      assert m[t := c] - {t} == m - {t};
    }
  }

  lemma {:induction false} TotalNonNegative(m: CoinMap)
    requires NonNegative(m)
    ensures Total(m) >= 0
    decreases |m|
  {
    if m != map[] {
      var t :| t in m && Total(m) == Live(m[t].vout) + Total(m - {t});
      LiveNonNegative(m[t].vout);
      TotalNonNegative(m - {t});
    }
  }

  lemma TotalDrop(m: CoinMap, t: Hash)
    requires NonNegative(m)
    ensures Total(m - {t}) <= Total(m)
  {
    if t in m {
      TotalRemove(m, t);
      LiveNonNegative(m[t].vout);
    } else {
      assert m - {t} == m;
    }
  }

  // ---------------------------------------------------------------- one transaction

  lemma PoolSums(js: seq<JoinSplit>)
    ensures Pool(js) == SumOld(js) - SumNew(js)
  {
    PoolIs(js);
    SumOldIs(js);
    SumNewIs(js);
  }

  lemma SpendTakesValue(m: CoinMap, o: OutPoint)
    requires Available(m, o) && NonNegative(m)
    ensures var m' := SpendInput(m, o).0;
            NonNegative(m') && Total(m') == Total(m) - m[o.hash].vout[o.n].nValue
  {
    var c := m[o.hash];
    var v := c.vout[o.n := NULL_OUT];
    LiveUpdate(c.vout, o.n);
    LiveCleanup(v);
    TotalSetCoin(m, o.hash, Spend(c, o.n));
    TotalRemove(m, o.hash);
    assert NonNegativeOuts(v);
    assert Cleanup(v) <= v;
  }

  lemma {:induction false} SpendsTakeValue(m: CoinMap, vin: seq<OutPoint>)
    requires HaveInputs(m, vin) && DistinctOutPoints(vin) && NonNegative(m)
    ensures var m' := SpendInputs(m, vin).0;
            NonNegative(m') && Total(m') == Total(m) - ValueIn(m, vin)
  {
    if vin != [] {
      var k := |vin| - 1;
      SpendsTakeValue(m, vin[..k]);
      var m1 := SpendInputs(m, vin[..k]).0;
      assert Available(m1, vin[k]);
      SpendTakesValue(m1, vin[k]);
    }
  }

  lemma {:induction false} OutputsAddAtMost(vout: seq<TxOut>)
    requires OutValuesOk(vout)
    ensures Live(NullUnspendable(vout)) <= SumOut(vout) && NonNegativeOuts(NullUnspendable(vout))
  {
    if vout != [] {
      var k := |vout| - 1;
      OutputsAddAtMost(vout[..k]);
      assert NullUnspendable(vout)[..k] == NullUnspendable(vout[..k]);
    }
  }

  lemma AddOutputs(m: CoinMap, tx: Tx, h: int)
    requires NonNegative(m) && OutValuesOk(tx.vout)
    ensures var m' := SetCoin(m, tx.txid, FromTx(tx, h));
            NonNegative(m') && Total(m') <= Total(m) + SumOut(tx.vout)
  {
    hide Total, Live, OutValuesOk;
    OutputsAddAtMost(tx.vout);
    LiveCleanup(NullUnspendable(tx.vout));
    TotalSetCoin(m, tx.txid, FromTx(tx, h));
    TotalDrop(m, tx.txid);
  }

  /** A coinbase creates what it pays out; any other transaction loses at least its fee. What it moves into the
      shielded pool is added up joinsplit by joinsplit. */
  lemma TxConserves(p: Params, l: Ledger, tx: Tx, h: int)
    requires CheckTx(tx) && NonNegative(l.coins) && ConnectTx(p, l, tx, h).Some?
    ensures var r := ConnectTx(p, l, tx, h).value;
            && NonNegative(r.ledger.coins)
            && Total(r.ledger.coins) + Pool(tx.vjoinsplit)
                 <= Total(l.coins) + (if tx.IsCoinBase() then Sum(OutValues(tx.vout)) else 0) - r.fee
  {
    SumOutIs(tx.vout);
    PoolSums(tx.vjoinsplit);
    hide Total, Pool, Sum;
    if tx.IsCoinBase() {
      AddOutputs(l.coins, tx, h);
    } else {
      SpendsTakeValue(l.coins, tx.vin);
      AddOutputs(SpendInputs(l.coins, tx.vin).0, tx, h);
    }
  }

  // ---------------------------------------------------------------- blocks and chains

  /** What a list of transactions moves into the shielded pool. */
  function ShieldedBy(txs: seq<Tx>): int {
    if txs == [] then 0 else ShieldedBy(txs[..|txs| - 1]) + Pool(txs[|txs| - 1].vjoinsplit)
  }

  /** What the coinbases of a list pay out. */
  function PaidOut(txs: seq<Tx>): int {
    if txs == [] then 0
    else PaidOut(txs[..|txs| - 1]) + if txs[|txs| - 1].IsCoinBase() then Sum(OutValues(txs[|txs| - 1].vout)) else 0
  }

  lemma {:induction false} TxsConserve(p: Params, l: Ledger, txs: seq<Tx>, h: int)
    requires AllCheckTx(txs) && NonNegative(l.coins) && ConnectTxs(p, l, txs, h).Some?
    ensures var r := ConnectTxs(p, l, txs, h).value;
            && NonNegative(r.ledger.coins)
            && Total(r.ledger.coins) + ShieldedBy(txs) <= Total(l.coins) + PaidOut(txs) - r.fees
  {
    if txs != [] {
      var k := |txs| - 1;
      TxsConserve(p, l, txs[..k], h);
      TxConserves(p, ConnectTxs(p, l, txs[..k], h).value.ledger, txs[k], h);
    }
  }

  lemma {:induction false} OneCoinBase(txs: seq<Tx>)
    requires txs != [] && txs[0].IsCoinBase() && forall i | 1 <= i < |txs| :: !txs[i].IsCoinBase()
    ensures PaidOut(txs) == Sum(OutValues(txs[0].vout))
  {
    var k := |txs| - 1;
    if k > 0 {
      OneCoinBase(txs[..k]);
    } else {
      assert txs[..k] == [];
    }
  }

  lemma {:induction false} OnlyCoinBases(p: Params, l: Ledger, txs: seq<Tx>, h: int)
    requires AllCheckTx(txs) && ConnectTxs(p, l, txs, h).Some? && forall i | 0 <= i < |txs| :: txs[i].IsCoinBase()
    ensures ConnectTxs(p, l, txs, h).value.fees == 0
  {
    if txs != [] {
      OnlyCoinBases(p, l, txs[..|txs| - 1], h);
    }
  }

  /** What a block may create: the subsidy of its height, or in the fork range whatever its coinbases pay out. */
  ghost function Created(p: Params, block: Block, h: nat): int
    requires SubsidyParams(p) && h >= 1
  {
    if p.IsForkBlock(h) then PaidOut(block.vtx) else BlockSubsidy(p, h)
  }

  /** Connecting a block creates no more than that. */
  lemma BlockConserves(p: Params, l: Ledger, block: Block, h: nat)
    requires SubsidyParams(p) && h >= 1 && NonNegative(l.coins) && ConnectBlock(p, l, block, h).Some?
    ensures var r := ConnectBlock(p, l, block, h).value;
            && NonNegative(r.ledger.coins)
            && Total(r.ledger.coins) + ShieldedBy(block.vtx) <= Total(l.coins) + Created(p, block, h)
  {
    hide CheckTx, Total, ConnectTxs, MerkleRoot.Mutated;
    TxsConserve(p, l, block.vtx, h);
    if p.IsForkBlock(h) {
      OnlyCoinBases(p, l, block.vtx, h);
    } else {
      OneCoinBase(block.vtx);
      CoinBasePays(block.vtx[0]);
    }
  }

  lemma CoinBasePays(tx: Tx)
    requires CheckTx(tx) && tx.IsCoinBase()
    ensures ValueOut(tx) == Sum(OutValues(tx.vout))
  {
    SumOutIs(tx.vout);
  }

  ghost function ShieldedByChain(chain: seq<Block>): int {
    if |chain| <= 1 then 0 else ShieldedByChain(chain[..|chain| - 1]) + ShieldedBy(chain[|chain| - 1].vtx)
  }

  ghost function Issued(p: Params, n: nat): nat
    requires SubsidyParams(p)
  {
    if n <= 1 then 0 else Issued(p, n - 1) + BlockSubsidy(p, n - 1)
  }

  /** The last step of a replay. */
  lemma ReplayStep(p: Params, chain: seq<Block>) returns (before: Ledger)
    requires SubsidyParams(p) && |chain| > 1 && Replay(p, chain).Some?
    ensures var k := |chain| - 1;
            && Replay(p, chain[..k]) == Some(before)
            && ConnectBlock(p, before, chain[k], k).Some?
            && Replay(p, chain).value == ConnectBlock(p, before, chain[k], k).value.ledger
  {
    before := Replay(p, chain[..|chain| - 1]).value;
  }

  ghost function CreatedBy(p: Params, chain: seq<Block>): int
    requires SubsidyParams(p)
  {
    if |chain| <= 1 then 0
    else CreatedBy(p, chain[..|chain| - 1]) + Created(p, chain[|chain| - 1], |chain| - 1)
  }

  /** What the fork blocks of a chain pay out. */
  ghost function ForkPaid(p: Params, chain: seq<Block>): int {
    if |chain| <= 1 then 0
    else ForkPaid(p, chain[..|chain| - 1]) + if p.IsForkBlock(|chain| - 1) then PaidOut(chain[|chain| - 1].vtx) else 0
  }

  /** Over a whole chain, value in circulation never exceeds the subsidies and what the fork blocks paid out. */
  lemma {:induction false} ChainConserves(p: Params, chain: seq<Block>)
    requires SubsidyParams(p) && Replay(p, chain).Some?
    ensures NonNegative(Replay(p, chain).value.coins)
    ensures Total(Replay(p, chain).value.coins) + ShieldedByChain(chain) <= CreatedBy(p, chain)
  {
    if |chain| > 1 {
      var k := |chain| - 1;
      ChainConserves(p, chain[..k]);
      var before := ReplayStep(p, chain);
      BlockConserves(p, before, chain[k], k);
      assert CreatedBy(p, chain) == CreatedBy(p, chain[..k]) + Created(p, chain[k], k);
      assert ShieldedByChain(chain) == ShieldedByChain(chain[..k]) + ShieldedBy(chain[k].vtx);
    }
  }

  lemma {:induction false} CreatedBound(p: Params, chain: seq<Block>)
    requires SubsidyParams(p)
    ensures CreatedBy(p, chain) <= Issued(p, |chain|) + ForkPaid(p, chain)
    ensures (forall h | 1 <= h < |chain| :: !p.IsForkBlock(h)) ==> ForkPaid(p, chain) == 0
    decreases |chain|
  {
    if |chain| > 1 {
      var k := |chain| - 1;
      CreatedBound(p, chain[..k]);
      var issued := Issued(p, k);
      assert Issued(p, |chain|) == issued + BlockSubsidy(p, k);
    }
  }
}
