/** The rules a chain of blocks obeys, read off the blocks alone, and the proof that replaying the chain
    succeeds exactly if every block obeys them. */
module ChainRules {
  import opened Primitives
  import opened ChainSpec
  import opened UndoProofs
  import opened Values
  import opened History
  import ChainState
  import MerkleRoot

  ghost predicate IsOpen(log: Log, o: OutPoint) {
    exists c: nat :: Open(log, c, o)
  }

  /** The entry that made an open output. */
  ghost function Maker(log: Log, o: OutPoint): (c: nat)
    requires IsOpen(log, o)
    ensures Open(log, c, o)
  {
    var c: nat :| Open(log, c, o);
    c
  }

  /** What an input brings in. */
  ghost function Brings(log: Log, o: OutPoint): int {
    if IsOpen(log, o) then log[Maker(log, o)].tx.vout[o.n].nValue else 0
  }

  ghost function InValues(log: Log, vin: seq<OutPoint>): (r: seq<int>)
    ensures |r| == |vin| && forall i | 0 <= i < |vin| :: r[i] == Brings(log, vin[i])
  {
    seq(|vin|, i requires 0 <= i < |vin| => Brings(log, vin[i]))
  }

  /** Whether an output may be spent at a height: not burned, and mature and shielded if mined. */
  predicate MaySpend(p: Params, maker: Entry, toOutputs: bool, h: nat) {
    && (p.unmovedBurnHeight != 0 && h > p.unmovedBurnHeight ==> maker.height > p.forkStartHeight + p.forkHeightRange)
    && (maker.tx.IsCoinBase() ==> maker.height + p.coinbaseMaturity <= h)
    && (maker.tx.IsCoinBase() && p.coinbaseProtected && toOutputs ==> p.IsForkBlock(maker.height))
  }

  ghost predicate SpendsOpen(p: Params, log: Log, tx: Tx, h: nat) {
    forall i | 0 <= i < |tx.vin| :: IsOpen(log, tx.vin[i]) && MaySpend(p, log[Maker(log, tx.vin[i])], tx.vout != [], h)
  }

  ghost predicate RevealsNew(log: Log, tx: Tx) {
    forall e: nat, nf | Reveals(tx.vjoinsplit, nf) :: !Reveal(log, e, nf)
  }

  /** What enters a transaction, from outputs and from the shielded pool. */
  ghost function Enters(log: Log, tx: Tx): int { Sum(InValues(log, tx.vin)) + Sum(NewValues(tx.vjoinsplit)) }

  /** What leaves it, to outputs and to the shielded pool. */
  function Leaves(tx: Tx): int { Sum(OutValues(tx.vout)) + Sum(OldValues(tx.vjoinsplit)) }

  /** The rules for a transaction that is not a coinbase, after the given history. */
  ghost predicate Accepts(p: Params, log: Log, tx: Tx, h: nat) {
    && SpendsOpen(p, log, tx, h)
    && RevealsNew(log, tx)
    && Leaves(tx) <= Enters(log, tx) <= MAX_MONEY
  }

  ghost function Fee(log: Log, tx: Tx): int {
    if tx.IsCoinBase() then 0 else Enters(log, tx) - Leaves(tx)
  }

  // ---------------------------------------------------------------- one transaction

  ghost predicate Checked(log: Log) {
    forall i | 0 <= i < |log| :: CheckTx(log[i].tx)
  }

  ghost function CoinValues(m: CoinMap, vin: seq<OutPoint>): (r: seq<int>)
    requires HaveInputs(m, vin)
    ensures |r| == |vin| && forall i | 0 <= i < |vin| :: r[i] == m[vin[i].hash].vout[vin[i].n].nValue
  {
    seq(|vin|, i requires 0 <= i < |vin| => assert Available(m, vin[i]); m[vin[i].hash].vout[vin[i].n].nValue)
  }

  lemma {:induction false} ValueInIs(m: CoinMap, vin: seq<OutPoint>)
    requires HaveInputs(m, vin)
    ensures ValueIn(m, vin) == Sum(CoinValues(m, vin))
  {
    if vin != [] {
      var k := |vin| - 1;
      ValueInIs(m, vin[..k]);
      SumPush(CoinValues(m, vin[..k]), CoinValues(m, vin)[k]);
      assert CoinValues(m, vin) == CoinValues(m, vin[..k]) + [CoinValues(m, vin)[k]];
    }
  }

  ghost predicate AllSpendable(p: Params, m: CoinMap, vin: seq<OutPoint>, toOutputs: bool, h: int)
    requires HaveInputs(m, vin)
  {
    forall i | 0 <= i < |vin| :: CoinSpendable(p, m[vin[i].hash], toOutputs, h)
  }

  lemma {:induction false} InputsInRange(p: Params, m: CoinMap, vin: seq<OutPoint>, toOutputs: bool, h: int)
    requires HaveInputs(m, vin)
    ensures InputsOk(p, m, vin, toOutputs, h) <==>
            AllSpendable(p, m, vin, toOutputs, h) && AllInRange(CoinValues(m, vin)) && Sum(CoinValues(m, vin)) <= MAX_MONEY
  {
    hide CoinSpendable, AllInRange, AllSpendable, ValueIn, Sum;
    if vin == [] {
      NoInputs(p, m, toOutputs, h);
    } else {
      var k := |vin| - 1;
      InputsInRange(p, m, vin[..k], toOutputs, h);
      ValueInIs(m, vin);
      var s, x := CoinValues(m, vin[..k]), CoinValues(m, vin)[k];
      SumPush(s, x);
      assert CoinValues(m, vin) == s + [x];
      RangePush(s, x);
      SpendablePush(p, m, vin, toOutputs, h);
    }
  }

  lemma NoInputs(p: Params, m: CoinMap, toOutputs: bool, h: int)
    ensures AllSpendable(p, m, [], toOutputs, h) && AllInRange(CoinValues(m, [])) && Sum(CoinValues(m, [])) == 0
  {
  }

  lemma SpendablePush(p: Params, m: CoinMap, vin: seq<OutPoint>, toOutputs: bool, h: int)
    requires HaveInputs(m, vin) && vin != []
    ensures var k := |vin| - 1;
            AllSpendable(p, m, vin, toOutputs, h) <==>
            AllSpendable(p, m, vin[..k], toOutputs, h) && CoinSpendable(p, m[vin[k].hash], toOutputs, h)
  {
    hide CoinSpendable;
  }

  lemma RangePush(s: seq<int>, x: int)
    ensures AllInRange(s + [x]) <==> AllInRange(s) && MoneyRange(x)
    ensures AllInRange(s) ==> Sum(s) >= 0
  {
    assert AllInRange(s + [x]) ==> AllInRange((s + [x])[..|s|]) && MoneyRange((s + [x])[|s|]);
    if AllInRange(s) {
      SumNonNegative(s, 0);
    }
  }

  lemma InputsOpen(log: Log, l: Ledger, vin: seq<OutPoint>)
    requires Reflects(log, l)
    ensures HaveInputs(l.coins, vin) <==> forall i | 0 <= i < |vin| :: IsOpen(log, vin[i])
  {
    hide Open, Reveal, Available;
    assert forall c: nat, o | Open(log, c, o) :: Available(l.coins, o) by {
      HeldAvailable(log, l);
    }
  }

  lemma HeldAvailable(log: Log, l: Ledger)
    requires Reflects(log, l)
    ensures forall c: nat, o | Open(log, c, o) :: Available(l.coins, o)
  {
    hide Open, Reveal, Available;
    forall c: nat, o | Open(log, c, o) ensures Available(l.coins, o) {
      OpenInside(log);
      assert Holds(l.coins, log[c], o);
    }
  }

  /** One input, by its record and by its history. */
  lemma OneInput(p: Params, log: Log, l: Ledger, o: OutPoint, toOutputs: bool, h: nat)
    requires Reflects(log, l) && Checked(log) && IsOpen(log, o)
    ensures Available(l.coins, o) && l.coins[o.hash].vout[o.n].nValue == Brings(log, o) && MoneyRange(Brings(log, o))
    ensures CoinSpendable(p, l.coins[o.hash], toOutputs, h) <==> MaySpend(p, log[Maker(log, o)], toOutputs, h)
  {
    hide CheckTx, Reveal, Available;
    var c := Maker(log, o);
    assert Holds(l.coins, log[c], o);
    var tx := log[c].tx;
    assert OutValuesOk(tx.vout) by {
      CheckedOuts(log, c);
    }
    OutValueNotNull(tx.vout, o.n);
  }

  lemma CheckedOuts(log: Log, c: nat)
    requires Checked(log) && c < |log|
    ensures OutValuesOk(log[c].tx.vout)
  {
    assert CheckTx(log[c].tx);
  }

  lemma NullifiersNew(log: Log, l: Ledger, tx: Tx)
    requires Reflects(log, l)
    ensures Nullifiers(tx) !! l.nulls <==> RevealsNew(log, tx)
  {
    hide Open, Holds, Available, Reveals, JoinSplitNullifiers;
    forall nf ensures nf in Nullifiers(tx) <==> Reveals(tx.vjoinsplit, nf) {
      NullifiersAre(tx.vjoinsplit, nf);
    }
    hide Reveal;
    if RevealsNew(log, tx) {
      assert forall nf | Reveals(tx.vjoinsplit, nf) :: nf !in l.nulls;
    }
    if Nullifiers(tx) !! l.nulls {
      forall e: nat, nf | Reveals(tx.vjoinsplit, nf) ensures !Reveal(log, e, nf) {
        assert nf !in l.nulls;
      }
    }
  }

  lemma ValueOutIs(tx: Tx)
    ensures ValueOut(tx) == Leaves(tx)
  {
    SumOutIs(tx.vout);
    SumOldIs(tx.vjoinsplit);
  }

  /** The inputs of a transaction, by the ledger and by its history. */
  lemma InputsExactly(p: Params, log: Log, l: Ledger, tx: Tx, h: nat)
    requires Reflects(log, l) && Checked(log) && HaveInputs(l.coins, tx.vin)
    ensures InputsOk(p, l.coins, tx.vin, tx.vout != [], h) <==> SpendsOpen(p, log, tx, h) && Sum(InValues(log, tx.vin)) <= MAX_MONEY
    ensures ValueIn(l.coins, tx.vin) == Sum(InValues(log, tx.vin)) >= 0
  {
    hide Reflects, Checked, IsOpen, Brings, MaySpend, CoinSpendable, InputsOk, ValueIn;
    var vin, toOutputs := tx.vin, tx.vout != [];
    InputsOpen(log, l, vin);
    InputsInRange(p, l.coins, vin, toOutputs, h);
    ValueInIs(l.coins, vin);
    forall i | 0 <= i < |vin|
      ensures Available(l.coins, vin[i]) && l.coins[vin[i].hash].vout[vin[i].n].nValue == Brings(log, vin[i])
      ensures MoneyRange(Brings(log, vin[i])) && IsOpen(log, vin[i])
      ensures CoinSpendable(p, l.coins[vin[i].hash], toOutputs, h) <==> MaySpend(p, log[Maker(log, vin[i])], toOutputs, h)
    {
      OneInput(p, log, l, vin[i], toOutputs, h);
    }
    assert CoinValues(l.coins, vin) == InValues(log, vin);
    assert AllInRange(InValues(log, vin));
    SumNonNegative(InValues(log, vin), 0);
  }

  /** The checks on a transaction pass exactly if the rules hold after its history. */
  lemma AcceptsExactly(p: Params, log: Log, l: Ledger, tx: Tx, h: nat)
    requires Reflects(log, l) && Checked(log) && CheckTx(tx)
    ensures CheckTxInputs(p, l, tx, h) <==> Accepts(p, log, tx, h)
    ensures CheckTxInputs(p, l, tx, h) ==>
              ValueIn(l.coins, tx.vin) + SumNew(tx.vjoinsplit) - ValueOut(tx) == Enters(log, tx) - Leaves(tx)
  {
    hide Reflects, Checked, IsOpen, InputsOk, ValueIn, HaveInputs, RevealsNew, ValueOut, Leaves, SumNew, Nullifiers, MaySpend;
    InputsOpen(log, l, tx.vin);
    NullifiersNew(log, l, tx);
    ValueOutIs(tx);
    SumNewIs(tx.vjoinsplit);
    NewNonNegative(tx);
    if HaveInputs(l.coins, tx.vin) {
      InputsExactly(p, log, l, tx, h);
    }
    hide CheckTx;
    LeavesNonNegative(tx);
  }

  lemma NewNonNegative(tx: Tx)
    requires CheckTx(tx)
    ensures Sum(NewValues(tx.vjoinsplit)) >= 0
  {
    CheckTxExactly(tx);
    hide CheckTx;
    SumNonNegative(NewValues(tx.vjoinsplit), 0);
  }

  lemma LeavesNonNegative(tx: Tx)
    requires CheckTx(tx)
    ensures Leaves(tx) >= 0
  {
    CheckTxExactly(tx);
    hide CheckTx;
    SumNonNegative(OutValues(tx.vout), 0);
    SumNonNegative(OldValues(tx.vjoinsplit), 0);
  }

  /** One transaction of a block. */
  lemma ConnectExactly(p: Params, log: Log, l: Ledger, tx: Tx, h: nat)
    requires Reflects(log, l) && Checked(log) && CheckTx(tx)
    ensures ConnectTx(p, l, tx, h).Some? <==> tx.IsCoinBase() || Accepts(p, log, tx, h)
    ensures ConnectTx(p, l, tx, h).Some? ==>
              var r := ConnectTx(p, l, tx, h).value; Reflects(log + [Entry(h, tx)], r.ledger) && r.fee == Fee(log, tx)
    ensures Checked(log + [Entry(h, tx)])
  {
    hide Reflects, CheckTx, InputsOk, HaveInputs, ValueIn, ApplyTx, Accepts, Enters, Leaves, Nullifiers;
    AcceptsExactly(p, log, l, tx, h);
    if ConnectTx(p, l, tx, h).Some? {
      ApplyReflects(log, l, tx, h);
    }
  }

  // ---------------------------------------------------------------- the transactions of a block

  function Entries(txs: seq<Tx>, h: nat): (r: Log)
    ensures |r| == |txs| && forall i | 0 <= i < |txs| :: r[i] == Entry(h, txs[i])
  {
    seq(|txs|, i requires 0 <= i < |txs| => Entry(h, txs[i]))
  }

  /** The history before transaction k of a block. */
  function Upto(log: Log, txs: seq<Tx>, h: nat, k: nat): Log
    requires k <= |txs|
  {
    log + Entries(txs[..k], h)
  }

  ghost predicate TxsLawful(p: Params, log: Log, txs: seq<Tx>, h: nat) {
    forall k | 0 <= k < |txs| :: txs[k].IsCoinBase() || Accepts(p, Upto(log, txs, h, k), txs[k], h)
  }

  ghost function Fees(log: Log, txs: seq<Tx>, h: nat): (r: seq<int>)
    ensures |r| == |txs| && forall k | 0 <= k < |txs| :: r[k] == Fee(Upto(log, txs, h, k), txs[k])
  {
    seq(|txs|, k requires 0 <= k < |txs| => Fee(Upto(log, txs, h, k), txs[k]))
  }

  lemma UptoPrefix(log: Log, txs: seq<Tx>, h: nat, n: nat, k: nat)
    requires k <= n <= |txs|
    ensures Upto(log, txs[..n], h, k) == Upto(log, txs, h, k)
  {
    assert txs[..n][..k] == txs[..k];
  }

  lemma UptoStep(log: Log, txs: seq<Tx>, h: nat, k: nat)
    requires k < |txs|
    ensures Upto(log, txs, h, k + 1) == Upto(log, txs, h, k) + [Entry(h, txs[k])]
  {
    assert Entries(txs[..k + 1], h) == Entries(txs[..k], h) + [Entry(h, txs[k])];
  }

  lemma LawfulPush(p: Params, log: Log, txs: seq<Tx>, h: nat)
    requires txs != []
    ensures var k := |txs| - 1;
            && (TxsLawful(p, log, txs, h) <==>
                TxsLawful(p, log, txs[..k], h) && (txs[k].IsCoinBase() || Accepts(p, Upto(log, txs, h, k), txs[k], h)))
            && Fees(log, txs, h) == Fees(log, txs[..k], h) + [Fee(Upto(log, txs, h, k), txs[k])]
  {
    hide Accepts, Fee, Upto;
    var k := |txs| - 1;
    forall i | 0 <= i < k ensures Upto(log, txs[..k], h, i) == Upto(log, txs, h, i) {
      UptoPrefix(log, txs, h, k, i);
    }
    assert forall i | 0 <= i < k :: txs[..k][i] == txs[i];
  }

  /** The transactions of a block connect exactly if each obeys the rules after its own history. */
  lemma {:induction false} TxsExactly(p: Params, log: Log, l: Ledger, txs: seq<Tx>, h: nat)
    requires Reflects(log, l) && Checked(log) && AllCheckTx(txs)
    ensures ConnectTxs(p, l, txs, h).Some? <==> TxsLawful(p, log, txs, h)
    ensures ConnectTxs(p, l, txs, h).Some? ==>
              var r := ConnectTxs(p, l, txs, h).value;
              Reflects(log + Entries(txs, h), r.ledger) && r.fees == Sum(Fees(log, txs, h))
    ensures Checked(log + Entries(txs, h))
  {
    hide Reflects, CheckTx, ConnectTx, TxsLawful, Accepts, Fee;
    if txs == [] {
      assert log + Entries(txs, h) == log;
      NothingLawful(p, log, h);
    } else {
      var k := |txs| - 1;
      TxsExactly(p, log, l, txs[..k], h);
      LawfulPush(p, log, txs, h);
      UptoStep(log, txs, h, k);
      assert Upto(log, txs, h, k + 1) == log + Entries(txs, h) by {
        assert txs[..k + 1] == txs;
      }
      SumPush(Fees(log, txs[..k], h), Fee(Upto(log, txs, h, k), txs[k]));
      if ConnectTxs(p, l, txs[..k], h).Some? {
        ConnectExactly(p, Upto(log, txs, h, k), ConnectTxs(p, l, txs[..k], h).value.ledger, txs[k], h);
      }
    }
  }

  lemma NothingLawful(p: Params, log: Log, h: nat)
    ensures TxsLawful(p, log, [], h)
  {
  }

  // ---------------------------------------------------------------- blocks and chains

  /** The shape of a block: one coinbase, which comes first, or in the fork range a bounded number and nothing else. */
  ghost predicate Shaped(p: Params, txs: seq<Tx>, h: nat) {
    && txs != []
    && (forall k | 0 <= k < |txs| :: Lawful(txs[k]) && (txs[k].IsCoinBase() <==> k == 0 || p.IsForkBlock(h)))
    && (p.IsForkBlock(h) ==> |txs| <= p.forkCBPerBlock)
    && !MerkleRoot.Mutated(p.combine, TxIds(txs))
  }

  /** No transaction takes over an id that has open outputs. */
  ghost predicate FreshIds(log: Log, txs: seq<Tx>) {
    forall o, k | IsOpen(log, o) && 0 <= k < |txs| :: txs[k].txid != o.hash
  }

  /** The rules for a block at a height, after the given history. */
  ghost predicate BlockLawful(p: Params, log: Log, txs: seq<Tx>, h: nat)
    requires SubsidyParams(p) && h >= 1
  {
    && Shaped(p, txs, h) && FreshIds(log, txs) && TxsLawful(p, log, txs, h)
    && (!p.IsForkBlock(h) ==> Leaves(txs[0]) <= Sum(Fees(log, txs, h)) + BlockSubsidy(p, h))
  }

  lemma ShapeExactly(p: Params, block: Block, h: nat)
    ensures CheckBlock(p, block, h) <==> Shaped(p, block.vtx, h)
  {
    hide CheckTx, Lawful, MerkleRoot.Mutated, Params.IsForkBlock;
    forall k | 0 <= k < |block.vtx| ensures CheckTx(block.vtx[k]) <==> Lawful(block.vtx[k]) {
      CheckTxExactly(block.vtx[k]);
    }
  }

  /** A record in the ledger has an open output. */
  lemma RecordOpen(log: Log, l: Ledger, t: Hash) returns (o: OutPoint)
    requires Reflects(log, l) && WellFormed(l.coins) && t in l.coins
    ensures o.hash == t && IsOpen(log, o)
  {
    hide Open, Reveal;
    o := OutPoint(t, |l.coins[t].vout| - 1);
    assert Available(l.coins, o);
  }

  lemma IdsExactly(log: Log, l: Ledger, txs: seq<Tx>)
    requires Reflects(log, l) && WellFormed(l.coins)
    ensures NoOverwrite(l, txs) <==> FreshIds(log, txs)
  {
    hide Open, Reveal;
    HeldAvailable(log, l);
    if FreshIds(log, txs) {
      forall k | 0 <= k < |txs| ensures txs[k].txid !in l.coins {
        if txs[k].txid in l.coins {
          var o := RecordOpen(log, l, txs[k].txid);
          assert false;
        }
      }
    }
  }

  /** A block connects exactly if it obeys the rules. */
  lemma BlockExactly(p: Params, log: Log, l: Ledger, block: Block, h: nat)
    requires SubsidyParams(p) && h >= 1 && Reflects(log, l) && Checked(log) && WellFormed(l.coins)
    ensures ConnectBlock(p, l, block, h).Some? <==> BlockLawful(p, log, block.vtx, h)
    ensures ConnectBlock(p, l, block, h).Some? ==>
              var l' := ConnectBlock(p, l, block, h).value.ledger;
              && Reflects(log + Entries(block.vtx, h), l') && Checked(log + Entries(block.vtx, h)) && WellFormed(l'.coins)
              && l'.anchor == NewRoot(p, l, block.vtx, h)
  {
    hide Reflects, Checked, WellFormed, CheckTx, ConnectTxs, TxsLawful, FreshIds, NoOverwrite, BlockSubsidy, MerkleRoot.Mutated,
         Shaped, ValueOut, Leaves, Params.IsForkBlock;
    ShapeExactly(p, block, h);
    IdsExactly(log, l, block.vtx);
    if CheckBlock(p, block, h) {
      TxsExactly(p, log, l, block.vtx, h);
      ValueOutIs(block.vtx[0]);
      var r := ConnectTxs(p, l, block.vtx, h);
      if r.Some? {
        ChainState.TxsKeep(p, l, block.vtx, h);
        AnchorAside(log + Entries(block.vtx, h), r.value.ledger, NewRoot(p, l, block.vtx, h));
      }
    }
  }

  lemma AnchorAside(log: Log, l: Ledger, a: Hash)
    requires Reflects(log, l)
    ensures Reflects(log, l.(anchor := a))
  {
  }

  /** The history of a chain; the genesis block is not part of it. */
  ghost function ChainLog(chain: seq<Block>): Log {
    if |chain| <= 1 then [] else ChainLog(chain[..|chain| - 1]) + Entries(chain[|chain| - 1].vtx, |chain| - 1)
  }

  ghost predicate ChainLawful(p: Params, chain: seq<Block>)
    requires SubsidyParams(p)
  {
    forall h | 1 <= h < |chain| :: BlockLawful(p, ChainLog(chain[..h]), chain[h].vtx, h)
  }

  /** The note commitments of a list of transactions, in order. */
  function Notes(txs: seq<Tx>): seq<Hash> {
    if txs == [] then [] else JoinSplitNotes(txs[0].vjoinsplit) + Notes(txs[1..])
  }

  function JoinSplitNotes(js: seq<JoinSplit>): seq<Hash> {
    if js == [] then [] else js[0].commitments + JoinSplitNotes(js[1..])
  }

  /** The commitment root after a chain. */
  ghost function Anchor(p: Params, chain: seq<Block>): Hash {
    if |chain| <= 1 then p.emptyRoot
    else if |chain| - 1 == p.zResetHeight then p.resetRoot
    else p.nextRoot(Anchor(p, chain[..|chain| - 1]), Notes(chain[|chain| - 1].vtx))
  }

  lemma {:induction false} JoinSplitNotesPush(js: seq<JoinSplit>, j: JoinSplit)
    ensures JoinSplitNotes(js + [j]) == JoinSplitNotes(js) + j.commitments
  {
    if js == [] {
      assert [j][1..] == [];
      assert js + [j] == [j];
    } else {
      JoinSplitNotesPush(js[1..], j);
      assert (js + [j])[1..] == js[1..] + [j];
      Assoc(js[0].commitments, JoinSplitNotes(js[1..]), j.commitments);
    }
  }

  lemma Assoc(a: seq<Hash>, b: seq<Hash>, c: seq<Hash>)
    ensures a + (b + c) == (a + b) + c
  {
  }

  lemma {:induction false} CommitmentsAre(js: seq<JoinSplit>)
    ensures Commitments(js) == JoinSplitNotes(js)
  {
    if js != [] {
      var k := |js| - 1;
      CommitmentsAre(js[..k]);
      JoinSplitNotesPush(js[..k], js[k]);
      assert js[..k] + [js[k]] == js;
    }
  }

  lemma {:induction false} NotesPush(txs: seq<Tx>, tx: Tx)
    ensures Notes(txs + [tx]) == Notes(txs) + JoinSplitNotes(tx.vjoinsplit)
  {
    if txs == [] {
      assert [tx][1..] == [];
      assert txs + [tx] == [tx];
    } else {
      NotesPush(txs[1..], tx);
      assert (txs + [tx])[1..] == txs[1..] + [tx];
      Assoc(JoinSplitNotes(txs[0].vjoinsplit), Notes(txs[1..]), JoinSplitNotes(tx.vjoinsplit));
    }
  }

  lemma {:induction false} NotesAre(txs: seq<Tx>)
    ensures BlockCommitments(txs) == Notes(txs)
  {
    if txs != [] {
      var k := |txs| - 1;
      NotesAre(txs[..k]);
      CommitmentsAre(txs[k].vjoinsplit);
      NotesPush(txs[..k], txs[k]);
      assert txs[..k] + [txs[k]] == txs;
    }
  }

  lemma LawfulChainPush(p: Params, chain: seq<Block>)
    requires SubsidyParams(p) && |chain| > 1
    ensures var k := |chain| - 1;
            ChainLawful(p, chain) <==> ChainLawful(p, chain[..k]) && BlockLawful(p, ChainLog(chain[..k]), chain[k].vtx, k)
  {
    hide BlockLawful, ChainLog;
    var k := |chain| - 1;
    assert forall h | 1 <= h < k :: chain[..k][h] == chain[h] && chain[..k][..h] == chain[..h];
  }

  lemma GenesisReflects(p: Params)
    ensures Reflects([], Genesis(p)) && WellFormed(Genesis(p).coins)
  {
  }

  /** Replaying a chain succeeds exactly if every block obeys the rules, which speak of the blocks alone; and
      then the ledger shows the history of the chain and the root of its commitments. */
  lemma {:induction false} ReplaysExactly(p: Params, chain: seq<Block>)
    requires SubsidyParams(p)
    ensures Replay(p, chain).Some? <==> ChainLawful(p, chain)
    ensures Replay(p, chain).Some? ==>
              var l := Replay(p, chain).value;
              && Reflects(ChainLog(chain), l) && Checked(ChainLog(chain)) && WellFormed(l.coins)
              && l.anchor == Anchor(p, chain)
    decreases |chain|
  {
    hide Reflects, Checked, WellFormed, ConnectBlock, BlockLawful, ChainLawful, Notes, BlockCommitments;
    if |chain| <= 1 {
      GenesisReflects(p);
      ShortLawful(p, chain);
    } else {
      var k := |chain| - 1;
      ReplaysExactly(p, chain[..k]);
      LawfulChainPush(p, chain);
      NotesAre(chain[k].vtx);
      if Replay(p, chain[..k]).Some? {
        BlockExactly(p, ChainLog(chain[..k]), Replay(p, chain[..k]).value, chain[k], k);
      }
    }
  }

  lemma ShortLawful(p: Params, chain: seq<Block>)
    requires SubsidyParams(p) && |chain| <= 1
    ensures ChainLawful(p, chain) && Checked(ChainLog(chain)) && ChainLog(chain) == []
  {
  }
}
