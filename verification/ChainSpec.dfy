/** The chain state as one flat map, and what connecting and disconnecting a block
    does to it. A transaction whose outputs are all spent is absent from the map.
    The class methods of ChainState are proved against these functions. */
module ChainSpec {
  import opened Primitives
  import opened Powers
  import MerkleRoot

  type CoinMap = map<Hash, Coin>

  datatype Ledger = Ledger(coins: CoinMap, nulls: set<Hash>, anchor: Hash)

  /** What one spent input needs to be restored. `nHeight != 0` marks the last output of its transaction. */
  datatype TxInUndo = TxInUndo(txout: TxOut, fCoinBase: bool, nHeight: int, nVersion: int)
  type TxUndo = seq<TxInUndo>
  datatype BlockUndo = BlockUndo(vtxundo: seq<TxUndo>, oldRoot: Hash)

  /** Consensus parameters. `nextRoot` is the commitment-tree root after appending the
      block's note commitments to the tree with the given root, and `combine` hashes two nodes of a
      block's Merkle tree. */
  datatype Params = Params(
    coinbaseMaturity: int, coinbaseProtected: bool,
    forkStartHeight: int, forkHeightRange: int, forkCBPerBlock: nat,
    unmovedBurnHeight: int, zResetHeight: int,
    slowStartInterval: nat, halvingInterval: nat,
    emptyRoot: Hash, resetRoot: Hash, nextRoot: (Hash, seq<Hash>) -> Hash, combine: (Hash, Hash) -> Hash)
  {
    predicate IsForkBlock(h: int) {
      forkHeightRange > 0 && forkStartHeight < h <= forkStartHeight + forkHeightRange
    }

    predicate IsForkEnabled(h: int) { h > forkStartHeight }
  }

  // ---------------------------------------------------------------- sums

  function SumOut(vout: seq<TxOut>): int {
    if vout == [] then 0 else SumOut(vout[..|vout| - 1]) + vout[|vout| - 1].nValue
  }

  function SumOld(js: seq<JoinSplit>): int {
    if js == [] then 0 else SumOld(js[..|js| - 1]) + js[|js| - 1].vpubOld
  }

  function SumNew(js: seq<JoinSplit>): int {
    if js == [] then 0 else SumNew(js[..|js| - 1]) + js[|js| - 1].vpubNew
  }

  function ValueOut(tx: Tx): int { SumOut(tx.vout) + SumOld(tx.vjoinsplit) }

  function JoinSplitNullifiers(js: seq<JoinSplit>): seq<Hash> {
    if js == [] then [] else JoinSplitNullifiers(js[..|js| - 1]) + js[|js| - 1].nullifiers
  }

  function Nullifiers(tx: Tx): set<Hash> {
    set nf | nf in JoinSplitNullifiers(tx.vjoinsplit)
  }

  function Commitments(js: seq<JoinSplit>): seq<Hash> {
    if js == [] then [] else Commitments(js[..|js| - 1]) + js[|js| - 1].commitments
  }

  function BlockCommitments(txs: seq<Tx>): seq<Hash> {
    if txs == [] then [] else BlockCommitments(txs[..|txs| - 1]) + Commitments(txs[|txs| - 1].vjoinsplit)
  }

  // ---------------------------------------------------------------- context-free checks

  predicate OutValuesOk(vout: seq<TxOut>) {
    vout == [] ||
    (&& OutValuesOk(vout[..|vout| - 1])
     && MoneyRange(vout[|vout| - 1].nValue) && MoneyRange(SumOut(vout)))
  }

  predicate JoinSplitsOk(start: int, js: seq<JoinSplit>) {
    js == [] ||
    (var j := js[|js| - 1];
     && JoinSplitsOk(start, js[..|js| - 1])
     && |j.nullifiers| == NUM_JS_INPUTS
     && MoneyRange(j.vpubOld) && MoneyRange(j.vpubNew)
     && (j.vpubOld == 0 || j.vpubNew == 0)
     && MoneyRange(start + SumOld(js)) && MoneyRange(SumNew(js)))
  }

  predicate DistinctOutPoints(vin: seq<OutPoint>) {
    forall i, j | 0 <= i < j < |vin| :: vin[i] != vin[j]
  }

  predicate DistinctHashes(s: seq<Hash>) {
    forall i, j | 0 <= i < j < |s| :: s[i] != s[j]
  }

  /** The context-free transaction rules, without serialized sizes and proofs. */
  predicate CheckTx(tx: Tx) {
    && tx.nVersion >= MIN_TX_VERSION
    && (tx.vin != [] || tx.vjoinsplit != [])
    && (tx.vout != [] || tx.vjoinsplit != [])
    && OutValuesOk(tx.vout)
    && JoinSplitsOk(SumOut(tx.vout), tx.vjoinsplit)
    && DistinctOutPoints(tx.vin)
    && DistinctHashes(JoinSplitNullifiers(tx.vjoinsplit))
    && if tx.IsCoinBase() then tx.vjoinsplit == []
       else forall i | 0 <= i < |tx.vin| :: !tx.vin[i].IsNull()
  }

  function TxIds(txs: seq<Tx>): (r: seq<Hash>)
    ensures |r| == |txs| && forall i | 0 <= i < |r| :: r[i] == txs[i].txid
  {
    seq(|txs|, i requires 0 <= i < |txs| => txs[i].txid)
  }

  /** The context-free block rules, without the header, sizes and the counting of signature operations. */
  predicate CheckBlock(p: Params, block: Block, h: int) {
    && !MerkleRoot.Mutated(p.combine, TxIds(block.vtx))
    && block.vtx != []
    && block.vtx[0].IsCoinBase()
    && (forall i | 0 <= i < |block.vtx| :: CheckTx(block.vtx[i]))
    && if p.IsForkBlock(h)
       then |block.vtx| <= p.forkCBPerBlock && forall i | 1 <= i < |block.vtx| :: block.vtx[i].IsCoinBase()
       else forall i | 1 <= i < |block.vtx| :: !block.vtx[i].IsCoinBase()
  }

  // ---------------------------------------------------------------- spending

  predicate Available(m: CoinMap, o: OutPoint) {
    o.hash in m && m[o.hash].IsAvailable(o.n)
  }

  function SetCoin(m: CoinMap, t: Hash, c: Coin): CoinMap {
    if c.vout == [] then m - {t} else m[t := c]
  }

  function Spend(c: Coin, n: nat): (r: Coin)
    requires c.IsAvailable(n)
    ensures forall k: nat :: r.IsAvailable(k) <==> c.IsAvailable(k) && k != n
    ensures forall k: nat | r.IsAvailable(k) :: c.IsAvailable(k) && r.vout[k] == c.vout[k]
  {
    var v := c.vout[n := NULL_OUT];
    var w := Cleanup(v);
    assert forall k | 0 <= k < |c.vout| :: v[k] == if k == n then NULL_OUT else c.vout[k];
    assert forall k | 0 <= k < |c.vout| && k != n :: if k < |w| then w[k] == c.vout[k] else c.vout[k].IsNull();
    c.(vout := w)
  }

  function SpendInput(m: CoinMap, o: OutPoint): (r: (CoinMap, TxInUndo))
    requires Available(m, o)
    ensures r.0.Keys <= m.Keys
    ensures forall q :: Available(r.0, q) <==> Available(m, q) && q != o
    ensures forall q | Available(r.0, q) :: Available(m, q) && r.0[q.hash].vout[q.n] == m[q.hash].vout[q.n]
  {
    var c := m[o.hash];
    var c' := Spend(c, o.n);
    var undo := if c'.vout == [] then TxInUndo(c.vout[o.n], c.fCoinBase, c.nHeight, c.nVersion)
                else TxInUndo(c.vout[o.n], false, 0, 0);
    (SetCoin(m, o.hash, c'), undo)
  }

  ghost predicate HaveInputs(m: CoinMap, vin: seq<OutPoint>) {
    forall i | 0 <= i < |vin| :: Available(m, vin[i])
  }

  ghost function SpendInputs(m: CoinMap, vin: seq<OutPoint>): (r: (CoinMap, TxUndo))
    requires HaveInputs(m, vin) && DistinctOutPoints(vin)
    ensures |r.1| == |vin|
    ensures r.0.Keys <= m.Keys
    ensures forall q :: Available(r.0, q) <==> Available(m, q) && q !in vin
    ensures forall q | Available(r.0, q) :: Available(m, q) && r.0[q.hash].vout[q.n] == m[q.hash].vout[q.n]
  {
    if vin == [] then (m, [])
    else
      var k := |vin| - 1;
      var (m1, us) := SpendInputs(m, vin[..k]);
      assert forall q :: q in vin <==> q in vin[..k] || q == vin[k];
      assert vin[k] !in vin[..k];
      var (m2, u) := SpendInput(m1, vin[k]);
      (m2, us + [u])
  }

  // ---------------------------------------------------------------- input checks

  /** The transparent value entering a transaction. */
  ghost function ValueIn(m: CoinMap, vin: seq<OutPoint>): int
    requires HaveInputs(m, vin)
  {
    if vin == [] then 0
    else ValueIn(m, vin[..|vin| - 1]) + m[vin[|vin| - 1].hash].vout[vin[|vin| - 1].n].nValue
  }

  /** One input: burned coins, coinbase maturity, and coinbase protection. */
  predicate CoinSpendable(p: Params, c: Coin, hasOutputs: bool, h: int) {
    && !(p.unmovedBurnHeight != 0 && h > p.unmovedBurnHeight && c.nHeight <= p.forkStartHeight + p.forkHeightRange)
    && (c.fCoinBase ==>
          && h - c.nHeight >= p.coinbaseMaturity
          && !(p.coinbaseProtected && !p.IsForkBlock(c.nHeight) && hasOutputs))
  }

  ghost predicate InputsOk(p: Params, m: CoinMap, vin: seq<OutPoint>, hasOutputs: bool, h: int)
    requires HaveInputs(m, vin)
  {
    vin == [] ||
    (var o := vin[|vin| - 1];
     && InputsOk(p, m, vin[..|vin| - 1], hasOutputs, h)
     && CoinSpendable(p, m[o.hash], hasOutputs, h)
     && MoneyRange(m[o.hash].vout[o.n].nValue) && MoneyRange(ValueIn(m, vin)))
  }

  /** CheckTxInputs together with the availability checks before it. */
  ghost predicate CheckTxInputs(p: Params, l: Ledger, tx: Tx, h: int) {
    && HaveInputs(l.coins, tx.vin)
    && Nullifiers(tx) !! l.nulls
    && InputsOk(p, l.coins, tx.vin, tx.vout != [], h)
    && MoneyRange(ValueIn(l.coins, tx.vin) + SumNew(tx.vjoinsplit))
    && ValueIn(l.coins, tx.vin) + SumNew(tx.vjoinsplit) >= ValueOut(tx)
  }

  // ---------------------------------------------------------------- connecting

  datatype TxResult = TxResult(ledger: Ledger, undo: TxUndo, fee: int)
  datatype TxsResult = TxsResult(ledger: Ledger, undos: seq<TxUndo>, fees: int)
  datatype Connected = Connected(ledger: Ledger, undo: BlockUndo)

  /** UpdateCoins: spend the inputs, spend the nullifiers, add the outputs. */
  ghost function ApplyTx(l: Ledger, tx: Tx, h: int): (r: (Ledger, TxUndo))
    requires CheckTx(tx)
    requires !tx.IsCoinBase() ==> HaveInputs(l.coins, tx.vin)
  {
    var (m, undo) := if tx.IsCoinBase() then (l.coins, []) else SpendInputs(l.coins, tx.vin);
    (Ledger(SetCoin(m, tx.txid, FromTx(tx, h)), l.nulls + Nullifiers(tx), l.anchor), undo)
  }

  ghost function ConnectTx(p: Params, l: Ledger, tx: Tx, h: int): (r: Option<TxResult>)
    requires CheckTx(tx)
  {
    if tx.IsCoinBase() then
      var (l', undo) := ApplyTx(l, tx, h);
      Some(TxResult(l', undo, 0))
    else if !CheckTxInputs(p, l, tx, h) then None
    else
      var (l', undo) := ApplyTx(l, tx, h);
      Some(TxResult(l', undo, ValueIn(l.coins, tx.vin) + SumNew(tx.vjoinsplit) - ValueOut(tx)))
  }

  ghost predicate AllCheckTx(txs: seq<Tx>) {
    forall i | 0 <= i < |txs| :: CheckTx(txs[i])
  }

  ghost function ConnectTxs(p: Params, l: Ledger, txs: seq<Tx>, h: int): (r: Option<TxsResult>)
    requires AllCheckTx(txs)
    ensures r.Some? ==> |r.value.undos| == |txs| && r.value.ledger.anchor == l.anchor
  {
    if txs == [] then Some(TxsResult(l, [], 0))
    else
      var k := |txs| - 1;
      var before := ConnectTxs(p, l, txs[..k], h);
      if before.None? then None
      else
        var last := ConnectTx(p, before.value.ledger, txs[k], h);
        if last.None? then None
        else Some(TxsResult(last.value.ledger, before.value.undos + [last.value.undo], before.value.fees + last.value.fee))
  }

  /** No transaction of the block overwrites an unspent one. */
  ghost predicate NoOverwrite(l: Ledger, txs: seq<Tx>) {
    forall i | 0 <= i < |txs| :: txs[i].txid !in l.coins
  }

  predicate SubsidyParams(p: Params) { p.halvingInterval >= 4 }

  /** The block subsidy, slow start and halvings included. */
  function BlockSubsidy(p: Params, h: nat): (r: nat)
    requires SubsidyParams(p) && h >= 1
    ensures r <= 25 * COIN / 2
  {
    var full := 25 * COIN / 2;
    if h < p.slowStartInterval / 2 then
      SlowStartBound(full, p.slowStartInterval, h);
      full / p.slowStartInterval * h
    else if h < p.slowStartInterval then
      SlowStartBound(full, p.slowStartInterval, h + 1);
      full / p.slowStartInterval * (h + 1)
    else
      var interval := if p.IsForkEnabled(h) then p.halvingInterval / 4 else p.halvingInterval;
      var halvings := (h - p.slowStartInterval / 2) / interval + if p.IsForkEnabled(h) then 2 else 0;
      if halvings >= 64 then 0
      else
        DivAtMost(full, Pow2(halvings));
        full / Pow2(halvings)
  }

  lemma MulAtMost(q: nat, k: nat, n: nat)
    requires k <= n
    ensures 0 <= q * k <= q * n
  {
  }

  lemma SlowStartBound(full: nat, interval: nat, k: nat)
    requires 1 <= k <= interval
    ensures 0 <= full / interval * k <= full
  {
    var q := full / interval;
    MulAtMost(q, k, interval);
    assert q * interval <= full;
  }

  function NewRoot(p: Params, l: Ledger, txs: seq<Tx>, h: int): Hash {
    if h == p.zResetHeight then p.resetRoot else p.nextRoot(l.anchor, BlockCommitments(txs))
  }

  /** A block after genesis, when every modelled check passes. */
  ghost function ConnectBlock(p: Params, l: Ledger, block: Block, h: nat): (r: Option<Connected>)
    requires SubsidyParams(p) && h >= 1
  {
    if !CheckBlock(p, block, h) || !NoOverwrite(l, block.vtx) then None
    else
      var r := ConnectTxs(p, l, block.vtx, h);
      if r.None? then None
      else if !p.IsForkBlock(h) && ValueOut(block.vtx[0]) > r.value.fees + BlockSubsidy(p, h) then None
      else Some(Connected(r.value.ledger.(anchor := NewRoot(p, l, block.vtx, h)),
                          BlockUndo(r.value.undos[1..], l.anchor)))
  }

  // ---------------------------------------------------------------- disconnecting

  /** Puts one output back, growing the vector with spent slots where needed. */
  function Restore(c: Coin, n: nat, txout: TxOut): Coin {
    var grown := if |c.vout| < n + 1 then c.vout + seq(n + 1 - |c.vout|, _ => NULL_OUT) else c.vout;
    c.(vout := Cleanup(grown[n := txout]))
  }

  /** ApplyTxInUndo; None when it reports an unclean undo. */
  function UndoInput(m: CoinMap, undo: TxInUndo, o: OutPoint): Option<CoinMap> {
    if undo.nHeight != 0 then
      if o.hash in m then None
      else Some(SetCoin(m, o.hash, Restore(Coin(undo.fCoinBase, [], undo.nHeight, undo.nVersion), o.n, undo.txout)))
    else if o.hash !in m || m[o.hash].IsAvailable(o.n) then None
    else Some(SetCoin(m, o.hash, Restore(m[o.hash], o.n, undo.txout)))
  }

  function UndoInputs(m: CoinMap, vin: seq<OutPoint>, undos: TxUndo): Option<CoinMap>
    requires |undos| == |vin|
    decreases |vin|
  {
    if vin == [] then Some(m)
    else
      var k := |vin| - 1;
      var last := UndoInput(m, undos[k], vin[k]);
      if last.None? then None else UndoInputs(last.value, vin[..k], undos[..k])
  }

  /** The record a view holds for a transaction; all-spent records count as empty. */
  function CoinAt(m: CoinMap, t: Hash): Coin {
    if t in m then m[t] else EMPTY_COIN
  }

  /** Whether a stored record is the one the transaction itself would create. */
  predicate OutputsMatch(got: Coin, tx: Tx, h: int) {
    var want := FromTx(tx, h);
    var cleared := got.(vout := ClearUnspendable(got.vout),
                        nVersion := if want.nVersion < 0 then want.nVersion else got.nVersion);
    cleared.SameAs(want)
  }

  function UndoTx(l: Ledger, tx: Tx, spends: bool, undo: TxUndo, h: int): Option<Ledger> {
    if !OutputsMatch(CoinAt(l.coins, tx.txid), tx, h) then None
    else
      var l1 := Ledger(l.coins - {tx.txid}, l.nulls - Nullifiers(tx), l.anchor);
      if !spends then Some(l1)
      else if |undo| != |tx.vin| then None
      else
        var m := UndoInputs(l1.coins, tx.vin, undo);
        if m.None? then None else Some(l1.(coins := m.value))
  }

  /** The transactions undone last to first, each with its own undo record. */
  function UndoTxs(l: Ledger, txs: seq<Tx>, undos: seq<TxUndo>, nonCoinBase: nat, h: int): Option<Ledger>
    requires |undos| == |txs|
    decreases |txs|
  {
    if txs == [] then Some(l)
    else
      var k := |txs| - 1;
      var last := UndoTx(l, txs[k], k > nonCoinBase, undos[k], h);
      if last.None? then None else UndoTxs(last.value, txs[..k], undos[..k], nonCoinBase, h)
  }

  /** Index of the last transaction whose inputs are not restored. */
  function LastCoinBase(p: Params, h: int): nat {
    if p.IsForkBlock(h) then p.forkCBPerBlock else 0
  }

  function DisconnectBlock(p: Params, l: Ledger, block: Block, undo: BlockUndo, h: int): Option<Ledger> {
    if |undo.vtxundo| + 1 != |block.vtx| then None
    else
      var r := UndoTxs(l, block.vtx, [[]] + undo.vtxundo, LastCoinBase(p, h), h);
      if r.None? then None else Some(r.value.(anchor := undo.oldRoot))
  }

  // ---------------------------------------------------------------- the whole chain

  function Genesis(p: Params): Ledger { Ledger(map[], {}, p.emptyRoot) }

  /** The ledger after connecting a chain from genesis; the genesis block changes nothing. */
  ghost function Replay(p: Params, chain: seq<Block>): Option<Ledger>
    requires SubsidyParams(p)
  {
    if |chain| <= 1 then Some(Genesis(p))
    else
      var k := |chain| - 1;
      var before := Replay(p, chain[..k]);
      if before.None? then None
      else
        var r := ConnectBlock(p, before.value, chain[k], k);
        if r.None? then None else Some(r.value.ledger)
  }
}
