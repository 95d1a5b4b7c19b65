/** Values shared by the chain-state modules: scripts, outputs, transactions,
    blocks, and the pruned per-transaction record `Coin` (CCoins). */
module Primitives {
  /** A 256-bit digest; the null digest is 0. No property depends on its width. */
  type Hash = nat
  const NULL_HASH: Hash := 0

  type Byte = b: nat | b < 256
  type Script = seq<Byte>

  const OP_RETURN: Byte := 0x6a
  const MAX_SCRIPT_SIZE := 10000
  const COIN := 100000000
  const MAX_MONEY := 21000000 * COIN
  const MIN_TX_VERSION := 1
  const NUM_JS_INPUTS := 2
  const NULL_INDEX := 0xffff_ffff

  datatype Option<+T> = None | Some(value: T)

  predicate IsUnspendable(s: Script) {
    (|s| > 0 && s[0] == OP_RETURN) || |s| > MAX_SCRIPT_SIZE
  }

  predicate MoneyRange(v: int) {
    0 <= v <= MAX_MONEY
  }

  datatype TxOut = TxOut(nValue: int, scriptPubKey: Script) {
    predicate IsNull() { nValue == -1 }
  }

  const NULL_OUT := TxOut(-1, [])

  datatype OutPoint = OutPoint(hash: Hash, n: nat) {
    predicate IsNull() { hash == NULL_HASH && n == NULL_INDEX }
  }

  datatype JoinSplit = JoinSplit(vpubOld: int, vpubNew: int, nullifiers: seq<Hash>, commitments: seq<Hash>)

  /** The transaction caches its own hash, as CTransaction does. */
  datatype Tx = Tx(txid: Hash, nVersion: int, vin: seq<OutPoint>, vout: seq<TxOut>, vjoinsplit: seq<JoinSplit>) {
    predicate IsCoinBase() { |vin| == 1 && vin[0].IsNull() }
  }

  datatype Block = Block(hash: Hash, vtx: seq<Tx>)

  datatype Coin = Coin(fCoinBase: bool, vout: seq<TxOut>, nHeight: int, nVersion: int) {
    predicate IsAvailable(n: nat) { n < |vout| && !vout[n].IsNull() }

    predicate IsPruned() { forall i | 0 <= i < |vout| :: vout[i].IsNull() }

    /** The equality test of CCoins: all pruned records are equal. */
    predicate SameAs(other: Coin) {
      (IsPruned() && other.IsPruned()) || this == other
    }

    /** Spent slots are the null output, and no spent slot is at the end. */
    predicate Clean() {
      && (forall i | 0 <= i < |vout| :: vout[i].IsNull() ==> vout[i] == NULL_OUT)
      && (vout != [] ==> !vout[|vout| - 1].IsNull())
    }
  }

  const EMPTY_COIN := Coin(false, [], 0, 0)

  /** Drops spent outputs from the end of the vector. */
  function Cleanup(vout: seq<TxOut>): (r: seq<TxOut>)
    ensures r <= vout
    ensures forall i | |r| <= i < |vout| :: vout[i].IsNull()
    ensures r != [] ==> !r[|r| - 1].IsNull()
  {
    if vout != [] && vout[|vout| - 1].IsNull() then Cleanup(vout[..|vout| - 1]) else vout
  }

  /** Replaces provably unspendable outputs by the null output. */
  function NullUnspendable(vout: seq<TxOut>): (r: seq<TxOut>)
    ensures |r| == |vout|
    ensures forall i | 0 <= i < |vout| :: r[i] == if IsUnspendable(vout[i].scriptPubKey) then NULL_OUT else vout[i]
  {
    if vout == [] then []
    else NullUnspendable(vout[..|vout| - 1])
         + [if IsUnspendable(vout[|vout| - 1].scriptPubKey) then NULL_OUT else vout[|vout| - 1]]
  }

  /** ClearUnspendable: both steps. */
  function ClearUnspendable(vout: seq<TxOut>): seq<TxOut> {
    Cleanup(NullUnspendable(vout))
  }

  function FromTx(tx: Tx, height: int): Coin {
    Coin(tx.IsCoinBase(), ClearUnspendable(tx.vout), height, tx.nVersion)
  }

  /** Cleanup is determined by what it promises: the only clean prefix whose remainder is spent. */
  lemma {:induction false} CleanupUnique(vout: seq<TxOut>, k: nat)
    requires k <= |vout|
    requires k > 0 ==> !vout[k - 1].IsNull()
    requires forall i | k <= i < |vout| :: vout[i].IsNull()
    ensures Cleanup(vout) == vout[..k]
  {
    if k < |vout| {
      CleanupUnique(vout[..|vout| - 1], k);
      assert vout[..|vout| - 1][..k] == vout[..k];
    } else {
      assert vout[..k] == vout;
    }
  }

  lemma CleanPruned(c: Coin)
    requires c.Clean()
    ensures c.IsPruned() <==> c.vout == []
  {
    if c.vout != [] {
      assert !c.vout[|c.vout| - 1].IsNull();
    }
  }

  lemma CleanupClean(c: Coin)
    requires forall i | 0 <= i < |c.vout| :: c.vout[i].IsNull() ==> c.vout[i] == NULL_OUT
    ensures c.(vout := Cleanup(c.vout)).Clean()
  {
  }

  /** The vector cleanup loop of CCoins. */
  method CleanupVout(vout: seq<TxOut>) returns (r: seq<TxOut>)
    ensures r == Cleanup(vout)
  {
    r := vout;
    while |r| > 0 && r[|r| - 1].IsNull()
      invariant Cleanup(r) == Cleanup(vout)
    {
      r := r[..|r| - 1];
    }
  }

  /** The in-place pass over the outputs that drops the unspendable ones. */
  method ClearUnspendableVout(vout: seq<TxOut>) returns (r: seq<TxOut>)
    ensures r == ClearUnspendable(vout)
  {
    r := vout;
    for i := 0 to |vout|
      invariant |r| == |vout|
      invariant forall j | 0 <= j < i :: r[j] == NullUnspendable(vout)[j]
      invariant forall j | i <= j < |vout| :: r[j] == vout[j]
    {
      if IsUnspendable(r[i].scriptPubKey) {
        r := r[i := NULL_OUT];
      }
    }
    assert r == NullUnspendable(vout);
    r := CleanupVout(r);
  }
}
