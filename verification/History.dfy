/** What a chain of transactions leaves behind, read off the transactions alone: which outputs are open,
    who made them and when, and which nullifiers are out. The ledger shows exactly that. */
module History {
  import opened Primitives
  import opened ChainSpec
  import opened UndoProofs
  import opened Values

  /** A transaction and the height of its block. */
  datatype Entry = Entry(height: nat, tx: Tx)

  type Log = seq<Entry>

  predicate Writes(e: Entry, o: OutPoint) {
    e.tx.txid == o.hash && o.n < |e.tx.vout| && !IsUnspendable(e.tx.vout[o.n].scriptPubKey)
  }

  predicate Spends(e: Entry, o: OutPoint) {
    !e.tx.IsCoinBase() && o in e.tx.vin
  }

  /** Entry c made the output, and no later one spent it or took over its id. */
  ghost predicate Open(log: Log, c: nat, o: OutPoint) {
    c < |log| && Writes(log[c], o) && forall d | c < d < |log| :: log[d].tx.txid != o.hash && !Spends(log[d], o)
  }

  /** Entry e revealed the nullifier. */
  ghost predicate Reveal(log: Log, e: nat, nf: Hash) {
    e < |log| && Reveals(log[e].tx.vjoinsplit, nf)
  }

  /** The record of an output is that of the entry which made it. */
  ghost predicate Holds(m: CoinMap, e: Entry, o: OutPoint) {
    && Writes(e, o) && Available(m, o) && m[o.hash].vout[o.n] == e.tx.vout[o.n]
    && m[o.hash].fCoinBase == e.tx.IsCoinBase() && m[o.hash].nHeight == e.height && m[o.hash].nVersion == e.tx.nVersion
  }

  /** The unspent outputs are the open ones, with their origin, and the nullifiers those revealed. */
  ghost predicate Reflects(log: Log, l: Ledger) {
    && (forall c: nat, o | Open(log, c, o) :: Holds(l.coins, log[c], o))
    && (forall o | Available(l.coins, o) :: exists c: nat :: Open(log, c, o))
    && (forall nf :: nf in l.nulls <==> exists e: nat :: Reveal(log, e, nf))
  }

  // ---------------------------------------------------------------- one more entry

  lemma OpenPush(log: Log, e: Entry, c: nat, o: OutPoint)
    ensures Open(log + [e], c, o) <==>
            (c == |log| && Writes(e, o)) || (Open(log, c, o) && e.tx.txid != o.hash && !Spends(e, o))
  {
    var all := log + [e];
    if c < |log| {
      assert all[c] == log[c];
      assert all[|log|] == e;
      assert forall d | c < d < |log| :: all[d] == log[d];
      if Open(log, c, o) && e.tx.txid != o.hash && !Spends(e, o) {
        assert forall d | c < d < |all| :: d < |log| || all[d] == e;
      }
    }
  }

  lemma OpenInside(log: Log)
    ensures forall c: nat, o | Open(log, c, o) :: c < |log|
  {
  }

  lemma OpenUnique(log: Log, c: nat, d: nat, o: OutPoint)
    requires Open(log, c, o) && Open(log, d, o)
    ensures c == d
  {
  }

  lemma RevealPush(log: Log, e: Entry, nf: Hash)
    ensures (exists i: nat :: Reveal(log + [e], i, nf)) <==> (exists i: nat :: Reveal(log, i, nf)) || Reveals(e.tx.vjoinsplit, nf)
  {
    hide Reveals;
    var all := log + [e];
    if i: nat :| Reveal(log, i, nf) {
      assert Reveal(all, i, nf);
    }
    if Reveals(e.tx.vjoinsplit, nf) {
      assert Reveal(all, |log|, nf);
    }
    if i: nat :| Reveal(all, i, nf) {
      if i < |log| {
        assert Reveal(log, i, nf);
      }
    }
  }

  /** A checked transaction makes exactly its outputs that are not provably unspendable. */
  lemma Fresh(tx: Tx, h: int, n: nat)
    requires OutValuesOk(tx.vout)
    ensures FromTx(tx, h).IsAvailable(n) <==> n < |tx.vout| && !IsUnspendable(tx.vout[n].scriptPubKey)
    ensures FromTx(tx, h).IsAvailable(n) ==> n < |tx.vout| && FromTx(tx, h).vout[n] == tx.vout[n]
    ensures FromTx(tx, h).fCoinBase == tx.IsCoinBase() && FromTx(tx, h).nHeight == h && FromTx(tx, h).nVersion == tx.nVersion
  {
    if n < |tx.vout| {
      OutValueNotNull(tx.vout, n);
    }
  }

  /** Spending leaves the origin of a record alone. */
  lemma {:induction false} SpendsKeepOrigin(m: CoinMap, vin: seq<OutPoint>, t: Hash)
    requires HaveInputs(m, vin) && DistinctOutPoints(vin) && t in SpendInputs(m, vin).0
    ensures t in m
    ensures var c, d := m[t], SpendInputs(m, vin).0[t]; d.fCoinBase == c.fCoinBase && d.nHeight == c.nHeight && d.nVersion == c.nVersion
  {
    if vin != [] {
      SpendsKeepOrigin(m, vin[..|vin| - 1], t);
    }
  }

  lemma AppliedOwn(l: Ledger, tx: Tx, h: nat, o: OutPoint)
    requires CheckTx(tx) && (!tx.IsCoinBase() ==> HaveInputs(l.coins, tx.vin)) && o.hash == tx.txid
    ensures var m := ApplyTx(l, tx, h).0.coins;
            (Available(m, o) <==> Writes(Entry(h, tx), o)) && (Writes(Entry(h, tx), o) ==> Holds(m, Entry(h, tx), o))
  {
    hide SpendInputs, FromTx, HaveInputs;
    Fresh(tx, h, o.n);
  }

  lemma AppliedOther(l: Ledger, tx: Tx, h: nat, o: OutPoint)
    requires CheckTx(tx) && (!tx.IsCoinBase() ==> HaveInputs(l.coins, tx.vin)) && o.hash != tx.txid
    ensures var m := ApplyTx(l, tx, h).0.coins;
            && (Available(m, o) <==> Available(l.coins, o) && !Spends(Entry(h, tx), o))
            && (forall e | Holds(l.coins, e, o) && Available(m, o) :: Holds(m, e, o))
  {
    hide FromTx, OutValuesOk, JoinSplitsOk, JoinSplitNullifiers;
    var m := Spent(l.coins, tx).0;
    assert o.hash in ApplyTx(l, tx, h).0.coins <==> o.hash in m;
    if !tx.IsCoinBase() && o.hash in m {
      SpendsKeepOrigin(l.coins, tx.vin, o.hash);
    }
  }

  lemma AppliedNulls(l: Ledger, tx: Tx, h: nat, nf: Hash)
    requires CheckTx(tx) && (!tx.IsCoinBase() ==> HaveInputs(l.coins, tx.vin))
    ensures nf in ApplyTx(l, tx, h).0.nulls <==> nf in l.nulls || Reveals(tx.vjoinsplit, nf)
  {
    hide SpendInputs, FromTx, HaveInputs, CheckTx, Reveals;
    NullifiersAre(tx.vjoinsplit, nf);
  }

  /** Applying a transaction takes the ledger of a history to that of the longer one. */
  lemma ApplyReflects(log: Log, l: Ledger, tx: Tx, h: nat)
    requires Reflects(log, l) && CheckTx(tx) && (!tx.IsCoinBase() ==> HaveInputs(l.coins, tx.vin))
    ensures Reflects(log + [Entry(h, tx)], ApplyTx(l, tx, h).0)
  {
    hide ApplyTx, CheckTx, HaveInputs, Available, Writes, Open, Reveal, Reveals, Spends, Holds;
    var e, all, l' := Entry(h, tx), log + [Entry(h, tx)], ApplyTx(l, tx, h).0;
    OpenInside(all);
    forall c: nat, o | Open(all, c, o) ensures Holds(l'.coins, all[c], o) {
      OpenStays(log, l, tx, h, c, o);
    }
    forall o | Available(l'.coins, o) ensures exists c: nat :: Open(all, c, o) {
      var c := StaysOpen(log, l, tx, h, o);
    }
    forall nf ensures nf in l'.nulls <==> exists i: nat :: Reveal(all, i, nf) {
      AppliedNulls(l, tx, h, nf);
      RevealPush(log, e, nf);
    }
  }

  lemma OpenStays(log: Log, l: Ledger, tx: Tx, h: nat, c: nat, o: OutPoint)
    requires Reflects(log, l) && CheckTx(tx) && (!tx.IsCoinBase() ==> HaveInputs(l.coins, tx.vin))
    requires Open(log + [Entry(h, tx)], c, o)
    ensures c <= |log| && Holds(ApplyTx(l, tx, h).0.coins, (log + [Entry(h, tx)])[c], o)
  {
    hide ApplyTx, CheckTx, HaveInputs, Available, Spends, Reveal, Reveals;
    OpenPush(log, Entry(h, tx), c, o);
    if o.hash == tx.txid {
      AppliedOwn(l, tx, h, o);
    } else {
      assert Holds(l.coins, log[c], o);
      AppliedOther(l, tx, h, o);
    }
  }

  lemma StaysOpen(log: Log, l: Ledger, tx: Tx, h: nat, o: OutPoint) returns (c: nat)
    requires Reflects(log, l) && CheckTx(tx) && (!tx.IsCoinBase() ==> HaveInputs(l.coins, tx.vin))
    requires Available(ApplyTx(l, tx, h).0.coins, o)
    ensures Open(log + [Entry(h, tx)], c, o)
  {
    hide ApplyTx, CheckTx, HaveInputs, Available, Spends, Reveal, Reveals, Open, Holds;
    if o.hash == tx.txid {
      AppliedOwn(l, tx, h, o);
      c := |log|;
    } else {
      AppliedOther(l, tx, h, o);
      c :| Open(log, c, o);
    }
    OpenPush(log, Entry(h, tx), c, o);
  }
}
