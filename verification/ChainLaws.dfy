/** What holds of every chain that replays, said of its blocks: where the inputs come from and when they
    may be spent, that nothing is spent twice, and that no transaction pays out more than it takes in. */
module ChainLaws {
  import opened Primitives
  import opened ChainSpec
  import opened Values
  import opened History
  import opened ChainRules

  /** Transaction k of the block at height h. */
  predicate At(chain: seq<Block>, h: nat, k: nat) {
    1 <= h < |chain| && k < |chain[h].vtx|
  }

  predicate Precedes(g: nat, j: nat, h: nat, k: nat) {
    g < h || (g == h && j < k)
  }

  /** The transaction at (g, j) made the output, and up to (h, k) no other spent it or took over its id. */
  ghost predicate Made(chain: seq<Block>, g: nat, j: nat, h: nat, k: nat, o: OutPoint) {
    && At(chain, g, j) && Precedes(g, j, h, k) && Writes(Entry(g, chain[g].vtx[j]), o)
    && forall x: nat, y: nat | At(chain, x, y) && Precedes(g, j, x, y) && Precedes(x, y, h, k) ::
         chain[x].vtx[y].txid != o.hash && !Spends(Entry(x, chain[x].vtx[y]), o)
  }

  // ---------------------------------------------------------------- places in the history

  /** Where the block at height h begins in the history. */
  ghost function Start(chain: seq<Block>, h: nat): nat
    requires h <= |chain|
  {
    |ChainLog(chain[..h])|
  }

  lemma LogStep(chain: seq<Block>, h: nat)
    requires 1 <= h < |chain|
    ensures ChainLog(chain[..h + 1]) == ChainLog(chain[..h]) + Entries(chain[h].vtx, h)
  {
    assert chain[..h + 1][..h] == chain[..h];
  }

  lemma {:induction false} LogPrefix(chain: seq<Block>, h: nat, n: nat)
    requires 1 <= h <= n <= |chain|
    ensures ChainLog(chain[..h]) <= ChainLog(chain[..n])
    decreases n - h
  {
    hide ChainLog;
    if h < n {
      LogStep(chain, h);
      LogPrefix(chain, h + 1, n);
    }
  }

  /** The transaction at (h, k) is in the history at its place, after the history before it. */
  lemma Place(chain: seq<Block>, h: nat, k: nat)
    requires At(chain, h, k)
    ensures var e := Start(chain, h) + k;
            && e < |ChainLog(chain)| && ChainLog(chain)[e] == Entry(h, chain[h].vtx[k])
            && Upto(ChainLog(chain[..h]), chain[h].vtx, h, k) == ChainLog(chain)[..e]
  {
    hide ChainLog;
    LogStep(chain, h);
    LogPrefix(chain, h + 1, |chain|);
    assert chain[..|chain|] == chain;
    var before, own := ChainLog(chain[..h]), Entries(chain[h].vtx, h);
    assert Entries(chain[h].vtx[..k], h) == own[..k];
    assert (before + own)[..|before| + k] == before + own[..k];
    SamePrefix(before + own, ChainLog(chain), |before| + k);
  }

  lemma SamePrefix(s: Log, t: Log, n: nat)
    requires s <= t && n <= |s|
    ensures s[..n] == t[..n]
  {
  }

  lemma {:induction false} Places(chain: seq<Block>, n: nat, e: nat) returns (h: nat, k: nat)
    requires 1 <= n <= |chain| && e < |ChainLog(chain[..n])|
    ensures At(chain, h, k) && h < n && e == Start(chain, h) + k
  {
    if n == 1 {
      assert false;
    } else {
      LogStep(chain, n - 1);
      if e < Start(chain, n - 1) {
        h, k := Places(chain, n - 1, e);
      } else {
        h, k := n - 1, e - Start(chain, n - 1);
      }
    }
  }

  lemma InOrder(chain: seq<Block>, g: nat, j: nat, h: nat, k: nat)
    requires At(chain, g, j) && At(chain, h, k)
    ensures Precedes(g, j, h, k) <==> Start(chain, g) + j < Start(chain, h) + k
  {
    hide ChainLog;
    if g < h {
      LogStep(chain, g);
      LogPrefix(chain, g + 1, h);
    } else if h < g {
      LogStep(chain, h);
      LogPrefix(chain, h + 1, g);
    }
  }

  ghost function HistoryBefore(chain: seq<Block>, h: nat, k: nat): Log
    requires At(chain, h, k)
  {
    Upto(ChainLog(chain[..h]), chain[h].vtx, h, k)
  }

  /** A place before (h, k) is one in the history before it, with the same transaction. */
  lemma PlaceBefore(chain: seq<Block>, g: nat, j: nat, h: nat, k: nat)
    requires At(chain, g, j) && At(chain, h, k) && Precedes(g, j, h, k)
    ensures var e, log := Start(chain, g) + j, HistoryBefore(chain, h, k);
            |log| == Start(chain, h) + k && e < |log| && log[e] == Entry(g, chain[g].vtx[j])
  {
    hide ChainLog;
    Place(chain, g, j);
    Place(chain, h, k);
    InOrder(chain, g, j, h, k);
  }

  lemma PlacesBefore(chain: seq<Block>, h: nat, k: nat, e: nat) returns (g: nat, j: nat)
    requires At(chain, h, k) && e < |HistoryBefore(chain, h, k)|
    ensures At(chain, g, j) && Precedes(g, j, h, k) && e == Start(chain, g) + j
    ensures HistoryBefore(chain, h, k)[e] == Entry(g, chain[g].vtx[j])
  {
    hide ChainLog;
    Place(chain, h, k);
    assert chain[..|chain|] == chain;
    g, j := Places(chain, |chain|, e);
    InOrder(chain, g, j, h, k);
    Place(chain, g, j);
  }

  /** Being made and still open is the same in the blocks and in the history. */
  lemma MadeIsOpen(chain: seq<Block>, g: nat, j: nat, h: nat, k: nat, o: OutPoint)
    requires At(chain, g, j) && At(chain, h, k) && Precedes(g, j, h, k)
    ensures Made(chain, g, j, h, k, o) <==> Open(HistoryBefore(chain, h, k), Start(chain, g) + j, o)
  {
    hide Start, HistoryBefore, Writes, Spends;
    var log, c := HistoryBefore(chain, h, k), Start(chain, g) + j;
    PlaceBefore(chain, g, j, h, k);
    if Made(chain, g, j, h, k, o) {
      forall d | c < d < |log| ensures log[d].tx.txid != o.hash && !Spends(log[d], o) {
        var x, y := PlacesBefore(chain, h, k, d);
        InOrder(chain, g, j, x, y);
        hide At, Precedes;
      }
    }
    if Open(log, c, o) {
      forall x: nat, y: nat | At(chain, x, y) && Precedes(g, j, x, y) && Precedes(x, y, h, k)
        ensures chain[x].vtx[y].txid != o.hash && !Spends(Entry(x, chain[x].vtx[y]), o)
      {
        PlaceBefore(chain, x, y, h, k);
        InOrder(chain, g, j, x, y);
        assert log[Start(chain, x) + y] == Entry(x, chain[x].vtx[y]);
      }
    }
  }

  // ---------------------------------------------------------------- the laws

  /** A transaction of a chain that replays obeys the rules after the history before it. */
  lemma LawAt(p: Params, chain: seq<Block>, h: nat, k: nat)
    requires SubsidyParams(p) && Replay(p, chain).Some? && At(chain, h, k)
    ensures Lawful(chain[h].vtx[k])
    ensures chain[h].vtx[k].IsCoinBase() || Accepts(p, HistoryBefore(chain, h, k), chain[h].vtx[k], h)
  {
    hide Replay, Accepts, Lawful;
    ReplaysExactly(p, chain);
    assert BlockLawful(p, ChainLog(chain[..h]), chain[h].vtx, h);
  }

  /** Every input was made by one transaction before, and is spent in keeping with its age and kind: an output
      of a coinbase only after the maturity, and if protected, outside the fork range, to no transparent output;
      after the burn height no output from before the end of the fork range. */
  lemma InputLaw(p: Params, chain: seq<Block>, h: nat, k: nat, i: nat)
    requires SubsidyParams(p) && Replay(p, chain).Some? && At(chain, h, k)
    requires !chain[h].vtx[k].IsCoinBase() && i < |chain[h].vtx[k].vin|
    ensures exists g: nat, j: nat :: Made(chain, g, j, h, k, chain[h].vtx[k].vin[i])
    ensures forall g: nat, j: nat | Made(chain, g, j, h, k, chain[h].vtx[k].vin[i]) ::
              && (chain[g].vtx[j].IsCoinBase() ==> h - g >= p.coinbaseMaturity)
              && (chain[g].vtx[j].IsCoinBase() && p.coinbaseProtected && !p.IsForkBlock(g) ==> chain[h].vtx[k].vout == [])
              && (p.unmovedBurnHeight != 0 && h > p.unmovedBurnHeight ==> g > p.forkStartHeight + p.forkHeightRange)
  {
    hide Replay, Made, HistoryBefore, Lawful, RevealsNew, Enters, Leaves, Open;
    LawAt(p, chain, h, k);
    var o, log := chain[h].vtx[k].vin[i], HistoryBefore(chain, h, k);
    assert IsOpen(log, o);
    var c := Maker(log, o);
    OpenInside(log);
    var g, j := PlacesBefore(chain, h, k, c);
    MadeIsOpen(chain, g, j, h, k, o);
    forall g': nat, j': nat | Made(chain, g', j', h, k, o)
      ensures g' == g && At(chain, g', j') && chain[g].vtx[j'] == chain[g].vtx[j]
    {
      OnlyMaker(chain, g', j', h, k, o, c);
    }
  }

  /** The maker of an output is the one transaction that the history names. */
  lemma OnlyMaker(chain: seq<Block>, g: nat, j: nat, h: nat, k: nat, o: OutPoint, c: nat)
    requires At(chain, h, k) && Made(chain, g, j, h, k, o) && Open(HistoryBefore(chain, h, k), c, o)
    ensures At(chain, g, j) && c == Start(chain, g) + j && c < |HistoryBefore(chain, h, k)|
    ensures HistoryBefore(chain, h, k)[c] == Entry(g, chain[g].vtx[j])
  {
    hide Start, HistoryBefore;
    MadeIsOpen(chain, g, j, h, k, o);
    OpenUnique(HistoryBefore(chain, h, k), c, Start(chain, g) + j, o);
    PlaceBefore(chain, g, j, h, k);
  }

  /** An outpoint is spent again only if a transaction with its id came between, from the first spender on. */
  lemma SpentOnce(p: Params, chain: seq<Block>, h: nat, k: nat, h': nat, k': nat, o: OutPoint)
    requires SubsidyParams(p) && Replay(p, chain).Some? && At(chain, h, k) && At(chain, h', k') && Precedes(h, k, h', k')
    requires Spends(Entry(h, chain[h].vtx[k]), o) && Spends(Entry(h', chain[h'].vtx[k']), o)
    ensures exists g: nat, j: nat :: At(chain, g, j) && !Precedes(g, j, h, k) && Precedes(g, j, h', k') && chain[g].vtx[j].txid == o.hash
  {
    hide Replay;
    var i :| 0 <= i < |chain[h'].vtx[k'].vin| && chain[h'].vtx[k'].vin[i] == o;
    InputLaw(p, chain, h', k', i);
    var g: nat, j: nat :| Made(chain, g, j, h', k', o);
    assert !Precedes(g, j, h, k);
  }

  /** A nullifier is revealed in one place of the whole chain only. */
  lemma RevealedOnce(p: Params, chain: seq<Block>, h: nat, k: nat, a: nat, b: nat, h': nat, k': nat, a': nat, b': nat, nf: Hash)
    requires SubsidyParams(p) && Replay(p, chain).Some? && At(chain, h, k) && At(chain, h', k')
    requires RevealsAt(chain[h].vtx[k].vjoinsplit, a, b, nf) && RevealsAt(chain[h'].vtx[k'].vjoinsplit, a', b', nf)
    ensures h == h' && k == k' && a == a' && b == b'
  {
    hide Replay, HistoryBefore, SpendsOpen, Enters, Leaves;
    LawAt(p, chain, h, k);
    LawAt(p, chain, h', k');
    if Precedes(h, k, h', k') {
      NotAgain(p, chain, h, k, h', k', nf);
      assert false;
    } else if Precedes(h', k', h, k) {
      NotAgain(p, chain, h', k', h, k, nf);
      assert false;
    }
  }

  lemma NotAgain(p: Params, chain: seq<Block>, h: nat, k: nat, h': nat, k': nat, nf: Hash)
    requires SubsidyParams(p) && Replay(p, chain).Some? && At(chain, h, k) && At(chain, h', k') && Precedes(h, k, h', k')
    requires Reveals(chain[h].vtx[k].vjoinsplit, nf)
    ensures !Reveals(chain[h'].vtx[k'].vjoinsplit, nf)
  {
    hide Replay, HistoryBefore, SpendsOpen, Enters, Leaves, Start;
    LawAt(p, chain, h', k');
    PlaceBefore(chain, h, k, h', k');
    assert Reveal(HistoryBefore(chain, h', k'), Start(chain, h) + k, nf);
  }

  /** A transaction that is not a coinbase pays to outputs and to the shielded pool, joinsplit by joinsplit,
      no more than its inputs were made with and its joinsplits take from the pool. */
  lemma PaysItsWay(p: Params, chain: seq<Block>, h: nat, k: nat, brought: seq<int>)
    requires SubsidyParams(p) && Replay(p, chain).Some? && At(chain, h, k) && !chain[h].vtx[k].IsCoinBase()
    requires |brought| == |chain[h].vtx[k].vin|
    requires forall i | 0 <= i < |brought| ::
               exists g: nat, j: nat :: MadeWith(chain, g, j, h, k, chain[h].vtx[k].vin[i], brought[i])
    ensures var tx := chain[h].vtx[k];
            Sum(OutValues(tx.vout)) + Sum(OldValues(tx.vjoinsplit)) <= Sum(brought) + Sum(NewValues(tx.vjoinsplit))
  {
    hide Replay, HistoryBefore, RevealsNew, MadeWith, Lawful;
    LawAt(p, chain, h, k);
    var log, tx := HistoryBefore(chain, h, k), chain[h].vtx[k];
    forall i | 0 <= i < |brought| ensures brought[i] == Brings(log, tx.vin[i]) {
      var g: nat, j: nat :| MadeWith(chain, g, j, h, k, tx.vin[i], brought[i]);
      BringsMade(chain, g, j, h, k, tx.vin[i], brought[i]);
    }
    assert brought == InValues(log, tx.vin);
  }

  /** The output was made by that transaction, with that value. */
  ghost predicate MadeWith(chain: seq<Block>, g: nat, j: nat, h: nat, k: nat, o: OutPoint, v: int) {
    Made(chain, g, j, h, k, o) && chain[g].vtx[j].vout[o.n].nValue == v
  }

  lemma BringsMade(chain: seq<Block>, g: nat, j: nat, h: nat, k: nat, o: OutPoint, v: int)
    requires At(chain, h, k) && MadeWith(chain, g, j, h, k, o, v)
    ensures Brings(HistoryBefore(chain, h, k), o) == v
  {
    hide HistoryBefore;
    MadeIsOpen(chain, g, j, h, k, o);
    OnlyMaker(chain, g, j, h, k, o, Maker(HistoryBefore(chain, h, k), o));
  }
}
