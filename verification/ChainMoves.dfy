/** What pruning, dropping a chain, a failed block and a new tip leave of the index's invariants. */
module ChainMoves {
  import opened BlockTree
  import opened ActiveChain
  import opened Linking
  import opened MostWork
  import opened Candidates

  const MIN_BLOCKS_TO_KEEP: nat := 288

  /** Every block adds work to its parent's. */
  ghost predicate WorkOk(t: Nodes)
    requires Linked(t)
  {
    forall x | x in t && t[x].pprev.To? :: assert NodeLinked(t, x); t[t[x].pprev.id].nChainWork < t[x].nChainWork
  }

  // ---------------------------------------------------------------- pruning a block

  /** A block file that may go holds no block close to the tip; entries without data count as part of file 0. */
  predicate CanPrune(t: Nodes, v: seq<Link>, file: set<Id>) {
    v != [] && forall x | x in file && x in t && t[x].haveData :: t[x].nHeight + MIN_BLOCKS_TO_KEEP <= |v| - 1
  }

  /** The pairs without one. */
  function Erased(unlinked: Pairs, p: Id, x: Id): (r: Pairs)
    ensures forall q, c :: (q, c) in r <==> (q, c) in unlinked && (q, c) != (p, x)
  {
    if unlinked == [] then []
    else (if unlinked[0] == (p, x) then [] else [unlinked[0]]) + Erased(unlinked[1..], p, x)
  }

  function Pruned(n: Node): Node { n.(haveData := false) }

  /** The map after a block is pruned: it no longer waits for its parent. */
  function NotWaiting(t: Nodes, unlinked: Pairs, x: Id): Pairs
    requires x in t
  {
    if t[x].pprev.To? then Erased(unlinked, t[x].pprev.id, x) else unlinked
  }

  lemma PruneWaits(t: Nodes, unlinked: Pairs, x: Id, y: Id)
    requires Linked(t) && x in t && y in t && CountOk(t, y) && Waits(t, unlinked, [], y)
    ensures Linked(t[x := Pruned(t[x])])
    ensures CountOk(t[x := Pruned(t[x])], y) && Waits(t[x := Pruned(t[x])], NotWaiting(t, unlinked, x), [], y)
  {
    SetLinked(t, x, Pruned(t[x]));
    if HasFailed(t, y) {
      FailedStays(t, t[x := Pruned(t[x])], y);
    }
  }

  lemma PrunePair(t: Nodes, v: seq<Link>, unlinked: Pairs, x: Id, p: Id, c: Id)
    requires x in t && PairOk(t, v, unlinked, [], p, c) && (p, c) in NotWaiting(t, unlinked, x)
    ensures PairOk(t[x := Pruned(t[x])], v, NotWaiting(t, unlinked, x), [], p, c)
  {
    assert c != x;
  }

  lemma PruneKeeps(t: Nodes, v: seq<Link>, unlinked: Pairs, x: Id)
    requires Linked(t) && Settling(t, v, unlinked, []) && x in t && !IsTip(v, x)
    ensures Linked(t[x := Pruned(t[x])]) && Settling(t[x := Pruned(t[x])], v, NotWaiting(t, unlinked, x), [])
  {
    SetLinked(t, x, Pruned(t[x]));
    hide Linked, CountOk, Waits, PairOk;
    var t', u' := t[x := Pruned(t[x])], NotWaiting(t, unlinked, x);
    forall y | y in t' ensures CountOk(t', y) && Waits(t', u', [], y) {
      PruneWaits(t, unlinked, x, y);
    }
    forall p, c | (p, c) in u' ensures PairOk(t', v, u', [], p, c) {
      PrunePair(t, v, unlinked, x, p, c);
    }
    TipStays(t, v, x, Pruned(t[x]));
  }

  /** A pruned block may stay a candidate; the chains above it stay offered or waiting. */
  lemma PruneOffers(t: Nodes, v: seq<Link>, unlinked: Pairs, candidates: set<Id>, x: Id)
    requires Linked(t) && ChainOk(t, v) && Settling(t, v, unlinked, []) && Offers(t, v, unlinked, candidates, []) && x in t && !IsTip(v, x)
    ensures Linked(t[x := Pruned(t[x])]) && Offers(t[x := Pruned(t[x])], v, NotWaiting(t, unlinked, x), candidates, [])
  {
    var t', u' := t[x := Pruned(t[x])], NotWaiting(t, unlinked, x);
    SetLinked(t, x, Pruned(t[x]));
    assert TipOk(t, v);
    assert Eligible(t', v, x) ==> Eligible(t, v, x) && !Waiting(t, unlinked, [], x) by {
      PrunedEligible(t, v, unlinked, x);
    }
    assert Ahead(t, v, x) ==> Ahead(t', v, x);
    hide Linked, Ahead, Eligible, Settling, ChainOk;
    forall y ensures Offered(t', v, u', candidates, [], y) {
      assert Offered(t, v, unlinked, candidates, [], y);
      if y in t && y != x {
        OthersKeep(t, v, x, Pruned(t[x]), y);
      }
    }
  }

  lemma PrunedEligible(t: Nodes, v: seq<Link>, unlinked: Pairs, x: Id)
    requires Linked(t) && ChainOk(t, v) && Settling(t, v, unlinked, []) && x in t && !IsTip(v, x)
    ensures var t' := t[x := Pruned(t[x])];
            Linked(t') && (Eligible(t', v, x) ==> Eligible(t, v, x) && !Waiting(t, unlinked, [], x))
  {
    var t' := t[x := Pruned(t[x])];
    SetLinked(t, x, Pruned(t[x]));
    if Eligible(t', v, x) {
      UnfailedBefore(t, t', v, x);
      assert t[x].pprev.To? && (t[x].pprev.id, x) in unlinked ==> PairOk(t, v, unlinked, [], t[x].pprev.id, x);
      if t[x].pprev.To? {
        ParentContained(t, v, x);
      }
    }
  }

  // ---------------------------------------------------------------- dropping a chain

  lemma MarkedWaits(t: Nodes, s: set<Id>, u: Pairs, u': Pairs, y: Id)
    requires Linked(t) && y in t && CountOk(t, y) && Waits(t, u, [], y) && forall pr | pr in u :: pr in u'
    ensures Linked(Marked(t, s)) && CountOk(Marked(t, s), y) && Waits(Marked(t, s), u', [], y)
  {
    MarksLinked(t, Marked(t, s));
    assert NodeLinked(t, y) && NodeLinked(Marked(t, s), y);
    if HasFailed(t, y) {
      FailedStays(t, Marked(t, s), y);
    }
  }

  lemma MarkedPair(t: Nodes, v: seq<Link>, s: set<Id>, u: Pairs, u': Pairs, p: Id, c: Id)
    requires PairOk(t, v, u, [], p, c) && forall pr | pr in u :: pr in u'
    ensures PairOk(Marked(t, s), v, u', [], p, c)
  {
  }

  /** A block that was passed waits for its parent, which is the missing block or was passed as well. */
  lemma PassedPair(t: Nodes, v: seq<Link>, u: Pairs, best: Id, stop: Id, p: Id, z: Id)
    requires Linked(t) && best in t && IsAncestor(t, stop, best) && Walked(t, v, best, t[stop].nHeight)
    requires !Contains(t, v, stop) && !t[stop].haveData && (p, z) in DropPairs(t, best, t[stop].nHeight)
    ensures PairOk(Marked(t, {}), v, u + DropPairs(t, best, t[stop].nHeight), [], p, z)
  {
    hide Ancestor, DropPairs, Linked;
    var h := t[stop].nHeight;
    DropPairsExactly(t, best, h, p, z);
    var k :| h < k <= t[best].nHeight && z == Ancestor(t, best, k);
    assert Good(t, v, z);
    PathStep(t, best, k);
    assert p == Ancestor(t, best, k - 1);
    if k - 1 > h {
      assert Good(t, v, p);
      ParentHeight(t, p);
      DropPairsExactly(t, best, h, t[p].pprev.id, p);
    } else {
      assert p == stop by {
        assert Ancestor(t, best, h) == stop;
      }
    }
  }

  lemma RemovedKeeps(t: Nodes, v: seq<Link>, u: Pairs, c: set<Id>, best: Id, stop: Id, t': Nodes, u': Pairs, c': set<Id>)
    requires Linked(t) && Settling(t, v, u, []) && best in t && IsAncestor(t, stop, best) && Walked(t, v, best, t[stop].nHeight)
    requires !Contains(t, v, stop) && Bad(t[stop]) && Removed(t, u, c - {stop}, best, t[stop].nHeight, t[stop].failed, t', u', c')
    ensures Linked(t') && Settling(t', v, u', [])
  {
    var s := if t[stop].failed then Passed(t, best, t[stop].nHeight) else {};
    MarksLinked(t, Marked(t, s));
    hide Linked, CountOk, Waits, PairOk, Passed, DropPairs, IsAncestor, Walked;
    forall y | y in t' ensures CountOk(t', y) && Waits(t', u', [], y) {
      MarkedWaits(t, s, u, u', y);
    }
    forall p, z | (p, z) in u' ensures PairOk(t', v, u', [], p, z) {
      if (p, z) in u {
        MarkedPair(t, v, s, u, u', p, z);
      } else {
        PassedPair(t, v, u, best, stop, p, z);
      }
    }
  }

  /** Marks change neither the order nor which blocks are ahead. */
  lemma MarkedEligible(t: Nodes, v: seq<Link>, s: set<Id>, y: Id)
    requires Linked(t) && TipOk(t, v) && y in t
    ensures Linked(Marked(t, s)) && (Ahead(t, v, y) ==> Ahead(Marked(t, s), v, y))
    ensures Eligible(Marked(t, s), v, y) ==> Eligible(t, v, y) && (y !in s || Contains(t, v, y))
  {
    MarksLinked(t, Marked(t, s));
    if Unfailed(Marked(t, s), v, y) {
      UnfailedBefore(t, Marked(t, s), v, y);
    }
  }

  /** What leaves the set was passed: it is marked now or waits for the missing block. */
  lemma RemovedOffers(t: Nodes, v: seq<Link>, u: Pairs, c: set<Id>, best: Id, stop: Id, t': Nodes, u': Pairs, c': set<Id>)
    requires Linked(t) && Settling(t, v, u, []) && Offers(t, v, u, c, []) && best in t && IsAncestor(t, stop, best)
    requires Walked(t, v, best, t[stop].nHeight) && !Contains(t, v, stop) && Bad(t[stop])
    requires Removed(t, u, c - {stop}, best, t[stop].nHeight, t[stop].failed, t', u', c')
    ensures Linked(t') && Offers(t', v, u', c', [])
  {
    var p := Passed(t, best, t[stop].nHeight);
    var s := if t[stop].failed then p else {};
    MarksLinked(t, Marked(t, s));
    assert TipOk(t, v);
    forall y ensures Offered(t', v, u', c', [], y) {
      hide Linked, DropPairs, Walked, Ahead, IsAncestor, Settling;
      assert Offered(t, v, u, c, [], y);
      if y in t {
        MarkedEligible(t, v, s, y);
        if y in p {
          PassedGood(t, v, best, stop, y);
          DropPairsExactly(t, best, t[stop].nHeight, t[y].pprev.id, y);
        }
        if y == stop {
          BadNotEligible(t', v, stop);
        }
      }
    }
  }

  lemma PassedGood(t: Nodes, v: seq<Link>, best: Id, stop: Id, y: Id)
    requires Linked(t) && best in t && IsAncestor(t, stop, best) && Walked(t, v, best, t[stop].nHeight) && y in Passed(t, best, t[stop].nHeight)
    ensures y in t && !Contains(t, v, y) && t[y].pprev.To?
  {
    hide Ancestor;
    var k :| t[stop].nHeight < k <= t[best].nHeight && y == Ancestor(t, best, k);
    assert Good(t, v, y);
    ParentHeight(t, y);
  }

  lemma BadNotEligible(t: Nodes, v: seq<Link>, x: Id)
    requires Linked(t) && x in t && Bad(t[x]) && !Contains(t, v, x)
    ensures !Eligible(t, v, x)
  {
  }

  // ---------------------------------------------------------------- a block found invalid

  lemma FailedKeeps(t: Nodes, v: seq<Link>, u: Pairs, c: set<Id>, x: Id)
    requires Linked(t) && Settling(t, v, u, []) && Offers(t, v, u, c, []) && x in t && !Contains(t, v, x)
    ensures Linked(Marked(t, {x})) && Settling(Marked(t, {x}), v, u, []) && Offers(Marked(t, {x}), v, u, c - {x}, [])
  {
    MarksLinked(t, Marked(t, {x}));
    hide Linked, CountOk, Waits, PairOk, Eligible, Ahead;
    forall y | y in t ensures CountOk(Marked(t, {x}), y) && Waits(Marked(t, {x}), u, [], y) {
      MarkedWaits(t, {x}, u, u, y);
    }
    forall p, z | (p, z) in u ensures PairOk(Marked(t, {x}), v, u, [], p, z) {
      MarkedPair(t, v, {x}, u, u, p, z);
    }
    forall y ensures Offered(Marked(t, {x}), v, u, c - {x}, [], y) {
      assert Offered(t, v, u, c, [], y);
      if y in t {
        MarkedEligible(t, v, {x}, y);
      }
    }
  }

  // ---------------------------------------------------------------- a new tip

  /** The vector is the path to x. */
  ghost predicate PathTo(t: Nodes, v: seq<Link>, x: Id)
    requires Linked(t) && x in t
  {
    |v| == t[x].nHeight + 1 && forall i | 0 <= i < |v| :: v[i] == To(Ancestor(t, x, i))
  }

  lemma PathTip(t: Nodes, v: seq<Link>, x: Id)
    requires Linked(t) && x in t && PathTo(t, v, x)
    ensures IsTip(v, x)
  {
    AncestorTop(t, x);
    assert v[t[x].nHeight] == To(Ancestor(t, x, t[x].nHeight));
  }

  lemma {:induction false} AncestorUsable(t: Nodes, v: seq<Link>, x: Id, h: nat)
    requires Linked(t) && ChainOk(t, v) && (forall z | z in t :: CountOk(t, z))
    requires x in t && Usable(t, v, x) && t[x].nChainTx > 0 && h <= t[x].nHeight
    ensures Usable(t, v, Ancestor(t, x, h)) && t[Ancestor(t, x, h)].nChainTx > 0
    decreases t[x].nHeight
  {
    assert NodeLinked(t, x) && CountOk(t, x);
    if h < t[x].nHeight {
      if Contains(t, v, x) {
        ParentContained(t, v, x);
      }
      AncestorUsable(t, v, t[x].pprev.id, h);
    }
  }

  /** Every block on the new path could be used under the old chain. */
  lemma OnNewPath(t: Nodes, v: seq<Link>, v': seq<Link>, x: Id, y: Id)
    requires Linked(t) && ChainOk(t, v) && (forall z | z in t :: CountOk(t, z))
    requires x in t && Usable(t, v, x) && t[x].nChainTx > 0 && PathTo(t, v', x) && y in t && Contains(t, v', y)
    ensures Usable(t, v, y) && t[y].nChainTx > 0
  {
    AncestorUsable(t, v, x, t[y].nHeight);
  }

  lemma {:induction false} UnfailedOnOld(t: Nodes, v: seq<Link>, v': seq<Link>, x: Id, y: Id)
    requires Linked(t) && ChainOk(t, v) && (forall z | z in t :: CountOk(t, z))
    requires x in t && Usable(t, v, x) && t[x].nChainTx > 0 && PathTo(t, v', x) && y in t && Unfailed(t, v', y)
    ensures Unfailed(t, v, y)
    decreases t[y].nHeight
  {
    assert NodeLinked(t, y);
    if Contains(t, v', y) {
      OnNewPath(t, v, v', x, y);
      UsableUnfailed(t, v, y);
    } else if t[y].pprev.To? {
      UnfailedOnOld(t, v, v', x, t[y].pprev.id);
    }
  }

  /** An ancestor has less work. */
  lemma {:induction false} AncestorWork(t: Nodes, x: Id, h: nat)
    requires Linked(t) && WorkOk(t) && x in t && h <= t[x].nHeight
    ensures if h == t[x].nHeight then Ancestor(t, x, h) == x else t[Ancestor(t, x, h)].nChainWork < t[x].nChainWork
    decreases t[x].nHeight
  {
    assert NodeLinked(t, x);
    if h < t[x].nHeight {
      AncestorWork(t, t[x].pprev.id, h);
    }
  }

  /** The data of a usable candidate is at hand, even if the active chain has been pruned. */
  lemma CandidateStored(t: Nodes, v: seq<Link>, x: Id)
    requires Linked(t) && ChainOk(t, v) && WorkOk(t) && TipOk(t, v) && x in t && Usable(t, v, x) && Ahead(t, v, x)
    ensures t[x].haveData
  {
    if Contains(t, v, x) {
      SlotIsAncestor(t, v, |v| - 1, t[x].nHeight);
      AncestorWork(t, v[|v| - 1].id, t[x].nHeight);
    }
  }

  lemma NewTipPair(t: Nodes, v: seq<Link>, v': seq<Link>, u: Pairs, x: Id, p: Id, z: Id)
    requires Linked(t) && ChainOk(t, v) && Settling(t, v, u, [])
    requires x in t && Usable(t, v, x) && t[x].nChainTx > 0 && PathTo(t, v', x) && (p, z) in u
    ensures PairOk(t, v', u, [], p, z)
  {
    assert PairOk(t, v, u, [], p, z);
    if Contains(t, v', p) {
      OnNewPath(t, v, v', x, p);
      NoneWaitsForUsable(t, v, u, p, z);
    }
  }

  /** A usable, stored and counted block as the new tip. */
  lemma NewTipKeeps(t: Nodes, v: seq<Link>, v': seq<Link>, u: Pairs, x: Id)
    requires Linked(t) && ChainOk(t, v) && Settling(t, v, u, [])
    requires x in t && t[x].nChainTx > 0 && t[x].haveData && Usable(t, v, x) && PathTo(t, v', x)
    ensures Settling(t, v', u, [])
  {
    PathTip(t, v', x);
    forall p, z | (p, z) in u ensures PairOk(t, v', u, [], p, z) {
      NewTipPair(t, v, v', u, x, p, z);
    }
  }

  lemma NewTipEligible(t: Nodes, v: seq<Link>, v': seq<Link>, x: Id, y: Id)
    requires Linked(t) && ChainOk(t, v) && TipOk(t, v) && (forall z | z in t :: CountOk(t, z))
    requires x in t && t[x].nChainTx > 0 && Usable(t, v, x) && Ahead(t, v, x) && PathTo(t, v', x) && y in t && Eligible(t, v', y)
    ensures Eligible(t, v, y) && !Worse(t, y, x)
  {
    PathTip(t, v', x);
    UnfailedOnOld(t, v, v', x, y);
    if Contains(t, v', y) {
      OnNewPath(t, v, v', x, y);
      UsableUnfailed(t, v, y);
    }
    if v != [] {
      WorseIsOrder(t, y, v[|v| - 1].id, x);
    }
  }

  /** After the tip has moved to the best candidate and the candidates worse than it are gone, none is missing. */
  lemma NewTipOffers(t: Nodes, v: seq<Link>, v': seq<Link>, u: Pairs, c: set<Id>, c': set<Id>, x: Id)
    requires Linked(t) && ChainOk(t, v) && Settling(t, v, u, []) && Offers(t, v, u, c, [])
    requires x in t && x in c && t[x].nChainTx > 0 && Usable(t, v, x) && PathTo(t, v', x)
    requires forall y | y in c && y != x :: y in t && (Worse(t, y, x) || t[y].nChainWork > t[x].nChainWork)
    requires forall y :: y in c' <==> y in c && y in t && !Worse(t, y, x)
    ensures Offers(t, v', u, c', []) && x in c'
  {
    PathTip(t, v', x);
    WorseIsOrder(t, x, x, x);
    assert TipOk(t, v) && forall z | z in t :: CountOk(t, z);
    assert Offered(t, v, u, c, [], x);
    hide Linked, ChainOk, Settling, Eligible, PathTo;
    forall y ensures Offered(t, v', u, c', [], y) {
      assert Offered(t, v, u, c, [], y);
      if y in t && Eligible(t, v', y) {
        NewTipEligible(t, v, v', x, y);
      }
    }
  }

  // ---------------------------------------------------------------- the tips in between

  /** What is worse than a block is worse than a block with more work. */
  lemma WorseRises(t: Nodes, y: Id, a: Id, b: Id)
    requires y in t && a in t && b in t && Worse(t, y, a) && t[a].nChainWork < t[b].nChainWork
    ensures Worse(t, y, b)
  {
  }

  lemma {:induction false} UsableOnOld(t: Nodes, v: seq<Link>, v': seq<Link>, x: Id, y: Id)
    requires Linked(t) && ChainOk(t, v) && (forall z | z in t :: CountOk(t, z))
    requires x in t && Usable(t, v, x) && t[x].nChainTx > 0 && PathTo(t, v', x) && y in t && Usable(t, v', y)
    ensures Usable(t, v, y)
    decreases t[y].nHeight
  {
    assert NodeLinked(t, y);
    if Contains(t, v', y) {
      OnNewPath(t, v, v', x, y);
    } else if t[y].pprev.To? {
      UsableOnOld(t, v, v', x, t[y].pprev.id);
    }
  }

  /** The candidates at a tip on the way: those not worse than it. */
  ghost predicate NoWorse(t: Nodes, c: set<Id>, c': set<Id>, x: Id)
    requires x in t
  {
    forall y :: y in c' <==> y in c && y in t && !Worse(t, y, x)
  }

  lemma NoWorseNext(t: Nodes, c: set<Id>, c1: set<Id>, c2: set<Id>, a: Id, b: Id)
    requires a in t && b in t && t[a].nChainWork < t[b].nChainWork && NoWorse(t, c, c1, a) && NoWorse(t, c1, c2, b)
    ensures NoWorse(t, c, c2, b)
  {
    forall y ensures y in c2 <==> y in c && y in t && !Worse(t, y, b) {
      if y in c && y in t && Worse(t, y, a) {
        WorseRises(t, y, a, b);
      }
    }
  }
}
