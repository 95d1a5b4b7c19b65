/** Which blocks the candidate set must hold: every counted and usable block that is at least as good as the tip.
    Those that cannot be used for want of a block come back when it does. */
module Candidates {
  import opened BlockTree
  import opened ActiveChain
  import opened Linking
  import opened MostWork

  /** At least as good as the tip of the active chain. */
  ghost predicate AsGood(t: Nodes, v: seq<Link>, x: Id)
    requires x in t
  {
    v == [] || (v[|v| - 1].To? && v[|v| - 1].id in t && !Worse(t, x, v[|v| - 1].id))
  }

  /** The tip itself, or a block with more work. */
  ghost predicate Ahead(t: Nodes, v: seq<Link>, x: Id)
    requires x in t
  {
    v == [] || IsTip(v, x) || (v[|v| - 1].To? && v[|v| - 1].id in t && t[x].nChainWork > t[v[|v| - 1].id].nChainWork)
  }

  /** A block that belongs in the set unless it waits for another. */
  ghost predicate Eligible(t: Nodes, v: seq<Link>, x: Id)
    requires Linked(t) && x in t
  {
    t[x].nChainTx > 0 && AsGood(t, v, x) && Unfailed(t, v, x) && (t[x].haveData || Contains(t, v, x))
  }

  ghost predicate Offered(t: Nodes, v: seq<Link>, unlinked: Pairs, candidates: set<Id>, queue: seq<Id>, x: Id)
    requires Linked(t)
  {
    && (x in candidates ==> x in t && t[x].nChainTx > 0 && Ahead(t, v, x))
    && (x in t && Eligible(t, v, x) ==> x in candidates || Waiting(t, unlinked, queue, x))
  }

  ghost predicate Offers(t: Nodes, v: seq<Link>, unlinked: Pairs, candidates: set<Id>, queue: seq<Id>)
    requires Linked(t)
  {
    forall x :: Offered(t, v, unlinked, candidates, queue, x)
  }

  lemma AheadIsAsGood(t: Nodes, v: seq<Link>, x: Id)
    requires TipOk(t, v) && x in t && Ahead(t, v, x)
    ensures AsGood(t, v, x)
  {
  }

  /** A path without failures had none while there were fewer marks. */
  lemma {:induction false} UnfailedBefore(t: Nodes, t': Nodes, v: seq<Link>, x: Id)
    requires Linked(t) && Linked(t') && SameShape(t, t') && (forall z | z in t && t[z].failed :: t'[z].failed) && x in t && Unfailed(t', v, x)
    ensures Unfailed(t, v, x)
    decreases t[x].nHeight
  {
    assert NodeLinked(t, x) && NodeLinked(t', x);
    if !Contains(t, v, x) && t[x].pprev.To? {
      UnfailedBefore(t, t', v, t[x].pprev.id);
    }
  }

  // ---------------------------------------------------------------- counting

  /** A sequence number newer than the tip's settles a tie in favour of the tip. */
  lemma NewerIsAhead(t: Nodes, v: seq<Link>, x: Id, n: Node)
    requires TipOk(t, v) && x in t && !IsTip(v, x) && n.nChainWork == t[x].nChainWork
    requires v != [] ==> t[v[|v| - 1].id].nSequenceId < n.nSequenceId
    ensures AsGood(t[x := n], v, x) ==> Ahead(t[x := n], v, x)
    ensures Ahead(t, v, x) ==> Ahead(t[x := n], v, x)
  {
  }

  /** What no one but x has to notice when the entry of x changes. */
  lemma OthersKeep(t: Nodes, v: seq<Link>, x: Id, n: Node, y: Id)
    requires Linked(t) && Linked(t[x := n]) && TipOk(t, v) && x in t && y in t && x != y && !IsTip(v, x)
    requires n.pprev == t[x].pprev && n.nHeight == t[x].nHeight && n.pskip == t[x].pskip && (t[x].failed ==> n.failed)
    ensures Ahead(t, v, y) ==> Ahead(t[x := n], v, y)
    ensures Eligible(t[x := n], v, y) ==> Eligible(t, v, y)
  {
    if Unfailed(t[x := n], v, y) {
      UnfailedBefore(t, t[x := n], v, y);
    }
  }

  /** A block that gets its count joins the candidates just when it is as good as the tip. */
  lemma OffersLink(t: Nodes, v: seq<Link>, unlinked: Pairs, candidates: set<Id>, queue: seq<Id>, n: Node)
    requires Linked(t) && queue != [] && Settling(t, v, unlinked, queue) && Offers(t, v, unlinked, candidates, queue)
    requires queue[0] in t && Counts(t, queue[0], n) && (v != [] ==> t[v[|v| - 1].id].nSequenceId < n.nSequenceId)
    ensures var t' := t[queue[0] := n];
            Linked(t') && Offers(t', v, Released(unlinked, queue[0]), candidates + (if AsGood(t', v, queue[0]) then {queue[0]} else {}),
                                 queue[1..] + Kids(unlinked, queue[0]))
  {
    var x := queue[0];
    CountsPositive(t, v, unlinked, queue, n);
    ReadyNotTip(t, v, x);
    assert TipOk(t, v);
    NewerIsAhead(t, v, x, n);
    var t' := t[x := n];
    var c' := candidates + (if AsGood(t', v, x) then {x} else {});
    hide Linked, Settling, Unfailed, Ahead, AsGood, Eligible, Waiting;
    forall y ensures Offered(t', v, Released(unlinked, x), c', queue[1..] + Kids(unlinked, x), y) {
      assert Offered(t, v, unlinked, candidates, queue, y);
      if y in t && y != x {
        OthersKeep(t, v, x, n, y);
        if Waiting(t, unlinked, queue, y) {
          LinkWaiting(t, unlinked, queue, n, y);
        }
      }
      if y == x {
        EligibleAsGood(t', v, x);
      }
    }
  }

  lemma EligibleAsGood(t: Nodes, v: seq<Link>, x: Id)
    requires Linked(t) && x in t
    ensures Eligible(t, v, x) ==> AsGood(t, v, x)
  {
  }

  /** An arrival takes no block out of the set's duty: the block itself is queued or has no count yet. */
  lemma OffersStore(t: Nodes, v: seq<Link>, unlinked: Pairs, unlinked': Pairs, candidates: set<Id>, queue: seq<Id>, x: Id, nTx: nat)
    requires Linked(t) && Offers(t, v, unlinked, candidates, []) && TipOk(t, v) && CanArrive(t, x, nTx)
    requires (forall pr | pr in unlinked :: pr in unlinked') && (x in queue || t[x].nChainTx == 0)
    ensures Linked(t[x := Stored(t[x], nTx)]) && Offers(t[x := Stored(t[x], nTx)], v, unlinked', candidates, queue)
  {
    var t' := t[x := Stored(t[x], nTx)];
    SetLinked(t, x, Stored(t[x], nTx));
    ArrivalNotTip(t, v, x, nTx);
    assert Ahead(t, v, x) ==> Ahead(t', v, x);
    hide Linked, Unfailed, Ahead, AsGood;
    forall y ensures Offered(t', v, unlinked', candidates, queue, y) {
      assert Offered(t, v, unlinked, candidates, [], y);
      if y in t && y != x {
        OthersKeep(t, v, x, Stored(t[x], nTx), y);
      }
    }
  }

  lemma OffersHeader(t: Nodes, t': Nodes, v: seq<Link>, unlinked: Pairs, candidates: set<Id>, x: Id)
    requires Linked(t) && Linked(t') && Grown(t, t', x) && t'[x].nChainTx == 0 && TipOk(t, v) && Offers(t, v, unlinked, candidates, [])
    ensures Offers(t', v, unlinked, candidates, [])
  {
    hide Linked, Unfailed;
    forall y ensures Offered(t', v, unlinked, candidates, [], y) {
      assert Offered(t, v, unlinked, candidates, [], y);
      if y in t && Unfailed(t', v, y) {
        UnfailedBefore(t, t', v, y);
      }
    }
  }

  // ---------------------------------------------------------------- what the set is good for

  /** Nothing waits for a block that can be used. */
  lemma {:induction false} NoneWaitsForUsable(t: Nodes, v: seq<Link>, unlinked: Pairs, p: Id, x: Id)
    requires Linked(t) && Settling(t, v, unlinked, []) && p in t && t[p].nChainTx > 0 && Usable(t, v, p)
    ensures (p, x) !in unlinked
    decreases t[p].nHeight
  {
    assert NodeLinked(t, p) && CountOk(t, p);
    if t[p].pprev.To? && !Contains(t, v, p) {
      NoneWaitsForUsable(t, v, unlinked, t[p].pprev.id, p);
    }
    assert (p, x) in unlinked ==> PairOk(t, v, unlinked, [], p, x);
  }

  lemma UsableNotWaiting(t: Nodes, v: seq<Link>, unlinked: Pairs, x: Id)
    requires Linked(t) && ChainOk(t, v) && Settling(t, v, unlinked, []) && x in t && t[x].nChainTx > 0 && Usable(t, v, x)
    ensures !Waiting(t, unlinked, [], x)
  {
    assert NodeLinked(t, x) && CountOk(t, x);
    if t[x].pprev.To? {
      if Contains(t, v, x) {
        ParentContained(t, v, x);
      }
      NoneWaitsForUsable(t, v, unlinked, t[x].pprev.id, x);
    }
  }

  /** Every counted and usable block that is as good as the tip is a candidate. */
  lemma UsableOffered(t: Nodes, v: seq<Link>, unlinked: Pairs, candidates: set<Id>, x: Id)
    requires Linked(t) && ChainOk(t, v) && Settling(t, v, unlinked, []) && Offers(t, v, unlinked, candidates, [])
    requires x in t && t[x].nChainTx > 0 && AsGood(t, v, x) && Usable(t, v, x)
    ensures x in candidates
  {
    UsableNotWaiting(t, v, unlinked, x);
    UsableUnfailed(t, v, x);
    assert Offered(t, v, unlinked, candidates, [], x);
  }

  /** The best usable candidate beats every counted and usable block there is. */
  lemma BestOfAll(t: Nodes, v: seq<Link>, unlinked: Pairs, candidates: set<Id>, best: Id)
    requires Linked(t) && ChainOk(t, v) && Settling(t, v, unlinked, []) && Offers(t, v, unlinked, candidates, [])
    requires best in candidates && best in t
    requires forall c | c in candidates && c != best :: c in t && (Usable(t, v, c) ==> Worse(t, c, best))
    ensures forall x | x in t && t[x].nChainTx > 0 && Usable(t, v, x) && x != best :: Worse(t, x, best)
  {
    assert TipOk(t, v);
    hide Usable, Linked, ChainOk, Settling;
    assert Offered(t, v, unlinked, candidates, [], best);
    AheadIsAsGood(t, v, best);
    forall x | x in t && t[x].nChainTx > 0 && Usable(t, v, x) && x != best ensures Worse(t, x, best) {
      if AsGood(t, v, x) {
        UsableOffered(t, v, unlinked, candidates, x);
      } else {
        WorseIsOrder(t, x, v[|v| - 1].id, best);
        WorseIsOrder(t, best, v[|v| - 1].id, best);
      }
    }
  }

  /** Without failures and pruning every counted block is usable. */
  lemma {:induction false} CountedIsUsable(t: Nodes, v: seq<Link>, x: Id)
    requires Linked(t) && (forall z | z in t :: CountOk(t, z)) && NoFailures(t) && NothingPruned(t) && x in t && t[x].nChainTx > 0
    ensures Usable(t, v, x)
    decreases t[x].nHeight
  {
    assert CountOk(t, x) && NodeLinked(t, x);
    if t[x].pprev.To? {
      CountedIsUsable(t, v, t[x].pprev.id);
    }
  }

  /** Without failures and pruning the candidates are exactly the complete chains that are as good as the tip. */
  lemma CandidatesExactly(t: Nodes, v: seq<Link>, unlinked: Pairs, candidates: set<Id>, x: Id)
    requires Linked(t) && ChainOk(t, v) && Settling(t, v, unlinked, []) && Offers(t, v, unlinked, candidates, [])
    requires NoFailures(t) && NothingPruned(t)
    ensures x in candidates <==> x in t && AllArrived(t, x) && AsGood(t, v, x)
  {
    assert Offered(t, v, unlinked, candidates, [], x);
    if x in candidates {
      AheadIsAsGood(t, v, x);
    }
    if x in t {
      CountExactly(t, v, unlinked, x);
      if t[x].nChainTx > 0 && AsGood(t, v, x) {
        CountedIsUsable(t, v, x);
        UsableOffered(t, v, unlinked, candidates, x);
      }
    }
  }
}
