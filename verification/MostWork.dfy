/** Choosing the chain with the most work: the order on candidates and which of them can be used. */
module MostWork {
  import opened BlockTree
  import opened ActiveChain

  /** The candidate order: less work, then later arrival, then the pointer itself. */
  predicate Worse(t: Nodes, a: Id, b: Id)
    requires a in t && b in t
  {
    if t[a].nChainWork != t[b].nChainWork then t[a].nChainWork < t[b].nChainWork
    else if t[a].nSequenceId != t[b].nSequenceId then t[a].nSequenceId > t[b].nSequenceId
    else a > b
  }

  lemma WorseIsOrder(t: Nodes, a: Id, b: Id, c: Id)
    requires a in t && b in t && c in t
    ensures !Worse(t, a, a) && (a == b || Worse(t, a, b) || Worse(t, b, a))
    ensures Worse(t, a, b) && Worse(t, b, c) ==> Worse(t, a, c)
  {
  }

  /** The entry has more work than the other, or as much and was not counted after it. */
  predicate MoreOrEarlier(t: Nodes, best: Id, x: Id)
    requires best in t && x in t
  {
    t[x].nChainWork < t[best].nChainWork || (t[x].nChainWork == t[best].nChainWork && t[best].nSequenceId <= t[x].nSequenceId)
  }

  lemma WorseMeans(t: Nodes)
    ensures forall x, best | x in t && best in t && Worse(t, x, best) :: MoreOrEarlier(t, best, x)
  {
  }

  predicate Bad(n: Node) { n.failed || !n.haveData }

  /** No failed and no missing block between the entry and the active chain. */
  ghost predicate Usable(t: Nodes, v: seq<Link>, x: Id)
    requires Linked(t) && x in t
    decreases t[x].nHeight
  {
    assert NodeLinked(t, x);
    Contains(t, v, x) || (!Bad(t[x]) && (t[x].pprev.To? ==> Usable(t, v, t[x].pprev.id)))
  }

  /** No failed block between the entry and the active chain, though data may be missing. */
  ghost predicate Unfailed(t: Nodes, v: seq<Link>, x: Id)
    requires Linked(t) && x in t
    decreases t[x].nHeight
  {
    assert NodeLinked(t, x);
    Contains(t, v, x) || (!t[x].failed && (t[x].pprev.To? ==> Unfailed(t, v, t[x].pprev.id)))
  }

  lemma {:induction false} UsableUnfailed(t: Nodes, v: seq<Link>, x: Id)
    requires Linked(t) && x in t && Usable(t, v, x)
    ensures Unfailed(t, v, x) && (Contains(t, v, x) || t[x].haveData)
    decreases t[x].nHeight
  {
    assert NodeLinked(t, x);
    if !Contains(t, v, x) && t[x].pprev.To? {
      UsableUnfailed(t, v, t[x].pprev.id);
    }
  }

  /** Trees that agree on everything the order and the shape depend on; only failure marks differ. */
  ghost predicate OnlyMarks(t: Nodes, t': Nodes) {
    && (forall x :: x in t' <==> x in t)
    && (forall x | x in t :: t'[x] == t[x].(failed := t'[x].failed))
  }

  lemma MarksLinked(t: Nodes, t': Nodes)
    requires Linked(t) && OnlyMarks(t, t')
    ensures Linked(t') && SameShape(t, t')
  {
    forall x | x in t' ensures NodeLinked(t', x) {
      assert NodeLinked(t, x);
    }
  }

  /** The walk from a candidate has met only good entries off the chain so far. */
  ghost predicate Walked(t: Nodes, v: seq<Link>, best: Id, h: int)
    requires Linked(t) && best in t
  {
    forall k | h < k <= t[best].nHeight && k >= 0 :: Good(t, v, Ancestor(t, best, k))
  }

  predicate Good(t: Nodes, v: seq<Link>, x: Id) {
    x in t && !Contains(t, v, x) && !Bad(t[x])
  }

  lemma WalkStep(t: Nodes, v: seq<Link>, best: Id, x: Id)
    requires Linked(t) && best in t && IsAncestor(t, x, best) && Walked(t, v, best, t[x].nHeight) && Good(t, v, x)
    ensures Walked(t, v, best, t[x].nHeight - 1)
    ensures t[x].pprev.To? ==> t[x].pprev.id in t && t[t[x].pprev.id].nHeight == t[x].nHeight - 1 && IsAncestor(t, t[x].pprev.id, best)
    ensures t[x].pprev.Null? ==> t[x].nHeight == 0
    ensures Usable(t, v, x) <==> (t[x].pprev.To? ==> Usable(t, v, t[x].pprev.id))
  {
    assert NodeLinked(t, x);
    if t[x].pprev.To? {
      AncestorOf(t, best, t[x].nHeight, t[x].nHeight - 1);
      assert Ancestor(t, x, t[x].nHeight - 1) == t[x].pprev.id;
    }
  }

  /** If the walk stops at an unusable entry, every entry passed is unusable too. */
  lemma {:induction false} PassedUnusable(t: Nodes, v: seq<Link>, best: Id, stop: Id, k: nat)
    requires Linked(t) && best in t && IsAncestor(t, stop, best) && Walked(t, v, best, t[stop].nHeight) && !Usable(t, v, stop)
    requires t[stop].nHeight <= k <= t[best].nHeight
    ensures !Usable(t, v, Ancestor(t, best, k))
    decreases k
  {
    if k > t[stop].nHeight {
      PassedUnusable(t, v, best, stop, k - 1);
      var z := Ancestor(t, best, k);
      assert Good(t, v, z) && NodeLinked(t, z);
      AncestorOf(t, best, k, k - 1);
      assert Ancestor(t, z, k - 1) == t[z].pprev.id;
    }
  }

  // ---------------------------------------------------------------- what dropping a chain changes

  /** The entries from a candidate down to above a height. */
  ghost function Passed(t: Nodes, best: Id, low: int): set<Id>
    requires Linked(t) && best in t
  {
    set k | low < k <= t[best].nHeight && k >= 0 :: Ancestor(t, best, k)
  }

  function Marked(t: Nodes, s: set<Id>): Nodes {
    map x | x in t :: if x in s then t[x].(failed := true) else t[x]
  }

  /** The entries from a candidate down to above a height, each behind its parent, highest first. */
  ghost function DropPairs(t: Nodes, best: Id, low: nat): seq<(Id, Id)>
    requires Linked(t) && best in t
    decreases t[best].nHeight - low
  {
    if low >= t[best].nHeight then []
    else
      var z := Ancestor(t, best, low + 1);
      ParentHeight(t, z);
      DropPairs(t, best, low + 1) + [(t[z].pprev.id, z)]
  }

  /** The three collections after the entries above height h are dropped: those above a failed entry are marked,
      those above a missing one wait for it again. */
  ghost predicate Removed(t: Nodes, u: seq<(Id, Id)>, c: set<Id>, best: Id, h: nat, failed: bool,
                          t': Nodes, u': seq<(Id, Id)>, c': set<Id>)
    requires Linked(t) && best in t
  {
    && t' == Marked(t, if failed then Passed(t, best, h) else {})
    && u' == u + (if failed then [] else DropPairs(t, best, h))
    && c' == c - Passed(t, best, h)
  }

  lemma RemovedStart(t: Nodes, u: seq<(Id, Id)>, c: set<Id>, best: Id, failed: bool)
    requires Linked(t) && best in t
    ensures Removed(t, u, c, best, t[best].nHeight, failed, t, u, c)
  {
    assert Passed(t, best, t[best].nHeight) == {};
    assert Marked(t, {}) == t;
  }

  lemma PassedNext(t: Nodes, best: Id, h: nat)
    requires Linked(t) && best in t && h <= t[best].nHeight
    ensures Passed(t, best, h - 1) == Passed(t, best, h) + {Ancestor(t, best, h)}
  {
    hide Ancestor;
    var p, q := Passed(t, best, h), Passed(t, best, h - 1);
    forall x ensures x in q <==> x in p + {Ancestor(t, best, h)} {
      if x in q {
        var k :| h - 1 < k <= t[best].nHeight && k >= 0 && x == Ancestor(t, best, k);
        assert k == h || h < k;
      }
    }
  }

  lemma RemovedStep(t: Nodes, u: seq<(Id, Id)>, c: set<Id>, best: Id, h: nat, failed: bool,
                    t1: Nodes, u1: seq<(Id, Id)>, c1: set<Id>)
    requires Linked(t) && best in t && 0 < h <= t[best].nHeight && Removed(t, u, c, best, h, failed, t1, u1, c1)
    ensures var z := Ancestor(t, best, h);
            z in t1 && t1[z].pprev == t[z].pprev && t[z].pprev.To? &&
            Removed(t, u, c, best, h - 1, failed, if failed then t1[z := t1[z].(failed := true)] else t1,
                    if failed then u1 else u1 + [(t[z].pprev.id, z)], c1 - {z})
  {
    PassedNext(t, best, h);
    var z, p := Ancestor(t, best, h), Passed(t, best, h);
    ParentHeight(t, z);
    assert DropPairs(t, best, h - 1) == DropPairs(t, best, h) + [(t[z].pprev.id, z)];
    hide Ancestor, Passed, DropPairs;
    if failed {
      assert t1[z := t1[z].(failed := true)] == Marked(t, p + {z});
    }
  }

  lemma {:induction false} DropPairsExactly(t: Nodes, best: Id, low: nat, p: Id, z: Id)
    requires Linked(t) && best in t
    ensures (p, z) in DropPairs(t, best, low) <==> z in Passed(t, best, low) && z in t && t[z].pprev == To(p)
    decreases t[best].nHeight - low
  {
    if low < t[best].nHeight {
      DropPairsExactly(t, best, low + 1, p, z);
      PassedNext(t, best, low + 1);
      ParentHeight(t, Ancestor(t, best, low + 1));
    } else {
      assert Passed(t, best, low) == {};
    }
  }

  /** The entry or an ancestor of it has failed. */
  ghost predicate HasFailed(t: Nodes, x: Id)
    requires Linked(t) && x in t
    decreases t[x].nHeight
  {
    assert NodeLinked(t, x);
    t[x].failed || (t[x].pprev.To? && HasFailed(t, t[x].pprev.id))
  }

  /** Every mark in the second tree stands on a failure in the first. */
  ghost predicate MarksTrue(t: Nodes, t': Nodes)
    requires Linked(t)
  {
    forall x | x in t' && x in t :: t'[x].failed ==> HasFailed(t, x)
  }

  lemma {:induction false} FailedBelow(t: Nodes, x: Id, height: nat)
    requires Linked(t) && x in t && height <= t[x].nHeight && t[Ancestor(t, x, height)].failed
    ensures HasFailed(t, x)
    decreases t[x].nHeight
  {
    assert NodeLinked(t, x);
    if height < t[x].nHeight {
      FailedBelow(t, t[x].pprev.id, height);
    }
  }

  lemma MarkedTrue(t: Nodes, best: Id, stop: Id)
    requires Linked(t) && best in t && IsAncestor(t, stop, best)
    ensures MarksTrue(t, Marked(t, if t[stop].failed then Passed(t, best, t[stop].nHeight) else {}))
  {
    var p := if t[stop].failed then Passed(t, best, t[stop].nHeight) else {};
    forall x | x in t && Marked(t, p)[x].failed ensures HasFailed(t, x) {
      if x in p {
        var k :| t[stop].nHeight < k <= t[best].nHeight && x == Ancestor(t, best, k);
        AncestorOf(t, best, k, t[stop].nHeight);
        FailedBelow(t, x, t[stop].nHeight);
      }
    }
  }

  lemma {:induction false} FailedOnce(t: Nodes, t1: Nodes, x: Id)
    requires Linked(t) && Linked(t1) && OnlyMarks(t, t1) && MarksTrue(t, t1) && x in t1 && HasFailed(t1, x)
    ensures x in t && HasFailed(t, x)
    decreases t1[x].nHeight
  {
    assert NodeLinked(t, x) && NodeLinked(t1, x);
    if !t1[x].failed {
      FailedOnce(t, t1, t1[x].pprev.id);
    }
  }

  lemma MarksTrueTrans(t: Nodes, t1: Nodes, t2: Nodes)
    requires Linked(t) && Linked(t1) && OnlyMarks(t, t1) && MarksTrue(t, t1) && MarksTrue(t1, t2)
    ensures MarksTrue(t, t2)
  {
    hide HasFailed;
    forall x | x in t2 && x in t && t2[x].failed ensures HasFailed(t, x) {
      FailedOnce(t, t1, x);
    }
  }

  /** rbegin of the ordered set. */
  method Greatest(t: Nodes, s: set<Id>) returns (best: Id)
    requires s != {} && forall x | x in s :: x in t
    ensures best in s && forall x | x in s && x != best :: Worse(t, x, best)
  {
    best :| best in s;
    var rest := s - {best};
    while rest != {}
      invariant rest <= s && best in s && best !in rest
      invariant forall x | x in s && x !in rest && x != best :: Worse(t, x, best)
      decreases |rest|
    {
      var y :| y in rest;
      WorseIsOrder(t, best, y, y);
      if Worse(t, best, y) {
        forall x | x in s && x !in rest && x != best ensures Worse(t, x, y) {
          WorseIsOrder(t, x, best, y);
        }
        best := y;
      }
      rest := rest - {y};
    }
  }

  // ---------------------------------------------------------------- removing an unusable chain

  /** Only marks were added, and no entry's usability changed. */
  ghost predicate Equivalent(t: Nodes, t': Nodes, v: seq<Link>)
    requires Linked(t)
  {
    && OnlyMarks(t, t') && Linked(t')
    && forall x | x in t :: Usable(t', v, x) <==> Usable(t, v, x)
  }

  lemma EquivalentSelf(t: Nodes, v: seq<Link>)
    requires Linked(t)
    ensures Equivalent(t, t, v)
  {
  }

  /** Marking entries that cannot be used anyway changes no entry's usability. */
  lemma {:induction false} MarkedUsable(t: Nodes, v: seq<Link>, s: set<Id>, x: Id)
    requires Linked(t) && x in t && forall y | y in s :: y in t && !Usable(t, v, y)
    ensures Linked(Marked(t, s)) && (Usable(Marked(t, s), v, x) <==> Usable(t, v, x))
    decreases t[x].nHeight
  {
    var t' := Marked(t, s);
    MarksLinked(t, t');
    assert NodeLinked(t, x) && NodeLinked(t', x);
    if t[x].pprev.To? {
      MarkedUsable(t, v, s, t[x].pprev.id);
    }
  }

  lemma MarkedEquivalent(t: Nodes, v: seq<Link>, s: set<Id>)
    requires Linked(t) && forall y | y in s :: y in t && !Usable(t, v, y)
    ensures Equivalent(t, Marked(t, s), v)
  {
    hide Usable, Linked;
    MarksLinked(t, Marked(t, s));
    forall x | x in t ensures Usable(Marked(t, s), v, x) <==> Usable(t, v, x) {
      MarkedUsable(t, v, s, x);
    }
  }

  lemma EquivalentTrans(t: Nodes, t': Nodes, t2: Nodes, v: seq<Link>)
    requires Linked(t) && Equivalent(t, t', v) && Equivalent(t', t2, v)
    ensures Equivalent(t, t2, v)
  {
  }

  lemma EquivalentOrder(t: Nodes, t': Nodes, a: Id, b: Id)
    requires OnlyMarks(t, t') && a in t && b in t
    ensures a in t' && b in t' && (Worse(t', a, b) <==> Worse(t, a, b))
  {
  }

  /** Candidates that were dropped could not be used. */
  ghost predicate DroppedUnusable(t: Nodes, v: seq<Link>, before: set<Id>, after: set<Id>)
    requires Linked(t)
  {
    after <= before && forall c | c in before && c !in after :: c in t && !Usable(t, v, c)
  }

  /** Dropping everything above an unusable entry drops and marks only entries that cannot be used. */
  lemma RemovedUnusable(t: Nodes, v: seq<Link>, u: seq<(Id, Id)>, c: set<Id>, best: Id, stop: Id, failed: bool,
                        t': Nodes, u': seq<(Id, Id)>, c': set<Id>)
    requires Linked(t) && best in t && IsAncestor(t, stop, best) && Walked(t, v, best, t[stop].nHeight) && !Usable(t, v, stop)
    requires best in c && Removed(t, u, c - {stop}, best, t[stop].nHeight, failed, t', u', c')
    ensures Equivalent(t, t', v) && DroppedUnusable(t, v, c, c') && best !in c'
  {
    hide Usable, Ancestor, Walked;
    var p := Passed(t, best, t[stop].nHeight);
    forall y | y in p ensures y in t && !Usable(t, v, y) {
      var k :| t[stop].nHeight < k <= t[best].nHeight && y == Ancestor(t, best, k);
      PassedUnusable(t, v, best, stop, k);
    }
    assert best == Ancestor(t, best, t[best].nHeight) by {
      AncestorTop(t, best);
    }
    assert best in p || best == stop by {
      AncestorTop(t, best);
      if best != stop {
        HigherThan(t, best, stop);
      }
    }
    MarkedEquivalent(t, v, if failed then p else {});
  }

  lemma AncestorTop(t: Nodes, x: Id)
    requires Linked(t) && x in t
    ensures Ancestor(t, x, t[x].nHeight) == x
  {
  }

  lemma HigherThan(t: Nodes, x: Id, a: Id)
    requires Linked(t) && x in t && IsAncestor(t, a, x) && a != x
    ensures t[a].nHeight < t[x].nHeight
  {
  }

  lemma DropTrans(t: Nodes, t': Nodes, v: seq<Link>, s0: set<Id>, s1: set<Id>, s2: set<Id>)
    requires Linked(t) && Equivalent(t, t', v) && DroppedUnusable(t, v, s0, s1) && DroppedUnusable(t', v, s1, s2)
    ensures DroppedUnusable(t, v, s0, s2)
  {
  }

  /** The greatest candidate, found usable, is the greatest usable one of those there were at first. */
  lemma GreatestUsable(t: Nodes, t': Nodes, v: seq<Link>, s0: set<Id>, s1: set<Id>, best: Id)
    requires Linked(t) && Equivalent(t, t', v) && DroppedUnusable(t, v, s0, s1) && best in s1 && best in t && Usable(t', v, best)
    requires (forall c | c in s0 :: c in t) && forall c | c in s1 && c != best :: c in t' && Worse(t', c, best)
    ensures best in s0 && Usable(t, v, best) && forall c | c in s0 && c != best && Usable(t, v, c) :: Worse(t, c, best)
  {
    forall c | c in s0 && c != best && Usable(t, v, c) ensures Worse(t, c, best) {
      assert c in s1;
      EquivalentOrder(t, t', c, best);
    }
  }
}
