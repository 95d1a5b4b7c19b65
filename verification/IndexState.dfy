/** The whole state of the block index as a value, its invariants, and what each step makes of them. */
module IndexState {
  import opened BlockTree
  import opened ActiveChain
  import opened Linking
  import opened MostWork
  import opened Candidates
  import opened ChainMoves

  /** Entries, active chain, waiting pairs, candidates and the next sequence number. */
  datatype Index = Index(t: Nodes, v: seq<Link>, u: Pairs, c: set<Id>, next: nat)

  /** Sequence numbers are given out in order. */
  ghost predicate SeqOk(t: Nodes, next: nat) {
    next > 0 && forall x | x in t :: t[x].nSequenceId < next
  }

  /** The invariants, while the blocks of a queue are still to be linked. */
  ghost predicate Sound(s: Index, queue: seq<Id>) {
    && TreeOk(s.t) && ChainOk(s.t, s.v) && WorkOk(s.t) && SeqOk(s.t, s.next)
    && Settling(s.t, s.v, s.u, queue) && Offers(s.t, s.v, s.u, s.c, queue)
  }

  lemma SoundShape(s: Index, queue: seq<Id>)
    requires Sound(s, queue)
    ensures TreeOk(s.t) && Linked(s.t) && ChainOk(s.t, s.v) && TipOk(s.t, s.v)
  {
  }

  // ---------------------------------------------------------------- what the invariants say

  lemma CandidateKnown(s: Index, x: Id)
    requires Sound(s, []) && x in s.c
    ensures x in s.t && s.t[x].nChainTx > 0 && Ahead(s.t, s.v, x) && AsGood(s.t, s.v, x)
  {
    assert Offered(s.t, s.v, s.u, s.c, [], x);
    AheadIsAsGood(s.t, s.v, x);
  }

  lemma CandidatesKnown(s: Index)
    requires Sound(s, [])
    ensures forall x | x in s.c :: x in s.t
  {
    hide Sound;
    forall x | x in s.c ensures x in s.t {
      CandidateKnown(s, x);
    }
  }

  /** The candidate set misses no counted and usable block that could be the best. */
  lemma Complete(s: Index)
    requires Sound(s, [])
    ensures forall x | x in s.t && s.t[x].nChainTx > 0 && AsGood(s.t, s.v, x) && Usable(s.t, s.v, x) :: x in s.c
  {
    hide Usable, Linked, ChainOk, Settling, AsGood, Offers;
    forall x | x in s.t && s.t[x].nChainTx > 0 && AsGood(s.t, s.v, x) && Usable(s.t, s.v, x) ensures x in s.c {
      UsableOffered(s.t, s.v, s.u, s.c, x);
    }
  }

  /** Counts are totals over processed chains; a complete chain that has not failed is counted; an uncounted block has
      no sequence number. */
  lemma CountsMean(s: Index)
    requires Sound(s, [])
    ensures forall x | x in s.t && s.t[x].nChainTx > 0 :: s.t[x].nChainTx == TotalTx(s.t, x) && AllProcessed(s.t, x)
    ensures forall x | x in s.t && AllArrived(s.t, x) && !HasFailed(s.t, x) :: s.t[x].nChainTx > 0
    ensures forall x | x in s.t && s.t[x].nChainTx == 0 :: s.t[x].nSequenceId == 0
  {
    CountsHold(s.t, s.v, s.u);
    forall x | x in s.t && s.t[x].nChainTx == 0 ensures s.t[x].nSequenceId == 0 {
      assert CountOk(s.t, x);
    }
    hide Linked, Settling, TotalTx, AllProcessed, AllArrived, HasFailed;
    forall x | x in s.t && s.t[x].nChainTx > 0 ensures s.t[x].nChainTx == TotalTx(s.t, x) && AllProcessed(s.t, x) {
      CountIsTotal(s.t, x);
    }
    forall x | x in s.t && AllArrived(s.t, x) && !HasFailed(s.t, x) ensures s.t[x].nChainTx > 0 {
      ArrivedIsCounted(s.t, s.v, s.u, x);
    }
  }

  /** What waits is stored and stands on a missing or failed block; what is stored but uncounted waits, and so does what
      could compete but is no candidate. */
  lemma WaitingMeans(s: Index)
    requires Sound(s, [])
    ensures forall p: Id, x: Id | (p, x) in s.u ::
              x in s.t && s.t[x].pprev == To(p) && s.t[x].haveData && p in s.t && (!AllArrived(s.t, p) || HasFailed(s.t, p))
    ensures forall x | x in s.t && s.t[x].haveData && s.t[x].nChainTx == 0 && !HasFailed(s.t, x) :: Waiting(s.t, s.u, [], x)
    ensures forall x | x in s.t && Eligible(s.t, s.v, x) :: x in s.c || Waiting(s.t, s.u, [], x)
  {
    forall x | x in s.t && s.t[x].haveData && s.t[x].nChainTx == 0 && !HasFailed(s.t, x) ensures Waiting(s.t, s.u, [], x) {
      assert Waits(s.t, s.u, [], x);
    }
    hide Linked, Settling, AllArrived, HasFailed, Eligible, Waiting;
    forall p: Id, x: Id | (p, x) in s.u
      ensures x in s.t && s.t[x].pprev == To(p) && s.t[x].haveData && p in s.t && (!AllArrived(s.t, p) || HasFailed(s.t, p))
    {
      WaitingMisses(s.t, s.v, s.u, p, x);
    }
    forall x | x in s.t && Eligible(s.t, s.v, x) ensures x in s.c || Waiting(s.t, s.u, [], x) {
      assert Offered(s.t, s.v, s.u, s.c, [], x);
    }
  }

  /** While nothing has failed or been pruned, the count of every block is the number of transactions in its chain if
      all have arrived and zero otherwise, exactly the stored blocks above a missing one wait, and the candidates are
      exactly the complete chains that are as good as the tip. */
  lemma ExactlyArrived(s: Index)
    requires Sound(s, []) && NoFailures(s.t) && NothingPruned(s.t)
    ensures forall x :: x in s.c <==> x in s.t && AllArrived(s.t, x) && AsGood(s.t, s.v, x)
    ensures forall x | x in s.t :: s.t[x].nChainTx == if AllArrived(s.t, x) then TotalTx(s.t, x) else 0
    ensures forall p: Id, x: Id :: (p, x) in s.u <==> x in s.t && s.t[x].haveData && s.t[x].pprev == To(p) && !AllArrived(s.t, x)
  {
    hide Linked, SkipsOk, ChainOk, Settling, TotalTx, AllArrived, AsGood, Offers, WorkOk, NoFailures, NothingPruned;
    forall x | x in s.t ensures s.t[x].nChainTx == if AllArrived(s.t, x) then TotalTx(s.t, x) else 0 {
      CountExactly(s.t, s.v, s.u, x);
    }
    forall x ensures x in s.c <==> x in s.t && AllArrived(s.t, x) && AsGood(s.t, s.v, x) {
      CandidatesExactly(s.t, s.v, s.u, s.c, x);
    }
    forall p: Id, x: Id ensures (p, x) in s.u <==> x in s.t && s.t[x].haveData && s.t[x].pprev == To(p) && !AllArrived(s.t, x) {
      UnlinkedExactly(s.t, s.v, s.u, p, x);
    }
  }

  /** Whichever candidate turns out best, it beats every counted and usable block. */
  lemma BestCandidate(s: Index)
    requires Sound(s, [])
    ensures forall best | best in s.c && best in s.t &&
                          (forall c | c in s.c && c != best :: c in s.t && (Usable(s.t, s.v, c) ==> Worse(s.t, c, best))) ::
              forall x | x in s.t && s.t[x].nChainTx > 0 && Usable(s.t, s.v, x) && x != best :: Worse(s.t, x, best)
  {
    hide Linked, ChainOk, Settling, Offers, Usable, Worse;
    forall best | best in s.c && best in s.t &&
                  (forall c | c in s.c && c != best :: c in s.t && (Usable(s.t, s.v, c) ==> Worse(s.t, c, best)))
      ensures forall x | x in s.t && s.t[x].nChainTx > 0 && Usable(s.t, s.v, x) && x != best :: Worse(s.t, x, best)
    {
      BestOfAll(s.t, s.v, s.u, s.c, best);
    }
  }

  // ---------------------------------------------------------------- shapes that stay

  lemma ChainStays(t: Nodes, t': Nodes, v: seq<Link>)
    requires Linked(t) && Linked(t') && SameShape(t, t') && ChainOk(t, v)
    ensures ChainOk(t', v)
  {
  }

  lemma ShapeStays(s: Index, queue: seq<Id>, t': Nodes)
    requires Sound(s, queue) && SameShape(s.t, t') && forall y | y in t' :: y in s.t && t'[y].nChainWork == s.t[y].nChainWork
    ensures TreeOk(t') && ChainOk(t', s.v) && WorkOk(t')
  {
    hide SkipHeight;
    ReshapedOk(s.t, t');
    ChainStays(s.t, t', s.v);
    forall y | y in t' && t'[y].pprev.To? ensures t'[y].pprev.id in t' && t'[t'[y].pprev.id].nChainWork < t'[y].nChainWork {
      assert NodeLinked(s.t, y);
    }
  }

  lemma GrownWork(t: Nodes, t': Nodes, x: Id)
    requires Linked(t) && Linked(t') && WorkOk(t) && Grown(t, t', x) && (t'[x].pprev.To? ==> t[t'[x].pprev.id].nChainWork < t'[x].nChainWork)
    ensures WorkOk(t')
  {
    forall y | y in t' && t'[y].pprev.To? ensures t'[y].pprev.id in t' && t'[t'[y].pprev.id].nChainWork < t'[y].nChainWork {
      assert y != x ==> NodeLinked(t, y);
    }
  }

  // ---------------------------------------------------------------- steps

  lemma HeaderSound(s: Index, t': Nodes, x: Id)
    requires Sound(s, []) && TreeOk(t') && Grown(s.t, t', x) && t'[x].nChainTx == 0 && !t'[x].haveData && t'[x].nSequenceId == 0
    requires t'[x].pprev.To? ==> s.t[t'[x].pprev.id].nChainWork < t'[x].nChainWork
    ensures Sound(s.(t := t'), [])
  {
    hide SkipsOk, Settling, Offers;
    GrownWork(s.t, t', x);
    ChainStays(s.t, t', s.v);
    SoundShape(s, []);
    HeaderKeeps(s.t, t', s.v, s.u, x);
    OffersHeader(s.t, t', s.v, s.u, s.c, x);
  }

  /** The state after the first block of the queue is linked. */
  ghost function LinkedFirst(s: Index, queue: seq<Id>, n: Node): Index
    requires queue != [] && queue[0] in s.t
  {
    var x := queue[0];
    Index(s.t[x := n], s.v, Released(s.u, x), s.c + (if AsGood(s.t[x := n], s.v, x) then {x} else {}), s.next + 1)
  }

  lemma LinkedSound(s: Index, queue: seq<Id>, n: Node)
    requires queue != [] && Sound(s, queue) && queue[0] in s.t && Counts(s.t, queue[0], n) && n.nSequenceId == s.next
    ensures Sound(LinkedFirst(s, queue, n), queue[1..] + Kids(s.u, queue[0]))
  {
    var x := queue[0];
    hide SkipsOk, Settling, Offers, AsGood;
    SoundShape(s, queue);
    ShapeStays(s, queue, s.t[x := n]);
    hide ChainOk, WorkOk;
    LinkStep(s.t, s.v, s.u, queue, n);
    OffersLink(s.t, s.v, s.u, s.c, queue, n);
  }

  lemma StoredSound(s: Index, x: Id, nTx: nat, u': Pairs, queue: seq<Id>)
    requires Sound(s, []) && CanArrive(s.t, x, nTx)
    requires (assert NodeLinked(s.t, x);
              if ParentDone(s.t, x) then u' == s.u && queue == [x] else u' == Behind(s.t, s.u, x) && queue == [])
    ensures Sound(s.(t := s.t[x := Stored(s.t[x], nTx)], u := u'), queue) && (queue == [] ==> s.t[x].nChainTx == 0)
  {
    hide SkipsOk, Settling, Offers;
    SoundShape(s, []);
    ShapeStays(s, [], s.t[x := Stored(s.t[x], nTx)]);
    hide ChainOk, WorkOk;
    assert NodeLinked(s.t, x);
    if ParentDone(s.t, x) {
      ArrivedReady(s.t, s.v, s.u, x, nTx);
    } else {
      ArrivedEarly(s.t, s.v, s.u, x, nTx);
    }
    OffersStore(s.t, s.v, s.u, u', s.c, queue, x, nTx);
  }

  lemma PrunedSound(s: Index, x: Id)
    requires Sound(s, []) && x in s.t && !IsTip(s.v, x)
    ensures Sound(s.(t := s.t[x := Pruned(s.t[x])], u := NotWaiting(s.t, s.u, x)), [])
  {
    hide SkipsOk, Settling, Offers, NotWaiting;
    ShapeStays(s, [], s.t[x := Pruned(s.t[x])]);
    PruneKeeps(s.t, s.v, s.u, x);
    PruneOffers(s.t, s.v, s.u, s.c, x);
  }

  lemma FailedSound(s: Index, x: Id)
    requires Sound(s, []) && x in s.t && !Contains(s.t, s.v, x)
    ensures Sound(s.(t := Marked(s.t, {x}), c := s.c - {x}), [])
  {
    hide SkipsOk, Settling, Offers;
    ShapeStays(s, [], Marked(s.t, {x}));
    FailedKeeps(s.t, s.v, s.u, s.c, x);
  }

  lemma RemovedSound(s: Index, best: Id, stop: Id, t': Nodes, u': Pairs, c': set<Id>)
    requires Sound(s, []) && best in s.t && IsAncestor(s.t, stop, best) && Walked(s.t, s.v, best, s.t[stop].nHeight)
    requires !Contains(s.t, s.v, stop) && Bad(s.t[stop])
    requires Removed(s.t, s.u, s.c - {stop}, best, s.t[stop].nHeight, s.t[stop].failed, t', u', c')
    ensures Sound(Index(t', s.v, u', c', s.next), [])
  {
    hide SkipsOk, Settling, Offers, Passed, DropPairs, Walked, IsAncestor;
    ShapeStays(s, [], t');
    hide ChainOk, WorkOk;
    RemovedKeeps(s.t, s.v, s.u, s.c, best, stop, t', u', c');
    RemovedOffers(s.t, s.v, s.u, s.c, best, stop, t', u', c');
  }

  /** The tip moves to a candidate no other of the same work sorts before, and the candidates worse than it go. */
  lemma NewTipSound(s: Index, v': seq<Link>, c': set<Id>, x: Id)
    requires Sound(s, []) && x in s.c && x in s.t && Usable(s.t, s.v, x) && ChainOk(s.t, v') && PathTo(s.t, v', x)
    requires forall y | y in s.c && y != x :: y in s.t && (Worse(s.t, y, x) || s.t[y].nChainWork > s.t[x].nChainWork)
    requires forall y :: y in c' <==> y in s.c && y in s.t && !Worse(s.t, y, x)
    ensures Sound(s.(v := v', c := c'), []) && x in c'
  {
    CandidateKnown(s, x);
    SoundShape(s, []);
    CandidateStored(s.t, s.v, x);
    hide SkipsOk, Settling, Offers, Usable, ChainOk, WorkOk, Worse, Ahead;
    NewTipKeeps(s.t, s.v, v', s.u, x);
    NewTipOffers(s.t, s.v, v', s.u, s.c, c', x);
  }

  // ---------------------------------------------------------------- on the way to the new tip

  /** The state at a tip x between the fork and the target: the candidates are those not worse than x, the target is one
      of them, so is the old tip unless it is worse, and no usable block as good as both x and the old tip is missing. */
  ghost predicate OnTheWay(s: Index, best: Id, x: Id, v': seq<Link>, c': set<Id>)
    requires Linked(s.t)
  {
    && x in s.t && PathTo(s.t, v', x) && Settling(s.t, v', s.u, []) && NoWorse(s.t, s.c, c', x) && best in c'
    && (forall y | IsTip(s.v, y) && y in s.t && !Worse(s.t, y, x) :: y in c')
    && forall y | y in s.t && s.t[y].nChainTx > 0 && Usable(s.t, v', y) && AsGood(s.t, v', y) && AsGood(s.t, s.v, y) :: y in c'
  }

  lemma AncestorStored(s: Index, best: Id, x: Id)
    requires Sound(s, []) && best in s.c && best in s.t && Usable(s.t, s.v, best) && IsAncestor(s.t, x, best) && !Contains(s.t, s.v, x)
    ensures Usable(s.t, s.v, x) && s.t[x].nChainTx > 0 && s.t[x].haveData && (x == best || s.t[x].nChainWork < s.t[best].nChainWork)
  {
    CandidateKnown(s, best);
    AncestorUsable(s.t, s.v, best, s.t[x].nHeight);
    UsableUnfailed(s.t, s.v, x);
    AncestorWork(s.t, best, s.t[x].nHeight);
  }

  lemma TipIsCandidate(s: Index, y: Id)
    requires Sound(s, []) && IsTip(s.v, y)
    ensures y in s.c
  {
    assert Contains(s.t, s.v, y);
    WorseIsOrder(s.t, y, y, y);
    Complete(s);
  }

  /** Every tip between the fork and the target is such a state. */
  lemma StaysOnTheWay(s: Index, best: Id, x: Id, v': seq<Link>, c': set<Id>)
    requires Sound(s, []) && best in s.c && best in s.t && Usable(s.t, s.v, best) && IsAncestor(s.t, x, best) && !Contains(s.t, s.v, x)
    requires PathTo(s.t, v', x) && NoWorse(s.t, s.c, c', x)
    ensures OnTheWay(s, best, x, v', c')
  {
    AncestorStored(s, best, x);
    SoundShape(s, []);
    CountsHold(s.t, s.v, s.u);
    hide SkipsOk, Settling, Offers, Usable, ChainOk, WorkOk, PathTo, IsAncestor;
    NewTipKeeps(s.t, s.v, v', s.u, x);
    WorseIsOrder(s.t, best, best, best);
    forall y | IsTip(s.v, y) && y in s.t && !Worse(s.t, y, x) ensures y in c' {
      TipIsCandidate(s, y);
    }
    PathTip(s.t, v', x);
    forall y | y in s.t && s.t[y].nChainTx > 0 && Usable(s.t, v', y) && AsGood(s.t, v', y) && AsGood(s.t, s.v, y) ensures y in c' {
      UsableOnOld(s.t, s.v, v', x, y);
      UsableOffered(s.t, s.v, s.u, s.c, y);
    }
  }

  // ---------------------------------------------------------------- an arrival as a function of the state

  /** The entry with its count and the next sequence number. */
  ghost function CountedNode(s: Index, x: Id): Node
    requires Linked(s.t) && x in s.t
  {
    assert NodeLinked(s.t, x);
    s.t[x].(nChainTx := ParentCount(s.t, x) + s.t[x].nTx, nSequenceId := s.next)
  }

  lemma HeadKnown(s: Index, queue: seq<Id>)
    requires Sound(s, queue) && queue != []
    ensures Linked(s.t) && queue[0] in s.t
  {
    assert queue[0] in queue;
    assert Ready(s.t, s.v, queue[0]);
  }

  /** The state when the work queue has run dry. */
  ghost function Drained(s: Index, queue: seq<Id>): (r: Index)
    requires Sound(s, queue)
    ensures Sound(r, [])
    decreases |s.u| + |queue|
  {
    if queue == [] then s
    else
      HeadKnown(s, queue);
      LinkedSound(s, queue, CountedNode(s, queue[0]));
      Drained(LinkedFirst(s, queue, CountedNode(s, queue[0])), queue[1..] + Kids(s.u, queue[0]))
  }

  ghost predicate StartsQueue(s: Index, x: Id)
    requires Linked(s.t) && x in s.t
  {
    assert NodeLinked(s.t, x);
    ParentDone(s.t, x)
  }

  /** The state after a block has arrived, new or back after pruning. */
  ghost function Received(s: Index, x: Id, nTx: nat): (r: Index)
    requires Sound(s, []) && CanArrive(s.t, x, nTx)
    ensures Sound(r, [])
  {
    SoundShape(s, []);
    assert NodeLinked(s.t, x);
    if StartsQueue(s, x) then
      StoredSound(s, x, nTx, s.u, [x]);
      Drained(s.(t := s.t[x := Stored(s.t[x], nTx)]), [x])
    else
      StoredSound(s, x, nTx, Behind(s.t, s.u, x), []);
      s.(t := s.t[x := Stored(s.t[x], nTx)], u := Behind(s.t, s.u, x))
  }

  /** Entries that differ at most in their count and sequence number, and keep a count. */
  ghost predicate OnlyCounts(t: Nodes, t': Nodes) {
    && (forall y :: y in t' <==> y in t)
    && (forall y | y in t :: t'[y] == t[y].(nChainTx := t'[y].nChainTx, nSequenceId := t'[y].nSequenceId))
    && (forall y | y in t && t[y].nChainTx > 0 :: t'[y].nChainTx > 0)
  }

  lemma MoreCounts(t: Nodes, t1: Nodes, t2: Nodes)
    requires OnlyCounts(t, t1) && OnlyCounts(t1, t2)
    ensures OnlyCounts(t, t2)
  {
  }

  lemma LinkedCounts(s: Index, queue: seq<Id>, n: Node)
    requires queue != [] && Sound(s, queue) && queue[0] in s.t && Counts(s.t, queue[0], n)
    ensures OnlyCounts(s.t, LinkedFirst(s, queue, n).t) && n.nChainTx > 0
  {
    CountsPositive(s.t, s.v, s.u, queue, n);
  }

  /** The queue changes nothing but counts and sequence numbers, and what it holds gets its count. */
  lemma {:induction false} DrainedCounts(s: Index, queue: seq<Id>)
    requires Sound(s, queue)
    ensures OnlyCounts(s.t, Drained(s, queue).t)
    ensures forall x | x in queue :: x in s.t && Drained(s, queue).t[x].nChainTx > 0
    decreases |s.u| + |queue|
  {
    if queue != [] {
      HeadKnown(s, queue);
      var x, n := queue[0], CountedNode(s, queue[0]);
      var s', rest := LinkedFirst(s, queue, n), queue[1..] + Kids(s.u, x);
      LinkedSound(s, queue, n);
      LinkedCounts(s, queue, n);
      hide Sound, LinkedFirst, Kids;
      DrainedCounts(s', rest);
      MoreCounts(s.t, s'.t, Drained(s', rest).t);
      assert forall y | y in queue && y != x :: y in rest;
    }
  }
}
