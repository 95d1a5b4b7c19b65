/** When a transaction count is the sign that a block and all its ancestors have been processed, as CheckBlockIndex
    asserts: exactly which states keep it so under further arrivals, and which calls leave those states. */
module CountSignal {
  import opened BlockTree
  import opened ActiveChain
  import opened Linking
  import opened MostWork
  import opened Candidates
  import opened ChainMoves
  import opened IndexState

  /** A processed block without a count is in the queue or waits for an uncounted parent. */
  ghost predicate Kept(t: Nodes, unlinked: Pairs, queue: seq<Id>, x: Id)
    requires Linked(t) && x in t
  {
    assert NodeLinked(t, x);
    t[x].nTx > 0 && t[x].nChainTx == 0 ==>
      x in queue || (t[x].pprev.To? && (t[x].pprev.id, x) in unlinked && !ParentDone(t, x))
  }

  ghost predicate Tidy(t: Nodes, unlinked: Pairs, queue: seq<Id>)
    requires Linked(t)
  {
    forall x | x in t :: Kept(t, unlinked, queue, x)
  }

  /** In a tidy state with an empty queue counts are that sign. */
  lemma TidySignals(s: Index)
    requires Sound(s, []) && Tidy(s.t, s.u, [])
    ensures CountsSignal(s.t)
  {
    forall x | x in s.t ensures !Stranded(s.t, x) {
      assert Kept(s.t, s.u, [], x);
    }
    CountedIffProcessed(s.t, s.v, s.u);
  }

  // ---------------------------------------------------------------- which steps keep a state tidy

  lemma KeptHeader(t: Nodes, t': Nodes, unlinked: Pairs, x: Id)
    requires Linked(t) && Linked(t') && Grown(t, t', x) && t'[x].nTx == 0 && Tidy(t, unlinked, [])
    ensures Tidy(t', unlinked, [])
  {
    forall y | y in t' ensures Kept(t', unlinked, [], y) {
      if y != x {
        assert NodeLinked(t, y) && Kept(t, unlinked, [], y);
      }
    }
  }

  lemma KeptLink(t: Nodes, unlinked: Pairs, queue: seq<Id>, n: Node, y: Id)
    requires Linked(t) && y in t && queue != [] && queue[0] in t && Counts(t, queue[0], n) && n.nChainTx > 0
    requires Kept(t, unlinked, queue, y)
    ensures Linked(t[queue[0] := n])
    ensures Kept(t[queue[0] := n], Released(unlinked, queue[0]), queue[1..] + Kids(unlinked, queue[0]), y)
  {
    SetLinked(t, queue[0], n);
    assert queue == [queue[0]] + queue[1..];
  }

  /** What is kept stays so while the queue runs dry. */
  lemma {:induction false} KeptDrained(s: Index, queue: seq<Id>, y: Id)
    requires Sound(s, queue) && Linked(s.t) && y in s.t && Kept(s.t, s.u, queue, y)
    ensures var r := Drained(s, queue); Linked(r.t) && y in r.t && Kept(r.t, r.u, [], y)
    decreases |s.u| + |queue|
  {
    if queue != [] {
      HeadKnown(s, queue);
      var n := CountedNode(s, queue[0]);
      LinkedSound(s, queue, n);
      LinkedCounts(s, queue, n);
      KeptLink(s.t, s.u, queue, n, y);
      KeptDrained(LinkedFirst(s, queue, n), queue[1..] + Kids(s.u, queue[0]), y);
    }
  }

  /** The guard of an arrival: the parent is not both uncounted and failed. */
  predicate GoodParent(t: Nodes, x: Id) {
    x in t && (t[x].pprev.To? ==> t[x].pprev.id in t && (t[t[x].pprev.id].nChainTx > 0 || !t[t[x].pprev.id].failed))
  }

  lemma KeptStored(t: Nodes, u: Pairs, u': Pairs, queue: seq<Id>, x: Id, nTx: nat, y: Id)
    requires Linked(t) && CanArrive(t, x, nTx) && y in t && y != x && Kept(t, u, [], y) && forall pr | pr in u :: pr in u'
    ensures Linked(t[x := Stored(t[x], nTx)]) && Kept(t[x := Stored(t[x], nTx)], u', queue, y)
  {
    SetLinked(t, x, Stored(t[x], nTx));
  }

  /** An arrival leaves every other block kept that was. */
  lemma KeptReceived(s: Index, x: Id, nTx: nat, y: Id)
    requires Sound(s, []) && CanArrive(s.t, x, nTx) && Linked(s.t) && y in s.t && (y != x ==> Kept(s.t, s.u, [], y))
    requires y == x ==> GoodParent(s.t, x)
    ensures var r := Received(s, x, nTx); Linked(r.t) && y in r.t && Kept(r.t, r.u, [], y)
  {
    assert NodeLinked(s.t, x);
    var t' := s.t[x := Stored(s.t[x], nTx)];
    SetLinked(s.t, x, Stored(s.t[x], nTx));
    NotOwnParent(s.t, x);
    if StartsQueue(s, x) {
      StoredSound(s, x, nTx, s.u, [x]);
      if y != x {
        KeptStored(s.t, s.u, s.u, [x], x, nTx, y);
      }
      KeptDrained(s.(t := t'), [x], y);
    } else {
      StoredSound(s, x, nTx, Behind(s.t, s.u, x), []);
      if y != x {
        KeptStored(s.t, s.u, Behind(s.t, s.u, x), [], x, nTx, y);
      }
    }
  }

  /** A block that arrives while its parent is uncounted and failed is not kept. */
  lemma BadParentLoses(s: Index, x: Id, nTx: nat)
    requires Sound(s, []) && CanArrive(s.t, x, nTx) && !GoodParent(s.t, x)
    ensures var r := Received(s, x, nTx); Linked(r.t) && x in r.t && !Kept(r.t, r.u, [], x)
  {
    SoundShape(s, []);
    assert NodeLinked(s.t, x) && CountOk(s.t, x);
    SetLinked(s.t, x, Stored(s.t[x], nTx));
    assert (s.t[x].pprev.id, x) in s.u ==> PairOk(s.t, s.v, s.u, [], s.t[x].pprev.id, x);
  }

  /** An arrival keeps the state tidy if and only if its guard is met. */
  lemma TidyReceived(s: Index, x: Id, nTx: nat)
    requires Sound(s, []) && CanArrive(s.t, x, nTx) && Linked(s.t) && Tidy(s.t, s.u, [])
    ensures var r := Received(s, x, nTx); Linked(r.t) && (Tidy(r.t, r.u, []) <==> GoodParent(s.t, x))
  {
    var r := Received(s, x, nTx);
    hide Sound, Linked, Received, Kept;
    SoundShape(r, []);
    SameEntries(s, x, nTx);
    if GoodParent(s.t, x) {
      forall y | y in r.t ensures Kept(r.t, r.u, [], y) {
        KeptReceived(s, x, nTx, y);
      }
    } else {
      BadParentLoses(s, x, nTx);
    }
  }

  /** An arrival changes nothing but counts, sequence numbers and the entry of the block. */
  lemma SameEntries(s: Index, x: Id, nTx: nat)
    requires Sound(s, []) && CanArrive(s.t, x, nTx)
    ensures OnlyCounts(s.t[x := Stored(s.t[x], nTx)], Received(s, x, nTx).t) && Linked(s.t)
    ensures (forall y :: y in Received(s, x, nTx).t <==> y in s.t)
    ensures StartsQueue(s, x) ==> Received(s, x, nTx).t[x].nChainTx > 0
  {
    SoundShape(s, []);
    assert NodeLinked(s.t, x);
    if StartsQueue(s, x) {
      StoredSound(s, x, nTx, s.u, [x]);
      DrainedCounts(s.(t := s.t[x := Stored(s.t[x], nTx)]), [x]);
    }
  }

  /** The guard of pruning: no block is pruned while it is stored and uncounted. */
  predicate GoodPrune(t: Nodes, x: Id) {
    x in t && t[x].haveData ==> t[x].nChainTx > 0
  }

  /** Pruning a block keeps the state tidy if and only if its guard is met. */
  lemma TidyPruned(s: Index, x: Id)
    requires Sound(s, []) && x in s.t && Linked(s.t) && Tidy(s.t, s.u, [])
    ensures var t' := s.t[x := Pruned(s.t[x])];
            Linked(t') && (Tidy(t', NotWaiting(s.t, s.u, x), []) <==> GoodPrune(s.t, x))
  {
    var t', u' := s.t[x := Pruned(s.t[x])], NotWaiting(s.t, s.u, x);
    SetLinked(s.t, x, Pruned(s.t[x]));
    assert CountOk(s.t, x) && NodeLinked(s.t, x) && NodeLinked(t', x);
    assert Kept(s.t, s.u, [], x);
    assert s.t[x].pprev.To? && (s.t[x].pprev.id, x) in s.u ==> PairOk(s.t, s.v, s.u, [], s.t[x].pprev.id, x);
    hide Sound;
    if GoodPrune(s.t, x) {
      forall y | y in t' ensures Kept(t', u', [], y) {
        assert NodeLinked(s.t, y) && Kept(s.t, s.u, [], y);
      }
    } else {
      assert !Kept(t', u', [], x);
    }
  }

  /** Marks and further pairs keep it tidy. */
  lemma TidyMarked(t: Nodes, marks: set<Id>, u: Pairs, u': Pairs)
    requires Linked(t) && Tidy(t, u, []) && forall pr | pr in u :: pr in u'
    ensures Linked(Marked(t, marks)) && Tidy(Marked(t, marks), u', [])
  {
    var t' := Marked(t, marks);
    MarksLinked(t, t');
    forall y | y in t' ensures Kept(t', u', [], y) {
      assert NodeLinked(t, y) && Kept(t, u, [], y);
    }
  }

  // ---------------------------------------------------------------- tidy is exactly what keeps the sign

  /** Arrivals one after the other, each possible and with its guard met. */
  ghost predicate Allowed(s: Index, arrivals: seq<(Id, nat)>)
    requires Sound(s, [])
    decreases |arrivals|
  {
    arrivals == [] ||
    (var (x, nTx) := arrivals[0];
     CanArrive(s.t, x, nTx) && GoodParent(s.t, x) && Allowed(Received(s, x, nTx), arrivals[1..]))
  }

  ghost function ReceivedAll(s: Index, arrivals: seq<(Id, nat)>): (r: Index)
    requires Sound(s, []) && Allowed(s, arrivals)
    ensures Sound(r, [])
    decreases |arrivals|
  {
    if arrivals == [] then s else ReceivedAll(Received(s, arrivals[0].0, arrivals[0].1), arrivals[1..])
  }

  lemma {:induction false} ThenOne(s: Index, arrivals: seq<(Id, nat)>, x: Id, nTx: nat)
    requires Sound(s, []) && Allowed(s, arrivals) && CanArrive(ReceivedAll(s, arrivals).t, x, nTx) && GoodParent(ReceivedAll(s, arrivals).t, x)
    ensures Allowed(s, arrivals + [(x, nTx)])
    ensures ReceivedAll(s, arrivals + [(x, nTx)]) == Received(ReceivedAll(s, arrivals), x, nTx)
    decreases |arrivals|
  {
    hide Sound, CanArrive, GoodParent, Received;
    var all := arrivals + [(x, nTx)];
    if arrivals == [] {
      assert all == [(x, nTx)] && all[1..] == [];
    } else {
      ThenOne(Received(s, arrivals[0].0, arrivals[0].1), arrivals[1..], x, nTx);
      assert all[0] == arrivals[0] && all[1..] == arrivals[1..] + [(x, nTx)];
    }
  }

  /** Processed, uncounted, and waiting for nothing. */
  ghost predicate Stray(s: Index, z: Id) {
    && z in s.t && s.t[z].nTx > 0 && s.t[z].nChainTx == 0
    && !(s.t[z].pprev.To? && (s.t[z].pprev.id, z) in s.u)
  }

  lemma {:induction false} StrayDrained(s: Index, queue: seq<Id>, z: Id)
    requires Sound(s, queue) && Stray(s, z) && z !in queue
    ensures Stray(Drained(s, queue), z)
    decreases |s.u| + |queue|
  {
    if queue != [] {
      HeadKnown(s, queue);
      var n := CountedNode(s, queue[0]);
      LinkedSound(s, queue, n);
      StrayLinked(s, queue, n, z);
      hide Sound, Stray, LinkedFirst, Kids, CountedNode;
      StrayDrained(LinkedFirst(s, queue, n), queue[1..] + Kids(s.u, queue[0]), z);
    }
  }

  lemma StrayLinked(s: Index, queue: seq<Id>, n: Node, z: Id)
    requires queue != [] && Sound(s, queue) && queue[0] in s.t && Counts(s.t, queue[0], n) && Stray(s, z) && z !in queue
    ensures Stray(LinkedFirst(s, queue, n), z) && z !in queue[1..] + Kids(s.u, queue[0])
  {
    assert queue[0] in queue;
    assert (queue[0], z) in s.u ==> PairOk(s.t, s.v, s.u, queue, queue[0], z);
  }

  /** Nothing but its own arrival ends that. */
  lemma StrayReceived(s: Index, x: Id, nTx: nat, z: Id)
    requires Sound(s, []) && CanArrive(s.t, x, nTx) && Stray(s, z) && z != x
    ensures Stray(Received(s, x, nTx), z)
  {
    SoundShape(s, []);
    assert NodeLinked(s.t, x);
    if StartsQueue(s, x) {
      StoredSound(s, x, nTx, s.u, [x]);
      StrayDrained(s.(t := s.t[x := Stored(s.t[x], nTx)]), [x], z);
    }
  }

  /** Trees with the same entries as far as links, heights and processing go, but for counts. */
  ghost predicate SamePlaces(t: Nodes, t': Nodes) {
    (forall y :: y in t' <==> y in t) && SameShape(t, t')
  }

  /** A processed block without a count under a counted parent is the failure itself. */
  lemma SignalLost(s: Index, y: Id)
    requires Sound(s, []) && y in s.t && s.t[y].nTx > 0 && s.t[y].nChainTx == 0 && Linked(s.t) && StartsQueue(s, y)
    ensures !CountsSignal(s.t)
  {
    StrandedProcessed(s.t, s.v, s.u, y);
  }

  /** Under a counted parent, the sign is lost already, the block is counted, or it may arrive and then is. */
  lemma CountNext(s: Index, p: Id, z: Id)
    requires Sound(s, []) && Stray(s, z) && p in s.t && p != z && Linked(s.t) && StartsQueue(s, p)
    requires CountsSignal(s.t) && s.t[p].nChainTx == 0
    ensures CanArrive(s.t, p, 1) && GoodParent(s.t, p)
    ensures var r := Received(s, p, 1); Linked(r.t) && SamePlaces(s.t, r.t) && Stray(r, z) && r.t[p].nChainTx > 0
  {
    hide Sound, Received, CountsSignal, Linked, Stray, StartsQueue, GoodParent;
    if s.t[p].nTx > 0 {
      SignalLost(s, p);
    }
    Unprocessed(s, p);
    StrayReceived(s, p, 1, z);
    SameEntries(s, p, 1);
    EntriesPlaced(s.t, p, Received(s, p, 1).t);
    SoundShape(Received(s, p, 1), []);
  }

  lemma Unprocessed(s: Index, p: Id)
    requires Sound(s, []) && p in s.t && Linked(s.t) && StartsQueue(s, p) && s.t[p].nTx == 0
    ensures CanArrive(s.t, p, 1) && GoodParent(s.t, p)
  {
    assert NodeLinked(s.t, p) && CountOk(s.t, p);
  }

  lemma EntriesPlaced(t: Nodes, p: Id, t': Nodes)
    requires p in t && OnlyCounts(t[p := Stored(t[p], 1)], t')
    ensures SamePlaces(t, t')
  {
  }

  lemma PlacesAgain(t: Nodes, t1: Nodes, t2: Nodes)
    requires SamePlaces(t, t1) && SamePlaces(t1, t2)
    ensures SamePlaces(t, t2)
  {
  }

  lemma ParentKnown(s: Index, p: Id)
    requires Sound(s, []) && p in s.t
    ensures Linked(s.t) && SamePlaces(s.t, s.t) && (s.t[p].pprev.Null? ==> StartsQueue(s, p))
    ensures s.t[p].pprev.To? ==> s.t[p].pprev.id in s.t && s.t[s.t[p].pprev.id].nHeight < s.t[p].nHeight
  {
    assert NodeLinked(s.t, p);
  }

  lemma ParentThere(s: Index, r: Index, p: Id)
    requires Linked(s.t) && Linked(r.t) && p in s.t && SamePlaces(s.t, r.t) && (s.t[p].pprev.To? ==> s.t[p].pprev.id in r.t && r.t[s.t[p].pprev.id].nChainTx > 0)
    ensures StartsQueue(r, p)
  {
  }

  /** Arrivals, each allowed, after which p is counted or the sign is lost; a stray block above p stays one. */
  lemma {:induction false} CountUp(s: Index, p: Id, z: Id) returns (arrivals: seq<(Id, nat)>)
    requires Sound(s, []) && Stray(s, z) && p in s.t && s.t[p].nHeight < s.t[z].nHeight
    ensures Allowed(s, arrivals)
    ensures var r := ReceivedAll(s, arrivals);
            Linked(r.t) && SamePlaces(s.t, r.t) && Stray(r, z) && (!CountsSignal(r.t) || r.t[p].nChainTx > 0)
    decreases s.t[p].nHeight
  {
    hide Sound, Received, CountsSignal, Linked, Stray, StartsQueue, GoodParent, CanArrive;
    ParentKnown(s, p);
    arrivals := [];
    if s.t[p].pprev.To? {
      arrivals := CountUp(s, s.t[p].pprev.id, z);
    }
    var r := ReceivedAll(s, arrivals);
    if CountsSignal(r.t) && r.t[p].nChainTx == 0 {
      ParentThere(s, r, p);
      CountNext(r, p, z);
      ThenOne(s, arrivals, p, 1);
      PlacesAgain(s.t, r.t, Received(r, p, 1).t);
      arrivals := arrivals + [(p, 1)];
    }
  }

  /** From a state that is not tidy some allowed arrivals lose the sign. */
  lemma UntidyLoses(s: Index) returns (arrivals: seq<(Id, nat)>)
    requires Sound(s, []) && Linked(s.t) && !Tidy(s.t, s.u, [])
    ensures Allowed(s, arrivals) && Linked(ReceivedAll(s, arrivals).t) && !CountsSignal(ReceivedAll(s, arrivals).t)
  {
    var z :| z in s.t && !Kept(s.t, s.u, [], z);
    assert NodeLinked(s.t, z);
    arrivals := [];
    if StartsQueue(s, z) {
      SignalLost(s, z);
    } else {
      arrivals := CountUp(s, s.t[z].pprev.id, z);
      var r := ReceivedAll(s, arrivals);
      assert NodeLinked(r.t, z);
      if r.t[s.t[z].pprev.id].nChainTx > 0 {
        SignalLost(r, z);
      }
    }
  }

  lemma {:induction false} TidyStays(s: Index, arrivals: seq<(Id, nat)>)
    requires Sound(s, []) && Linked(s.t) && Tidy(s.t, s.u, []) && Allowed(s, arrivals)
    ensures Linked(ReceivedAll(s, arrivals).t) && CountsSignal(ReceivedAll(s, arrivals).t)
    decreases |arrivals|
  {
    hide Sound, Received, Tidy, CanArrive, GoodParent;
    if arrivals == [] {
      TidySignals(s);
    } else {
      TidyReceived(s, arrivals[0].0, arrivals[0].1);
      TidyStays(Received(s, arrivals[0].0, arrivals[0].1), arrivals[1..]);
    }
  }

  /** The sign holds now and after all allowed arrivals if and only if the state is tidy. */
  lemma TidyExactly(s: Index)
    requires Sound(s, []) && Linked(s.t)
    ensures Tidy(s.t, s.u, []) <==>
            forall arrivals | Allowed(s, arrivals) :: Linked(ReceivedAll(s, arrivals).t) && CountsSignal(ReceivedAll(s, arrivals).t)
  {
    hide Sound, Tidy, Allowed, CountsSignal;
    if Tidy(s.t, s.u, []) {
      forall arrivals | Allowed(s, arrivals) ensures Linked(ReceivedAll(s, arrivals).t) && CountsSignal(ReceivedAll(s, arrivals).t) {
        TidyStays(s, arrivals);
      }
    } else {
      var arrivals := UntidyLoses(s);
    }
  }
}
