/** The block index: headers and blocks arriving in any order, pruning, failures, and the choice of the best chain. */
module BlockIndex {
  import opened BlockTree
  import opened ActiveChain
  import opened Linking
  import opened MostWork
  import opened Candidates
  import opened ChainMoves
  import opened IndexState
  import opened CountSignal
  import opened Sets

  datatype Event =
    | Header(x: Id, prev: Id, proof: nat)
    | Arrival(x: Id, nTx: nat)
    | Prune(file: set<Id>)
    | Invalid(x: Id)
    | Activate

  class BlockIndex {
    const active: Chain
    var nodes: Nodes
    var unlinked: Pairs
    var candidates: set<Id>
    var nBlockSequenceId: nat
    var bestInvalid: Link
    var bestHeader: Link

    ghost function St(): Index
      reads this, active
    {
      Index(nodes, active.vChain, unlinked, candidates, nBlockSequenceId)
    }

    ghost predicate Valid()
      reads this, active
    {
      Sound(St(), []) && PointersOk()
    }

    /** Every processed block without a count waits for an uncounted parent. */
    ghost predicate TidyNow()
      reads this
    {
      Linked(nodes) && Tidy(nodes, unlinked, [])
    }

    ghost predicate PointersOk()
      reads this
    {
      (bestHeader.To? ==> bestHeader.id in nodes) && (bestInvalid.To? ==> bestInvalid.id in nodes)
    }

    constructor ()
      ensures Valid() && TidyNow() && nodes == map[] && fresh(active) && active.vChain == []
    {
      active := new Chain();
      nodes, unlinked, candidates := map[], [], {};
      nBlockSequenceId, bestInvalid, bestHeader := 1, Null, Null;
    }

    /** AddToBlockIndex. */
    method AddToBlockIndex(x: Id, prev: Id, proof: nat)
      requires Valid() && proof > 0
      modifies this`nodes, this`bestHeader
      ensures Valid() && (x in old(nodes) ==> nodes == old(nodes))
      ensures x !in old(nodes) ==> Grown(old(nodes), nodes, x) && !nodes[x].failed && !nodes[x].haveData && nodes[x].nChainTx == 0 &&
                                   nodes[x].pprev == (if prev in old(nodes) then To(prev) else Null) &&
                                   nodes[x].nChainWork == (if prev in old(nodes) then old(nodes)[prev].nChainWork else 0) + proof
      ensures bestHeader == if x !in old(nodes) && (old(bestHeader).Null? || old(nodes)[old(bestHeader).id].nChainWork < nodes[x].nChainWork)
                            then To(x) else old(bestHeader)
      ensures old(TidyNow()) ==> TidyNow()
    {
      hide SkipHeight, Sound, ChainOk, SkipsOk, Tidy;
      SoundShape(St(), []);
      SoundNext(St());
      if x in nodes {
        return;
      }
      var n := Node(Null, Null, 0, proof, 0, 0, false, false, 0);
      if prev in nodes {
        var skip := GetAncestor(nodes, prev, SkipHeight(nodes[prev].nHeight + 1));
        n := n.(pprev := To(prev), pskip := skip, nHeight := nodes[prev].nHeight + 1, nChainWork := nodes[prev].nChainWork + proof);
      }
      GrownOk(nodes, nodes[x := n], x);
      HeaderSound(St(), nodes[x := n], x);
      if TidyNow() {
        KeptHeader(nodes, nodes[x := n], unlinked, x);
      }
      nodes := nodes[x := n];
      if bestHeader.Null? || nodes[bestHeader.id].nChainWork < n.nChainWork {
        bestHeader := To(x);
      }
    }

    /** The children waiting for x leave the waiting map. */
    method ReleaseChildren(x: Id) returns (kids: seq<Id>)
      modifies this`unlinked
      ensures unlinked == Released(old(unlinked), x) && kids == Kids(old(unlinked), x)
    {
      kids := [];
      var all := unlinked;
      unlinked := [];
      var i: nat := |all|;
      while i > 0
        invariant i <= |all| && unlinked == Released(all[i..], x) && kids == Kids(all[i..], x)
      {
        i := i - 1;
        ReleaseOne(all[i..], x);
        assert all[i..][0] == all[i] && all[i..][1..] == all[i + 1..];
        if all[i].0 == x {
          kids := [all[i].1] + kids;
        } else {
          unlinked := [all[i]] + unlinked;
        }
      }
      assert all[0..] == all;
    }

    /** Makes a linked block a candidate if it is as good as the tip. */
    method Offer(x: Id)
      requires Linked(nodes) && ChainOk(nodes, active.vChain) && x in nodes
      modifies this`candidates
      ensures candidates == old(candidates) + (if AsGood(nodes, active.vChain, x) then {x} else {})
    {
      if active.vChain == [] {
        candidates := candidates + {x};
      } else {
        var tip := TipOf(nodes, active.vChain);
        if !Worse(nodes, x, tip) {
          candidates := candidates + {x};
        }
      }
    }

    /** One round of the work queue: its first block gets its count and sequence number and may become a candidate,
        and the blocks waiting for it join the queue. The count of that block may have been reset before. */
    method LinkFirst(queue: seq<Id>, ghost s: Index) returns (rest: seq<Id>)
      requires queue != [] && Sound(s, queue) && queue[0] in s.t && Linked(s.t) && Recounted(s, St(), queue[0])
      modifies this`nodes, this`unlinked, this`candidates, this`nBlockSequenceId
      ensures St() == LinkedFirst(s, queue, CountedNode(s, queue[0])) && rest == queue[1..] + Kids(s.u, queue[0])
    {
      hide TreeOk, Sound, AsGood, ChainOk, Linked, Recounted, Counts, Kids, Released;
      var x := queue[0];
      RecountedKnown(s, St(), queue);
      var n := nodes[x].(nChainTx := (if nodes[x].pprev.To? then nodes[nodes[x].pprev.id].nChainTx else 0) + nodes[x].nTx,
                         nSequenceId := nBlockSequenceId);
      RecountedCounts(s, St(), x, n);
      LinkedKnown(s, queue, n);
      nodes, nBlockSequenceId := nodes[x := n], nBlockSequenceId + 1;
      Offer(x);
      var kids := ReleaseChildren(x);
      rest := queue[1..] + kids;
    }

    /** The work queue: it runs dry. */
    method LinkAll(x: Id, ghost s: Index)
      requires Sound(s, [x]) && x in s.t && Recounted(s, St(), x)
      modifies this`nodes, this`unlinked, this`candidates, this`nBlockSequenceId
      ensures St() == Drained(s, [x])
    {
      hide Sound, Linked, LinkedFirst, Kids, CountedNode;
      HeadKnown(s, [x]);
      var queue := [x];
      ghost var now := s;
      while queue != []
        invariant Sound(now, queue) && Drained(now, queue) == Drained(s, [x]) && |unlinked| == |now.u|
        invariant if queue == [] then St() == now else queue[0] in now.t && Linked(now.t) && Recounted(now, St(), queue[0])
        decreases |unlinked| + |queue|
      {
        RoundShrinks(now, queue);
        queue := LinkFirst(queue, now);
        now := St();
        if queue != [] {
          HeadKnown(now, queue);
        }
      }
    }

    /** The block is stored; if its parent is counted the queue starts with it, else it waits behind its parent. */
    method StoreBlock(x: Id, nTx: nat)
      requires Sound(St(), []) && CanArrive(nodes, x, nTx)
      modifies this`nodes, this`unlinked, this`candidates, this`nBlockSequenceId
      ensures St() == Received(old(St()), x, nTx)
    {
      SoundShape(St(), []);
      assert NodeLinked(nodes, x);
      hide TreeOk, Sound, ChainOk, Linked, Recounted, Drained;
      ghost var s := St();
      if nodes[x].pprev.Null? || nodes[nodes[x].pprev.id].nChainTx != 0 {
        ghost var s' := s.(t := s.t[x := Stored(s.t[x], nTx)]);
        StoredSound(s, x, nTx, unlinked, [x]);
        nodes := nodes[x := Arrived(nodes[x], nTx)];
        ResetCount(s, s', St(), x, nTx);
        LinkAll(x, s');
      } else {
        StoredSound(s, x, nTx, Behind(s.t, s.u, x), []);
        if !nodes[nodes[x].pprev.id].failed {
          unlinked := unlinked + [(nodes[x].pprev.id, x)];
        }
        nodes := nodes[x := Arrived(nodes[x], nTx)];
      }
    }

    /** ReceivedBlockTransactions: the block, new or back after pruning, and every stored descendant it was holding
        up are linked; every chain that can be used again and is as good as the tip is a candidate again. A tidy index
        stays tidy exactly if the parent is not both uncounted and failed. */
    method ReceivedBlockTransactions(x: Id, nTx: nat)
      requires Valid() && CanArrive(nodes, x, nTx)
      modifies this`nodes, this`unlinked, this`candidates, this`nBlockSequenceId
      ensures Valid() && Linked(nodes) && St() == Received(old(St()), x, nTx)
      ensures OnlyCounts(old(nodes)[x := Stored(old(nodes)[x], nTx)], nodes)
      ensures forall y | y in nodes && nodes[y].nChainTx > 0 && AsGood(nodes, active.vChain, y) && Usable(nodes, active.vChain, y) :: y in candidates
      ensures old(TidyNow()) ==> (TidyNow() <==> GoodParent(old(nodes), x))
    {
      hide TreeOk, Sound, ChainOk, Linked, OnlyCounts, AsGood, Usable, Received, Tidy, CanArrive, GoodParent;
      ghost var s := St();
      SameEntries(s, x, nTx);
      if TidyNow() {
        TidyReceived(s, x, nTx);
      }
      StoreBlock(x, nTx);
      SoundShape(St(), []);
      Complete(St());
    }

    /** One block loses its data and waits for nothing. */
    method PruneBlock(x: Id)
      requires Valid() && x in nodes && (nodes[x].haveData ==> nodes[x].nHeight + MIN_BLOCKS_TO_KEEP <= |active.vChain| - 1)
      modifies this`nodes, this`unlinked
      ensures Valid() && nodes == old(nodes)[x := Pruned(old(nodes)[x])]
      ensures forall p, c :: (p, c) in unlinked <==> (p, c) in old(unlinked) && c != x
      ensures TidyNow() <==> old(TidyNow()) && GoodPrune(old(nodes), x)
    {
      hide Sound, Tidy, Linked, GoodPrune;
      SoundShape(St(), []);
      Erasing(St(), x);
      NotNearTip(St(), x);
      PrunedSound(St(), x);
      PruneTidies(St(), x);
      if nodes[x].pprev.To? {
        unlinked := Erased(unlinked, nodes[x].pprev.id, x);
      }
      nodes := nodes[x := Pruned(nodes[x])];
    }

    /** PruneOneBlockFile: the blocks of the file lose their data and wait for nothing. A tidy index stays tidy exactly
        if none of them was stored and uncounted. */
    method PruneOneBlockFile(file: set<Id>)
      requires Valid() && CanPrune(nodes, active.vChain, file)
      modifies this`nodes, this`unlinked
      ensures Valid() && (forall x :: x in nodes <==> x in old(nodes))
      ensures forall x | x in nodes :: nodes[x] == if x in file then Pruned(old(nodes)[x]) else old(nodes)[x]
      ensures forall p, c :: (p, c) in unlinked <==> (p, c) in old(unlinked) && (c in old(nodes) ==> c !in file)
      ensures TidyNow() <==> old(TidyNow()) && forall x | x in file :: GoodPrune(old(nodes), x)
    {
      hide BlockIndex.Valid, BlockIndex.TidyNow, GoodPrune;
      var left := file;
      while left != {}
        invariant Valid() && left <= file && (forall x :: x in nodes <==> x in old(nodes))
        invariant forall x | x in nodes :: nodes[x] == if x in file && x !in left then Pruned(old(nodes)[x]) else old(nodes)[x]
        invariant forall p, c :: (p, c) in unlinked <==> (p, c) in old(unlinked) && (c in old(nodes) ==> c !in file || c in left)
        invariant TidyNow() <==> old(TidyNow()) && forall x | x in file && x !in left :: GoodPrune(old(nodes), x)
        decreases |left|
      {
        var x :| x in left;
        left := left - {x};
        SameGuard(old(nodes), nodes, x);
        if x in nodes {
          PruneBlock(x);
        }
      }
    }

    /** InvalidBlockFound: the block is marked and is no candidate any more. */
    method InvalidBlockFound(x: Id)
      requires Valid() && x in nodes && !Contains(nodes, active.vChain, x)
      modifies this`nodes, this`candidates, this`bestInvalid
      ensures Valid() && nodes == old(nodes)[x := old(nodes)[x].(failed := true)] && candidates == old(candidates) - {x}
      ensures old(TidyNow()) ==> TidyNow()
      ensures bestInvalid == if old(bestInvalid).Null? || old(nodes)[x].nChainWork > old(nodes)[old(bestInvalid).id].nChainWork
                             then To(x) else old(bestInvalid)
    {
      hide Sound, Tidy, Linked;
      assert Marked(nodes, {x}) == nodes[x := nodes[x].(failed := true)];
      FailedSound(St(), x);
      if TidyNow() {
        TidyMarked(nodes, {x}, unlinked, unlinked);
      }
      if bestInvalid.Null? || nodes[x].nChainWork > nodes[bestInvalid.id].nChainWork {
        bestInvalid := To(x);
      }
      nodes, candidates := nodes[x := nodes[x].(failed := true)], candidates - {x};
    }

    /** Drops a candidate and every entry between it and the trouble found below it. */
    method RemoveChain(best: Id, stop: Id, failedChain: bool)
      requires Linked(nodes) && best in nodes && IsAncestor(nodes, stop, best)
      modifies this`nodes, this`unlinked, this`candidates
      ensures stop in old(nodes) && Removed(old(nodes), old(unlinked), old(candidates) - {stop}, best, old(nodes)[stop].nHeight, failedChain,
                      nodes, unlinked, candidates)
    {
      hide Ancestor, IsAncestor, Removed;
      ghost var t := nodes;
      RemovedStart(t, unlinked, candidates, best, failedChain);
      ghost var h := t[best].nHeight;
      var z := best;
      AncestorSelf(t, best, stop);
      while z != stop
        invariant t[stop].nHeight <= h <= t[best].nHeight && z == Ancestor(t, best, h) && z in t
        invariant Removed(t, old(unlinked), old(candidates), best, h, failedChain, nodes, unlinked, candidates)
        decreases h
      {
        PassedParent(t, best, stop, h);
        RemovedStep(t, old(unlinked), old(candidates), best, h, failedChain, nodes, unlinked, candidates);
        if failedChain {
          nodes := nodes[z := nodes[z].(failed := true)];
        } else {
          unlinked := unlinked + [(nodes[z].pprev.id, z)];
        }
        candidates := candidates - {z};
        z := nodes[z].pprev.id;
        h := h - 1;
      }
      StopRemoved(t, old(unlinked), old(candidates), best, stop, h, failedChain, nodes, unlinked, candidates);
      candidates := candidates - {stop};
    }

    /** A candidate with trouble below is dropped, and remembered as invalid if the trouble is a failure. */
    method DropCandidate(best: Id, stop: Id)
      requires Valid() && best in candidates && best in nodes && stop in nodes && Linked(nodes) && IsAncestor(nodes, stop, best)
      requires Bad(nodes[stop]) && !Contains(nodes, active.vChain, stop) && Walked(nodes, active.vChain, best, nodes[stop].nHeight)
      modifies this`nodes, this`unlinked, this`candidates, this`bestInvalid
      ensures Valid() && Equivalent(old(nodes), nodes, active.vChain) && best in nodes
      ensures DroppedUnusable(old(nodes), active.vChain, old(candidates), candidates) && best !in candidates
      ensures old(TidyNow()) ==> TidyNow()
      ensures Removed(old(nodes), old(unlinked), old(candidates) - {stop}, best, old(nodes)[stop].nHeight,
                      old(nodes)[stop].failed, nodes, unlinked, candidates)
      ensures bestInvalid == if old(nodes)[stop].failed &&
                                (old(bestInvalid).Null? || old(nodes)[best].nChainWork > old(nodes)[old(bestInvalid).id].nChainWork)
                             then To(best) else old(bestInvalid)
    {
      hide Linked, Usable, Equivalent, Walked, DroppedUnusable, IsAncestor, Bad, Removed, Sound, Ancestor, Contains, Tidy;
      ghost var s := St();
      if nodes[stop].failed && (bestInvalid.Null? || nodes[best].nChainWork > nodes[bestInvalid.id].nChainWork) {
        bestInvalid := To(best);
      }
      RemoveChain(best, stop, nodes[stop].failed);
      DropMeans(s, best, stop, nodes, unlinked, candidates);
      DropTidy(s, best, stop, nodes, unlinked, candidates);
    }

    /** Walks from a candidate towards the active chain; on trouble the candidate is dropped. */
    method TryCandidate(best: Id) returns (usable: bool, ghost stop: Id)
      requires Valid() && best in candidates
      modifies this`nodes, this`unlinked, this`candidates, this`bestInvalid
      ensures Valid() && Equivalent(old(nodes), nodes, active.vChain) && best in nodes
      ensures usable ==> nodes == old(nodes) && candidates == old(candidates) && Usable(nodes, active.vChain, best)
      ensures usable ==> unlinked == old(unlinked)
      ensures old(TidyNow()) ==> TidyNow()
      ensures !usable ==> DroppedUnusable(old(nodes), active.vChain, old(candidates), candidates) && best !in candidates
      ensures !usable ==> best in old(nodes) && IsAncestor(old(nodes), stop, best) && Bad(old(nodes)[stop]) &&
                          Walked(old(nodes), active.vChain, best, old(nodes)[stop].nHeight) &&
                          Removed(old(nodes), old(unlinked), old(candidates) - {stop}, best, old(nodes)[stop].nHeight,
                                  old(nodes)[stop].failed, nodes, unlinked, candidates)
      ensures bestInvalid == if !usable && old(nodes)[stop].failed &&
                                (old(bestInvalid).Null? || old(nodes)[best].nChainWork > old(nodes)[old(bestInvalid).id].nChainWork)
                             then To(best) else old(bestInvalid)
    {
      hide TreeOk, Linked, ChainOk, Usable, Equivalent, Walked, Ancestor, DroppedUnusable, IsAncestor, Bad, Removed, Sound, Ahead, AsGood, Tidy;
      CandidateKnown(St(), best);
      SoundShape(St(), []);
      stop := best;
      ghost var v := active.vChain;
      EquivalentSelf(nodes, v);
      WalkStart(nodes, v, best);
      var test := To(best);
      ghost var h: int := nodes[best].nHeight;
      while test.To? && !Contains(nodes, active.vChain, test.id)
        invariant nodes == old(nodes) && candidates == old(candidates) && unlinked == old(unlinked) && bestInvalid == old(bestInvalid) && Valid()
        invariant test.To? ==> test.id in nodes && h == nodes[test.id].nHeight && IsAncestor(nodes, test.id, best) &&
                               nodes[test.id].nChainTx > 0
        invariant test.Null? ==> h == -1
        invariant Walked(nodes, v, best, h)
        invariant Usable(nodes, v, best) <==> (test.To? ==> Usable(nodes, v, test.id))
        decreases h
      {
        var x := test.id;
        assert nodes[x].nChainTx != 0;
        if Bad(nodes[x]) {
          DropCandidate(best, x);
          return false, x;
        }
        WalkStep(nodes, v, best, x);
        ParentCounted(St(), x);
        test := nodes[x].pprev;
        h := h - 1;
      }
      if test.To? {
        OnChainUsable(nodes, v, test.id);
      }
      return true, best;
    }

    /** FindMostWorkChain: the greatest candidate with a usable path, or nothing if there is none; each retry shrinks
        the candidates, only unusable ones are dropped, and the one found beats every counted and usable block. */
    method FindMostWorkChain() returns (best: Link)
      requires Valid()
      modifies this`nodes, this`unlinked, this`candidates, this`bestInvalid
      ensures Valid() && Equivalent(old(nodes), nodes, active.vChain) && MarksTrue(old(nodes), nodes)
      ensures DroppedUnusable(old(nodes), active.vChain, old(candidates), candidates)
      ensures best.To? ==> best.id in candidates && best.id in old(nodes) && Usable(old(nodes), active.vChain, best.id)
      ensures best.To? ==>
                forall x | x in old(nodes) && old(nodes)[x].nChainTx > 0 && Usable(old(nodes), active.vChain, x) && x != best.id ::
                  Worse(old(nodes), x, best.id) && MoreOrEarlier(old(nodes), best.id, x)
      ensures best.To? ==> forall c | c in candidates && c != best.id :: c in nodes && best.id in nodes && Worse(nodes, c, best.id)
      ensures best.Null? ==> candidates == {} && forall c | c in old(candidates) :: c in old(nodes) && !Usable(old(nodes), active.vChain, c)
      ensures old(TidyNow()) ==> TidyNow()
      ensures forall c | c in old(candidates) && c !in candidates :: c in nodes &&
                (!Unfailed(nodes, active.vChain, c) || !nodes[c].haveData || Waiting(nodes, unlinked, [], c))
    {
      hide TreeOk, ChainOk, Usable, Equivalent, Worse, MoreOrEarlier, MarksTrue, Removed, IsAncestor, Bad, Walked, Sound, Unfailed, Waiting,
           Linked, Tidy;
      SoundShape(St(), []);
      ghost var s, v := St(), active.vChain;
      WorseMeans(s.t);
      EquivalentSelf(s.t, v);
      NoNewMarks(s.t);
      CandidatesKnown(s);
      BestCandidate(s);
      while candidates != {}
        invariant Valid() && Equivalent(s.t, nodes, v) && DroppedUnusable(s.t, v, s.c, candidates)
        invariant MarksTrue(s.t, nodes) && (old(TidyNow()) ==> TidyNow())
        decreases |candidates|
      {
        CandidatesKnown(St());
        var x := Greatest(nodes, candidates);
        ghost var s1 := St();
        SoundShape(s1, []);
        MarkedKnown(s.t, s1.t, v);
        var usable, stop := TryCandidate(x);
        if usable {
          GreatestUsable(s.t, nodes, v, s.c, candidates, x);
          DroppedWait(s, St());
          return To(x);
        }
        EquivalentTrans(s.t, s1.t, nodes, v);
        StillTrue(s.t, s1.t, v, x, stop, s1.u, s1.c - {stop}, nodes, unlinked, candidates);
        DropTrans(s.t, s1.t, v, s.c, s1.c, candidates);
        FewerCandidates(candidates, s1.c, x);
      }
      DroppedWait(s, St());
      return Null;
    }

    /** PruneBlockIndexCandidates: exactly the candidates worse than the tip go. */
    method PruneBlockIndexCandidates(x: Id)
      requires x in nodes && forall y | y in candidates :: y in nodes
      modifies this`candidates
      ensures NoWorse(nodes, old(candidates), candidates, x) && candidates <= old(candidates)
    {
      hide Worse;
      while candidates != {}
        invariant candidates <= old(candidates)
        invariant forall y | y in old(candidates) && y !in candidates :: Worse(nodes, y, x)
        decreases |candidates|
      {
        var least := Least(nodes, candidates);
        if !Worse(nodes, least, x) {
          NoneWorse(nodes, candidates, least, x);
          break;
        }
        candidates := candidates - {least};
      }
    }

    /** ActivateBestChainStep when nothing goes wrong, up to the target: the chain is cut back to the fork and the path
        connected block by block, with the candidates pruned at each new tip. At each of them the target is a candidate
        and no block that could be the best is missing; in the end the chain is the path to the target. */
    method ActivateBestChain(best: Id)
      requires Valid() && best in candidates && best in nodes && (SoundShape(St(), []); Usable(nodes, active.vChain, best))
      requires forall y | y in candidates && y != best :: y in nodes && Worse(nodes, y, best)
      modifies this`candidates, active
      ensures Valid() && best in candidates && Linked(nodes)
      ensures PathTo(nodes, active.vChain, best)
      ensures candidates <= old(candidates) && forall y | y in candidates :: y == best
    {
      hide TreeOk, Sound, Worse, Usable, Linked, ChainOk, Ancestor, NoWorse, OnTheWay, IsAncestor;
      ghost var s := St();
      SoundShape(s, []);
      var fork := active.FindFork(nodes, best);
      DisconnectTo(fork);
      var start := if fork.To? then nodes[fork.id].nHeight + 1 else 0;
      ForkBelow(s, best, fork);
      var h := start;
      while h <= nodes[best].nHeight
        modifies this`candidates, active
        invariant start <= h <= nodes[best].nHeight + 1 && ChainOk(nodes, active.vChain) && candidates <= s.c
        invariant if h == start then candidates == s.c && active.vChain == s.v[..start]
                  else OnTheWay(s, best, Ancestor(nodes, best, h - 1), active.vChain, candidates)
      {
        var x := GetAncestor(nodes, best, h);
        Above(s, best, fork, h);
        ghost var v := active.vChain;
        active.SetTip(nodes, x);
        assert PathTo(nodes, active.vChain, x.id);
        ghost var c := candidates;
        PruneBlockIndexCandidates(x.id);
        NextOnTheWay(s, best, fork, h, v, c, candidates, active.vChain);
        h := h + 1;
      }
      AncestorTop(nodes, best);
      AtTarget(s, best, fork, active.vChain, candidates);
    }

    /** Blocks are disconnected one by one until the fork is the tip. */
    method DisconnectTo(fork: Link)
      requires Linked(nodes) && ChainOk(nodes, active.vChain) && (fork.To? ==> fork.id in nodes && Contains(nodes, active.vChain, fork.id))
      modifies active
      ensures ChainOk(nodes, active.vChain)
      ensures active.vChain == old(active.vChain)[..if fork.To? then nodes[fork.id].nHeight + 1 else 0]
    {
      var n := if fork.To? then nodes[fork.id].nHeight + 1 else 0;
      while |active.vChain| > n
        invariant n <= |active.vChain| <= |old(active.vChain)| && active.vChain == old(active.vChain)[..|active.vChain|]
        invariant ChainOk(nodes, active.vChain)
        decreases |active.vChain|
      {
        var tip := TipOf(nodes, active.vChain);
        ghost var v := active.vChain;
        ParentPath(nodes, v);
        active.SetTip(nodes, nodes[tip].pprev);
      }
    }

    /** One thing that happens to the index; whether it met its guard. */
    method Step(event: Event) returns (guarded: bool)
      requires Valid()
      modifies this, active
      ensures Valid() && (old(TidyNow()) ==> (TidyNow() <==> guarded))
    {
      hide Sound, Usable, Linked, Worse, TreeOk, ChainOk, Tidy, GoodParent, GoodPrune, Received, OnlyCounts, CanArrive;
      SoundShape(St(), []);
      guarded := true;
      match event {
        case Header(x, prev, proof) =>
          if proof > 0 {
            AddToBlockIndex(x, prev, proof);
          }
        case Arrival(x, nTx) =>
          if CanArrive(nodes, x, nTx) {
            guarded := GoodParent(nodes, x);
            ReceivedBlockTransactions(x, nTx);
          }
        case Prune(file) =>
          if CanPrune(nodes, active.vChain, file) {
            guarded := forall x | x in file :: GoodPrune(nodes, x);
            PruneOneBlockFile(file);
          }
        case Invalid(x) =>
          if x in nodes && !Contains(nodes, active.vChain, x) {
            InvalidBlockFound(x);
          }
        case Activate =>
          ghost var t := nodes;
          var best := FindMostWorkChain();
          if best.To? {
            StillUsable(t, nodes, active.vChain, best.id);
            ActivateBestChain(best.id);
          }
      }
    }

    /** Any order of headers, arrivals, prunings, failures and moves of the tip to the best chain: counts are right,
        what waits has to, and no block that could be the best is missing from the candidates. If no block was pruned
        while stored and uncounted and none arrived behind an uncounted failed parent, counts signal processed chains. */
    method Run(events: seq<Event>) returns (guarded: bool)
      requires Valid()
      modifies this, active
      ensures Valid() && Linked(nodes)
      ensures old(TidyNow()) && guarded ==> TidyNow() && CountsSignal(nodes)
      ensures forall x | x in nodes && nodes[x].nChainTx > 0 :: nodes[x].nChainTx == TotalTx(nodes, x) && AllProcessed(nodes, x)
      ensures forall x | x in nodes && AllArrived(nodes, x) && !HasFailed(nodes, x) :: nodes[x].nChainTx > 0
      ensures forall x | x in nodes && nodes[x].nChainTx == 0 :: nodes[x].nSequenceId == 0
      ensures forall p: Id, x: Id | (p, x) in unlinked ::
                x in nodes && nodes[x].pprev == To(p) && nodes[x].haveData && p in nodes && (!AllArrived(nodes, p) || HasFailed(nodes, p))
      ensures forall x | x in nodes && nodes[x].haveData && nodes[x].nChainTx == 0 && !HasFailed(nodes, x) :: Waiting(nodes, unlinked, [], x)
      ensures forall x | x in candidates :: x in nodes && nodes[x].nChainTx > 0 && AsGood(nodes, active.vChain, x)
      ensures forall x | x in nodes && nodes[x].nChainTx > 0 && AsGood(nodes, active.vChain, x) && Usable(nodes, active.vChain, x) :: x in candidates
      ensures forall x | x in nodes && Eligible(nodes, active.vChain, x) :: x in candidates || Waiting(nodes, unlinked, [], x)
    {
      hide Sound, AllArrived, AllProcessed, TotalTx, HasFailed, Eligible, Waiting, AsGood, Usable, Ahead, Linked, Tidy, CountsSignal;
      guarded := true;
      for i := 0 to |events|
        invariant Valid() && (old(TidyNow()) && guarded ==> TidyNow())
      {
        var ok := Step(events[i]);
        guarded := guarded && ok;
      }
      SoundShape(St(), []);
      if TidyNow() {
        TidySignals(St());
      }
      CountsMean(St());
      WaitingMeans(St());
      Complete(St());
      forall x | x in candidates ensures x in nodes && nodes[x].nChainTx > 0 && AsGood(nodes, active.vChain, x) {
        CandidateKnown(St(), x);
      }
    }
  }

  // ---------------------------------------------------------------- helpers

  lemma SoundNext(s: Index)
    requires Sound(s, [])
    ensures s.next > 0
  {
  }

  lemma ReleaseOne(u: Pairs, x: Id)
    requires u != []
    ensures Released(u, x) == (if u[0].0 == x then [] else [u[0]]) + Released(u[1..], x)
    ensures Kids(u, x) == (if u[0].0 == x then [u[0].1] else []) + Kids(u[1..], x)
  {
  }

  /** The same state, but that the count of one entry may have been reset. */
  ghost predicate Recounted(s: Index, s': Index, x: Id)
    requires x in s.t
  {
    s' == s || s' == s.(t := s.t[x := s.t[x].(nChainTx := 0)])
  }

  lemma RecountedKnown(s: Index, s': Index, queue: seq<Id>)
    requires queue != [] && Sound(s, queue) && queue[0] in s.t && Recounted(s, s', queue[0])
    ensures var x := queue[0]; Linked(s.t) && x in s'.t && (s'.t[x].pprev.To? ==> s'.t[x].pprev.id in s'.t)
    ensures s'.v == s.v && s'.u == s.u && s'.c == s.c && s'.next == s.next
  {
    assert NodeLinked(s.t, queue[0]);
  }

  /** The count does not depend on what it was. */
  lemma RecountedCounts(s: Index, s': Index, x: Id, n: Node)
    requires Linked(s.t) && x in s.t && Recounted(s, s', x) && x in s'.t && (s'.t[x].pprev.To? ==> s'.t[x].pprev.id in s'.t)
    requires n == s'.t[x].(nChainTx := (if s'.t[x].pprev.To? then s'.t[s'.t[x].pprev.id].nChainTx else 0) + s'.t[x].nTx, nSequenceId := n.nSequenceId)
    ensures Counts(s.t, x, n) && s'.t[x := n] == s.t[x := n] && (n.nSequenceId == s.next ==> n == CountedNode(s, x))
  {
    assert NodeLinked(s.t, x);
    NotOwnParent(s.t, x);
  }

  lemma ResetCount(s: Index, s1: Index, s2: Index, x: Id, nTx: nat)
    requires x in s.t && s1 == s.(t := s.t[x := Stored(s.t[x], nTx)]) && s2 == s.(t := s.t[x := Arrived(s.t[x], nTx)])
    ensures x in s1.t && Recounted(s1, s2, x)
  {
    assert s2.t == s1.t[x := s1.t[x].(nChainTx := 0)];
  }

  /** A round of the queue as the queue's own recursion tells it. */
  lemma RoundShrinks(s: Index, queue: seq<Id>)
    requires Sound(s, queue) && queue != []
    ensures Linked(s.t) && queue[0] in s.t
    ensures var s', rest := LinkedFirst(s, queue, CountedNode(s, queue[0])), queue[1..] + Kids(s.u, queue[0]);
            Sound(s', rest) && Drained(s', rest) == Drained(s, queue) && |s'.u| + |rest| < |s.u| + |queue|
  {
    HeadKnown(s, queue);
    LinkedSound(s, queue, CountedNode(s, queue[0]));
  }

  /** Pruning keeps an index tidy exactly under its guard, and never makes one tidy. */
  lemma PruneTidies(s: Index, x: Id)
    requires Sound(s, []) && Linked(s.t)
    ensures x in s.t ==> var t', u' := s.t[x := Pruned(s.t[x])], NotWaiting(s.t, s.u, x);
              Linked(t') && (Tidy(t', u', []) <==> Tidy(s.t, s.u, []) && GoodPrune(s.t, x))
  {
    if x in s.t {
      var t', u' := s.t[x := Pruned(s.t[x])], NotWaiting(s.t, s.u, x);
      SetLinked(s.t, x, Pruned(s.t[x]));
      if Tidy(s.t, s.u, []) {
        TidyPruned(s, x);
      } else {
        var z :| z in s.t && !Kept(s.t, s.u, [], z);
        assert !Kept(t', u', [], z);
      }
    }
  }

  lemma SameGuard(t: Nodes, t': Nodes, x: Id)
    requires (x in t' <==> x in t) && (x in t ==> t'[x] == t[x])
    ensures GoodPrune(t', x) == GoodPrune(t, x) && (x !in t ==> GoodPrune(t, x))
  {
  }

  lemma DropTidy(s: Index, best: Id, stop: Id, t': Nodes, u': Pairs, c': set<Id>)
    requires Linked(s.t) && best in s.t && stop in s.t
    requires Removed(s.t, s.u, s.c - {stop}, best, s.t[stop].nHeight, s.t[stop].failed, t', u', c')
    ensures Tidy(s.t, s.u, []) ==> Linked(t') && Tidy(t', u', [])
  {
    if Tidy(s.t, s.u, []) {
      TidyMarked(s.t, if s.t[stop].failed then Passed(s.t, best, s.t[stop].nHeight) else {}, s.u, u');
    }
  }

  // ---------------------------------------------------------------- the path to a new tip

  /** Cutting off the last block of a chain is moving the tip to its parent. */
  lemma ParentPath(t: Nodes, v: seq<Link>)
    requires Linked(t) && ChainOk(t, v) && v != []
    ensures var p := t[v[|v| - 1].id].pprev;
            if |v| == 1 then p == Null
            else p == v[|v| - 2] && forall i | 0 <= i < |v| - 1 :: v[i] == To(Ancestor(t, p.id, i))
  {
    var k := |v| - 1;
    assert NodeLinked(t, v[k].id);
    if k > 0 {
      forall i | 0 <= i < k ensures v[i] == To(Ancestor(t, v[k - 1].id, i)) {
        SlotIsAncestor(t, v, k - 1, i);
      }
    }
  }

  /** The fork is the highest block of the path that is on the chain. */
  ghost predicate IsFork(s: Index, best: Id, fork: Link)
    requires Linked(s.t) && best in s.t
  {
    && (fork.To? ==> fork.id in s.t && Contains(s.t, s.v, fork.id) && IsAncestor(s.t, fork.id, best))
    && forall a | Common(s.t, s.v, a, best) :: fork.To? && s.t[a].nHeight <= s.t[fork.id].nHeight
  }

  lemma ForkBelow(s: Index, best: Id, fork: Link)
    requires Linked(s.t) && best in s.t && IsFork(s, best, fork)
    ensures fork.To? ==> s.t[fork.id].nHeight <= s.t[best].nHeight
  {
  }

  /** Above the fork the path is off the chain. */
  lemma Above(s: Index, best: Id, fork: Link, h: nat)
    requires Linked(s.t) && best in s.t && IsFork(s, best, fork) && h <= s.t[best].nHeight && (fork.To? ==> h > s.t[fork.id].nHeight)
    ensures var x := Ancestor(s.t, best, h); x in s.t && IsAncestor(s.t, x, best) && !Contains(s.t, s.v, x)
  {
    var x := Ancestor(s.t, best, h);
    assert IsAncestor(s.t, x, best);
    assert Contains(s.t, s.v, x) ==> Common(s.t, s.v, x, best);
  }

  /** The height of the first block to connect. */
  function Start(s: Index, fork: Link): nat {
    if fork.To? && fork.id in s.t then s.t[fork.id].nHeight + 1 else 0
  }

  lemma OnTheWayKnown(s: Index, best: Id, x: Id, v: seq<Link>, c: set<Id>)
    requires Linked(s.t) && OnTheWay(s, best, x, v, c)
    ensures x in s.t && NoWorse(s.t, s.c, c, x)
  {
  }

  lemma StepUp(s: Index, best: Id, h: nat)
    requires Sound(s, []) && Linked(s.t) && best in s.t && 0 < h <= s.t[best].nHeight
    ensures s.t[Ancestor(s.t, best, h - 1)].nChainWork < s.t[Ancestor(s.t, best, h)].nChainWork
  {
    AncestorOf(s.t, best, h, h - 1);
    AncestorWork(s.t, Ancestor(s.t, best, h), h - 1);
  }

  lemma NextOnTheWay(s: Index, best: Id, fork: Link, h: nat, v: seq<Link>, c: set<Id>, c': set<Id>, v': seq<Link>)
    requires Sound(s, []) && Linked(s.t) && best in s.c && best in s.t && Usable(s.t, s.v, best) && IsFork(s, best, fork)
    requires Start(s, fork) <= h <= s.t[best].nHeight
    requires if h == Start(s, fork) then c == s.c else OnTheWay(s, best, Ancestor(s.t, best, h - 1), v, c)
    requires var x := Ancestor(s.t, best, h); NoWorse(s.t, c, c', x) && PathTo(s.t, v', x)
    ensures OnTheWay(s, best, Ancestor(s.t, best, h), v', c')
  {
    hide Sound, Linked, Usable, Worse, PathTo, NoWorse, OnTheWay, Ancestor, IsAncestor;
    var x := Ancestor(s.t, best, h);
    Above(s, best, fork, h);
    if h > Start(s, fork) {
      OnTheWayKnown(s, best, Ancestor(s.t, best, h - 1), v, c);
      StepUp(s, best, h);
      NoWorseNext(s.t, s.c, c, c', Ancestor(s.t, best, h - 1), x);
    }
    StaysOnTheWay(s, best, x, v', c');
  }

  /** At the target the invariants hold again. */
  lemma AtTarget(s: Index, best: Id, fork: Link, v': seq<Link>, c': set<Id>)
    requires Sound(s, []) && Linked(s.t) && best in s.c && best in s.t && Usable(s.t, s.v, best) && IsFork(s, best, fork)
    requires (forall y | y in s.c && y != best :: y in s.t && Worse(s.t, y, best)) && ChainOk(s.t, v')
    requires if s.t[best].nHeight + 1 == Start(s, fork) then c' == s.c && v' == s.v[..Start(s, fork)] else OnTheWay(s, best, best, v', c')
    ensures Sound(s.(v := v', c := c'), []) && best in c' && PathTo(s.t, v', best)
    ensures c' <= s.c && forall y | y in c' :: y == best
  {
    hide Sound, Worse, Usable, ChainOk, PathTo, IsFork, Linked, Settling, Ancestor;
    if s.t[best].nHeight + 1 == Start(s, fork) {
      StaysAtTip(s, best, fork);
      assert s.v[..|s.v|] == s.v;
      assert s.(v := v', c := c') == s;
    } else {
      NewTipSound(s, v', c', best);
    }
  }

  /** A candidate on the chain is its tip, and the only one if it is the greatest. */
  lemma StaysAtTip(s: Index, best: Id, fork: Link)
    requires Sound(s, []) && Linked(s.t) && best in s.c && best in s.t && IsFork(s, best, fork) && s.t[best].nHeight + 1 == Start(s, fork)
    requires forall y | y in s.c && y != best :: y in s.t && Worse(s.t, y, best)
    ensures |s.v| == s.t[best].nHeight + 1 && PathTo(s.t, s.v, best) && forall y | y in s.c :: y == best
  {
    AncestorTop(s.t, best);
    assert fork == To(best) && Contains(s.t, s.v, best);
    CandidateKnown(s, best);
    var k := |s.v| - 1;
    SlotIsAncestor(s.t, s.v, k, s.t[best].nHeight);
    AncestorWork(s.t, s.v[k].id, s.t[best].nHeight);
    assert IsTip(s.v, best);
    forall i | 0 <= i <= k ensures s.v[i] == To(Ancestor(s.t, best, i)) {
      SlotIsAncestor(s.t, s.v, k, i);
    }
    forall y | y in s.c ensures y == best {
      CandidateKnown(s, y);
    }
  }

  lemma LinkedKnown(s: Index, queue: seq<Id>, n: Node)
    requires queue != [] && Sound(s, queue) && queue[0] in s.t && Counts(s.t, queue[0], n) && n.nSequenceId == s.next
    ensures var s', rest := LinkedFirst(s, queue, n), queue[1..] + Kids(s.u, queue[0]);
            Sound(s', rest) && Linked(s'.t) && ChainOk(s'.t, s'.v) && (rest != [] ==> rest[0] in s'.t)
  {
    LinkedSound(s, queue, n);
    var rest := queue[1..] + Kids(s.u, queue[0]);
    if rest != [] {
      assert rest[0] in rest;
      assert Ready(LinkedFirst(s, queue, n).t, s.v, rest[0]);
    }
  }

  /** Only pairs with the block itself in second place are erased with it. */
  lemma Erasing(s: Index, x: Id)
    requires Sound(s, [])
    ensures x in s.t && s.t[x].pprev.To? ==> forall p, c :: (p, c) in Erased(s.u, s.t[x].pprev.id, x) <==> (p, c) in s.u && c != x
    ensures x !in s.t || s.t[x].pprev.Null? ==> forall p, c | (p, c) in s.u :: c != x
  {
    forall p, c | (p, c) in s.u && c == x ensures x in s.t && s.t[x].pprev == To(p) {
      assert PairOk(s.t, s.v, s.u, [], p, c);
    }
  }

  lemma NotNearTip(s: Index, x: Id)
    requires Sound(s, []) && x in s.t && (s.t[x].haveData ==> s.t[x].nHeight + MIN_BLOCKS_TO_KEEP <= |s.v| - 1)
    ensures !IsTip(s.v, x)
  {
  }

  lemma AncestorSelf(t: Nodes, best: Id, stop: Id)
    requires Linked(t) && best in t && IsAncestor(t, stop, best)
    ensures Ancestor(t, best, t[best].nHeight) == best && stop in t && t[stop].nHeight <= t[best].nHeight
  {
  }

  /** Between the candidate and the trouble, the parent is one step further down. */
  lemma PassedParent(t: Nodes, best: Id, stop: Id, h: nat)
    requires Linked(t) && best in t && IsAncestor(t, stop, best) && t[stop].nHeight <= h <= t[best].nHeight
    requires Ancestor(t, best, h) != stop
    ensures t[stop].nHeight < h && t[Ancestor(t, best, h)].pprev == To(Ancestor(t, best, h - 1))
  {
    PathStep(t, best, h);
  }

  lemma WalkStart(t: Nodes, v: seq<Link>, best: Id)
    requires Linked(t) && best in t
    ensures Walked(t, v, best, t[best].nHeight) && IsAncestor(t, best, best)
  {
  }

  lemma BadUnusable(t: Nodes, v: seq<Link>, x: Id)
    requires Linked(t) && x in t && Bad(t[x]) && !Contains(t, v, x)
    ensures !Usable(t, v, x)
  {
  }

  lemma OnChainUsable(t: Nodes, v: seq<Link>, x: Id)
    requires Linked(t) && x in t && Contains(t, v, x)
    ensures Usable(t, v, x)
  {
  }

  lemma ParentCounted(s: Index, x: Id)
    requires Sound(s, []) && x in s.t && s.t[x].nChainTx > 0
    ensures s.t[x].pprev.To? ==> s.t[x].pprev.id in s.t && s.t[s.t[x].pprev.id].nChainTx > 0
  {
    assert NodeLinked(s.t, x) && CountOk(s.t, x);
  }

  lemma MarkedKnown(t: Nodes, t': Nodes, v: seq<Link>)
    requires Linked(t) && Equivalent(t, t', v)
    ensures forall x :: x in t' <==> x in t
  {
  }

  lemma FewerCandidates(after: set<Id>, before: set<Id>, x: Id)
    requires after <= before && x in before && x !in after
    ensures |after| < |before|
  {
    Within(after, before - {x});
  }

  lemma NoNewMarks(t: Nodes)
    requires Linked(t)
    ensures MarksTrue(t, t)
  {
    forall x | x in t && t[x].failed ensures HasFailed(t, x) {
    }
  }

  lemma DropMeans(s: Index, best: Id, stop: Id, t': Nodes, u': Pairs, c': set<Id>)
    requires Sound(s, []) && best in s.t && best in s.c && IsAncestor(s.t, stop, best) && Walked(s.t, s.v, best, s.t[stop].nHeight)
    requires !Contains(s.t, s.v, stop) && Bad(s.t[stop])
    requires Removed(s.t, s.u, s.c - {stop}, best, s.t[stop].nHeight, s.t[stop].failed, t', u', c')
    ensures Sound(Index(t', s.v, u', c', s.next), []) && (forall x :: x in t' <==> x in s.t)
    ensures Equivalent(s.t, t', s.v) && DroppedUnusable(s.t, s.v, s.c, c') && best !in c'
  {
    BadUnusable(s.t, s.v, stop);
    hide Usable, Equivalent, Walked, DroppedUnusable, IsAncestor, Removed;
    RemovedSound(s, best, stop, t', u', c');
    RemovedUnusable(s.t, s.v, s.u, s.c, best, stop, s.t[stop].failed, t', u', c');
    MarkedKnown(s.t, t', s.v);
  }

  /** The entry the walk stopped at is dropped as well. */
  lemma StopRemoved(t: Nodes, u: Pairs, c: set<Id>, best: Id, stop: Id, h: nat, failed: bool, t': Nodes, u': Pairs, c': set<Id>)
    requires Linked(t) && best in t && h <= t[best].nHeight && stop == Ancestor(t, best, h)
    requires Removed(t, u, c, best, h, failed, t', u', c')
    ensures Removed(t, u, c - {stop}, best, t[stop].nHeight, failed, t', u', c' - {stop})
  {
    hide Passed, DropPairs;
  }

  /** Dropping a chain marks only entries above a failure. */
  lemma StillTrue(t: Nodes, t1: Nodes, v: seq<Link>, best: Id, stop: Id, u: Pairs, c: set<Id>, t2: Nodes, u2: Pairs, c2: set<Id>)
    requires Linked(t) && Linked(t1) && Equivalent(t, t1, v) && MarksTrue(t, t1) && best in t1 && IsAncestor(t1, stop, best)
    requires Removed(t1, u, c, best, t1[stop].nHeight, t1[stop].failed, t2, u2, c2)
    ensures MarksTrue(t, t2)
  {
    MarkedTrue(t1, best, stop);
    MarksTrueTrans(t, t1, t2);
  }

  /** A candidate that was dropped is marked, has lost its own data, or waits for a missing block. */
  lemma DroppedWait(s: Index, s': Index)
    requires Sound(s, []) && Sound(s', []) && s'.v == s.v && Equivalent(s.t, s'.t, s.v)
    ensures forall x | x in s.c && x !in s'.c :: x in s'.t && (!Unfailed(s'.t, s.v, x) || !s'.t[x].haveData || Waiting(s'.t, s'.u, [], x))
  {
    forall x | x in s.c && x !in s'.c ensures x in s'.t && (!Unfailed(s'.t, s.v, x) || !s'.t[x].haveData || Waiting(s'.t, s'.u, [], x)) {
      CandidateKnown(s, x);
      hide Unfailed, Usable, Settling, TreeOk, WorkOk, ChainOk;
      assert Offered(s'.t, s'.v, s'.u, s'.c, [], x);
      assert AsGood(s'.t, s.v, x);
    }
  }

  lemma StillUsable(t: Nodes, t': Nodes, v: seq<Link>, x: Id)
    requires Linked(t) && Equivalent(t, t', v) && x in t && Usable(t, v, x)
    ensures x in t' && Linked(t') && Usable(t', v, x)
  {
  }

  /** begin of the ordered set. */
  method Least(t: Nodes, s: set<Id>) returns (least: Id)
    requires s != {} && forall x | x in s :: x in t
    ensures least in s && forall x | x in s && x != least :: Worse(t, least, x)
  {
    least :| least in s;
    var rest := s - {least};
    while rest != {}
      invariant rest <= s && least in s && least !in rest
      invariant forall x | x in s && x !in rest && x != least :: Worse(t, least, x)
      decreases |rest|
    {
      var y :| y in rest;
      WorseIsOrder(t, least, y, y);
      if Worse(t, y, least) {
        forall x | x in s && x !in rest && x != least ensures Worse(t, y, x) {
          WorseIsOrder(t, y, least, x);
        }
        least := y;
      }
      rest := rest - {y};
    }
  }

  /** If the least candidate is not worse than the tip, none is. */
  lemma NoneWorse(t: Nodes, s: set<Id>, least: Id, tip: Id)
    requires tip in t && least in s && (forall x | x in s :: x in t) && !Worse(t, least, tip)
    requires forall x | x in s && x != least :: Worse(t, least, x)
    ensures forall x | x in s :: !Worse(t, x, tip)
  {
    forall x | x in s ensures !Worse(t, x, tip) {
      WorseIsOrder(t, least, x, tip);
    }
  }
}
