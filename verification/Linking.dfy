/** Linking blocks that arrive in any order, come back after pruning or wait behind a missing block: what the
    transaction counts and the map of unlinked blocks must say, and why the work queue restores it. */
module Linking {
  import opened BlockTree
  import opened ActiveChain
  import opened MostWork

  /** The multimap of waiting blocks: a block behind its parent, in the order of insertion. */
  type Pairs = seq<(Id, Id)>

  /** The parent, if any, has all its transactions accounted for. */
  predicate ParentDone(t: Nodes, x: Id)
    requires x in t && (t[x].pprev.To? ==> t[x].pprev.id in t)
  {
    t[x].pprev.Null? || t[t[x].pprev.id].nChainTx > 0
  }

  function ParentCount(t: Nodes, x: Id): nat
    requires x in t && (t[x].pprev.To? ==> t[x].pprev.id in t)
  {
    if t[x].pprev.Null? then 0 else t[t[x].pprev.id].nChainTx
  }

  /** A counted block has been processed, and so have its ancestors; its data may have been pruned since. An uncounted
      one has no sequence number. */
  ghost predicate CountOk(t: Nodes, x: Id)
    requires Linked(t) && x in t
  {
    assert NodeLinked(t, x);
    && (t[x].nChainTx > 0 ==> t[x].nTx > 0 && ParentDone(t, x) && t[x].nChainTx == ParentCount(t, x) + t[x].nTx)
    && (t[x].nChainTx == 0 ==> t[x].nSequenceId == 0)
    && (t[x].haveData ==> t[x].nTx > 0)
  }

  /** The block is in the queue or behind its parent in the map. */
  ghost predicate Waiting(t: Nodes, unlinked: Pairs, queue: seq<Id>, x: Id)
    requires x in t
  {
    x in queue || (t[x].pprev.To? && (t[x].pprev.id, x) in unlinked)
  }

  /** A stored block without a count waits in the queue or for its uncounted parent, unless it stands on a failure. */
  ghost predicate Waits(t: Nodes, unlinked: Pairs, queue: seq<Id>, x: Id)
    requires Linked(t) && x in t
  {
    assert NodeLinked(t, x);
    t[x].haveData && t[x].nChainTx == 0 ==>
      x in queue || HasFailed(t, x) || (t[x].pprev.To? && (t[x].pprev.id, x) in unlinked && !ParentDone(t, x))
  }

  ghost predicate IsTip(v: seq<Link>, x: Id) { v != [] && v[|v| - 1] == To(x) }

  /** A block that can get its count now. */
  ghost predicate Ready(t: Nodes, v: seq<Link>, x: Id)
    requires Linked(t)
  {
    && x in t && t[x].haveData && !IsTip(v, x)
    && (assert NodeLinked(t, x); ParentDone(t, x))
  }

  ghost predicate QueueOk(t: Nodes, v: seq<Link>, queue: seq<Id>)
    requires Linked(t)
  {
    forall x | x in queue :: Ready(t, v, x)
  }

  /** x waits for its parent p, off the active chain, which is missing, uncounted or waiting itself. */
  ghost predicate PairOk(t: Nodes, v: seq<Link>, unlinked: Pairs, queue: seq<Id>, p: Id, x: Id) {
    && x in t && t[x].pprev == To(p) && t[x].haveData && p in t && !Contains(t, v, p)
    && (!t[p].haveData || t[p].nChainTx == 0 || Waiting(t, unlinked, queue, p))
  }

  ghost predicate PairsOk(t: Nodes, v: seq<Link>, unlinked: Pairs, queue: seq<Id>) {
    forall p, x | (p, x) in unlinked :: PairOk(t, v, unlinked, queue, p, x)
  }

  /** The tip is counted and its data is at hand. */
  ghost predicate TipOk(t: Nodes, v: seq<Link>) {
    v == [] || (v[|v| - 1].To? && v[|v| - 1].id in t && t[v[|v| - 1].id].nChainTx > 0 && t[v[|v| - 1].id].haveData)
  }

  /** The state while blocks in the queue are being linked. */
  ghost predicate Settling(t: Nodes, v: seq<Link>, unlinked: Pairs, queue: seq<Id>)
    requires Linked(t)
  {
    && (forall x | x in t :: CountOk(t, x) && Waits(t, unlinked, queue, x))
    && QueueOk(t, v, queue) && PairsOk(t, v, unlinked, queue) && TipOk(t, v)
  }

  // ---------------------------------------------------------------- what it means when the queue is empty

  ghost predicate AllArrived(t: Nodes, x: Id)
    requires Linked(t) && x in t
    decreases t[x].nHeight
  {
    assert NodeLinked(t, x);
    t[x].haveData && (t[x].pprev.To? ==> AllArrived(t, t[x].pprev.id))
  }

  /** The block and its ancestors have all been processed at some time. */
  ghost predicate AllProcessed(t: Nodes, x: Id)
    requires Linked(t) && x in t
    decreases t[x].nHeight
  {
    assert NodeLinked(t, x);
    t[x].nTx > 0 && (t[x].pprev.To? ==> AllProcessed(t, t[x].pprev.id))
  }

  ghost function TotalTx(t: Nodes, x: Id): nat
    requires Linked(t) && x in t
    decreases t[x].nHeight
  {
    assert NodeLinked(t, x);
    t[x].nTx + if t[x].pprev.To? then TotalTx(t, t[x].pprev.id) else 0
  }

  /** A count, once there, is the number of transactions in the chain, whose blocks were all processed. */
  lemma {:induction false} CountIsTotal(t: Nodes, x: Id)
    requires Linked(t) && (forall z | z in t :: CountOk(t, z)) && x in t && t[x].nChainTx > 0
    ensures t[x].nChainTx == TotalTx(t, x) && AllProcessed(t, x)
    decreases t[x].nHeight
  {
    assert NodeLinked(t, x) && CountOk(t, x);
    if t[x].pprev.To? {
      CountIsTotal(t, t[x].pprev.id);
    }
  }

  /** A block whose chain is all here and not marked failed has its count. */
  lemma {:induction false} ArrivedIsCounted(t: Nodes, v: seq<Link>, unlinked: Pairs, x: Id)
    requires Linked(t) && Settling(t, v, unlinked, []) && x in t && AllArrived(t, x) && !HasFailed(t, x)
    ensures t[x].nChainTx > 0
    decreases t[x].nHeight
  {
    assert NodeLinked(t, x) && Waits(t, unlinked, [], x);
    if t[x].pprev.To? {
      ArrivedIsCounted(t, v, unlinked, t[x].pprev.id);
    }
  }

  /** A block in the map has its own data but stands on a missing or a failed one. */
  lemma {:induction false} WaitingMisses(t: Nodes, v: seq<Link>, unlinked: Pairs, p: Id, x: Id)
    requires Linked(t) && Settling(t, v, unlinked, []) && (p, x) in unlinked
    ensures x in t && t[x].pprev == To(p) && t[x].haveData && p in t && (!AllArrived(t, p) || HasFailed(t, p))
    decreases if x in t then t[x].nHeight else 0
  {
    assert PairOk(t, v, unlinked, [], p, x) && NodeLinked(t, x) && NodeLinked(t, p);
    if t[p].haveData && t[p].nChainTx > 0 {
      WaitingMisses(t, v, unlinked, t[p].pprev.id, p);
    } else if AllArrived(t, p) && !HasFailed(t, p) {
      ArrivedIsCounted(t, v, unlinked, p);
    }
  }

  ghost predicate NoFailures(t: Nodes) {
    forall x | x in t :: !t[x].failed
  }

  /** Every block that was processed is still stored. */
  ghost predicate NothingPruned(t: Nodes) {
    forall x | x in t && t[x].nTx > 0 :: t[x].haveData
  }

  lemma {:induction false} NeverFailed(t: Nodes, x: Id)
    requires Linked(t) && NoFailures(t) && x in t
    ensures !HasFailed(t, x)
    decreases t[x].nHeight
  {
    assert NodeLinked(t, x);
    if t[x].pprev.To? {
      NeverFailed(t, t[x].pprev.id);
    }
  }

  lemma {:induction false} ProcessedArrived(t: Nodes, x: Id)
    requires Linked(t) && NothingPruned(t) && x in t && AllProcessed(t, x)
    ensures AllArrived(t, x)
    decreases t[x].nHeight
  {
    assert NodeLinked(t, x);
    if t[x].pprev.To? {
      ProcessedArrived(t, t[x].pprev.id);
    }
  }

  /** Without failures and pruning the count is the number of transactions in the chain if all of it has arrived, else 0. */
  lemma CountExactly(t: Nodes, v: seq<Link>, unlinked: Pairs, x: Id)
    requires Linked(t) && Settling(t, v, unlinked, []) && NoFailures(t) && NothingPruned(t) && x in t
    ensures t[x].nChainTx == if AllArrived(t, x) then TotalTx(t, x) else 0
    ensures t[x].nChainTx > 0 <==> AllArrived(t, x)
  {
    NeverFailed(t, x);
    if AllArrived(t, x) {
      ArrivedIsCounted(t, v, unlinked, x);
    }
    if t[x].nChainTx > 0 {
      CountIsTotal(t, x);
      ProcessedArrived(t, x);
    }
  }

  /** Without failures and pruning the waiting pairs are exactly the stored blocks below a missing ancestor, each with its parent. */
  lemma UnlinkedExactly(t: Nodes, v: seq<Link>, unlinked: Pairs, p: Id, x: Id)
    requires Linked(t) && Settling(t, v, unlinked, []) && NoFailures(t) && NothingPruned(t)
    ensures (p, x) in unlinked <==> x in t && t[x].haveData && t[x].pprev == To(p) && !AllArrived(t, x)
  {
    if (p, x) in unlinked {
      WaitingMisses(t, v, unlinked, p, x);
      NeverFailed(t, p);
    }
    if x in t {
      CountExactly(t, v, unlinked, x);
      NeverFailed(t, x);
      assert Waits(t, unlinked, [], x);
    }
  }

  /** Every block is counted exactly if it and its ancestors have all been processed. */
  ghost predicate CountsSignal(t: Nodes)
    requires Linked(t)
  {
    forall x | x in t :: t[x].nChainTx > 0 <==> AllProcessed(t, x)
  }

  /** Processed but uncounted under a counted parent; it was pruned or stands on a failure. */
  ghost predicate Stranded(t: Nodes, x: Id)
    requires Linked(t) && x in t
  {
    assert NodeLinked(t, x);
    t[x].nTx > 0 && t[x].nChainTx == 0 && ParentDone(t, x) && (!t[x].haveData || HasFailed(t, x))
  }

  lemma CountedIffProcessed(t: Nodes, v: seq<Link>, unlinked: Pairs)
    requires Linked(t) && Settling(t, v, unlinked, [])
    ensures CountsSignal(t) <==> (forall x | x in t :: !Stranded(t, x))
  {
    hide AllProcessed, Settling;
    if forall x | x in t :: !Stranded(t, x) {
      forall x | x in t ensures t[x].nChainTx > 0 <==> AllProcessed(t, x) {
        if t[x].nChainTx > 0 {
          CountsHold(t, v, unlinked);
          CountIsTotal(t, x);
        }
        if AllProcessed(t, x) {
          ProcessedCounted(t, v, unlinked, x);
        }
      }
    } else {
      var x :| x in t && Stranded(t, x);
      StrandedProcessed(t, v, unlinked, x);
    }
  }

  lemma CountsHold(t: Nodes, v: seq<Link>, unlinked: Pairs)
    requires Linked(t) && Settling(t, v, unlinked, [])
    ensures forall z | z in t :: CountOk(t, z)
  {
  }

  lemma {:induction false} ProcessedCounted(t: Nodes, v: seq<Link>, unlinked: Pairs, x: Id)
    requires Linked(t) && Settling(t, v, unlinked, []) && (forall z | z in t :: !Stranded(t, z)) && x in t && AllProcessed(t, x)
    ensures t[x].nChainTx > 0
    decreases t[x].nHeight
  {
    assert NodeLinked(t, x) && Waits(t, unlinked, [], x) && !Stranded(t, x);
    if t[x].pprev.To? {
      ProcessedCounted(t, v, unlinked, t[x].pprev.id);
    }
  }

  lemma StrandedProcessed(t: Nodes, v: seq<Link>, unlinked: Pairs, x: Id)
    requires Linked(t) && Settling(t, v, unlinked, []) && x in t
    requires t[x].nTx > 0 && t[x].nChainTx == 0 && (assert NodeLinked(t, x); ParentDone(t, x))
    ensures AllProcessed(t, x) && !CountsSignal(t)
  {
    assert NodeLinked(t, x);
    if t[x].pprev.To? {
      CountIsTotal(t, t[x].pprev.id);
    }
  }

  /** Blocks of the active chain are counted. */
  lemma {:induction false} ChainCounted(t: Nodes, v: seq<Link>, i: nat)
    requires Linked(t) && ChainOk(t, v) && (forall z | z in t :: CountOk(t, z)) && TipOk(t, v) && i < |v|
    ensures t[v[i].id].nChainTx > 0
    decreases |v| - i
  {
    if i + 1 < |v| {
      ChainCounted(t, v, i + 1);
      assert CountOk(t, v[i + 1].id);
    }
  }

  lemma ContainedCounted(t: Nodes, v: seq<Link>, x: Id)
    requires Linked(t) && ChainOk(t, v) && (forall z | z in t :: CountOk(t, z)) && TipOk(t, v) && x in t && Contains(t, v, x)
    ensures t[x].nChainTx > 0
  {
    ChainCounted(t, v, t[x].nHeight);
  }

  /** The parent of a block on the chain is on it too. */
  lemma ParentContained(t: Nodes, v: seq<Link>, x: Id)
    requires Linked(t) && ChainOk(t, v) && x in t && Contains(t, v, x) && t[x].pprev.To?
    ensures t[x].pprev.id in t && Contains(t, v, t[x].pprev.id)
  {
    assert NodeLinked(t, x);
  }

  // ---------------------------------------------------------------- steps

  /** The pairs left when the children of x stop waiting. */
  function Released(unlinked: Pairs, x: Id): (r: Pairs)
    ensures forall p, c :: (p, c) in r <==> (p, c) in unlinked && p != x
  {
    if unlinked == [] then []
    else (if unlinked[0].0 == x then [] else [unlinked[0]]) + Released(unlinked[1..], x)
  }

  /** The blocks waiting for x, in the order of insertion. */
  function Kids(unlinked: Pairs, x: Id): (r: seq<Id>)
    ensures forall c :: c in r <==> (x, c) in unlinked
    ensures |Released(unlinked, x)| + |r| == |unlinked|
  {
    if unlinked == [] then []
    else (if unlinked[0].0 == x then [unlinked[0].1] else []) + Kids(unlinked[1..], x)
  }

  /** The entry with its count set. */
  ghost predicate Counts(t: Nodes, x: Id, n: Node)
    requires Linked(t) && x in t
  {
    assert NodeLinked(t, x);
    n == t[x].(nChainTx := ParentCount(t, x) + t[x].nTx, nSequenceId := n.nSequenceId)
  }

  lemma SetLinked(t: Nodes, x: Id, n: Node)
    requires Linked(t) && x in t && n.pprev == t[x].pprev && n.nHeight == t[x].nHeight
    ensures Linked(t[x := n])
  {
    var t' := t[x := n];
    forall y | y in t' ensures NodeLinked(t', y) {
      assert NodeLinked(t, y);
    }
  }

  /** Nothing is its own parent. */
  lemma NotOwnParent(t: Nodes, x: Id)
    requires Linked(t) && x in t
    ensures t[x].pprev != To(x)
  {
    assert NodeLinked(t, x);
  }

  /** Failures stay where no mark is taken away. */
  lemma {:induction false} FailedStays(t: Nodes, t': Nodes, x: Id)
    requires Linked(t) && Linked(t') && SameShape(t, t') && (forall z | z in t && t[z].failed :: t'[z].failed) && x in t && HasFailed(t, x)
    ensures HasFailed(t', x)
    decreases t[x].nHeight
  {
    assert NodeLinked(t, x) && NodeLinked(t', x);
    if !t[x].failed {
      FailedStays(t, t', t[x].pprev.id);
    }
  }

  lemma LinkCount(t: Nodes, v: seq<Link>, x: Id, n: Node, y: Id)
    requires Linked(t) && Ready(t, v, x) && Counts(t, x, n) && y in t && CountOk(t, x) && CountOk(t, y)
    ensures Linked(t[x := n]) && CountOk(t[x := n], y)
  {
    SetLinked(t, x, n);
    NotOwnParent(t, x);
  }

  lemma LinkWaiting(t: Nodes, unlinked: Pairs, queue: seq<Id>, n: Node, y: Id)
    requires y in t && queue != [] && queue[0] in t && y != queue[0] && n.pprev == t[queue[0]].pprev && Waiting(t, unlinked, queue, y)
    ensures Waiting(t[queue[0] := n], Released(unlinked, queue[0]), queue[1..] + Kids(unlinked, queue[0]), y)
  {
    assert queue == [queue[0]] + queue[1..];
  }

  lemma LinkWaits(t: Nodes, unlinked: Pairs, queue: seq<Id>, n: Node, y: Id)
    requires Linked(t) && y in t && queue != [] && Waits(t, unlinked, queue, y)
    requires queue[0] in t && Counts(t, queue[0], n) && n.nChainTx > 0
    ensures Linked(t[queue[0] := n])
    ensures Waits(t[queue[0] := n], Released(unlinked, queue[0]), queue[1..] + Kids(unlinked, queue[0]), y)
  {
    SetLinked(t, queue[0], n);
    assert queue == [queue[0]] + queue[1..];
    if HasFailed(t, y) {
      FailedStays(t, t[queue[0] := n], y);
    }
  }

  lemma LinkQueue(t: Nodes, v: seq<Link>, unlinked: Pairs, queue: seq<Id>, n: Node)
    requires Linked(t) && ChainOk(t, v) && queue != [] && QueueOk(t, v, queue) && PairsOk(t, v, unlinked, queue) && queue[0] in t
    requires Counts(t, queue[0], n) && n.nChainTx > 0
    ensures Linked(t[queue[0] := n]) && QueueOk(t[queue[0] := n], v, queue[1..] + Kids(unlinked, queue[0]))
  {
    var x := queue[0];
    SetLinked(t, x, n);
    var t', q' := t[x := n], queue[1..] + Kids(unlinked, x);
    forall y | y in q' ensures Ready(t', v, y) {
      if y in queue[1..] {
        assert y in queue;
        assert Ready(t, v, y) && NodeLinked(t, y);
      } else {
        assert PairOk(t, v, unlinked, queue, x, y);
        assert !Contains(t, v, y) by {
          if Contains(t, v, y) {
            ParentContained(t, v, y);
          }
        }
      }
    }
  }

  lemma LinkPair(t: Nodes, v: seq<Link>, unlinked: Pairs, queue: seq<Id>, n: Node, p: Id, c: Id)
    requires queue != [] && PairsOk(t, v, unlinked, queue) && queue[0] in t
    requires n.pprev == t[queue[0]].pprev && n.nHeight == t[queue[0]].nHeight && n.haveData == t[queue[0]].haveData
    requires (p, c) in Released(unlinked, queue[0])
    ensures PairOk(t[queue[0] := n], v, Released(unlinked, queue[0]), queue[1..] + Kids(unlinked, queue[0]), p, c)
  {
    assert PairOk(t, v, unlinked, queue, p, c) && p != queue[0];
    if Waiting(t, unlinked, queue, p) {
      LinkWaiting(t, unlinked, queue, n, p);
    }
  }

  lemma TipStays(t: Nodes, v: seq<Link>, x: Id, n: Node)
    requires TipOk(t, v) && x in t && !IsTip(v, x)
    ensures TipOk(t[x := n], v)
  {
  }

  lemma CountsPositive(t: Nodes, v: seq<Link>, unlinked: Pairs, queue: seq<Id>, n: Node)
    requires Linked(t) && queue != [] && Settling(t, v, unlinked, queue) && queue[0] in t && Counts(t, queue[0], n)
    ensures n.nChainTx > 0 && Ready(t, v, queue[0]) && CountOk(t, queue[0]) && Linked(t[queue[0] := n])
  {
    assert queue[0] in queue;
    assert Ready(t, v, queue[0]) && CountOk(t, queue[0]);
    SetLinked(t, queue[0], n);
  }

  /** The first block of the queue gets its count, and the blocks waiting for it join the queue. */
  lemma LinkStep(t: Nodes, v: seq<Link>, unlinked: Pairs, queue: seq<Id>, n: Node)
    requires Linked(t) && ChainOk(t, v) && queue != [] && Settling(t, v, unlinked, queue) && queue[0] in t && Counts(t, queue[0], n)
    ensures Linked(t[queue[0] := n])
    ensures Settling(t[queue[0] := n], v, Released(unlinked, queue[0]), queue[1..] + Kids(unlinked, queue[0]))
  {
    var x := queue[0];
    CountsPositive(t, v, unlinked, queue, n);
    hide Linked, CountOk, Waits, Ready, PairOk, ChainOk;
    var t', u', q' := t[x := n], Released(unlinked, x), queue[1..] + Kids(unlinked, x);
    forall y | y in t' ensures CountOk(t', y) && Waits(t', u', q', y) {
      LinkCount(t, v, x, n, y);
      LinkWaits(t, unlinked, queue, n, y);
    }
    LinkQueue(t, v, unlinked, queue, n);
    forall p, c | (p, c) in u' ensures PairOk(t', v, u', q', p, c) {
      LinkPair(t, v, unlinked, queue, n, p, c);
    }
    assert !IsTip(v, x) by {
      ReadyNotTip(t, v, x);
    }
    TipStays(t, v, x, n);
  }

  lemma ReadyNotTip(t: Nodes, v: seq<Link>, x: Id)
    requires Linked(t) && Ready(t, v, x)
    ensures !IsTip(v, x)
  {
  }

  // ---------------------------------------------------------------- arrivals

  /** What an arrival does to the entry at first: the count starts again at zero. */
  function Arrived(n: Node, nTx: nat): Node { n.(nTx := nTx, nChainTx := 0, haveData := true) }

  /** The entry as the first round of the queue leaves it, but for the sequence number: a block that comes back
      after pruning gets the count it had. */
  function Stored(n: Node, nTx: nat): Node { n.(nTx := nTx, haveData := true) }

  /** The block of an entry can arrive: its data is not there, and a block that comes back is the block it was. */
  predicate CanArrive(t: Nodes, x: Id, nTx: nat) {
    x in t && !t[x].haveData && nTx > 0 && (t[x].nTx > 0 ==> nTx == t[x].nTx)
  }

  lemma StoredCount(t: Nodes, x: Id, nTx: nat, y: Id)
    requires Linked(t) && CanArrive(t, x, nTx) && y in t && CountOk(t, y) && CountOk(t, x)
    ensures Linked(t[x := Stored(t[x], nTx)]) && CountOk(t[x := Stored(t[x], nTx)], y)
  {
    SetLinked(t, x, Stored(t[x], nTx));
  }

  lemma StoredWaits(t: Nodes, x: Id, nTx: nat, u: Pairs, u': Pairs, q': seq<Id>, y: Id)
    requires Linked(t) && CanArrive(t, x, nTx) && y in t && y != x && Waits(t, u, [], y) && forall pr | pr in u :: pr in u'
    ensures Linked(t[x := Stored(t[x], nTx)]) && Waits(t[x := Stored(t[x], nTx)], u', q', y)
  {
    SetLinked(t, x, Stored(t[x], nTx));
    if HasFailed(t, y) {
      FailedStays(t, t[x := Stored(t[x], nTx)], y);
    }
  }

  lemma StoredPair(t: Nodes, v: seq<Link>, x: Id, nTx: nat, u: Pairs, u': Pairs, q': seq<Id>, p: Id, c: Id)
    requires CanArrive(t, x, nTx) && PairOk(t, v, u, [], p, c) && (x in q' || t[x].nChainTx == 0) && forall pr | pr in u :: pr in u'
    ensures PairOk(t[x := Stored(t[x], nTx)], v, u', q', p, c)
  {
  }

  lemma ArrivalNotTip(t: Nodes, v: seq<Link>, x: Id, nTx: nat)
    requires TipOk(t, v) && CanArrive(t, x, nTx)
    ensures !IsTip(v, x)
  {
  }

  lemma StoredReady(t: Nodes, v: seq<Link>, x: Id, nTx: nat)
    requires Linked(t) && TipOk(t, v) && CanArrive(t, x, nTx) && (assert NodeLinked(t, x); ParentDone(t, x))
    ensures Linked(t[x := Stored(t[x], nTx)]) && Ready(t[x := Stored(t[x], nTx)], v, x)
  {
    SetLinked(t, x, Stored(t[x], nTx));
    ArrivalNotTip(t, v, x, nTx);
    NotOwnParent(t, x);
    assert NodeLinked(t, x);
  }

  /** A block whose parent is done goes to the queue. */
  lemma ArrivedReady(t: Nodes, v: seq<Link>, unlinked: Pairs, x: Id, nTx: nat)
    requires Linked(t) && Settling(t, v, unlinked, []) && CanArrive(t, x, nTx) && (assert NodeLinked(t, x); ParentDone(t, x))
    ensures Linked(t[x := Stored(t[x], nTx)]) && Settling(t[x := Stored(t[x], nTx)], v, unlinked, [x])
  {
    var t' := t[x := Stored(t[x], nTx)];
    hide Linked, CountOk, Waits, PairOk, Ready, CanArrive;
    StoredReady(t, v, x, nTx);
    forall y | y in t' ensures CountOk(t', y) && Waits(t', unlinked, [x], y) {
      StoredCount(t, x, nTx, y);
      if y != x {
        StoredWaits(t, x, nTx, unlinked, unlinked, [x], y);
      } else {
        QueuedWaits(t', unlinked, [x], x);
      }
    }
    forall p, c | (p, c) in unlinked ensures PairOk(t', v, unlinked, [x], p, c) {
      StoredPair(t, v, x, nTx, unlinked, unlinked, [x], p, c);
    }
    ArrivalNotTip(t, v, x, nTx);
    TipStays(t, v, x, Stored(t[x], nTx));
  }

  lemma QueuedWaits(t: Nodes, unlinked: Pairs, queue: seq<Id>, x: Id)
    requires Linked(t) && x in t && x in queue
    ensures Waits(t, unlinked, queue, x)
  {
  }

  /** The map after a block whose parent is not done has arrived: nothing waits for a parent that failed. */
  function Behind(t: Nodes, unlinked: Pairs, x: Id): Pairs
    requires x in t && t[x].pprev.To? && t[x].pprev.id in t
  {
    if t[t[x].pprev.id].failed then unlinked else unlinked + [(t[x].pprev.id, x)]
  }

  lemma BehindWaits(t: Nodes, v: seq<Link>, unlinked: Pairs, x: Id, nTx: nat)
    requires Linked(t) && CanArrive(t, x, nTx) && (assert NodeLinked(t, x); !ParentDone(t, x))
    ensures Linked(t[x := Stored(t[x], nTx)]) && Waits(t[x := Stored(t[x], nTx)], Behind(t, unlinked, x), [], x)
  {
    var t' := t[x := Stored(t[x], nTx)];
    SetLinked(t, x, Stored(t[x], nTx));
    NotOwnParent(t, x);
    assert NodeLinked(t, x) && NodeLinked(t', x) && NodeLinked(t', t[x].pprev.id);
  }

  lemma BehindPair(t: Nodes, v: seq<Link>, unlinked: Pairs, x: Id, nTx: nat)
    requires Linked(t) && ChainOk(t, v) && Settling(t, v, unlinked, []) && CanArrive(t, x, nTx) && (assert NodeLinked(t, x); !ParentDone(t, x))
    ensures PairOk(t[x := Stored(t[x], nTx)], v, Behind(t, unlinked, x), [], t[x].pprev.id, x)
  {
    NotOwnParent(t, x);
    assert NodeLinked(t, x);
    var p := t[x].pprev.id;
    if Contains(t, v, p) {
      ContainedCounted(t, v, p);
    }
  }

  /** A block whose parent is not done waits for it. */
  lemma ArrivedEarly(t: Nodes, v: seq<Link>, unlinked: Pairs, x: Id, nTx: nat)
    requires Linked(t) && ChainOk(t, v) && Settling(t, v, unlinked, []) && CanArrive(t, x, nTx) && (assert NodeLinked(t, x); !ParentDone(t, x))
    ensures t[x].nChainTx == 0
    ensures Linked(t[x := Stored(t[x], nTx)]) && Settling(t[x := Stored(t[x], nTx)], v, Behind(t, unlinked, x), [])
  {
    assert NodeLinked(t, x) && CountOk(t, x);
    BehindPair(t, v, unlinked, x, nTx);
    BehindWaits(t, v, unlinked, x, nTx);
    hide Linked, CountOk, Waits, PairOk, CanArrive, ChainOk;
    var t', u' := t[x := Stored(t[x], nTx)], Behind(t, unlinked, x);
    forall y | y in t' ensures CountOk(t', y) && Waits(t', u', [], y) {
      StoredCount(t, x, nTx, y);
      if y != x {
        StoredWaits(t, x, nTx, unlinked, u', [], y);
      }
    }
    forall p, c | (p, c) in u' ensures PairOk(t', v, u', [], p, c) {
      if (p, c) in unlinked {
        StoredPair(t, v, x, nTx, unlinked, u', [], p, c);
      }
    }
    ArrivalNotTip(t, v, x, nTx);
    TipStays(t, v, x, Stored(t[x], nTx));
  }

  /** A new header changes no count and no waiting block. */
  lemma HeaderKeeps(t: Nodes, t': Nodes, v: seq<Link>, unlinked: Pairs, x: Id)
    requires Linked(t) && Linked(t') && Settling(t, v, unlinked, []) && Grown(t, t', x)
    requires t'[x].nChainTx == 0 && !t'[x].haveData && t'[x].nSequenceId == 0
    ensures Settling(t', v, unlinked, [])
  {
    forall y | y in t' ensures CountOk(t', y) && Waits(t', unlinked, [], y) {
      if y != x {
        assert NodeLinked(t, y) && CountOk(t, y) && Waits(t, unlinked, [], y);
        if HasFailed(t, y) {
          FailedStays(t, t', y);
        }
      }
    }
    forall p, c | (p, c) in unlinked ensures PairOk(t', v, unlinked, [], p, c) {
      assert PairOk(t, v, unlinked, [], p, c);
    }
  }
}
