/** Two indexes in which one call loses the sign: a block pruned before its count, and a block that arrives while its
    parent is uncounted and failed. */
module CountSignalFails {
  import opened Powers
  import opened BlockTree
  import opened ActiveChain
  import opened Linking
  import opened MostWork
  import opened Candidates
  import opened ChainMoves
  import opened IndexState
  import opened CountSignal

  /** Block i of the active chain: stored and counted. */
  function Trunk(i: nat): Node {
    Node(if i == 0 then Null else To(i - 1), if i == 0 then Null else To(SkipHeight(i)), i, i + 1, 1, i + 1, false, true, 0)
  }

  /** The active chain 0 to n and a branch off its root: a header, above it a stored block that waits for it and may
      have failed, and above that a header. */
  function Entries(n: nat, failed: bool): Nodes {
    map i: nat | 0 <= i <= n + 3 ::
      if i <= n then Trunk(i)
      else if i == n + 1 then Node(To(0), To(0), 1, 2, 0, 0, false, false, 0)
      else if i == n + 2 then Node(To(n + 1), To(0), 2, 3, 1, 0, failed, true, 0)
      else Node(To(n + 2), To(n + 1), 3, 4, 0, 0, false, false, 0)
  }

  function Branched(n: nat, failed: bool): Index {
    Index(Entries(n, failed), seq(n + 1, i requires 0 <= i < n + 1 => To(i)), [(n + 1, n + 2)], {n}, 1)
  }

  lemma SmallSkips()
    ensures SkipHeight(1) == 0 && SkipHeight(2) == 0 && SkipHeight(3) == 1
  {
    assert BitAnd(2, 1) == 0;
    assert BitAnd(3, 1) == 1;
  }

  lemma BranchedLinked(n: nat, failed: bool)
    ensures Linked(Entries(n, failed)) && WorkOk(Entries(n, failed))
  {
    var t := Entries(n, failed);
    forall x | x in t ensures NodeLinked(t, x) {
    }
  }

  lemma {:induction false} TrunkAncestor(n: nat, failed: bool, i: nat, k: nat)
    requires k <= i <= n
    ensures var t := Entries(n, failed); Linked(t) && Ancestor(t, i, k) == k
    decreases i
  {
    BranchedLinked(n, failed);
    if k < i {
      TrunkAncestor(n, failed, i - 1, k);
    }
  }

  lemma BranchedTree(n: nat, failed: bool)
    ensures TreeOk(Entries(n, failed))
  {
    var t := Entries(n, failed);
    BranchedLinked(n, failed);
    SmallSkips();
    forall x | x in t ensures SkipOk(t, x) {
      assert NodeLinked(t, x);
      if x == 0 {
      } else if x <= n {
        TrunkAncestor(n, failed, x - 1, SkipHeight(x));
      } else {
        hide SkipHeight;
        assert Ancestor(t, 0, 0) == 0;
        assert Ancestor(t, n + 1, 0) == 0 && Ancestor(t, n + 1, 1) == n + 1;
        assert Ancestor(t, n + 2, 1) == n + 1;
      }
    }
  }

  lemma BranchedCounts(n: nat, failed: bool, x: Id)
    requires x in Entries(n, failed)
    ensures var s := Branched(n, failed); Linked(s.t) && CountOk(s.t, x) && Waits(s.t, s.u, [], x)
  {
    hide SkipHeight, HasFailed;
    BranchedLinked(n, failed);
    var s := Branched(n, failed);
    assert NodeLinked(s.t, x);
    assert s.u[0] == (n + 1, n + 2);
  }

  lemma BranchedPair(n: nat, failed: bool)
    ensures var s := Branched(n, failed); PairOk(s.t, s.v, s.u, [], n + 1, n + 2)
  {
    hide SkipHeight;
  }

  lemma BranchedChain(n: nat, failed: bool)
    ensures var s := Branched(n, failed); Linked(s.t) && ChainOk(s.t, s.v) && SeqOk(s.t, s.next) && TipOk(s.t, s.v)
  {
    hide SkipHeight;
    BranchedLinked(n, failed);
  }

  lemma BranchedSettled(n: nat, failed: bool)
    ensures var s := Branched(n, failed); Linked(s.t) && Settling(s.t, s.v, s.u, [])
  {
    var s := Branched(n, failed);
    assert s.t == Entries(n, failed) && s.u == [(n + 1, n + 2)];
    BranchedChain(n, failed);
    BranchedPair(n, failed);
    hide Entries, Branched, CountOk, Waits, PairOk, Linked;
    forall x | x in s.t ensures CountOk(s.t, x) && Waits(s.t, s.u, [], x) {
      BranchedCounts(n, failed, x);
    }
  }

  lemma BranchedOffers(n: nat, failed: bool)
    ensures var s := Branched(n, failed); Linked(s.t) && Offers(s.t, s.v, s.u, s.c, [])
  {
    hide SkipHeight;
    var s := Branched(n, failed);
    BranchedLinked(n, failed);
    assert s.v[|s.v| - 1] == To(n);
    forall x: Id ensures Offered(s.t, s.v, s.u, s.c, [], x) {
      if x in s.t && x < n {
        assert Worse(s.t, x, n);
      }
    }
  }

  lemma BranchedSound(n: nat, failed: bool)
    ensures var s := Branched(n, failed); Sound(s, []) && Linked(s.t) && Tidy(s.t, s.u, [])
  {
    hide SkipHeight, Offers, Settling, SkipsOk;
    var s := Branched(n, failed);
    BranchedTree(n, failed);
    BranchedChain(n, failed);
    BranchedSettled(n, failed);
    BranchedOffers(n, failed);
    BranchedLinked(n, failed);
    assert (n + 1, n + 2) in s.u;
    forall x | x in s.t ensures Kept(s.t, s.u, [], x) {
      assert NodeLinked(s.t, x);
    }
  }

  /** 291 blocks on the active chain and a branch off the root: block 292 waits for block 291, is pruned, and block 291
      arrives. Counts were the sign before, and are not in the end. */
  lemma PrunedUncounted()
    ensures var s := Branched(290, false);
            && Sound(s, []) && Linked(s.t) && Tidy(s.t, s.u, []) && CanPrune(s.t, s.v, {292})
            && var s1 := s.(t := s.t[292 := Pruned(s.t[292])], u := NotWaiting(s.t, s.u, 292));
            && Sound(s1, []) && CanArrive(s1.t, 291, 1) && GoodParent(s1.t, 291)
            && var s2 := Received(s1, 291, 1); Linked(s2.t) && !CountsSignal(s2.t)
  {
    hide SkipHeight, Sound, Received, Tidy, Linked, CountsSignal;
    var s := Branched(290, false);
    BranchedSound(290, false);
    assert s.t[292].nHeight == 2 && |s.v| == 291;
    assert !IsTip(s.v, 292);
    PrunedSound(s, 292);
    var s1 := s.(t := s.t[292 := Pruned(s.t[292])], u := NotWaiting(s.t, s.u, 292));
    ArrivesUnder(s1, 291, 292);
  }

  /** The parent of a stray block arrives under a counted one: the sign is lost. */
  lemma ArrivesUnder(s: Index, p: Id, z: Id)
    requires Sound(s, []) && Stray(s, z) && CanArrive(s.t, p, 1) && s.t[z].pprev == To(p) && p != z
    requires s.t[p].pprev.To? && s.t[p].pprev.id in s.t && s.t[s.t[p].pprev.id].nChainTx > 0
    ensures var r := Received(s, p, 1); Linked(r.t) && !CountsSignal(r.t)
  {
    hide Sound, Received, CountsSignal, Linked;
    SameEntries(s, p, 1);
    StrayReceived(s, p, 1, z);
    var r := Received(s, p, 1);
    SoundShape(r, []);
    SignalLost(r, z);
  }

  /** One block on the active chain and a branch off it: block 2 waits for block 1 and has failed. Block 3 arrives and
      is put behind nothing; block 1 arrives. Nothing is pruned, and counts are not the sign in the end. */
  lemma BehindFailed()
    ensures var s := Branched(0, true);
            && Sound(s, []) && Linked(s.t) && Tidy(s.t, s.u, []) && NothingPruned(s.t) && CanArrive(s.t, 3, 1) && !GoodParent(s.t, 3)
            && var s1 := Received(s, 3, 1);
            && CanArrive(s1.t, 1, 1) && GoodParent(s1.t, 1)
            && var s2 := Received(s1, 1, 1); NothingPruned(s2.t) && Linked(s2.t) && !CountsSignal(s2.t)
  {
    hide Sound, Received, CountsSignal, Linked, Entries, Branched, Stray, GoodParent, Tidy, NothingPruned, CanArrive;
    var s := Branched(0, true);
    BranchedSound(0, true);
    BranchSmall();
    var s1 := Received(s, 3, 1);
    SecondArrival(s1);
  }

  lemma BranchSmall()
    ensures var s := Branched(0, true);
            && Sound(s, []) && NothingPruned(s.t) && CanArrive(s.t, 3, 1) && !GoodParent(s.t, 3)
            && var s1 := Received(s, 3, 1); s1 == s.(t := s.t[3 := Stored(s.t[3], 1)]) && s1 == ThreeStored()
  {
    hide Sound, SkipHeight;
    var s := Branched(0, true);
    BranchedSound(0, true);
    assert NodeLinked(s.t, 3) && !StartsQueue(s, 3);
    assert Behind(s.t, s.u, 3) == s.u;
    assert s.t[3 := Stored(s.t[3], 1)] == ThreeStored().t;
  }

  /** The state after the first arrival. */
  function ThreeStored(): Index {
    Branched(0, true).(t := map[
      0 := Trunk(0), 1 := Node(To(0), To(0), 1, 2, 0, 0, false, false, 0),
      2 := Node(To(1), To(0), 2, 3, 1, 0, true, true, 0), 3 := Node(To(2), To(1), 3, 4, 1, 0, false, true, 0)])
  }

  lemma SecondArrival(s: Index)
    requires s == ThreeStored() && Sound(s, [])
    ensures CanArrive(s.t, 1, 1) && GoodParent(s.t, 1)
    ensures var r := Received(s, 1, 1); NothingPruned(r.t) && Linked(r.t) && !CountsSignal(r.t)
  {
    hide Sound, Received, CountsSignal, SkipHeight;
    SoundShape(s, []);
    assert NodeLinked(s.t, 2) && NodeLinked(s.t, 1) && (1, 2) in s.u;
    assert Kept(s.t, s.u, [], 2) && Stray(s, 3) && StartsQueue(s, 1);
    hide Linked, ThreeStored, Trunk;
    KeptReceived(s, 1, 1, 2);
    SameEntries(s, 1, 1);
    StrayReceived(s, 1, 1, 3);
    var r := Received(s, 1, 1);
    SoundShape(r, []);
    assert r.t[2].nChainTx > 0;
    SignalLost(r, 3);
  }
}
