/** The address manager's compound moves, as values: clearing a slot, entering the new table,
    entering the tried table with eviction back to new. */
module AddrMoves {
  import opened AddrTables

  // ---------------------------------------------------------------- what a move may touch

  /** Every entry afterwards was there before with the same address and history. */
  ghost predicate Kept(info: Infos, info': Infos) {
    forall n | n in info' :: n in info && info'[n].addr == info[n].addr && info'[n].known == info[n].known
  }

  /** At most one entry other than `n` is lost, and it was not a tried one. */
  ghost predicate LosesAtMostOne(info: Infos, info': Infos, n: int) {
    && (forall a | a in info && a !in info' && a != n :: !info[a].fInTried)
    && (forall a, b | a in info && a !in info' && b in info && b !in info' && a != n && b != n :: a == b)
  }

  ghost predicate KeptBut(info: Infos, info': Infos, n: int) {
    forall k | k in info' && k != n :: k in info && info'[k].addr == info[k].addr && info'[k].known == info[k].known
  }

  // ---------------------------------------------------------------- clearing a new slot

  /** Enough consistency to take entries out. */
  ghost predicate Whole(st: State) {
    OrderOk(st.pos, st.order) && SameKeys(st.info, st.pos) && forall s: Slot | s in st.inNew :: st.inNew[s] in st.info
  }

  lemma ConsistentWhole(hs: Hashes, st: State, limbo: set<int>)
    requires Consistent(hs, st, limbo)
    ensures Whole(st)
  {
    forall s: Slot | s in st.inNew ensures st.inNew[s] in st.info {
      assert SlotFits(hs, st.info, s, st.inNew[s]);
    }
  }

  /** ClearNew: the occupant loses the slot, and goes altogether with its last slot. */
  ghost function Cleared(st: State, s: Slot): State
    requires Whole(st)
  {
    if s !in st.inNew then st
    else
      var u := Unslotted(st, s);
      if u.info[st.inNew[s]].nRefCount == 0 then Deleted(u, st.inNew[s]) else u
  }

  lemma ClearKeeps(hs: Hashes, st: State, s: Slot, limbo: set<int>)
    requires Consistent(hs, st, limbo)
    ensures s in st.inNew ==> st.inNew[s] in st.info && st.inNew[s] !in limbo && st.info[st.inNew[s]].nRefCount > 0 && !st.info[st.inNew[s]].fInTried
    ensures Whole(st) && Consistent(hs, Cleared(st, s), limbo)
  {
    ConsistentWhole(hs, st, limbo);
    hide OrderOk, IdsOk, NewOk, TriedOk, CountsOk, SameKeys, Swapped;
    if s in st.inNew {
      UnslotKeeps(hs, st, s, limbo);
      var n, u := st.inNew[s], Unslotted(st, s);
      if u.info[n].nRefCount == 0 {
        DeleteKeeps(hs, u, n, limbo);
      }
    }
  }

  /** The entries left after clearing: the occupant is gone or has one reference less. */
  ghost function ClearedInfo(st: State, s: Slot): Infos
    requires Whole(st)
  {
    if s !in st.inNew then st.info
    else
      var n := st.inNew[s];
      if st.info[n].nRefCount == 1 then st.info - {n} else st.info[n := AddRefs(st.info[n], -1)]
  }

  /** Clearing frees the slot, leaves the tried table alone and touches only the occupant. */
  lemma ClearEffect(st: State, s: Slot)
    requires Whole(st)
    ensures var c := Cleared(st, s);
            && c.inNew == st.inNew - {s} && c.inTried == st.inTried && c.nTried == st.nTried && c.nIdCount == st.nIdCount
            && c.info == ClearedInfo(st, s)
  {
    if s in st.inNew {
      var n := st.inNew[s];
      var u := Unslotted(st, s);
      assert n in st.pos;
      hide OrderOk, SameKeys;
      if u.info[n].nRefCount == 0 {
        DeletedFields(u, n);
        hide Deleted;
        assert u.info - {n} == st.info - {n};
      }
    }
  }

  lemma ClearPlaced(st: State, s: Slot, except: set<int>)
    requires Whole(st) && Placed(st.info, except)
    requires s in st.inNew ==> st.info[st.inNew[s]].nRefCount > 0
    ensures Placed(ClearedInfo(st, s), except)
  {
  }

  lemma ClearOther(st: State, s: Slot, n: int)
    requires Whole(st) && n in st.info && (s in st.inNew ==> st.inNew[s] != n)
    ensures n in ClearedInfo(st, s) && ClearedInfo(st, s)[n] == st.info[n]
  {
  }

  // ---------------------------------------------------------------- entering the new table

  /** The tail of Add_: take the slot if it is free or its occupant may go, else drop an unplaced entry. */
  ghost function Inserted(st: State, s: Slot, n: int, now: int): State
    requires Whole(st) && n in st.info
  {
    if s in st.inNew && st.inNew[s] == n then st
    else if s !in st.inNew || st.info[st.inNew[s]].IsTerrible(now) ||
            (st.info[st.inNew[s]].nRefCount > 1 && st.info[n].nRefCount == 0) then
      ClearEffect(st, s);
      Slotted(Cleared(st, s), s, n)
    else if st.info[n].nRefCount == 0 then
      assert n in st.pos;
      Deleted(st, n)
    else st
  }

  lemma InsertKeeps(hs: Hashes, st: State, src: NetAddr, n: int, now: int)
    requires Consistent(hs, st, {}) && Placed(st.info, {n})
    requires n in st.info && !st.info[n].fInTried && st.info[n].nRefCount < NEW_BUCKETS_PER_ADDRESS
    ensures Whole(st) && Inv(hs, Inserted(st, hs.NewSlot(st.info[n].addr, src), n, now))
  {
    var s := hs.NewSlot(st.info[n].addr, src);
    ConsistentWhole(hs, st, {});
    assert s in st.inNew && st.inNew[s] == n ==> st.info[n].nRefCount > 0 by {
      if s in st.inNew && st.inNew[s] == n {
        UnslotKeeps(hs, st, s, {});
      }
    }
    hide OrderOk, IdsOk, NewOk, TriedOk, CountsOk, AddrInfo.IsTerrible, Hashes.NewSlot, Hashes.Position;
    var st' := Inserted(st, s, n, now);
    if st' == st {
    } else if n in st.pos && st' == Deleted(st, n) && st.info[n].nRefCount == 0 {
      DeleteKeeps(hs, st, n, {});
      DeletedFields(st, n);
    } else {
      InsertSlot(hs, st, src, n);
    }
  }

  lemma RefsNonNegative(hs: Hashes, info: Infos, inNew: Table, n: int)
    requires NewOk(hs, info, inNew) && n in info
    ensures info[n].nRefCount >= 0
  {
  }

  lemma InsertSlot(hs: Hashes, st: State, src: NetAddr, n: int)
    requires Consistent(hs, st, {}) && Placed(st.info, {n})
    requires n in st.info && !st.info[n].fInTried && st.info[n].nRefCount < NEW_BUCKETS_PER_ADDRESS
    requires var s := hs.NewSlot(st.info[n].addr, src); s in st.inNew ==> st.inNew[s] != n
    ensures Whole(st)
    ensures var s := hs.NewSlot(st.info[n].addr, src);
            n in Cleared(st, s).info && Inv(hs, Slotted(Cleared(st, s), s, n))
  {
    hide OrderOk, IdsOk, NewOk, TriedOk, CountsOk, Cleared, Whole, SameKeys, UsedIds;
    RefsNonNegative(hs, st.info, st.inNew, n);
    var s := hs.NewSlot(st.info[n].addr, src);
    ClearKeeps(hs, st, s, {});
    ClearEffect(st, s);
    ClearPlaced(st, s, {n});
    var c := Cleared(st, s);
    ClearOther(st, s, n);
    hide ClearedInfo, Hashes.NewSlot;
    assert SlotFits(hs, c.info, s, n);
    SlotKeeps(hs, c, s, n, {});
  }

  // ---------------------------------------------------------------- entering the tried table

  /** The entry taken out of every new bucket. */
  ghost function Withdrawn(st: State, n: int): State
    requires n in st.info
  {
    st.(info := st.info[n := st.info[n].(nRefCount := 0)], inNew := map s: Slot | s in st.inNew && st.inNew[s] != n :: st.inNew[s])
  }

  /** The new table with the entry taken out of the first buckets. */
  ghost function Without(t: Table, n: int, bucket: nat): Table {
    map s: Slot | s in t && !(t[s] == n && s.0 < bucket) :: t[s]
  }

  /** In each bucket only one position can hold the entry. */
  lemma WithoutStep(hs: Hashes, info: Infos, t: Table, n: int, bucket: nat)
    requires NewOk(hs, info, t) && n in info
    ensures var s := (bucket, hs.Position(info[n].addr, true, bucket));
            Without(t, n, bucket + 1) == if s in t && t[s] == n then Without(t, n, bucket) - {s} else Without(t, n, bucket)
  {
    var at: Slot := (bucket, hs.Position(info[n].addr, true, bucket));
    forall s: Slot | s in t && t[s] == n && s.0 == bucket ensures s == at {
      assert SlotFits(hs, info, s, t[s]);
    }
  }

  lemma WithoutAll(hs: Hashes, st: State, n: int)
    requires NewOk(hs, st.info, st.inNew) && n in st.info
    ensures Without(st.inNew, n, NEW_BUCKET_COUNT) == Withdrawn(st, n).inNew
    ensures SlotsOf(Without(st.inNew, n, NEW_BUCKET_COUNT), n) == {}
  {
    forall s: Slot | s in st.inNew ensures s.0 < NEW_BUCKET_COUNT {
      assert SlotFits(hs, st.info, s, st.inNew[s]);
    }
  }

  lemma WithdrawNew(hs: Hashes, st: State, n: int)
    requires NewOk(hs, st.info, st.inNew) && n in st.info
    ensures NewOk(hs, Withdrawn(st, n).info, Withdrawn(st, n).inNew)
  {
    var w := Withdrawn(st, n);
    forall s: Slot | s in w.inNew ensures SlotFits(hs, w.info, s, w.inNew[s]) {
      assert SlotFits(hs, st.info, s, st.inNew[s]);
    }
    forall k | k in w.info ensures w.info[k].nRefCount == |SlotsOf(w.inNew, k)| <= NEW_BUCKETS_PER_ADDRESS {
      if k == n {
        assert SlotsOf(w.inNew, k) == {};
      } else {
        assert SlotsOf(w.inNew, k) == SlotsOf(st.inNew, k);
      }
    }
  }

  lemma WithdrawKeeps(hs: Hashes, st: State, n: int)
    requires Consistent(hs, st, {}) && n in st.info && !st.info[n].fInTried
    ensures var w := Withdrawn(st, n); Consistent(hs, w.(nNew := w.nNew - 1), {n})
  {
    hide OrderOk, IdsOk, NewOk, TriedOk, CountsOk;
    WithdrawNew(hs, st, n);
    var e := st.info[n].(nRefCount := 0);
    UpdateIds(st.info, st.ids, n, e);
    UpdateCounts(st.info, n, e, {}, st.nNew, st.nTried);
    UpdateTried(hs, st.info, st.inTried, n, e);
    EnterLimbo(hs, Withdrawn(st, n), n, {});
    assert {} + {n} == {n};
  }

  /** The occupant of a tried slot moved back to the new table, displacing whatever is there. */
  ghost function Evicted(hs: Hashes, st: State, s: Slot, limbo: set<int>): State
    requires Consistent(hs, st, limbo) && s in st.inTried
  {
    UntryKeeps(hs, st, s, limbo);
    var m, u := st.inTried[s], Untried(st, s);
    var us := hs.NewSlot(u.info[m].addr, u.info[m].known.source);
    ClearKeeps(hs, u, us, limbo + {m});
    var c := Cleared(u, us);
    Slotted(c, us, m).(nNew := c.nNew + 1)
  }

  lemma EvictKeeps(hs: Hashes, st: State, s: Slot, limbo: set<int>)
    requires Consistent(hs, st, limbo) && s in st.inTried && Placed(st.info, limbo)
    ensures Consistent(hs, Evicted(hs, st, s, limbo), limbo) && Placed(Evicted(hs, st, s, limbo).info, limbo)
    ensures s !in Evicted(hs, st, s, limbo).inTried
    ensures forall k | k in limbo :: k in Evicted(hs, st, s, limbo).info && Evicted(hs, st, s, limbo).info[k] == st.info[k]
  {
    hide OrderOk, IdsOk, NewOk, TriedOk, CountsOk, Cleared, Whole, SameKeys, UsedIds;
    UntryKeeps(hs, st, s, limbo);
    var m, u := st.inTried[s], Untried(st, s);
    var us := hs.NewSlot(u.info[m].addr, u.info[m].known.source);
    ClearKeeps(hs, u, us, limbo + {m});
    ClearEffect(u, us);
    ClearPlaced(u, us, limbo + {m});
    forall k | k in limbo + {m} ensures k in ClearedInfo(u, us) && ClearedInfo(u, us)[k] == u.info[k] {
      ClearOther(u, us, k);
    }
    var c := Cleared(u, us);
    LeaveLimbo(hs, c, m, limbo + {m});
    assert limbo + {m} - {m} == limbo;
    hide ClearedInfo, Hashes.NewSlot;
    assert SlotFits(hs, c.info, us, m);
    SlotKeeps(hs, c.(nNew := c.nNew + 1), us, m, limbo);
  }

  /** The entry in limbo takes its tried slot, evicting the occupant. */
  ghost function Entered(hs: Hashes, w: State, n: int): State
    requires Consistent(hs, w, {n}) && Placed(w.info, {n})
  {
    var s := hs.TriedSlot(w.info[n].addr);
    if s in w.inTried then
      EvictKeeps(hs, w, s, {n});
      Tried(hs, Evicted(hs, w, s, {n}), n)
    else Tried(hs, w, n)
  }

  lemma EnterKeeps(hs: Hashes, w: State, n: int)
    requires Consistent(hs, w, {n}) && Placed(w.info, {n})
    ensures Inv(hs, Entered(hs, w, n))
  {
    hide OrderOk, IdsOk, NewOk, TriedOk, CountsOk, SameKeys, UsedIds, Evicted, Hashes.TriedSlot;
    var s := hs.TriedSlot(w.info[n].addr);
    assert {n} - {n} == {};
    if s in w.inTried {
      EvictKeeps(hs, w, s, {n});
      TryKeeps(hs, Evicted(hs, w, s, {n}), n, {n});
    } else {
      TryKeeps(hs, w, n, {n});
    }
  }

  lemma WithdrawPlaced(info: Infos, n: int)
    requires Placed(info, {}) && n in info
    ensures Placed(info[n := info[n].(nRefCount := 0)], {n})
  {
  }

  /** MakeTried. */
  ghost function MadeTried(hs: Hashes, st: State, n: int): (st': State)
    requires Inv(hs, st) && n in st.info && !st.info[n].fInTried
    ensures Inv(hs, st')
  {
    WithdrawKeeps(hs, st, n);
    WithdrawPlaced(st.info, n);
    var w := Withdrawn(st, n).(nNew := st.nNew - 1);
    EnterKeeps(hs, w, n);
    Entered(hs, w, n)
  }

  // ---------------------------------------------------------------- what the moves do

  /** The occupant of the slot may give way to a new entry. */
  predicate MayTake(st: State, s: Slot, n: int, now: int)
    requires n in st.info && (s in st.inNew ==> st.inNew[s] in st.info)
  {
    s !in st.inNew || !Healthy(st.info[st.inNew[s]].known, now) || (st.info[st.inNew[s]].nRefCount > 1 && st.info[n].nRefCount == 0)
  }

  /** Entering the new table: the entry survives exactly if it was placed already or may take the slot;
      one displaced entry may go; the tried table is untouched. */
  lemma InsertEffect(hs: Hashes, st: State, s: Slot, n: int, now: int)
    requires Consistent(hs, st, {}) && n in st.info && !st.info[n].fInTried
    ensures Whole(st)
    ensures var st' := Inserted(st, s, n, now);
            && Kept(st.info, st'.info) && LosesAtMostOne(st.info, st'.info, n)
            && st'.inTried == st.inTried && st'.nTried == st.nTried && st'.nIdCount == st.nIdCount
            && (n in st'.info <==> st.info[n].nRefCount > 0 || MayTake(st, s, n, now))
            && (MayTake(st, s, n, now) ==> s in st'.inNew && st'.inNew[s] == n)
  {
    hide OrderOk, IdsOk, NewOk, TriedOk, CountsOk, AddrInfo.IsTerrible, Healthy, Hashes.NewSlot, Hashes.Position, Kept, LosesAtMostOne, Whole;
    ConsistentWhole(hs, st, {});
    if s in st.inNew {
      HealthyStays(st.info[st.inNew[s]], now);
      UnslotKeeps(hs, st, s, {});
    }
    RefsNonNegative(hs, st.info, st.inNew, n);
    NothingLost(st.info, n);
    if s in st.inNew && st.inNew[s] == n {
    } else if MayTake(st, s, n, now) {
      ClearEffect(st, s);
      ClearOther(st, s, n);
      ClearLoses(st, s, n);
      hide Cleared, ClearedInfo;
    } else if st.info[n].nRefCount == 0 {
      DeletedFields(st, n);
      DropLoses(st.info, n);
      hide Deleted;
    }
  }

  /** Healthy entries stay, and with their only slot if they have one. */
  ghost predicate Spares(st: State, st': State, now: int) {
    && (forall k | k in st.info && Healthy(st.info[k].known, now) :: k in st'.info)
    && (forall s: Slot | s in st.inNew && HoldsOne(st, st.inNew[s], now) :: s in st'.inNew && st'.inNew[s] == st.inNew[s])
  }

  ghost predicate HoldsOne(st: State, k: int, now: int) {
    k in st.info && Healthy(st.info[k].known, now) && st.info[k].nRefCount == 1
  }

  /** Entering the new table spares every healthy entry but one that has no slot itself. */
  lemma InsertSpares(hs: Hashes, st: State, s: Slot, n: int, now: int)
    requires Consistent(hs, st, {}) && n in st.info && !st.info[n].fInTried
    ensures Whole(st)
    ensures forall k | k in st.info && k != n && Healthy(st.info[k].known, now) :: k in Inserted(st, s, n, now).info
    ensures st.info[n].nRefCount > 0 ==> n in Inserted(st, s, n, now).info
    ensures forall q: Slot | q in st.inNew && (st.inNew[q] == n || HoldsOne(st, st.inNew[q], now)) ::
              q in Inserted(st, s, n, now).inNew && Inserted(st, s, n, now).inNew[q] == st.inNew[q]
  {
    hide OrderOk, IdsOk, NewOk, TriedOk, CountsOk, AddrInfo.IsTerrible, Hashes.NewSlot, Hashes.Position, Whole, Healthy;
    ConsistentWhole(hs, st, {});
    if s in st.inNew {
      UnslotKeeps(hs, st, s, {});
      HealthyStays(st.info[st.inNew[s]], now);
    }
    RefsNonNegative(hs, st.info, st.inNew, n);
    if s in st.inNew && st.inNew[s] == n {
    } else if MayTake(st, s, n, now) {
      ClearEffect(st, s);
      ClearOther(st, s, n);
      hide Cleared;
    } else if st.info[n].nRefCount == 0 {
      DeletedFields(st, n);
      hide Deleted;
    }
  }

  lemma HealthyStays(e: AddrInfo, now: int)
    ensures Healthy(e.known, now) <==> !e.IsTerrible(now)
  {
    TerribleExactly(e, now);
  }

  lemma NothingLost(info: Infos, n: int)
    ensures Kept(info, info) && LosesAtMostOne(info, info, n)
  {
  }

  lemma DropLoses(info: Infos, n: int)
    requires n in info
    ensures Kept(info, info - {n}) && LosesAtMostOne(info, info - {n}, n)
  {
  }

  lemma ClearLoses(st: State, s: Slot, n: int)
    requires Whole(st) && n in st.info && (s in st.inNew ==> st.inNew[s] != n && !st.info[st.inNew[s]].fInTried)
    ensures n in ClearedInfo(st, s) && Kept(st.info, ClearedInfo(st, s)[n := AddRefs(ClearedInfo(st, s)[n], 1)])
    ensures LosesAtMostOne(st.info, ClearedInfo(st, s)[n := AddRefs(ClearedInfo(st, s)[n], 1)], n)
  {
  }

  /** Only the flag of `m` is dropped. */
  ghost predicate FlagsBut(info: Infos, info': Infos, m: int) {
    forall k | k in info' :: k in info && (info'[k].fInTried <==> info[k].fInTried && k != m)
  }

  lemma UntryLoses(st: State, u: State, us: Slot, m: int, n: int)
    requires Whole(u) && m in st.info && n in st.info && n != m && u.info == st.info[m := st.info[m].(fInTried := false)]
    requires us in u.inNew ==> u.inNew[us] != m && u.inNew[us] != n && !st.info[u.inNew[us]].fInTried
    ensures m in ClearedInfo(u, us)
    ensures var info' := ClearedInfo(u, us)[m := AddRefs(ClearedInfo(u, us)[m], 1)];
            Kept(st.info, info') && LosesAtMostOne(st.info, info', n) && n in info' && FlagsBut(st.info, info', m)
  {
  }

  lemma EvictEffect(hs: Hashes, st: State, s: Slot, limbo: set<int>, n: int)
    requires Consistent(hs, st, limbo) && s in st.inTried && n in limbo
    ensures var e := Evicted(hs, st, s, limbo);
            Kept(st.info, e.info) && LosesAtMostOne(st.info, e.info, n) && n in e.info && FlagsBut(st.info, e.info, st.inTried[s])
  {
    hide OrderOk, IdsOk, NewOk, TriedOk, CountsOk, SameKeys, UsedIds, Cleared, ClearedInfo, Kept, LosesAtMostOne, FlagsBut, Whole;
    UntryKeeps(hs, st, s, limbo);
    var m, u := st.inTried[s], Untried(st, s);
    var us := hs.NewSlot(u.info[m].addr, u.info[m].known.source);
    ClearKeeps(hs, u, us, limbo + {m});
    if us in u.inNew {
      UnslotKeeps(hs, u, us, limbo + {m});
    }
    ClearEffect(u, us);
    UntryLoses(st, u, us, m, n);
  }

  lemma WrapLoses(info: Infos, w: Infos, e: Infos, n: int, m: int)
    requires n in info && n != m && w == info[n := info[n].(nRefCount := 0)] && n in e && !info[n].fInTried
    requires Kept(w, e) && LosesAtMostOne(w, e, n) && FlagsBut(w, e, m)
    ensures var info' := e[n := e[n].(fInTried := true)];
            Kept(info, info') && LosesAtMostOne(info, info', n) &&
            forall k | k in info' :: info'[k].fInTried <==> k == n || (info[k].fInTried && k != m)
  {
  }

  lemma NoFlags(info: Infos, m: int)
    requires m !in info
    ensures FlagsBut(info, info, m)
  {
  }

  function Owner(st: State, s: Slot): int { if s in st.inTried then st.inTried[s] else -1 }

  /** The tried entries that belong to a slot are just its occupant. */
  lemma SlotOwner(hs: Hashes, st: State, s: Slot)
    requires Consistent(hs, st, {})
    ensures s !in st.inTried ==> Owner(st, s) !in st.info
    ensures s in st.inTried ==> Owner(st, s) in st.info && st.info[Owner(st, s)].fInTried
    ensures forall k | k in st.info && st.info[k].fInTried :: k != Owner(st, s) <==> hs.TriedSlot(st.info[k].addr) != s
  {
    hide OrderOk, IdsOk, NewOk, CountsOk, SameKeys, Hashes.TriedSlot;
  }

  /** Moving an entry to tried: it gets there with its history; the previous owner of its slot, and no
      other tried entry, goes back to new; at most one new entry is lost. */
  lemma MakeTriedEffect(hs: Hashes, st: State, n: int)
    requires Inv(hs, st) && n in st.info && !st.info[n].fInTried
    ensures var st' := MadeTried(hs, st, n);
            && n in st'.info && Kept(st.info, st'.info) && LosesAtMostOne(st.info, st'.info, n)
            && forall k | k in st'.info ::
                 st'.info[k].fInTried <==>
                 k == n || (st.info[k].fInTried && hs.TriedSlot(st.info[k].addr) != hs.TriedSlot(st.info[n].addr))
  {
    hide OrderOk, IdsOk, NewOk, TriedOk, CountsOk, SameKeys, UsedIds, Evicted, Hashes.TriedSlot, FlagsBut;
    var s := hs.TriedSlot(st.info[n].addr);
    var m := Owner(st, s);
    SlotOwner(hs, st, s);
    WithdrawKeeps(hs, st, n);
    WithdrawPlaced(st.info, n);
    var w := Withdrawn(st, n).(nNew := st.nNew - 1);
    if s in w.inTried {
      EvictEffect(hs, w, s, {n}, n);
      WrapLoses(st.info, w.info, Evicted(hs, w, s, {n}).info, n, m);
    } else {
      NothingLost(w.info, n);
      NoFlags(w.info, m);
      WrapLoses(st.info, w.info, w.info, n, m);
    }
  }
}
