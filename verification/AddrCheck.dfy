/** The manager's own consistency check on arbitrary indexes: what exactly it accepts, and what it misses. */
module AddrCheck {
  import opened AddrTables
  import opened AddrCodec
  import opened Sets
  import M = AddrMan

  // ---------------------------------------------------------------- what the check asks for

  /** The id the index gives for an address, zero if there is none. */
  function Lookup(ids: map<NetAddr, int>, ip: NetAddr): int {
    if ip in ids then ids[ip] else 0
  }

  /** What is asked of one entry. */
  predicate EntryOk(st: State, n: int) {
    n in st.info && n in st.pos &&
    var e := st.info[n];
    && (if e.fInTried then e.known.nLastSuccess != 0 && e.nRefCount == 0 else 1 <= e.nRefCount <= NEW_BUCKETS_PER_ADDRESS)
    && Lookup(st.ids, e.addr.ip) == n
    && 0 <= st.pos[n] < |st.order| && st.order[st.pos[n]] == n
    && e.known.nLastTry >= 0 && e.known.nLastSuccess >= 0
  }

  ghost predicate EntriesOk(st: State) {
    forall n | n in st.info :: EntryOk(st, n)
  }

  /** Everything the check asks for but the key. */
  ghost predicate Passes(hs: Hashes, st: State) {
    && |st.order| == st.nTried + st.nNew && EntriesOk(st) && CountsOk(st.info, {}, st.nNew, st.nTried)
    && TriedOk(hs, st.info, st.inTried) && NewOk(hs, st.info, st.inNew)
  }

  // ---------------------------------------------------------------- the pass over the entries

  /** The pass over the entries, in some order. */
  method CheckEntries(m: M.AddrMan) returns (err: int, setTried: set<int>, mapNew: map<int, int>)
    requires m.Shape() && SameKeys(m.info, m.pos)
    ensures (err == 0 <==> EntriesOk(m.St())) && err != -16
    ensures err == 0 ==> setTried == TriedIds(m.info) && mapNew.Keys == NewIds(m.info)
    ensures err == 0 ==> forall n | n in mapNew :: mapNew[n] == m.info[n].nRefCount
  {
    hide M.TableOf;
    setTried, mapNew := {}, map[];
    var left := m.info.Keys;
    while left != {}
      invariant left <= m.info.Keys
      invariant forall k | k in m.info && k !in left :: EntryOk(m.St(), k)
      invariant forall k :: k in setTried <==> k in m.info && k !in left && m.info[k].fInTried
      invariant forall k :: k in mapNew <==> k in m.info && k !in left && !m.info[k].fInTried
      invariant forall k | k in mapNew :: mapNew[k] == m.info[k].nRefCount
      decreases |left|
    {
      ghost var some := Member(left);
      var n :| n in left;
      left := left - {n};
      var e := m.info[n];
      assert n in m.pos;
      err := CheckEntry(m, n);
      if err != 0 { return; }
      if e.fInTried {
        setTried := setTried + {n};
      } else {
        mapNew := mapNew[n := e.nRefCount];
      }
    }
    err := 0;
    AllSeen(m.info, setTried, mapNew);
  }

  lemma AllSeen(info: Infos, setTried: set<int>, mapNew: map<int, int>)
    requires forall n :: n in setTried <==> n in info && info[n].fInTried
    requires forall n :: n in mapNew <==> n in info && !info[n].fInTried
    ensures setTried == TriedIds(info) && mapNew.Keys == NewIds(info)
  {
    forall n ensures n in mapNew.Keys <==> n in NewIds(info) {
      assert n in mapNew.Keys <==> n in mapNew;
    }
    forall n ensures n in setTried <==> n in TriedIds(info) {
    }
  }

  method CheckEntry(m: M.AddrMan, n: int) returns (err: int)
    requires n in m.info && n in m.pos
    ensures (err == 0 <==> EntryOk(m.St(), n)) && err != -16
  {
    hide M.TableOf;
    var e := m.info[n];
    if e.fInTried {
      if e.known.nLastSuccess == 0 { return -1; }
      if e.nRefCount != 0 { return -2; }
    } else {
      if e.nRefCount < 0 || e.nRefCount > NEW_BUCKETS_PER_ADDRESS { return -3; }
      if e.nRefCount == 0 { return -4; }
    }
    if Lookup(m.ids, e.addr.ip) != n { return -5; }
    if m.pos[n] < 0 || m.pos[n] >= |m.order| || m.order[m.pos[n]] != n { return -14; }
    if e.known.nLastTry < 0 { return -6; }
    if e.known.nLastSuccess < 0 { return -8; }
    err := 0;
  }

  // ---------------------------------------------------------------- the pass over the tried table

  ghost predicate Before(s: Slot, b: nat, i: nat) { s.0 < b || (s.0 == b && s.1 < i) }

  /** The entry sits in the tried table at its own slot. */
  ghost predicate TriedFits(hs: Hashes, info: Infos, t: Table, s: Slot)
    requires s in t
  {
    t[s] in info && info[t[s]].fInTried && s == hs.TriedSlot(info[t[s]].addr)
  }

  ghost predicate TriedUpTo(hs: Hashes, info: Infos, t: Table, b: nat, i: nat) {
    forall s | s in t && Before(s, b, i) :: TriedFits(hs, info, t, s)
  }

  ghost predicate Found(hs: Hashes, info: Infos, t: Table, n: int, b: nat, i: nat)
    requires n in info
  {
    var s := hs.TriedSlot(info[n].addr);
    Before(s, b, i) && s in t && t[s] == n
  }

  /** The tried entries not found yet. */
  ghost function Unfound(hs: Hashes, info: Infos, t: Table, b: nat, i: nat): set<int> {
    set n | n in info && info[n].fInTried && !Found(hs, info, t, n, b, i)
  }

  lemma TriedEmpty(hs: Hashes, info: Infos, t: Table, b: nat, i: nat)
    requires (b, i) !in t && TriedUpTo(hs, info, t, b, i)
    ensures TriedUpTo(hs, info, t, b, i + 1) && Unfound(hs, info, t, b, i + 1) == Unfound(hs, info, t, b, i)
  {
    hide Hashes.TriedSlot;
    forall s | s in t && Before(s, b, i + 1) ensures TriedFits(hs, info, t, s) {
      assert Before(s, b, i) || s == (b, i);
    }
  }

  lemma TriedHeld(hs: Hashes, info: Infos, t: Table, b: nat, i: nat)
    requires (b, i) in t && TriedUpTo(hs, info, t, b, i)
    ensures TriedFits(hs, info, t, (b, i)) ==> t[(b, i)] in Unfound(hs, info, t, b, i)
    ensures TriedFits(hs, info, t, (b, i)) ==>
              TriedUpTo(hs, info, t, b, i + 1) && Unfound(hs, info, t, b, i + 1) == Unfound(hs, info, t, b, i) - {t[(b, i)]}
    ensures TriedOk(hs, info, t) ==> TriedFits(hs, info, t, (b, i))
  {
    hide Hashes.TriedSlot;
    if TriedFits(hs, info, t, (b, i)) {
      forall s | s in t && Before(s, b, i + 1) ensures TriedFits(hs, info, t, s) {
        assert Before(s, b, i) || s == (b, i);
      }
      forall n ensures n in Unfound(hs, info, t, b, i + 1) <==> n in Unfound(hs, info, t, b, i) - {t[(b, i)]} {
      }
    }
  }

  lemma TriedBounds(hs: Hashes, info: Infos, t: Table, b: nat)
    requires forall s: Slot | s in t :: s.0 < TRIED_BUCKET_COUNT && s.1 < BUCKET_SIZE
    ensures TriedUpTo(hs, info, t, 0, 0) && Unfound(hs, info, t, 0, 0) == TriedIds(info)
    ensures Unfound(hs, info, t, b, BUCKET_SIZE) == Unfound(hs, info, t, b + 1, 0)
    ensures TriedUpTo(hs, info, t, b, BUCKET_SIZE) ==> TriedUpTo(hs, info, t, b + 1, 0)
    ensures TriedUpTo(hs, info, t, TRIED_BUCKET_COUNT, 0) ==>
              (Unfound(hs, info, t, TRIED_BUCKET_COUNT, 0) == {} <==> TriedOk(hs, info, t))
  {
    hide Hashes.TriedSlot;
    forall n ensures n in Unfound(hs, info, t, 0, 0) <==> n in TriedIds(info) {
    }
    forall n ensures n in Unfound(hs, info, t, b, BUCKET_SIZE) <==> n in Unfound(hs, info, t, b + 1, 0) {
    }
    TriedEnd(hs, info, t);
  }

  lemma TriedEnd(hs: Hashes, info: Infos, t: Table)
    requires forall s: Slot | s in t :: s.0 < TRIED_BUCKET_COUNT && s.1 < BUCKET_SIZE
    ensures TriedUpTo(hs, info, t, TRIED_BUCKET_COUNT, 0) ==>
              (Unfound(hs, info, t, TRIED_BUCKET_COUNT, 0) == {} <==> TriedOk(hs, info, t))
  {
    hide Hashes.TriedSlot;
    var left := Unfound(hs, info, t, TRIED_BUCKET_COUNT, 0);
    forall n | n in info && info[n].fInTried
      ensures n !in left <==> hs.TriedSlot(info[n].addr) in t && t[hs.TriedSlot(info[n].addr)] == n
    {
    }
    if TriedUpTo(hs, info, t, TRIED_BUCKET_COUNT, 0) {
      forall s: Slot | s in t ensures TriedFits(hs, info, t, s) {
        assert Before(s, TRIED_BUCKET_COUNT, 0);
      }
      if TriedOk(hs, info, t) {
        forall n ensures n !in left {
        }
      }
    }
  }

  lemma SlotsInArray(a: array2<int>)
    ensures forall s: Slot | s in M.TableOf(a) :: s.0 < a.Length0 && s.1 < a.Length1
  {
  }

  /** The pass over the tried table: every entry marked tried sits once, at its own slot, and nothing else does. */
  method CheckTriedTable(m: M.AddrMan, ids: set<int>) returns (err: int)
    requires m.Shape() && ids == TriedIds(m.info)
    ensures (err == 0 <==> TriedOk(m.Hs(), m.info, m.St().inTried)) && err != -16
  {
    hide M.TableOf, TriedOk, Unfound, TriedUpTo, Hashes.TriedBucket, Hashes.Position;
    var setTried := ids;
    ghost var t := m.St().inTried;
    SlotsInArray(m.vvTried);
    TriedBounds(m.Hs(), m.info, t, 0);
    for b := 0 to TRIED_BUCKET_COUNT
      invariant TriedUpTo(m.Hs(), m.info, t, b, 0) && setTried == Unfound(m.Hs(), m.info, t, b, 0)
    {
      for i := 0 to BUCKET_SIZE
        invariant TriedUpTo(m.Hs(), m.info, t, b, i) && setTried == Unfound(m.Hs(), m.info, t, b, i)
      {
        M.ReadSlot(m.vvTried, b, i);
        var n := m.vvTried[b, i];
        if n != M.EMPTY {
          TriedHeld(m.Hs(), m.info, t, b, i);
          UnfoundKnown(m.Hs(), m.info, t, b, i);
          if n !in setTried { return -11; }
          if m.Hs().TriedBucket(m.info[n].addr) != b { return -17; }
          if m.Hs().Position(m.info[n].addr, false, b) != i { return -18; }
          setTried := setTried - {n};
        } else {
          TriedEmpty(m.Hs(), m.info, t, b, i);
        }
      }
      TriedBounds(m.Hs(), m.info, t, b);
    }
    TriedBounds(m.Hs(), m.info, t, 0);
    if setTried != {} { return -13; }
    err := 0;
  }

  lemma UnfoundKnown(hs: Hashes, info: Infos, t: Table, b: nat, i: nat)
    ensures forall n | n in Unfound(hs, info, t, b, i) :: n in info && info[n].fInTried
  {
  }

  // ---------------------------------------------------------------- the pass over the new table

  /** The slots of an entry visited so far, counted. */
  ghost function Seen(t: Table, n: int, b: nat, i: nat): nat { |SlotsOf(t, n) * Upto(t, b, i)| }

  /** The count left for an entry is what its own count leaves after the slots seen. */
  ghost predicate CountsOne(info: Infos, left: map<int, int>, n: int, seen: nat) {
    && (n in left <==> n in info && !info[n].fInTried && seen < info[n].nRefCount)
    && (n in left ==> left[n] == info[n].nRefCount - seen)
    && (n in info && !info[n].fInTried ==> seen <= info[n].nRefCount)
  }

  ghost predicate Counts(t: Table, info: Infos, left: map<int, int>, b: nat, i: nat) {
    forall n :: CountsOne(info, left, n, Seen(t, n, b, i))
  }

  ghost predicate NewUpTo(hs: Hashes, info: Infos, t: Table, b: nat, i: nat) {
    forall s | s in t && Before(s, b, i) :: SlotFits(hs, info, s, t[s])
  }

  function Decrement(left: map<int, int>, n: int): map<int, int>
    requires n in left
  {
    if left[n] == 1 then left - {n} else left[n := left[n] - 1]
  }

  lemma SeenOne(t: Table, k: int, b: nat, i: nat)
    ensures Seen(t, k, b, i + 1) == Seen(t, k, b, i) + if (b, i) in t && t[(b, i)] == k then 1 else 0
  {
    var s: Slot := (b, i);
    var before, after := SlotsOf(t, k) * Upto(t, b, i), SlotsOf(t, k) * Upto(t, b, i + 1);
    if s in t && t[s] == k {
      assert after == before + {s};
    } else {
      assert after == before;
    }
  }

  lemma SeenAtMost(t: Table, n: int, b: nat, i: nat)
    ensures Seen(t, n, b, i) <= |SlotsOf(t, n)|
    ensures (b, i) in t && t[(b, i)] == n ==> Seen(t, n, b, i) < |SlotsOf(t, n)|
  {
    Within(SlotsOf(t, n) * Upto(t, b, i), SlotsOf(t, n));
    if (b, i) in t && t[(b, i)] == n {
      var s: Slot := (b, i);
      Within(SlotsOf(t, n) * Upto(t, b, i), SlotsOf(t, n) - {s});
    }
  }

  lemma NewEmpty(hs: Hashes, info: Infos, t: Table, left: map<int, int>, b: nat, i: nat)
    requires NewUpTo(hs, info, t, b, i) && Counts(t, info, left, b, i) && (b, i) !in t
    ensures NewUpTo(hs, info, t, b, i + 1) && Counts(t, info, left, b, i + 1)
  {
    hide Seen, CountsOne;
    forall s | s in t && Before(s, b, i + 1) ensures SlotFits(hs, info, s, t[s]) {
      assert Before(s, b, i) || s == (b, i);
    }
    var j := i + 1;
    forall k ensures CountsOne(info, left, k, Seen(t, k, b, j)) {
      SeenOne(t, k, b, i);
      assert CountsOne(info, left, k, Seen(t, k, b, i));
    }
  }

  lemma NewHeld(hs: Hashes, info: Infos, t: Table, left: map<int, int>, b: nat, i: nat)
    requires NewUpTo(hs, info, t, b, i) && Counts(t, info, left, b, i) && (b, i) in t && b < NEW_BUCKET_COUNT
    requires t[(b, i)] in left && t[(b, i)] in info && hs.Position(info[t[(b, i)]].addr, true, b) == i
    ensures NewUpTo(hs, info, t, b, i + 1) && Counts(t, info, Decrement(left, t[(b, i)]), b, i + 1)
  {
    hide Seen, Hashes.Position;
    var n := t[(b, i)];
    assert CountsOne(info, left, n, Seen(t, n, b, i));
    forall s | s in t && Before(s, b, i + 1) ensures SlotFits(hs, info, s, t[s]) {
      assert Before(s, b, i) || s == (b, i);
    }
    var j := i + 1;
    forall k ensures CountsOne(info, Decrement(left, n), k, Seen(t, k, b, j)) {
      SeenOne(t, k, b, i);
      assert CountsOne(info, left, k, Seen(t, k, b, i));
    }
  }

  /** A consistent table never makes the pass fail at a slot. */
  lemma NewSlotGood(hs: Hashes, info: Infos, t: Table, left: map<int, int>, b: nat, i: nat)
    requires Counts(t, info, left, b, i) && (b, i) in t && NewOk(hs, info, t)
    ensures t[(b, i)] in left && t[(b, i)] in info && hs.Position(info[t[(b, i)]].addr, true, b) == i
  {
    hide Seen, Hashes.Position, SlotsOf;
    var s: Slot := (b, i);
    assert SlotFits(hs, info, s, t[s]);
    SeenAtMost(t, t[s], b, i);
    assert CountsOne(info, left, t[s], Seen(t, t[s], b, i));
  }

  lemma LeftKnown(info: Infos, t: Table, left: map<int, int>, b: nat, i: nat)
    requires Counts(t, info, left, b, i)
    ensures forall n | n in left :: n in info
  {
    forall n | n in left ensures n in info {
      assert CountsOne(info, left, n, Seen(t, n, b, i));
    }
  }

  lemma NewStart(hs: Hashes, st: State, left: map<int, int>)
    requires EntriesOk(st) && left.Keys == NewIds(st.info) && forall n | n in left :: left[n] == st.info[n].nRefCount
    ensures NewUpTo(hs, st.info, st.inNew, 0, 0) && Counts(st.inNew, st.info, left, 0, 0)
  {
    forall n ensures CountsOne(st.info, left, n, Seen(st.inNew, n, 0, 0)) {
      assert SlotsOf(st.inNew, n) * Upto(st.inNew, 0, 0) == {};
      assert n in left.Keys <==> n in NewIds(st.info);
      assert n in st.info ==> EntryOk(st, n);
    }
  }

  lemma NextBucket(hs: Hashes, info: Infos, t: Table, left: map<int, int>, b: nat)
    requires forall s: Slot | s in t :: s.0 < NEW_BUCKET_COUNT && s.1 < BUCKET_SIZE
    requires NewUpTo(hs, info, t, b, BUCKET_SIZE) && Counts(t, info, left, b, BUCKET_SIZE)
    ensures NewUpTo(hs, info, t, b + 1, 0) && Counts(t, info, left, b + 1, 0)
  {
    var c := b + 1;
    assert Upto(t, b, BUCKET_SIZE) == Upto(t, c, 0);
    forall n ensures CountsOne(info, left, n, Seen(t, n, c, 0)) {
      assert CountsOne(info, left, n, Seen(t, n, b, BUCKET_SIZE));
    }
  }

  /** After all slots the counts are used up exactly if every entry counts its slots. */
  lemma NewEnd(hs: Hashes, st: State, left: map<int, int>)
    requires forall s: Slot | s in st.inNew :: s.0 < NEW_BUCKET_COUNT && s.1 < BUCKET_SIZE
    requires EntriesOk(st) && NewUpTo(hs, st.info, st.inNew, NEW_BUCKET_COUNT, 0) && Counts(st.inNew, st.info, left, NEW_BUCKET_COUNT, 0)
    ensures left == map[] <==> NewOk(hs, st.info, st.inNew)
  {
    var t := st.inNew;
    hide Hashes.Position, EntryOk;
    forall s: Slot | s in t ensures SlotFits(hs, st.info, s, t[s]) {
      assert Before(s, NEW_BUCKET_COUNT, 0);
    }
    forall n ensures n in left <==> n in st.info && st.info[n].nRefCount != |SlotsOf(t, n)| {
      EndCount(hs, st, left, n);
    }
    if left == map[] {
      forall n | n in st.info ensures st.info[n].nRefCount == |SlotsOf(t, n)| <= NEW_BUCKETS_PER_ADDRESS {
        EndLimit(st, n);
      }
    }
    if NewOk(hs, st.info, t) {
      forall n ensures n !in left {
      }
    }
  }

  lemma EndCount(hs: Hashes, st: State, left: map<int, int>, n: int)
    requires forall s: Slot | s in st.inNew :: s.0 < NEW_BUCKET_COUNT && s.1 < BUCKET_SIZE
    requires EntriesOk(st) && NewUpTo(hs, st.info, st.inNew, NEW_BUCKET_COUNT, 0) && Counts(st.inNew, st.info, left, NEW_BUCKET_COUNT, 0)
    ensures n in left <==> n in st.info && st.info[n].nRefCount != |SlotsOf(st.inNew, n)|
  {
    var t := st.inNew;
    assert SlotsOf(t, n) * Upto(t, NEW_BUCKET_COUNT, 0) == SlotsOf(t, n);
    assert CountsOne(st.info, left, n, Seen(t, n, NEW_BUCKET_COUNT, 0));
    if n in st.info && st.info[n].fInTried {
      assert EntryOk(st, n);
      forall s: Slot | s in t ensures t[s] != n {
        assert Before(s, NEW_BUCKET_COUNT, 0);
        assert SlotFits(hs, st.info, s, t[s]);
      }
      assert SlotsOf(t, n) == {};
    }
  }

  lemma EndLimit(st: State, n: int)
    requires EntriesOk(st) && n in st.info
    ensures 0 <= st.info[n].nRefCount <= NEW_BUCKETS_PER_ADDRESS
  {
    assert EntryOk(st, n);
  }

  /** The pass over the new table: the slots of each entry are its own and exactly as many as it counts. */
  method CheckNewTable(m: M.AddrMan, refs: map<int, int>) returns (err: int)
    requires m.Shape() && EntriesOk(m.St()) && refs.Keys == NewIds(m.info) && forall n | n in refs :: refs[n] == m.info[n].nRefCount
    ensures (err == 0 <==> NewOk(m.Hs(), m.info, m.St().inNew)) && err != -16
  {
    hide M.TableOf, NewOk, Counts, NewUpTo, Hashes.Position, Decrement, EntriesOk;
    var mapNew := refs;
    ghost var t := m.St().inNew;
    SlotsInArray(m.vvNew);
    NewStart(m.Hs(), m.St(), mapNew);
    for b := 0 to NEW_BUCKET_COUNT
      invariant NewUpTo(m.Hs(), m.info, t, b, 0) && Counts(t, m.info, mapNew, b, 0)
    {
      for i := 0 to BUCKET_SIZE
        invariant NewUpTo(m.Hs(), m.info, t, b, i) && Counts(t, m.info, mapNew, b, i)
      {
        M.ReadSlot(m.vvNew, b, i);
        var n := m.vvNew[b, i];
        if n != M.EMPTY {
          LeftKnown(m.info, t, mapNew, b, i);
          if NewOk(m.Hs(), m.info, t) {
            NewSlotGood(m.Hs(), m.info, t, mapNew, b, i);
          }
          if n !in mapNew { return -12; }
          if m.Hs().Position(m.info[n].addr, true, b) != i { return -19; }
          NewHeld(m.Hs(), m.info, t, mapNew, b, i);
          mapNew := Decrement(mapNew, n);
        } else {
          NewEmpty(m.Hs(), m.info, t, mapNew, b, i);
        }
      }
      NextBucket(m.Hs(), m.info, t, mapNew, b);
    }
    NewEnd(m.Hs(), m.St(), mapNew);
    if mapNew != map[] { return -15; }
    err := 0;
  }

  // ---------------------------------------------------------------- the whole check

  /** Check_ on any indexes: it reports nothing if and only if all it asks for holds and there is a key. */
  method Check(m: M.AddrMan) returns (err: int)
    requires m.Shape() && SameKeys(m.info, m.pos)
    ensures err == 0 <==> Passes(m.Hs(), m.St()) && m.nKey != 0
    ensures err == -16 <==> Passes(m.Hs(), m.St()) && m.nKey == 0
  {
    hide M.TableOf, NewOk, TriedOk, EntriesOk;
    if |m.order| != m.nTried + m.nNew { return -7; }
    var setTried, mapNew;
    err, setTried, mapNew := CheckEntries(m);
    if err != 0 { return; }
    assert NewIds(m.info) - {} == NewIds(m.info);
    if |setTried| != m.nTried { return -9; }
    if |mapNew.Keys| != m.nNew { return -10; }
    err := CheckTriedTable(m, setTried);
    if err != 0 { return; }
    err := CheckNewTable(m, mapNew);
    if err != 0 { return; }
    if m.nKey == 0 { return -16; }
  }

  // ---------------------------------------------------------------- what it means

  /** What the check does not look at: every address leads to its entry, entry 0 is indexed, ids are below the counter. */
  ghost predicate Unasked(st: State) {
    && (forall ip | ip in st.ids :: st.ids[ip] in st.info && st.info[st.ids[ip]].addr.ip == ip)
    && (0 in st.info ==> st.info[0].addr.ip in st.ids)
    && UsedIds(st.info, st.nIdCount)
  }

  lemma EqualSize<T>(s: set<T>, t: set<T>)
    requires s <= t && |s| == |t|
    ensures s == t
  {
    if s != t {
      var x :| x in t && x !in s;
      Within(s, t - {x});
    }
  }

  lemma {:induction false} PositionCount(keys: set<int>, pos: map<int, int>)
    requires (forall n | n in keys :: n in pos) && forall a, b | a in keys && b in keys && pos[a] == pos[b] :: a == b
    ensures |set n | n in keys :: pos[n]| == |keys|
    decreases |keys|
  {
    var all := set n | n in keys :: pos[n];
    if keys == {} {
      assert all == {};
    } else {
      var k := Member(keys);
      PositionCount(keys - {k}, pos);
      var fewer := set n | n in keys - {k} :: pos[n];
      assert all == fewer + {pos[k]};
      assert pos[k] !in fewer;
    }
  }

  ghost function Indexes(n: nat): (r: set<int>)
    ensures |r| == n && forall i :: i in r <==> 0 <= i < n
  {
    if n == 0 then {} else Indexes(n - 1) + {n - 1}
  }

  /** With as many places as entries, entries that point at themselves leave no other place. */
  lemma OrderFollows(st: State)
    requires SameKeys(st.info, st.pos) && |st.order| == |st.info.Keys| && EntriesOk(st)
    ensures OrderOk(st.pos, st.order)
  {
    var keys := st.info.Keys;
    forall n | n in st.pos ensures 0 <= st.pos[n] < |st.order| && st.order[st.pos[n]] == n {
      assert EntryOk(st, n);
    }
    PositionCount(keys, st.pos);
    var used, all := set n | n in keys :: st.pos[n], Indexes(|st.order|);
    EqualSize(used, all);
    forall i | 0 <= i < |st.order| ensures st.order[i] in st.pos && st.pos[st.order[i]] == i {
      assert i in all;
      var n :| n in keys && st.pos[n] == i;
    }
  }

  lemma SplitSize(info: Infos)
    ensures |info.Keys| == |TriedIds(info)| + |NewIds(info)|
  {
    assert info.Keys == TriedIds(info) + NewIds(info);
  }

  lemma EntriesMean(st: State)
    requires EntriesOk(st) && Unasked(st)
    ensures IdsOk(st.info, st.ids) && Placed(st.info, {}) && TimesOk(st.info)
  {
    forall n | n in st.info
      ensures st.info[n].addr.ip in st.ids && st.ids[st.info[n].addr.ip] == n && (st.info[n].fInTried || st.info[n].nRefCount >= 1)
      ensures st.info[n].known.nLastTry >= 0 && st.info[n].known.nLastSuccess >= 0 && (st.info[n].fInTried ==> st.info[n].known.nLastSuccess != 0)
    {
      assert EntryOk(st, n);
    }
  }

  lemma PassesIsInv(hs: Hashes, st: State)
    requires SameKeys(st.info, st.pos) && Passes(hs, st) && Unasked(st)
    ensures Inv(hs, st) && TimesOk(st.info)
  {
    hide NewOk, TriedOk, OrderOk, EntriesOk, IdsOk, Placed, TimesOk, SameKeys;
    assert NewIds(st.info) - {} == NewIds(st.info);
    SplitSize(st.info);
    OrderFollows(st);
    EntriesMean(st);
  }

  lemma InvPasses(hs: Hashes, st: State)
    requires SameKeys(st.info, st.pos) && Inv(hs, st) && TimesOk(st.info)
    ensures Passes(hs, st) && Unasked(st)
  {
    SizeIsSum(hs, st);
    InvSplit(hs, st);
    hide TriedOk;
    forall n | n in st.info ensures EntryOk(st, n) {
      M.RefsInRange(hs, st.info, st.inNew, n);
      M.PosInRange(st.info, st.pos, st.order, n);
    }
  }

  /** The manager is consistent if and only if its check passes and what it does not look at holds. */
  lemma CheckExactly(hs: Hashes, st: State)
    requires SameKeys(st.info, st.pos)
    ensures Inv(hs, st) && TimesOk(st.info) <==> Passes(hs, st) && Unasked(st)
  {
    hide Inv, Passes, Unasked, TimesOk;
    if Passes(hs, st) && Unasked(st) {
      PassesIsInv(hs, st);
    }
    if Inv(hs, st) && TimesOk(st.info) {
      InvPasses(hs, st);
    }
  }
}
