/** Saving the address manager and loading it into a fresh one: nothing is lost but the ids, the random
    order and the memory-only time of the last try. */
module AddrCodec {
  import opened AddrTables
  import opened AddrMoves
  import opened AddrMan
  import opened Sets

  // ---------------------------------------------------------------- the saved form

  datatype Saved = Saved(addr: Service, nTime: int, nServices: bv64, source: NetAddr, nLastSuccess: int, nAttempts: int)

  /** The values written to the stream, in order. */
  datatype Dump = Dump(
    nVersion: nat, nKeySize: nat, nKey: nat, nNew: nat, nTried: nat, nUBuckets: int,
    news: seq<Saved>, trieds: seq<Saved>, buckets: seq<seq<int>>)

  function Save(e: AddrInfo): Saved {
    Saved(e.addr, e.known.nTime, e.known.nServices, e.known.source, e.known.nLastSuccess, e.known.nAttempts)
  }

  function Load(s: Saved): AddrInfo {
    AddrInfo(s.addr, Known(s.nTime, s.nServices, s.source, s.nLastSuccess, 0, s.nAttempts), 0, false)
  }

  /** Exclusive or with 2^30. */
  function FlipBit30(x: int): int {
    if (x / 0x4000_0000) % 2 == 1 then x - 0x4000_0000 else x + 0x4000_0000
  }

  // ---------------------------------------------------------------- loading, step by step

  /** One entry of the new list; without usable bucket data it gets a slot from its source. */
  ghost function ReadNew(hs: Hashes, st: State, n: int, s: Saved, usable: bool): State {
    var e := Load(s);
    var st1 := st.(info := st.info[n := e], ids := st.ids[e.addr.ip := n], order := st.order + [n], pos := st.pos[n := |st.order|]);
    var at := hs.NewSlot(e.addr, e.known.source);
    if usable || at in st.inNew then st1 else Slotted(st1, at, n)
  }

  ghost function ReadNews(hs: Hashes, st: State, news: seq<Saved>, usable: bool): State {
    if news == [] then st
    else
      var k := |news| - 1;
      ReadNew(hs, ReadNews(hs, st, news[..k], usable), k, news[k], usable)
  }

  /** One entry of the tried list; it is lost if its slot is taken. */
  ghost function ReadTried(hs: Hashes, st: State, s: Saved): State {
    var e := Load(s).(fInTried := true);
    var at := hs.TriedSlot(e.addr);
    if at in st.inTried then st.(nTried := st.nTried - 1)
    else
      var n := st.nIdCount;
      st.(info := st.info[n := e], ids := st.ids[e.addr.ip := n], order := st.order + [n], pos := st.pos[n := |st.order|],
          inTried := st.inTried[at := n], nIdCount := n + 1)
  }

  ghost function ReadTrieds(hs: Hashes, st: State, trieds: seq<Saved>): State {
    if trieds == [] then st
    else ReadTried(hs, ReadTrieds(hs, st, trieds[..|trieds| - 1]), trieds[|trieds| - 1])
  }

  /** One index of a bucket row. */
  ghost function ReadIndex(hs: Hashes, st: State, b: nat, k: int): State {
    if !(0 <= k < st.nNew && k in st.info) then st
    else
      var s := (b, hs.Position(st.info[k].addr, true, b));
      if s in st.inNew || st.info[k].nRefCount >= NEW_BUCKETS_PER_ADDRESS then st else Slotted(st, s, k)
  }

  ghost function ReadRow(hs: Hashes, st: State, b: nat, row: seq<int>): State {
    if row == [] then st else ReadIndex(hs, ReadRow(hs, st, b, row[..|row| - 1]), b, row[|row| - 1])
  }

  ghost function ReadRows(hs: Hashes, st: State, rows: seq<seq<int>>): State {
    if rows == [] then st
    else ReadRow(hs, ReadRows(hs, st, rows[..|rows| - 1]), |rows| - 1, rows[|rows| - 1])
  }

  // ---------------------------------------------------------------- the expected state

  /** A numbering of the entries in which the first `a` are the new ones. */
  ghost predicate Numbered(st: State, ix: map<int, int>, r: seq<int>, a: nat) {
    && OrderOk(ix, r) && SameKeys(st.info, ix) && a <= |r| && st.nNew == a
    && forall i | 0 <= i < |r| :: r[i] in st.info && (st.info[r[i]].fInTried <==> i >= a)
  }

  /** An entry after loading, with the references counted from the slots restored so far. */
  ghost function Rebuilt(st: State, n: int, done: set<Slot>): AddrInfo
    requires n in st.info
  {
    AddrInfo(st.info[n].addr, st.info[n].known.(nLastTry := 0), |SlotsOf(st.inNew, n) * done|, st.info[n].fInTried)
  }

  ghost function RInfo(st: State, r: seq<int>, k: nat, done: set<Slot>): Infos
    requires k <= |r| && forall i | 0 <= i < |r| :: r[i] in st.info
  {
    map i: int | 0 <= i < k :: Rebuilt(st, r[i], done)
  }

  ghost function RIds(st: State, ix: map<int, int>, k: nat): map<NetAddr, int> {
    map ip | ip in st.ids && st.ids[ip] in ix && ix[st.ids[ip]] < k :: ix[st.ids[ip]]
  }

  ghost function RTable(t: Table, ix: map<int, int>, k: nat, done: set<Slot>): Table {
    map s: Slot | s in t && s in done && t[s] in ix && ix[t[s]] < k :: ix[t[s]]
  }

  ghost function Counting(k: nat): (s: seq<int>)
    ensures |s| == k && forall i | 0 <= i < k :: s[i] == i
  {
    if k == 0 then [] else Counting(k - 1) + [k - 1]
  }

  ghost function Identity(k: nat): (m: map<int, int>)
    ensures forall i: int :: i in m <==> 0 <= i < k
    ensures forall i: int | i in m :: m[i] == i
  {
    if k == 0 then map[] else Identity(k - 1)[k - 1 := k - 1]
  }

  /** The fresh manager after the first `k` entries and the slots in `done`, with `c` ids given out. */
  ghost function Partial(st: State, ix: map<int, int>, r: seq<int>, k: nat, done: set<Slot>, c: nat): State
    requires k <= |r| && forall i | 0 <= i < |r| :: r[i] in st.info
  {
    State(RInfo(st, r, k, done), RIds(st, ix, k), Counting(k), Identity(k),
          RTable(st.inNew, ix, k, done), RTable(st.inTried, ix, k, st.inTried.Keys), st.nNew, st.nTried, c)
  }

  // ---------------------------------------------------------------- the entries come back

  lemma LoadSaved(st: State, n: int)
    requires n in st.info
    ensures Load(Save(st.info[n])).(fInTried := st.info[n].fInTried) == Rebuilt(st, n, {})
  {
    assert SlotsOf(st.inNew, n) * {} == {};
  }

  lemma InfoStep(st: State, r: seq<int>, k: nat)
    requires k < |r| && forall i | 0 <= i < |r| :: r[i] in st.info
    ensures RInfo(st, r, k, {})[k := Rebuilt(st, r[k], {})] == RInfo(st, r, k + 1, {})
  {
    hide Rebuilt;
  }

  lemma IdsStep(st: State, ix: map<int, int>, r: seq<int>, k: nat)
    requires OrderOk(ix, r) && SameKeys(st.info, ix) && IdsOk(st.info, st.ids) && k < |r|
    ensures r[k] in st.info && RIds(st, ix, k)[st.info[r[k]].addr.ip := k] == RIds(st, ix, k + 1)
  {
    var n := r[k];
    assert n in ix && n in st.info;
    forall ip | ip in st.ids && st.ids[ip] in ix ensures ix[st.ids[ip]] == k <==> ip == st.info[n].addr.ip {
      var m := st.ids[ip];
      assert r[ix[m]] == m;
    }
  }

  lemma TriedStay(st: State, ix: map<int, int>, r: seq<int>, a: nat, hs: Hashes, k: nat)
    requires Numbered(st, ix, r, a) && TriedOk(hs, st.info, st.inTried) && k <= a
    ensures RTable(st.inTried, ix, k, st.inTried.Keys) == map[]
  {
    forall s: Slot | s in st.inTried && st.inTried[s] in ix ensures ix[st.inTried[s]] >= a {
      var n := st.inTried[s];
      assert r[ix[n]] == n;
    }
  }

  lemma NoneDone(t: Table, ix: map<int, int>, k: nat)
    ensures RTable(t, ix, k, {}) == map[]
  {
  }

  lemma NewsStep(hs: Hashes, st: State, ix: map<int, int>, r: seq<int>, a: nat, k: nat)
    requires Inv(hs, st) && Numbered(st, ix, r, a) && k < a
    ensures ReadNew(hs, Partial(st, ix, r, k, {}, 0), k, Save(st.info[r[k]]), true) == Partial(st, ix, r, k + 1, {}, 0)
  {
    hide NewOk, CountsOk, UsedIds, Placed, RInfo, RIds, RTable, Rebuilt, Load, Save, Hashes.NewSlot;
    LoadSaved(st, r[k]);
    LoadFlag(st.info[r[k]]);
    InfoStep(st, r, k);
    IdsStep(st, ix, r, k);
    TriedStay(st, ix, r, a, hs, k);
    TriedStay(st, ix, r, a, hs, k + 1);
    NoneDone(st.inNew, ix, k);
    NoneDone(st.inNew, ix, k + 1);
    hide OrderOk, SameKeys, IdsOk, TriedOk;
  }

  lemma LoadFlag(e: AddrInfo)
    ensures Load(Save(e)).addr == e.addr && !Load(Save(e)).fInTried
  {
  }

  /** The saved forms of the entries in a list of ids. */
  ghost function Saves(info: Infos, ids: seq<int>): (s: seq<Saved>)
    requires forall i | 0 <= i < |ids| :: ids[i] in info
    ensures |s| == |ids| && forall i | 0 <= i < |ids| :: s[i] == Save(info[ids[i]])
  {
    if ids == [] then [] else Saves(info, ids[..|ids| - 1]) + [Save(info[ids[|ids| - 1]])]
  }

  lemma {:induction false} NewsAll(hs: Hashes, st: State, ix: map<int, int>, r: seq<int>, a: nat, k: nat)
    requires Inv(hs, st) && Numbered(st, ix, r, a) && k <= a
    ensures ReadNews(hs, Partial(st, ix, r, 0, {}, 0), Saves(st.info, r[..k]), true) == Partial(st, ix, r, k, {}, 0)
  {
    hide Partial, ReadNew, Save, Inv;
    if k > 0 {
      NewsAll(hs, st, ix, r, a, k - 1);
      NewsStep(hs, st, ix, r, a, k - 1);
      assert r[..k][..k - 1] == r[..k - 1];
      assert Saves(st.info, r[..k])[..k - 1] == Saves(st.info, r[..k - 1]);
    }
  }

  lemma TriedTableStep(hs: Hashes, st: State, ix: map<int, int>, r: seq<int>, a: nat, k: nat)
    requires Numbered(st, ix, r, a) && TriedOk(hs, st.info, st.inTried) && a <= k < |r|
    ensures var at, keys := hs.TriedSlot(st.info[r[k]].addr), st.inTried.Keys;
            at !in RTable(st.inTried, ix, k, keys) && RTable(st.inTried, ix, k, keys)[at := k] == RTable(st.inTried, ix, k + 1, keys)
  {
    hide Hashes.TriedSlot;
    var n := r[k];
    var at := hs.TriedSlot(st.info[n].addr);
    assert n in ix && ix[n] == k;
    assert at in st.inTried && st.inTried[at] == n;
    forall s: Slot | s in st.inTried && st.inTried[s] in ix ensures ix[st.inTried[s]] == k <==> s == at {
      var m := st.inTried[s];
      assert r[ix[m]] == m;
    }
  }

  lemma TriedsStep(hs: Hashes, st: State, ix: map<int, int>, r: seq<int>, a: nat, k: nat)
    requires Inv(hs, st) && Numbered(st, ix, r, a) && a <= k < |r|
    ensures ReadTried(hs, Partial(st, ix, r, k, {}, k), Save(st.info[r[k]])) == Partial(st, ix, r, k + 1, {}, k + 1)
  {
    hide NewOk, CountsOk, UsedIds, Placed, RInfo, RIds, RTable, Rebuilt, Load, Save, Hashes.TriedSlot;
    LoadSaved(st, r[k]);
    LoadFlag(st.info[r[k]]);
    InfoStep(st, r, k);
    IdsStep(st, ix, r, k);
    TriedTableStep(hs, st, ix, r, a, k);
    NoneDone(st.inNew, ix, k);
    NoneDone(st.inNew, ix, k + 1);
    hide OrderOk, SameKeys, IdsOk, TriedOk;
  }

  lemma ReadLastTried(hs: Hashes, start: State, info: Infos, ids: seq<int>)
    requires ids != [] && forall i | 0 <= i < |ids| :: ids[i] in info
    ensures var k := |ids| - 1;
            ReadTrieds(hs, start, Saves(info, ids)) == ReadTried(hs, ReadTrieds(hs, start, Saves(info, ids[..k])), Save(info[ids[k]]))
  {
    hide ReadTried, Save;
    assert Saves(info, ids)[..|ids| - 1] == Saves(info, ids[..|ids| - 1]);
  }

  lemma {:induction false} TriedsAll(hs: Hashes, st: State, ix: map<int, int>, r: seq<int>, a: nat, k: nat)
    requires Inv(hs, st) && Numbered(st, ix, r, a) && a <= k <= |r|
    ensures ReadTrieds(hs, Partial(st, ix, r, a, {}, a), Saves(st.info, r[a..k])) == Partial(st, ix, r, k, {}, k)
  {
    hide Partial, ReadTried, Save, Inv, OrderOk, SameKeys, Saves;
    if k == a {
      assert Saves(st.info, r[a..k]) == [];
    } else {
      TriedsAll(hs, st, ix, r, a, k - 1);
      TriedsStep(hs, st, ix, r, a, k - 1);
      var s := r[a..k];
      assert s[..|s| - 1] == r[a..k - 1] && s[|s| - 1] == r[k - 1];
      ReadLastTried(hs, Partial(st, ix, r, a, {}, a), st.info, s);
    }
  }

  // ---------------------------------------------------------------- the new slots come back

  lemma OneMore(st: State, n: int, s: Slot, done: set<Slot>)
    requires s in st.inNew && s !in done
    ensures |SlotsOf(st.inNew, n) * (done + {s})| == |SlotsOf(st.inNew, n) * done| + if st.inNew[s] == n then 1 else 0
  {
    var all := SlotsOf(st.inNew, n);
    if st.inNew[s] == n {
      assert all * (done + {s}) == all * done + {s};
    } else {
      assert all * (done + {s}) == all * done;
    }
  }

  lemma Fewer(st: State, n: int, s: Slot, done: set<Slot>)
    requires s in st.inNew && s !in done && st.inNew[s] == n
    ensures |SlotsOf(st.inNew, n) * done| < |SlotsOf(st.inNew, n)|
  {
    var all := SlotsOf(st.inNew, n);
    assert s in all;
    Within(all * done, all - {s});
    RemoveOne(all, s);
  }

  lemma RebuiltStep(st: State, n: int, s: Slot, done: set<Slot>)
    requires n in st.info && s in st.inNew && s !in done
    ensures Rebuilt(st, n, done + {s}) == if st.inNew[s] == n then AddRefs(Rebuilt(st, n, done), 1) else Rebuilt(st, n, done)
  {
    OneMore(st, n, s, done);
  }

  lemma SlotInfo(st: State, ix: map<int, int>, r: seq<int>, s: Slot, done: set<Slot>)
    requires OrderOk(ix, r) && s in st.inNew && s !in done && st.inNew[s] in ix && forall i | 0 <= i < |r| :: r[i] in st.info
    ensures var k, info := ix[st.inNew[s]], RInfo(st, r, |r|, done);
            k in info && info[k := AddRefs(info[k], 1)] == RInfo(st, r, |r|, done + {s})
  {
    var n := st.inNew[s];
    assert r[ix[n]] == n;
    var info, info' := RInfo(st, r, |r|, done), RInfo(st, r, |r|, done + {s});
    hide Rebuilt, SlotsOf;
    forall i | 0 <= i < |r| ensures info'[i] == if i == ix[n] then AddRefs(info[i], 1) else info[i] {
      RebuiltStep(st, r[i], s, done);
      assert ix[r[i]] == i;
    }
  }

  lemma SlotTable(t: Table, ix: map<int, int>, k: nat, s: Slot, done: set<Slot>)
    requires s in t && s !in done && t[s] in ix && ix[t[s]] < k
    ensures s !in RTable(t, ix, k, done) && RTable(t, ix, k, done)[s := ix[t[s]]] == RTable(t, ix, k, done + {s})
  {
  }

  lemma SlotIndex(hs: Hashes, st: State, ix: map<int, int>, r: seq<int>, a: nat, s: Slot, done: set<Slot>)
    requires Inv(hs, st) && Numbered(st, ix, r, a) && s in st.inNew && s !in done
    ensures st.inNew[s] in ix
    ensures var k, info := ix[st.inNew[s]], RInfo(st, r, |r|, done);
            0 <= k < a && k in info && info[k].nRefCount < NEW_BUCKETS_PER_ADDRESS && s.1 == hs.Position(info[k].addr, true, s.0)
  {
    hide TriedOk, CountsOk, UsedIds, Placed, IdsOk, Hashes.Position;
    var n := st.inNew[s];
    assert SlotFits(hs, st.info, s, st.inNew[s]);
    assert n in st.info && n in ix && r[ix[n]] == n;
    Fewer(st, n, s, done);
    RefsAreSlots(hs, st.info, st.inNew, n);
    RefsInRange(hs, st.info, st.inNew, n);
  }

  /** Reading back the index of one occupied slot fills just that slot. */
  lemma IndexStep(hs: Hashes, st: State, ix: map<int, int>, r: seq<int>, a: nat, s: Slot, done: set<Slot>)
    requires Inv(hs, st) && Numbered(st, ix, r, a) && s in st.inNew && s !in done
    ensures st.inNew[s] in ix
    ensures ReadIndex(hs, Partial(st, ix, r, |r|, done, |r|), s.0, ix[st.inNew[s]]) == Partial(st, ix, r, |r|, done + {s}, |r|)
  {
    hide Inv, OrderOk, RInfo, RTable, RIds, Hashes.Position, SlotsOf;
    SlotIndex(hs, st, ix, r, a, s, done);
    SlotInfo(st, ix, r, s, done);
    SlotTable(st.inNew, ix, |r|, s, done);
  }

  /** The occupied slots before a position in reading order. */
  ghost function Upto(t: Table, b: nat, i: nat): set<Slot> {
    set s | s in t && (s.0 < b || (s.0 == b && s.1 < i))
  }

  /** The indexes written for the first positions of a bucket. */
  ghost function Row(t: Table, ix: map<int, int>, b: nat, i: nat): seq<int> {
    if i == 0 then []
    else
      var rest := Row(t, ix, b, i - 1);
      if (b, i - 1) in t && t[(b, i - 1)] in ix then rest + [ix[t[(b, i - 1)]]] else rest
  }

  ghost function Rows(t: Table, ix: map<int, int>, b: nat): (rows: seq<seq<int>>)
    ensures |rows| == b && forall j | 0 <= j < b :: rows[j] == Row(t, ix, j, BUCKET_SIZE)
  {
    if b == 0 then [] else Rows(t, ix, b - 1) + [Row(t, ix, b - 1, BUCKET_SIZE)]
  }

  lemma {:induction false} RowAll(hs: Hashes, st: State, ix: map<int, int>, r: seq<int>, a: nat, b: nat, i: nat)
    requires Inv(hs, st) && Numbered(st, ix, r, a)
    ensures ReadRow(hs, Partial(st, ix, r, |r|, Upto(st.inNew, b, 0), |r|), b, Row(st.inNew, ix, b, i)) ==
            Partial(st, ix, r, |r|, Upto(st.inNew, b, i), |r|)
  {
    hide Partial, ReadIndex, Inv, OrderOk;
    if i > 0 {
      RowAll(hs, st, ix, r, a, b, i - 1);
      var s: Slot := (b, i - 1);
      if s in st.inNew {
        IndexStep(hs, st, ix, r, a, s, Upto(st.inNew, b, i - 1));
        assert Upto(st.inNew, b, i - 1) + {s} == Upto(st.inNew, b, i);
        var row := Row(st.inNew, ix, b, i);
        assert row[..|row| - 1] == Row(st.inNew, ix, b, i - 1);
      } else {
        assert Upto(st.inNew, b, i - 1) == Upto(st.inNew, b, i);
      }
    }
  }

  lemma WholeBucket(hs: Hashes, st: State, b: nat)
    requires Inv(hs, st)
    ensures var t := st.inNew; Upto(t, b, BUCKET_SIZE) == Upto(t, b + 1, 0) && Upto(t, NEW_BUCKET_COUNT, 0) == t.Keys && Upto(t, 0, 0) == {}
  {
    hide OrderOk, TriedOk, CountsOk, IdsOk;
    forall s: Slot | s in st.inNew ensures s.0 < NEW_BUCKET_COUNT && s.1 < BUCKET_SIZE {
      assert SlotFits(hs, st.info, s, st.inNew[s]);
    }
  }

  lemma ReadNoRows(hs: Hashes, start: State, t: Table, ix: map<int, int>)
    ensures ReadRows(hs, start, Rows(t, ix, 0)) == start
  {
  }

  lemma ReadLastRow(hs: Hashes, start: State, t: Table, ix: map<int, int>, b: nat)
    requires b > 0
    ensures ReadRows(hs, start, Rows(t, ix, b)) == ReadRow(hs, ReadRows(hs, start, Rows(t, ix, b - 1)), b - 1, Row(t, ix, b - 1, BUCKET_SIZE))
  {
    hide ReadRow, Row;
    assert Rows(t, ix, b)[..b - 1] == Rows(t, ix, b - 1);
  }

  lemma {:induction false} RowsAll(hs: Hashes, st: State, ix: map<int, int>, r: seq<int>, a: nat, b: nat)
    requires Inv(hs, st) && Numbered(st, ix, r, a)
    ensures ReadRows(hs, Partial(st, ix, r, |r|, {}, |r|), Rows(st.inNew, ix, b)) == Partial(st, ix, r, |r|, Upto(st.inNew, b, 0), |r|)
  {
    hide Partial, ReadRow, OrderOk, Inv, Upto, Row, ReadRows, Rows, SameKeys;
    if b == 0 {
      WholeBucket(hs, st, 0);
      ReadNoRows(hs, Partial(st, ix, r, |r|, {}, |r|), st.inNew, ix);
    } else {
      RowsAll(hs, st, ix, r, a, b - 1);
      RowAll(hs, st, ix, r, a, b - 1, BUCKET_SIZE);
      WholeBucket(hs, st, b - 1);
      ReadLastRow(hs, Partial(st, ix, r, |r|, {}, |r|), st.inNew, ix, b);
    }
  }

  // ---------------------------------------------------------------- the loaded manager

  /** The manager renumbered: its entries keep everything but ids, order and last try. */
  ghost function Renumbered(st: State, ix: map<int, int>, r: seq<int>): State
    requires forall i | 0 <= i < |r| :: r[i] in st.info
  {
    Partial(st, ix, r, |r|, st.inNew.Keys, |r|)
  }

  /** Deletes the unplaced entries with ids below n. */
  ghost function Pruned(st: State, n: nat): State
    requires OrderOk(st.pos, st.order) && SameKeys(st.info, st.pos)
    ensures OrderOk(Pruned(st, n).pos, Pruned(st, n).order) && SameKeys(Pruned(st, n).info, Pruned(st, n).pos)
  {
    if n == 0 then st
    else
      var rest := Pruned(st, n - 1);
      if n - 1 in rest.info && !rest.info[n - 1].fInTried && rest.info[n - 1].nRefCount == 0 then
        DeleteOrder(rest, n - 1);
        DeletedFields(rest, n - 1);
        Deleted(rest, n - 1)
      else rest
  }

  lemma {:induction false} NothingPruned(st: State, n: nat)
    requires OrderOk(st.pos, st.order) && SameKeys(st.info, st.pos) && Placed(st.info, {})
    ensures Pruned(st, n) == st
  {
    hide OrderOk, SameKeys, Deleted;
    if n > 0 {
      NothingPruned(st, n - 1);
    }
  }

  /** An entry without the memory-only time of the last try. */
  function Plain(e: AddrInfo): AddrInfo { e.(known := e.known.(nLastTry := 0)) }

  /** A manager as its users see it: by address, without ids and random order. */
  datatype Content = Content(
    entries: map<NetAddr, AddrInfo>, news: map<Slot, NetAddr>, trieds: map<Slot, NetAddr>, nNew: int, nTried: int)

  ghost function ByAddress(info: Infos, t: Table): map<Slot, NetAddr> {
    map s: Slot | s in t && t[s] in info :: info[t[s]].addr.ip
  }

  ghost function Entries(info: Infos, ids: map<NetAddr, int>): map<NetAddr, AddrInfo> {
    map ip | ip in ids && ids[ip] in info :: Plain(info[ids[ip]])
  }

  ghost function ContentOf(st: State): Content {
    Content(Entries(st.info, st.ids), ByAddress(st.info, st.inNew), ByAddress(st.info, st.inTried), st.nNew, st.nTried)
  }

  /** What the renumbering does to one entry. */
  lemma RenumberedEntry(hs: Hashes, st: State, ix: map<int, int>, r: seq<int>, a: nat, n: int)
    requires Inv(hs, st) && Numbered(st, ix, r, a) && n in st.info
    ensures n in ix && 0 <= ix[n] < |r| && r[ix[n]] == n
    ensures ix[n] in Renumbered(st, ix, r).info && Renumbered(st, ix, r).info[ix[n]] == Plain(st.info[n])
  {
    hide TriedOk, CountsOk, UsedIds, Placed, IdsOk;
    assert n in ix;
    assert SlotsOf(st.inNew, n) * st.inNew.Keys == SlotsOf(st.inNew, n);
    RefsAreSlots(hs, st.info, st.inNew, n);
  }

  /** The entries seen through the numbering. */
  ghost predicate Relabels(info: Infos, info': Infos, ix: map<int, int>, r: seq<int>) {
    && (forall n | n in info :: n in ix && 0 <= ix[n] < |r| && r[ix[n]] == n && ix[n] in info' && info'[ix[n]] == Plain(info[n]))
    && (forall i: int | i in info' :: 0 <= i < |r| && r[i] in info && ix[r[i]] == i)
    && (forall n | n in ix :: n in info)
    && (forall i | 0 <= i < |r| :: i in info')
  }

  lemma RenumberedInfo(hs: Hashes, st: State, ix: map<int, int>, r: seq<int>, a: nat)
    requires Inv(hs, st) && Numbered(st, ix, r, a)
    ensures Relabels(st.info, Renumbered(st, ix, r).info, ix, r)
  {
    hide Inv, Rebuilt, Plain;
    forall n | n in st.info
      ensures n in ix && 0 <= ix[n] < |r| && r[ix[n]] == n
      ensures ix[n] in Renumbered(st, ix, r).info && Renumbered(st, ix, r).info[ix[n]] == Plain(st.info[n])
    {
      RenumberedEntry(hs, st, ix, r, a, n);
    }
  }

  lemma RelabelledId(st: State, info': Infos, ix: map<int, int>, r: seq<int>, ip: NetAddr)
    requires IdsOk(st.info, st.ids) && Relabels(st.info, info', ix, r)
    ensures ip in RIds(st, ix, |r|) <==> ip in st.ids
    ensures ip in st.ids ==> var n := st.ids[ip];
                             n in st.info && RIds(st, ix, |r|)[ip] == ix[n] && ix[n] in info' && info'[ix[n]] == Plain(st.info[n])
  {
    if ip in st.ids {
      var n := st.ids[ip];
      assert n in st.info;
    }
  }

  lemma RelabelledIds(st: State, info': Infos, ix: map<int, int>, r: seq<int>)
    requires IdsOk(st.info, st.ids) && Relabels(st.info, info', ix, r)
    ensures IdsOk(info', RIds(st, ix, |r|))
  {
    var ids' := RIds(st, ix, |r|);
    forall ip | ip in ids' ensures ids'[ip] in info' && info'[ids'[ip]].addr.ip == ip {
      RelabelledId(st, info', ix, r, ip);
    }
    forall i: int | i in info' ensures info'[i].addr.ip in ids' && ids'[info'[i].addr.ip] == i {
      var n := r[i];
      assert n in st.info && info'[i] == Plain(st.info[n]);
      RelabelledId(st, info', ix, r, st.info[n].addr.ip);
    }
  }

  lemma RelabelledEntries(st: State, info': Infos, ix: map<int, int>, r: seq<int>)
    requires IdsOk(st.info, st.ids) && Relabels(st.info, info', ix, r)
    ensures Entries(info', RIds(st, ix, |r|)) == Entries(st.info, st.ids)
  {
    var e, e' := Entries(st.info, st.ids), Entries(info', RIds(st, ix, |r|));
    forall ip ensures ip in e' <==> ip in e {
      RelabelledId(st, info', ix, r, ip);
    }
    forall ip | ip in e ensures e'[ip] == e[ip] {
      RelabelledId(st, info', ix, r, ip);
    }
  }

  lemma RelabelledTable(info: Infos, t: Table, info': Infos, ix: map<int, int>, r: seq<int>, s: Slot)
    requires Relabels(info, info', ix, r) && (forall q: Slot | q in t :: t[q] in info)
    ensures s in RTable(t, ix, |r|, t.Keys) <==> s in t
    ensures s in t ==> t[s] in info && ix[t[s]] in info' && info'[ix[t[s]]] == Plain(info[t[s]]) && RTable(t, ix, |r|, t.Keys)[s] == ix[t[s]]
  {
    if s in t {
      var n := t[s];
      assert n in info;
    }
  }

  lemma RelabelledByAddress(info: Infos, t: Table, info': Infos, ix: map<int, int>, r: seq<int>)
    requires Relabels(info, info', ix, r) && (forall q: Slot | q in t :: t[q] in info)
    ensures ByAddress(info', RTable(t, ix, |r|, t.Keys)) == ByAddress(info, t)
  {
    var t' := RTable(t, ix, |r|, t.Keys);
    forall s: Slot ensures s in ByAddress(info', t') <==> s in ByAddress(info, t) {
      RelabelledTable(info, t, info', ix, r, s);
    }
    forall s: Slot | s in t ensures s in t' && t'[s] in info' && info'[t'[s]].addr.ip == info[t[s]].addr.ip {
      RelabelledTable(info, t, info', ix, r, s);
    }
  }

  lemma RelabelledSlots(info: Infos, t: Table, info': Infos, ix: map<int, int>, r: seq<int>, i: int)
    requires Relabels(info, info', ix, r) && (forall q: Slot | q in t :: t[q] in info) && i in info'
    ensures SlotsOf(RTable(t, ix, |r|, t.Keys), i) == SlotsOf(t, r[i])
  {
    var t' := RTable(t, ix, |r|, t.Keys);
    forall s: Slot ensures s in SlotsOf(t', i) <==> s in SlotsOf(t, r[i]) {
      RelabelledTable(info, t, info', ix, r, s);
      if s in t {
        var n := t[s];
        assert ix[n] == i <==> n == r[i];
      }
    }
  }

  lemma RelabelledNew(hs: Hashes, info: Infos, t: Table, info': Infos, ix: map<int, int>, r: seq<int>)
    requires Relabels(info, info', ix, r) && NewOk(hs, info, t) && (forall q: Slot | q in t :: t[q] in info)
    ensures NewOk(hs, info', RTable(t, ix, |r|, t.Keys))
  {
    var t' := RTable(t, ix, |r|, t.Keys);
    forall s: Slot | s in t' ensures SlotFits(hs, info', s, t'[s]) {
      RelabelledTable(info, t, info', ix, r, s);
      assert SlotFits(hs, info, s, t[s]);
    }
    forall i: int | i in info' ensures info'[i].nRefCount == |SlotsOf(t', i)| <= NEW_BUCKETS_PER_ADDRESS {
      RelabelledSlots(info, t, info', ix, r, i);
      var n := r[i];
      assert n in info;
    }
  }

  lemma RelabelledTried(hs: Hashes, info: Infos, t: Table, info': Infos, ix: map<int, int>, r: seq<int>)
    requires Relabels(info, info', ix, r) && TriedOk(hs, info, t)
    ensures TriedOk(hs, info', RTable(t, ix, |r|, t.Keys))
  {
    hide Hashes.TriedSlot;
    var t' := RTable(t, ix, |r|, t.Keys);
    forall s: Slot | s in t' ensures t'[s] in info' && info'[t'[s]].fInTried && s == hs.TriedSlot(info'[t'[s]].addr) {
      RelabelledTable(info, t, info', ix, r, s);
    }
    forall i: int | i in info' && info'[i].fInTried
      ensures hs.TriedSlot(info'[i].addr) in t' && t'[hs.TriedSlot(info'[i].addr)] == i
    {
      var n := r[i];
      assert n in info && info'[i] == Plain(info[n]);
      RelabelledTable(info, t, info', ix, r, hs.TriedSlot(info[n].addr));
    }
  }

  ghost function Range(lo: int, hi: int): (s: set<int>)
    requires lo <= hi
    ensures |s| == hi - lo && forall i: int :: i in s <==> lo <= i < hi
    decreases hi - lo
  {
    if lo == hi then {} else Range(lo, hi - 1) + {hi - 1}
  }

  lemma IdSets(info: Infos, a: nat, k: nat)
    requires a <= k && (forall i: int :: i in info <==> 0 <= i < k)
    requires forall i: int | i in info :: info[i].fInTried <==> i >= a
    ensures |TriedIds(info)| == k - a && |NewIds(info) - {}| == a && UsedIds(info, k)
  {
    assert TriedIds(info) == Range(a, k);
    assert NewIds(info) - {} == Range(0, a);
  }

  lemma RelabelledIdSets(st: State, info': Infos, ix: map<int, int>, r: seq<int>, a: nat)
    requires Relabels(st.info, info', ix, r) && Numbered(st, ix, r, a)
    ensures |TriedIds(info')| == |r| - a && |NewIds(info') - {}| == a && UsedIds(info', |r|)
  {
    hide OrderOk, SameKeys;
    RelabelledKeys(st.info, info', ix, r);
    forall i: int | i in info' ensures info'[i].fInTried <==> i >= a {
      var n := r[i];
      assert n in st.info && info'[i] == Plain(st.info[n]);
    }
    hide Relabels, Numbered;
    IdSets(info', a, |r|);
  }

  lemma NumberedSize(hs: Hashes, st: State, ix: map<int, int>, r: seq<int>, a: nat)
    requires Inv(hs, st) && Numbered(st, ix, r, a)
    ensures st.nTried == |r| - a
  {
    hide NewOk, TriedOk, IdsOk, CountsOk;
    SizeIsSum(hs, st);
    Bijection(ix, r);
    Bijection(st.pos, st.order);
    assert ix.Keys == st.pos.Keys by {
      forall n ensures n in ix.Keys <==> n in st.pos.Keys {
        assert n in ix <==> n in st.info;
        assert n in st.pos <==> n in st.info;
      }
    }
  }

  lemma RelabelledPlaced(info: Infos, info': Infos, ix: map<int, int>, r: seq<int>)
    requires Relabels(info, info', ix, r) && Placed(info, {})
    ensures Placed(info', {})
  {
    forall i: int | i in info' ensures info'[i].fInTried || info'[i].nRefCount >= 1 {
      var n := r[i];
      assert n in info && info'[i] == Plain(info[n]);
    }
  }

  lemma IdentityOrder(info': Infos, k: nat)
    requires forall i: int :: i in info' <==> 0 <= i < k
    ensures OrderOk(Identity(k), Counting(k)) && SameKeys(info', Identity(k))
  {
  }

  lemma TriedKnown(hs: Hashes, info: Infos, t: Table)
    requires TriedOk(hs, info, t)
    ensures forall q: Slot | q in t :: t[q] in info
  {
  }

  lemma RelabelledKeys(info: Infos, info': Infos, ix: map<int, int>, r: seq<int>)
    requires Relabels(info, info', ix, r)
    ensures forall i: int :: i in info' <==> 0 <= i < |r|
  {
  }

  /** The renumbered manager is consistent and shows the same content. */
  lemma RenumberedSame(hs: Hashes, st: State, ix: map<int, int>, r: seq<int>, a: nat)
    requires Inv(hs, st) && Numbered(st, ix, r, a)
    ensures Inv(hs, Renumbered(st, ix, r)) && ContentOf(Renumbered(st, ix, r)) == ContentOf(st)
  {
    hide OrderOk, IdsOk, NewOk, TriedOk, UsedIds, Placed, Relabels, RInfo, RIds, RTable, SameKeys, ByAddress, Entries, TriedIds, NewIds;
    RenumberedInfo(hs, st, ix, r, a);
    var info' := Renumbered(st, ix, r).info;
    RelabelledKeys(st.info, info', ix, r);
    IdentityOrder(info', |r|);
    RelabelledIds(st, info', ix, r);
    RelabelledEntries(st, info', ix, r);
    ConsistentWhole(hs, st, {});
    TriedKnown(hs, st.info, st.inTried);
    RelabelledNew(hs, st.info, st.inNew, info', ix, r);
    RelabelledTried(hs, st.info, st.inTried, info', ix, r);
    RelabelledByAddress(st.info, st.inNew, info', ix, r);
    RelabelledByAddress(st.info, st.inTried, info', ix, r);
    RelabelledIdSets(st, info', ix, r, a);
    NumberedSize(hs, st, ix, r, a);
    RelabelledPlaced(st.info, info', ix, r);
  }

  // ---------------------------------------------------------------- the order in which entries are written

  /** Which of the two lists an entry goes to. */
  predicate Goes(e: AddrInfo, tried: bool) { if tried then e.fInTried else e.nRefCount != 0 }

  /** The ids below k that go to one list, in increasing order. */
  ghost function Listed(info: Infos, k: nat, tried: bool): seq<int> {
    if k == 0 then []
    else if k - 1 in info && Goes(info[k - 1], tried) then Listed(info, k - 1, tried) + [k - 1]
    else Listed(info, k - 1, tried)
  }

  lemma {:induction false} ListedAt(info: Infos, k: nat, tried: bool, n: nat)
    requires n < k && n in info && Goes(info[n], tried)
    ensures |Listed(info, n, tried)| < |Listed(info, k, tried)| && Listed(info, k, tried)[|Listed(info, n, tried)|] == n
  {
    hide Goes;
    if n < k - 1 {
      ListedAt(info, k - 1, tried, n);
    }
  }

  lemma {:induction false} ListedHolds(info: Infos, k: nat, tried: bool, i: nat)
    requires i < |Listed(info, k, tried)|
    ensures var n := Listed(info, k, tried)[i];
            0 <= n < k && n in info && Goes(info[n], tried) && |Listed(info, n, tried)| == i
  {
    hide Goes;
    if !(k - 1 in info && Goes(info[k - 1], tried) && i == |Listed(info, k - 1, tried)|) {
      ListedHolds(info, k - 1, tried, i);
    }
  }

  ghost function WriteOrder(st: State): seq<int>
    requires st.nIdCount >= 0
  {
    Listed(st.info, st.nIdCount, false) + Listed(st.info, st.nIdCount, true)
  }

  /** Where each entry is written. */
  ghost function WriteIndex(st: State): map<int, int>
    requires st.nIdCount >= 0
  {
    map n: int | n in st.info && n >= 0 ::
      if st.info[n].fInTried then |Listed(st.info, st.nIdCount, false)| + |Listed(st.info, n, true)| else |Listed(st.info, n, false)|
  }

  /** Every entry goes to exactly one of the lists. */
  ghost predicate Split(info: Infos, k: nat) {
    forall n | n in info :: 0 <= n < k && (info[n].fInTried <==> info[n].nRefCount == 0)
  }

  ghost predicate Writable(st: State) {
    st.nIdCount >= 0 && Split(st.info, st.nIdCount) && st.nNew >= 0 && st.nTried >= 0
  }

  lemma InvSplit(hs: Hashes, st: State)
    requires Inv(hs, st)
    ensures Writable(st)
  {
    hide OrderOk, IdsOk, TriedOk;
    forall n | n in st.info && st.info[n].fInTried ensures st.info[n].nRefCount == 0 {
      TriedHasNoRefs(hs, st.info, st.inNew, n);
    }
    hide NewOk;
  }

  lemma WrittenPlace(st: State, n: int)
    requires st.nIdCount >= 0 && Split(st.info, st.nIdCount) && n in st.info
    ensures n in WriteIndex(st) && 0 <= WriteIndex(st)[n] < |WriteOrder(st)| && WriteOrder(st)[WriteIndex(st)[n]] == n
  {
    ListedAt(st.info, st.nIdCount, st.info[n].fInTried, n);
  }

  lemma PlaceWritten(st: State, i: nat)
    requires st.nIdCount >= 0 && Split(st.info, st.nIdCount) && i < |WriteOrder(st)|
    ensures var n := WriteOrder(st)[i];
            n in st.info && n in WriteIndex(st) && WriteIndex(st)[n] == i &&
            (st.info[n].fInTried <==> i >= |Listed(st.info, st.nIdCount, false)|)
  {
    var a := |Listed(st.info, st.nIdCount, false)|;
    if i < a {
      ListedHolds(st.info, st.nIdCount, false, i);
    } else {
      ListedHolds(st.info, st.nIdCount, true, i - a);
    }
  }

  lemma WriteNumbers(st: State)
    requires st.nIdCount >= 0 && Split(st.info, st.nIdCount)
    ensures OrderOk(WriteIndex(st), WriteOrder(st)) && SameKeys(st.info, WriteIndex(st))
    ensures forall i | 0 <= i < |WriteOrder(st)| :: WriteOrder(st)[i] in st.info &&
              (st.info[WriteOrder(st)[i]].fInTried <==> i >= |Listed(st.info, st.nIdCount, false)|)
  {
    var ix, r := WriteIndex(st), WriteOrder(st);
    forall n | n in ix ensures 0 <= ix[n] < |r| && r[ix[n]] == n {
      WrittenPlace(st, n);
    }
    forall i | 0 <= i < |r|
      ensures r[i] in ix && ix[r[i]] == i && r[i] in st.info && (st.info[r[i]].fInTried <==> i >= |Listed(st.info, st.nIdCount, false)|)
    {
      PlaceWritten(st, i);
    }
    forall n ensures n in ix <==> n in st.info {
    }
  }

  lemma ListedCount(info: Infos, k: nat)
    requires Split(info, k)
    ensures |NewIds(info) - {}| == |Listed(info, k, false)|
  {
    var l := Listed(info, k, false);
    forall i, j | 0 <= i < j < |l| ensures l[i] != l[j] {
      ListedHolds(info, k, false, i);
      ListedHolds(info, k, false, j);
    }
    CountDistinct(l);
    var all := set i | 0 <= i < |l| :: l[i];
    assert all == NewIds(info) - {} by {
      forall n | n in NewIds(info) ensures n in all {
        ListedAt(info, k, false, n);
        assert l[|Listed(info, n, false)|] == n;
      }
      forall n | n in all ensures n in NewIds(info) {
        var i :| 0 <= i < |l| && l[i] == n;
        ListedHolds(info, k, false, i);
      }
    }
  }

  /** The writing order numbers the entries, new ones first. */
  lemma WriteNumbered(hs: Hashes, st: State)
    requires Inv(hs, st)
    ensures st.nIdCount >= 0 && st.nNew == |Listed(st.info, st.nIdCount, false)|
    ensures Numbered(st, WriteIndex(st), WriteOrder(st), st.nNew)
  {
    hide OrderOk, IdsOk, TriedOk, NewOk, SameKeys, WriteOrder, WriteIndex, Listed, Placed;
    InvSplit(hs, st);
    ListedCount(st.info, st.nIdCount);
    WriteNumbers(st);
    hide Split, CountsOk;
    SplitLength(st);
  }

  lemma SplitLength(st: State)
    requires st.nIdCount >= 0
    ensures |Listed(st.info, st.nIdCount, false)| <= |WriteOrder(st)|
  {
  }

  // ---------------------------------------------------------------- sizes

  ghost function Grid(b: nat, c: nat): (g: set<Slot>)
    ensures |g| == b * c && forall s: Slot :: s in g <==> s.0 < b && s.1 < c
  {
    if b == 0 then {}
    else
      var row := GridRow(b - 1, c);
      Grid(b - 1, c) + row
  }

  ghost function GridRow(b: nat, c: nat): (g: set<Slot>)
    ensures |g| == c && forall s: Slot :: s in g <==> s.0 == b && s.1 < c
  {
    if c == 0 then {} else GridRow(b, c - 1) + {(b, c - 1)}
  }

  ghost predicate Housed(t: Table, slots: set<Slot>, n: int) {
    exists s :: s in slots && s in t && t[s] == n
  }

  lemma Member<T>(s: set<T>) returns (x: T)
    requires s != {}
    ensures x in s
  {
    x :| x in s;
  }

  /** A table holds at most as many different ids as it has slots. */
  lemma {:induction false} FewIds(t: Table, ids: set<int>, slots: set<Slot>)
    requires forall n | n in ids :: Housed(t, slots, n)
    ensures |ids| <= |slots|
    decreases |ids|
  {
    if |ids| > 0 {
      var n := Member(ids);
      assert Housed(t, slots, n);
      var s :| s in slots && s in t && t[s] == n;
      forall k | k in ids - {n} ensures Housed(t, slots - {s}, k) {
        assert Housed(t, slots, k);
        var q :| q in slots && q in t && t[q] == k;
        assert q in slots - {s};
      }
      FewIds(t, ids - {n}, slots - {s});
    }
  }

  lemma FewNew(hs: Hashes, st: State)
    requires Inv(hs, st)
    ensures |NewIds(st.info) - {}| <= NEW_BUCKET_COUNT * BUCKET_SIZE
  {
    hide Inv, Hashes.Position, Grid;
    var grid := Grid(NEW_BUCKET_COUNT, BUCKET_SIZE);
    forall n | n in NewIds(st.info) - {} ensures Housed(st.inNew, grid, n) {
      var s := SomeSlot(hs, st, n);
      assert s in grid;
    }
    FewIds(st.inNew, NewIds(st.info) - {}, grid);
  }

  lemma FewTried(hs: Hashes, st: State)
    requires TriedOk(hs, st.info, st.inTried)
    ensures |TriedIds(st.info)| <= TRIED_BUCKET_COUNT * BUCKET_SIZE
  {
    hide Hashes.TriedSlot, Grid;
    var grid := Grid(TRIED_BUCKET_COUNT, BUCKET_SIZE);
    forall n | n in TriedIds(st.info) ensures Housed(st.inTried, grid, n) {
      var s := hs.TriedSlot(st.info[n].addr);
      assert s in grid;
    }
    FewIds(st.inTried, TriedIds(st.info), grid);
  }

  /** A consistent manager never exceeds the limits checked on loading. */
  lemma WithinLimits(hs: Hashes, st: State)
    requires Inv(hs, st)
    ensures 0 <= st.nNew <= NEW_BUCKET_COUNT * BUCKET_SIZE && 0 <= st.nTried <= TRIED_BUCKET_COUNT * BUCKET_SIZE
  {
    hide OrderOk, IdsOk, NewOk, TriedOk;
    FewNew(hs, st);
    FewTried(hs, st);
  }

  // ---------------------------------------------------------------- the round trip

  /** What Serialize writes. */
  ghost function Encoded(st: State, nKey: nat): Dump
    requires Writable(st)
  {
    WriteNumbers(st);
    var n := Listed(st.info, st.nIdCount, false);
    var t := Listed(st.info, st.nIdCount, true);
    ListedKnown(st.info, st.nIdCount);
    Dump(1, 32, nKey, st.nNew, st.nTried, 0x4000_0400, Saves(st.info, n), Saves(st.info, t),
         Rows(st.inNew, WriteIndex(st), NEW_BUCKET_COUNT))
  }

  lemma ListedKnown(info: Infos, k: nat)
    ensures forall i | 0 <= i < |Listed(info, k, false)| :: Listed(info, k, false)[i] in info
    ensures forall i | 0 <= i < |Listed(info, k, true)| :: Listed(info, k, true)[i] in info
  {
    forall i | 0 <= i < |Listed(info, k, false)| ensures Listed(info, k, false)[i] in info {
      ListedHolds(info, k, false, i);
    }
    forall i | 0 <= i < |Listed(info, k, true)| ensures Listed(info, k, true)[i] in info {
      ListedHolds(info, k, true, i);
    }
  }

  function Clip(x: int): nat { if x < 0 then 0 else x }

  function Buckets(d: Dump): int { if d.nVersion != 0 then FlipBit30(d.nUBuckets) else d.nUBuckets }

  predicate UsableBuckets(d: Dump) { d.nVersion == 1 && Buckets(d) == NEW_BUCKET_COUNT }

  /** The stream holds what it announces, within the limits. */
  predicate WellSized(d: Dump) {
    && d.nKeySize == 32
    && d.nNew <= NEW_BUCKET_COUNT * BUCKET_SIZE && d.nTried <= TRIED_BUCKET_COUNT * BUCKET_SIZE
    && d.nNew <= |d.news| && d.nTried <= |d.trieds| && Clip(Buckets(d)) <= |d.buckets|
  }

  /** What Unserialize builds before pruning. */
  ghost function Gathered(hs: Hashes, d: Dump): State
    requires WellSized(d)
  {
    var s1 := ReadNews(hs, FRESH.(nNew := d.nNew, nTried := d.nTried), d.news[..d.nNew], UsableBuckets(d));
    var s2 := ReadTrieds(hs, s1.(nIdCount := d.nNew), d.trieds[..d.nTried]);
    if UsableBuckets(d) then ReadRows(hs, s2, d.buckets[..Clip(Buckets(d))]) else s2
  }

  lemma EncodedSized(hs: Hashes, st: State, nKey: nat)
    requires Inv(hs, st)
    ensures Writable(st)
    ensures var d := Encoded(st, nKey);
            WellSized(d) && UsableBuckets(d) && Buckets(d) == |d.buckets| && |d.news| == d.nNew && |d.trieds| == d.nTried
  {
    InvSplit(hs, st);
    WithinLimits(hs, st);
    WriteNumbered(hs, st);
    NumberedSize(hs, st, WriteIndex(st), WriteOrder(st), st.nNew);
    hide Inv, Numbered, Saves, Rows, Listed, Split;
  }

  /** Loading what was saved gives the same manager renumbered: nothing is lost to collisions. */
  lemma GatheredBack(hs: Hashes, st: State, nKey: nat)
    requires Inv(hs, st)
    ensures Writable(st) && WellSized(Encoded(st, nKey))
    ensures Numbered(st, WriteIndex(st), WriteOrder(st), st.nNew)
    ensures Gathered(hs, Encoded(st, nKey)) == Renumbered(st, WriteIndex(st), WriteOrder(st))
  {
    hide Inv, Saves, Rows, Listed, Split, WellSized, UsableBuckets, Buckets, ReadNews, ReadTrieds, ReadRows, OrderOk, SameKeys, Upto, WriteIndex;
    EncodedSized(hs, st, nKey);
    WriteNumbered(hs, st);
    var ix, r, a := WriteIndex(st), WriteOrder(st), st.nNew;
    var d := Encoded(st, nKey);
    assert d.news[..d.nNew] == d.news && d.trieds[..d.nTried] == d.trieds && d.buckets[..Clip(Buckets(d))] == d.buckets;
    assert r[..a] == Listed(st.info, st.nIdCount, false) && r[a..|r|] == Listed(st.info, st.nIdCount, true);
    StartEmpty(hs, st, ix, r, a);
    NewsAll(hs, st, ix, r, a, a);
    TriedsAll(hs, st, ix, r, a, |r|);
    RowsAll(hs, st, ix, r, a, NEW_BUCKET_COUNT);
    WholeBucket(hs, st, 0);
  }

  lemma StartEmpty(hs: Hashes, st: State, ix: map<int, int>, r: seq<int>, a: nat)
    requires Inv(hs, st) && Numbered(st, ix, r, a)
    ensures Partial(st, ix, r, 0, {}, 0) == FRESH.(nNew := st.nNew, nTried := st.nTried)
  {
    hide NewOk, CountsOk, UsedIds, Placed, IdsOk, TriedOk, RTable, RIds, OrderOk;
    TriedStay(st, ix, r, a, hs, 0);
    NoneDone(st.inNew, ix, 0);
    NoIds(st, ix, r);
    assert RInfo(st, r, 0, {}) == map[];
  }

  lemma NoIds(st: State, ix: map<int, int>, r: seq<int>)
    requires OrderOk(ix, r)
    ensures RIds(st, ix, 0) == map[]
  {
    forall ip | ip in st.ids && st.ids[ip] in ix ensures ix[st.ids[ip]] >= 0 {
      var n := st.ids[ip];
      assert n in ix;
    }
  }
}
