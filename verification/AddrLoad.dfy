/** Loading an arbitrary stream: everything but the index of addresses comes out consistent, and that exactly if no
    entry that stays shares its address with another one that was read. */
module AddrLoad {
  import opened AddrTables
  import opened AddrCodec
  import opened AddrStore
  import M = AddrMan

  /** Every entry's address is in the index, and every address leads to an entry that has it. */
  ghost predicate Named(info: Infos, ids: map<NetAddr, int>) {
    && (forall n | n in info :: info[n].addr.ip in ids)
    && (forall ip | ip in ids :: ids[ip] in info && info[ids[ip]].addr.ip == ip)
  }

  /** The tables, the counts and the index, with `a` new entries first and ids below `c`. */
  ghost predicate Half(hs: Hashes, st: State, a: nat, c: int) {
    && NewOk(hs, st.info, st.inNew) && TriedOk(hs, st.info, st.inTried) && Named(st.info, st.ids)
    && (forall n | n in st.info :: 0 <= n < c && (st.info[n].fInTried <==> n >= a))
  }

  ghost predicate Sizes(st: State, news: int, trieds: int) {
    |NewIds(st.info)| == news && |TriedIds(st.info)| == trieds
  }

  lemma NameOne(info: Infos, ids: map<NetAddr, int>, n: int, e: AddrInfo)
    requires Named(info, ids) && n !in info
    ensures Named(info[n := e], ids[e.addr.ip := n])
  {
  }

  lemma NamedUpdate(info: Infos, ids: map<NetAddr, int>, n: int, e: AddrInfo)
    requires Named(info, ids) && n in info && e.addr == info[n].addr
    ensures Named(info[n := e], ids)
  {
  }

  // ---------------------------------------------------------------- the new entries

  lemma NewHalf(hs: Hashes, st: State, n: nat, s: Saved, usable: bool)
    requires Half(hs, st, n, n) && Sizes(st, n, 0)
    ensures var r := ReadNew(hs, st, n, s, usable); Half(hs, r, n + 1, n + 1) && Sizes(r, n + 1, 0) && r.nNew == st.nNew && r.nTried == st.nTried
  {
    hide NewOk, TriedOk, Named, Hashes.Position, Hashes.NewBucket;
    var e := Load(s);
    var info := st.info[n := e];
    assert n !in st.info;
    CreateTables(hs, st.info, st.inNew, st.inTried, n, e);
    NameOne(st.info, st.ids, n, e);
    AddedIds(st.info, n, e);
    assert n !in NewIds(st.info);
    var at := hs.NewSlot(e.addr, e.known.source);
    if !(usable || at in st.inNew) {
      assert SlotFits(hs, info, at, n);
      SlotNew(hs, info, st.inNew, at, n);
      UpdateTried(hs, info, st.inTried, n, AddRefs(e, 1));
      NamedUpdate(info, st.ids[e.addr.ip := n], n, AddRefs(e, 1));
      SameIds(info, n, AddRefs(e, 1));
    }
  }

  lemma SameIds(info: Infos, n: int, e: AddrInfo)
    requires n in info && e.fInTried == info[n].fInTried
    ensures NewIds(info[n := e]) == NewIds(info) && TriedIds(info[n := e]) == TriedIds(info)
  {
  }

  lemma {:induction false} NewsHalf(hs: Hashes, st: State, news: seq<Saved>, usable: bool)
    requires Half(hs, st, 0, 0) && Sizes(st, 0, 0)
    ensures var r := ReadNews(hs, st, news, usable);
            Half(hs, r, |news|, |news|) && Sizes(r, |news|, 0) && r.nNew == st.nNew && r.nTried == st.nTried
  {
    hide Half, Sizes, ReadNew;
    if news != [] {
      var k := |news| - 1;
      NewsHalf(hs, st, news[..k], usable);
      NewHalf(hs, ReadNews(hs, st, news[..k], usable), k, news[k], usable);
    }
  }

  // ---------------------------------------------------------------- the tried entries

  lemma TriedTables(hs: Hashes, info: Infos, inNew: Table, inTried: Table, n: int, e: AddrInfo)
    requires NewOk(hs, info, inNew) && TriedOk(hs, info, inTried) && n !in info && e.fInTried && e.nRefCount == 0
    requires hs.TriedSlot(e.addr) !in inTried
    ensures NewOk(hs, info[n := e], inNew) && TriedOk(hs, info[n := e], inTried[hs.TriedSlot(e.addr) := n])
  {
    hide Hashes.TriedSlot;
    forall s: Slot | s in inNew ensures SlotFits(hs, info[n := e], s, inNew[s]) {
      assert SlotFits(hs, info, s, inNew[s]);
    }
    assert SlotsOf(inNew, n) == {};
  }

  lemma TriedAdded(info: Infos, n: int, e: AddrInfo)
    requires n !in info && e.fInTried
    ensures TriedIds(info[n := e]) == TriedIds(info) + {n} && NewIds(info[n := e]) == NewIds(info)
  {
  }

  lemma TriedHalf(hs: Hashes, st: State, s: Saved, a: nat)
    requires Half(hs, st, a, st.nIdCount) && a <= st.nIdCount && Sizes(st, a, st.nIdCount - a)
    ensures var r := ReadTried(hs, st, s);
            && Half(hs, r, a, r.nIdCount) && a <= r.nIdCount && Sizes(r, a, r.nIdCount - a)
            && r.nNew == st.nNew && r.nTried - r.nIdCount == st.nTried - st.nIdCount - 1
  {
    hide NewOk, TriedOk, Named, Hashes.TriedSlot;
    var e := Load(s).(fInTried := true);
    var n := st.nIdCount;
    if hs.TriedSlot(e.addr) !in st.inTried {
      assert n !in st.info;
      TriedTables(hs, st.info, st.inNew, st.inTried, n, e);
      NameOne(st.info, st.ids, n, e);
      TriedAdded(st.info, n, e);
      assert n !in TriedIds(st.info);
    }
  }

  lemma {:induction false} TriedsHalf(hs: Hashes, st: State, trieds: seq<Saved>, a: nat)
    requires Half(hs, st, a, st.nIdCount) && a <= st.nIdCount && Sizes(st, a, st.nIdCount - a)
    ensures var r := ReadTrieds(hs, st, trieds);
            && Half(hs, r, a, r.nIdCount) && a <= r.nIdCount && Sizes(r, a, r.nIdCount - a)
            && r.nNew == st.nNew && r.nTried - r.nIdCount == st.nTried - st.nIdCount - |trieds|
  {
    hide Half, Sizes, ReadTried;
    if trieds != [] {
      var k := |trieds| - 1;
      TriedsHalf(hs, st, trieds[..k], a);
      TriedHalf(hs, ReadTrieds(hs, st, trieds[..k]), trieds[k], a);
    }
  }

  // ---------------------------------------------------------------- the slots

  ghost predicate SameRest(st: State, r: State) {
    r.nNew == st.nNew && r.nTried == st.nTried && r.nIdCount == st.nIdCount && NewIds(r.info) == NewIds(st.info) && TriedIds(r.info) == TriedIds(st.info)
  }

  lemma IndexHalf(hs: Hashes, st: State, b: nat, k: int)
    requires st.nNew >= 0 && Half(hs, st, st.nNew, st.nIdCount) && b < NEW_BUCKET_COUNT
    ensures var r := ReadIndex(hs, st, b, k); Half(hs, r, r.nNew, r.nIdCount) && SameRest(st, r)
  {
    hide NewOk, TriedOk, Named, Hashes.Position;
    if 0 <= k < st.nNew && k in st.info {
      var s := (b, hs.Position(st.info[k].addr, true, b));
      if !(s in st.inNew || st.info[k].nRefCount >= NEW_BUCKETS_PER_ADDRESS) {
        assert SlotFits(hs, st.info, s, k);
        SlotNew(hs, st.info, st.inNew, s, k);
        UpdateTried(hs, st.info, st.inTried, k, AddRefs(st.info[k], 1));
        NamedUpdate(st.info, st.ids, k, AddRefs(st.info[k], 1));
        SameIds(st.info, k, AddRefs(st.info[k], 1));
      }
    }
  }

  lemma {:induction false} RowHalf(hs: Hashes, st: State, b: nat, row: seq<int>)
    requires st.nNew >= 0 && Half(hs, st, st.nNew, st.nIdCount) && b < NEW_BUCKET_COUNT
    ensures var r := ReadRow(hs, st, b, row); r.nNew >= 0 && Half(hs, r, r.nNew, r.nIdCount) && SameRest(st, r)
  {
    hide Half, ReadIndex;
    if row != [] {
      var k := |row| - 1;
      RowHalf(hs, st, b, row[..k]);
      IndexHalf(hs, ReadRow(hs, st, b, row[..k]), b, row[k]);
    }
  }

  lemma {:induction false} RowsHalf(hs: Hashes, st: State, rows: seq<seq<int>>)
    requires st.nNew >= 0 && Half(hs, st, st.nNew, st.nIdCount) && |rows| <= NEW_BUCKET_COUNT
    ensures var r := ReadRows(hs, st, rows); r.nNew >= 0 && Half(hs, r, r.nNew, r.nIdCount) && SameRest(st, r)
  {
    hide Half, ReadRow;
    if rows != [] {
      var k := |rows| - 1;
      RowsHalf(hs, st, rows[..k]);
      RowHalf(hs, ReadRows(hs, st, rows[..k]), k, rows[k]);
    }
  }

  lemma FreshHalf(hs: Hashes, nNew: nat, nTried: nat)
    ensures var st := M.FRESH.(nNew := nNew, nTried := nTried); Half(hs, st, 0, 0) && Sizes(st, 0, 0)
  {
    assert NewIds(map[]) == {} && TriedIds(map[]) == {};
    assert forall n :: SlotsOf(map[], n) == {};
  }

  /** What was gathered from any stream of the right size, before unplaced entries are removed. */
  lemma GatheredHalf(hs: Hashes, d: Dump)
    requires WellSized(d)
    ensures var g := Gathered(hs, d);
            g.nNew == d.nNew && Half(hs, g, g.nNew, g.nIdCount) && g.nIdCount >= g.nNew && Sizes(g, g.nNew, g.nTried) && g.nTried == g.nIdCount - g.nNew
  {
    hide Half, ReadNews, ReadTrieds, ReadRows, UsableBuckets, Buckets;
    var start := M.FRESH.(nNew := d.nNew, nTried := d.nTried);
    FreshHalf(hs, d.nNew, d.nTried);
    NewsHalf(hs, start, d.news[..d.nNew], UsableBuckets(d));
    var s0 := ReadNews(hs, start, d.news[..d.nNew], UsableBuckets(d));
    var s1 := s0.(nIdCount := d.nNew);
    SameHalf(hs, s0, s1, d.nNew, d.nNew);
    TriedsHalf(hs, s1, d.trieds[..d.nTried], d.nNew);
    var s2 := ReadTrieds(hs, s1, d.trieds[..d.nTried]);
    if UsableBuckets(d) {
      BucketCount(d);
      RowsHalf(hs, s2, d.buckets[..Clip(Buckets(d))]);
    }
  }

  lemma SameHalf(hs: Hashes, st: State, r: State, a: nat, c: int)
    requires Half(hs, st, a, c) && r == st.(nIdCount := r.nIdCount)
    ensures Half(hs, r, a, c)
  {
  }

  lemma BucketCount(d: Dump)
    requires UsableBuckets(d)
    ensures Clip(Buckets(d)) == NEW_BUCKET_COUNT
  {
  }

  // ---------------------------------------------------------------- removing what has no slot

  predicate Stays(e: AddrInfo) { e.fInTried || e.nRefCount != 0 }

  ghost predicate Gone(g: State, k: int, n: int) { n in g.info && n < k && !Stays(g.info[n]) }

  /** The state when the unplaced entries with ids below k are gone: with each went whatever its address led to. */
  ghost predicate Removed(g: State, k: nat, p: State) {
    && (forall n :: n in p.info <==> n in g.info && !Gone(g, k, n)) && (forall n | n in p.info :: p.info[n] == g.info[n])
    && (forall ip :: ip in p.ids <==> ip in g.ids && forall n | Gone(g, k, n) :: g.info[n].addr.ip != ip)
    && (forall ip | ip in p.ids :: p.ids[ip] == g.ids[ip])
    && p.inNew == g.inNew && p.inTried == g.inTried && p.nTried == g.nTried && p.nIdCount == g.nIdCount
  }

  lemma RemovedStep(g: State, k: nat, p: State, p': State)
    requires Removed(g, k, p) && p'.inNew == p.inNew && p'.inTried == p.inTried && p'.nTried == p.nTried && p'.nIdCount == p.nIdCount
    requires if Gone(g, k + 1, k) then p'.info == p.info - {k} && p'.ids == p.ids - {g.info[k].addr.ip} else p'.info == p.info && p'.ids == p.ids
    ensures Removed(g, k + 1, p')
  {
    forall n ensures Gone(g, k + 1, n) <==> Gone(g, k, n) || (n == k && Gone(g, k + 1, k)) {
    }
  }

  lemma DeletedIds(st: State, n: int)
    requires OrderOk(st.pos, st.order) && n in st.pos && n in st.info
    ensures Deleted(st, n).ids == st.ids - {st.info[n].addr.ip} && Deleted(st, n).nNew == st.nNew - 1
  {
  }

  lemma {:induction false} PrunedIs(hs: Hashes, g: State, k: nat)
    requires OrderOk(g.pos, g.order) && SameKeys(g.info, g.pos) && forall n | n in g.info :: n >= 0
    requires NewOk(hs, g.info, g.inNew) && TriedOk(hs, g.info, g.inTried) && CountsOk(g.info, {}, g.nNew, g.nTried)
    ensures var p := Pruned(g, k);
            Removed(g, k, p) && NewOk(hs, p.info, p.inNew) && TriedOk(hs, p.info, p.inTried) && CountsOk(p.info, {}, p.nNew, p.nTried)
  {
    hide OrderOk, SameKeys, NewOk, TriedOk, CountsOk, Deleted;
    if k > 0 {
      PrunedIs(hs, g, k - 1);
      var p, n := Pruned(g, k - 1), k - 1;
      if n in p.info && !p.info[n].fInTried && p.info[n].nRefCount == 0 {
        KeysAgree(p.info, p.pos, n);
        DeletedFields(p, n);
        DeletedIds(p, n);
        DropTables(hs, p.info, p.inNew, p.inTried, n);
        DropCounts(p.info, n, {}, p.nNew, p.nTried);
      }
      RemovedStep(g, n, p, Pruned(g, k));
    }
  }

  lemma KeysAgree(info: Infos, pos: map<int, int>, n: int)
    requires SameKeys(info, pos) && n in info
    ensures n in pos
  {
  }

  // ---------------------------------------------------------------- when the result is consistent

  /** No entry that stays shares its address with another one that was read. */
  ghost predicate OwnAddresses(g: State) {
    forall n, m | n in g.info && m in g.info && n != m && Stays(g.info[n]) :: g.info[n].addr.ip != g.info[m].addr.ip
  }

  lemma NamesExactly(g: State, p: State, c: nat)
    requires Named(g.info, g.ids) && Removed(g, c, p) && forall n | n in g.info :: n < c
    ensures IdsOk(p.info, p.ids) <==> OwnAddresses(g)
  {
    if OwnAddresses(g) {
      forall n | n in p.info ensures p.info[n].addr.ip in p.ids && p.ids[p.info[n].addr.ip] == n {
        var ip := g.info[n].addr.ip;
        assert ip in g.ids && g.ids[ip] in g.info && g.info[g.ids[ip]].addr.ip == ip;
        assert forall m | Gone(g, c, m) :: g.info[m].addr.ip != ip;
      }
      forall ip | ip in p.ids ensures p.ids[ip] in p.info && p.info[p.ids[ip]].addr.ip == ip {
        assert g.info[g.ids[ip]].addr.ip == ip;
      }
    }
    if IdsOk(p.info, p.ids) {
      forall n, m | n in g.info && m in g.info && n != m && Stays(g.info[n]) ensures g.info[n].addr.ip != g.info[m].addr.ip {
        assert n in p.info;
        if Stays(g.info[m]) {
          assert m in p.info;
        } else {
          assert Gone(g, c, m);
        }
      }
    }
  }

  lemma AllPlaced(g: State, p: State, c: nat)
    requires Removed(g, c, p) && (forall n | n in g.info :: n < c) && forall n | n in g.info :: g.info[n].nRefCount >= 0
    ensures Placed(p.info, {})
  {
  }

  lemma RefsNotNegative(hs: Hashes, info: Infos, inNew: Table)
    requires NewOk(hs, info, inNew)
    ensures forall n | n in info :: info[n].nRefCount >= 0
  {
  }

  lemma SizesCount(g: State)
    requires Sizes(g, g.nNew, g.nTried)
    ensures CountsOk(g.info, {}, g.nNew, g.nTried)
  {
    assert NewIds(g.info) - {} == NewIds(g.info);
  }

  lemma HalfParts(hs: Hashes, g: State, a: nat, c: int)
    requires Half(hs, g, a, c)
    ensures NewOk(hs, g.info, g.inNew) && TriedOk(hs, g.info, g.inTried) && Named(g.info, g.ids) && forall n | n in g.info :: 0 <= n < c
  {
  }

  /** Any stream of the right size: the loaded manager is consistent if and only if no entry that stays shares its
      address with another one that was read. */
  lemma LoadedExactly(hs: Hashes, d: Dump)
    requires WellSized(d)
    ensures var g := Gathered(hs, d);
            OrderOk(g.pos, g.order) && SameKeys(g.info, g.pos) && (Inv(hs, Pruned(g, Clip(g.nIdCount))) <==> OwnAddresses(g))
  {
    hide OrderOk, SameKeys, NewOk, TriedOk, CountsOk, IdsOk, Named, Placed, Removed, OwnAddresses, Gathered, Half, Sizes, WellSized;
    var g := Gathered(hs, d);
    GatheredOrdered(hs, d);
    GatheredHalf(hs, d);
    HalfParts(hs, g, g.nNew, g.nIdCount);
    SizesCount(g);
    var c := Clip(g.nIdCount);
    PrunedIs(hs, g, c);
    var p := Pruned(g, c);
    NamesExactly(g, p, c);
    RefsNotNegative(hs, g.info, g.inNew);
    AllPlaced(g, p, c);
    UsedStay(g, p, c);
  }

  lemma UsedStay(g: State, p: State, c: nat)
    requires Removed(g, c, p) && (forall n | n in g.info :: 0 <= n < g.nIdCount) && g.nIdCount >= 0
    ensures UsedIds(p.info, p.nIdCount)
  {
  }

  /** Unserialize: on acceptance the manager is consistent exactly then. */
  method LoadChecked(m: M.AddrMan, d: Dump) returns (ok: bool)
    requires m.Shape() && m.St() == M.FRESH
    modifies m, m.vvNew, m.vvTried
    ensures ok <==> WellSized(d)
    ensures ok ==> (m.Valid() <==> OwnAddresses(Gathered(m.Hs(), d)))
  {
    hide Inv, Gathered, OrderOk, SameKeys, M.TableOf, WellSized, Pruned, M.AddrMan.St, OwnAddresses;
    ok := Unserialize(m, d);
    if ok {
      LoadedExactly(m.Hs(), d);
    }
  }

  /** The same entry twice, without bucket data: accepted, and the result is not consistent. */
  lemma TwiceListed(hs: Hashes, s: Saved, nKey: nat)
    ensures var d := Dump(0, 32, nKey, 2, 0, 0, [s, s], [], []);
            WellSized(d) && !OwnAddresses(Gathered(hs, d)) &&
            (var g := Gathered(hs, d); OrderOk(g.pos, g.order) && SameKeys(g.info, g.pos) && !Inv(hs, Pruned(g, Clip(g.nIdCount))))
  {
    var d := Dump(0, 32, nKey, 2, 0, 0, [s, s], [], []);
    var start := M.FRESH.(nNew := 2);
    assert d.news[..2] == [s, s] && [s, s][..1] == [s] && [s][..0] == [];
    var s1 := ReadNew(hs, start, 0, s, false);
    var s2 := ReadNew(hs, s1, 1, s, false);
    assert ReadNews(hs, start, [s], false) == s1;
    assert ReadNews(hs, start, [s, s], false) == s2;
    var g := Gathered(hs, d);
    assert g == s2.(nIdCount := 2);
    assert g.info[0].nRefCount == 1 && g.info[0].addr == g.info[1].addr;
    LoadedExactly(hs, d);
  }
}
