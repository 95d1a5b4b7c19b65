/** Serialize and Unserialize of the address manager, as loops over its arrays and maps. */
module AddrStore {
  import opened AddrTables
  import M = AddrMan
  import opened AddrCodec

  // ---------------------------------------------------------------- Serialize

  lemma ListedFits(info: Infos, k: nat, n: nat, tried: bool)
    requires n < k && n in info && Goes(info[n], tried)
    ensures |Listed(info, n, tried)| < |Listed(info, k, tried)|
  {
    ListedAt(info, k, tried, n);
  }

  /** One list of entries in id order; the count announced for it is never exceeded. */
  method WriteList(info: Infos, nIdCount: nat, tried: bool, announced: int) returns (list: seq<Saved>, unk: map<int, int>)
    requires announced == |Listed(info, nIdCount, tried)|
    ensures forall i | 0 <= i < |Listed(info, nIdCount, tried)| :: Listed(info, nIdCount, tried)[i] in info
    ensures list == Saves(info, Listed(info, nIdCount, tried))
    ensures forall k | k in info && 0 <= k < nIdCount :: k in unk && unk[k] == |Listed(info, k, tried)|
  {
    hide Save, Goes;
    list, unk := [], map[];
    var nIds := 0;
    for n := 0 to nIdCount
      invariant forall i | 0 <= i < |Listed(info, n, tried)| :: Listed(info, n, tried)[i] in info
      invariant nIds == |Listed(info, n, tried)| && list == Saves(info, Listed(info, n, tried))
      invariant forall k | k in info && 0 <= k < n :: k in unk && unk[k] == |Listed(info, k, tried)|
    {
      if n in info {
        unk := unk[n := nIds];
        if Goes(info[n], tried) {
          ListedFits(info, nIdCount, n, tried);
          assert nIds != announced;
          list, nIds := list + [Save(info[n])], nIds + 1;
        }
      }
    }
  }

  /** The indexes of the occupied slots of one bucket. */
  method WriteRow(vvNew: array2<int>, unk: map<int, int>, b: nat, ghost ix: map<int, int>) returns (row: seq<int>)
    requires b < vvNew.Length0 && vvNew.Length1 == BUCKET_SIZE
    requires forall s: Slot | s in M.TableOf(vvNew) :: var n := M.TableOf(vvNew)[s]; n in unk && n in ix && unk[n] == ix[n]
    ensures row == Row(M.TableOf(vvNew), ix, b, BUCKET_SIZE)
  {
    hide M.TableOf;
    row := [];
    for i := 0 to BUCKET_SIZE
      invariant row == Row(M.TableOf(vvNew), ix, b, i)
    {
      M.ReadSlot(vvNew, b, i);
      if vvNew[b, i] != M.EMPTY {
        row := row + [unk[vvNew[b, i]]];
      }
    }
  }

  lemma TriedCount(hs: Hashes, st: State)
    requires Inv(hs, st)
    ensures st.nIdCount >= 0 && st.nTried == |Listed(st.info, st.nIdCount, true)|
  {
    WriteNumbered(hs, st);
    NumberedSize(hs, st, WriteIndex(st), WriteOrder(st), st.nNew);
    hide Inv, Numbered;
  }

  /** In the new table the written index of an entry is its rank among the new ones. */
  lemma NewRank(hs: Hashes, st: State, s: Slot)
    requires Inv(hs, st) && s in st.inNew
    ensures st.nIdCount >= 0 && st.inNew[s] in st.info && 0 <= st.inNew[s] < st.nIdCount
    ensures st.inNew[s] in WriteIndex(st) && WriteIndex(st)[st.inNew[s]] == |Listed(st.info, st.inNew[s], false)|
  {
    hide OrderOk, TriedOk, CountsOk, IdsOk;
    assert SlotFits(hs, st.info, s, st.inNew[s]);
  }

  method Serialize(m: M.AddrMan) returns (d: Dump)
    requires m.Valid()
    ensures Writable(m.St()) && d == Encoded(m.St(), m.nKey)
  {
    hide OrderOk, TriedOk, CountsOk, IdsOk, NewOk, Placed, Saves, Listed, M.TableOf, Save, Row, WriteOrder, WriteIndex, Split;
    ghost var hs, st := m.Hs(), m.St();
    InvSplit(hs, st);
    WriteNumbered(hs, st);
    TriedCount(hs, st);
    var news, unk := WriteList(m.info, m.nIdCount, false, m.nNew);
    var trieds, _ := WriteList(m.info, m.nIdCount, true, m.nTried);
    ghost var ix := WriteIndex(st);
    forall s: Slot | s in st.inNew ensures var n := st.inNew[s]; n in unk && n in ix && unk[n] == ix[n] {
      NewRank(hs, st, s);
    }
    var buckets := [];
    for b := 0 to NEW_BUCKET_COUNT
      invariant buckets == Rows(st.inNew, ix, b)
    {
      var row := WriteRow(m.vvNew, unk, b, ix);
      buckets := buckets + [row];
    }
    d := Dump(1, 32, m.nKey, m.nNew, m.nTried, FlipBit30(NEW_BUCKET_COUNT), news, trieds, buckets);
  }

  // ---------------------------------------------------------------- Unserialize

  method LoadNew(m: M.AddrMan, n: nat, s: Saved, usable: bool)
    requires m.Shape()
    modifies m`info, m`ids, m`order, m`pos, m.vvNew
    ensures m.St() == ReadNew(m.Hs(), old(m.St()), n, s, usable)
  {
    hide M.TableOf, Load, Hashes.NewBucket, Hashes.Position;
    var e := Load(s);
    m.info, m.ids, m.pos, m.order := m.info[n := e], m.ids[e.addr.ip := n], m.pos[n := |m.order|], m.order + [n];
    if !usable {
      var b := m.Hs().NewBucket(e.addr, e.known.source);
      var i := m.Hs().Position(e.addr, true, b);
      M.ReadSlot(m.vvNew, b, i);
      if m.vvNew[b, i] == M.EMPTY {
        M.Put(m.vvNew, b, i, n);
        m.info := m.info[n := AddRefs(m.info[n], 1)];
      }
    }
  }

  method LoadNews(m: M.AddrMan, news: seq<Saved>, usable: bool)
    requires m.Shape()
    modifies m`info, m`ids, m`order, m`pos, m.vvNew
    ensures m.St() == ReadNews(m.Hs(), old(m.St()), news, usable)
  {
    hide M.TableOf, ReadNew;
    for n := 0 to |news|
      invariant m.St() == ReadNews(m.Hs(), old(m.St()), news[..n], usable)
    {
      assert news[..n + 1][..n] == news[..n];
      LoadNew(m, n, news[n], usable);
    }
    assert news[..|news|] == news;
  }

  method LoadTried(m: M.AddrMan, s: Saved) returns (lost: bool)
    requires m.Shape() && m.nIdCount >= 0
    modifies m`info, m`ids, m`order, m`pos, m`nIdCount, m.vvTried
    ensures m.nIdCount >= 0 && m.nTried == old(m.nTried)
    ensures m.St().(nTried := m.nTried - if lost then 1 else 0) == ReadTried(m.Hs(), old(m.St()), s)
  {
    hide M.TableOf, Load, Hashes.TriedBucket, Hashes.Position;
    var e := Load(s).(fInTried := true);
    var b := m.Hs().TriedBucket(e.addr);
    var i := m.Hs().Position(e.addr, false, b);
    M.ReadSlot(m.vvTried, b, i);
    if m.vvTried[b, i] != M.EMPTY {
      return true;
    }
    var n := m.nIdCount;
    M.Put(m.vvTried, b, i, n);
    m.info, m.ids, m.pos, m.order, m.nIdCount :=
      m.info[n := e], m.ids[e.addr.ip := n], m.pos[n := |m.order|], m.order + [n], n + 1;
    lost := false;
  }

  lemma TriedShift(hs: Hashes, st: State, s: Saved, k: int)
    ensures ReadTried(hs, st.(nTried := st.nTried - k), s) == ReadTried(hs, st, s).(nTried := ReadTried(hs, st, s).nTried - k)
  {
    hide Load, Hashes.TriedSlot;
    if hs.TriedSlot(Load(s).addr) in st.inTried {
      assert ReadTried(hs, st, s) == st.(nTried := st.nTried - 1);
    }
  }

  method LoadTrieds(m: M.AddrMan, trieds: seq<Saved>)
    requires m.Shape() && m.nIdCount >= 0
    modifies m`info, m`ids, m`order, m`pos, m`nIdCount, m`nTried, m.vvTried
    ensures m.St() == ReadTrieds(m.Hs(), old(m.St()), trieds) && m.nIdCount >= 0
  {
    hide M.TableOf, ReadTried;
    var nLost := 0;
    for k := 0 to |trieds|
      invariant m.St().(nTried := m.nTried - nLost) == ReadTrieds(m.Hs(), old(m.St()), trieds[..k])
      invariant m.nIdCount >= 0
    {
      assert trieds[..k + 1][..k] == trieds[..k];
      TriedShift(m.Hs(), m.St(), trieds[k], nLost);
      var lost := LoadTried(m, trieds[k]);
      if lost {
        nLost := nLost + 1;
      }
    }
    m.nTried := m.nTried - nLost;
    assert trieds[..|trieds|] == trieds;
  }

  method LoadRow(m: M.AddrMan, b: nat, row: seq<int>)
    requires m.Shape() && b < NEW_BUCKET_COUNT
    modifies m`info, m.vvNew
    ensures m.St() == ReadRow(m.Hs(), old(m.St()), b, row)
  {
    hide M.TableOf, Hashes.Position;
    for j := 0 to |row|
      invariant m.St() == ReadRow(m.Hs(), old(m.St()), b, row[..j])
    {
      assert row[..j + 1][..j] == row[..j];
      var k := row[j];
      if 0 <= k < m.nNew && k in m.info {
        var i := m.Hs().Position(m.info[k].addr, true, b);
        M.ReadSlot(m.vvNew, b, i);
        if m.vvNew[b, i] == M.EMPTY && m.info[k].nRefCount < NEW_BUCKETS_PER_ADDRESS {
          m.info := m.info[k := AddRefs(m.info[k], 1)];
          M.Put(m.vvNew, b, i, k);
        }
      }
    }
    assert row[..|row|] == row;
  }

  method LoadRows(m: M.AddrMan, rows: seq<seq<int>>)
    requires m.Shape() && |rows| <= NEW_BUCKET_COUNT
    modifies m`info, m.vvNew
    ensures m.St() == ReadRows(m.Hs(), old(m.St()), rows)
  {
    hide M.TableOf, ReadRow;
    for b := 0 to |rows|
      invariant m.St() == ReadRows(m.Hs(), old(m.St()), rows[..b])
    {
      assert rows[..b + 1][..b] == rows[..b];
      LoadRow(m, b, rows[b]);
    }
    assert rows[..|rows|] == rows;
  }

  /** Removes the entries that ended up in no slot. */
  method Prune(m: M.AddrMan)
    requires m.Shape() && OrderOk(m.pos, m.order) && SameKeys(m.info, m.pos)
    modifies m`info, m`ids, m`order, m`pos, m`nNew
    ensures m.St() == Pruned(old(m.St()), Clip(m.nIdCount))
  {
    hide M.TableOf, OrderOk, SameKeys, Deleted;
    for n := 0 to Clip(m.nIdCount)
      invariant m.St() == Pruned(old(m.St()), n)
      invariant OrderOk(m.pos, m.order) && SameKeys(m.info, m.pos)
    {
      if n in m.info && !m.info[n].fInTried && m.info[n].nRefCount == 0 {
        m.Delete(n);
      }
    }
  }

  // The random order stays a bijection whatever the stream holds.

  ghost predicate Ordered(st: State, c: int) {
    OrderOk(st.pos, st.order) && SameKeys(st.info, st.pos) && forall n | n in st.info :: n < c
  }

  lemma AppendOrdered(st: State, n: int, e: AddrInfo)
    requires Ordered(st, n)
    ensures Ordered(st.(info := st.info[n := e], pos := st.pos[n := |st.order|], order := st.order + [n]), n + 1)
  {
    assert n !in st.pos;
  }

  lemma {:induction false} NewsOrdered(hs: Hashes, st: State, news: seq<Saved>, usable: bool)
    requires Ordered(st, 0)
    ensures Ordered(ReadNews(hs, st, news, usable), |news|)
  {
    if news != [] {
      var k := |news| - 1;
      NewsOrdered(hs, st, news[..k], usable);
      NewOrdered(hs, ReadNews(hs, st, news[..k], usable), k, news[k], usable);
    }
  }

  lemma NewOrdered(hs: Hashes, st: State, n: nat, s: Saved, usable: bool)
    requires Ordered(st, n)
    ensures Ordered(ReadNew(hs, st, n, s, usable), n + 1)
  {
    AppendOrdered(st, n, Load(s));
    hide OrderOk, Load, Hashes.NewSlot;
    M.SameKeysUpdate(st.info[n := Load(s)], st.pos[n := |st.order|], n, AddRefs(Load(s), 1));
  }

  lemma TriedOrdered(hs: Hashes, st: State, s: Saved)
    requires Ordered(st, st.nIdCount)
    ensures Ordered(ReadTried(hs, st, s), ReadTried(hs, st, s).nIdCount)
  {
    AppendOrdered(st, st.nIdCount, Load(s).(fInTried := true));
    hide OrderOk, Load, Hashes.TriedSlot, SameKeys;
  }

  lemma {:induction false} TriedsOrdered(hs: Hashes, st: State, trieds: seq<Saved>)
    requires Ordered(st, st.nIdCount)
    ensures Ordered(ReadTrieds(hs, st, trieds), ReadTrieds(hs, st, trieds).nIdCount)
  {
    if trieds != [] {
      var k := |trieds| - 1;
      TriedsOrdered(hs, st, trieds[..k]);
      TriedOrdered(hs, ReadTrieds(hs, st, trieds[..k]), trieds[k]);
    }
  }

  lemma {:induction false} RowOrdered(hs: Hashes, st: State, b: nat, row: seq<int>, c: int)
    requires Ordered(st, c)
    ensures Ordered(ReadRow(hs, st, b, row), c)
  {
    hide OrderOk, Hashes.Position;
    if row != [] {
      var k := |row| - 1;
      RowOrdered(hs, st, b, row[..k], c);
      var before := ReadRow(hs, st, b, row[..k]);
      if row[k] in before.info {
        M.SameKeysUpdate(before.info, before.pos, row[k], AddRefs(before.info[row[k]], 1));
      }
    }
  }

  lemma {:induction false} RowsOrdered(hs: Hashes, st: State, rows: seq<seq<int>>, c: int)
    requires Ordered(st, c)
    ensures Ordered(ReadRows(hs, st, rows), c)
  {
    hide Ordered, ReadRow;
    if rows != [] {
      var k := |rows| - 1;
      RowsOrdered(hs, st, rows[..k], c);
      RowOrdered(hs, ReadRows(hs, st, rows[..k]), k, rows[k], c);
    }
  }

  lemma GatheredOrdered(hs: Hashes, d: Dump)
    requires WellSized(d)
    ensures OrderOk(Gathered(hs, d).pos, Gathered(hs, d).order) && SameKeys(Gathered(hs, d).info, Gathered(hs, d).pos)
  {
    hide OrderOk, SameKeys, ReadNews, ReadTrieds, ReadRows, UsableBuckets, Buckets;
    var start := M.FRESH.(nNew := d.nNew, nTried := d.nTried);
    StartOrdered(start);
    NewsOrdered(hs, start, d.news[..d.nNew], UsableBuckets(d));
    var s1 := ReadNews(hs, start, d.news[..d.nNew], UsableBuckets(d)).(nIdCount := d.nNew);
    TriedsOrdered(hs, s1, d.trieds[..d.nTried]);
    var s2 := ReadTrieds(hs, s1, d.trieds[..d.nTried]);
    RowsOrdered(hs, s2, d.buckets[..Clip(Buckets(d))], s2.nIdCount);
  }

  lemma StartOrdered(st: State)
    requires st.info == map[] && st.pos == map[] && st.order == []
    ensures Ordered(st, 0)
  {
  }

  /** Loads a stream into a fresh manager; refused exactly on a bad key size, an excessive count or a short stream. */
  method Unserialize(m: M.AddrMan, d: Dump) returns (ok: bool)
    requires m.Shape() && m.St() == M.FRESH
    modifies m, m.vvNew, m.vvTried
    ensures ok <==> WellSized(d)
    ensures ok ==> m.nKey == d.nKey
    ensures ok ==> var g := Gathered(m.Hs(), d);
                   OrderOk(g.pos, g.order) && SameKeys(g.info, g.pos) && m.St() == Pruned(g, Clip(g.nIdCount))
  {
    hide M.TableOf, OrderOk, SameKeys, ReadNews, ReadTrieds, ReadRows, Pruned, Buckets;
    ok := WellSized(d);
    if !ok {
      return;
    }
    m.nKey, m.nNew, m.nTried := d.nKey, d.nNew, d.nTried;
    GatheredOrdered(m.Hs(), d);
    LoadNews(m, d.news[..d.nNew], UsableBuckets(d));
    m.nIdCount := d.nNew;
    LoadTrieds(m, d.trieds[..d.nTried]);
    if UsableBuckets(d) {
      LoadRows(m, d.buckets[..Clip(Buckets(d))]);
    }
    Prune(m);
  }

  lemma SamePruned(hs: Hashes, st: State)
    requires Inv(hs, st)
    ensures OrderOk(st.pos, st.order) && SameKeys(st.info, st.pos) && Pruned(st, Clip(st.nIdCount)) == st
  {
    hide OrderOk, SameKeys;
    NothingPruned(st, Clip(st.nIdCount));
  }

  /** Loading the saved form of a consistent manager: it is accepted, nothing is lost or pruned, and the
      result is consistent with the same content. */
  lemma RoundTrip(hs: Hashes, st: State, nKey: nat)
    requires Inv(hs, st)
    ensures Writable(st) && WellSized(Encoded(st, nKey)) && Encoded(st, nKey).nKey == nKey
    ensures var g := Gathered(hs, Encoded(st, nKey));
            && OrderOk(g.pos, g.order) && SameKeys(g.info, g.pos) && Pruned(g, Clip(g.nIdCount)) == g
            && Inv(hs, g) && ContentOf(g) == ContentOf(st)
  {
    hide Inv, Gathered, OrderOk, SameKeys, ContentOf, Numbered, WellSized, Renumbered;
    GatheredBack(hs, st, nKey);
    RenumberedSame(hs, st, WriteIndex(st), WriteOrder(st), st.nNew);
    SamePruned(hs, Gathered(hs, Encoded(st, nKey)));
  }

  /** Saving a consistent manager and loading it into a fresh one: the copy is consistent and shows the
      same entries, the same new and tried tables and the same counts. */
  method Reload(m: M.AddrMan, otherKey: nat) returns (copy: M.AddrMan, ok: bool)
    requires m.Valid()
    ensures ok && copy.Valid() && copy.nKey == m.nKey && ContentOf(copy.St()) == ContentOf(m.St())
  {
    hide Inv, Encoded, Gathered, OrderOk, SameKeys, ContentOf, M.TableOf, Writable, WellSized, Pruned, M.AddrMan.St;
    var d := Serialize(m);
    RoundTrip(m.Hs(), m.St(), m.nKey);
    copy := new M.AddrMan(m.keyed, otherKey);
    ok := Unserialize(copy, d);
  }
}
