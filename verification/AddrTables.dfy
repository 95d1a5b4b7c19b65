/** The address manager's redundant indexes as values: the consistency its own check asks for,
    and the elementary updates that every operation is made of. */
module AddrTables {
  type NetAddr = nat

  datatype Service = Service(ip: NetAddr, port: nat)

  const TRIED_BUCKET_COUNT: nat := 256
  const NEW_BUCKET_COUNT: nat := 1024
  const BUCKET_SIZE: nat := 64
  const NEW_BUCKETS_PER_ADDRESS: nat := 8
  const HORIZON_DAYS: nat := 30
  const RETRIES: nat := 3
  const MAX_FAILURES: nat := 10
  const MIN_FAIL_DAYS: nat := 7
  const GETADDR_MAX_PCT: nat := 23
  const GETADDR_MAX: nat := 2500

  /** What is known about an address: the announced part and our own experience. */
  datatype Known = Known(nTime: int, nServices: bv64, source: NetAddr, nLastSuccess: int, nLastTry: int, nAttempts: int)

  datatype AddrInfo = AddrInfo(addr: Service, known: Known, nRefCount: int, fInTried: bool)
  {
    /** Whether the statistics are bad enough for the entry to be dropped. */
    predicate IsTerrible(now: int) {
      if known.nLastTry != 0 && known.nLastTry >= now - 60 then false
      else if known.nTime > now + 10 * 60 then true
      else if known.nTime == 0 || now - known.nTime > HORIZON_DAYS * 24 * 60 * 60 then true
      else if known.nLastSuccess == 0 && known.nAttempts >= RETRIES then true
      else now - known.nLastSuccess > MIN_FAIL_DAYS * 24 * 60 * 60 && known.nAttempts >= MAX_FAILURES
    }
  }

  /** Tried within the last minute. */
  predicate JustTried(k: Known, now: int) { k.nLastTry != 0 && now - k.nLastTry <= 60 }

  /** Seen within thirty days, and not more than ten minutes ahead of the clock. */
  predicate Recent(k: Known, now: int) { k.nTime != 0 && now - 2592000 <= k.nTime <= now + 600 }

  /** Three attempts and never a success, or ten and none for a week. */
  predicate Failing(k: Known, now: int) {
    (k.nLastSuccess == 0 && k.nAttempts >= 3) || (k.nLastSuccess < now - 604800 && k.nAttempts >= 10)
  }

  /** An entry is dropped exactly if it was not just tried and is out of date or failing. */
  lemma TerribleExactly(e: AddrInfo, now: int)
    ensures e.IsTerrible(now) <==> !JustTried(e.known, now) && !(Recent(e.known, now) && !Failing(e.known, now))
  {
  }

  /** Worth keeping: just tried, or recent and not failing. */
  predicate Healthy(k: Known, now: int) { JustTried(k, now) || (Recent(k, now) && !Failing(k, now)) }

  function NewInfo(addr: Service, nTime: int, nServices: bv64, source: NetAddr): AddrInfo {
    AddrInfo(addr, Known(nTime, nServices, source, 0, 0, 0), 0, false)
  }

  /** A bucket and a position in it. */
  type Slot = (nat, nat)

  /** The keyed hashes, before reduction to a bucket or a position. */
  datatype Hashes = Hashes(tried: Service -> nat, fromSource: (Service, NetAddr) -> nat, position: (Service, bool, nat) -> nat)
  {
    function TriedBucket(a: Service): (b: nat) ensures b < TRIED_BUCKET_COUNT { tried(a) % TRIED_BUCKET_COUNT }
    function NewBucket(a: Service, src: NetAddr): (b: nat) ensures b < NEW_BUCKET_COUNT { fromSource(a, src) % NEW_BUCKET_COUNT }
    function Position(a: Service, isNew: bool, bucket: nat): (i: nat) ensures i < BUCKET_SIZE { position(a, isNew, bucket) % BUCKET_SIZE }
    function TriedSlot(a: Service): (s: Slot)
      ensures s.0 < TRIED_BUCKET_COUNT && s.1 < BUCKET_SIZE
    {
      (TriedBucket(a), Position(a, false, TriedBucket(a)))
    }
    function NewSlot(a: Service, src: NetAddr): (s: Slot)
      ensures s.0 < NEW_BUCKET_COUNT && s.1 < BUCKET_SIZE
    {
      (NewBucket(a, src), Position(a, true, NewBucket(a, src)))
    }
  }

  type Infos = map<int, AddrInfo>
  type Table = map<Slot, int>

  /** The whole manager. The random position of each entry is kept in `pos`, beside the entries. */
  datatype State = State(
    info: Infos, ids: map<NetAddr, int>, order: seq<int>, pos: map<int, int>, inNew: Table, inTried: Table,
    nNew: int, nTried: int, nIdCount: int)

  // ---------------------------------------------------------------- consistency

  /** `order` and the recorded positions are inverse to each other. */
  ghost predicate OrderOk(pos: map<int, int>, order: seq<int>) {
    && (forall n | n in pos :: 0 <= pos[n] < |order| && order[pos[n]] == n)
    && (forall i | 0 <= i < |order| :: order[i] in pos && pos[order[i]] == i)
  }

  ghost predicate SameKeys(info: Infos, pos: map<int, int>) {
    forall n :: n in pos <==> n in info
  }

  /** One entry per network address, found under that address. */
  ghost predicate IdsOk(info: Infos, ids: map<NetAddr, int>) {
    && (forall n | n in info :: info[n].addr.ip in ids && ids[info[n].addr.ip] == n)
    && (forall ip | ip in ids :: ids[ip] in info && info[ids[ip]].addr.ip == ip)
  }

  function SlotsOf(t: Table, n: int): set<Slot> {
    set s | s in t && t[s] == n
  }

  /** The entry may sit in this new slot. */
  ghost predicate SlotFits(hs: Hashes, info: Infos, s: Slot, n: int) {
    n in info && !info[n].fInTried && s.0 < NEW_BUCKET_COUNT && s.1 == hs.Position(info[n].addr, true, s.0)
  }

  /** An entry sits in a new bucket only at its own position, is not in tried, and counts its slots. */
  ghost predicate NewOk(hs: Hashes, info: Infos, inNew: Table) {
    && (forall s: Slot | s in inNew :: SlotFits(hs, info, s, inNew[s]))
    && (forall n | n in info :: info[n].nRefCount == |SlotsOf(inNew, n)| <= NEW_BUCKETS_PER_ADDRESS)
  }

  /** The tried table holds exactly the entries marked so, each at its own slot. */
  ghost predicate TriedOk(hs: Hashes, info: Infos, inTried: Table) {
    && (forall s: Slot | s in inTried :: inTried[s] in info && info[inTried[s]].fInTried && s == hs.TriedSlot(info[inTried[s]].addr))
    && (forall n | n in info && info[n].fInTried ::
          hs.TriedSlot(info[n].addr) in inTried && inTried[hs.TriedSlot(info[n].addr)] == n)
  }

  ghost function TriedIds(info: Infos): set<int> { set n | n in info && info[n].fInTried }
  ghost function NewIds(info: Infos): set<int> { set n | n in info && !info[n].fInTried }

  /** Entries in `limbo` are being moved between the tables: in neither, and not counted. */
  ghost predicate LimboOk(info: Infos, limbo: set<int>) {
    forall n | n in limbo :: n in info && !info[n].fInTried && info[n].nRefCount == 0
  }

  ghost predicate CountsOk(info: Infos, limbo: set<int>, nNew: int, nTried: int) {
    nTried == |TriedIds(info)| && nNew == |NewIds(info) - limbo|
  }

  ghost predicate UsedIds(info: Infos, nIdCount: int) {
    nIdCount >= 0 && forall n | n in info :: 0 <= n < nIdCount
  }

  ghost predicate Consistent(hs: Hashes, st: State, limbo: set<int>) {
    && OrderOk(st.pos, st.order) && SameKeys(st.info, st.pos) && IdsOk(st.info, st.ids)
    && NewOk(hs, st.info, st.inNew) && TriedOk(hs, st.info, st.inTried)
    && LimboOk(st.info, limbo) && CountsOk(st.info, limbo, st.nNew, st.nTried) && UsedIds(st.info, st.nIdCount)
  }

  /** Every entry outside `except` is in some table. */
  ghost predicate Placed(info: Infos, except: set<int>) {
    forall n | n in info && n !in except :: info[n].fInTried || info[n].nRefCount >= 1
  }

  /** The manager's own invariant, without the time stamps. */
  ghost predicate Inv(hs: Hashes, st: State) {
    Consistent(hs, st, {}) && Placed(st.info, {})
  }

  /** The part of the check about time stamps. */
  ghost predicate TimesOk(info: Infos) {
    forall n | n in info :: info[n].known.nLastTry >= 0 && info[n].known.nLastSuccess >= 0 &&
                            (info[n].fInTried ==> info[n].known.nLastSuccess != 0)
  }

  // ---------------------------------------------------------------- counting

  lemma RemoveOne<T>(s: set<T>, x: T)
    requires x in s
    ensures |s - {x}| == |s| - 1
  {
  }

  lemma AddOutside<T>(s: set<T>, t: set<T>, x: T)
    requires x !in s && x !in t
    ensures |(s + {x}) - t| == |s - t| + 1
  {
    assert (s + {x}) - t == (s - t) + {x};
  }

  lemma RemoveOutside<T>(s: set<T>, t: set<T>, x: T)
    requires x in s && x !in t
    ensures |(s - {x}) - t| == |s - t| - 1 && |s - (t + {x})| == |s - t| - 1
  {
    assert (s - {x}) - t == (s - t) - {x} && s - (t + {x}) == (s - t) - {x};
  }

  lemma Bijection(pos: map<int, int>, order: seq<int>)
    requires OrderOk(pos, order)
    ensures |order| == |pos.Keys|
  {
    var range := set i | 0 <= i < |order| :: order[i];
    assert pos.Keys == range by {
      forall n | n in pos ensures n in range {
        assert order[pos[n]] == n;
      }
    }
    CountDistinct(order);
  }

  lemma {:induction false} CountDistinct(s: seq<int>)
    requires forall i, j | 0 <= i < j < |s| :: s[i] != s[j]
    ensures |set i | 0 <= i < |s| :: s[i]| == |s|
  {
    var all := set i | 0 <= i < |s| :: s[i];
    if s == [] {
      assert all == {};
    } else {
      var k := |s| - 1;
      var front := set i | 0 <= i < k :: s[..k][i];
      CountDistinct(s[..k]);
      assert all == front + {s[k]} by {
        forall x | x in front + {s[k]} ensures x in all {
          assert s[k] in all;
          if x in front {
            var i :| 0 <= i < k && s[..k][i] == x;
            assert s[i] == x;
          }
        }
        forall x | x in all ensures x in front + {s[k]} {
          var i :| 0 <= i < |s| && s[i] == x;
          assert i < k ==> s[..k][i] == x;
        }
      }
      assert s[k] !in front;
    }
  }

  /** The vector length the check starts with. */
  lemma SizeIsSum(hs: Hashes, st: State)
    requires Consistent(hs, st, {})
    ensures |st.order| == st.nNew + st.nTried
  {
    hide IdsOk, NewOk, TriedOk;
    Bijection(st.pos, st.order);
    assert st.pos.Keys == TriedIds(st.info) + NewIds(st.info) by {
      forall n ensures n in st.pos.Keys <==> n in TriedIds(st.info) + NewIds(st.info) {
        assert n in st.pos <==> n in st.info;
      }
    }
    assert NewIds(st.info) - {} == NewIds(st.info);
  }

  // ---------------------------------------------------------------- the random order

  function Swapped(st: State, i: nat, j: nat): State
    requires i < |st.order| && j < |st.order|
  {
    if i == j then st
    else
      var a, b := st.order[i], st.order[j];
      st.(pos := st.pos[a := j][b := i], order := st.order[i := b][j := a])
  }

  lemma SwapOrder(pos: map<int, int>, order: seq<int>, i: nat, j: nat)
    requires OrderOk(pos, order) && i < j < |order|
    ensures OrderOk(pos[order[i] := j][order[j] := i], order[i := order[j]][j := order[i]])
  {
  }

  /** Moving entries around in the random order disturbs nothing else. */
  lemma SwapKeeps(hs: Hashes, st: State, i: nat, j: nat, limbo: set<int>)
    requires Consistent(hs, st, limbo) && i <= j < |st.order|
    ensures Consistent(hs, Swapped(st, i, j), limbo)
  {
    if i < j {
      assert st.order[i] in st.pos && st.order[j] in st.pos;
      SwapOrder(st.pos, st.order, i, j);
      hide OrderOk, IdsOk, NewOk, TriedOk, CountsOk, UsedIds;
    }
  }

  // ---------------------------------------------------------------- deleting

  /** Removes an entry after swapping it to the end of the random order. */
  function Deleted(st: State, n: int): State
    requires OrderOk(st.pos, st.order) && n in st.pos && n in st.info
  {
    var last := |st.order| - 1;
    var sw := Swapped(st, st.pos[n], last);
    sw.(info := sw.info - {n}, ids := sw.ids - {st.info[n].addr.ip}, order := sw.order[..last], pos := sw.pos - {n}, nNew := sw.nNew - 1)
  }

  lemma DeletedFields(st: State, n: int)
    requires OrderOk(st.pos, st.order) && n in st.pos && n in st.info
    ensures var d := Deleted(st, n);
            d.info == st.info - {n} && d.inNew == st.inNew && d.inTried == st.inTried && d.nTried == st.nTried && d.nIdCount == st.nIdCount
  {
  }

  lemma DropLast(pos: map<int, int>, order: seq<int>)
    requires OrderOk(pos, order) && order != []
    ensures OrderOk(pos - {order[|order| - 1]}, order[..|order| - 1])
  {
  }

  lemma DeleteOrder(st: State, n: int)
    requires OrderOk(st.pos, st.order) && SameKeys(st.info, st.pos) && n in st.info
    ensures OrderOk(Deleted(st, n).pos, Deleted(st, n).order) && SameKeys(st.info - {n}, Deleted(st, n).pos)
  {
    var last, i := |st.order| - 1, st.pos[n];
    assert 0 <= i <= last && st.order[i] == n && st.order[last] in st.pos;
    if i < last {
      SwapOrder(st.pos, st.order, i, last);
    }
    hide OrderOk;
    var sw := Swapped(st, i, last);
    DropLast(sw.pos, sw.order);
  }

  lemma DropIds(info: Infos, ids: map<NetAddr, int>, n: int)
    requires IdsOk(info, ids) && n in info
    ensures IdsOk(info - {n}, ids - {info[n].addr.ip})
  {
  }

  lemma NoSlots(hs: Hashes, info: Infos, inNew: Table, n: int, s: Slot)
    requires NewOk(hs, info, inNew) && n in info && info[n].nRefCount == 0 && s in inNew
    ensures inNew[s] != n
  {
    assert inNew[s] == n ==> s in SlotsOf(inNew, n);
  }

  lemma DropTables(hs: Hashes, info: Infos, inNew: Table, inTried: Table, n: int)
    requires NewOk(hs, info, inNew) && TriedOk(hs, info, inTried)
    requires n in info && !info[n].fInTried && info[n].nRefCount == 0
    ensures NewOk(hs, info - {n}, inNew) && TriedOk(hs, info - {n}, inTried)
  {
    forall s: Slot | s in inNew ensures SlotFits(hs, info - {n}, s, inNew[s]) {
      NoSlots(hs, info, inNew, n, s);
      assert SlotFits(hs, info, s, inNew[s]);
    }
  }

  lemma DropCounts(info: Infos, n: int, limbo: set<int>, nNew: int, nTried: int)
    requires CountsOk(info, limbo, nNew, nTried) && n in info && !info[n].fInTried && n !in limbo
    ensures CountsOk(info - {n}, limbo, nNew - 1, nTried)
  {
    assert TriedIds(info - {n}) == TriedIds(info);
    assert NewIds(info - {n}) == NewIds(info) - {n};
    RemoveOutside(NewIds(info), limbo, n);
  }

  /** Deleting an unreferenced new entry keeps every index consistent. */
  lemma DeleteKeeps(hs: Hashes, st: State, n: int, limbo: set<int>)
    requires Consistent(hs, st, limbo) && n in st.info && !st.info[n].fInTried && st.info[n].nRefCount == 0 && n !in limbo
    ensures Consistent(hs, Deleted(st, n), limbo)
  {
    DeleteOrder(st, n);
    hide OrderOk, IdsOk, NewOk, TriedOk, CountsOk, SameKeys;
    DropIds(st.info, st.ids, n);
    DropTables(hs, st.info, st.inNew, st.inTried, n);
    DropCounts(st.info, n, limbo, st.nNew, st.nTried);
  }

  // ---------------------------------------------------------------- one entry updated

  function SetInfo(st: State, n: int, e: AddrInfo): State { st.(info := st.info[n := e]) }

  lemma UpdateIds(info: Infos, ids: map<NetAddr, int>, n: int, e: AddrInfo)
    requires IdsOk(info, ids) && n in info && e.addr == info[n].addr
    ensures IdsOk(info[n := e], ids)
  {
  }

  lemma UpdateCounts(info: Infos, n: int, e: AddrInfo, limbo: set<int>, nNew: int, nTried: int)
    requires CountsOk(info, limbo, nNew, nTried) && n in info && e.fInTried == info[n].fInTried
    ensures CountsOk(info[n := e], limbo, nNew, nTried)
  {
    assert TriedIds(info[n := e]) == TriedIds(info);
    assert NewIds(info[n := e]) == NewIds(info);
  }

  lemma UpdateTried(hs: Hashes, info: Infos, inTried: Table, n: int, e: AddrInfo)
    requires TriedOk(hs, info, inTried) && n in info && e.addr == info[n].addr && e.fInTried == info[n].fInTried
    ensures TriedOk(hs, info[n := e], inTried)
  {
  }

  lemma UpdateNew(hs: Hashes, info: Infos, inNew: Table, n: int, e: AddrInfo)
    requires NewOk(hs, info, inNew) && n in info
    requires e.addr == info[n].addr && e.fInTried == info[n].fInTried && e.nRefCount == info[n].nRefCount
    ensures NewOk(hs, info[n := e], inNew)
  {
    forall s: Slot | s in inNew ensures SlotFits(hs, info[n := e], s, inNew[s]) {
      assert SlotFits(hs, info, s, inNew[s]);
    }
  }

  /** Statistics may change freely. */
  lemma TouchKeeps(hs: Hashes, st: State, n: int, known: Known, limbo: set<int>)
    requires Consistent(hs, st, limbo) && n in st.info
    ensures Consistent(hs, SetInfo(st, n, st.info[n].(known := known)), limbo)
  {
    hide OrderOk, IdsOk, CountsOk, NewOk, TriedOk;
    var e := st.info[n].(known := known);
    UpdateIds(st.info, st.ids, n, e);
    UpdateCounts(st.info, n, e, limbo, st.nNew, st.nTried);
    UpdateTried(hs, st.info, st.inTried, n, e);
    UpdateNew(hs, st.info, st.inNew, n, e);
  }

  // ---------------------------------------------------------------- the new table

  function AddRefs(e: AddrInfo, k: int): AddrInfo { e.(nRefCount := e.nRefCount + k) }

  /** Takes the entry out of one new slot. */
  function Unslotted(st: State, s: Slot): State
    requires s in st.inNew && st.inNew[s] in st.info
  {
    var n := st.inNew[s];
    SetInfo(st, n, AddRefs(st.info[n], -1)).(inNew := st.inNew - {s})
  }

  lemma SlotsWithout(t: Table, s: Slot, k: int)
    requires s in t
    ensures SlotsOf(t - {s}, k) == SlotsOf(t, k) - {s}
    ensures |SlotsOf(t - {s}, k)| == |SlotsOf(t, k)| - if t[s] == k then 1 else 0
  {
    assert SlotsOf(t - {s}, k) == SlotsOf(t, k) - {s};
    if t[s] == k {
      RemoveOne(SlotsOf(t, k), s);
    } else {
      assert SlotsOf(t, k) - {s} == SlotsOf(t, k);
    }
  }

  lemma UnslotNew(hs: Hashes, info: Infos, inNew: Table, s: Slot, n: int)
    requires NewOk(hs, info, inNew) && s in inNew && n == inNew[s]
    ensures n in info && !info[n].fInTried && info[n].nRefCount > 0 && NewOk(hs, info[n := AddRefs(info[n], -1)], inNew - {s})
  {
    assert SlotFits(hs, info, s, inNew[s]);
    assert s in SlotsOf(inNew, n);
    var info' := info[n := AddRefs(info[n], -1)];
    forall k | k in info' ensures info'[k].nRefCount == |SlotsOf(inNew - {s}, k)| <= NEW_BUCKETS_PER_ADDRESS {
      SlotsWithout(inNew, s, k);
    }
    forall q: Slot | q in inNew - {s} ensures SlotFits(hs, info', q, (inNew - {s})[q]) {
      assert SlotFits(hs, info, q, inNew[q]);
    }
  }

  /** The reference count is positive, so ClearNew's assertion holds, and the rest stays consistent. */
  lemma UnslotKeeps(hs: Hashes, st: State, s: Slot, limbo: set<int>)
    requires Consistent(hs, st, limbo) && s in st.inNew
    ensures st.inNew[s] in st.info && !st.info[st.inNew[s]].fInTried && st.info[st.inNew[s]].nRefCount > 0
    ensures st.inNew[s] !in limbo && Consistent(hs, Unslotted(st, s), limbo)
  {
    hide OrderOk, IdsOk, CountsOk, NewOk, TriedOk;
    var n := st.inNew[s];
    UnslotNew(hs, st.info, st.inNew, s, n);
    var e := AddRefs(st.info[n], -1);
    UpdateIds(st.info, st.ids, n, e);
    UpdateCounts(st.info, n, e, limbo, st.nNew, st.nTried);
    UpdateTried(hs, st.info, st.inTried, n, e);
  }

  /** Puts an entry into an empty new slot. */
  function Slotted(st: State, s: Slot, n: int): State
    requires n in st.info
  {
    SetInfo(st, n, AddRefs(st.info[n], 1)).(inNew := st.inNew[s := n])
  }

  lemma SlotsWith(t: Table, s: Slot, n: int, k: int)
    requires s !in t
    ensures |SlotsOf(t[s := n], k)| == |SlotsOf(t, k)| + if n == k then 1 else 0
  {
    if n == k {
      assert SlotsOf(t[s := n], k) == SlotsOf(t, k) + {s};
    } else {
      assert SlotsOf(t[s := n], k) == SlotsOf(t, k);
    }
  }

  lemma SlotNew(hs: Hashes, info: Infos, inNew: Table, s: Slot, n: int)
    requires NewOk(hs, info, inNew) && s !in inNew && SlotFits(hs, info, s, n) && info[n].nRefCount < NEW_BUCKETS_PER_ADDRESS
    ensures NewOk(hs, info[n := AddRefs(info[n], 1)], inNew[s := n])
  {
    var info', inNew' := info[n := AddRefs(info[n], 1)], inNew[s := n];
    forall k | k in info' ensures info'[k].nRefCount == |SlotsOf(inNew', k)| <= NEW_BUCKETS_PER_ADDRESS {
      SlotsWith(inNew, s, n, k);
    }
    forall q: Slot | q in inNew' ensures SlotFits(hs, info', q, inNew'[q]) {
      if q != s {
        assert SlotFits(hs, info, q, inNew[q]);
      }
    }
  }

  lemma SlotKeeps(hs: Hashes, st: State, s: Slot, n: int, limbo: set<int>)
    requires Consistent(hs, st, limbo) && s !in st.inNew && SlotFits(hs, st.info, s, n) && n !in limbo
    requires st.info[n].nRefCount < NEW_BUCKETS_PER_ADDRESS
    ensures Consistent(hs, Slotted(st, s, n), limbo)
  {
    hide OrderOk, IdsOk, CountsOk, NewOk, TriedOk;
    SlotNew(hs, st.info, st.inNew, s, n);
    var e := AddRefs(st.info[n], 1);
    UpdateIds(st.info, st.ids, n, e);
    UpdateCounts(st.info, n, e, limbo, st.nNew, st.nTried);
    UpdateTried(hs, st.info, st.inTried, n, e);
  }

  // ---------------------------------------------------------------- creating

  function Created(st: State, e: AddrInfo): State {
    st.(info := st.info[st.nIdCount := e], ids := st.ids[e.addr.ip := st.nIdCount],
        order := st.order + [st.nIdCount], pos := st.pos[st.nIdCount := |st.order|], nIdCount := st.nIdCount + 1)
  }

  lemma CreateTables(hs: Hashes, info: Infos, inNew: Table, inTried: Table, n: int, e: AddrInfo)
    requires NewOk(hs, info, inNew) && TriedOk(hs, info, inTried) && n !in info && !e.fInTried && e.nRefCount == 0
    ensures NewOk(hs, info[n := e], inNew) && TriedOk(hs, info[n := e], inTried)
  {
    forall s: Slot | s in inNew ensures SlotFits(hs, info[n := e], s, inNew[s]) {
      assert SlotFits(hs, info, s, inNew[s]);
    }
    assert SlotsOf(inNew, n) == {};
  }

  lemma CreateIndexes(info: Infos, ids: map<NetAddr, int>, order: seq<int>, pos: map<int, int>, n: int, e: AddrInfo)
    requires OrderOk(pos, order) && IdsOk(info, ids) && SameKeys(info, pos) && n !in info && e.addr.ip !in ids
    ensures OrderOk(pos[n := |order|], order + [n]) && IdsOk(info[n := e], ids[e.addr.ip := n])
    ensures SameKeys(info[n := e], pos[n := |order|])
  {
  }

  lemma AddedIds(info: Infos, n: int, e: AddrInfo)
    requires n !in info && !e.fInTried
    ensures TriedIds(info[n := e]) == TriedIds(info) && NewIds(info[n := e]) == NewIds(info) + {n}
  {
  }

  lemma CreateCounts(info: Infos, n: int, e: AddrInfo, limbo: set<int>, nNew: int, nTried: int)
    requires CountsOk(info, limbo, nNew, nTried) && n !in limbo && n !in info && !e.fInTried
    ensures CountsOk(info[n := e], limbo, nNew + 1, nTried)
  {
    AddedIds(info, n, e);
    assert n !in NewIds(info);
    hide NewIds, TriedIds;
    AddOutside(NewIds(info), limbo, n);
  }

  /** A new entry for an unknown address, counted as new but not yet in any bucket. */
  lemma CreateKeeps(hs: Hashes, st: State, e: AddrInfo, limbo: set<int>)
    requires Consistent(hs, st, limbo) && e.addr.ip !in st.ids && !e.fInTried && e.nRefCount == 0
    ensures Consistent(hs, Created(st, e).(nNew := st.nNew + 1), limbo)
  {
    hide OrderOk, IdsOk, NewOk, TriedOk, CountsOk, SameKeys;
    CreateTables(hs, st.info, st.inNew, st.inTried, st.nIdCount, e);
    CreateIndexes(st.info, st.ids, st.order, st.pos, st.nIdCount, e);
    CreateCounts(st.info, st.nIdCount, e, limbo, st.nNew, st.nTried);
  }

  // ---------------------------------------------------------------- between the tables

  /** An unreferenced new entry stops being counted. */
  lemma EnterLimbo(hs: Hashes, st: State, n: int, limbo: set<int>)
    requires Consistent(hs, st, limbo) && n in st.info && !st.info[n].fInTried && st.info[n].nRefCount == 0 && n !in limbo
    ensures Consistent(hs, st.(nNew := st.nNew - 1), limbo + {n})
  {
    hide OrderOk, IdsOk, NewOk, TriedOk;
    RemoveOutside(NewIds(st.info), limbo, n);
  }

  lemma LeaveLimbo(hs: Hashes, st: State, n: int, limbo: set<int>)
    requires Consistent(hs, st, limbo) && n in limbo
    ensures Consistent(hs, st.(nNew := st.nNew + 1), limbo - {n})
  {
    hide OrderOk, IdsOk, NewOk, TriedOk;
    RemoveOutside(NewIds(st.info), limbo - {n}, n);
    assert limbo - {n} + {n} == limbo;
  }

  /** Takes an entry out of the tried table. */
  function Untried(st: State, s: Slot): State
    requires s in st.inTried && st.inTried[s] in st.info
  {
    var n := st.inTried[s];
    SetInfo(st, n, st.info[n].(fInTried := false)).(inTried := st.inTried - {s}, nTried := st.nTried - 1)
  }

  lemma FlagNew(hs: Hashes, info: Infos, inNew: Table, n: int, tried: bool)
    requires NewOk(hs, info, inNew) && n in info && info[n].nRefCount == 0
    ensures NewOk(hs, info[n := info[n].(fInTried := tried)], inNew)
  {
    forall s: Slot | s in inNew ensures SlotFits(hs, info[n := info[n].(fInTried := tried)], s, inNew[s]) {
      NoSlots(hs, info, inNew, n, s);
      assert SlotFits(hs, info, s, inNew[s]);
    }
  }

  lemma TriedHasNoRefs(hs: Hashes, info: Infos, inNew: Table, n: int)
    requires NewOk(hs, info, inNew) && n in info && info[n].fInTried
    ensures info[n].nRefCount == 0
  {
    forall s: Slot | s in inNew ensures inNew[s] != n {
      assert SlotFits(hs, info, s, inNew[s]);
    }
    assert SlotsOf(inNew, n) == {};
  }

  lemma UntryTable(hs: Hashes, info: Infos, inTried: Table, s: Slot, n: int)
    requires TriedOk(hs, info, inTried) && s in inTried && n == inTried[s]
    ensures n in info && info[n].fInTried && TriedOk(hs, info[n := info[n].(fInTried := false)], inTried - {s})
  {
  }

  lemma UntryCounts(info: Infos, n: int, limbo: set<int>, nNew: int, nTried: int)
    requires CountsOk(info, limbo, nNew, nTried) && n in info && info[n].fInTried
    ensures CountsOk(info[n := info[n].(fInTried := false)], limbo + {n}, nNew, nTried - 1)
  {
    var info' := info[n := info[n].(fInTried := false)];
    assert TriedIds(info') == TriedIds(info) - {n};
    assert NewIds(info') - (limbo + {n}) == NewIds(info) - limbo;
    RemoveOne(TriedIds(info), n);
  }

  lemma UntryKeeps(hs: Hashes, st: State, s: Slot, limbo: set<int>)
    requires Consistent(hs, st, limbo) && s in st.inTried
    ensures st.inTried[s] in st.info && st.info[st.inTried[s]].fInTried && st.info[st.inTried[s]].nRefCount == 0
    ensures st.inTried[s] !in limbo && Consistent(hs, Untried(st, s), limbo + {st.inTried[s]})
  {
    hide OrderOk, IdsOk, NewOk, CountsOk, TriedOk;
    var n := st.inTried[s];
    UntryTable(hs, st.info, st.inTried, s, n);
    TriedHasNoRefs(hs, st.info, st.inNew, n);
    FlagNew(hs, st.info, st.inNew, n, false);
    UpdateIds(st.info, st.ids, n, st.info[n].(fInTried := false));
    UntryCounts(st.info, n, limbo, st.nNew, st.nTried);
  }

  /** Enters an entry into its own, empty tried slot. */
  function Tried(hs: Hashes, st: State, n: int): State
    requires n in st.info
  {
    SetInfo(st, n, st.info[n].(fInTried := true)).(inTried := st.inTried[hs.TriedSlot(st.info[n].addr) := n], nTried := st.nTried + 1)
  }

  lemma TryTable(hs: Hashes, info: Infos, inTried: Table, n: int)
    requires TriedOk(hs, info, inTried) && n in info && !info[n].fInTried && hs.TriedSlot(info[n].addr) !in inTried
    ensures TriedOk(hs, info[n := info[n].(fInTried := true)], inTried[hs.TriedSlot(info[n].addr) := n])
  {
  }

  lemma TryCounts(info: Infos, n: int, limbo: set<int>, nNew: int, nTried: int)
    requires CountsOk(info, limbo, nNew, nTried) && n in info && !info[n].fInTried && n in limbo
    ensures CountsOk(info[n := info[n].(fInTried := true)], limbo - {n}, nNew, nTried + 1)
  {
    var info' := info[n := info[n].(fInTried := true)];
    assert TriedIds(info') == TriedIds(info) + {n};
    assert NewIds(info') - (limbo - {n}) == NewIds(info) - limbo;
  }

  lemma TryKeeps(hs: Hashes, st: State, n: int, limbo: set<int>)
    requires Consistent(hs, st, limbo) && n in limbo && hs.TriedSlot(st.info[n].addr) !in st.inTried
    ensures Consistent(hs, Tried(hs, st, n), limbo - {n})
  {
    hide OrderOk, IdsOk, NewOk, TriedOk, CountsOk;
    TryTable(hs, st.info, st.inTried, n);
    FlagNew(hs, st.info, st.inNew, n, true);
    UpdateIds(st.info, st.ids, n, st.info[n].(fInTried := true));
    TryCounts(st.info, n, limbo, st.nNew, st.nTried);
  }
}
