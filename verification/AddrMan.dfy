/** The address manager with its maps, its random order and its two bucket arrays. Bucket hashes are
    arbitrary functions of the secret key; random numbers and the clock are arguments. */
module AddrMan {
  import opened AddrTables
  import opened AddrMoves
  import opened Powers

  const EMPTY: int := -1

  /** The occupied slots of a bucket array. */
  ghost function TableOf(a: array2<int>): Table
    reads a
  {
    map b: nat, i: nat | b < a.Length0 && i < a.Length1 && a[b, i] != EMPTY :: (b, i) := a[b, i]
  }

  lemma ReadSlot(a: array2<int>, b: nat, i: nat)
    requires b < a.Length0 && i < a.Length1
    ensures (b, i) in TableOf(a) <==> a[b, i] != EMPTY
    ensures a[b, i] != EMPTY ==> TableOf(a)[(b, i)] == a[b, i]
  {
  }

  method Put(a: array2<int>, b: nat, i: nat, n: int)
    requires b < a.Length0 && i < a.Length1
    modifies a
    ensures a[b, i] == n
    ensures TableOf(a) == if n == EMPTY then old(TableOf(a)) - {(b, i)} else old(TableOf(a))[(b, i) := n]
  {
    a[b, i] := n;
  }

  lemma PosInRange(info: Infos, pos: map<int, int>, order: seq<int>, n: int)
    requires OrderOk(pos, order) && SameKeys(info, pos) && n in info
    ensures n in pos && 0 <= pos[n] < |order|
  {
  }

  lemma SameKeysUpdate(info: Infos, pos: map<int, int>, n: int, e: AddrInfo)
    requires SameKeys(info, pos) && n in info
    ensures SameKeys(info[n := e], pos)
  {
  }

  lemma RefsAreSlots(hs: Hashes, info: Infos, t: Table, n: int)
    requires NewOk(hs, info, t) && n in info
    ensures info[n].nRefCount == |SlotsOf(t, n)|
  {
  }

  lemma WithoutNone(t: Table, n: int)
    ensures Without(t, n, 0) == t
  {
  }

  lemma StillThere(t: Table, n: int, bucket: nat, s: Slot)
    requires s.0 == bucket
    ensures s in Without(t, n, bucket) <==> s in t
    ensures s in t ==> Without(t, n, bucket)[s] == t[s]
  {
  }

  lemma StaysInLimbo(hs: Hashes, u: State, s: Slot, limbo: set<int>, n: int)
    requires Consistent(hs, u, limbo + {n}) && Whole(u)
    ensures n in Cleared(u, s).info && Cleared(u, s).info[n].nRefCount == 0 && n != EMPTY
  {
    hide OrderOk, IdsOk, NewOk, TriedOk, CountsOk, SameKeys, Cleared;
    ClearKeeps(hs, u, s, limbo + {n});
  }

  const FRESH: State := State(map[], map[], [], map[], map[], map[], 0, 0, 0)

  lemma FreshOk(hs: Hashes)
    ensures Inv(hs, FRESH) && TimesOk(FRESH.info)
  {
    assert TriedIds(FRESH.info) == {} && NewIds(FRESH.info) - {} == {};
  }

  /** A placed new entry occupies some slot, at its own position. */
  lemma SomeSlot(hs: Hashes, st: State, n: int) returns (s: Slot)
    requires Inv(hs, st) && n in st.info && !st.info[n].fInTried
    ensures s in st.inNew && st.inNew[s] == n && s.0 < NEW_BUCKET_COUNT && s.1 == hs.Position(st.info[n].addr, true, s.0)
  {
    RefsAreSlots(hs, st.info, st.inNew, n);
    assert SlotsOf(st.inNew, n) != {};
    s :| s in SlotsOf(st.inNew, n);
    assert SlotFits(hs, st.info, s, st.inNew[s]);
  }

  lemma Rotation(start: nat, b: nat) returns (j: nat)
    requires b < NEW_BUCKET_COUNT
    ensures j < NEW_BUCKET_COUNT && (j + start) % NEW_BUCKET_COUNT == b
  {
    var r := start % NEW_BUCKET_COUNT;
    j := if b >= r then b - r else b + NEW_BUCKET_COUNT - r;
  }

  lemma TouchInv(hs: Hashes, st: State, n: int, known: Known)
    requires Inv(hs, st) && n in st.info
    ensures Inv(hs, SetInfo(st, n, st.info[n].(known := known)))
  {
    hide OrderOk, IdsOk, NewOk, TriedOk, CountsOk, SameKeys;
    TouchKeeps(hs, st, n, known, {});
  }

  function Success(k: Known, time: int): Known { k.(nLastSuccess := time, nLastTry := time, nAttempts := 0) }

  /** The entry for exactly this address and port, if any. */
  ghost predicate Knows(st: State, addr: Service) {
    addr.ip in st.ids && st.ids[addr.ip] in st.info && st.info[st.ids[addr.ip]].addr == addr
  }

  /** What Good_ does. */
  ghost function Praised(hs: Hashes, st: State, addr: Service, time: int): State
    requires Inv(hs, st)
  {
    if !Knows(st, addr) then st
    else
      var n := st.ids[addr.ip];
      TouchInv(hs, st, n, Success(st.info[n].known, time));
      var t := SetInfo(st, n, st.info[n].(known := Success(st.info[n].known, time)));
      if st.info[n].fInTried then t else MadeTried(hs, t, n)
  }

  /** After Good_ on a known service: it is tried with its success recorded, every tried entry of
      another slot stays tried, and at most one new entry is lost. */
  lemma GoodEffect(hs: Hashes, st: State, addr: Service, time: int)
    requires Inv(hs, st) && Knows(st, addr)
    ensures var n, st' := st.ids[addr.ip], Praised(hs, st, addr, time);
            && n in st'.info && st'.info[n].fInTried && st'.info[n].addr == addr
            && st'.info[n].known == st.info[n].known.(nLastSuccess := time, nLastTry := time, nAttempts := 0)
            && (forall now | time != 0 && now <= time + 60 :: Healthy(st'.info[n].known, now))
            && (forall now | now <= time + 604800 && Recent(st.info[n].known, now) :: Healthy(st'.info[n].known, now))
            && KeptBut(st.info, st'.info, n) && LosesAtMostOne(st.info, st'.info, n)
            && (forall k | k in st'.info && k != n ::
                  st'.info[k].fInTried <==> st.info[k].fInTried && (!st.info[n].fInTried ==> hs.TriedSlot(st.info[k].addr) != hs.TriedSlot(addr)))
            && (TimesOk(st.info) && time > 0 ==> TimesOk(st'.info))
  {
    hide OrderOk, IdsOk, NewOk, TriedOk, CountsOk, SameKeys, UsedIds, MadeTried, Placed, Hashes.TriedSlot;
    var n := st.ids[addr.ip];
    TouchInv(hs, st, n, Success(st.info[n].known, time));
    var t := SetInfo(st, n, st.info[n].(known := Success(st.info[n].known, time)));
    if !st.info[n].fInTried {
      MakeTriedEffect(hs, t, n);
    }
  }

  // ---------------------------------------------------------------- adding

  /** The announced time and services merged into an entry's history. */
  function Refreshed(k: Known, nTime: int, nServices: bv64, penalty: int, now: int): Known {
    var interval := if now - nTime < 24 * 60 * 60 then 60 * 60 else 24 * 60 * 60;
    var later := nTime != 0 && (k.nTime == 0 || k.nTime < nTime - interval - penalty);
    k.(nTime := if later then Penalised(nTime, penalty) else k.nTime, nServices := k.nServices | nServices)
  }

  /** An announcement moves the time of an entry forward only, and by more than an hour, or more than a day
      if it is older than one itself; it adds services and leaves our own experience alone. */
  lemma AnnouncedAdvances(k: Known, nTime: int, nServices: bv64, penalty: int, now: int)
    ensures var r := Refreshed(k, nTime, nServices, penalty, now);
            && r.nTime >= k.nTime
            && (r.nTime != k.nTime && k.nTime != 0 ==>
                  r.nTime - k.nTime > 3600 && (now - nTime >= 86400 ==> r.nTime - k.nTime > 86400))
            && (r.nTime != k.nTime ==> r.nTime == nTime - penalty > 0 || (r.nTime == 0 && nTime <= penalty))
            && r.nServices & k.nServices == k.nServices && r.nServices & nServices == nServices
            && r == k.(nTime := r.nTime, nServices := r.nServices)
  {
  }

  /** A known address gets another slot only on news, below the limit, and with odds halved by each slot it has. */
  predicate OneMoreSlot(e: AddrInfo, nTime: int, roll: nat)
    requires e.nRefCount >= 0
  {
    && nTime != 0 && (e.known.nTime == 0 || nTime > e.known.nTime)
    && !e.fInTried && e.nRefCount < NEW_BUCKETS_PER_ADDRESS && roll % Pow2(e.nRefCount) == 0
  }

  /** An announcement no newer than what is known adds at most services. */
  lemma OldNews(k: Known, nTime: int, nServices: bv64, penalty: int, now: int)
    requires 0 < k.nTime && nTime <= k.nTime && penalty >= 0
    ensures Refreshed(k, nTime, nServices, penalty, now) == k.(nServices := k.nServices | nServices)
  {
  }

  /** Old news, a tried entry and one with eight slots get no other slot; otherwise, of the rolls below 2^slots
      exactly one gives another slot. */
  lemma SlotOdds(e: AddrInfo, nTime: int, roll: nat)
    requires 0 <= e.nRefCount <= 8
    ensures nTime == 0 || (0 < e.known.nTime && nTime <= e.known.nTime) || e.fInTried || e.nRefCount == 8 ==>
              !OneMoreSlot(e, nTime, roll)
    ensures nTime > e.known.nTime >= 0 && !e.fInTried && e.nRefCount < 8 && roll < Pow2(e.nRefCount) ==>
              (OneMoreSlot(e, nTime, roll) <==> roll == 0)
  {
    hide Pow2;
    if roll < Pow2(e.nRefCount) {
      ModIs(roll, Pow2(e.nRefCount), 0, roll);
    }
  }

  function Penalised(nTime: int, penalty: int): int { if nTime - penalty > 0 then nTime - penalty else 0 }

  /** Only entry `n` changes its history, the tried table stays, and one other new entry may be lost. */
  ghost predicate Undisturbed(st: State, st': State, n: int) {
    && KeptBut(st.info, st'.info, n) && LosesAtMostOne(st.info, st'.info, n)
    && st'.inTried == st.inTried && st'.nTried == st.nTried
    && (forall k | k in st'.info && k in st.info :: st'.info[k].fInTried == st.info[k].fInTried)
  }

  /** A slot a newcomer may take: free, or held by an entry that is not healthy or has other slots. */
  predicate OpenToNew(st: State, s: Slot, now: int) {
    s !in st.inNew || (st.inNew[s] in st.info && (!Healthy(st.info[st.inNew[s]].known, now) || st.info[st.inNew[s]].nRefCount > 1))
  }

  lemma InsertFlags(hs: Hashes, st: State, st': State)
    requires TriedOk(hs, st.info, st.inTried) && TriedOk(hs, st'.info, st'.inTried) && st'.inTried == st.inTried
    requires Kept(st.info, st'.info)
    ensures forall k | k in st'.info :: st'.info[k].fInTried == st.info[k].fInTried
  {
    forall k | k in st'.info ensures st'.info[k].fInTried == st.info[k].fInTried {
      var s := hs.TriedSlot(st.info[k].addr);
    }
  }

  /** Adding a known address: its entry stays, with the merged history. */
  lemma AddKnownEffect(hs: Hashes, st: State, n: int, known: Known, src: NetAddr, now: int)
    requires Inv(hs, st) && n in st.info && !st.info[n].fInTried && st.info[n].nRefCount < NEW_BUCKETS_PER_ADDRESS
    ensures var t := SetInfo(st, n, st.info[n].(known := known));
            && Whole(t) && Consistent(hs, t, {}) && Placed(t.info, {n})
            && var st' := Inserted(t, hs.NewSlot(st.info[n].addr, src), n, now);
               && Undisturbed(st, st', n) && n in st'.info && st'.info[n].addr == st.info[n].addr && st'.info[n].known == known
               && Spares(st, st', now)
  {
    hide OrderOk, IdsOk, NewOk, TriedOk, CountsOk, SameKeys, UsedIds, Whole, Inserted, Hashes.NewSlot, MayTake, Healthy;
    TouchKeeps(hs, st, n, known, {});
    var t := SetInfo(st, n, st.info[n].(known := known));
    InsertKeeps(hs, t, src, n, now);
    var s := hs.NewSlot(st.info[n].addr, src);
    InsertEffect(hs, t, s, n, now);
    InsertSpares(hs, t, s, n, now);
    SparesKnown(st, t, Inserted(t, s, n, now), n, now);
    InsertFlags(hs, t, Inserted(t, s, n, now));
  }

  /** A changed history of one entry makes no difference to who is spared. */
  lemma SparesKnown(st: State, t: State, st': State, n: int, now: int)
    requires n in st.info && n in t.info && t.inNew == st.inNew && t.info == st.info[n := st.info[n].(known := t.info[n].known)] && n in st'.info
    requires forall k | k in t.info && k != n && Healthy(t.info[k].known, now) :: k in st'.info
    requires forall q: Slot | q in t.inNew && (t.inNew[q] == n || HoldsOne(t, t.inNew[q], now)) ::
               q in st'.inNew && st'.inNew[q] == t.inNew[q]
    ensures Spares(st, st', now)
  {
    hide Healthy;
    forall q: Slot | q in st.inNew && HoldsOne(st, st.inNew[q], now) ensures q in st'.inNew && st'.inNew[q] == st.inNew[q] {
      var k := t.inNew[q];
      assert k == n || HoldsOne(t, k, now);
    }
  }

  /** An entry that was not there before makes no difference to who is spared. */
  lemma SparesNew(st: State, t: State, st': State, n: int, now: int)
    requires n !in st.info && t.inNew == st.inNew && forall k :: k in st.info ==> k in t.info && t.info[k] == st.info[k]
    requires forall k | k in t.info && k != n && Healthy(t.info[k].known, now) :: k in st'.info
    requires forall q: Slot | q in t.inNew && (t.inNew[q] == n || HoldsOne(t, t.inNew[q], now)) ::
               q in st'.inNew && st'.inNew[q] == t.inNew[q]
    ensures Spares(st, st', now)
  {
    hide Healthy;
    forall q: Slot | q in st.inNew && HoldsOne(st, st.inNew[q], now) ensures q in st'.inNew && st'.inNew[q] == st.inNew[q] {
      var k := t.inNew[q];
      assert HoldsOne(t, k, now);
    }
  }

  lemma AddNewSpares(hs: Hashes, st: State, t: State, s: Slot, n: int, now: int)
    requires Consistent(hs, t, {}) && n in t.info && !t.info[n].fInTried && n !in st.info && t.inNew == st.inNew
    requires forall k :: k in st.info ==> k in t.info && t.info[k] == st.info[k]
    ensures Whole(t) && Spares(st, Inserted(t, s, n, now), now)
  {
    hide OrderOk, IdsOk, NewOk, TriedOk, CountsOk, SameKeys, Whole, Inserted, Healthy;
    InsertSpares(hs, t, s, n, now);
    SparesNew(st, t, Inserted(t, s, n, now), n, now);
  }

  /** Adding an unknown address: it is stored exactly if its slot is open to it. */
  lemma AddNewEffect(hs: Hashes, st: State, e: AddrInfo, src: NetAddr, now: int)
    requires Inv(hs, st) && e.addr.ip !in st.ids && !e.fInTried && e.nRefCount == 0
    ensures var t, n := Created(st, e).(nNew := st.nNew + 1), st.nIdCount;
            && Whole(t) && Consistent(hs, t, {}) && Placed(t.info, {n})
            && var st' := Inserted(t, hs.NewSlot(e.addr, src), n, now);
               && Undisturbed(st, st', n)
               && (n in st'.info <==> OpenToNew(st, hs.NewSlot(e.addr, src), now))
               && (n in st'.info ==> st'.info[n].addr == e.addr && st'.info[n].known == e.known && !st'.info[n].fInTried)
               && Spares(st, st', now)
  {
    hide OrderOk, IdsOk, NewOk, TriedOk, CountsOk, SameKeys, Whole, Inserted, Hashes.NewSlot, AddrInfo.IsTerrible, Healthy, Spares;
    CreateKeeps(hs, st, e, {});
    var t, n := Created(st, e).(nNew := st.nNew + 1), st.nIdCount;
    InsertKeeps(hs, t, src, n, now);
    var s := hs.NewSlot(e.addr, src);
    InsertEffect(hs, t, s, n, now);
    AddNewSpares(hs, st, t, s, n, now);
    InsertFlags(hs, t, Inserted(t, s, n, now));
    ConsistentWhole(hs, st, {});
    OccupantOld(st, s);
  }

  lemma OccupantOld(st: State, s: Slot)
    requires Whole(st)
    ensures s in st.inNew ==> st.inNew[s] in st.info
  {
  }

  lemma TouchDisturbs(st: State, n: int, known: Known)
    requires n in st.info
    ensures Undisturbed(st, SetInfo(st, n, st.info[n].(known := known)), n)
  {
  }

  lemma SparesSame(st: State, now: int)
    ensures Spares(st, st, now)
  {
  }

  lemma TouchSpares(st: State, n: int, known: Known, now: int)
    requires n in st.info
    ensures Spares(st, SetInfo(st, n, st.info[n].(known := known)), now)
  {
  }

  lemma RefsInRange(hs: Hashes, info: Infos, inNew: Table, n: int)
    requires NewOk(hs, info, inNew) && n in info
    ensures 0 <= info[n].nRefCount <= NEW_BUCKETS_PER_ADDRESS
  {
  }

  // ---------------------------------------------------------------- statistics and queries

  /** What Attempt_ and Connected_ record. */
  function Attempted(time: int): Known -> Known { (k: Known) => k.(nLastTry := time, nAttempts := k.nAttempts + 1) }
  function Seen(time: int): Known -> Known { (k: Known) => if time - k.nTime > 20 * 60 then k.(nTime := time) else k }

  /** An attempt counts one more and notes its time. A connection moves the time of an entry forward only, by
      more than twenty minutes. Both leave the rest alone. */
  lemma ExperienceAdvances(k: Known, time: int)
    ensures var a := Attempted(time)(k);
            a.nAttempts - k.nAttempts == 1 && a == k.(nAttempts := a.nAttempts, nLastTry := time)
    ensures var s := Seen(time)(k);
            && s.nTime >= k.nTime && s == k.(nTime := s.nTime) && time - s.nTime <= 1200
            && (s.nTime != k.nTime ==> s.nTime == time && s.nTime - k.nTime > 1200)
  {
  }

  ghost function Annotated(st: State, addr: Service, f: Known -> Known): State {
    if !Knows(st, addr) then st
    else SetInfo(st, st.ids[addr.ip], st.info[st.ids[addr.ip]].(known := f(st.info[st.ids[addr.ip]].known)))
  }

  /** How many addresses one query may return: the most that are within 23 percent and 2500. */
  function Share(size: nat): (r: nat)
    ensures r <= 2500 && 100 * r <= 23 * size && (r < 2500 ==> 100 * (r + 1) > 23 * size)
  {
    var share := GETADDR_MAX_PCT * size / 100;
    if share > GETADDR_MAX then GETADDR_MAX else share
  }

  ghost predicate Usable(st: State, e: AddrInfo, now: int) {
    Healthy(e.known, now) && e.addr.ip in st.ids && st.ids[e.addr.ip] in st.info && st.info[st.ids[e.addr.ip]] == e
  }

  ghost predicate InfosOf(info: Infos, ids: seq<int>) {
    forall i | 0 <= i < |ids| :: ids[i] in info
  }

  /** The usable entries of a list of ids, in order. */
  ghost function Collected(info: Infos, ids: seq<int>, now: int): seq<AddrInfo>
    requires InfosOf(info, ids)
  {
    if ids == [] then []
    else
      var k := |ids| - 1;
      Collected(info, ids[..k], now) + if info[ids[k]].IsTerrible(now) then [] else [info[ids[k]]]
  }

  lemma KnownOrder(info: Infos, pos: map<int, int>, order: seq<int>)
    requires OrderOk(pos, order) && SameKeys(info, pos)
    ensures InfosOf(info, order)
  {
    forall i | 0 <= i < |order| ensures order[i] in info {
      var n := order[i];
      assert n in pos;
    }
  }

  lemma SwapInv(hs: Hashes, st: State, i: nat, j: nat)
    requires Inv(hs, st) && i <= j < |st.order|
    ensures Inv(hs, Swapped(st, i, j)) && Swapped(st, i, j) == st.(order := Swapped(st, i, j).order, pos := Swapped(st, i, j).pos)
  {
    SwapKeeps(hs, st, i, j, {});
    hide OrderOk, IdsOk, NewOk, TriedOk, CountsOk, SameKeys;
  }

  lemma SwapPrefix(st: State, i: nat, j: nat)
    requires i <= j < |st.order|
    ensures |Swapped(st, i, j).order| == |st.order| && Swapped(st, i, j).order[..i] == st.order[..i]
  {
  }

  /** Each collected entry comes from a place in the list. */
  lemma {:induction false} CollectedFrom(info: Infos, ids: seq<int>, now: int, i: nat) returns (p: nat)
    requires InfosOf(info, ids) && i < |Collected(info, ids, now)|
    ensures p < |ids| && Collected(info, ids, now)[i] == info[ids[p]] && !info[ids[p]].IsTerrible(now)
    ensures |Collected(info, ids[..p], now)| == i
  {
    hide AddrInfo.IsTerrible;
    var k := |ids| - 1;
    if i < |Collected(info, ids[..k], now)| {
      p := CollectedFrom(info, ids[..k], now, i);
      assert ids[..k][..p] == ids[..p];
    } else {
      p := k;
    }
  }

  lemma CollectedUsable(hs: Hashes, st: State, k: nat, now: int)
    requires Inv(hs, st) && k <= |st.order| && InfosOf(st.info, st.order[..k])
    ensures var c := Collected(st.info, st.order[..k], now);
            && (forall i | 0 <= i < |c| :: Usable(st, c[i], now))
            && (forall i, j | 0 <= i < j < |c| :: c[i].addr.ip != c[j].addr.ip)
  {
    hide AddrInfo.IsTerrible, Healthy, NewOk, TriedOk, CountsOk, UsedIds, Placed, Collected;
    var c := Collected(st.info, st.order[..k], now);
    forall i | 0 <= i < |c| ensures Usable(st, c[i], now) {
      var p := CollectedFrom(st.info, st.order[..k], now, i);
      var n := st.order[p];
      assert n in st.info;
      HealthyStays(st.info[n], now);
    }
    forall i, j | 0 <= i < j < |c| ensures c[i].addr.ip != c[j].addr.ip {
      var p := CollectedFrom(st.info, st.order[..k], now, i);
      var q := CollectedFrom(st.info, st.order[..k], now, j);
      var m, n := st.order[p], st.order[q];
      assert st.pos[m] == p && st.pos[n] == q && p != q;
    }
  }

  lemma {:induction false} CollectedHas(info: Infos, ids: seq<int>, now: int, p: nat)
    requires InfosOf(info, ids) && p < |ids| && !info[ids[p]].IsTerrible(now)
    ensures info[ids[p]] in Collected(info, ids, now)
  {
    hide AddrInfo.IsTerrible;
    var k := |ids| - 1;
    if p < k {
      CollectedHas(info, ids[..k], now, p);
    }
  }

  lemma CollectedAll(info: Infos, pos: map<int, int>, order: seq<int>, now: int)
    requires OrderOk(pos, order) && SameKeys(info, pos)
    ensures InfosOf(info, order)
    ensures forall n | n in info && Healthy(info[n].known, now) :: info[n] in Collected(info, order, now)
  {
    KnownOrder(info, pos, order);
    hide AddrInfo.IsTerrible, Healthy, Collected;
    forall n | n in info && Healthy(info[n].known, now) ensures info[n] in Collected(info, order, now) {
      HealthyStays(info[n], now);
      assert order[pos[n]] == n;
      CollectedHas(info, order, now, pos[n]);
    }
  }

  // ---------------------------------------------------------------- runs

  datatype Op =
    | AddOp(addr: Service, nTime: int, nServices: bv64, routable: bool, source: NetAddr, penalty: int, now: int, roll: nat)
    | GoodOp(addr: Service, time: int, start: nat)
    | AttemptOp(addr: Service, time: int)
    | ConnectedOp(addr: Service, time: int)
    | GetAddrOp(now: int, choose: nat -> nat)
  {
    /** Successes happen at positive times and attempts at non-negative ones. */
    predicate Timely() {
      (GoodOp? ==> time > 0) && (AttemptOp? ==> time >= 0)
    }
  }

  /** Histories whose time stamps pass the check. */
  ghost predicate StampsOk(k: Known) { k.nLastTry >= 0 && k.nLastSuccess >= 0 }

  lemma AddTimes(st: State, st': State, n: int, routable: bool)
    requires !routable ==> st' == st
    requires routable ==> Undisturbed(st, st', n)
    requires routable && n in st.info && n in st'.info ==>
               st'.info[n].known.nLastTry == st.info[n].known.nLastTry && st'.info[n].known.nLastSuccess == st.info[n].known.nLastSuccess
    requires routable && n !in st.info && n in st'.info ==> !st'.info[n].fInTried && StampsOk(st'.info[n].known)
    ensures TimesOk(st.info) ==> TimesOk(st'.info)
  {
  }

  /** Good_ keeps the time stamps in order exactly when it finds no entry or is given a positive time. */
  lemma GoodTimes(hs: Hashes, st: State, addr: Service, time: int)
    requires Inv(hs, st) && TimesOk(st.info)
    ensures TimesOk(Praised(hs, st, addr, time).info) <==> (Knows(st, addr) ==> time > 0)
  {
    hide Inv, LosesAtMostOne;
    if Knows(st, addr) {
      GoodEffect(hs, st, addr, time);
    }
  }

  lemma NoteTimes(st: State, addr: Service, f: Known -> Known)
    requires forall k: Known | StampsOk(k) :: StampsOk(f(k)) && f(k).nLastSuccess == k.nLastSuccess
    ensures TimesOk(st.info) ==> TimesOk(Annotated(st, addr, f).info)
  {
    if TimesOk(st.info) && Knows(st, addr) {
      var n := st.ids[addr.ip];
      assert StampsOk(st.info[n].known);
      assert StampsOk(f(st.info[n].known));
    }
  }

  /** Every entry is younger than the others' ids or was there with the same address and no later time. */
  ghost predicate Aged(was: Infos, count: int, info: Infos) {
    forall n | n in info && n < count :: n in was && was[n].addr == info[n].addr && was[n].known.nTime <= info[n].known.nTime
  }

  lemma AgedStep(was: Infos, count: int, info: Infos, info': Infos, n: int)
    requires Aged(was, count, info) && KeptBut(info, info', n)
    requires n in info' && n < count ==> n in info && info'[n].addr == info[n].addr && info[n].known.nTime <= info'[n].known.nTime
    ensures Aged(was, count, info')
  {
  }

  lemma AgedStart(hs: Hashes, st: State)
    requires Inv(hs, st)
    ensures Aged(st.info, st.nIdCount, st.info)
  {
  }

  /** What Add_ says of one entry, as far as the run needs it. */
  lemma AgedAdd(was: Infos, count: int, st: State, st': State, n: int, routable: bool, nTime: int, nServices: bv64, penalty: int, now: int)
    requires Aged(was, count, st.info) && st.nIdCount >= count
    requires !routable ==> st' == st
    requires routable ==> Undisturbed(st, st', n) && (n in st.info || n == st.nIdCount)
    requires routable && n in st.info && n in st'.info ==>
               st'.info[n].addr == st.info[n].addr && st'.info[n].known == Refreshed(st.info[n].known, nTime, nServices, penalty, now)
    requires routable && n !in st.info && n in st'.info ==> !st'.info[n].fInTried && StampsOk(st'.info[n].known)
    ensures Aged(was, count, st'.info)
    ensures TimesOk(st.info) ==> TimesOk(st'.info)
  {
    hide Refreshed, LosesAtMostOne, Undisturbed, Aged, TimesOk;
    if routable {
      if n in st.info {
        AnnouncedAdvances(st.info[n].known, nTime, nServices, penalty, now);
      }
      AgedStep(was, count, st.info, st'.info, n) by {
        UndisturbedKept(st, st', n);
      }
    }
    AddTimes(st, st', n, routable);
  }

  lemma UndisturbedKept(st: State, st': State, n: int)
    requires Undisturbed(st, st', n)
    ensures KeptBut(st.info, st'.info, n)
  {
  }

  lemma AgedNote(was: Infos, count: int, st: State, addr: Service, f: Known -> Known)
    requires Aged(was, count, st.info) && forall k :: f(k).nTime >= k.nTime
    ensures Aged(was, count, Annotated(st, addr, f).info)
  {
    if Knows(st, addr) {
      AgedStep(was, count, st.info, Annotated(st, addr, f).info, st.ids[addr.ip]);
    }
  }

  lemma AgedGood(hs: Hashes, was: Infos, count: int, st: State, addr: Service, time: int)
    requires Inv(hs, st) && Aged(was, count, st.info)
    ensures Aged(was, count, Praised(hs, st, addr, time).info)
  {
    hide Inv, LosesAtMostOne;
    if Knows(st, addr) {
      GoodEffect(hs, st, addr, time);
      AgedStep(was, count, st.info, Praised(hs, st, addr, time).info, st.ids[addr.ip]);
    }
  }

  class AddrMan {
    const keyed: nat -> Hashes
    const vvNew: array2<int>
    const vvTried: array2<int>
    var nKey: nat
    var info: Infos
    var ids: map<NetAddr, int>
    var order: seq<int>
    var pos: map<int, int>
    var nNew: int
    var nTried: int
    var nIdCount: int

    ghost predicate Shape() {
      && vvNew.Length0 == NEW_BUCKET_COUNT && vvNew.Length1 == BUCKET_SIZE
      && vvTried.Length0 == TRIED_BUCKET_COUNT && vvTried.Length1 == BUCKET_SIZE && vvNew != vvTried
    }

    function Hs(): Hashes
      reads this
    {
      keyed(nKey)
    }

    ghost function St(): State
      reads this, vvNew, vvTried
    {
      State(info, ids, order, pos, TableOf(vvNew), TableOf(vvTried), nNew, nTried, nIdCount)
    }

    ghost predicate Valid()
      reads this, vvNew, vvTried
    {
      Shape() && Inv(Hs(), St())
    }

    method Find(ip: NetAddr) returns (found: bool, n: int)
      requires IdsOk(info, ids)
      ensures found <==> ip in ids
      ensures found ==> n == ids[ip] && n in info
    {
      if ip !in ids {
        return false, 0;
      }
      n := ids[ip];
      found := n in info;
    }

    method Create(addr: Service, nTime: int, nServices: bv64, source: NetAddr) returns (n: int)
      modifies this`info, this`ids, this`order, this`pos, this`nIdCount
      ensures n == old(nIdCount) && St() == Created(old(St()), NewInfo(addr, nTime, nServices, source))
    {
      n := nIdCount;
      nIdCount := nIdCount + 1;
      info := info[n := NewInfo(addr, nTime, nServices, source)];
      ids := ids[addr.ip := n];
      pos := pos[n := |order|];
      order := order + [n];
    }

    method SwapRandom(i: nat, j: nat)
      requires OrderOk(pos, order) && SameKeys(info, pos)
      requires i != j ==> i < |order| && j < |order|
      modifies this`order, this`pos
      ensures i != j ==> St() == Swapped(old(St()), i, j)
      ensures i == j ==> St() == old(St())
    {
      if i == j {
        return;
      }
      var n1, n2 := order[i], order[j];
      assert n1 in info && n2 in info;
      pos := pos[n1 := j][n2 := i];
      order := order[i := n2][j := n1];
    }

    /** The three assertions at the head of Delete are its precondition. */
    method Delete(n: int)
      requires OrderOk(pos, order) && SameKeys(info, pos)
      requires n in info && !info[n].fInTried && info[n].nRefCount == 0
      modifies this`info, this`ids, this`order, this`pos, this`nNew
      ensures n in old(pos) && St() == Deleted(old(St()), n)
    {
      hide OrderOk, SameKeys, TableOf;
      PosInRange(info, pos, order, n);
      SwapRandom(pos[n], |order| - 1);
      order, ids, info, pos, nNew := order[..|order| - 1], ids - {info[n].addr.ip}, info - {n}, pos - {n}, nNew - 1;
    }

    method ClearNew(b: nat, i: nat, ghost limbo: set<int>)
      requires Shape() && b < NEW_BUCKET_COUNT && i < BUCKET_SIZE && Consistent(Hs(), St(), limbo)
      modifies this`info, this`ids, this`order, this`pos, this`nNew, vvNew
      ensures old(Whole(St())) && St() == Cleared(old(St()), (b, i)) && vvNew[b, i] == EMPTY
    {
      hide TableOf, IdsOk, NewOk, TriedOk, CountsOk, UsedIds, LimboOk, OrderOk, SameKeys, Swapped;
      ReadSlot(vvNew, b, i);
      ClearKeeps(Hs(), St(), (b, i), limbo);
      if vvNew[b, i] != EMPTY {
        var n := vvNew[b, i];
        assert info[n].nRefCount > 0;
        SameKeysUpdate(info, pos, n, AddRefs(info[n], -1));
        info := info[n := AddRefs(info[n], -1)];
        Put(vvNew, b, i, EMPTY);
        if info[n].nRefCount == 0 {
          Delete(n);
        }
      }
    }
  
    /** Takes an entry out of every new bucket; the count reaches zero, as MakeTried asserts. */
    method WithdrawFromNew(n: int)
      requires Shape() && n != EMPTY && n in info && NewOk(Hs(), info, TableOf(vvNew))
      modifies this`info, vvNew
      ensures St() == Withdrawn(old(St()), n)
    {
      hide TableOf, SlotsOf, NewOk, Without, Hashes.Position;
      ghost var t, info0 := TableOf(vvNew), info;
      RefsAreSlots(Hs(), info, t, n);
      WithoutNone(t, n);
      for bucket := 0 to NEW_BUCKET_COUNT
        invariant TableOf(vvNew) == Without(t, n, bucket) && n in info
        invariant info == info0[n := info0[n].(nRefCount := info[n].nRefCount)]
        invariant info[n].nRefCount == |SlotsOf(TableOf(vvNew), n)|
      {
        var i := Hs().Position(info[n].addr, true, bucket);
        WithoutStep(Hs(), info0, t, n, bucket);
        ReadSlot(vvNew, bucket, i);
        StillThere(t, n, bucket, (bucket, i));
        if vvNew[bucket, i] == n {
          SlotsWithout(TableOf(vvNew), (bucket, i), n);
          Put(vvNew, bucket, i, EMPTY);
          info := info[n := AddRefs(info[n], -1)];
        }
      }
      WithoutAll(Hs(), old(St()), n);
      assert info[n].nRefCount == 0;
    }
  
    method TakeOut(b: nat, i: nat, ghost limbo: set<int>) returns (n: int)
      requires Shape() && b < TRIED_BUCKET_COUNT && i < BUCKET_SIZE && vvTried[b, i] != EMPTY && Consistent(Hs(), St(), limbo)
      modifies this`info, this`nTried, vvTried
      ensures (b, i) in old(St().inTried) && n == old(St().inTried)[(b, i)] && n in old(info) && St() == Untried(old(St()), (b, i))
      ensures Consistent(Hs(), St(), limbo + {n})
    {
      hide TableOf, IdsOk, NewOk, TriedOk, CountsOk, UsedIds, LimboOk, OrderOk, SameKeys;
      ReadSlot(vvTried, b, i);
      UntryKeeps(Hs(), St(), (b, i), limbo);
      n := vvTried[b, i];
      info, nTried := info[n := info[n].(fInTried := false)], nTried - 1;
      Put(vvTried, b, i, EMPTY);
    }

    /** Moves the occupant of a tried slot back to the new table. */
    method EvictTried(b: nat, i: nat, ghost limbo: set<int>)
      requires Shape() && b < TRIED_BUCKET_COUNT && i < BUCKET_SIZE && vvTried[b, i] != EMPTY && Consistent(Hs(), St(), limbo)
      modifies this`info, this`ids, this`order, this`pos, this`nNew, this`nTried, vvNew, vvTried
      ensures (b, i) in old(St().inTried) && St() == Evicted(Hs(), old(St()), (b, i), limbo)
    {
      hide TableOf, IdsOk, NewOk, TriedOk, CountsOk, UsedIds, LimboOk, OrderOk, SameKeys, Swapped, Cleared, Whole, Hashes.NewBucket, Hashes.Position;
      var n := TakeOut(b, i, limbo);
      var ub := Hs().NewBucket(info[n].addr, info[n].known.source);
      var ui := Hs().Position(info[n].addr, true, ub);
      ghost var u := St();
      ClearNew(ub, ui, limbo + {n});
      StaysInLimbo(Hs(), u, (ub, ui), limbo, n);
      assert vvNew[ub, ui] == EMPTY;
      info, nNew := info[n := info[n].(nRefCount := 1)], nNew + 1;
      Put(vvNew, ub, ui, n);
    }
  
    /** Puts an entry in limbo into its tried slot. */
    method EnterTried(n: int)
      requires Shape() && Consistent(Hs(), St(), {n}) && Placed(info, {n})
      modifies this`info, this`ids, this`order, this`pos, this`nNew, this`nTried, vvNew, vvTried
      ensures Valid() && St() == Entered(Hs(), old(St()), n)
    {
      hide TableOf, IdsOk, NewOk, TriedOk, CountsOk, OrderOk, SameKeys, Swapped, Cleared, Whole, Evicted, Placed,
           Hashes.TriedBucket, Hashes.Position;
      EnterKeeps(Hs(), St(), n);
      var kb := Hs().TriedBucket(info[n].addr);
      var ki := Hs().Position(info[n].addr, false, kb);
      ReadSlot(vvTried, kb, ki);
      if vvTried[kb, ki] != EMPTY {
        EvictKeeps(Hs(), St(), (kb, ki), {n});
        EvictTried(kb, ki, {n});
      }
      ReadSlot(vvTried, kb, ki);
      assert vvTried[kb, ki] == EMPTY;
      info, nTried := info[n := info[n].(fInTried := true)], nTried + 1;
      Put(vvTried, kb, ki, n);
    }

    /** MakeTried; its assertions hold. */
    method MakeTried(n: int)
      requires Valid() && n in info && !info[n].fInTried
      modifies this`info, this`ids, this`order, this`pos, this`nNew, this`nTried, vvNew, vvTried
      ensures Valid() && St() == MadeTried(Hs(), old(St()), n)
    {
      hide TableOf, IdsOk, NewOk, TriedOk, CountsOk, LimboOk, OrderOk, SameKeys, Entered, Placed;
      WithdrawKeeps(Hs(), St(), n);
      WithdrawPlaced(info, n);
      WithdrawFromNew(n);
      nNew := nNew - 1;
      assert info[n].nRefCount == 0;
      EnterTried(n);
    }
  
    constructor (keyed: nat -> Hashes, nKey: nat)
      ensures Valid() && TimesOk(info) && fresh(vvNew) && fresh(vvTried)
      ensures this.keyed == keyed && this.nKey == nKey && St() == FRESH
    {
      this.keyed, this.nKey := keyed, nKey;
      vvNew := new int[NEW_BUCKET_COUNT, BUCKET_SIZE]((_, _) => EMPTY);
      vvTried := new int[TRIED_BUCKET_COUNT, BUCKET_SIZE]((_, _) => EMPTY);
      info, ids, order, pos, nNew, nTried, nIdCount := map[], map[], [], map[], 0, 0, 0;
      new;
      assert TableOf(vvNew) == map[] && TableOf(vvTried) == map[];
      FreshOk(Hs());
    }

    /** Looks for a bucket holding a new entry, from a random start; there always is one. */
    method FindBucket(n: int, start: nat) returns (bucket: int)
      requires Valid() && n in info && !info[n].fInTried
      ensures 0 <= bucket < NEW_BUCKET_COUNT && vvNew[bucket, Hs().Position(info[n].addr, true, bucket)] == n
    {
      hide TableOf, IdsOk, TriedOk, CountsOk, OrderOk, SameKeys, Hashes.Position, NewOk;
      ghost var s := SomeSlot(Hs(), St(), n);
      ReadSlot(vvNew, s.0, s.1);
      ghost var hit := Rotation(start, s.0);
      for k := 0 to NEW_BUCKET_COUNT
        invariant k <= hit
      {
        var b := (k + start) % NEW_BUCKET_COUNT;
        if vvNew[b, Hs().Position(info[n].addr, true, b)] == n {
          return b;
        }
      }
      assert false;
    }
  
    /** Good_: a known service becomes tried, with the success recorded. */
    method Good(addr: Service, time: int, start: nat)
      requires Valid()
      modifies this`info, this`ids, this`order, this`pos, this`nNew, this`nTried, vvNew, vvTried
      ensures Valid() && St() == Praised(Hs(), old(St()), addr, time)
    {
      hide TableOf, TriedOk, CountsOk, OrderOk, SameKeys, NewOk, MadeTried, Placed;
      var found, n := Find(addr.ip);
      if !found || info[n].addr != addr {
        return;
      }
      TouchInv(Hs(), St(), n, Success(info[n].known, time));
      info := info[n := info[n].(known := Success(info[n].known, time))];
      if info[n].fInTried {
        return;
      }
      var bucket := FindBucket(n, start);
      if bucket == -1 {
        return;
      }
      MakeTried(n);
    }
  
    /** The tail of Add_: the entry takes its slot if it may, and is dropped if it has no other. */
    method InsertNew(n: int, source: NetAddr, now: int)
      requires Shape() && Consistent(Hs(), St(), {}) && Placed(info, {n})
      requires n in info && !info[n].fInTried && info[n].nRefCount < NEW_BUCKETS_PER_ADDRESS
      modifies this`info, this`ids, this`order, this`pos, this`nNew, vvNew
      ensures Valid() && old(Whole(St()))
      ensures St() == Inserted(old(St()), Hs().NewSlot(old(info)[n].addr, source), n, now)
    {
      hide TableOf, IdsOk, NewOk, TriedOk, CountsOk, OrderOk, SameKeys, Swapped, Cleared, Whole, Placed, LimboOk,
           Hashes.NewBucket, Hashes.Position, AddrInfo.IsTerrible;
      InsertKeeps(Hs(), St(), source, n, now);
      var b := Hs().NewBucket(info[n].addr, source);
      var i := Hs().Position(info[n].addr, true, b);
      ReadSlot(vvNew, b, i);
      ClearKeeps(Hs(), St(), (b, i), {});
      if vvNew[b, i] != n {
        var insert := vvNew[b, i] == EMPTY;
        if !insert {
          var existing := info[vvNew[b, i]];
          insert := existing.IsTerrible(now) || (existing.nRefCount > 1 && info[n].nRefCount == 0);
        }
        if insert {
          ClearEffect(St(), (b, i));
          ClearOther(St(), (b, i), n);
          ClearNew(b, i, {});
          info := info[n := AddRefs(info[n], 1)];
          Put(vvNew, b, i, n);
        } else if info[n].nRefCount == 0 {
          Delete(n);
        }
      }
    }
  
    /** The number of slots doubles the odds against one more. */
    method Factor(refs: int) returns (factor: int)
      requires refs >= 0
      ensures factor == Pow2(refs)
    {
      factor := 1;
      for k := 0 to refs
        invariant factor == Pow2(k)
      {
        factor := factor * 2;
      }
    }

    /** Add_ for an address already known; reports whether it should get another slot. */
    method Refresh(n: int, nTime: int, nServices: bv64, penalty: int, now: int, roll: nat) returns (again: bool)
      requires Valid() && n in info
      modifies this`info
      ensures info == old(info)[n := old(info)[n].(known := Refreshed(old(info)[n].known, nTime, nServices, penalty, now))]
      ensures 0 <= info[n].nRefCount <= NEW_BUCKETS_PER_ADDRESS && again == OneMoreSlot(info[n], nTime, roll)
    {
      hide TableOf, IdsOk, TriedOk, CountsOk, OrderOk, SameKeys, NewOk, Refreshed;
      RefsInRange(Hs(), info, TableOf(vvNew), n);
      info := info[n := info[n].(known := Refreshed(info[n].known, nTime, nServices, penalty, now))];
      var known := info[n].known;
      if nTime == 0 || (known.nTime != 0 && nTime <= known.nTime) {
        return false;
      }
      if info[n].fInTried || info[n].nRefCount == NEW_BUCKETS_PER_ADDRESS {
        return false;
      }
      var factor := Factor(info[n].nRefCount);
      again := !(factor > 1 && roll % factor != 0);
    }

    /** Add_: a known address keeps its entry, an unknown one is stored exactly if its slot is open;
        one other new entry may be displaced, nothing else changes. */
    method Add(addr: Service, nTime: int, nServices: bv64, routable: bool, source: NetAddr, penalty: int, now: int, roll: nat)
      returns (isNew: bool)
      requires Valid()
      modifies this`info, this`ids, this`order, this`pos, this`nNew, this`nIdCount, vvNew
      ensures Valid() && isNew == (routable && addr.ip !in old(ids)) && nIdCount >= old(nIdCount)
      ensures !routable ==> St() == old(St())
      ensures Spares(old(St()), St(), now)
      ensures routable && addr.ip in old(ids) ==>
                var n := old(ids)[addr.ip];
                && Undisturbed(old(St()), St(), n) && n in info && n in old(info) && info[n].addr == old(info)[n].addr
                && info[n].known == Refreshed(old(info)[n].known, nTime, nServices, penalty, now)
      ensures routable && addr.ip in old(ids) ==>
                var n := old(ids)[addr.ip];
                n in old(info) && old(info)[n].nRefCount >= 0 &&
                var e := old(info)[n].(known := Refreshed(old(info)[n].known, nTime, nServices, penalty, now));
                var t := SetInfo(old(St()), n, e);
                if OneMoreSlot(e, nTime, roll) then Whole(t) && St() == Inserted(t, Hs().NewSlot(e.addr, source), n, now) else St() == t
      ensures isNew ==>
                var t := Created(old(St()), NewInfo(addr, Penalised(nTime, penalty), nServices, source)).(nNew := old(nNew) + 1);
                Whole(t) && old(nIdCount) in t.info && St() == Inserted(t, Hs().NewSlot(addr, source), old(nIdCount), now)
      ensures isNew ==>
                var n := old(nIdCount);
                && Undisturbed(old(St()), St(), n)
                && (n in info <==> OpenToNew(old(St()), Hs().NewSlot(addr, source), now))
                && (n in info ==> info[n].addr == addr && !info[n].fInTried && info[n].known == Known(Penalised(nTime, penalty), nServices, source, 0, 0, 0))
    {
      hide TableOf, TriedOk, CountsOk, OrderOk, SameKeys, NewOk, Placed, Refreshed, Inserted, OpenToNew, Whole, Hashes.NewSlot, Spares, Undisturbed;
      SparesSame(St(), now);
      if !routable {
        return false;
      }
      var found, n := Find(addr.ip);
      ghost var st := St();
      if found {
        isNew := false;
        ghost var known := Refreshed(info[n].known, nTime, nServices, penalty, now);
        TouchInv(Hs(), st, n, known);
        TouchDisturbs(st, n, known);
        TouchSpares(st, n, known, now);
        var again := Refresh(n, nTime, nServices, penalty, now, roll);
        if again {
          AddKnownEffect(Hs(), st, n, known, source, now);
          InsertNew(n, source, now);
        }
      } else {
        isNew := true;
        var e := NewInfo(addr, Penalised(nTime, penalty), nServices, source);
        AddNewEffect(Hs(), st, e, source, now);
        n := Create(addr, Penalised(nTime, penalty), nServices, source);
        nNew := nNew + 1;
        InsertNew(n, source, now);
      }
    }
  
    /** Attempt_. */
    method Attempt(addr: Service, time: int)
      requires Valid()
      modifies this`info
      ensures Valid() && St() == Annotated(old(St()), addr, Attempted(time))
    {
      hide TableOf, TriedOk, CountsOk, OrderOk, SameKeys, NewOk, Placed;
      var found, n := Find(addr.ip);
      if !found || info[n].addr != addr {
        return;
      }
      TouchInv(Hs(), St(), n, Attempted(time)(info[n].known));
      info := info[n := info[n].(known := Attempted(time)(info[n].known))];
    }

    /** Connected_. */
    method Connected(addr: Service, time: int)
      requires Valid()
      modifies this`info
      ensures Valid() && St() == Annotated(old(St()), addr, Seen(time))
    {
      hide TableOf, TriedOk, CountsOk, OrderOk, SameKeys, NewOk, Placed;
      var found, n := Find(addr.ip);
      if !found || info[n].addr != addr {
        return;
      }
      TouchInv(Hs(), St(), n, Seen(time)(info[n].known));
      if time - info[n].known.nTime > 20 * 60 {
        info := info[n := info[n].(known := info[n].known.(nTime := time))];
      } else {
        assert info[n := info[n].(known := info[n].known)] == info;
      }
    }

    /** GetAddr_: shuffles the order as it goes and returns distinct usable entries, at most 23% and
        2500 of them, and all there are if fewer. */
    method GetAddr(now: int, choose: nat -> nat) returns (found: seq<AddrInfo>)
      requires Valid()
      modifies this`order, this`pos
      ensures Valid() && St() == old(St()).(order := order, pos := pos)
      ensures |found| <= Share(|order|)
      ensures forall i | 0 <= i < |found| :: Usable(St(), found[i], now)
      ensures forall i, j | 0 <= i < j < |found| :: found[i].addr.ip != found[j].addr.ip
      ensures |found| < Share(|order|) ==> forall n | n in info && Healthy(info[n].known, now) :: info[n] in found
    {
      hide TableOf, TriedOk, CountsOk, IdsOk, SameKeys, NewOk, Placed, UsedIds, OrderOk, Swapped, AddrInfo.IsTerrible, Healthy, Share;
      var limit := Share(|order|);
      found := [];
      var k := 0;
      assert order[..0] == [];
      while k < |order| && |found| < limit
        invariant Valid() && St() == old(St()).(order := order, pos := pos) && k <= |order| == |old(order)|
        invariant InfosOf(info, order[..k]) && found == Collected(info, order[..k], now) && |found| <= limit
      {
        var r := choose(k) % (|order| - k) + k;
        SwapInv(Hs(), St(), k, r);
        SwapPrefix(St(), k, r);
        SwapRandom(k, r);
        KnownOrder(info, pos, order);
        assert order[k] in info;
        assert order[..k + 1][..k] == order[..k];
        if !info[order[k]].IsTerrible(now) {
          found := found + [info[order[k]]];
        }
        k := k + 1;
      }
      CollectedUsable(Hs(), St(), k, now);
      if |found| < limit {
        CollectedAll(info, pos, order, now);
        assert order[..k] == order;
      }
    }
  
    /** One public operation. `was` and `count` are the entries and the next id at an earlier time. */
    method Step(op: Op, ghost was: Infos, ghost count: int)
      requires Valid() && Aged(was, count, info) && nIdCount >= count
      modifies this`info, this`ids, this`order, this`pos, this`nNew, this`nTried, this`nIdCount, vvNew, vvTried
      ensures Valid() && nKey == old(nKey) && Aged(was, count, info) && nIdCount >= count
      ensures old(TimesOk(info)) && op.Timely() ==> TimesOk(info)
    {
      hide TableOf, TriedOk, CountsOk, OrderOk, SameKeys, NewOk, IdsOk, Placed, Praised, OpenToNew, TimesOk, Undisturbed, Refreshed, Aged,
           Spares, Annotated, Inserted, Whole;
      ghost var st := St();
      match op {
        case AddOp(addr, nTime, nServices, routable, source, penalty, now, roll) =>
          var isNew := Add(addr, nTime, nServices, routable, source, penalty, now, roll);
          ghost var n := if addr.ip in st.ids then st.ids[addr.ip] else st.nIdCount;
          AgedAdd(was, count, st, St(), n, routable, nTime, nServices, penalty, now);
        case GoodOp(addr, time, start) =>
          Good(addr, time, start);
          AgedGood(Hs(), was, count, st, addr, time);
          if time > 0 && TimesOk(st.info) {
            GoodTimes(Hs(), st, addr, time);
          }
        case AttemptOp(addr, time) =>
          Attempt(addr, time);
          AgedNote(was, count, st, addr, Attempted(time));
          if time >= 0 {
            NoteTimes(st, addr, Attempted(time));
          }
        case ConnectedOp(addr, time) =>
          Connected(addr, time);
          AgedNote(was, count, st, addr, Seen(time));
          NoteTimes(st, addr, Seen(time));
        case GetAddrOp(now, choose) =>
          var _ := GetAddr(now, choose);
      }
    }

    /** Any run of the public operations keeps the manager consistent; with sensible times it also
        keeps the time stamps the check asks for. An entry keeps its address, and the time it was last heard
        of never moves back. */
    method Run(ops: seq<Op>)
      requires Valid()
      modifies this`info, this`ids, this`order, this`pos, this`nNew, this`nTried, this`nIdCount, vvNew, vvTried
      ensures Valid() && nKey == old(nKey)
      ensures old(TimesOk(info)) && (forall i | 0 <= i < |ops| :: ops[i].Timely()) ==> TimesOk(info)
      ensures |order| == nNew + nTried
      ensures Aged(old(info), old(nIdCount), info)
    {
      hide TableOf, TriedOk, CountsOk, OrderOk, SameKeys, NewOk, IdsOk, Placed, TimesOk, Aged;
      AgedStart(Hs(), St());
      for i := 0 to |ops|
        invariant Valid() && nKey == old(nKey) && nIdCount >= old(nIdCount) && Aged(old(info), old(nIdCount), info)
        invariant old(TimesOk(info)) && (forall j | 0 <= j < i :: ops[j].Timely()) ==> TimesOk(info)
      {
        Step(ops[i], old(info), old(nIdCount));
      }
      SizeIsSum(Hs(), St());
    }
  }
}
