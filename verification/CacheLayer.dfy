/** One write-back cache layer over a flat view, as values: what a layer adds to the view
    below it, when its DIRTY and FRESH flags are right, and what writing it down does. */
module CacheLayer {
  import opened Primitives
  import opened ChainSpec

  datatype CacheEntry = CacheEntry(coins: Coin, isDirty: bool, isFresh: bool)
  datatype NullifierEntry = NullifierEntry(entered: bool, isDirty: bool)

  type CoinCache = map<Hash, CacheEntry>
  type NullifierCache = map<Hash, NullifierEntry>

  /** The flat view through a layer. */
  ghost function Through(cache: CoinCache, below: CoinMap): CoinMap
  {
    map t | t in cache.Keys + below.Keys && (t !in cache || cache[t].coins.vout != []) ::
      if t in cache then cache[t].coins else below[t]
  }

  lemma ThroughEmpty(below: CoinMap)
    ensures Through(map[], below) == below
  {
  }

  ghost predicate CoinsOk(m: CoinMap) {
    forall t | t in m :: m[t].Clean() && m[t].vout != []
  }

  lemma ThroughOk(cache: CoinCache, below: CoinMap, known: set<Hash>)
    requires CoinsOk(below) && LayerOk(cache, below, known)
    ensures CoinsOk(Through(cache, below))
  {
    forall t | t in cache ensures cache[t].coins.Clean() {
      assert EntryOk(cache[t], t, below, known);
    }
  }

  ghost function NullifiersThrough(cache: NullifierCache, below: set<Hash>): (r: set<Hash>)
    ensures forall nf :: nf in r <==> if nf in cache then cache[nf].entered else nf in below
  {
    (set nf | nf in cache && cache[nf].entered) + (below - cache.Keys)
  }

  /** FRESH marks exactly the entries missing below; an entry that is not DIRTY agrees with the
      view below; and whatever the layer took from below is in the cache below, `known`. */
  ghost predicate EntryOk(e: CacheEntry, t: Hash, below: CoinMap, known: set<Hash>) {
    && e.coins.Clean()
    && (e.isFresh <==> t !in below)
    && (t in below ==> t in known)
    && (!e.isDirty ==> if t in below then e.coins == below[t] else e.coins.vout == [])
  }

  ghost predicate LayerOk(cache: CoinCache, below: CoinMap, known: set<Hash>) {
    forall t | t in cache :: EntryOk(cache[t], t, below, known)
  }

  ghost predicate NullifiersOk(cache: NullifierCache, below: set<Hash>) {
    forall nf | nf in cache && !cache[nf].isDirty :: cache[nf].entered == (nf in below)
  }

  // ---------------------------------------------------------------- writing a layer down

  /** What the loop of BatchWrite does to one entry of the receiving cache; None when the entry is erased. */
  ghost function WriteEntry(parent: CoinCache, t: Hash, e: CacheEntry): Option<CacheEntry> {
    if !e.isDirty then if t in parent then Some(parent[t]) else None
    else if t !in parent then
      if e.coins.IsPruned() then None else Some(CacheEntry(e.coins, true, true))
    else if parent[t].isFresh && e.coins.IsPruned() then None
    else Some(CacheEntry(e.coins, true, parent[t].isFresh))
  }

  /** The receiving cache after the entries in `done` have been written. */
  ghost predicate Written(parent: CoinCache, child: CoinCache, done: set<Hash>, after: CoinCache) {
    && (forall t | t in after :: t in parent || t in done)
    && (forall t | t in parent && t !in done :: t in after && after[t] == parent[t])
    && (forall t | t in done && t in child ::
          match WriteEntry(parent, t, child[t])
          case None => t !in after
          case Some(e) => t in after && after[t] == e)
  }

  /** The assertion of BatchWrite: an entry that the receiving cache does not hold is FRESH. */
  lemma MissingAboveIsFresh(parent: CoinCache, child: CoinCache, below: CoinMap, t: Hash)
    requires LayerOk(child, Through(parent, below), parent.Keys)
    requires t in child && t !in parent
    ensures child[t].isFresh && t !in below
  {
    assert EntryOk(child[t], t, Through(parent, below), parent.Keys);
  }

  /** Writing a child layer down keeps the view the child showed, and the receiving layer's flags stay right. */
  lemma WriteDown(parent: CoinCache, child: CoinCache, below: CoinMap, known: set<Hash>, after: CoinCache)
    requires CoinsOk(below) && LayerOk(parent, below, known)
    requires LayerOk(child, Through(parent, below), parent.Keys)
    requires Written(parent, child, child.Keys, after)
    ensures LayerOk(after, below, known)
    ensures Through(after, below) == Through(child, Through(parent, below))
  {
    var mid := Through(parent, below);
    forall t ensures t in after ==> EntryOk(after[t], t, below, known)
    {
      WriteDownAt(parent, child, below, known, after, t);
    }
    forall t ensures SameAt(Through(after, below), Through(child, mid), t)
    {
      WriteDownAt(parent, child, below, known, after, t);
    }
    SameMaps(Through(after, below), Through(child, mid));
  }

  ghost predicate SameAt(a: CoinMap, b: CoinMap, t: Hash) {
    (t in a <==> t in b) && (t in a ==> a[t] == b[t])
  }

  lemma SameMaps(a: CoinMap, b: CoinMap)
    requires forall t :: SameAt(a, b, t)
    ensures a == b
  {
    forall t ensures t in a <==> t in b {
      assert SameAt(a, b, t);
    }
    forall t | t in a ensures a[t] == b[t] {
      assert SameAt(a, b, t);
    }
  }

  lemma WriteDownAt(parent: CoinCache, child: CoinCache, below: CoinMap, known: set<Hash>, after: CoinCache, t: Hash)
    requires CoinsOk(below) && LayerOk(parent, below, known)
    requires LayerOk(child, Through(parent, below), parent.Keys)
    requires Written(parent, child, child.Keys, after)
    ensures t in after ==> EntryOk(after[t], t, below, known)
    ensures SameAt(Through(after, below), Through(child, Through(parent, below)), t)
  {
    var mid := Through(parent, below);
    if t in child {
      assert EntryOk(child[t], t, mid, parent.Keys);
      CleanPruned(child[t].coins);
    }
    if t in parent {
      assert EntryOk(parent[t], t, below, known);
    }
  }

  ghost predicate NullifiersWritten(parent: NullifierCache, child: NullifierCache, done: set<Hash>, after: NullifierCache) {
    forall nf ::
      (nf in after <==> nf in parent || (nf in done && nf in child && child[nf].isDirty)) &&
      (nf in after ==>
         after[nf] == if nf in done && nf in child && child[nf].isDirty
                      then if nf !in parent then NullifierEntry(child[nf].entered, true)
                           else if parent[nf].entered != child[nf].entered then NullifierEntry(child[nf].entered, true)
                           else parent[nf]
                      else parent[nf])
  }

  lemma NullifiersWriteDown(parent: NullifierCache, child: NullifierCache, below: set<Hash>, after: NullifierCache)
    requires NullifiersOk(parent, below)
    requires NullifiersOk(child, NullifiersThrough(parent, below))
    requires NullifiersWritten(parent, child, child.Keys, after)
    ensures NullifiersOk(after, below)
    ensures NullifiersThrough(after, below) == NullifiersThrough(child, NullifiersThrough(parent, below))
  {
  }

  // ---------------------------------------------------------------- single steps

  /** Caching what the view below answered changes nothing. */
  lemma FetchKeeps(cache: CoinCache, below: CoinMap, known: set<Hash>, known': set<Hash>, t: Hash, c: Coin)
    requires LayerOk(cache, below, known) && known <= known' && t !in cache && c.Clean()
    requires if t in below then c == below[t] && c.vout != [] && t in known' else c.vout == []
    ensures var cache' := cache[t := CacheEntry(c, false, c.IsPruned())];
            LayerOk(cache', below, known') && Through(cache', below) == Through(cache, below)
  {
    CleanPruned(c);
    var cache' := cache[t := CacheEntry(c, false, c.IsPruned())];
    ThroughStep(cache, below, t, cache'[t]);
    forall x | x in cache' ensures EntryOk(cache'[x], x, below, known') {
      assert x in cache ==> EntryOk(cache[x], x, below, known);
    }
  }

  lemma KnownGrows(cache: CoinCache, below: CoinMap, known: set<Hash>, known': set<Hash>)
    requires LayerOk(cache, below, known) && known <= known'
    ensures LayerOk(cache, below, known')
  {
    forall x | x in cache ensures EntryOk(cache[x], x, below, known') {
      assert EntryOk(cache[x], x, below, known);
    }
  }

  /** Writing one entry of a layer straight to the database. */
  lemma DbStep(cache: CoinCache, below: CoinMap, rest: set<Hash>, t: Hash)
    requires CoinsOk(below) && LayerOk(cache, below, below.Keys) && t in rest && rest <= cache.Keys
    ensures Through(cache - (rest - {t}), below) ==
            if cache[t].isDirty then SetCoin(Through(cache - rest, below), t, cache[t].coins)
            else Through(cache - rest, below)
  {
    assert EntryOk(cache[t], t, below, below.Keys);
    var done := cache - rest;
    assert cache - (rest - {t}) == done[t := cache[t]];
    assert t !in done;
    ThroughStep(done, below, t, cache[t]);
  }

  lemma ThroughStep(cache: CoinCache, below: CoinMap, t: Hash, e: CacheEntry)
    ensures Through(cache[t := e], below) == SetCoin(Through(cache, below), t, e.coins)
  {
    var a, b := Through(cache[t := e], below), SetCoin(Through(cache, below), t, e.coins);
    forall x ensures SameAt(a, b, x) {
    }
    SameMaps(a, b);
  }

  lemma NullifierFetchKeeps(cache: NullifierCache, below: set<Hash>, nf: Hash)
    requires NullifiersOk(cache, below) && nf !in cache
    ensures var cache' := cache[nf := NullifierEntry(nf in below, false)];
            NullifiersOk(cache', below) && NullifiersThrough(cache', below) == NullifiersThrough(cache, below)
  {
  }

  lemma NullifierStep(cache: NullifierCache, below: set<Hash>, nf: Hash, entered: bool)
    requires NullifiersOk(cache, below)
    ensures var cache' := cache[nf := NullifierEntry(entered, true)];
            && NullifiersOk(cache', below)
            && NullifiersThrough(cache', below) ==
               if entered then NullifiersThrough(cache, below) + {nf} else NullifiersThrough(cache, below) - {nf}
  {
  }

  /** The cache after a modification ends: a spent record that nothing below has is dropped. */
  function Finished(cache: CoinCache, t: Hash, c: Coin): CoinCache
    requires t in cache
  {
    if cache[t].isFresh && c.vout == [] then cache - {t} else cache[t := CacheEntry(c, true, cache[t].isFresh)]
  }

  lemma FinishedView(cache: CoinCache, below: CoinMap, known: set<Hash>, t: Hash, c: Coin)
    requires LayerOk(cache, below, known) && t in cache && c.Clean()
    ensures LayerOk(Finished(cache, t, c), below, known)
    ensures Through(Finished(cache, t, c), below) == SetCoin(Through(cache, below), t, c)
  {
    var e := CacheEntry(c, true, cache[t].isFresh);
    assert EntryOk(cache[t], t, below, known);
    ThroughStep(cache, below, t, e);
    if e.isFresh && c.vout == [] {
      var a, b := Through(cache - {t}, below), Through(cache[t := e], below);
      forall x ensures SameAt(a, b, x) {
      }
      SameMaps(a, b);
    }
  }

  /** A cached record is what the view shows for its transaction. */
  lemma CachedRecord(cache: CoinCache, below: CoinMap, known: set<Hash>, t: Hash)
    requires LayerOk(cache, below, known) && t in cache
    ensures var c := cache[t].coins; var m := Through(cache, below);
            c.Clean() && if c.vout != [] then t in m && m[t] == c else t !in m
  {
    assert EntryOk(cache[t], t, below, known);
  }

  lemma NotCached(cache: CoinCache, below: CoinMap, t: Hash)
    requires t !in cache
    ensures SameAt(Through(cache, below), below, t)
  {
  }

  /** Marking an entry dirty changes no view. */
  lemma DirtyView(cache: CoinCache, below: CoinMap, known: set<Hash>, t: Hash)
    requires LayerOk(cache, below, known) && t in cache
    ensures var cache' := cache[t := cache[t].(isDirty := true)];
            LayerOk(cache', below, known) && Through(cache', below) == Through(cache, below)
  {
    assert EntryOk(cache[t], t, below, known);
    var a, b := Through(cache[t := cache[t].(isDirty := true)], below), Through(cache, below);
    forall x ensures SameAt(a, b, x) {
    }
    SameMaps(a, b);
  }

  lemma EmptyLayer(below: CoinMap, nulls: set<Hash>, known: set<Hash>)
    ensures LayerOk(map[], below, known) && Through(map[], below) == below
    ensures NullifiersOk(map[], nulls) && NullifiersThrough(map[], nulls) == nulls
  {
  }

  // ---------------------------------------------------------------- the loops of BatchWrite

  lemma NothingWritten(parent: CoinCache, child: CoinCache)
    ensures Written(parent, child, {}, parent)
  {
  }

  /** One iteration: the entry of t is replaced, kept or erased. */
  lemma WrittenStep(parent: CoinCache, child: CoinCache, done: set<Hash>, cur: CoinCache, t: Hash)
    requires Written(parent, child, done, cur) && t in child && t !in done
    ensures t in cur <==> t in parent
    ensures Written(parent, child, done + {t},
              match WriteEntry(cur, t, child[t]) case None => cur - {t} case Some(e) => cur[t := e])
  {
  }

  lemma NoNullifiersWritten(parent: NullifierCache, child: NullifierCache)
    ensures NullifiersWritten(parent, child, {}, parent)
  {
  }

  lemma NullifiersWrittenStep(parent: NullifierCache, child: NullifierCache, done: set<Hash>, cur: NullifierCache, nf: Hash)
    requires NullifiersWritten(parent, child, done, cur) && nf in child && nf !in done
    ensures nf in cur <==> nf in parent
    ensures nf in cur ==> cur[nf] == parent[nf]
    ensures NullifiersWritten(parent, child, done + {nf},
              if child[nf].isDirty && (nf !in parent || parent[nf].entered != child[nf].entered)
              then cur[nf := NullifierEntry(child[nf].entered, true)] else cur)
  {
  }
}
