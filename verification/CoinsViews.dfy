/** The coins database and the stack of write-back caches over it. Every view of the stack
    answers like one flat ledger, `View()`. */
module CoinsViews {
  import opened Primitives
  import opened ChainSpec
  import opened CacheLayer

  /** What a view shows: the flat ledger and the block it belongs to. */
  datatype ViewState = ViewState(ledger: Ledger, block: Hash)

  /** What a cache is backed by. */
  datatype Backend = Db(db: CoinsViewDB) | Cache(cache: CoinsViewCache) {
    ghost function Footprint(): set<object> {
      match this case Db(d) => {d} case Cache(c) => c.Repr
    }

    ghost function Rank(): nat {
      match this case Db(_) => 0 case Cache(c) => c.depth
    }

    ghost predicate Valid()
      reads Footprint()
      decreases Rank(), 1
    {
      match this case Db(d) => d.Valid() case Cache(c) => c.Valid()
    }

    ghost function View(): (v: ViewState)
      requires Valid()
      reads Footprint()
      ensures CoinsOk(v.ledger.coins)
      decreases Rank(), 3
    {
      match this case Db(d) => d.View() case Cache(c) => c.View()
    }

    /** No modification is in progress. */
    ghost predicate Idle()
      reads Footprint()
    {
      match this case Db(_) => true case Cache(c) => c in c.Repr && !c.hasModifier
    }

    /** The transactions held by the view itself, without asking the view below it. */
    ghost function Held(): set<Hash>
      reads Footprint()
    {
      match this case Db(d) => d.coins.Keys case Cache(c) => if c in c.Repr then c.cacheCoins.Keys else {}
    }
  }

  /** The chain-state database: a flat map. */
  class CoinsViewDB {
    var coins: CoinMap
    var nulls: set<Hash>
    var hashBlock: Hash
    var hashAnchor: Hash

    ghost predicate Valid()
      reads this
    {
      CoinsOk(coins)
    }

    ghost function View(): ViewState
      reads this
    {
      ViewState(Ledger(coins, nulls, hashAnchor), hashBlock)
    }

    constructor (emptyRoot: Hash)
      ensures Valid() && View() == ViewState(Ledger(map[], {}, emptyRoot), NULL_HASH)
    {
      coins, nulls, hashBlock, hashAnchor := map[], {}, NULL_HASH, emptyRoot;
    }

    method GetCoins(t: Hash) returns (ok: bool, c: Coin)
      ensures ok == (t in coins) && c == CoinAt(coins, t)
    {
      if t in coins {
        return true, coins[t];
      }
      return false, EMPTY_COIN;
    }

    /** One record: a spent one is erased. */
    method BatchWriteCoins(t: Hash, c: Coin)
      requires c.Clean()
      modifies `coins
      ensures coins == SetCoin(old(coins), t, c)
    {
      CleanPruned(c);
      if c.IsPruned() {
        coins := coins - {t};
      } else {
        coins := coins[t := c];
      }
    }

    method WriteCoins(mapCoins: CoinCache)
      requires Valid() && LayerOk(mapCoins, coins, coins.Keys)
      modifies `coins
      ensures Valid() && coins == Through(mapCoins, old(coins))
    {
      hide Through, CoinsOk, SetCoin;
      ghost var was := coins;
      var rest := mapCoins.Keys;
      assert mapCoins - rest == map[];
      ThroughEmpty(was);
      while rest != {}
        invariant rest <= mapCoins.Keys && coins == Through(mapCoins - rest, was)
        decreases |rest|
      {
        var t :| t in rest;
        DbStep(mapCoins, was, rest, t);
        assert EntryOk(mapCoins[t], t, was, was.Keys);
        if mapCoins[t].isDirty {
          BatchWriteCoins(t, mapCoins[t].coins);
        }
        rest := rest - {t};
      }
      assert mapCoins - {} == mapCoins;
      ThroughOk(mapCoins, was, was.Keys);
    }

    method WriteNullifiers(mapNulls: NullifierCache)
      requires NullifiersOk(mapNulls, nulls)
      modifies `nulls
      ensures nulls == NullifiersThrough(mapNulls, old(nulls))
    {
      ghost var was := nulls;
      var rest := mapNulls.Keys;
      while rest != {}
        invariant rest <= mapNulls.Keys
        invariant forall nf :: nf in nulls <==>
                    if nf in mapNulls && nf !in rest then nf in NullifiersThrough(mapNulls, was) else nf in was
        decreases |rest|
      {
        var nf :| nf in rest;
        if mapNulls[nf].isDirty {
          nulls := if mapNulls[nf].entered then nulls + {nf} else nulls - {nf};
        }
        rest := rest - {nf};
      }
    }

    method BatchWrite(mapCoins: CoinCache, block: Hash, anchor: Hash, mapNulls: NullifierCache)
      requires Valid()
      requires LayerOk(mapCoins, coins, coins.Keys) && NullifiersOk(mapNulls, nulls)
      modifies this
      ensures Valid()
      ensures coins == Through(mapCoins, old(coins)) && nulls == NullifiersThrough(mapNulls, old(nulls))
      ensures hashBlock == if block != NULL_HASH then block else old(hashBlock)
      ensures hashAnchor == if anchor != NULL_HASH then anchor else old(hashAnchor)
    {
      WriteCoins(mapCoins);
      WriteNullifiers(mapNulls);
      if block != NULL_HASH {
        hashBlock := block;
      }
      if anchor != NULL_HASH {
        hashAnchor := anchor;
      }
    }
  }

  /** A write-back cache over another view. */
  class CoinsViewCache {
    const base: Backend
    var cacheCoins: CoinCache
    var cacheNulls: NullifierCache
    var hashBlock: Hash
    var hashAnchor: Hash
    var hasModifier: bool
    var modified: Hash

    ghost const Repr: set<object>
    ghost const depth: nat

    ghost predicate Valid()
      reads Repr
      ensures Valid() ==> this in Repr
      decreases depth, 0
    {
      && this in Repr
      && Repr == {this} + base.Footprint() && this !in base.Footprint()
      && depth == base.Rank() + 1
      && base.Valid() && base.Idle()
      && LayerOk(cacheCoins, base.View().ledger.coins, base.Held())
      && NullifiersOk(cacheNulls, base.View().ledger.nulls)
      && (hasModifier ==> modified in cacheCoins && cacheCoins[modified].isDirty)
    }

    ghost function View(): (v: ViewState)
      requires Valid()
      reads Repr
      ensures CoinsOk(v.ledger.coins)
      decreases depth, 2
    {
      var b := base.View();
      ThroughOk(cacheCoins, b.ledger.coins, base.Held());
      ViewState(Ledger(Through(cacheCoins, b.ledger.coins), NullifiersThrough(cacheNulls, b.ledger.nulls),
                       if hashAnchor != NULL_HASH then hashAnchor else b.ledger.anchor),
                if hashBlock != NULL_HASH then hashBlock else b.block)
    }

    /** The fields a coin lookup leaves alone. */
    ghost function Others(): (NullifierCache, Hash, Hash, bool, Hash)
      reads this
    {
      (cacheNulls, hashBlock, hashAnchor, hasModifier, modified)
    }

    constructor (baseIn: Backend)
      requires baseIn.Valid() && baseIn.Idle()
      ensures Valid() && base == baseIn && fresh(Repr - baseIn.Footprint()) && !hasModifier
      ensures View() == baseIn.View() && hashBlock == NULL_HASH && hashAnchor == NULL_HASH
    {
      base := baseIn;
      cacheCoins, cacheNulls, hashBlock, hashAnchor := map[], map[], NULL_HASH, NULL_HASH;
      hasModifier, modified := false, NULL_HASH;
      Repr := {this} + baseIn.Footprint();
      depth := baseIn.Rank() + 1;
      new;
      ThroughEmpty(base.View().ledger.coins);
      assert NullifiersThrough(map[], base.View().ledger.nulls) == base.View().ledger.nulls;
    }

    // -------------------------------------------------------------- reading

    method BaseGetCoins(t: Hash) returns (ok: bool, c: Coin)
      requires base.Valid() && base.Rank() < depth
      modifies base.Footprint()
      ensures base.Valid() && base.View() == old(base.View())
      ensures old(base.Held()) <= base.Held() && base.Idle() == old(base.Idle())
      ensures c.Clean() && (ok || c == EMPTY_COIN)
      ensures var m := base.View().ledger.coins;
              if t in m then ok && c == m[t] && c.vout != [] && t in base.Held() else c.vout == []
      decreases depth, 0
    {
      match base {
        case Db(d) => ok, c := d.GetCoins(t);
        case Cache(b) => ok, c := b.GetCoins(t);
      }
    }

    /** FetchCoins and GetCoins: reading fills the caches on the way down and changes no view. */
    method GetCoins(t: Hash) returns (ok: bool, c: Coin)
      requires Valid()
      modifies Repr
      ensures Valid() && View() == old(View()) && base.View() == old(base.View()) && Others() == old(Others())
      ensures forall x | x in old(cacheCoins) :: x in cacheCoins && cacheCoins[x] == old(cacheCoins[x])
      ensures ok == (t in cacheCoins) && c == if ok then cacheCoins[t].coins else EMPTY_COIN
      ensures c.Clean()
      ensures if c.vout != [] then t in View().ledger.coins && c == View().ledger.coins[t] else t !in View().ledger.coins
      decreases depth, 1
    {
      hide LayerOk, Through, NullifiersOk, NullifiersThrough, CoinsOk;
      if t in cacheCoins {
        CachedRecord(cacheCoins, base.View().ledger.coins, base.Held(), t);
        return true, cacheCoins[t].coins;
      }
      ghost var held := base.Held();
      ok, c := BaseGetCoins(t);
      KnownGrows(cacheCoins, base.View().ledger.coins, held, base.Held());
      if ok {
        FetchKeeps(cacheCoins, base.View().ledger.coins, held, base.Held(), t, c);
        cacheCoins := cacheCoins[t := CacheEntry(c, false, c.IsPruned())];
        CachedRecord(cacheCoins, base.View().ledger.coins, base.Held(), t);
      } else {
        NotCached(cacheCoins, base.View().ledger.coins, t);
      }
    }

    method HaveCoins(t: Hash) returns (have: bool)
      requires Valid()
      modifies Repr
      ensures Valid() && View() == old(View()) && base.View() == old(base.View()) && Others() == old(Others())
      ensures have <==> t in View().ledger.coins
    {
      var ok, c := GetCoins(t);
      have := ok && c.vout != [];
    }

    method BaseGetNullifier(nf: Hash) returns (spent: bool)
      requires base.Valid() && base.Rank() < depth
      modifies base.Footprint()
      ensures base.Valid() && base.View() == old(base.View()) && base.Held() == old(base.Held()) && base.Idle() == old(base.Idle())
      ensures spent <==> nf in base.View().ledger.nulls
      decreases depth, 0
    {
      match base {
        case Db(d) => spent := nf in d.nulls;
        case Cache(b) => spent := b.GetNullifier(nf);
      }
    }

    method GetNullifier(nf: Hash) returns (spent: bool)
      requires Valid()
      modifies Repr
      ensures Valid() && View() == old(View()) && base.View() == old(base.View()) && cacheCoins == old(cacheCoins)
      ensures hasModifier == old(hasModifier) && modified == old(modified)
      ensures hashBlock == old(hashBlock) && hashAnchor == old(hashAnchor)
      ensures spent <==> nf in View().ledger.nulls
      decreases depth, 1
    {
      if nf in cacheNulls {
        return cacheNulls[nf].entered;
      }
      hide LayerOk, Through, CoinsOk;
      spent := BaseGetNullifier(nf);
      NullifierFetchKeeps(cacheNulls, base.View().ledger.nulls, nf);
      cacheNulls := cacheNulls[nf := NullifierEntry(spent, false)];
    }

    method GetBestBlock() returns (h: Hash)
      requires Valid()
      modifies Repr
      ensures Valid() && View() == old(View()) && base.View() == old(base.View()) && cacheCoins == old(cacheCoins) && cacheNulls == old(cacheNulls)
      ensures hasModifier == old(hasModifier) && modified == old(modified) && hashAnchor == old(hashAnchor)
      ensures h == View().block && hashBlock == h
      decreases depth
    {
      hide LayerOk, Through, NullifiersOk, NullifiersThrough, CoinsOk;
      if hashBlock == NULL_HASH {
        match base {
          case Db(d) => hashBlock := d.hashBlock;
          case Cache(b) =>
            var below := b.GetBestBlock();
            hashBlock := below;
        }
      }
      h := hashBlock;
    }

    method GetBestAnchor() returns (h: Hash)
      requires Valid()
      modifies Repr
      ensures Valid() && View() == old(View()) && base.View() == old(base.View()) && cacheCoins == old(cacheCoins) && cacheNulls == old(cacheNulls)
      ensures hasModifier == old(hasModifier) && modified == old(modified) && hashBlock == old(hashBlock)
      ensures h == View().ledger.anchor && hashAnchor == h
      decreases depth
    {
      hide LayerOk, Through, NullifiersOk, NullifiersThrough, CoinsOk;
      if hashAnchor == NULL_HASH {
        match base {
          case Db(d) => hashAnchor := d.hashAnchor;
          case Cache(b) =>
            var below := b.GetBestAnchor();
            hashAnchor := below;
        }
      }
      h := hashAnchor;
    }

    // -------------------------------------------------------------- writing

    method SetNullifier(nf: Hash, spent: bool)
      requires Valid() && !hasModifier
      modifies this
      ensures Valid() && !hasModifier && hashBlock == old(hashBlock) && hashAnchor == old(hashAnchor)
      ensures var was := old(View());
              View() == was.(ledger := was.ledger.(nulls := if spent then was.ledger.nulls + {nf} else was.ledger.nulls - {nf}))
    {
      hide LayerOk, Through, NullifiersOk, NullifiersThrough, CoinsOk;
      NullifierStep(cacheNulls, base.View().ledger.nulls, nf, spent);
      cacheNulls := cacheNulls[nf := NullifierEntry(spent, true)];
    }

    /** SetBestBlock: the null hash uncovers the pointer of the base view. */
    method SetBestBlock(h: Hash)
      requires Valid() && !hasModifier
      modifies this
      ensures Valid() && !hasModifier && hashBlock == h && hashAnchor == old(hashAnchor)
      ensures View() == old(View()).(block := if h == NULL_HASH then base.View().block else h)
    {
      hide LayerOk, Through, NullifiersOk, NullifiersThrough, CoinsOk;
      hashBlock := h;
    }

    /** The pointer part of PushAnchor and PopAnchor: a root that is already the best one changes nothing. */
    method SetBestAnchor(root: Hash)
      requires Valid() && !hasModifier && root != NULL_HASH
      modifies Repr
      ensures Valid() && !hasModifier && hashBlock == old(hashBlock) && hashAnchor == root && base.View() == old(base.View())
      ensures var was := old(View()); View() == was.(ledger := was.ledger.(anchor := root))
    {
      hide LayerOk, Through, NullifiersOk, NullifiersThrough, CoinsOk;
      var current := GetBestAnchor();
      if current != root {
        hashAnchor := root;
      }
    }

    /** Brings the entry in from below, or creates it empty. */
    method EnsureEntry(t: Hash)
      requires Valid() && !hasModifier
      modifies Repr
      ensures Valid() && View() == old(View()) && base.View() == old(base.View()) && Others() == old(Others()) && t in cacheCoins
    {
      hide LayerOk, Through, NullifiersOk, NullifiersThrough, CoinsOk;
      if t !in cacheCoins {
        ghost var held := base.Held();
        var ok, d := BaseGetCoins(t);
        FetchKeeps(cacheCoins, base.View().ledger.coins, held, base.Held(), t, d);
        cacheCoins := cacheCoins[t := CacheEntry(d, false, d.IsPruned())];
      }
    }

    /** ModifyCoins up to handing out the reference: the entry is brought in and marked dirty. */
    method BeginModify(t: Hash) returns (c: Coin)
      requires Valid() && !hasModifier
      modifies Repr
      ensures Valid() && View() == old(View()) && base.View() == old(base.View()) && hasModifier && modified == t
      ensures hashBlock == old(hashBlock) && hashAnchor == old(hashAnchor)
      ensures c.Clean()
      ensures if c.vout != [] then t in View().ledger.coins && c == View().ledger.coins[t] else t !in View().ledger.coins
    {
      hide LayerOk, Through, NullifiersOk, NullifiersThrough, CoinsOk;
      EnsureEntry(t);
      DirtyView(cacheCoins, base.View().ledger.coins, base.Held(), t);
      c := cacheCoins[t].coins;
      CachedRecord(cacheCoins, base.View().ledger.coins, base.Held(), t);
      cacheCoins, hasModifier, modified := cacheCoins[t := cacheCoins[t].(isDirty := true)], true, t;
    }

    /** The end of a modification: the record is cleaned up, and dropped if nothing below has it. */
    method EndModify(c: Coin)
      requires Valid() && hasModifier
      requires forall i | 0 <= i < |c.vout| :: c.vout[i].IsNull() ==> c.vout[i] == NULL_OUT
      modifies this
      ensures Valid() && !hasModifier && hashBlock == old(hashBlock) && hashAnchor == old(hashAnchor)
      ensures var was := old(View());
              View() == was.(ledger := was.ledger.(coins :=
                SetCoin(was.ledger.coins, old(modified), c.(vout := Cleanup(c.vout)))))
    {
      hide LayerOk, Through, NullifiersOk, NullifiersThrough, SetCoin, CoinsOk;
      var vout := CleanupVout(c.vout);
      var d := c.(vout := vout);
      CleanupClean(c);
      FinishedView(cacheCoins, base.View().ledger.coins, base.Held(), modified, d);
      var next := Finished(cacheCoins, modified, d);
      cacheCoins, hasModifier := next, false;
    }
  
    // -------------------------------------------------------------- flushing

    /** One entry of the coin loop of BatchWrite, with the assertion that a record new to this cache is FRESH. */
    method WriteCoinsEntry(t: Hash, e: CacheEntry)
      requires t !in cacheCoins ==> e.isFresh
      modifies `cacheCoins
      ensures match WriteEntry(old(cacheCoins), t, e)
              case None => cacheCoins == old(cacheCoins) - {t}
              case Some(w) => cacheCoins == old(cacheCoins)[t := w]
    {
      if e.isDirty {
        if t !in cacheCoins {
          if !e.coins.IsPruned() {
            assert e.isFresh;
            cacheCoins := cacheCoins[t := CacheEntry(e.coins, true, true)];
          }
        } else if cacheCoins[t].isFresh && e.coins.IsPruned() {
          cacheCoins := cacheCoins - {t};
        } else {
          cacheCoins := cacheCoins[t := CacheEntry(e.coins, true, cacheCoins[t].isFresh)];
        }
      }
    }

    /** The coin loop of BatchWrite, over a child layer in any order. */
    method WriteCoins(mapCoins: CoinCache)
      requires Valid() && !hasModifier
      requires LayerOk(mapCoins, View().ledger.coins, cacheCoins.Keys)
      modifies `cacheCoins
      ensures Written(old(cacheCoins), mapCoins, mapCoins.Keys, cacheCoins)
    {
      hide Written, WriteEntry, LayerOk, NullifiersOk, NullifiersThrough, CoinsOk;
      ghost var was := cacheCoins;
      ghost var below := base.View().ledger.coins;
      var rest := mapCoins.Keys;
      ghost var done := {};
      NothingWritten(was, mapCoins);
      while rest != {}
        invariant rest + done == mapCoins.Keys && rest !! done
        invariant Written(was, mapCoins, done, cacheCoins)
        decreases |rest|
      {
        var t :| t in rest;
        WrittenStep(was, mapCoins, done, cacheCoins, t);
        if t !in cacheCoins {
          MissingAboveIsFresh(was, mapCoins, below, t);
        }
        WriteCoinsEntry(t, mapCoins[t]);
        rest, done := rest - {t}, done + {t};
      }
      assert done == mapCoins.Keys;
    }

    method WriteNullifiers(mapNulls: NullifierCache)
      modifies `cacheNulls
      ensures NullifiersWritten(old(cacheNulls), mapNulls, mapNulls.Keys, cacheNulls)
    {
      hide NullifiersWritten;
      ghost var was := cacheNulls;
      var rest := mapNulls.Keys;
      ghost var done := {};
      NoNullifiersWritten(was, mapNulls);
      while rest != {}
        invariant rest + done == mapNulls.Keys && rest !! done
        invariant NullifiersWritten(was, mapNulls, done, cacheNulls)
        decreases |rest|
      {
        var nf :| nf in rest;
        NullifiersWrittenStep(was, mapNulls, done, cacheNulls, nf);
        if mapNulls[nf].isDirty {
          if nf !in cacheNulls || cacheNulls[nf].entered != mapNulls[nf].entered {
            cacheNulls := cacheNulls[nf := NullifierEntry(mapNulls[nf].entered, true)];
          }
        }
        rest, done := rest - {nf}, done + {nf};
      }
      assert done == mapNulls.Keys;
    }

    /** Receives a child layer: the view becomes what the child showed. The pointers are copied verbatim. */
    method BatchWrite(mapCoins: CoinCache, block: Hash, anchor: Hash, mapNulls: NullifierCache)
      requires Valid() && !hasModifier
      requires LayerOk(mapCoins, View().ledger.coins, cacheCoins.Keys) && NullifiersOk(mapNulls, View().ledger.nulls)
      modifies this
      ensures Valid() && !hasModifier
      ensures View().ledger.coins == Through(mapCoins, old(View().ledger.coins))
      ensures View().ledger.nulls == NullifiersThrough(mapNulls, old(View().ledger.nulls))
      ensures hashBlock == block && hashAnchor == anchor
    {
      hide Written, NullifiersWritten, LayerOk, NullifiersOk, Through, NullifiersThrough, CoinsOk;
      ghost var coins, nulls := cacheCoins, cacheNulls;
      ghost var below, held := base.View(), base.Held();
      WriteCoins(mapCoins);
      WriteDown(coins, mapCoins, below.ledger.coins, held, cacheCoins);
      WriteNullifiers(mapNulls);
      NullifiersWriteDown(nulls, mapNulls, below.ledger.nulls, cacheNulls);
      hashAnchor, hashBlock := anchor, block;
    }

    /** Pushes this layer into its base and empties it; no view changes. */
    method Flush()
      requires Valid() && !hasModifier
      modifies Repr
      ensures Valid() && !hasModifier && cacheCoins == map[] && cacheNulls == map[]
      ensures hashBlock == old(hashBlock) && hashAnchor == old(hashAnchor)
      ensures base.Valid() && base.Idle() && (base.Db? ==> base.View() == old(View()))
      ensures base.View().ledger.coins == old(View().ledger.coins) && base.View().ledger.nulls == old(View().ledger.nulls)
      ensures old(hashBlock) != NULL_HASH ==> base.View().block == old(View().block)
      ensures old(hashAnchor) != NULL_HASH ==> base.View().ledger.anchor == old(View().ledger.anchor)
      ensures base.Cache? ==> base.cache.Valid() && old(base.cache.Valid()) &&
                              base.cache.hashBlock == old(hashBlock) && base.cache.hashAnchor == old(hashAnchor) &&
                              base.cache.base.View() == old(base.cache.base.View())
      ensures View().ledger.coins == old(View().ledger.coins) && View().ledger.nulls == old(View().ledger.nulls)
    {
      hide LayerOk, NullifiersOk, Through, NullifiersThrough, CoinsOk;
      match base {
        case Db(d) => d.BatchWrite(cacheCoins, hashBlock, hashAnchor, cacheNulls);
        case Cache(b) => b.BatchWrite(cacheCoins, hashBlock, hashAnchor, cacheNulls);
      }
      cacheCoins, cacheNulls := map[], map[];
      EmptyLayer(base.View().ledger.coins, base.View().ledger.nulls, base.Held());
    }
  }

  // ---------------------------------------------------------------- any run on the top of a stack

  datatype Op =
    | Get(t: Hash)
    | Have(t: Hash)
    | Nullifier(nf: Hash)
    | Modify(t: Hash, c: Coin)
    | MarkNullifier(nf: Hash, spent: bool)
    | FlushTop

  datatype Answer = Record(c: Option<Coin>) | Flag(b: bool) | Done

  ghost predicate OpOk(op: Op) {
    op.Modify? ==> forall i | 0 <= i < |op.c.vout| :: op.c.vout[i].IsNull() ==> op.c.vout[i] == NULL_OUT
  }

  /** The operation on one flat map and one flat set, updated directly. */
  function FlatStep(l: Ledger, op: Op): (Ledger, Answer) {
    match op
    case Get(t) => (l, Record(if t in l.coins then Some(l.coins[t]) else None))
    case Have(t) => (l, Flag(t in l.coins))
    case Nullifier(nf) => (l, Flag(nf in l.nulls))
    case Modify(t, c) => (l.(coins := SetCoin(l.coins, t, c.(vout := Cleanup(c.vout)))), Done)
    case MarkNullifier(nf, spent) => (l.(nulls := if spent then l.nulls + {nf} else l.nulls - {nf}), Done)
    case FlushTop => (l, Done)
  }

  function FlatRun(l: Ledger, ops: seq<Op>): (Ledger, seq<Answer>) {
    if ops == [] then (l, [])
    else
      var (mid, answers) := FlatRun(l, ops[..|ops| - 1]);
      var (end, a) := FlatStep(mid, ops[|ops| - 1]);
      (end, answers + [a])
  }

  /** One operation on a cache of any depth answers, and changes the view, as on the flat ledger. */
  method RunOp(view: CoinsViewCache, op: Op) returns (a: Answer)
    requires view.Valid() && !view.hasModifier
    requires OpOk(op)
    modifies view.Repr
    ensures view.Valid() && !view.hasModifier
    ensures var was := old(view.View().ledger); var now := view.View().ledger;
            var (l, b) := FlatStep(was, op);
            now.coins == l.coins && now.nulls == l.nulls && a == b
  {
    a := Done;
    match op {
      case Get(t) =>
        var ok, c := view.GetCoins(t);
        a := Record(if ok && c.vout != [] then Some(c) else None);
      case Have(t) =>
        var have := view.HaveCoins(t);
        a := Flag(have);
      case Nullifier(nf) =>
        var spent := view.GetNullifier(nf);
        a := Flag(spent);
      case Modify(t, c) =>
        var _ := view.BeginModify(t);
        view.EndModify(c);
      case MarkNullifier(nf, spent) =>
        view.SetNullifier(nf, spent);
      case FlushTop =>
        view.Flush();
    }
  }

  /** Any run of operations on the top of a stack of caches is a run on one flat ledger. */
  method Run(view: CoinsViewCache, ops: seq<Op>) returns (answers: seq<Answer>)
    requires view.Valid() && !view.hasModifier
    requires forall i | 0 <= i < |ops| :: OpOk(ops[i])
    modifies view.Repr
    ensures view.Valid() && !view.hasModifier
    ensures var (l, flat) := FlatRun(old(view.View().ledger), ops);
            && answers == flat
            && view.View().ledger.coins == l.coins && view.View().ledger.nulls == l.nulls
  {
    hide FlatStep;
    ghost var start := view.View().ledger;
    answers := [];
    for i := 0 to |ops|
      invariant view.Valid() && !view.hasModifier
      invariant var (l, flat) := FlatRun(start, ops[..i]);
                answers == flat && view.View().ledger.coins == l.coins && view.View().ledger.nulls == l.nulls
    {
      ghost var mid := view.View().ledger;
      var a := RunOp(view, ops[i]);
      answers := answers + [a];
      assert ops[..i + 1][..i] == ops[..i];
      FlatStepIgnoresAnchor(mid, FlatRun(start, ops[..i]).0, ops[i]);
    }
    assert ops[..|ops|] == ops;
  }

  lemma FlatStepIgnoresAnchor(a: Ledger, b: Ledger, op: Op)
    requires a.coins == b.coins && a.nulls == b.nulls
    ensures FlatStep(a, op).1 == FlatStep(b, op).1
    ensures FlatStep(a, op).0.coins == FlatStep(b, op).0.coins && FlatStep(a, op).0.nulls == FlatStep(b, op).0.nulls
  {
  }
}
