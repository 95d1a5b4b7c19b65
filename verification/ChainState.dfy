/** The active chain, its undo records and the coin cache at its tip, moved by connecting and
    disconnecting whole blocks. */
module ChainState {
  import opened Primitives
  import opened ChainSpec
  import opened UndoProofs
  import opened CacheLayer
  import opened CoinsViews
  import opened BlockProcessing

  // ---------------------------------------------------------------- what connecting preserves

  /** Spending available outputs records outputs that are not null and keeps records in order. */
  lemma {:induction false} SpendsKeep(m: CoinMap, vin: seq<OutPoint>, j: nat)
    requires WellFormed(m) && HaveInputs(m, vin) && DistinctOutPoints(vin) && j < |vin|
    ensures UndoOutOk(SpendInputs(m, vin).1[j])
  {
    var k := |vin| - 1;
    if j < k {
      SpendsKeep(m, vin[..k], j);
    }
  }

  lemma StepKeeps(p: Params, l: Ledger, tx: Tx, h: int)
    requires CheckTx(tx) && WellFormed(l.coins) && h >= 1 && ConnectTx(p, l, tx, h).Some?
    ensures var r := ConnectTx(p, l, tx, h).value;
            WellFormed(r.ledger.coins) && forall j | 0 <= j < |r.undo| :: UndoOutOk(r.undo[j])
  {
    hide FromTx;
    if !tx.IsCoinBase() {
      UndoSpends(l.coins, tx.vin);
      forall j | 0 <= j < |tx.vin| ensures UndoOutOk(SpendInputs(l.coins, tx.vin).1[j]) {
        SpendsKeep(l.coins, tx.vin, j);
      }
    }
    OutputsWellFormed(Spent(l.coins, tx).0, tx, h);
  }

  ghost predicate UndosOk(undos: seq<TxUndo>) {
    forall i, j | 0 <= i < |undos| && 0 <= j < |undos[i]| :: UndoOutOk(undos[i][j])
  }

  lemma {:induction false} TxsKeep(p: Params, l: Ledger, txs: seq<Tx>, h: int)
    requires Connects(p, l, txs, h) && WellFormed(l.coins) && h >= 1
    ensures var r := ConnectTxs(p, l, txs, h).value; WellFormed(r.ledger.coins) && UndosOk(r.undos)
  {
    hide ConnectTx, WellFormed, UndoOutOk;
    if txs != [] {
      var k := |txs| - 1;
      PrefixConnects(p, l, txs, h, k);
      TxsKeep(p, l, txs[..k], h);
      StepKeeps(p, ConnectTxs(p, l, txs[..k], h).value.ledger, txs[k], h);
    }
  }

  /** A connected block leaves records the next block can rely on, and an undo record that can be replayed. */
  lemma ConnectKeeps(p: Params, l: Ledger, block: Block, h: nat)
    requires SubsidyParams(p) && RootsOk(p) && h >= 1 && WellFormed(l.coins) && l.anchor != NULL_HASH
    requires ConnectBlock(p, l, block, h).Some?
    ensures var r := ConnectBlock(p, l, block, h).value;
            WellFormed(r.ledger.coins) && r.ledger.anchor != NULL_HASH && UndoOk(r.undo)
  {
    hide ConnectTxs, WellFormed, UndoOutOk, BlockSubsidy, CheckTx;
    TxsKeep(p, l, block.vtx, h);
  }

  /** The exact result of undoing a connected block: the ledger before it, unless it is a fork
      block that repeats a live transaction. */
  lemma UndoExact(p: Params, l: Ledger, block: Block, h: nat)
    requires SubsidyParams(p) && h >= 1 && WellFormed(l.coins) && CollisionFree(block.vtx)
    requires ConnectBlock(p, l, block, h).Some?
    ensures var r := ConnectBlock(p, l, block, h).value;
            DisconnectBlock(p, r.ledger, block, r.undo, h) ==
            if p.IsForkBlock(h) && !LiveDistinct(block.vtx, h) then None else Some(l)
  {
    hide ConnectBlock, DisconnectBlock, WellFormed, CollisionFree, LiveDistinct;
    if p.IsForkBlock(h) {
      ForkDisconnectExact(p, l, block, h);
    } else {
      DisconnectInvertsConnect(p, l, block, h);
    }
  }

  // ---------------------------------------------------------------- stored undo records

  /** The undo record that belongs to the last block of a path from genesis. */
  ghost predicate BelongsTo(p: Params, path: seq<Block>, undo: BlockUndo)
    requires SubsidyParams(p)
  {
    && |path| >= 2
    && var k := |path| - 1;
       var before := Replay(p, path[..k]);
       && before.Some? && before.value.anchor != NULL_HASH && WellFormed(before.value.coins)
       && var r := ConnectBlock(p, before.value, path[k], k);
          r.Some? && r.value.undo == undo && UndoOk(undo)
  }

  ghost predicate RecordsOk(p: Params, undos: map<seq<Block>, BlockUndo>)
    requires SubsidyParams(p)
  {
    forall path | path in undos :: BelongsTo(p, path, undos[path])
  }

  ghost predicate Recorded(undos: map<seq<Block>, BlockUndo>, active: seq<Block>) {
    forall k | 2 <= k <= |active| :: active[..k] in undos
  }

  ghost predicate BlocksOk(active: seq<Block>) {
    forall k | 0 <= k < |active| :: active[k].hash != NULL_HASH && CollisionFree(active[k].vtx)
  }

  /** What the tip must show for the chain to be the active one. */
  ghost predicate Shows(p: Params, active: seq<Block>, v: ViewState)
    requires SubsidyParams(p)
  {
    && Replay(p, active) == Some(v.ledger)
    && v.ledger.anchor != NULL_HASH && WellFormed(v.ledger.coins)
    && v.block == if active == [] then NULL_HASH else active[|active| - 1].hash
  }

  lemma ExtendShows(p: Params, active: seq<Block>, v: ViewState, block: Block, v': ViewState, undo: BlockUndo)
    requires SubsidyParams(p) && RootsOk(p) && active != [] && Shows(p, active, v)
    requires ConnectBlock(p, v.ledger, block, |active|) == Some(Connected(v'.ledger, undo)) && v'.block == block.hash
    ensures Shows(p, active + [block], v') && BelongsTo(p, active + [block], undo)
  {
    hide ConnectBlock, UndoOk, WellFormed;
    var path := active + [block];
    assert path[..|active|] == active;
    ConnectKeeps(p, v.ledger, block, |active|);
  }

  lemma ExtendRecords(p: Params, undos: map<seq<Block>, BlockUndo>, active: seq<Block>, block: Block, undo: BlockUndo)
    requires SubsidyParams(p) && RecordsOk(p, undos) && Recorded(undos, active) && BlocksOk(active)
    requires block.hash != NULL_HASH && CollisionFree(block.vtx)
    requires BelongsTo(p, active + [block], undo)
    ensures RecordsOk(p, undos[active + [block] := undo]) && Recorded(undos[active + [block] := undo], active + [block])
    ensures active + [block] in undos ==> undos[active + [block]] == undo && Recorded(undos, active + [block])
    ensures BlocksOk(active + [block])
  {
    hide UndoOk, Replay, ConnectBlock, WellFormed;
    var path := active + [block];
    forall k | 2 <= k <= |path| ensures k == |path| ==> path[..k] == path
                                ensures k < |path| ==> path[..k] == active[..k] && path[..k] in undos
    {
      assert k < |path| ==> path[..k] == active[..k];
    }
  }

  lemma ShortenShows(p: Params, active: seq<Block>, v: ViewState, undo: BlockUndo)
    requires SubsidyParams(p) && Shows(p, active, v) && BelongsTo(p, active, undo)
    requires BlocksOk(active)
    ensures var k := |active| - 1;
            var forks := p.IsForkBlock(k) && !LiveDistinct(active[k].vtx, k);
            var r := DisconnectBlock(p, v.ledger, active[k], undo, k);
            && (r.Some? <==> !forks)
            && (r.Some? ==> Shows(p, active[..k], ViewState(r.value, active[k - 1].hash)))
  {
    hide ConnectBlock, DisconnectBlock, UndoOk, WellFormed, CollisionFree, LiveDistinct;
    var k := |active| - 1;
    var before := Replay(p, active[..k]).value;
    UndoExact(p, before, active[k], k);
  }

  lemma ShortenRecords(undos: map<seq<Block>, BlockUndo>, active: seq<Block>)
    requires active != [] && Recorded(undos, active) && BlocksOk(active)
    ensures Recorded(undos, active[..|active| - 1]) && BlocksOk(active[..|active| - 1])
  {
    var s := active[..|active| - 1];
    forall k | 2 <= k <= |s| ensures s[..k] in undos {
      assert s[..k] == active[..k];
    }
  }

  // ---------------------------------------------------------------- one block in a child cache

  /** A child view rests on a valid parent and shows its own pointers once it has them. */
  lemma ChildOf(view: CoinsViewCache, parent: CoinsViewCache)
    requires view.Valid() && view.base == Cache(parent)
    ensures parent.Valid() && !parent.hasModifier && view.base.View() == parent.View()
    ensures view.hashBlock != NULL_HASH ==> view.View().block == view.hashBlock
  {
  }

  /** Connects a block in a child of the tip and flushes it on success. */
  method ApplyBlock(p: Params, tip: CoinsViewCache, block: Block, h: nat, prevHash: Hash, external: seq<bool>, externalBlock: bool)
    returns (ok: bool, undo: BlockUndo)
    requires SubsidyParams(p) && RootsOk(p) && h >= 1 && block.hash != NULL_HASH && |external| == |block.vtx|
    requires Ready(tip) && tip.View().block == prevHash
    modifies tip.Repr
    ensures Ready(tip)
    ensures ok <==> externalBlock && AllTrue(external) && ConnectBlock(p, old(LedgerOf(tip)), block, h).Some?
    ensures ok ==> tip.View().block == block.hash &&
                   ConnectBlock(p, old(LedgerOf(tip)), block, h) == Some(Connected(LedgerOf(tip), undo))
    ensures !ok ==> tip.View() == old(tip.View())
  {
    hide LayerOk, Through, NullifiersOk, NullifiersThrough, CoinsOk, CoinsViewCache.View, ConnectBlock, CoinsViewCache.Valid,
         AllTrue, SubsidyParams, RootsOk;
    var view := new CoinsViewCache(Cache(tip));
    var best := view.GetBestBlock();
    assert best == prevHash;
    ok, undo := ConnectBlockInView(p, view, block, h, external, externalBlock);
    ChildOf(view, tip);
    if ok {
      view.Flush();
      ChildOf(view, tip);
    }
  }

  /** Connects the genesis block, which only sets the best-block pointer. */
  method ApplyGenesis(tip: CoinsViewCache, hash: Hash)
    requires Ready(tip) && hash != NULL_HASH && tip.View().block == NULL_HASH
    requires tip.View().ledger.anchor == tip.base.View().ledger.anchor
    modifies tip.Repr
    ensures Ready(tip) && tip.View() == old(tip.View()).(block := hash)
  {
    hide LayerOk, Through, NullifiersOk, NullifiersThrough, CoinsOk;
    var view := new CoinsViewCache(Cache(tip));
    assert view.View().block == NULL_HASH;
    view.SetBestBlock(hash);
    view.Flush();
  }

  /** Disconnects a block in a child of the tip and flushes it on success. */
  method UndoBlock(p: Params, tip: CoinsViewCache, block: Block, undo: BlockUndo, h: nat, prevHash: Hash) returns (ok: bool)
    requires Ready(tip) && UndoOk(undo) && prevHash != NULL_HASH && tip.View().block == block.hash
    modifies tip.Repr
    ensures Ready(tip)
    ensures ok <==> DisconnectBlock(p, old(LedgerOf(tip)), block, undo, h).Some?
    ensures ok ==> tip.View() == ViewState(DisconnectBlock(p, old(LedgerOf(tip)), block, undo, h).value, prevHash)
    ensures !ok ==> tip.View() == old(tip.View())
  {
    hide LayerOk, Through, NullifiersOk, NullifiersThrough, CoinsOk, CoinsViewCache.View, UndoOutOk, DisconnectBlock,
         CoinsViewCache.Valid;
    var view := new CoinsViewCache(Cache(tip));
    var best := view.GetBestBlock();
    assert best == block.hash;
    ok := DisconnectBlockInView(p, view, block, undo, h, prevHash);
    ChildOf(view, tip);
    if ok {
      view.Flush();
      ChildOf(view, tip);
    }
  }

  // ---------------------------------------------------------------- the chain a run leads to

  datatype Event = Connect(block: Block, external: seq<bool>, externalBlock: bool) | Disconnect | FlushToDisk

  /** The blocks that may be offered: the genesis block first, then blocks built on the tip. */
  predicate Offered(genesis: Block, active: seq<Block>, block: Block) {
    && block.hash != NULL_HASH
    && (active == [] <==> block.hash == genesis.hash) && (active == [] ==> block == genesis)
    && CollisionFree(block.vtx)
  }

  /** Whether the tip can be undone: a fork block that repeats a live transaction cannot. */
  ghost predicate Undoable(p: Params, active: seq<Block>) {
    |active| >= 2 && (p.IsForkBlock(|active| - 1) ==> LiveDistinct(active[|active| - 1].vtx, |active| - 1))
  }

  /** The active chain after one event, told without any view, cache or undo record. */
  ghost function Next(p: Params, genesis: Block, active: seq<Block>, e: Event): seq<Block>
    requires SubsidyParams(p)
  {
    match e
    case Connect(block, external, externalBlock) =>
      if && Offered(genesis, active, block) && |external| == |block.vtx| && externalBlock
         && (active != [] ==> AllTrue(external) && Replay(p, active + [block]).Some?)
      then active + [block] else active
    case Disconnect => if Undoable(p, active) then active[..|active| - 1] else active
    case FlushToDisk => active
  }

  ghost function After(p: Params, genesis: Block, active: seq<Block>, events: seq<Event>): seq<Block>
    requires SubsidyParams(p)
  {
    if events == [] then active
    else Next(p, genesis, After(p, genesis, active, events[..|events| - 1]), events[|events| - 1])
  }

  lemma ReplayNext(p: Params, active: seq<Block>, block: Block)
    requires SubsidyParams(p) && active != [] && Replay(p, active).Some?
    ensures Replay(p, active + [block]).Some? <==> ConnectBlock(p, Replay(p, active).value, block, |active|).Some?
  {
    hide ConnectBlock;
    assert (active + [block])[..|active|] == active;
  }

  // ---------------------------------------------------------------- the chain state

  class ChainState {
    const p: Params
    const genesis: Block
    const db: CoinsViewDB
    const tip: CoinsViewCache
    var active: seq<Block>
    var undos: map<seq<Block>, BlockUndo>

    ghost predicate Valid()
      reads this, tip.Repr
    {
      && SubsidyParams(p) && RootsOk(p) && genesis.hash != NULL_HASH
      && tip.Repr == {tip, db} && this !in tip.Repr && tip.base == Db(db)
      && Ready(tip) && Shows(p, active, tip.View())
      && (active == [] ==> db.hashAnchor == p.emptyRoot)
      && RecordsOk(p, undos) && Recorded(undos, active) && BlocksOk(active)
    }

    constructor (params: Params, first: Block)
      requires SubsidyParams(params) && RootsOk(params) && first.hash != NULL_HASH
      ensures Valid() && fresh(tip.Repr) && p == params && genesis == first && active == [] && undos == map[]
    {
      p, genesis, active, undos := params, first, [], map[];
      var flat := new CoinsViewDB(params.emptyRoot);
      var cache := new CoinsViewCache(Db(flat));
      db, tip := flat, cache;
      new;
      hide RootsOk, SubsidyParams, CoinsOk, LayerOk, NullifiersOk, Through, NullifiersThrough;
    }

    /** ConnectTip: on success the block joins the chain; on failure no coin, nullifier or pointer
        shown by the tip changes. */
    method ConnectTip(block: Block, external: seq<bool>, externalBlock: bool) returns (ok: bool)
      requires Valid() && Offered(genesis, active, block) && |external| == |block.vtx|
      modifies this`active, this`undos, tip.Repr
      ensures Valid()
      ensures ok <==> externalBlock && (old(active) == [] || (AllTrue(external) &&
                      ConnectBlock(p, old(LedgerOf(tip)), block, |old(active)|).Some?))
      ensures active == if ok then old(active) + [block] else old(active)
      ensures !ok ==> tip.View() == old(tip.View()) && undos == old(undos)
      ensures forall path | path in old(undos) :: path in undos && undos[path] == old(undos)[path]
    {
      hide LayerOk, Through, NullifiersOk, NullifiersThrough, CoinsOk, CoinsViewCache.View, ConnectBlock,
           CollisionFree, BelongsTo, WellFormed, UndoOk, AllTrue, Recorded, RecordsOk, BlocksOk, CoinsViewCache.Valid;
      if active == [] {
        ok := externalBlock;
        if ok {
          ConnectGenesis(block);
        }
        return;
      }
      ghost var v := tip.View();
      var undo;
      ok, undo := ApplyBlock(p, tip, block, |active|, active[|active| - 1].hash, external, externalBlock);
      if ok {
        ExtendShows(p, active, v, block, tip.View(), undo);
        ExtendRecords(p, undos, active, block, undo);
        if active + [block] !in undos {
          undos := undos[active + [block] := undo];
        }
        active := active + [block];
      }
    }

    method ConnectGenesis(block: Block)
      requires Valid() && active == [] && Offered(genesis, active, block)
      modifies this`active, tip.Repr
      ensures Valid() && active == [block]
    {
      hide LayerOk, Through, NullifiersOk, NullifiersThrough, CoinsOk, ConnectBlock, CollisionFree, RecordsOk;
      ApplyGenesis(tip, block.hash);
      active := [block];
    }

    /** DisconnectTip: succeeds exactly on an undoable tip and then shows the chain without it;
        otherwise nothing shown changes. */
    method DisconnectTip() returns (ok: bool)
      requires Valid() && active != []
      modifies this`active, tip.Repr
      ensures Valid()
      ensures ok <==> Undoable(p, old(active))
      ensures active == if ok then old(active)[..|old(active)| - 1] else old(active)
      ensures !ok ==> tip.View() == old(tip.View())
    {
      hide LayerOk, Through, NullifiersOk, NullifiersThrough, CoinsOk, CoinsViewCache.View, ConnectBlock, DisconnectBlock,
           CollisionFree, WellFormed, UndoOk, CoinsViewCache.Valid, LiveDistinct, Replay;
      assert active[..|active|] == active;
      if active !in undos {
        return false;
      }
      var k := |active| - 1;
      assert BelongsTo(p, active, undos[active]);
      ShortenShows(p, active, tip.View(), undos[active]);
      ok := UndoBlock(p, tip, active[k], undos[active], k, active[k - 1].hash);
      if ok {
        ShortenRecords(undos, active);
        active := active[..k];
      }
    }

    /** FlushStateToDisk: the database catches up with the tip; the tip shows what it showed. */
    method FlushStateToDisk()
      requires Valid()
      modifies tip.Repr
      ensures Valid() && tip.View() == old(tip.View()) && db.View() == tip.View()
    {
      hide LayerOk, Through, NullifiersOk, NullifiersThrough, CoinsOk, RecordsOk, Recorded, BlocksOk, WellFormed;
      tip.Flush();
    }

    /** Any run of successful and failed connections, disconnections and flushes: the tip shows
        exactly the replay from genesis of the chain the run leads to. */
    method Run(events: seq<Event>)
      requires Valid()
      modifies this`active, this`undos, tip.Repr
      ensures Valid() && active == After(p, genesis, old(active), events)
      ensures Replay(p, active) == Some(LedgerOf(tip))
    {
      hide LayerOk, Through, NullifiersOk, NullifiersThrough, CoinsOk, CoinsViewCache.View, ConnectBlock, DisconnectBlock,
           CollisionFree, WellFormed, CoinsViewCache.Valid, LiveDistinct, Replay, AllTrue, RecordsOk, Recorded, BlocksOk, RootsOk;
      for i := 0 to |events|
        invariant Valid() && active == After(p, genesis, old(active), events[..i])
      {
        assert events[..i + 1][..i] == events[..i];
        match events[i] {
          case Connect(block, external, externalBlock) =>
            if Offered(genesis, active, block) && |external| == |block.vtx| {
              if active != [] {
                ReplayNext(p, active, block);
              }
              var _ := ConnectTip(block, external, externalBlock);
            }
          case Disconnect =>
            if active != [] {
              var _ := DisconnectTip();
            }
          case FlushToDisk =>
            FlushStateToDisk();
        }
      }
      assert events[..|events|] == events;
    }
  }
}
