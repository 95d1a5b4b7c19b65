/** The parallel check queue: one master, any number of workers, every critical section one step, any
    interleaving and any spurious wake-up. A check is represented by its outcome. */
module CheckQueue {

  /** Where a thread is between critical sections. */
  datatype Pc =
    | Outside
    | Waiting(notified: bool)
    | Working(batch: seq<bool>, ok: bool)

  ghost predicate AllOk(s: seq<bool>) {
    forall i | 0 <= i < |s| :: s[i]
  }

  // ---------------------------------------------------------------- counting threads

  function Held(p: Pc): nat { if p.Working? then |p.batch| else 0 }
  function Idle(p: Pc): nat { if p.Waiting? then 1 else 0 }

  ghost function InFlight(ws: seq<Pc>): nat {
    if ws == [] then 0 else InFlight(ws[..|ws| - 1]) + Held(ws[|ws| - 1])
  }

  ghost function IdleCount(ws: seq<Pc>): nat {
    if ws == [] then 0 else IdleCount(ws[..|ws| - 1]) + Idle(ws[|ws| - 1])
  }

  lemma {:induction false} Moved(ws: seq<Pc>, i: nat, p: Pc)
    requires i < |ws|
    ensures InFlight(ws[i := p]) == InFlight(ws) - Held(ws[i]) + Held(p)
    ensures IdleCount(ws[i := p]) == IdleCount(ws) - Idle(ws[i]) + Idle(p)
  {
    hide Held, Idle;
    var k := |ws| - 1;
    if i == k {
      assert ws[i := p][..k] == ws[..k];
    } else {
      Moved(ws[..k], i, p);
      assert ws[i := p][..k] == ws[..k][i := p];
    }
  }

  lemma Joined(ws: seq<Pc>, p: Pc)
    ensures InFlight(ws + [p]) == InFlight(ws) + Held(p) && IdleCount(ws + [p]) == IdleCount(ws) + Idle(p)
  {
    assert (ws + [p])[..|ws|] == ws;
  }

  /** Flags of waiting threads do not matter to the counts. */
  lemma {:induction false} Renotified(ws: seq<Pc>, ws': seq<Pc>)
    requires |ws'| == |ws| && forall i | 0 <= i < |ws| :: ws'[i] == ws[i] || (ws[i].Waiting? && ws'[i].Waiting?)
    ensures InFlight(ws') == InFlight(ws) && IdleCount(ws') == IdleCount(ws)
  {
    if ws != [] {
      Renotified(ws[..|ws| - 1], ws'[..|ws'| - 1]);
    }
  }

  lemma {:induction false} AllWaiting(ws: seq<Pc>)
    ensures IdleCount(ws) <= |ws|
    ensures IdleCount(ws) == |ws| <==> forall i | 0 <= i < |ws| :: ws[i].Waiting?
  {
    if ws != [] {
      AllWaiting(ws[..|ws| - 1]);
      assert forall i | 0 <= i < |ws| - 1 :: ws[..|ws| - 1][i] == ws[i];
    }
  }

  lemma {:induction false} SomeoneWorks(ws: seq<Pc>) returns (i: nat)
    requires InFlight(ws) > 0
    ensures i < |ws| && ws[i].Working?
  {
    var k := |ws| - 1;
    if ws[k].Working? {
      i := k;
    } else {
      i := SomeoneWorks(ws[..k]);
    }
  }

  lemma {:induction false} NobodyWorks(ws: seq<Pc>, i: nat)
    requires InFlight(ws) == 0 && i < |ws| && BatchesOk(ws)
    ensures !ws[i].Working?
  {
    var k := |ws| - 1;
    if i < k {
      assert ws[..k][i] == ws[i];
      assert BatchesOk(ws[..k]);
      NobodyWorks(ws[..k], i);
    }
  }

  ghost predicate BatchesOk(ws: seq<Pc>) {
    forall i | 0 <= i < |ws| && ws[i].Working? :: ws[i].batch != []
  }

  /** Nothing a thread holds has failed. */
  ghost predicate Clean(p: Pc) { p.Working? ==> AllOk(p.batch) }

  ghost predicate AllClean(ws: seq<Pc>) {
    forall i | 0 <= i < |ws| :: Clean(ws[i])
  }

  /** A thread that skips its work does so because a failure is already recorded. */
  ghost predicate Honest(p: Pc, fAllOk: bool) { p.Working? && !p.ok ==> !fAllOk }

  ghost predicate Awake(p: Pc) { p.Working? || (p.Waiting? && p.notified) }

  ghost predicate SomeAwake(ws: seq<Pc>) {
    exists i :: 0 <= i < |ws| && Awake(ws[i])
  }

  // ---------------------------------------------------------------- the protocol state

  /** The thread inside a critical section, if any; its own slot reads Outside meanwhile. */
  datatype Inside = Nobody | Worker(i: nat) | Master

  /** The queue's fields, the position of every thread, whether a controller is alive, and the checks
      added since the last completed Wait. */
  datatype State = State(
    queue: seq<bool>, nIdle: int, nTotal: int, fAllOk: bool, nTodo: int,
    workers: seq<Pc>, master: Pc, open: bool, added: seq<bool>)

  ghost predicate CountsOk(s: State, inside: Inside) {
    && s.nTodo == |s.queue| + InFlight(s.workers) + Held(s.master)
    && s.nIdle == IdleCount(s.workers) + Idle(s.master)
    && s.nTotal == |s.workers| + if !s.master.Outside? || inside.Master? then 1 else 0
  }

  ghost predicate ThreadsOk(s: State, inside: Inside) {
    && BatchesOk(s.workers) && (s.master.Working? ==> s.master.batch != [])
    && (forall j | 0 <= j < |s.workers| :: s.workers[j].Outside? <==> inside == Worker(j))
    && (inside.Worker? ==> inside.i < |s.workers|)
    && (inside.Master? ==> s.master.Outside?)
    && (!s.open ==> s.master.Outside? && !inside.Master?)
  }

  /** The outcome so far, with everything still queued or in flight, is the outcome of all that was added. */
  ghost predicate OutcomeOk(s: State) {
    && (s.fAllOk && AllOk(s.queue) && AllClean(s.workers) && Clean(s.master) <==> AllOk(s.added))
    && (forall j | 0 <= j < |s.workers| :: Honest(s.workers[j], s.fAllOk)) && Honest(s.master, s.fAllOk)
  }

  /** No wake-up is lost: a waiting master with nothing left to wait for has been notified, and work in
      the queue has some worker awake for it. */
  ghost predicate NoLostWakeup(s: State, inside: Inside) {
    && (s.master.Waiting? ==> s.queue == [] && (s.nTodo == 0 ==> s.master.notified))
    && (s.queue != [] && s.workers != [] ==> SomeAwake(s.workers) || inside.Worker?)
  }

  ghost predicate AtRest(s: State) {
    !s.open ==> s.nTodo == 0 && s.fAllOk && s.added == []
  }

  ghost predicate Inv(s: State, inside: Inside) {
    CountsOk(s, inside) && ThreadsOk(s, inside) && OutcomeOk(s) && NoLostWakeup(s, inside) && AtRest(s)
  }

  // ---------------------------------------------------------------- steps

  function SetWorker(s: State, i: nat, p: Pc): State
    requires i < |s.workers|
  {
    s.(workers := s.workers[i := p])
  }

  /** A batch is moved from the back of the queue to a thread. */
  ghost predicate Took(queue: seq<bool>, queue': seq<bool>, batch: seq<bool>) {
    && 1 <= |batch| <= |queue| && queue' == queue[..|queue| - |batch|]
    && forall k | 0 <= k < |batch| :: batch[k] == queue[|queue| - 1 - k]
  }

  /** How many checks a thread takes: its share of the queue, at least one and at most a full batch. */
  function BatchLength(n: nat, threads: int, limit: nat): (r: nat)
    requires n > 0
    ensures 1 <= r <= n && (r > 1 ==> r <= limit)
    ensures threads >= 0 && r > 1 ==> r * (threads + 1) <= n
    ensures threads >= 0 && r < limit ==> n < (r + 1) * (threads + 1)
  {
    if threads < 0 then 1
    else
      ShareFits(n, threads + 1);
      var share := n / (threads + 1);
      var now := if share < limit then share else limit;
      if now < 1 then 1 else now
  }

  /** The last n checks of a queue, last first. */
  function FromBack(queue: seq<bool>, n: nat): (r: seq<bool>)
    requires n <= |queue|
    ensures |r| == n && forall j | 0 <= j < n :: r[j] == queue[|queue| - 1 - j]
  {
    if n == 0 then [] else FromBack(queue, n - 1) + [queue[|queue| - n]]
  }

  /** A thread in its section takes a batch, or waits if there is nothing to take. */
  function Turn(s: State, limit: nat): (State, Pc) {
    if s.queue == [] then (s.(nIdle := s.nIdle + 1), Waiting(false))
    else
      var n := BatchLength(|s.queue|, s.nTotal + s.nIdle, limit);
      (s.(queue := s.queue[..|s.queue| - n]), Working(FromBack(s.queue, n), s.fAllOk))
  }

  function WorkerTurn(s: State, i: nat, limit: nat): State
    requires i < |s.workers|
  {
    var (s', p) := Turn(s, limit);
    SetWorker(s', i, p)
  }

  /** The master returns instead of waiting when everything is done. */
  function MasterTurn(s: State, limit: nat): State {
    if s.queue == [] && s.nTodo == 0 then s.(nTotal := s.nTotal - 1, fAllOk := true, open := false, added := [])
    else
      var (s', p) := Turn(s, limit);
      s'.(master := p)
  }

  lemma TookAll(queue: seq<bool>, queue': seq<bool>, batch: seq<bool>)
    requires Took(queue, queue', batch)
    ensures AllOk(queue) <==> AllOk(queue') && AllOk(batch)
  {
    if AllOk(queue') && AllOk(batch) {
      forall i | 0 <= i < |queue| ensures queue[i] {
        if i < |queue'| {
          assert queue'[i];
        } else {
          assert batch[|queue| - 1 - i];
        }
      }
    }
    if AllOk(queue) {
      forall k | 0 <= k < |batch| ensures batch[k] {
        assert queue[|queue| - 1 - k];
      }
    }
  }

  lemma CleanMoved(ws: seq<Pc>, i: nat, p: Pc)
    requires i < |ws|
    ensures Clean(p) && AllClean(ws[i := Outside]) <==> AllClean(ws[i := p])
  {
    var a, b := ws[i := Outside], ws[i := p];
    if AllClean(b) {
      forall k | 0 <= k < |a| ensures Clean(a[k]) {
        assert Clean(b[k]);
      }
      assert Clean(b[i]);
    }
    if AllClean(a) && Clean(p) {
      forall k | 0 <= k < |b| ensures Clean(b[k]) {
        assert Clean(a[k]);
      }
    }
  }

  /** A worker in its section takes a batch. */
  lemma WorkerTakes(s: State, i: nat, queue': seq<bool>, batch: seq<bool>)
    requires Inv(s, Worker(i)) && Took(s.queue, queue', batch)
    ensures Inv(SetWorker(s, i, Working(batch, s.fAllOk)).(queue := queue'), Nobody)
  {
    var p := Working(batch, s.fAllOk);
    Moved(s.workers, i, p);
    TookAll(s.queue, queue', batch);
    CleanMoved(s.workers, i, p);
    assert s.workers[i := Outside] == s.workers;
    var s' := SetWorker(s, i, p).(queue := queue');
    assert Awake(s'.workers[i]);
    assert OutcomeOk(s');
  }

  /** A worker in its section finds nothing and waits. */
  lemma WorkerWaits(s: State, i: nat)
    requires Inv(s, Worker(i)) && s.queue == []
    ensures Inv(SetWorker(s, i, Waiting(false)).(nIdle := s.nIdle + 1), Nobody)
  {
    var p := Waiting(false);
    Moved(s.workers, i, p);
    CleanMoved(s.workers, i, p);
    assert s.workers[i := Outside] == s.workers;
  }

  lemma WorkerStarts(s: State)
    requires Inv(s, Nobody)
    ensures Inv(s.(workers := s.workers + [Outside], nTotal := s.nTotal + 1), Worker(|s.workers|))
  {
    Joined(s.workers, Outside);
    var ws := s.workers + [Outside];
    assert AllClean(ws) <==> AllClean(s.workers) by {
      if AllClean(ws) {
        forall i | 0 <= i < |s.workers| ensures Clean(s.workers[i]) {
          assert Clean(ws[i]);
        }
      }
    }
  }

  /** The clean-up of a worker: the master is notified if this was the last work. */
  function WorkerDone(s: State, i: nat): State
    requires i < |s.workers| && s.workers[i].Working?
  {
    var p := s.workers[i];
    var nTodo := s.nTodo - |p.batch|;
    SetWorker(s, i, Outside).(
      nTodo := nTodo, fAllOk := s.fAllOk && p.ok && Executed(p.batch),
      master := if nTodo == 0 && s.master.Waiting? then Waiting(true) else s.master)
  }

  /** The outcome of a batch that is not skipped. */
  function Executed(batch: seq<bool>): (ok: bool)
    ensures ok <==> AllOk(batch)
  {
    if batch == [] then true else batch[0] && Executed(batch[1..])
  }

  lemma WorkerFinishes(s: State, i: nat)
    requires Inv(s, Nobody) && i < |s.workers| && s.workers[i].Working?
    ensures Inv(WorkerDone(s, i), Worker(i))
  {
    var p := s.workers[i];
    Moved(s.workers, i, Outside);
    CleanMoved(s.workers, i, p);
    assert s.workers[i := p] == s.workers;
    assert Honest(p, s.fAllOk);
    hide InFlight, IdleCount, Executed;
    var s' := WorkerDone(s, i);
    assert CountsOk(s', Worker(i)) && ThreadsOk(s', Worker(i)) && OutcomeOk(s');
  }

  lemma WorkerWakes(s: State, i: nat)
    requires Inv(s, Nobody) && i < |s.workers| && s.workers[i].Waiting?
    ensures Inv(SetWorker(s, i, Outside).(nIdle := s.nIdle - 1), Worker(i))
  {
    Moved(s.workers, i, Outside);
    CleanMoved(s.workers, i, s.workers[i]);
    assert s.workers[i := s.workers[i]] == s.workers;
  }

  lemma MasterEnters(s: State)
    requires Inv(s, Nobody) && s.open && s.master.Outside?
    ensures Inv(s.(nTotal := s.nTotal + 1), Master)
  {
  }

  lemma MasterTakes(s: State, queue': seq<bool>, batch: seq<bool>)
    requires Inv(s, Master) && Took(s.queue, queue', batch)
    ensures Inv(s.(queue := queue', master := Working(batch, s.fAllOk)), Nobody)
  {
    TookAll(s.queue, queue', batch);
  }

  lemma MasterWaits(s: State)
    requires Inv(s, Master) && s.queue == [] && s.nTodo != 0
    ensures Inv(s.(master := Waiting(false), nIdle := s.nIdle + 1), Nobody)
  {
  }

  lemma MasterFinishes(s: State)
    requires Inv(s, Nobody) && s.master.Working?
    ensures Inv(s.(nTodo := s.nTodo - |s.master.batch|, fAllOk := s.fAllOk && s.master.ok && Executed(s.master.batch), master := Outside), Master)
  {
    hide Executed;
  }

  lemma MasterWakes(s: State)
    requires Inv(s, Nobody) && s.master.Waiting?
    ensures Inv(s.(nIdle := s.nIdle - 1, master := Outside), Master)
  {
  }

  /** With nothing queued or in flight, no thread holds a batch and the recorded outcome is final. */
  lemma NothingLeft(s: State, inside: Inside)
    requires Inv(s, inside) && s.nTodo == 0
    ensures s.queue == [] && (forall j | 0 <= j < |s.workers| :: !s.workers[j].Working?) && !s.master.Working?
    ensures s.fAllOk <==> AllOk(s.added)
  {
    forall j | 0 <= j < |s.workers| ensures !s.workers[j].Working? {
      NobodyWorks(s.workers, j);
    }
  }

  /** Wait returns: the result is the outcome of everything added, and the queue is ready for the next user. */
  lemma MasterReturns(s: State)
    requires Inv(s, Master) && s.queue == [] && s.nTodo == 0
    ensures s.fAllOk <==> AllOk(s.added)
    ensures Inv(s.(nTotal := s.nTotal - 1, fAllOk := true, open := false, added := []), Nobody)
  {
    NothingLeft(s, Master);
  }

  /** What notifying may do: wake-ups are handed to waiting threads, at least one if any is without. */
  ghost predicate Notified(ws: seq<Pc>, ws': seq<Pc>) {
    && |ws'| == |ws|
    && (forall i | 0 <= i < |ws| :: ws'[i] == ws[i] || (ws[i].Waiting? && ws'[i] == Waiting(true)))
    && (ws != [] && (forall i | 0 <= i < |ws| :: !ws[i].Outside?) ==> SomeAwake(ws'))
  }

  lemma MasterAdds(s: State, checks: seq<bool>, ws': seq<Pc>)
    requires Inv(s, Nobody) && s.open && s.master.Outside?
    requires checks != [] ==> Notified(s.workers, ws')
    requires checks == [] ==> ws' == s.workers
    ensures Inv(s.(queue := s.queue + checks, nTodo := s.nTodo + |checks|, added := s.added + checks, workers := ws'), Nobody)
  {
    if checks != [] {
      Renotified(s.workers, ws');
    }
    AllOkAppend(s.queue, checks);
    AllOkAppend(s.added, checks);
    assert AllClean(ws') <==> AllClean(s.workers) by {
      if AllClean(ws') {
        forall i | 0 <= i < |s.workers| ensures Clean(s.workers[i]) {
          assert Clean(ws'[i]);
        }
      }
    }
    forall j | 0 <= j < |ws'| ensures Honest(ws'[j], s.fAllOk) {
      assert Honest(s.workers[j], s.fAllOk);
    }
    hide InFlight, IdleCount;
  }

  lemma AllOkAppend(a: seq<bool>, b: seq<bool>)
    ensures AllOk(a + b) <==> AllOk(a) && AllOk(b)
  {
    if AllOk(a + b) {
      forall i | 0 <= i < |a| ensures a[i] {
        assert (a + b)[i];
      }
      forall i | 0 <= i < |b| ensures b[i] {
        assert (a + b)[|a| + i];
      }
    }
  }

  /** While the master sleeps without a wake-up coming, some worker is at work: the protocol cannot hang. */
  lemma MasterNeverStuck(s: State) returns (i: nat)
    requires Inv(s, Nobody) && s.master == Waiting(false)
    ensures i < |s.workers| && s.workers[i].Working? && s.nTodo > 0
  {
    i := SomeoneWorks(s.workers);
  }

  /** What the three counters of an idle queue mean for the threads and the checks. */
  lemma IdleMeans(s: State)
    requires Inv(s, Nobody)
    ensures s.nTotal == s.nIdle && s.nTodo == 0 && s.fAllOk <==>
            s.queue == [] && (forall j | 0 <= j < |s.workers| :: s.workers[j].Waiting?) && !s.master.Working? && AllOk(s.added)
    ensures !s.open ==> s.nTotal == s.nIdle && s.nTodo == 0 && s.fAllOk
  {
    AllWaiting(s.workers);
    if InFlight(s.workers) > 0 {
      var i := SomeoneWorks(s.workers);
    }
    if s.nTodo == 0 {
      NothingLeft(s, Nobody);
    }
  }

  lemma Opened(s: State)
    requires Inv(s, Nobody) && !s.open
    ensures Inv(s.(open := true), Nobody)
  {
  }

  lemma CountsNonNegative(s: State, inside: Inside)
    requires Inv(s, inside)
    ensures s.nTotal >= 0 && s.nIdle >= 0
  {
  }

  lemma ShareFits(n: nat, d: nat)
    requires d >= 1
    ensures 0 <= n / d <= n && n / d * d <= n < (n / d + 1) * d
    ensures n / d < 1 ==> n < 2 * d
  {
  }

  lemma FreshQueue(s: State)
    requires s.queue == [] && s.workers == [] && s.added == [] && s.master == Outside && s.fAllOk && !s.open
    requires s.nIdle == 0 && s.nTotal == 0 && s.nTodo == 0
    ensures Inv(s, Nobody)
  {
  }

  lemma InsideFacts(s: State)
    requires Inv(s, Nobody)
    ensures s.nTodo >= 0
    ensures s.master.Working? ==> |s.master.batch| > 0
    ensures s.master.Waiting? ==> s.queue == []
  {
  }

  lemma WorkerHolds(s: State, i: nat)
    requires Inv(s, Nobody) && i < |s.workers| && s.workers[i].Working?
    ensures |s.workers[i].batch| > 0
  {
  }

  // ---------------------------------------------------------------- the queue object

  /** One step of some thread. The master adds and waits only under a controller. */
  datatype Action =
    | StartWorker
    | WorkerBack(i: nat)
    | WorkerWake(i: nat)
    | NewController
    | MasterAdd(checks: seq<bool>, pick: nat)
    | MasterWait
    | MasterBack
    | MasterWake

  /** A completed Wait: the checks it covered and the result it gave. */
  datatype Report = Report(checks: seq<bool>, result: bool)

  ghost predicate Truthful(log: seq<Report>) {
    forall i | 0 <= i < |log| :: log[i].result <==> AllOk(log[i].checks)
  }

  class CheckQueue {
    const nBatchSize: nat
    var queue: seq<bool>
    var nIdle: int
    var nTotal: int
    var fAllOk: bool
    var nTodo: int
    // the threads and the master's controller
    var workers: seq<Pc>
    var master: Pc
    var open: bool
    ghost var added: seq<bool>
    ghost var log: seq<Report>

    ghost function St(): State
      reads this
    {
      State(queue, nIdle, nTotal, fAllOk, nTodo, workers, master, open, added)
    }

    ghost predicate Valid()
      reads this
    {
      Inv(St(), Nobody) && Truthful(log)
    }

    constructor (batchSize: nat)
      ensures Valid() && workers == [] && !open && log == []
    {
      nBatchSize := batchSize;
      queue, nIdle, nTotal, fAllOk, nTodo := [], 0, 0, true, 0;
      workers, master, open := [], Outside, false;
      added, log := [], [];
      new;
      hide Inv;
      FreshQueue(St());
    }

    /** Decides the batch size and moves that many checks off the back of the queue. */
    method TakeBatch() returns (batch: seq<bool>)
      requires queue != [] && nTotal + nIdle >= 0
      modifies this`queue
      ensures Took(old(queue), queue, batch)
      ensures var n := BatchLength(|old(queue)|, nTotal + nIdle, nBatchSize);
              batch == FromBack(old(queue), n) && queue == old(queue)[..|old(queue)| - n]
    {
      var share := |queue| / (nTotal + nIdle + 1);
      ShareFits(|queue|, nTotal + nIdle + 1);
      var nNow := if share < nBatchSize then share else nBatchSize;
      nNow := if nNow < 1 then 1 else nNow;
      batch := [];
      for k := 0 to nNow
        invariant |batch| == k && queue == old(queue)[..|old(queue)| - k]
        invariant forall j | 0 <= j < k :: batch[j] == old(queue)[|old(queue)| - 1 - j]
      {
        batch := batch + [queue[|queue| - 1]];
        queue := queue[..|queue| - 1];
      }
    }

    /** Runs a batch; nothing more is evaluated after a failure. */
    method Execute(batch: seq<bool>, before: bool) returns (fOk: bool)
      ensures fOk == (before && Executed(batch))
    {
      fOk := before;
      for k := 0 to |batch|
        invariant fOk == (before && forall j | 0 <= j < k :: batch[j])
      {
        if fOk {
          fOk := batch[k];
        }
      }
    }

    /** The rest of a worker's critical section: take a batch or go to sleep. */
    method WorkerProceeds(i: nat)
      requires Inv(St(), Worker(i)) && Truthful(log)
      modifies this`queue, this`nIdle, this`workers
      ensures Valid() && i < |old(workers)| && St() == WorkerTurn(old(St()), i, nBatchSize)
    {
      hide CountsOk, OutcomeOk, NoLostWakeup, AtRest, Truthful;
      if queue == [] {
        WorkerWaits(St(), i);
        nIdle, workers := nIdle + 1, workers[i := Waiting(false)];
      } else {
        ghost var s := St();
        CountsNonNegative(s, Worker(i));
        var batch := TakeBatch();
        WorkerTakes(s, i, queue, batch);
        workers := workers[i := Working(batch, fAllOk)];
      }
    }

    /** The rest of the master's critical section: take a batch, sleep, or return the result. */
    method MasterProceeds() returns (done: bool, result: bool)
      requires Inv(St(), Master) && Truthful(log)
      modifies this`queue, this`nIdle, this`nTotal, this`fAllOk, this`master, this`open, this`added, this`log
      ensures Valid() && St() == MasterTurn(old(St()), nBatchSize) && (done <==> old(queue) == [] && nTodo == 0)
      ensures old(queue) == [] && !done ==> master == Waiting(false)
      ensures done ==> queue == [] && nTodo == 0 && (result <==> AllOk(old(added))) && log == old(log) + [Report(old(added), result)]
      ensures !done ==> log == old(log) && added == old(added) && !master.Outside?
      ensures done ==> master.Outside?
    {
      hide CountsOk, OutcomeOk, NoLostWakeup, AtRest;
      done, result := false, false;
      if queue == [] {
        if nTodo == 0 {
          MasterReturns(St());
          done, result := true, fAllOk;
          log := log + [Report(added, result)];
          nTotal, fAllOk, open, added := nTotal - 1, true, false, [];
        } else {
          MasterWaits(St());
          nIdle, master := nIdle + 1, Waiting(false);
        }
      } else {
        ghost var s := St();
        CountsNonNegative(s, Master);
        var batch := TakeBatch();
        MasterTakes(s, queue, batch);
        master := Working(batch, fAllOk);
      }
    }

    /** A worker returns from its batch. */
    method WorkerReturns(i: nat)
      requires Valid() && i < |workers| && workers[i].Working?
      modifies this`queue, this`nIdle, this`workers, this`fAllOk, this`nTodo, this`master
      ensures Valid() && nTodo == old(nTodo) - |old(workers)[i].batch|
      ensures St() == WorkerTurn(WorkerDone(old(St()), i), i, nBatchSize)
      ensures master == old(master) || (old(master).Waiting? && master == Waiting(true))
    {
      hide CountsOk, OutcomeOk, NoLostWakeup, AtRest, Truthful;
      WorkerFinishes(St(), i);
      var p := workers[i];
      var fOk := Execute(p.batch, p.ok);
      fAllOk, nTodo, workers := fAllOk && fOk, nTodo - |p.batch|, workers[i := Outside];
      if nTodo == 0 {
        if master.Waiting? {
          master := Waiting(true);
        }
      }
      WorkerProceeds(i);
    }

    /** Adds checks and notifies one worker for one check, all of them for more. */
    method Add(checks: seq<bool>, pick: nat)
      requires Valid() && open && master.Outside?
      modifies this`queue, this`nTodo, this`workers, this`added
      ensures Valid() && queue == old(queue) + checks && added == old(added) + checks && nTodo == old(nTodo) + |checks|
      ensures if checks == [] then workers == old(workers) else Notified(old(workers), workers)
    {
      hide CountsOk, OutcomeOk, NoLostWakeup, AtRest, Truthful;
      var ws := workers;
      if |checks| == 1 {
        ws := NotifyOne(pick);
      } else if |checks| > 1 {
        ws := NotifyAll();
      }
      MasterAdds(St(), checks, ws);
      queue, nTodo, workers, added := queue + checks, nTodo + |checks|, ws, added + checks;
    }

    method NotifyAll() returns (ws: seq<Pc>)
      ensures Notified(workers, ws)
      ensures |ws| == |workers| && forall j | 0 <= j < |ws| :: ws[j] == if workers[j].Waiting? then Waiting(true) else workers[j]
    {
      ws := [];
      for k := 0 to |workers|
        invariant |ws| == k && forall j | 0 <= j < k :: ws[j] == if workers[j].Waiting? then Waiting(true) else workers[j]
      {
        ws := ws + [if workers[k].Waiting? then Waiting(true) else workers[k]];
      }
      assert workers != [] && !workers[0].Outside? ==> Awake(ws[0]);
    }

    /** Wakes the given sleeper, or else the first one without a wake-up. */
    method NotifyOne(pick: nat) returns (ws: seq<Pc>)
      ensures Notified(workers, ws)
      ensures ws == workers || exists k :: 0 <= k < |workers| && workers[k] == Waiting(false) && ws == workers[k := Waiting(true)]
    {
      ws := workers;
      if pick < |workers| && workers[pick] == Waiting(false) {
        ws := workers[pick := Waiting(true)];
        assert Awake(ws[pick]);
        return;
      }
      for k := 0 to |workers|
        invariant forall j | 0 <= j < k :: workers[j] != Waiting(false)
      {
        if workers[k] == Waiting(false) {
          ws := workers[k := Waiting(true)];
          assert Awake(ws[k]);
          return;
        }
      }
      assert workers != [] && !workers[0].Outside? ==> Awake(ws[0]);
    }

    /** IsIdle: every thread sleeps, nothing is left to do and nothing has failed; so it is between two users. */
    method IsIdle() returns (idle: bool)
      requires Valid()
      ensures idle <==> queue == [] && (forall j | 0 <= j < |workers| :: workers[j].Waiting?) && !master.Working? && AllOk(added)
      ensures !open ==> idle
    {
      IdleMeans(St());
      hide Inv, Truthful, AllOk;
      idle := nTotal == nIdle && nTodo == 0 && fAllOk == true;
    }

    /** A worker thread enters the loop. */
    method WorkerEnters()
      requires Valid()
      modifies this`queue, this`nIdle, this`nTotal, this`workers
      ensures Valid() && St() == WorkerTurn(old(St()).(workers := old(workers) + [Outside], nTotal := old(nTotal) + 1), |old(workers)|, nBatchSize)
    {
      hide Inv, Truthful;
      WorkerStarts(St());
      workers, nTotal := workers + [Outside], nTotal + 1;
      WorkerProceeds(|workers| - 1);
    }

    /** A worker's wait ends, notified or not. */
    method WorkerWakesUp(i: nat)
      requires Valid() && i < |workers| && workers[i].Waiting?
      modifies this`queue, this`nIdle, this`workers
      ensures Valid() && St() == WorkerTurn(SetWorker(old(St()), i, Outside).(nIdle := old(nIdle) - 1), i, nBatchSize)
    {
      hide Inv, Truthful;
      WorkerWakes(St(), i);
      nIdle, workers := nIdle - 1, workers[i := Outside];
      WorkerProceeds(i);
    }

    /** Constructing a controller; its assertion holds. */
    method Open()
      requires Valid() && !open
      modifies this`open
      ensures Valid() && open
    {
      hide Inv, Truthful;
      var isIdle := IsIdle();
      assert isIdle;
      Opened(St());
      open := true;
    }

    /** Wait, up to its first release of the lock. A result given here or later covers exactly the checks
        added under this controller, with none of them queued or running. */
    method Wait() returns (done: bool, result: bool)
      requires Valid() && open && master.Outside?
      modifies this`queue, this`nIdle, this`nTotal, this`fAllOk, this`master, this`open, this`added, this`log
      ensures Valid() && St() == MasterTurn(old(St()).(nTotal := old(nTotal) + 1), nBatchSize)
      ensures done ==> queue == [] && nTodo == 0 && (result <==> AllOk(old(added))) && log == old(log) + [Report(old(added), result)]
      ensures !done ==> log == old(log) && added == old(added) && !master.Outside?
      ensures done ==> master.Outside?
    {
      hide Inv, Truthful;
      MasterEnters(St());
      nTotal := nTotal + 1;
      done, result := MasterProceeds();
    }

    method MasterReturnsFromBatch() returns (done: bool, result: bool)
      requires Valid() && master.Working?
      modifies this`queue, this`nIdle, this`nTotal, this`nTodo, this`fAllOk, this`master, this`open, this`added, this`log
      ensures Valid() && nTodo == old(nTodo) - |old(master).batch|
      ensures St() == MasterTurn(old(St()).(nTodo := nTodo, fAllOk := old(fAllOk && master.ok && Executed(master.batch)), master := Outside), nBatchSize)
      ensures done ==> queue == [] && nTodo == 0 && (result <==> AllOk(old(added))) && log == old(log) + [Report(old(added), result)]
      ensures !done ==> log == old(log) && added == old(added) && !master.Outside?
      ensures done ==> master.Outside?
    {
      hide Inv, Truthful;
      MasterFinishes(St());
      var fOk := Execute(master.batch, master.ok);
      fAllOk, nTodo, master := fAllOk && fOk, nTodo - |master.batch|, Outside;
      done, result := MasterProceeds();
    }

    method MasterWakesUp() returns (done: bool, result: bool)
      requires Valid() && master.Waiting?
      modifies this`queue, this`nIdle, this`nTotal, this`fAllOk, this`master, this`open, this`added, this`log
      ensures Valid() && St() == MasterTurn(old(St()).(nIdle := old(nIdle) - 1, master := Outside), nBatchSize)
      ensures old(queue) == [] && !done ==> master == Waiting(false)
      ensures done ==> queue == [] && nTodo == 0 && (result <==> AllOk(old(added))) && log == old(log) + [Report(old(added), result)]
      ensures !done ==> log == old(log) && added == old(added) && !master.Outside?
      ensures done ==> master.Outside?
    {
      hide Inv, Truthful;
      MasterWakes(St());
      nIdle, master := nIdle - 1, Outside;
      done, result := MasterProceeds();
    }

    /** From any reachable state inside Wait, running the threads that can run brings Wait to its end. */
    method Finish() returns (result: bool)
      requires Valid() && !master.Outside?
      modifies this
      ensures Valid() && master.Outside? && queue == [] && nTodo == 0 && (result <==> AllOk(old(added)))
    {
      hide Inv, Truthful, AllOk;
      var done := false;
      result := false;
      while !done
        invariant Valid() && (done <==> master.Outside?)
        invariant !done ==> added == old(added)
        invariant done ==> queue == [] && nTodo == 0 && (result <==> AllOk(old(added)))
        decreases !done, nTodo, master == Waiting(true)
      {
        InsideFacts(St());
        if master.Working? {
          done, result := MasterReturnsFromBatch();
        } else if master.notified {
          done, result := MasterWakesUp();
        } else {
          ghost var w := MasterNeverStuck(St());
          var i := 0;
          while !workers[i].Working?
            invariant i <= w < |workers|
            decreases w - i
          {
            i := i + 1;
          }
          WorkerHolds(St(), i);
          WorkerReturns(i);
        }
        if !done {
          InsideFacts(St());
        }
      }
    }

    /** Any schedule: every state keeps the invariant, every Wait reports the truth, and the idleness
        assertion of every new controller holds. Actions that are not possible are skipped. */
    method Run(schedule: seq<Action>)
      requires Valid()
      modifies this
      ensures Valid() && old(log) <= log
    {
      hide Inv, Truthful, AllOk;
      for k := 0 to |schedule|
        invariant Valid() && old(log) <= log
      {
        match schedule[k] {
          case StartWorker =>
            WorkerEnters();
          case WorkerBack(i) =>
            if i < |workers| && workers[i].Working? {
              WorkerReturns(i);
            }
          case WorkerWake(i) =>
            if i < |workers| && workers[i].Waiting? {
              WorkerWakesUp(i);
            }
          case NewController =>
            if !open {
              Open();
            }
          case MasterAdd(checks, pick) =>
            if open && master.Outside? {
              Add(checks, pick);
            }
          case MasterWait =>
            if open && master.Outside? {
              var _, _ := Wait();
            }
          case MasterBack =>
            if master.Working? {
              var _, _ := MasterReturnsFromBatch();
            }
          case MasterWake =>
            if master.Waiting? {
              var _, _ := MasterWakesUp();
            }
        }
      }
    }
  }
}
