/** Why Wait ends: every step of a thread inside Wait that is not an idle wake-up lowers one measure, and while Wait
    goes on some thread has such a step. */
module CheckProgress {
  import opened CheckQueue

  /** A step of some thread while the master waits for the checks. */
  datatype Move = WorkerReturns(i: nat) | WorkerWakesUp(i: nat) | MasterReturnsFromBatch | MasterWakesUp

  predicate CanMove(s: State, m: Move) {
    match m
    case WorkerReturns(i) => i < |s.workers| && s.workers[i].Working?
    case WorkerWakesUp(i) => i < |s.workers| && s.workers[i].Waiting?
    case MasterReturnsFromBatch => s.master.Working?
    case MasterWakesUp => s.master.Waiting?
  }

  /** The state after a step, with the given limit of a batch. */
  function After(s: State, m: Move, limit: nat): State
    requires CanMove(s, m)
  {
    match m
    case WorkerReturns(i) => WorkerTurn(WorkerDone(s, i), i, limit)
    case WorkerWakesUp(i) => WorkerTurn(SetWorker(s, i, Outside).(nIdle := s.nIdle - 1), i, limit)
    case MasterReturnsFromBatch =>
      MasterTurn(s.(nTodo := s.nTodo - |s.master.batch|, fAllOk := s.fAllOk && s.master.ok && Executed(s.master.batch), master := Outside), limit)
    case MasterWakesUp => MasterTurn(s.(nIdle := s.nIdle - 1, master := Outside), limit)
  }

  /** Every step keeps the invariant. */
  lemma AfterKeeps(s: State, m: Move, limit: nat)
    requires Inv(s, Nobody) && CanMove(s, m)
    ensures Inv(After(s, m, limit), Nobody)
  {
    hide Inv;
    match m {
      case WorkerReturns(i) =>
        WorkerFinishes(s, i);
        TurnKeeps(WorkerDone(s, i), i, limit);
      case WorkerWakesUp(i) =>
        WorkerWakes(s, i);
        TurnKeeps(SetWorker(s, i, Outside).(nIdle := s.nIdle - 1), i, limit);
      case MasterReturnsFromBatch =>
        MasterFinishes(s);
        MasterTurnKeeps(s.(nTodo := s.nTodo - |s.master.batch|, fAllOk := s.fAllOk && s.master.ok && Executed(s.master.batch), master := Outside), limit);
      case MasterWakesUp =>
        MasterWakes(s);
        MasterTurnKeeps(s.(nIdle := s.nIdle - 1, master := Outside), limit);
    }
  }

  lemma TurnKeeps(s: State, i: nat, limit: nat)
    requires i < |s.workers| && Inv(s, Worker(i))
    ensures Inv(WorkerTurn(s, i, limit), Nobody)
  {
    hide Inv;
    if s.queue == [] {
      WorkerWaits(s, i);
    } else {
      var n := BatchLength(|s.queue|, s.nTotal + s.nIdle, limit);
      WorkerTakes(s, i, s.queue[..|s.queue| - n], FromBack(s.queue, n));
    }
  }

  lemma MasterTurnKeeps(s: State, limit: nat)
    requires Inv(s, Master)
    ensures Inv(MasterTurn(s, limit), Nobody)
  {
    hide Inv;
    if s.queue == [] && s.nTodo == 0 {
      MasterReturns(s);
    } else if s.queue == [] {
      MasterWaits(s);
    } else {
      var n := BatchLength(|s.queue|, s.nTotal + s.nIdle, limit);
      MasterTakes(s, s.queue[..|s.queue| - n], FromBack(s.queue, n));
    }
  }

  // ---------------------------------------------------------------- the measure

  function Note(p: Pc): nat { if p == Waiting(true) then 1 else 0 }

  ghost function Notes(ws: seq<Pc>): nat {
    if ws == [] then 0 else Notes(ws[..|ws| - 1]) + Note(ws[|ws| - 1])
  }

  lemma {:induction false} NotesMoved(ws: seq<Pc>, i: nat, p: Pc)
    requires i < |ws|
    ensures Notes(ws[i := p]) == Notes(ws) - Note(ws[i]) + Note(p)
  {
    var k := |ws| - 1;
    if i == k {
      assert ws[i := p][..k] == ws[..k];
    } else {
      NotesMoved(ws[..k], i, p);
      assert ws[i := p][..k] == ws[..k][i := p];
    }
  }

  /** Checks to do, checks to hand out and wake-ups to deliver. */
  ghost function Rank(s: State): int {
    2 * s.nTodo + |s.queue| + Notes(s.workers) + Note(s.master)
  }

  /** A wake-up without a reason that finds nothing to do. */
  predicate IdleWake(s: State, m: Move) {
    s.queue == [] &&
    match m
    case WorkerReturns(_) => false
    case WorkerWakesUp(i) => i < |s.workers| && s.workers[i] == Waiting(false)
    case MasterReturnsFromBatch => false
    case MasterWakesUp => s.master == Waiting(false) && s.nTodo != 0
  }

  /** An idle wake-up changes nothing at all. */
  lemma IdleWakeIsNothing(s: State, m: Move, limit: nat)
    requires CanMove(s, m) && IdleWake(s, m)
    ensures After(s, m, limit) == s
  {
    if m.WorkerWakesUp? {
      assert s.workers[m.i := Outside][m.i := Waiting(false)] == s.workers;
    }
  }

  lemma WorkerReturnsDescends(s: State, i: nat, limit: nat)
    requires Inv(s, Nobody) && i < |s.workers| && s.workers[i].Working?
    ensures Rank(After(s, WorkerReturns(i), limit)) < Rank(s)
  {
    var d := WorkerDone(s, i);
    var p := Turn(d, limit).1;
    NotesMoved(s.workers, i, Outside);
    NotesMoved(d.workers, i, p);
    WorkerHolds(s, i);
    hide Notes, Inv, Executed;
  }

  lemma WorkerWakeDescends(s: State, i: nat, limit: nat)
    requires Inv(s, Nobody) && i < |s.workers| && s.workers[i].Waiting? && !IdleWake(s, WorkerWakesUp(i))
    ensures Rank(After(s, WorkerWakesUp(i), limit)) < Rank(s)
  {
    var d := SetWorker(s, i, Outside).(nIdle := s.nIdle - 1);
    var p := Turn(d, limit).1;
    NotesMoved(s.workers, i, Outside);
    NotesMoved(d.workers, i, p);
    hide Notes, Inv;
  }

  lemma MasterDescends(s: State, m: Move, limit: nat)
    requires Inv(s, Nobody) && CanMove(s, m) && !IdleWake(s, m) && (m.MasterReturnsFromBatch? || m.MasterWakesUp?)
    ensures After(s, m, limit).master.Outside? || Rank(After(s, m, limit)) < Rank(s)
  {
    InsideFacts(s);
    hide Notes, Inv, Executed;
  }

  /** Inside Wait a step ends it, is an idle wake-up, or lowers the measure. */
  lemma Descends(s: State, m: Move, limit: nat)
    requires Inv(s, Nobody) && CanMove(s, m) && !IdleWake(s, m)
    ensures (!s.master.Outside? && After(s, m, limit).master.Outside?) || Rank(After(s, m, limit)) < Rank(s)
  {
    hide Inv, Rank, Executed;
    match m {
      case WorkerReturns(i) => WorkerReturnsDescends(s, i, limit);
      case WorkerWakesUp(i) => WorkerWakeDescends(s, i, limit);
      case MasterReturnsFromBatch => MasterDescends(s, m, limit);
      case MasterWakesUp => MasterDescends(s, m, limit);
    }
  }

  /** While Wait goes on, some thread has a step that is no idle wake-up. */
  lemma SomeoneMoves(s: State) returns (m: Move)
    requires Inv(s, Nobody) && !s.master.Outside?
    ensures CanMove(s, m) && !IdleWake(s, m)
  {
    if s.master.Working? {
      m := MasterReturnsFromBatch;
    } else if s.master.notified {
      m := MasterWakesUp;
    } else {
      var i := MasterNeverStuck(s);
      m := WorkerReturns(i);
    }
  }

  /** Steps that are possible one after the other and leave the master inside Wait, none an idle wake-up. */
  ghost predicate KeepsWaiting(s: State, moves: seq<Move>, limit: nat)
    decreases |moves|
  {
    !s.master.Outside? &&
    (moves == [] || (CanMove(s, moves[0]) && !IdleWake(s, moves[0]) && KeepsWaiting(After(s, moves[0], limit), moves[1..], limit)))
  }

  lemma RankNonNegative(s: State)
    requires Inv(s, Nobody)
    ensures Rank(s) >= 0
  {
  }

  /** However the threads are scheduled, Wait is over after that many steps other than idle wake-ups. */
  lemma {:induction false} WaitIsBounded(s: State, moves: seq<Move>, limit: nat)
    requires Inv(s, Nobody) && KeepsWaiting(s, moves, limit)
    ensures |moves| <= Rank(s)
    decreases |moves|
  {
    RankNonNegative(s);
    if moves != [] {
      Descends(s, moves[0], limit);
      AfterKeeps(s, moves[0], limit);
      hide Inv, Rank, After;
      WaitIsBounded(After(s, moves[0], limit), moves[1..], limit);
    }
  }
}
