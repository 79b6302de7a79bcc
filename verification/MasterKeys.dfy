/**
 * First-boot creation of the master key by any number of processes, interleaved statement by
 * statement (api/db/master_keys.go, with the indexes of db/01_master_keys.sql). Key material is
 * an opaque value; every process proposes an active key, as the one caller does.
 */
module MasterKeys {
  import opened Prelude
  import opened Sums

  datatype Status = Active | Retiring | Deleted

  /** Purging a key sets its material to NULL. */
  datatype Key = Key(material: Option<Id>, status: Status)

  type Keys = map<Id, Key>

  function ActiveIds(keys: Keys): set<Id> { set k | k in keys && keys[k].status.Active? }

  /** master_keys_one_active_idx. */
  ghost predicate OneActive(keys: Keys) { forall i <- ActiveIds(keys), j <- ActiveIds(keys) :: i == j }

  /** Where a process is in BootstrapMasterKey: the statement it runs next, or how it ended. */
  datatype Phase =
    | Idle
    | Waiting                                              // for the advisory lock
    | Locked                                               // about to check for an active key
    | Absent                                               // found none, about to insert
    | Inserted                                             // its row is there, uncommitted
    | Found(winner: Id, stored: Option<Id>)                // found one, about to commit
    | Returned(winner: Id, stored: Option<Id>, insertedNew: bool)
    | Failed
    | Unacknowledged                                       // its row is committed, but it got an error
    | IndexViolated

  /** A process and the key it generated. */
  datatype Process = Process(candidate: Id, material: Id, phase: Phase)

  /** Committed rows, the holder of the transaction-scoped lock, and the processes. */
  datatype System = System(keys: Keys, lock: Option<Id>, processes: map<Id, Process>)
  {
    predicate InPhase(p: Id, phase: Phase) { p in processes && processes[p].phase == phase }

    predicate HoldsLock(p: Id) {
      p in processes &&
      var phase := processes[p].phase; phase.Locked? || phase.Absent? || phase.Inserted? || phase.Found?
    }

    function Enter(p: Id, phase: Phase): System
      requires p in processes
    {
      this.(processes := processes[p := processes[p].(phase := phase)])
    }

    /** The transaction is over, so the lock is free. */
    function Finish(p: Id, phase: Phase): System
      requires p in processes
    {
      Enter(p, phase).(lock := None)
    }
  }

  /** Process p runs its next statement; a statement that has to wait changes nothing. */
  function Statement(s: System, p: Id): System
    requires p in s.processes
  {
    var process := s.processes[p];
    match process.phase
    case Idle => s.Enter(p, Waiting)
    case Waiting => if s.lock.None? then s.Enter(p, Locked).(lock := Some(p)) else s
    case Locked =>
      if ActiveIds(s.keys) == {} then s.Enter(p, Absent) else
      var winner := Least(ActiveIds(s.keys));
      s.Enter(p, Found(winner, s.keys[winner].material))
    case Found(winner, stored) => s.Finish(p, Returned(winner, stored, false))
    case Absent =>
      if exists q <- s.processes :: q != p && s.InPhase(q, Inserted) then s
      else if process.candidate in s.keys then s.Finish(p, Failed)
      else if ActiveIds(s.keys) != {} then s.Finish(p, IndexViolated)
      else s.Enter(p, Inserted)
    case Inserted => Committed(s, p, Returned(process.candidate, Some(process.material), true))
    case _ => s
  }

  /** The inserted row is there for all to see. */
  function Committed(s: System, p: Id, phase: Phase): System
    requires p in s.processes
  {
    var process := s.processes[p];
    s.Finish(p, phase).(keys := s.keys[process.candidate := Key(Some(process.material), Active)])
  }

  /** Process p dies or loses its connection before its commit: its transaction rolls back. */
  function Abort(s: System, p: Id): System
    requires p in s.processes
  {
    if s.HoldsLock(p) then s.Finish(p, Failed)
    else if s.processes[p].phase.Idle? || s.processes[p].phase.Waiting? then s.Enter(p, Failed)
    else s
  }

  /** The commit of an inserted row succeeds, but its acknowledgement is lost and the caller gets an error. */
  function LoseCommit(s: System, p: Id): System
    requires p in s.processes
  {
    if s.InPhase(p, Inserted) then Committed(s, p, Unacknowledged) else s
  }

  datatype Move = Next(process: Id) | Dies(process: Id) | LosesCommit(process: Id)

  function Step(s: System, move: Move): System {
    if move.process !in s.processes then s
    else
      match move
      case Next(p) => Statement(s, p)
      case Dies(p) => Abort(s, p)
      case LosesCommit(p) => LoseCommit(s, p)
  }

  function Run(s: System, moves: seq<Move>): System {
    if moves == [] then s else Step(Run(s, moves[..|moves| - 1]), moves[|moves| - 1])
  }

  /** A boot: no active key, no lock, no process begun. */
  ghost predicate Boot(s: System) {
    ActiveIds(s.keys) == {} && s.lock.None? && forall p <- s.processes :: s.InPhase(p, Idle)
  }

  // ── What every interleaving keeps ──────────────────────────────────────────

  predicate IsNew(s: System, p: Id) {
    p in s.processes && s.processes[p].phase.Returned? && s.processes[p].phase.insertedNew
  }

  /** The process stored the key, whether it was told so or not. */
  predicate Made(s: System, p: Id) { IsNew(s, p) || s.InPhase(p, Unacknowledged) }

  /** What a process in this phase may rely on. */
  ghost predicate PhaseHolds(s: System, p: Id)
    requires p in s.processes
  {
    match s.processes[p].phase
    case Absent => ActiveIds(s.keys) == {}
    case Inserted => ActiveIds(s.keys) == {} && s.processes[p].candidate !in s.keys
    case Found(winner, stored) => winner in ActiveIds(s.keys) && stored == s.keys[winner].material
    case Returned(winner, stored, insertedNew) =>
      && winner in ActiveIds(s.keys) && stored == s.keys[winner].material
      && (insertedNew ==> winner == s.processes[p].candidate && stored == Some(s.processes[p].material))
    case Unacknowledged =>
      && s.processes[p].candidate in ActiveIds(s.keys)
      && s.keys[s.processes[p].candidate].material == Some(s.processes[p].material)
    case IndexViolated => false
    case _ => true
  }

  ghost predicate Good(s: System) {
    && OneActive(s.keys)
    && (forall p: Id :: s.HoldsLock(p) <==> s.lock == Some(p))
    && (forall p <- s.processes :: PhaseHolds(s, p))
    && (forall p: Id, q: Id :: Made(s, p) && Made(s, q) ==> p == q)
    && (ActiveIds(s.keys) != {} <==> exists p <- s.processes :: Made(s, p))
  }

  lemma BootIsGood(s: System)
    requires Boot(s)
    ensures Good(s)
  {
  }

  /** A process moves to a phase whose promise holds, the table stays, and the lock follows the phase. */
  lemma MoveKeepsGood(s: System, p: Id, phase: Phase, lock: Option<Id>)
    requires Good(s) && p in s.processes
    requires PhaseHolds(s.Enter(p, phase).(lock := lock), p)
    requires s.Enter(p, phase).HoldsLock(p) <==> lock == Some(p)
    requires forall q: Id | q != p :: lock == Some(q) <==> s.lock == Some(q)
    requires !Made(s, p) && !phase.Unacknowledged? && !(phase.Returned? && phase.insertedNew)
    ensures Good(s.Enter(p, phase).(lock := lock))
  {
    var after := s.Enter(p, phase).(lock := lock);
    assert forall q: Id | q != p :: (q in after.processes <==> q in s.processes);
    assert forall q <- s.processes | q != p :: after.processes[q] == s.processes[q];
    forall q <- after.processes ensures PhaseHolds(after, q) {
      if q != p { assert PhaseHolds(s, q); }
    }
    forall q: Id ensures Made(after, q) <==> Made(s, q) {}
  }

  /** While p holds the lock, no other process is between its check and its commit. */
  lemma OthersOutside(s: System, p: Id, q: Id)
    requires Good(s) && s.HoldsLock(p) && q != p
    ensures !s.HoldsLock(q) && !s.InPhase(q, Inserted)
  {
  }

  lemma CommitKeepsGood(s: System, p: Id, phase: Phase)
    requires Good(s) && s.InPhase(p, Inserted)
    requires phase.Unacknowledged?
      || phase == Returned(s.processes[p].candidate, Some(s.processes[p].material), true)
    ensures Good(Committed(s, p, phase))
  {
    var after := Committed(s, p, phase);
    var candidate := s.processes[p].candidate;
    assert s.HoldsLock(p) && PhaseHolds(s, p);
    assert ActiveIds(after.keys) == {candidate};
    forall q <- s.processes | q != p
      ensures after.processes[q] == s.processes[q] && PhaseHolds(after, q) && !Made(after, q)
    {
      OthersOutside(s, p, q);
      assert PhaseHolds(s, q);
    }
    assert Made(after, p);
    forall q: Id ensures after.HoldsLock(q) <==> after.lock == Some(q) {
      if q in s.processes && q != p { OthersOutside(s, p, q); }
    }
  }

  lemma StatementKeepsGood(s: System, p: Id)
    requires Good(s) && p in s.processes
    ensures Good(Statement(s, p))
  {
    assert PhaseHolds(s, p);
    match s.processes[p].phase
    case Idle => MoveKeepsGood(s, p, Waiting, s.lock);
    case Waiting =>
      if s.lock.None? { MoveKeepsGood(s, p, Locked, Some(p)); }
    case Locked =>
      if ActiveIds(s.keys) == {} {
        MoveKeepsGood(s, p, Absent, s.lock);
      } else {
        var winner := Least(ActiveIds(s.keys));
        MoveKeepsGood(s, p, Found(winner, s.keys[winner].material), s.lock);
      }
    case Found(winner, stored) => MoveKeepsGood(s, p, Returned(winner, stored, false), None);
    case Absent =>
      if s.processes[p].candidate in s.keys {
        MoveKeepsGood(s, p, Failed, None);
      } else {
        MoveKeepsGood(s, p, Inserted, s.lock);
      }
    case Inserted =>
      CommitKeepsGood(s, p, Returned(s.processes[p].candidate, Some(s.processes[p].material), true));
    case _ =>
  }

  lemma AbortKeepsGood(s: System, p: Id)
    requires Good(s) && p in s.processes
    ensures Good(Abort(s, p))
  {
    if s.HoldsLock(p) {
      MoveKeepsGood(s, p, Failed, None);
    } else if s.processes[p].phase.Idle? || s.processes[p].phase.Waiting? {
      MoveKeepsGood(s, p, Failed, s.lock);
    }
  }

  lemma {:induction false} RunKeepsGood(s: System, moves: seq<Move>)
    requires Boot(s)
    ensures Good(Run(s, moves))
  {
    if moves == [] {
      BootIsGood(s);
    } else {
      var before := Run(s, moves[..|moves| - 1]);
      var move := moves[|moves| - 1];
      RunKeepsGood(s, moves[..|moves| - 1]);
      if move.process in before.processes {
        StatementKeepsGood(before, move.process);
        AbortKeepsGood(before, move.process);
        if before.InPhase(move.process, Inserted) { CommitKeepsGood(before, move.process, Unacknowledged); }
      }
    }
  }

  // ── The promises of the bootstrap ──────────────────────────────────────────

  /**
   * However the processes interleave and whichever of them die: at most one key is active, every
   * process that returns gets that one key with the material that is stored, exactly one process
   * made it, and at most that one is told so: a lost acknowledgement leaves the maker with an error.
   */
  lemma BootstrapIsExclusive(s: System, moves: seq<Move>, p: Id, q: Id)
    requires Boot(s) && p in Run(s, moves).processes && q in Run(s, moves).processes
    requires Run(s, moves).processes[p].phase.Returned? && Run(s, moves).processes[q].phase.Returned?
    ensures var end := Run(s, moves); var (mine, theirs) := (end.processes[p].phase, end.processes[q].phase);
      && ActiveIds(end.keys) == {mine.winner} && mine.winner == theirs.winner
      && mine.stored == theirs.stored == end.keys[mine.winner].material
      && (mine.insertedNew && theirs.insertedNew ==> p == q)
      && exists maker <- end.processes ::
           && Made(end, maker) && (forall other: Id :: Made(end, other) ==> other == maker)
           && end.processes[maker].candidate == mine.winner && (mine.insertedNew ==> p == maker)
  {
    var end := Run(s, moves);
    RunKeepsGood(s, moves);
    assert PhaseHolds(end, p) && PhaseHolds(end, q);
    assert end.processes[p].phase.insertedNew ==> Made(end, p);
    assert end.processes[q].phase.insertedNew ==> Made(end, q);
    var winner := end.processes[p].phase.winner;
    assert forall k <- ActiveIds(end.keys) :: k == winner;
    var maker: Id :| maker in end.processes && Made(end, maker);
    assert PhaseHolds(end, maker);
  }

  lemma NeverTwoActive(s: System, moves: seq<Move>)
    requires Boot(s)
    ensures OneActive(Run(s, moves).keys) && forall p: Id :: !Run(s, moves).InPhase(p, IndexViolated)
  {
    RunKeepsGood(s, moves);
    var end := Run(s, moves);
    forall p: Id ensures !end.InPhase(p, IndexViolated) {
      if p in end.processes { assert PhaseHolds(end, p); }
    }
  }

  // ── The bootstrap succeeds ─────────────────────────────────────────────────

  /** Process p runs its next n statements, and no other process moves. */
  function Alone(s: System, p: Id, n: nat): System {
    if n == 0 then s else Step(Alone(s, p, n - 1), Next(p))
  }

  /** Three statements: asking for the lock, taking it, and finding no active key. */
  lemma AloneFindsNone(s: System, p: Id)
    requires Boot(s) && p in s.processes
    ensures Alone(s, p, 3) == s.Enter(p, Absent).(lock := Some(p))
  {
    assert Alone(s, p, 1) == s.Enter(p, Waiting);
    assert Alone(s, p, 2) == s.Enter(p, Locked).(lock := Some(p));
  }

  /** That is a run. */
  lemma {:induction false} AloneIsRun(s: System, p: Id, n: nat) returns (moves: seq<Move>)
    ensures |moves| == n && (forall move <- moves :: move == Next(p)) && Alone(s, p, n) == Run(s, moves)
    decreases n
  {
    if n == 0 {
      moves := [];
    } else {
      var rest := AloneIsRun(s, p, n - 1);
      moves := rest + [Next(p)];
      assert moves[..n - 1] == rest;
    }
  }

  /** A process that dies before its commit leaves the table as it was and gives up the lock if it had it. */
  lemma DeathRollsBack(s: System, p: Id)
    requires Good(s) && p in s.processes && !Finished(s, p)
    ensures var after := Step(s, Dies(p));
      && after.keys == s.keys && after.InPhase(p, Failed) && after.lock != Some(p)
      && (s.lock != Some(p) ==> after.lock == s.lock)
      && forall q <- s.processes | q != p :: after.processes[q] == s.processes[q]
  {
    assert PhaseHolds(s, p);
  }

  /** A commit whose acknowledgement is lost stores the key all the same; the process is not told. */
  lemma LostCommitStores(s: System, p: Id)
    requires s.InPhase(p, Inserted)
    ensures var (after, me) := (Step(s, LosesCommit(p)), s.processes[p]);
      && after.keys == s.keys[me.candidate := Key(Some(me.material), Active)] && after.lock.None?
      && after.InPhase(p, Unacknowledged)
  {
  }

  lemma InsertGoesThrough(t: System, p: Id)
    requires t.InPhase(p, Absent) && t.processes[p].candidate !in t.keys && ActiveIds(t.keys) == {}
    requires forall q <- t.processes | q != p :: !t.InPhase(q, Inserted)
    ensures Statement(t, p) == t.Enter(p, Inserted)
  {
  }

  /** The insert waits for nobody and meets no row. */
  lemma AloneInserts(s: System, p: Id)
    requires Boot(s) && p in s.processes && s.processes[p].candidate !in s.keys
    ensures Alone(s, p, 4) == s.Enter(p, Inserted).(lock := Some(p))
  {
    AloneFindsNone(s, p);
    var t := s.Enter(p, Absent).(lock := Some(p));
    forall q <- t.processes | q != p ensures !t.InPhase(q, Inserted) { assert s.InPhase(q, Idle); }
    InsertGoesThrough(t, p);
    assert t.Enter(p, Inserted).processes == s.Enter(p, Inserted).processes;
  }

  /** Alone on a table without an active key, a process stores its key and is told that it is new. */
  lemma AloneStoresKey(s: System, p: Id)
    requires Boot(s) && p in s.processes && s.processes[p].candidate !in s.keys
    ensures var (end, me) := (Alone(s, p, 5), s.processes[p]);
      && end.keys == s.keys[me.candidate := Key(Some(me.material), Active)] && end.lock.None?
      && end.InPhase(p, Returned(me.candidate, Some(me.material), true))
  {
    AloneInserts(s, p);
    CommitGoesThrough(s.Enter(p, Inserted).(lock := Some(p)), p);
  }

  lemma CommitGoesThrough(t: System, p: Id)
    requires t.InPhase(p, Inserted)
    ensures var (after, me) := (Statement(t, p), t.processes[p]);
      && after == Step(t, Next(p))
      && after.keys == t.keys[me.candidate := Key(Some(me.material), Active)] && after.lock.None?
      && after.InPhase(p, Returned(me.candidate, Some(me.material), true))
  {
  }

  /** Alone on a table with an active key, it adopts that key and stores nothing. */
  lemma AloneAdoptsKey(s: System, p: Id, key: Id)
    requires s.InPhase(p, Idle) && s.lock.None? && ActiveIds(s.keys) == {key}
    ensures var end := Alone(s, p, 4);
      end.keys == s.keys && end.lock.None? && end.InPhase(p, Returned(key, s.keys[key].material, false))
  {
    assert Alone(s, p, 1) == s.Enter(p, Waiting);
    assert Alone(s, p, 2) == s.Enter(p, Locked).(lock := Some(p));
    assert Alone(s, p, 3) == s.Enter(p, Found(key, s.keys[key].material)).(lock := Some(p));
  }

  /** Alone with an id that an old key has, it fails and stores nothing. */
  lemma AloneFailsOnTakenId(s: System, p: Id)
    requires Boot(s) && p in s.processes && s.processes[p].candidate in s.keys
    ensures var end := Alone(s, p, 4); end.keys == s.keys && end.lock.None? && end.InPhase(p, Failed)
  {
    AloneFindsNone(s, p);
    var t := s.Enter(p, Absent).(lock := Some(p));
    assert forall q <- t.processes | q != p :: t.processes[q] == s.processes[q] && s.InPhase(q, Idle);
    assert Alone(s, p, 4) == Statement(t, p);
  }

  /** Without deaths, only a process whose id was taken at boot fails; until one stores a key, the table stays. */
  ghost predicate OnlyTakenFail(boot: System, s: System) {
    && s.processes.Keys == boot.processes.Keys
    && (forall p <- s.processes :: s.processes[p].(phase := Idle) == boot.processes[p].(phase := Idle))
    && (ActiveIds(s.keys) == {} ==> s.keys == boot.keys)
    && forall p <- s.processes ::
         && !s.processes[p].phase.Unacknowledged?
         && (s.processes[p].phase.Failed? ==> boot.processes[p].candidate in boot.keys)
  }

  lemma {:induction false} QuietRunOnlyTakenFail(s: System, moves: seq<Move>)
    requires Boot(s) && forall move <- moves :: move.Next?
    ensures OnlyTakenFail(s, Run(s, moves))
  {
    if moves != [] {
      var rest, move := moves[..|moves| - 1], moves[|moves| - 1];
      assert forall m <- rest :: m in moves;
      QuietRunOnlyTakenFail(s, rest);
      RunKeepsGood(s, rest);
      if move.process in Run(s, rest).processes { StatementOnlyTakenFails(s, Run(s, rest), move.process); }
    }
  }

  /** A statement moves its own process alone, and fails only on a taken id. */
  lemma StatementMovesOne(s: System, p: Id)
    requires p in s.processes && Good(s)
    ensures var after := Statement(s, p);
      && after.processes == s.processes[p := s.processes[p].(phase := after.processes[p].phase)]
      && (after.processes[p].phase.Unacknowledged? ==> s.processes[p].phase.Unacknowledged?)
      && (after.processes[p].phase.Failed? ==>
            (s.processes[p].phase.Failed? || (s.processes[p].phase.Absent? && s.processes[p].candidate in s.keys)))
  {
  }

  lemma StatementOnlyTakenFails(boot: System, s: System, p: Id)
    requires Good(s) && p in s.processes && OnlyTakenFail(boot, s)
    ensures OnlyTakenFail(boot, Statement(s, p))
  {
    assert PhaseHolds(s, p);
    StatementMovesOne(s, p);
    if s.processes[p].phase.Inserted? {
      assert s.processes[p].candidate in ActiveIds(Statement(s, p).keys);
    } else {
      StatementLeavesKeys(s, p);
    }
  }

  lemma StatementLeavesKeys(s: System, p: Id)
    requires p in s.processes && !s.processes[p].phase.Inserted?
    ensures Statement(s, p).keys == s.keys
  {
  }

  /** However live processes interleave, one whose id is free ends with the stored key. */
  lemma LiveProcessesSucceed(s: System, moves: seq<Move>, p: Id)
    requires Boot(s) && (forall move <- moves :: move.Next?)
    requires p in s.processes && s.processes[p].candidate !in s.keys
    ensures p in Run(s, moves).processes
    ensures Finished(Run(s, moves), p) ==> Run(s, moves).processes[p].phase.Returned?
  {
    QuietRunOnlyTakenFail(s, moves);
    RunKeepsGood(s, moves);
    assert PhaseHolds(Run(s, moves), p);
  }

  predicate Finished(s: System, p: Id)
    requires p in s.processes
  {
    var phase := s.processes[p].phase;
    phase.Returned? || phase.Failed? || phase.Unacknowledged? || phase.IndexViolated?
  }

  /** The lock never blocks for good: while some process has not finished, some process can move. */
  lemma NoDeadlock(s: System, moves: seq<Move>, p: Id)
    requires Boot(s) && p in Run(s, moves).processes && !Finished(Run(s, moves), p)
    ensures var end := Run(s, moves); exists q <- end.processes :: Statement(end, q) != end
  {
    var end := Run(s, moves);
    RunKeepsGood(s, moves);
    var q := if end.lock.Some? then end.lock.value else p;
    assert end.lock == Some(q) ==> end.HoldsLock(q);
    forall r: Id | r != q && end.HoldsLock(q) { OthersOutside(end, q, r); }
    assert Statement(end, q).processes[q].phase != end.processes[q].phase;
  }
}
