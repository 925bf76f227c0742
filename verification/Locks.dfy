/** The deployment lock: any number of non-overwriting deployments, interleaved
    in any way, against one server.  Each deployment is the sequence of steps of
    PrepareSession, the execution of the script, and Session.Close; every step
    that talks to the server may fail, and every connection may break. */
module Locks {
  import Server

  type Db = string
  type TxStatus = Server.TxStatus

  /** Where a deployment is. */
  datatype Pc =
    | Start          // nothing opened yet
    | Connected      // a pool, but no connection of its own
    | Acquired       // one connection for the whole session
    | Versioned      // the server's version is accepted
    | Preparing      // the lock is acquired; session tables are being built
    | Executing      // units of the script are being sent
    | RollingBack    // ReleaseDeployLock, before its conditional ROLLBACK
    | Unlocking      // ReleaseDeployLock, before its unlock
    | Returning      // about to give the connection back
    | Finished

  /** One deployment: its database, its place, and its server session. */
  datatype Proc = Proc(db: Db, pc: Pc, status: TxStatus, alive: bool)

  /** All deployments, and who holds the advisory lock of each database. */
  datatype World = World(procs: seq<Proc>, locks: map<Db, nat>)

  /** The answer to the lock request: whether the lock was free and is taken now,
      or an error; when the answer is lost the lock may or may not have been taken,
      and the connection is gone. */
  datatype LockReply = Answered | Failed | Lost(taken: bool)

  datatype Action =
    | Connect(ok: bool)
    | Acquire(ok: bool)
    | CheckVersion(ok: bool)
    | TryLock(reply: LockReply)
    | PrepareStep(ok: bool, last: bool, status: TxStatus)
    | ExecUnit(ok: bool, status: TxStatus)
    | NoMoreUnits
    | Rollback
    | Unlock
    | Return
    | Break            // the connection is lost
    | Reap             // the server ends the session of a lost connection

  /** ROLLBACK is the one statement that an aborted session accepts. */
  function StatusAfterRollback(status: TxStatus): TxStatus { Server.Idle }

  /** A session that is not aborted runs the unlock; an aborted one refuses it. */
  predicate UnlockRuns(status: TxStatus) { status != Server.Aborted }

  function Without(locks: map<Db, nat>, i: nat): map<Db, nat> {
    map db | db in locks && locks[db] != i :: locks[db]
  }

  function SetProc(w: World, i: nat, p: Proc): World
    requires i < |w.procs|
  {
    w.(procs := w.procs[i := p])
  }

  /** What action `a` of deployment `i` does; an action it cannot take there does nothing. */
  function Apply(w: World, i: nat, a: Action): World {
    if i >= |w.procs| then w else
      var p := w.procs[i];
      match a
      case Connect(ok) =>
        if p.pc.Start? then SetProc(w, i, p.(pc := if ok && p.alive then Connected else Finished)) else w
      case Acquire(ok) =>
        if p.pc.Connected? then SetProc(w, i, p.(pc := if ok && p.alive then Acquired else Finished, status := Server.Idle)) else w
      case CheckVersion(ok) =>
        if p.pc.Acquired? then SetProc(w, i, p.(pc := if ok && p.alive then Versioned else Returning)) else w
      case TryLock(reply) =>
        if !p.pc.Versioned? then w
        else if !p.alive then SetProc(w, i, p.(pc := Returning))
        else if reply.Lost? then
          var w' := SetProc(w, i, p.(pc := Returning, alive := false));
          if reply.taken && p.db !in w.locks then w'.(locks := w.locks[p.db := i]) else w'
        else if reply.Failed? || p.db in w.locks then SetProc(w, i, p.(pc := Returning))
        else SetProc(w, i, p.(pc := Preparing)).(locks := w.locks[p.db := i])
      case PrepareStep(ok, last, status) =>
        if !p.pc.Preparing? then w
        else if !p.alive then SetProc(w, i, p.(pc := RollingBack))
        else SetProc(w, i, p.(pc := if !ok then RollingBack else if last then Executing else Preparing, status := status))
      case ExecUnit(ok, status) =>
        if !p.pc.Executing? then w
        else if !p.alive then SetProc(w, i, p.(pc := RollingBack))
        else SetProc(w, i, p.(pc := if ok then Executing else RollingBack, status := status))
      case NoMoreUnits => if p.pc.Executing? then SetProc(w, i, p.(pc := RollingBack)) else w
      case Rollback =>
        if !p.pc.RollingBack? then w
        else if p.alive && p.status != Server.Idle then SetProc(w, i, p.(pc := Unlocking, status := StatusAfterRollback(p.status)))
        else SetProc(w, i, p.(pc := Unlocking))
      case Unlock =>
        if !p.pc.Unlocking? then w
        else
          var w' := SetProc(w, i, p.(pc := Returning));
          if p.alive && UnlockRuns(p.status) then w'.(locks := Without(w.locks, i)) else w'
      case Return => if p.pc.Returning? then SetProc(w, i, p.(pc := Finished)) else w
      case Break => SetProc(w, i, p.(alive := false))
      case Reap => if p.alive then w else w.(locks := Without(w.locks, i))
  }

  datatype Act = Act(who: nat, what: Action)

  /** The world after the first `n` actions of a schedule. */
  function After(w: World, schedule: seq<Act>, n: nat): World
    requires n <= |schedule|
  {
    if n == 0 then w else Apply(After(w, schedule, n - 1), schedule[n - 1].who, schedule[n - 1].what)
  }

  predicate Holds(w: World, i: nat) {
    i < |w.procs| && w.procs[i].db in w.locks && w.locks[w.procs[i].db] == i
  }

  /** Between the acquisition of the lock and its release. */
  predicate Guarded(pc: Pc) { pc.Preparing? || pc.Executing? || pc.RollingBack? || pc.Unlocking? }

  /** Nobody has started, and no lock is held. */
  predicate Initial(w: World) {
    w.locks == map[] && forall i :: 0 <= i < |w.procs| ==> w.procs[i].pc == Start
  }

  predicate ProcOk(w: World, i: nat)
    requires i < |w.procs|
  {
    var p := w.procs[i];
    && (p.alive ==> (Holds(w, i) <==> Guarded(p.pc)))
    && (p.alive && p.pc.Unlocking? ==> p.status == Server.Idle)
  }

  /** The invariant: a lock belongs to a deployment to that database, and a
      deployment with a live connection holds the lock exactly while it is
      between acquiring and releasing it. */
  predicate Safe(w: World) {
    && (forall db :: db in w.locks ==> w.locks[db] < |w.procs| && w.procs[w.locks[db]].db == db)
    && (forall i :: 0 <= i < |w.procs| ==> ProcOk(w, i))
  }

  lemma ApplyOwnProc(w: World, i: nat, a: Action)
    requires i < |w.procs|
    ensures var w' := Apply(w, i, a);
            && |w'.procs| == |w.procs| && w'.procs[i].db == w.procs[i].db
            && (forall j :: 0 <= j < |w.procs| && j != i ==> w'.procs[j] == w.procs[j])
            && (w'.locks == w.locks
                || w'.locks == Without(w.locks, i)
                || (w.procs[i].db !in w.locks && w'.locks == w.locks[w.procs[i].db := i]))
  {}

  lemma ApplyKeepsOwn(w: World, i: nat, a: Action)
    requires Safe(w) && i < |w.procs|
    ensures ProcOk(Apply(w, i, a), i)
  {
    assert ProcOk(w, i);
  }

  /** Every action of every deployment keeps the invariant. */
  lemma ApplyKeepsSafe(w: World, i: nat, a: Action)
    requires Safe(w)
    ensures Safe(Apply(w, i, a))
  {
    if i < |w.procs| {
      var w' := Apply(w, i, a);
      ApplyOwnProc(w, i, a);
      ApplyKeepsOwn(w, i, a);
      hide Apply;
      forall j | 0 <= j < |w'.procs| ensures ProcOk(w', j) {
        if j != i { assert ProcOk(w, j) && Holds(w, j) == Holds(w', j); }
      }
    }
  }

  lemma {:induction false} AlwaysSafe(w: World, schedule: seq<Act>, n: nat)
    requires Initial(w) && n <= |schedule|
    ensures Safe(After(w, schedule, n))
  {
    if n > 0 {
      AlwaysSafe(w, schedule, n - 1);
      ApplyKeepsSafe(After(w, schedule, n - 1), schedule[n - 1].who, schedule[n - 1].what);
    }
  }

  // ---- safety over whole schedules ----

  /** Action number `n` of the schedule runs a unit on the server. */
  predicate ExecutesAt(w: World, schedule: seq<Act>, n: nat, i: nat)
    requires n < |schedule|
  {
    && schedule[n].who == i && schedule[n].what.ExecUnit?
    && i < |After(w, schedule, n).procs|
    && After(w, schedule, n).procs[i].pc.Executing? && After(w, schedule, n).procs[i].alive
  }

  /** Only the holder of a database's lock ever executes units on it. */
  lemma OnlyHolderExecutes(w: World, schedule: seq<Act>, n: nat, i: nat)
    requires Initial(w) && n < |schedule| && ExecutesAt(w, schedule, n, i)
    ensures Holds(After(w, schedule, n), i)
  {
    AlwaysSafe(w, schedule, n);
    assert ProcOk(After(w, schedule, n), i);
  }

  /** A deployment whose connection is intact has released the lock before it
      gives the connection back, whichever step failed and whatever transaction
      status the last unit left. */
  lemma ReleasedBeforeReturn(w: World, schedule: seq<Act>, n: nat, i: nat)
    requires Initial(w) && n <= |schedule| && i < |After(w, schedule, n).procs|
    requires var p := After(w, schedule, n).procs[i]; p.alive && (p.pc.Returning? || p.pc.Finished?)
    ensures !Holds(After(w, schedule, n), i)
  {
    AlwaysSafe(w, schedule, n);
    assert ProcOk(After(w, schedule, n), i);
  }

  function Rank(pc: Pc): nat {
    match pc
    case Start => 0 case Connected => 1 case Acquired => 2 case Versioned => 3 case Preparing => 4
    case Executing => 5 case RollingBack => 6 case Unlocking => 7 case Returning => 8 case Finished => 9
  }

  /** A deployment only moves forward, and a lost connection stays lost. */
  lemma ApplyMovesForward(w: World, i: nat, a: Action, j: nat)
    requires j < |w.procs|
    ensures var w' := Apply(w, i, a);
            && |w'.procs| == |w.procs| && w'.procs[j].db == w.procs[j].db
            && Rank(w.procs[j].pc) <= Rank(w'.procs[j].pc) && (w'.procs[j].alive ==> w.procs[j].alive)
  {}

  lemma {:induction false} MovesForward(w: World, schedule: seq<Act>, m: nat, n: nat, j: nat)
    requires m <= n <= |schedule| && j < |After(w, schedule, m).procs|
    ensures var a, b := After(w, schedule, m), After(w, schedule, n);
            && |b.procs| == |a.procs| && b.procs[j].db == a.procs[j].db
            && Rank(a.procs[j].pc) <= Rank(b.procs[j].pc) && (b.procs[j].alive ==> a.procs[j].alive)
    decreases n - m
  {
    hide Apply;
    if m < n {
      MovesForward(w, schedule, m, n - 1, j);
      ApplyMovesForward(After(w, schedule, n - 1), schedule[n - 1].who, schedule[n - 1].what, j);
    }
  }

  lemma {:induction false} CountStays(w: World, schedule: seq<Act>, n: nat)
    requires n <= |schedule|
    ensures |After(w, schedule, n).procs| == |w.procs|
  {
    if n > 0 { CountStays(w, schedule, n - 1); }
  }

  /** Whole runs exclude each other: between two units that one deployment
      executes, no other deployment executes a unit on the same database. */
  lemma RunsDoNotInterleave(w: World, schedule: seq<Act>, a: nat, b: nat, c: nat, i: nat, j: nat)
    requires Initial(w) && a < b < c < |schedule| && i != j
    requires ExecutesAt(w, schedule, a, i) && ExecutesAt(w, schedule, b, j) && ExecutesAt(w, schedule, c, i)
    ensures i < |w.procs| && j < |w.procs| && w.procs[i].db != w.procs[j].db
  {
    CountStays(w, schedule, a);
    CountStays(w, schedule, b);
    assert After(w, schedule, 0) == w;
    hide After;
    MovesForward(w, schedule, 0, b, i);
    MovesForward(w, schedule, 0, b, j);
    MovesForward(w, schedule, a, b, i);
    MovesForward(w, schedule, b, c, i);
    OnlyHolderExecutes(w, schedule, b, j);
    AlwaysSafe(w, schedule, b);
    assert ProcOk(After(w, schedule, b), i);
  }

  /** A deployment that failed to get the lock, or never asked, executes nothing. */
  lemma RefusedNeverExecutes(w: World, schedule: seq<Act>, m: nat, n: nat, i: nat)
    requires Initial(w) && m <= n < |schedule| && i < |After(w, schedule, m).procs|
    requires After(w, schedule, m).procs[i].pc.Returning? || After(w, schedule, m).procs[i].pc.Finished?
    ensures !ExecutesAt(w, schedule, n, i)
  {
    hide After;
    MovesForward(w, schedule, m, n, i);
  }

  /** ReleaseDeployLock without its ROLLBACK. */
  function OnlyUnlock(w: World, i: nat): World
    requires i < |w.procs|
  {
    Apply(SetProc(w, i, w.procs[i].(pc := Unlocking)), i, Unlock)
  }

  /** The conditional ROLLBACK is needed exactly when the last unit has left the
      session aborted: without it the connection is then given back with the lock
      held. */
  lemma UnlockAloneKeepsLock(w: World, i: nat, ok: bool, status: TxStatus)
    requires Safe(w) && i < |w.procs| && w.procs[i].pc == Executing && w.procs[i].alive
    ensures var v := Apply(Apply(w, i, ExecUnit(ok, status)), i, NoMoreUnits);
            var w' := Apply(OnlyUnlock(v, i), i, Return);
            w'.procs[i].pc == Finished && w'.procs[i].alive && (Holds(w', i) <==> status == Server.Aborted)
  {
    assert ProcOk(w, i);
  }

  /** After the steps of ReleaseDeployLock the lock is free, from any status. */
  lemma ReleaseFreesLock(w: World, i: nat)
    requires Safe(w) && Holds(w, i) && w.procs[i].pc == RollingBack && w.procs[i].alive
    ensures var w' := Apply(Apply(w, i, Rollback), i, Unlock);
            w.procs[i].db !in w'.locks && w'.procs[i].pc == Returning
            && forall db :: db in w.locks && db != w.procs[i].db ==> db in w'.locks && w'.locks[db] == w.locks[db]
  {}

  // ---- one deployment on its own ----

  /** What deployment `i` does while the others rest. */
  function RunBy(w: World, i: nat, trace: seq<Action>): World
    decreases |trace|
  {
    if trace == [] then w else RunBy(Apply(w, i, trace[0]), i, trace[1..])
  }

  lemma {:induction false} RunByConcat(w: World, i: nat, a: seq<Action>, b: seq<Action>)
    ensures RunBy(w, i, a + b) == RunBy(RunBy(w, i, a), i, b)
    decreases |a|
  {
    hide Apply;
    if a == [] {
      assert a + b == b;
    } else {
      assert (a + b)[0] == a[0] && (a + b)[1..] == a[1..] + b;
      RunByConcat(Apply(w, i, a[0]), i, a[1..], b);
    }
  }

  lemma RunByOne(w: World, i: nat, a: Action)
    ensures RunBy(w, i, []) == w && RunBy(w, i, [a]) == Apply(w, i, a)
  {
    hide Apply;
    assert [a][1..] == [];
  }

  /** Running alone keeps the invariant too. */
  lemma {:induction false} RunByKeepsSafe(w: World, i: nat, trace: seq<Action>)
    requires Safe(w)
    ensures Safe(RunBy(w, i, trace))
    decreases |trace|
  {
    hide Apply;
    if trace != [] {
      ApplyKeepsSafe(w, i, trace[0]);
      RunByKeepsSafe(Apply(w, i, trace[0]), i, trace[1..]);
    }
  }
}
