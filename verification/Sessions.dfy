/** The session object of a deployment: PrepareSession of
    internal/services/session.go, and ReleaseDeployLock and Session.Close of
    pkg/pgmi/session.go, on one connection.  Every request, the units of the script
    included, is one or more steps of the lock machine; the connection carries that
    machine's state along, and the server session behind it. */
module Sessions {
  import Server
  import opened Locks
  import opened Lexer
  import opened Text

  /** What a connection is asked, in order. */
  datatype Request = VersionQuery | LockQuery | Setup | Unit(text: Bytes) | RollbackRequest | UnlockRequest | GivenBack

  /** The server's answers during a preparation; Gone is a connection that broke
      before the answer, for the lock with or without the lock taken. */
  datatype VersionReply = Version(number: nat) | VersionError | VersionGone
  datatype SetupReply = Done(status: TxStatus) | Error(status: TxStatus) | Gone

  /** A pooled connection and the server session behind it; `world` is the state of
      all deployments, of which this one is number `id`. */
  class Conn {
    const id: nat
    var alive: bool
    var backend: Server.Session
    var holdsLock: bool
    var requests: seq<Request>
    ghost var world: World

    constructor (id: nat, durable: seq<Bytes>, ghost w: World)
      requires id < |w.procs| && w.procs[id] == Proc(w.procs[id].db, Start, Server.Idle, true) && !Holds(w, id)
      ensures this.id == id && alive && backend == Server.Session(durable, [], Server.Idle)
      ensures !holdsLock && requests == [] && world == w && Unused()
    {
      this.id, alive, backend, holdsLock, requests, world := id, true, Server.Session(durable, [], Server.Idle), false, [], w;
    }

    /** Before the first request. */
    ghost predicate Unused()
      reads this
    {
      Mirrored(Start) && alive && backend.status == Server.Idle && backend.pending == [] && !holdsLock && requests == []
    }

    /** The connection is as the lock machine has it, at place `pc`. */
    ghost predicate Mirrored(pc: Pc)
      reads this
    {
      && id < |world.procs| && world.procs[id] == Proc(world.procs[id].db, pc, backend.status, alive)
      && (holdsLock <==> Holds(world, id))
    }

    /** Nobody holds the lock of this deployment's database. */
    ghost predicate LockFree()
      reads this
      requires id < |world.procs|
    {
      world.procs[id].db !in world.locks
    }

    /** The pool is opened, and one connection taken from it. */
    method Open(connected: bool, acquired: bool)
      requires Mirrored(Start) && alive && backend.status == Server.Idle
      modifies this
      ensures world == RunBy(old(world), id, OpenActions(connected, acquired))
      ensures Mirrored(if connected && acquired then Acquired else Finished)
      ensures alive && backend == old(backend) && holdsLock == old(holdsLock) && requests == old(requests)
      ensures LockFree() == old(LockFree())
    {
      RunByOne(world, id, Connect(connected));
      RunByConcat(world, id, [Connect(connected)], [Acquire(acquired)]);
      world := Apply(world, id, Connect(connected));
      if connected {
        RunByOne(world, id, Acquire(acquired));
        world := Apply(world, id, Acquire(acquired));
      }
    }

    method QueryVersion(reply: VersionReply) returns (ok: bool, version: nat)
      requires Mirrored(Acquired) && alive && !holdsLock
      modifies this
      ensures requests == old(requests) + [VersionQuery] && backend == old(backend) && !holdsLock
      ensures alive <==> !reply.VersionGone?
      ensures ok <==> reply.Version?
      ensures ok ==> version == reply.number
      ensures world == RunBy(old(world), id, VersionActions(reply))
      ensures Mirrored(if Acceptable(reply) then Versioned else Returning) && LockFree() == old(LockFree())
    {
      requests := requests + [VersionQuery];
      ok, version := reply.Version?, if reply.Version? then reply.number else 0;
      RunByConcat(world, id, [Break], [CheckVersion(false)]);
      RunByOne(world, id, Break);
      if reply.VersionGone? {
        alive, world := false, Apply(world, id, Break);
      }
      RunByOne(world, id, CheckVersion(Acceptable(reply)));
      world := Apply(world, id, CheckVersion(Acceptable(reply)));
    }

    /** Whether the lock is taken now, as far as the answer tells; `free` is what
        the server finds. */
    method QueryLock(reply: LockReply, free: bool) returns (ok: bool, acquired: bool)
      requires Mirrored(Versioned) && alive && !holdsLock && free == LockFree()
      modifies this
      ensures requests == old(requests) + [LockQuery] && backend == old(backend)
      ensures alive <==> !reply.Lost?
      ensures ok <==> reply.Answered?
      ensures acquired <==> reply.Answered? && free
      ensures alive ==> holdsLock == acquired
      ensures world == RunBy(old(world), id, [TryLock(reply)])
      ensures Mirrored(if acquired then Preparing else Returning)
    {
      requests := requests + [LockQuery];
      ok := reply.Answered?;
      RunByOne(world, id, TryLock(reply));
      world := Apply(world, id, TryLock(reply));
      alive := !reply.Lost?;
      acquired := ok && free;
      holdsLock := acquired || (reply.Lost? && reply.taken && free);
    }

    /** One step of setting up the session. */
    method ExecSetup(reply: SetupReply, last: bool) returns (ok: bool)
      requires Mirrored(Preparing) && alive
      modifies this
      ensures requests == old(requests) + [Setup] && holdsLock == old(holdsLock)
      ensures alive <==> !reply.Gone?
      ensures backend == if reply.Gone? then old(backend) else old(backend).(status := reply.status)
      ensures ok <==> reply.Done?
      ensures world == RunBy(old(world), id, SetupActions(reply, last))
      ensures Mirrored(if !ok then RollingBack else if last then Executing else Preparing)
    {
      requests := requests + [Setup];
      RunByConcat(world, id, [Break], [PrepareStep(false, last, Server.Idle)]);
      RunByOne(world, id, Break);
      if reply.Gone? {
        RunByOne(Apply(world, id, Break), id, PrepareStep(false, last, Server.Idle));
        alive, world := false, Apply(Apply(world, id, Break), id, PrepareStep(false, last, Server.Idle));
      } else {
        backend := backend.(status := reply.status);
        RunByOne(world, id, PrepareStep(reply.Done?, last, reply.status));
        world := Apply(world, id, PrepareStep(reply.Done?, last, reply.status));
      }
      ok := reply.Done?;
    }

    /** Sends one unit; `fate` is the number of the statement that fails, if any. */
    method Exec(lx: Lexis, message: Bytes, fate: int) returns (ok: bool)
      requires Mirrored(Executing) && alive
      modifies this
      ensures Server.Reply(backend, ok) == Server.RunMessage(old(backend), Server.StatementsOf(lx, message), fate)
      ensures requests == old(requests) + [Unit(message)] && alive && holdsLock == old(holdsLock)
      ensures world == Apply(old(world), id, ExecUnit(ok, backend.status))
      ensures Mirrored(if ok then Executing else RollingBack)
    {
      hide Server.RunMessage, Server.StatementsOf;
      var reply := Server.RunMessage(backend, Server.StatementsOf(lx, message), fate);
      backend, ok, requests := reply.session, reply.ok, requests + [Unit(message)];
      world := Apply(world, id, ExecUnit(ok, backend.status));
    }

    /** Errors of these two requests are ignored by the caller; the ROLLBACK is sent
        only from a session that is not idle. */
    method ExecRollback()
      requires Mirrored(RollingBack) && backend.status != Server.Idle
      modifies this
      ensures alive == old(alive) && holdsLock == old(holdsLock) && requests == old(requests) + [RollbackRequest]
      ensures backend == if alive then Server.Closed(old(backend)) else old(backend)
      ensures world == Apply(old(world), id, Rollback) && Mirrored(Unlocking)
    {
      requests := requests + [RollbackRequest];
      world := Apply(world, id, Rollback);
      if alive {
        backend := Server.Session(backend.durable, [], StatusAfterRollback(backend.status));
      }
    }

    method ExecUnlock()
      requires Mirrored(Unlocking)
      modifies this
      ensures alive == old(alive) && backend == old(backend) && requests == old(requests) + [UnlockRequest]
      ensures holdsLock == (old(holdsLock) && !(alive && UnlockRuns(backend.status)))
      ensures world == Apply(old(world), id, Unlock) && Mirrored(Returning)
    {
      requests := requests + [UnlockRequest];
      world := Apply(world, id, Unlock);
      if alive && UnlockRuns(backend.status) {
        holdsLock := false;
      }
    }

    /** An idle session is not sent a ROLLBACK. */
    ghost method SkipRollback()
      requires Mirrored(RollingBack) && backend.status == Server.Idle
      modifies this`world
      ensures world == Apply(old(world), id, Rollback) && Mirrored(Unlocking)
    {
      world := Apply(world, id, Rollback);
    }

    /** No unit is sent any more. */
    ghost method StopExecuting()
      requires Mirrored(Executing) || Mirrored(RollingBack)
      modifies this`world
      ensures world == RunBy(old(world), id, [NoMoreUnits]) && Mirrored(RollingBack)
    {
      RunByOne(world, id, NoMoreUnits);
      world := Apply(world, id, NoMoreUnits);
    }

    method Release()
      requires Mirrored(Returning)
      modifies this
      ensures alive == old(alive) && backend == old(backend) && holdsLock == old(holdsLock)
      ensures requests == old(requests) + [GivenBack]
      ensures world == RunBy(old(world), id, [Return]) && Mirrored(Finished)
    {
      requests := requests + [GivenBack];
      RunByOne(world, id, Return);
      world := Apply(world, id, Return);
    }
  }

  const MINIMUM_SERVER_VERSION := 110000

  predicate Acceptable(reply: VersionReply) { reply.Version? && reply.number >= MINIMUM_SERVER_VERSION }

  // ---- requests as steps of the lock machine ----

  function OpenActions(connected: bool, acquired: bool): seq<Action> {
    [Connect(connected)] + if connected then [Acquire(acquired)] else []
  }

  function VersionActions(reply: VersionReply): seq<Action> {
    (if reply.VersionGone? then [Break] else []) + [CheckVersion(Acceptable(reply))]
  }

  function SetupActions(reply: SetupReply, last: bool): seq<Action> {
    match reply
    case Done(status) => [PrepareStep(true, last, status)]
    case Error(status) => [PrepareStep(false, last, status)]
    case Gone => [Break] + [PrepareStep(false, last, Server.Idle)]
  }

  /** The steps of a session setup, up to the first that fails. */
  function AllSetupActions(replies: seq<SetupReply>): seq<Action> {
    if replies == [] then []
    else SetupActions(replies[0], |replies| == 1) + if replies[0].Done? then AllSetupActions(replies[1..]) else []
  }

  const RELEASE_ACTIONS := [Rollback, Unlock]

  function ReleaseRequests(status: TxStatus): seq<Request> {
    (if status != Server.Idle then [RollbackRequest] else []) + [UnlockRequest]
  }

  class Pool {
    var closed: bool

    constructor ()
      ensures !closed
    {
      closed := false;
    }

    method Close()
      modifies this
      ensures closed
    {
      closed := true;
    }
  }

  /** A cloud connector that has to be closed after its pool. */
  class Connector {
    var closed: bool

    constructor ()
      ensures !closed
    {
      closed := false;
    }

    method Close()
      modifies this
      ensures closed
    {
      closed := true;
    }
  }

  lemma TwoSteps(w: World, i: nat, a: Action, b: Action)
    ensures RunBy(w, i, [a, b]) == Apply(Apply(w, i, a), i, b)
  {
    hide Apply;
    RunByOne(w, i, a);
    RunByOne(Apply(w, i, a), i, b);
    RunByConcat(w, i, [a], [b]);
    assert [a] + [b] == [a, b];
  }

  /** Drops the deploy lock: from every transaction status a live session ends
      idle and without the lock, and an idle one is not sent a ROLLBACK. */
  method ReleaseDeployLock(conn: Conn)
    requires conn.Mirrored(RollingBack)
    modifies conn
    ensures conn.alive == old(conn.alive) && conn.requests == old(conn.requests) + ReleaseRequests(old(conn.backend.status))
    ensures conn.alive ==> !conn.holdsLock && conn.backend == Server.Closed(old(conn.backend))
    ensures !conn.alive ==> conn.holdsLock == old(conn.holdsLock)
    ensures conn.world == RunBy(old(conn.world), conn.id, RELEASE_ACTIONS) && conn.Mirrored(Returning)
  {
    TwoSteps(conn.world, conn.id, Rollback, Unlock);
    if conn.backend.status != Server.Idle {
      conn.ExecRollback();
    } else {
      conn.SkipRollback();
    }
    conn.ExecUnlock();
  }

  class Session {
    var pool: Pool?
    var conn: Conn?
    var onClose: Connector?
    var filesLoaded: nat

    constructor (pool: Pool, conn: Conn, onClose: Connector)
      ensures this.pool == pool && this.conn == conn && this.onClose == onClose && filesLoaded == 0
    {
      this.pool, this.conn, this.onClose, filesLoaded := pool, conn, onClose, 0;
    }

    /** Releases everything the session still has: the lock before the
        connection, the connection before the pool, the pool before the
        connector.  Closing again does nothing. */
    method Close()
      requires conn != null ==> conn.Mirrored(Executing) || conn.Mirrored(RollingBack)
      modifies this, conn, pool, onClose
      ensures conn == null && pool == null && onClose == null && filesLoaded == old(filesLoaded)
      ensures old(conn) != null ==>
                && old(conn).requests == old(conn.requests) + ReleaseRequests(old(conn.backend.status)) + [GivenBack]
                && old(conn).alive == old(conn.alive)
                && (old(conn).alive ==> !old(conn).holdsLock && old(conn).backend == Server.Closed(old(conn.backend)))
                && old(conn).world == RunBy(old(conn.world), old(conn).id, [NoMoreUnits] + RELEASE_ACTIONS + [Return])
                && old(conn).Mirrored(Finished)
      ensures old(pool) != null ==> old(pool).closed
      ensures old(onClose) != null ==> old(onClose).closed
    {
      if conn != null {
        RunByConcat(conn.world, conn.id, [NoMoreUnits], RELEASE_ACTIONS);
        RunByConcat(conn.world, conn.id, [NoMoreUnits] + RELEASE_ACTIONS, [Return]);
        conn.StopExecuting();
        ReleaseDeployLock(conn);
        conn.Release();
        conn := null;
      }
      if pool != null {
        pool.Close();
        pool := null;
      }
      if onClose != null {
        onClose.Close();
        onClose := null;
      }
    }
  }

  /** What the server answers during a preparation. */
  datatype Answers = Answers(
    connect: bool, acquire: bool, version: VersionReply, lock: LockReply,
    verbose: SetupReply, schema: SetupReply, files: SetupReply, parameters: SetupReply, contract: SetupReply)

  datatype Error = NoError | ConnectFailed | AcquireFailed | VersionUnknown | VersionTooOld | LockUnknown
                 | ConcurrentDeploy | VerboseFailed | TablesFailed

  /** The setup requests of a preparation. */
  function SetupReplies(a: Answers, verbose: bool): seq<SetupReply> {
    (if verbose then [a.verbose] else []) + [a.schema, a.files, a.parameters, a.contract]
  }

  lemma RepliesAreAll(a: Answers, verbose: bool)
    ensures AllDone(SetupReplies(a, verbose)) <==>
            a.schema.Done? && a.files.Done? && a.parameters.Done? && a.contract.Done? && (verbose ==> a.verbose.Done?)
  {
    var replies := SetupReplies(a, verbose);
    var k := |replies| - 4;
    assert replies[k] == a.schema && replies[k + 1] == a.files && replies[k + 2] == a.parameters && replies[k + 3] == a.contract;
    assert verbose ==> replies[0] == a.verbose;
  }

  predicate AllDone(replies: seq<SetupReply>) { forall k :: 0 <= k < |replies| ==> replies[k].Done? }

  /** The steps of a preparation on an acquired connection; `free` tells whether the
      lock is free when it is asked for. */
  function PrepareActions(a: Answers, verbose: bool, free: bool): seq<Action> {
    VersionActions(a.version)
    + if !Acceptable(a.version) then []
      else [TryLock(a.lock)] + if a.lock.Answered? && free then AllSetupActions(SetupReplies(a, verbose)) else []
  }

  /** Whether a preparation gets the lock, and whether it succeeds. */
  predicate GetsLock(a: Answers, free: bool) { Acceptable(a.version) && a.lock.Answered? && free }

  predicate FindsLockHeld(a: Answers, free: bool) { Acceptable(a.version) && a.lock.Answered? && !free }

  predicate Succeeds(a: Answers, verbose: bool, free: bool) { GetsLock(a, free) && AllDone(SetupReplies(a, verbose)) }

  /** The steps of the deferred cleanup. */
  function CleanupActions(lockAcquired: bool): seq<Action> {
    (if lockAcquired then RELEASE_ACTIONS else []) + [Return]
  }

  /** The cleanup of an abandoned preparation. */
  method Abandon(pool: Pool, conn: Conn, connector: Connector, lockAcquired: bool)
    requires conn.Mirrored(if lockAcquired then RollingBack else Returning)
    modifies pool, conn, connector
    ensures pool.closed && connector.closed && conn.alive == old(conn.alive)
    ensures conn.requests == old(conn.requests) + (if lockAcquired then ReleaseRequests(old(conn.backend.status)) else []) + [GivenBack]
    ensures lockAcquired && conn.alive ==> !conn.holdsLock
    ensures !lockAcquired ==> conn.holdsLock == old(conn.holdsLock)
    ensures conn.world == RunBy(old(conn.world), conn.id, CleanupActions(lockAcquired)) && conn.Mirrored(Finished)
  {
    RunByConcat(conn.world, conn.id, RELEASE_ACTIONS, [Return]);
    assert [] + [Return] == [Return];
    if lockAcquired {
      ReleaseDeployLock(conn);
    }
    conn.Release();
    pool.Close();
    connector.Close();
  }

  lemma SetupUnfolds(w: World, i: nat, replies: seq<SetupReply>)
    requires replies != []
    ensures AllDone(replies) <==> replies[0].Done? && AllDone(replies[1..])
    ensures var w1 := RunBy(w, i, SetupActions(replies[0], |replies| == 1));
            RunBy(w, i, AllSetupActions(replies)) ==
            if replies[0].Done? then RunBy(w1, i, AllSetupActions(replies[1..])) else w1
  {
    hide RunBy;
    var first := SetupActions(replies[0], |replies| == 1);
    RunByConcat(w, i, first, AllSetupActions(replies[1..]));
    assert first + [] == first;
    assert forall k :: 0 < k < |replies| ==> replies[k] == replies[1..][k - 1];
  }

  lemma NothingToSetUp(w: World, i: nat)
    ensures RunBy(w, i, AllSetupActions([])) == w && AllDone([])
  {}

  /** The four steps that build the session tables. */
  method PrepareSessionTables(a: Answers, conn: Conn) returns (ok: bool)
    requires conn.Mirrored(Preparing) && conn.alive && conn.holdsLock
    modifies conn
    ensures var replies := [a.schema, a.files, a.parameters, a.contract];
            && (ok <==> AllDone(replies))
            && conn.world == RunBy(old(conn.world), conn.id, AllSetupActions(replies))
    ensures conn.Mirrored(if ok then Executing else RollingBack) && conn.holdsLock && (ok ==> conn.alive)
    ensures old(conn.requests) <= conn.requests
    ensures LockQuery in conn.requests ==> LockQuery in old(conn.requests)
    ensures ok ==> conn.requests == old(conn.requests) + [Setup, Setup, Setup, Setup]
    ensures ok ==> a.contract.Done? && conn.backend == old(conn.backend).(status := a.contract.status)
  {
    hide RunBy, AllSetupActions, SetupActions, AllDone;
    SetupUnfolds(conn.world, conn.id, [a.schema, a.files, a.parameters, a.contract]);
    assert [a.schema, a.files, a.parameters, a.contract][1..] == [a.files, a.parameters, a.contract];
    ok := conn.ExecSetup(a.schema, false);
    if !ok {
      return;
    }
    SetupUnfolds(conn.world, conn.id, [a.files, a.parameters, a.contract]);
    assert [a.files, a.parameters, a.contract][1..] == [a.parameters, a.contract];
    ok := conn.ExecSetup(a.files, false);
    if !ok {
      return;
    }
    SetupUnfolds(conn.world, conn.id, [a.parameters, a.contract]);
    assert [a.parameters, a.contract][1..] == [a.contract];
    ok := conn.ExecSetup(a.parameters, false);
    if !ok {
      return;
    }
    SetupUnfolds(conn.world, conn.id, [a.contract]);
    assert [a.contract][1..] == [];
    ok := conn.ExecSetup(a.contract, true);
    NothingToSetUp(conn.world, conn.id);
  }

  /** Everything that is set up, with the verbosity first when asked for. */
  method SetUp(a: Answers, verbose: bool, conn: Conn) returns (err: Error)
    requires conn.Mirrored(Preparing) && conn.alive && conn.holdsLock
    modifies conn
    ensures err == NoError <==> AllDone(SetupReplies(a, verbose))
    ensures err == NoError || err == VerboseFailed || err == TablesFailed
    ensures conn.world == RunBy(old(conn.world), conn.id, AllSetupActions(SetupReplies(a, verbose)))
    ensures conn.Mirrored(if err == NoError then Executing else RollingBack) && conn.holdsLock && (err == NoError ==> conn.alive)
    ensures old(conn.requests) <= conn.requests && (LockQuery in conn.requests ==> LockQuery in old(conn.requests))
    ensures err == NoError ==>
              && conn.requests == old(conn.requests) + (if verbose then [Setup] else []) + [Setup, Setup, Setup, Setup]
              && a.contract.Done? && conn.backend == old(conn.backend).(status := a.contract.status)
  {
    hide RunBy, AllSetupActions, SetupActions, AllDone;
    ghost var tables := [a.schema, a.files, a.parameters, a.contract];
    assert SetupReplies(a, false) == tables;
    if verbose {
      SetupUnfolds(conn.world, conn.id, SetupReplies(a, true));
      assert SetupReplies(a, true)[0] == a.verbose && SetupReplies(a, true)[1..] == tables;
      var ok := conn.ExecSetup(a.verbose, false);
      if !ok {
        return VerboseFailed;
      }
    }
    var ok := PrepareSessionTables(a, conn);
    err := if ok then NoError else TablesFailed;
  }

  /** The requests of a preparation, up to the first that fails: the version is
      checked before the lock is asked for, and the lock is held before anything
      is set up. */
  method Prepare(a: Answers, verbose: bool, free: bool, conn: Conn) returns (err: Error, lockAcquired: bool)
    requires conn.Mirrored(Acquired) && conn.alive && conn.backend.status == Server.Idle && !conn.holdsLock && conn.requests == []
    requires free == conn.LockFree()
    modifies conn
    ensures conn.world == RunBy(old(conn.world), conn.id, PrepareActions(a, verbose, free))
    ensures conn.Mirrored(if err == NoError then Executing else if lockAcquired then RollingBack else Returning)
    ensures lockAcquired <==> GetsLock(a, free)
    ensures err == NoError <==> Succeeds(a, verbose, free)
    ensures lockAcquired ==> conn.holdsLock && [VersionQuery, LockQuery] <= conn.requests
    ensures !lockAcquired && conn.alive ==> !conn.holdsLock
    ensures err == NoError ==>
              && conn.alive && conn.requests == [VersionQuery, LockQuery] + (if verbose then [Setup] else []) + [Setup, Setup, Setup, Setup]
              && a.contract.Done? && conn.backend == old(conn.backend).(status := a.contract.status)
    ensures LockQuery in conn.requests ==> Acceptable(a.version)
    ensures err == ConcurrentDeploy <==> FindsLockHeld(a, free)
    ensures err == VersionTooOld <==> a.version.Version? && !Acceptable(a.version)
    ensures err == VersionUnknown <==> !a.version.Version?
    ensures err == LockUnknown <==> Acceptable(a.version) && !a.lock.Answered?
    ensures err == ConcurrentDeploy ==> conn.requests == [VersionQuery, LockQuery]
    ensures err != ConnectFailed && err != AcquireFailed
  {
    hide RunBy, AllSetupActions, SetupActions, AllDone, VersionActions, SetupReplies;
    ghost var w := conn.world;
    PrepareParts(a, verbose, free, w, conn.id);
    var ok, version := conn.QueryVersion(a.version);
    if !ok {
      return VersionUnknown, false;
    }
    if version < MINIMUM_SERVER_VERSION {
      return VersionTooOld, false;
    }
    ok, lockAcquired := conn.QueryLock(a.lock, free);
    if !ok {
      return LockUnknown, false;
    }
    if !lockAcquired {
      return ConcurrentDeploy, false;
    }
    err := SetUp(a, verbose, conn);
  }

  lemma PrepareParts(a: Answers, verbose: bool, free: bool, w: World, i: nat)
    ensures var w1 := RunBy(w, i, VersionActions(a.version));
            var w2 := RunBy(w1, i, [TryLock(a.lock)]);
            RunBy(w, i, PrepareActions(a, verbose, free)) ==
            if !Acceptable(a.version) then w1
            else if !(a.lock.Answered? && free) then w2
            else RunBy(w2, i, AllSetupActions(SetupReplies(a, verbose)))
  {
    hide RunBy, AllSetupActions, VersionActions, SetupReplies;
    var first, lock, rest := VersionActions(a.version), [TryLock(a.lock)], AllSetupActions(SetupReplies(a, verbose));
    RunByConcat(w, i, first, lock);
    RunByConcat(w, i, first, lock + rest);
    RunByConcat(RunBy(w, i, first), i, lock, rest);
    assert first + [] == first && lock + [] == lock;
  }

  /** All steps of a preparation, with the cleanup of one that fails. */
  function SessionActions(a: Answers, verbose: bool, free: bool): seq<Action> {
    OpenActions(a.connect, a.acquire)
    + if !(a.connect && a.acquire) then []
      else PrepareActions(a, verbose, free)
           + if Succeeds(a, verbose, free) then [] else CleanupActions(GetsLock(a, free))
  }

  lemma SessionParts(a: Answers, verbose: bool, free: bool, w: World, i: nat)
    ensures var w1 := RunBy(w, i, OpenActions(a.connect, a.acquire));
            var w2 := RunBy(w1, i, PrepareActions(a, verbose, free));
            RunBy(w, i, SessionActions(a, verbose, free)) ==
            if !(a.connect && a.acquire) then w1
            else if Succeeds(a, verbose, free) then w2
            else RunBy(w2, i, CleanupActions(GetsLock(a, free)))
  {
    hide RunBy, OpenActions, PrepareActions, CleanupActions, Succeeds, GetsLock;
    var first, second, third := OpenActions(a.connect, a.acquire), PrepareActions(a, verbose, free), CleanupActions(GetsLock(a, free));
    RunByConcat(w, i, first, second);
    RunByConcat(w, i, first, second + third);
    RunByConcat(RunBy(w, i, first), i, second, third);
    assert first + [] == first && second + [] == second;
  }

  /** Prepares a session.  What it does is a run of the lock machine: on success the
      deployment is at the execution of units, holds the lock, and nothing is
      released; otherwise it is finished, everything is released, and the lock, if
      it was acquired, before the connection is given back.  Only a lock whose
      answer was lost with the connection may be left to the server. */
  method PrepareSession(a: Answers, files: nat, verbose: bool, free: bool, conn: Conn, pool: Pool, connector: Connector)
    returns (session: Session?, err: Error)
    requires conn.Unused()
    requires free == conn.LockFree() && !pool.closed && !connector.closed
    modifies pool, conn, connector
    ensures conn.world == RunBy(old(conn.world), conn.id, SessionActions(a, verbose, free))
    ensures conn.Mirrored(if session != null then Executing else Finished)
    ensures (session != null) <==> err == NoError
    ensures err == NoError <==> a.connect && a.acquire && Succeeds(a, verbose, free)
    ensures err == ConcurrentDeploy <==> a.connect && a.acquire && FindsLockHeld(a, free)
    ensures err == ConnectFailed <==> !a.connect
    ensures err == AcquireFailed <==> a.connect && !a.acquire
    ensures err == VersionUnknown <==> a.connect && a.acquire && !a.version.Version?
    ensures err == VersionTooOld <==> a.connect && a.acquire && a.version.Version? && a.version.number < 110000
    ensures err == LockUnknown <==>
              a.connect && a.acquire && a.version.Version? && a.version.number >= 110000 && !a.lock.Answered?
    ensures err == NoError ==>
              && a.version.Version? && a.version.number >= 110000 && a.lock.Answered? && free && (verbose ==> a.verbose.Done?)
              && a.schema.Done? && a.files.Done? && a.parameters.Done? && a.contract.Done?
    ensures session != null ==>
              && fresh(session) && session.conn == conn && session.pool == pool && session.onClose == connector
              && session.filesLoaded == files && conn.holdsLock && conn.alive && !pool.closed && !connector.closed
              && conn.requests == [VersionQuery, LockQuery] + (if verbose then [Setup] else []) + [Setup, Setup, Setup, Setup]
              && a.contract.Done? && conn.backend == old(conn.backend).(status := a.contract.status)
    ensures session == null ==> connector.closed && (a.connect ==> pool.closed) && (conn.alive ==> !conn.holdsLock)
    ensures session == null && a.connect && a.acquire ==> |conn.requests| > 0 && conn.requests[|conn.requests| - 1] == GivenBack
    ensures err == ConcurrentDeploy ==> conn.requests == [VersionQuery, LockQuery, GivenBack]
    ensures session == null && a.connect && a.acquire && GetsLock(a, free) ==>
              |conn.requests| > 1 && conn.requests[|conn.requests| - 2] == UnlockRequest
  {
    hide RunBy, PrepareActions, AllDone, SetupReplies, OpenActions, CleanupActions;
    RepliesAreAll(a, verbose);
    SessionParts(a, verbose, free, conn.world, conn.id);
    conn.Open(a.connect, a.acquire);
    if !a.connect {
      connector.Close();
      return null, ConnectFailed;
    }
    if !a.acquire {
      pool.Close();
      connector.Close();
      return null, AcquireFailed;
    }
    var lockAcquired;
    err, lockAcquired := Prepare(a, verbose, free, conn);
    if err != NoError {
      Abandon(pool, conn, connector, lockAcquired);
      return null, err;
    }
    session := new Session(pool, conn, connector);
    session.filesLoaded := files;
  }

  /** Preparing and closing keep the safety of the locks, whatever the answers. */
  lemma SessionIsSafe(w: World, i: nat, a: Answers, verbose: bool, free: bool)
    requires Safe(w)
    ensures Safe(RunBy(w, i, SessionActions(a, verbose, free)))
    ensures Safe(RunBy(w, i, [NoMoreUnits] + RELEASE_ACTIONS + [Return]))
  {
    hide RunBy, SessionActions;
    RunByKeepsSafe(w, i, SessionActions(a, verbose, free));
    RunByKeepsSafe(w, i, [NoMoreUnits] + RELEASE_ACTIONS + [Return]);
  }
}
