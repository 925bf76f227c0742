/** A whole deployment: Deploy, handleOverwrite, ensureDatabaseExists and their
    helpers in internal/services/deployer.go, with the session, the execution of the
    script and the closing of the session on one connection.  What the outside world
    answers is an arbitrary record; what the program did is a log of events. */
module Deployment {
  import opened Text
  import opened Lexer
  import opened Options
  import opened Sequences
  import opened Execute
  import Locks
  import Macros
  import Server
  import Sessions

  type Settings = string

  datatype Config = Config(
    wellFormed: bool, database: string, maintenance: string, overwrite: bool, compat: string, verbose: bool)

  datatype Probe = Answered | UndefinedDatabase | Unreachable
  datatype Existence = Known(present: bool) | LookupFailed
  datatype Approval = Approved | Denied | NoAnswer
  datatype SettingsReply = Read(settings: Option<Settings>) | Unread
  datatype CreateReply = Done | Duplicate | OtherFailure

  /** The answers of the file system, the user and the servers in one run, none of
      which is asked twice; `scan` is the number of files found, and `fold` and
      `lower` are the library's case folding and lower case. */
  datatype World = World(
    scan: Option<nat>, probe: Probe, maintenanceUp: bool, existence: Existence, approval: Approval,
    settings: SettingsReply, terminate: bool, drop: bool, create: CreateReply,
    fold: char -> char, lower: char -> char)

  /** What the session steps meet: the scanner's character classes, the server's
      answers to the preparation, whether the lock is free, the script, and where each
      of its messages fails. */
  datatype Job = Job(lx: Lexis, answers: Sessions.Answers, free: bool, script: Script, fates: nat -> int)

  /** How the session steps go: the result of the preparation, how the execution of the
      script ended, the calls found in it, and how many of its units ran. */
  datatype SessionPart = SessionPart(prepared: Sessions.Error, outcome: Outcome, macros: seq<Macros.MacroCall>, ran: nat)

  datatype Event =
    | Scanned
    | CompatAccepted(version: string)
    | Probed(db: string)
    | TargetAccepted(db: string)
    | Opened(db: string)
    | Closed(db: string)
    | Found(db: string, present: bool)
    | ApprovalGiven(db: string)
    | SettingsRead(db: string, settings: Option<Settings>)
    | ConnectionsTerminated(db: string)
    | Dropped(db: string)
    | Created(db: string, settings: Option<Settings>)
    | PreparationStarted(db: string)
    | SessionPrepared(db: string)
    | ScriptRan(db: string, ok: bool)
    | SessionClosed(db: string)

  datatype Result =
    | Ok
    | InvalidConfig | ScanFailed | UnsupportedCompat | ConnectFailed | ExistsFailed | ApprovalFailed
    | ApprovalDenied | SettingsFailed | TerminateFailed | DropFailed | CreateFailed | ConcurrentDeploy
    | PrepareFailed | ScriptFailed(outcome: Outcome)

  const DEFAULT_MAINTENANCE_DB := "postgres"
  const LATEST_API := "1"

  function Mapped(f: char -> char, s: string): (t: string)
    ensures |t| == |s| && forall i :: 0 <= i < |s| ==> t[i] == f(s[i])
  {
    seq(|s|, i requires 0 <= i < |s| => f(s[i]))
  }

  predicate EqualFold(w: World, a: string, b: string) { Mapped(w.fold, a) == Mapped(w.fold, b) }

  predicate IsTemplateDatabase(w: World, name: string) {
    Mapped(w.lower, name) == "template0" || Mapped(w.lower, name) == "template1"
  }

  /** A database that may be dropped: not the one pgmi is connected to meanwhile,
      nor a template. */
  predicate ValidOverwriteTarget(w: World, target: string, maintenance: string) {
    !EqualFold(w, target, maintenance) && !IsTemplateDatabase(w, target)
  }

  function MaintenanceOf(config: Config): string {
    if config.maintenance == "" then DEFAULT_MAINTENANCE_DB else config.maintenance
  }

  function ClassifyCreate(reply: CreateReply): Result {
    match reply case Done => Ok case Duplicate => ConcurrentDeploy case OtherFailure => CreateFailed
  }

  /** What the caller of the preparation is told; a server below the minimum version
      is a configuration error. */
  function PrepareResult(err: Sessions.Error): Result {
    match err
    case NoError => Ok
    case ConcurrentDeploy => ConcurrentDeploy
    case ConnectFailed => ConnectFailed
    case VersionTooOld => InvalidConfig
    case _ => PrepareFailed
  }

  predicate SupportedApi(version: string) { version == "" || version == LATEST_API }

  // ---- the program ----

  class DeploymentService {
    const world: World
    var log: seq<Event>
    var lastResult: DeployResult?

    constructor (w: World)
      ensures world == w && log == [] && lastResult == null
    {
      world, log, lastResult := w, [], null;
    }

    /** Creates the database when it does not exist, with the server's defaults. */
    method CreateIfMissing(db: string) returns (existed: bool, r: Result)
      modifies this`log
      ensures log == old(log) + CreateLog(world, db) && r == CreateResult(world)
      ensures existed <==> world.existence == Known(true)
    {
      if world.existence.LookupFailed? {
        return false, ExistsFailed;
      }
      log := log + [Found(db, world.existence.present)];
      if !world.existence.present {
        if !world.create.Done? {
          return false, ClassifyCreate(world.create);
        }
        log := log + [Created(db, None)];
        return false, Ok;
      }
      return true, Ok;
    }

    /** Drops and recreates the database on an open maintenance connection. */
    method Recreate(db: string) returns (r: Result)
      modifies this`log
      ensures log == old(log) + RecreateLog(world, db) && r == RecreateResult(world)
      ensures exists n: nat, settings :: n <= 5 && log == old(log) + RecreateSteps(db, settings)[..n] && (r == Ok <==> n == 5)
    {
      StopsInOrder(world, db);
      if world.approval.NoAnswer? {
        return ApprovalFailed;
      }
      if !world.approval.Approved? {
        return ApprovalDenied;
      }
      log := log + [ApprovalGiven(db)];
      if world.settings.Unread? {
        return SettingsFailed;
      }
      var settings := world.settings.settings;
      log := log + [SettingsRead(db, settings)];
      if !world.terminate {
        return TerminateFailed;
      }
      log := log + [ConnectionsTerminated(db)];
      if !world.drop {
        return DropFailed;
      }
      log := log + [Dropped(db)];
      if !world.create.Done? {
        return ClassifyCreate(world.create);
      }
      log := log + [Created(db, settings)];
      return Ok;
    }

    method HandleOverwrite(config: Config) returns (r: Result)
      modifies this`log
      ensures log == old(log) + OverwriteLog(world, config) && r == OverwriteResult(world, config)
    {
      var managementDB := MaintenanceOf(config);
      if !ValidOverwriteTarget(world, config.database, managementDB) {
        return InvalidConfig;
      }
      log := log + [TargetAccepted(config.database)];
      if !world.maintenanceUp {
        return ConnectFailed;
      }
      log := log + [Opened(managementDB)];
      var existed, created := CreateIfMissing(config.database);
      if created != Ok || !existed {
        log := log + [Closed(managementDB)];
        return created;
      }
      r := Recreate(config.database);
      log := log + [Closed(managementDB)];
    }

    /** Probes the target; only a database that is absent is created, and only
        then is the maintenance database used. */
    method EnsureDatabaseExists(config: Config) returns (r: Result)
      modifies this`log
      ensures log == old(log) + EnsureLog(world, config) && r == EnsureResult(world)
    {
      if world.probe.Answered? {
        log := log + [Probed(config.database)];
        return Ok;
      }
      if !world.probe.UndefinedDatabase? {
        return ConnectFailed;
      }
      if !world.maintenanceUp {
        return ConnectFailed;
      }
      log := log + [Opened(MaintenanceOf(config))];
      var existed, created := CreateIfMissing(config.database);
      log := log + [Closed(MaintenanceOf(config))];
      return created;
    }

    /** Everything up to the session: the project is scanned and the compatibility
        checked before any database is touched. */
    method PrepareDatabase(config: Config) returns (r: Result)
      modifies this`log
      ensures log == old(log) + StepsLog(world, config) && r == StepsResult(world, config)
    {
      hide OverwriteLog, EnsureLog, OverwriteResult, EnsureResult, SupportedApi;
      if !config.wellFormed {
        return InvalidConfig;
      }
      if world.scan.None? {
        return ScanFailed;
      }
      log := log + [Scanned];
      if !SupportedApi(config.compat) {
        return UnsupportedCompat;
      }
      log := log + [CompatAccepted(config.compat)];
      if config.overwrite {
        r := HandleOverwrite(config);
      } else {
        r := EnsureDatabaseExists(config);
      }
    }

    /** Executes the script in a prepared session and closes the session. */
    method ExecuteAndClose(db: string, job: Job, session: Sessions.Session)
      returns (outcome: Outcome, ghost macros: seq<Macros.MacroCall>, ghost n: nat)
      requires lastResult != null && Reports(lastResult, [], 0, "") && FindsMatches(job.lx, job.script)
      requires session.conn != null && session.pool != null && session.onClose != null
      requires session.conn.Mirrored(Locks.Executing) && session.conn.alive
      modifies this`log, lastResult, session, session.conn, session.pool, session.onClose
      ensures log == old(log) + [ScriptRan(db, outcome.Succeeded?), SessionClosed(db)]
      ensures ScriptExecuted(job, old(session.conn.world), old(session.conn.backend), old(session.conn), lastResult, outcome, macros, n)
      ensures lastResult.filesLoaded == old(session.filesLoaded)
      ensures old(session.pool).closed && old(session.onClose).closed
    {
      hide Locks.RunBy, UnitActions, UnitsToRun, Runs, After, FindsMatches, AreCalls, Expands, EndsAs, UnitRequests, Server.Closed, LastUnitSent;
      lastResult.filesLoaded := session.filesLoaded;
      ghost var conn, w, s := session.conn, session.conn.world, session.conn.backend;
      var macroCount;
      macroCount, outcome, macros, n := ExecuteDeploySQL(job.lx, session.conn, lastResult, job.script, job.fates);
      lastResult.testMacros := macroCount;
      log := log + [ScriptRan(db, outcome.Succeeded?)];
      WithoutUnits(job.lx, job.script, macros, n);
      ghost var sent := conn.requests;
      ghost var units := UnitsToRun(job.lx, job.script, macros);
      RanEnds(job.lx, s, units, job.fates, n, conn.backend);
      Locks.RunByConcat(w, conn.id, UnitActions(job.lx, s, units, job.fates, Sent(units, n)), CLOSE_ACTIONS);
      session.Close();
      ReleaseSendsNoUnit(sent, After(job.lx, s, units, job.fates, Sent(units, n)).status);
      log := log + [SessionClosed(db)];
    }

    /** Prepares the session, executes the script and closes the session. */
    method RunSession(config: Config, files: nat, job: Job, conn: Sessions.Conn, pool: Sessions.Pool, connector: Sessions.Connector)
      returns (r: Result, ghost part: SessionPart)
      requires lastResult != null && Reports(lastResult, [], 0, "") && FindsMatches(job.lx, job.script)
      requires conn.Unused() && job.free == conn.LockFree() && !pool.closed && !connector.closed
      modifies this`log, lastResult, conn, pool, connector
      ensures log == old(log) + PartLog(config.database, part) && r == PartResult(part)
      ensures SessionRan(config, files, job, old(conn.world), old(conn.backend), conn, lastResult, part)
      ensures connector.closed && (job.answers.connect ==> pool.closed)
    {
      hide Locks.RunBy, Sessions.SessionActions, FindsMatches, ScriptExecuted, Sessions.Succeeds, Sessions.FindsLockHeld;
      log := log + [PreparationStarted(config.database)];
      var session, err := Sessions.PrepareSession(job.answers, files, config.verbose, job.free, conn, pool, connector);
      if session == null {
        part := SessionPart(err, ReadFailed, [], 0);
        return PrepareResult(err), part;
      }
      log := log + [SessionPrepared(config.database)];
      ghost var macros, n;
      var outcome;
      outcome, macros, n := ExecuteAndClose(config.database, job, session);
      part := SessionPart(err, outcome, macros, n);
      r := if outcome.Succeeded? then Ok else ScriptFailed(outcome);
    }

    /** The whole run.  What it reports is what the log holds; on the connection it is a
        run of the lock machine that leaves no lock; and once it has returned, the units
        it counts have kept their effects exactly when their statements leave no block
        with work in it open. */
    method Deploy(config: Config, job: Job, conn: Sessions.Conn, pool: Sessions.Pool, connector: Sessions.Connector)
      returns (r: Result, ghost part: SessionPart)
      requires log == [] && FindsMatches(job.lx, job.script)
      requires conn.Unused() && job.free == conn.LockFree() && !pool.closed && !connector.closed
      modifies this, conn, pool, connector
      ensures log == RunLog(world, config, part) && r == RunResult(world, config, part)
      ensures StepsAreDue(world, config, part, log) && ResultIsDue(world, config, part, log, r)
      ensures InOrder(log) && (forall e :: e in log ==> IsOfRun(e, config)) && DropsInOrder(log, config)
      ensures r == Ok <==> ScriptRan(config.database, true) in log
      ensures r == ConcurrentDeploy <==>
                || (world.create.Duplicate? && (Found(config.database, false) in log || Dropped(config.database) in log))
                || (PreparationStarted(config.database) in log && FindsLockHeld(job))
      ensures r.ScriptFailed? ==> r.outcome == part.outcome && !r.outcome.Succeeded?
      ensures lastResult != null && fresh(lastResult)
      ensures r.ScriptFailed? && r.outcome.ExecutionFailed? ==>
                && LastUnitSent(conn.requests) == Some(r.outcome.unit)
                && lastResult.executionMode == if lastResult.unitsCommitted == 0 then "atomic" else "psql"
      ensures PreparationStarted(config.database) !in log ==>
                conn.Unused() && conn.world == old(conn.world) && conn.backend == old(conn.backend)
      ensures PreparationStarted(config.database) in log ==>
                && world.scan.Some?
                && SessionRan(config, world.scan.value, job, old(conn.world), old(conn.backend), conn, lastResult, part)
                && CountIsHonest(job, old(conn.backend), conn, part)
                && (Locks.Safe(old(conn.world)) ==> Locks.Safe(conn.world))
    {
      hide StepsLog, StepsResult, StepsAreDue, ResultIsDue, InOrder, IsOfRun, DropsInOrder, PartResult, PartLog, FindsMatches, SessionRan, FindsLockHeld, CountIsHonest;
      part := SessionPart(Sessions.NoError, ReadFailed, [], 0);
      lastResult := new DeployResult();
      r := PrepareDatabase(config);
      ResultOfRun(world, config, part);
      RunShows(world, config, part);
      if r != Ok {
        DropIsInOrder(world, config, part);
        return;
      }
      r, part := RunSession(config, world.scan.value, job, conn, pool, connector);
      DropIsInOrder(world, config, part);
      ResultOfRun(world, config, part);
      RunShows(world, config, part);
      SessionLaws(config, world.scan.value, job, old(conn.world), old(conn.backend), conn, lastResult, part);
    }
  }

  // ---- the session steps ----

  /** The preparation gets as far as the lock, and another session holds it. */
  predicate FindsLockHeld(job: Job) {
    job.answers.connect && job.answers.acquire && Sessions.FindsLockHeld(job.answers, job.free)
  }

  /** The server session that a preparation leaves behind. */
  function Prepared(backend: Server.Session, a: Sessions.Answers): Server.Session
    requires a.contract.Done?
  {
    backend.(status := a.contract.status)
  }

  const CLOSE_ACTIONS := [Locks.NoMoreUnits] + Sessions.RELEASE_ACTIONS + [Locks.Return]

  /** Giving up the lock and the connection sends no unit. */
  lemma ReleaseSendsNoUnit(sent: seq<Sessions.Request>, status: Server.TxStatus)
    ensures LastUnitSent(sent + Sessions.ReleaseRequests(status) + [Sessions.GivenBack]) == LastUnitSent(sent)
  {
    hide LastUnitSent;
    var rolledBack := if status == Server.Idle then sent else sent + [Sessions.RollbackRequest];
    assert sent + Sessions.ReleaseRequests(status) == rolledBack + [Sessions.UnlockRequest];
    NoUnitMore(sent, Sessions.RollbackRequest);
    NoUnitMore(rolledBack, Sessions.UnlockRequest);
    NoUnitMore(rolledBack + [Sessions.UnlockRequest], Sessions.GivenBack);
  }

  lemma NoUnitMore(sent: seq<Sessions.Request>, request: Sessions.Request)
    requires !request.Unit?
    ensures LastUnitSent(sent + [request]) == LastUnitSent(sent)
  {
    assert (sent + [request])[..|sent|] == sent;
  }

  lemma WithoutUnits(lx: Lexis, script: Script, macros: seq<Macros.MacroCall>, n: nat)
    requires FindsMatches(lx, script) && AreCalls(lx, script, macros) && n <= |UnitsToRun(lx, script, macros)|
    ensures !Expands(script, macros) ==> UnitsToRun(lx, script, macros) == []
  {
    hide AllGood;
  }

  lemma RanEnds(lx: Lexis, s: Server.Session, units: seq<Bytes>, fates: nat -> int, n: nat, session: Server.Session)
    requires Ran(lx, s, units, fates, n, session)
    ensures n <= |units| && session == After(lx, s, units, fates, Sent(units, n))
  {
    hide Runs, After;
  }

  /** What executing and closing leave on a connection whose session was `s` and whose
      locks were as in `w`: the units of the script are run up to the first that fails,
      and counted; what is open is rolled back; all steps are a run of the lock machine,
      after which the lock is free. */
  ghost predicate ScriptExecuted(job: Job, w: Locks.World, s: Server.Session, conn: Sessions.Conn?, result: DeployResult?,
                                 outcome: Outcome, macros: seq<Macros.MacroCall>, n: nat)
    requires FindsMatches(job.lx, job.script)
    reads conn, result
  {
    && conn != null && result != null && AreCalls(job.lx, job.script, macros)
    && var units := UnitsToRun(job.lx, job.script, macros);
    && n <= |units|
    && var session := After(job.lx, s, units, job.fates, Sent(units, n));
    && Ran(job.lx, s, units, job.fates, n, session) && conn.backend == Server.Closed(session)
    && EndsAs(job.lx, job.script, macros, n, outcome)
    && (outcome.ExecutionFailed? ==> LastUnitSent(conn.requests) == Some(outcome.unit))
    && conn.alive && !conn.holdsLock && conn.Mirrored(Locks.Finished)
    && conn.world == Locks.RunBy(w, conn.id, UnitActions(job.lx, s, units, job.fates, Sent(units, n)) + CLOSE_ACTIONS)
    && Reports(result, units, n, "") && result.testMacros == if Expands(job.script, macros) then |macros| else 0
  }

  /** What the session steps leave, when the locks were as in `w` and the server session
      as in `b` before: whatever fails, the steps are a run of the lock machine, and the
      lock is not kept on a live connection. */
  ghost predicate SessionRan(config: Config, files: nat, job: Job, w: Locks.World, b: Server.Session, conn: Sessions.Conn,
                             result: DeployResult?, part: SessionPart)
    requires FindsMatches(job.lx, job.script)
    reads conn, result
  {
    var a := job.answers;
    var prepared := Locks.RunBy(w, conn.id, Sessions.SessionActions(a, config.verbose, job.free));
    && (part.prepared == Sessions.NoError <==> a.connect && a.acquire && Sessions.Succeeds(a, config.verbose, job.free))
    && (part.prepared == Sessions.ConcurrentDeploy <==> FindsLockHeld(job))
    && (part.prepared == Sessions.ConnectFailed <==> !a.connect)
    && (part.prepared == Sessions.VersionTooOld <==> a.connect && a.acquire && a.version.Version? && a.version.number < 110000)
    && if part.prepared != Sessions.NoError then
         conn.world == prepared && conn.Mirrored(Locks.Finished) && (conn.alive ==> !conn.holdsLock)
       else
         && a.contract.Done? && result != null && result.filesLoaded == files
         && ScriptExecuted(job, prepared, Prepared(b, a), conn, result, part.outcome, part.macros, part.ran)
  }

  /** After a run in a session that starts outside a transaction, and unless the unit that
      fails keeps something early, the effects of the units that ran are durable exactly
      when their statements leave no block with work in it open. */
  ghost predicate CountIsHonest(job: Job, b: Server.Session, conn: Sessions.Conn, part: SessionPart)
    requires FindsMatches(job.lx, job.script)
    reads conn
  {
    part.prepared == Sessions.NoError ==>
      && job.answers.contract.Done? && AreCalls(job.lx, job.script, part.macros)
      && var s, units, n := Prepared(b, job.answers), UnitsToRun(job.lx, job.script, part.macros), part.ran;
      && n <= |units|
      && (Fresh(s) && (n < |units| ==> KeepsNothingEarly(job.lx, units, n)) ==>
            (conn.backend.durable == Execute.Done(After(job.lx, s, units, job.fates, n)) <==> !TrackUnits(job.lx, units, n).work))
  }

  lemma SessionLaws(config: Config, files: nat, job: Job, w: Locks.World, b: Server.Session, conn: Sessions.Conn,
                    result: DeployResult?, part: SessionPart)
    requires FindsMatches(job.lx, job.script) && SessionRan(config, files, job, w, b, conn, result, part)
    ensures part.prepared == Sessions.ConcurrentDeploy <==> FindsLockHeld(job)
    ensures CountIsHonest(job, b, conn, part)
    ensures part.prepared == Sessions.NoError && part.outcome.ExecutionFailed? ==>
              && result != null && LastUnitSent(conn.requests) == Some(part.outcome.unit)
              && result.executionMode == if result.unitsCommitted == 0 then "atomic" else "psql"
    ensures Locks.Safe(w) ==> Locks.Safe(conn.world)
  {
    hide UnitsToRun, Runs, After, KeepsNothingEarly, TrackUnits, UnitActions, Locks.RunBy, Locks.Safe, Sessions.SessionActions;
    if Locks.Safe(w) { DeployIsSafe(config, files, job, w, b, conn, result, part); }
    if part.prepared == Sessions.NoError {
      var s, units, n := Prepared(b, job.answers), UnitsToRun(job.lx, job.script, part.macros), part.ran;
      if Fresh(s) && (n < |units| ==> KeepsNothingEarly(job.lx, units, n)) {
        CountIsOfDurableUnits(job.lx, units, s, job.fates, n, After(job.lx, s, units, job.fates, Sent(units, n)));
      }
    }
  }

  /** The steps of a whole session keep the safety of the locks. */
  lemma DeployIsSafe(config: Config, files: nat, job: Job, w: Locks.World, b: Server.Session, conn: Sessions.Conn,
                     result: DeployResult?, part: SessionPart)
    requires FindsMatches(job.lx, job.script) && SessionRan(config, files, job, w, b, conn, result, part)
    requires Locks.Safe(w)
    ensures Locks.Safe(conn.world)
  {
    hide Locks.RunBy, Locks.Safe, Sessions.SessionActions, UnitActions;
    var steps := Sessions.SessionActions(job.answers, config.verbose, job.free);
    Locks.RunByKeepsSafe(w, conn.id, steps);
    if part.prepared == Sessions.NoError {
      var s, units := Prepared(b, job.answers), UnitsToRun(job.lx, job.script, part.macros);
      Locks.RunByKeepsSafe(Locks.RunBy(w, conn.id, steps), conn.id,
                           UnitActions(job.lx, s, units, job.fates, Sent(units, part.ran)) + CLOSE_ACTIONS);
    }
  }

  // ---- what it does ----

  /** A recreation in full. */
  function RecreateSteps(db: string, settings: Option<Settings>): seq<Event> {
    [ApprovalGiven(db), SettingsRead(db, settings), ConnectionsTerminated(db), Dropped(db), Created(db, settings)]
  }

  /** Whatever fails, a recreation takes its steps in order and stops. */
  lemma StopsInOrder(w: World, db: string)
    ensures exists n: nat, settings :: n <= 5 && RecreateLog(w, db) == RecreateSteps(db, settings)[..n] && (RecreateResult(w) == Ok <==> n == 5)
  {
    var settings := if w.settings.Read? then w.settings.settings else None;
    var steps := RecreateSteps(db, settings);
    var n := if !w.approval.Approved? then 0 else if w.settings.Unread? then 1 else if !w.terminate then 2
             else if !w.drop then 3 else if !w.create.Done? then 4 else 5;
    assert RecreateLog(w, db) == steps[..n];
  }

  function RecreateLog(w: World, db: string): seq<Event> {
    if !w.approval.Approved? then []
    else if w.settings.Unread? then [ApprovalGiven(db)]
    else if !w.terminate then [ApprovalGiven(db), SettingsRead(db, w.settings.settings)]
    else if !w.drop then [ApprovalGiven(db), SettingsRead(db, w.settings.settings), ConnectionsTerminated(db)]
    else
      [ApprovalGiven(db), SettingsRead(db, w.settings.settings), ConnectionsTerminated(db), Dropped(db)]
      + (if w.create.Done? then [Created(db, w.settings.settings)] else [])
  }

  function RecreateResult(w: World): Result {
    if w.approval.NoAnswer? then ApprovalFailed
    else if w.approval.Denied? then ApprovalDenied
    else if w.settings.Unread? then SettingsFailed
    else if !w.terminate then TerminateFailed
    else if !w.drop then DropFailed
    else ClassifyCreate(w.create)
  }

  function CreateLog(w: World, db: string): seq<Event> {
    match w.existence
    case LookupFailed => []
    case Known(true) => [Found(db, true)]
    case Known(false) => [Found(db, false)] + if w.create.Done? then [Created(db, None)] else []
  }

  function CreateResult(w: World): Result {
    match w.existence
    case LookupFailed => ExistsFailed
    case Known(true) => Ok
    case Known(false) => ClassifyCreate(w.create)
  }

  function OverwriteLog(w: World, config: Config): seq<Event> {
    var db, m := config.database, MaintenanceOf(config);
    if !ValidOverwriteTarget(w, db, m) then []
    else if !w.maintenanceUp then [TargetAccepted(db)]
    else
      [TargetAccepted(db), Opened(m)] + CreateLog(w, db)
      + (if w.existence == Known(true) then RecreateLog(w, db) else []) + [Closed(m)]
  }

  function OverwriteResult(w: World, config: Config): Result {
    if !ValidOverwriteTarget(w, config.database, MaintenanceOf(config)) then InvalidConfig
    else if !w.maintenanceUp then ConnectFailed
    else if w.existence == Known(true) then RecreateResult(w)
    else CreateResult(w)
  }

  function EnsureLog(w: World, config: Config): seq<Event> {
    var m := MaintenanceOf(config);
    if w.probe.Answered? then [Probed(config.database)]
    else if w.probe.Unreachable? || !w.maintenanceUp then []
    else [Opened(m)] + CreateLog(w, config.database) + [Closed(m)]
  }

  function EnsureResult(w: World): Result {
    if w.probe.Answered? then Ok
    else if w.probe.Unreachable? || !w.maintenanceUp then ConnectFailed
    else CreateResult(w)
  }

  function DatabaseLog(w: World, config: Config): seq<Event> {
    if config.overwrite then OverwriteLog(w, config) else EnsureLog(w, config)
  }

  function DatabaseResult(w: World, config: Config): Result {
    if config.overwrite then OverwriteResult(w, config) else EnsureResult(w)
  }

  /** The session steps, once the database is there. */
  function PartLog(db: string, part: SessionPart): seq<Event> {
    [PreparationStarted(db)]
    + if part.prepared == Sessions.NoError then [SessionPrepared(db), ScriptRan(db, part.outcome.Succeeded?), SessionClosed(db)] else []
  }

  function PartResult(part: SessionPart): Result {
    if part.prepared != Sessions.NoError then PrepareResult(part.prepared) else if part.outcome.Succeeded? then Ok else ScriptFailed(part.outcome)
  }

  /** Whether the run gets as far as the database. */
  predicate Accepted(w: World, config: Config) {
    config.wellFormed && w.scan.Some? && SupportedApi(config.compat)
  }

  /** The steps up to the session. */
  function StepsLog(w: World, config: Config): seq<Event> {
    if !config.wellFormed || w.scan.None? then []
    else if !SupportedApi(config.compat) then [Scanned]
    else [Scanned, CompatAccepted(config.compat)] + DatabaseLog(w, config)
  }

  function StepsResult(w: World, config: Config): Result {
    if !config.wellFormed then InvalidConfig
    else if w.scan.None? then ScanFailed
    else if !SupportedApi(config.compat) then UnsupportedCompat
    else DatabaseResult(w, config)
  }

  function SessionLog(w: World, config: Config, part: SessionPart): seq<Event> {
    if StepsResult(w, config) == Ok then PartLog(config.database, part) else []
  }

  function RunLog(w: World, config: Config, part: SessionPart): seq<Event> {
    StepsLog(w, config) + SessionLog(w, config, part)
  }

  function RunResult(w: World, config: Config, part: SessionPart): Result {
    if StepsResult(w, config) == Ok then PartResult(part) else StepsResult(w, config)
  }

  // ---- what holds of every run ----

  /** Everything that has happened, in this order, by the time a database is dropped. */
  function BeforeDrop(config: Config, settings: Option<Settings>): seq<Event> {
    var db := config.database;
    [Scanned, CompatAccepted(config.compat), TargetAccepted(db), Opened(MaintenanceOf(config)), Found(db, true),
     ApprovalGiven(db), SettingsRead(db, settings), ConnectionsTerminated(db)]
  }

  /** What a drop takes: every step before it succeeds. */
  predicate WillDrop(w: World, config: Config) {
    && Accepted(w, config) && config.overwrite
    && ValidOverwriteTarget(w, config.database, MaintenanceOf(config)) && w.maintenanceUp
    && w.existence == Known(true) && w.approval.Approved? && w.settings.Read? && w.terminate && w.drop
  }

  /** The log of a run that drops a database. */
  lemma LogWithDrop(w: World, config: Config, part: SessionPart)
    requires WillDrop(w, config)
    ensures RunLog(w, config, part) ==
            BeforeDrop(config, w.settings.settings) + [Dropped(config.database)]
            + (if w.create.Done? then [Created(config.database, w.settings.settings)] else [])
            + [Closed(MaintenanceOf(config))] + SessionLog(w, config, part)
  {
    hide EqualFold, IsTemplateDatabase, SessionLog;
    SessionLast(w, config, part);
  }

  lemma SessionLast(w: World, config: Config, part: SessionPart)
    requires Accepted(w, config)
    ensures RunLog(w, config, part) ==
            [Scanned, CompatAccepted(config.compat)] + DatabaseLog(w, config) + SessionLog(w, config, part)
  {
    hide DatabaseLog, DatabaseResult;
  }

  /** A database is dropped exactly when every step before the drop succeeded. */
  lemma DropIff(w: World, config: Config, part: SessionPart)
    ensures (exists i :: 0 <= i < |RunLog(w, config, part)| && RunLog(w, config, part)[i].Dropped?) <==> WillDrop(w, config)
  {
    hide EqualFold, IsTemplateDatabase;
    if WillDrop(w, config) {
      LogWithDrop(w, config, part);
      assert RunLog(w, config, part)[8].Dropped?;
    } else if Accepted(w, config) {
      SessionLast(w, config, part);
      NoDropIn(w, config);
      hide RunLog, DatabaseLog, DatabaseResult;
    }
  }

  lemma NoDropIn(w: World, config: Config)
    requires Accepted(w, config) && !WillDrop(w, config)
    ensures forall i :: 0 <= i < |DatabaseLog(w, config)| ==> !DatabaseLog(w, config)[i].Dropped?
  {
    hide EqualFold, IsTemplateDatabase;
  }

  /** A drop is of the configured database, which is neither the maintenance nor
      a template database and which the approval was for, and comes after
      exactly the accepted scan, compatibility, target and existence checks, the
      approval, the reading of the settings and the termination of connections,
      in this order.  A database created in such a run is created right after
      the drop, under that name, with exactly the settings read before it. */
  lemma DropIsLast(w: World, config: Config, part: SessionPart, i: nat)
    requires i < |RunLog(w, config, part)| && RunLog(w, config, part)[i].Dropped?
    ensures var log := RunLog(w, config, part);
            && w.settings.Read? && log[i] == Dropped(config.database)
            && log[..i] == BeforeDrop(config, w.settings.settings)
            && (forall k :: 0 <= k < |log| && log[k].Created? ==>
                  k == i + 1 && log[k] == Created(config.database, w.settings.settings))
            && ValidOverwriteTarget(w, config.database, MaintenanceOf(config))
  {
    hide RunLog, EqualFold, IsTemplateDatabase, DatabaseResult, BeforeDrop, SessionLog;
    DropIff(w, config, part);
    LogWithDrop(w, config, part);
    var created := if w.create.Done? then [Created(config.database, w.settings.settings)] else [];
    var front, closed := BeforeDrop(config, w.settings.settings) + [Dropped(config.database)] + created, [Closed(MaintenanceOf(config))];
    QuietParts(w, config, part);
    Assoc(front, closed, SessionLog(w, config, part));
    DropAt(BeforeDrop(config, w.settings.settings), Dropped(config.database), created, closed + SessionLog(w, config, part), i);
  }

  /** A drop is of the configured database and comes after exactly these steps, and
      a database created in the run is created right after it, with the settings
      read before it. */
  ghost predicate DropsInOrder(log: seq<Event>, config: Config) {
    forall i :: 0 <= i < |log| && log[i].Dropped? ==>
      exists settings ::
        && log[..i] == BeforeDrop(config, settings) && log[i] == Dropped(config.database)
        && forall k :: 0 <= k < |log| && log[k].Created? ==> k == i + 1 && log[k] == Created(config.database, settings)
  }

  lemma DropIsInOrder(w: World, config: Config, part: SessionPart)
    ensures DropsInOrder(RunLog(w, config, part), config)
  {
    hide RunLog, BeforeDrop;
    var log := RunLog(w, config, part);
    forall i | 0 <= i < |log| && log[i].Dropped?
      ensures exists settings ::
        && log[..i] == BeforeDrop(config, settings) && log[i] == Dropped(config.database)
        && forall k :: 0 <= k < |log| && log[k].Created? ==> k == i + 1 && log[k] == Created(config.database, settings)
    {
      DropIsLast(w, config, part, i);
    }
  }

  lemma InParts<T>(x: T, a: seq<T>, b: seq<T>)
    ensures x in a + b <==> x in a || x in b
  {}

  /** A run succeeds exactly when it ran the script without error, and reports a
      concurrent deployment exactly when the database it set out to create, missing
      or just dropped, was there, or when it got as far as the preparation and that
      found the deployment lock held. */
  lemma ResultOfRun(w: World, config: Config, part: SessionPart)
    ensures var log, r, db := RunLog(w, config, part), RunResult(w, config, part), config.database;
            && (r == Ok <==> ScriptRan(db, true) in log)
            && (PreparationStarted(db) in log <==> StepsResult(w, config) == Ok)
            && (StepsResult(w, config) == Ok ==> Accepted(w, config))
            && (r.ScriptFailed? ==>
                  StepsResult(w, config) == Ok && part.prepared == Sessions.NoError && r.outcome == part.outcome && !r.outcome.Succeeded?)
            && (r == ConcurrentDeploy <==>
                  || (w.create.Duplicate? && (Found(db, false) in log || Dropped(db) in log))
                  || (PreparationStarted(db) in log && part.prepared == Sessions.ConcurrentDeploy))
  {
    hide DatabaseLog, DatabaseResult, StepsAreDue, ResultIsDue, RunLog, Accepted, InOrder;
    RunShows(w, config, part);
    WhenConcurrent(w, config, part, RunLog(w, config, part), RunResult(w, config, part));
    WhenStarted(w, config, part);
  }

  lemma WhenStarted(w: World, config: Config, part: SessionPart)
    ensures PreparationStarted(config.database) in RunLog(w, config, part) <==> StepsResult(w, config) == Ok
    ensures StepsResult(w, config) == Ok ==> Accepted(w, config)
    ensures !StepsResult(w, config).ScriptFailed?
  {
    hide DatabaseLog, DatabaseResult, StepsAreDue, ResultIsDue, LookupStepsAreDue, ChangingStepsAreDue, DatabaseResultIsDue, IsThere, InOrder, RunLog;
    if Accepted(w, config) {
      AcceptedTakes(w, config, part);
      DatabaseTakes(w, config);
      DatabaseIsDue(w, config);
    } else {
      RefusedShows(w, config, part);
    }
  }

  lemma WhenConcurrent(w: World, config: Config, part: SessionPart, log: seq<Event>, r: Result)
    requires StepsAreDue(w, config, part, log) && ResultIsDue(w, config, part, log, r)
    ensures var db := config.database;
            r == ConcurrentDeploy <==>
              || (w.create.Duplicate? && (Found(db, false) in log || Dropped(db) in log))
              || (PreparationStarted(db) in log && part.prepared == Sessions.ConcurrentDeploy)
    ensures r == Ok <==> ScriptRan(config.database, true) in log
  {
    hide Mapped;
  }

  // ---- what a log shows ----

  /** The steps up to the lookup: each is taken exactly when the step before it was and
      the outside world allowed it; `accepted` tells whether the run got to the databases. */
  ghost predicate LookupStepsAreDue(w: World, config: Config, accepted: bool, log: seq<Event>) {
    var db, m := config.database, if config.maintenance == "" then "postgres" else config.maintenance;
    var protected := Mapped(w.fold, db) == Mapped(w.fold, m) || Mapped(w.lower, db) in {"template0", "template1"};
    && (Probed(db) in log <==> accepted && !config.overwrite && w.probe == Answered)
    && (TargetAccepted(db) in log <==> accepted && config.overwrite && !protected)
    && (Opened(m) in log <==>
          w.maintenanceUp && (TargetAccepted(db) in log || (accepted && !config.overwrite && w.probe == UndefinedDatabase)))
    && (Closed(m) in log <==> Opened(m) in log)
    && (forall p :: Found(db, p) in log <==> Opened(m) in log && w.existence == Known(p))
  }

  /** The steps behind the lookup. */
  ghost predicate ChangingStepsAreDue(w: World, config: Config, log: seq<Event>) {
    var db := config.database;
    && (ApprovalGiven(db) in log <==> config.overwrite && Found(db, true) in log && w.approval == Approved)
    && (forall s :: SettingsRead(db, s) in log <==> ApprovalGiven(db) in log && w.settings == Read(s))
    && (ConnectionsTerminated(db) in log <==> ApprovalGiven(db) in log && w.settings.Read? && w.terminate)
    && (Dropped(db) in log <==> ConnectionsTerminated(db) in log && w.drop)
    && (forall s :: Created(db, s) in log <==>
          w.create == Done && ((Found(db, false) in log && s == None) || (Dropped(db) in log && w.settings == Read(s))))
  }

  /** Whether the database is there to be deployed to: recreated for an overwrite,
      otherwise answering, found or created. */
  ghost predicate IsThere(config: Config, log: seq<Event>) {
    var db := config.database;
    if config.overwrite then exists s :: Created(db, s) in log
    else Probed(db) in log || Found(db, true) in log || Created(db, None) in log
  }

  /** The steps of a whole run. */
  ghost predicate StepsAreDue(w: World, config: Config, part: SessionPart, log: seq<Event>) {
    var db := config.database;
    && (Scanned in log <==> config.wellFormed && w.scan.Some?)
    && (CompatAccepted(config.compat) in log <==> Scanned in log && (config.compat == "" || config.compat == "1"))
    && LookupStepsAreDue(w, config, CompatAccepted(config.compat) in log, log) && ChangingStepsAreDue(w, config, log)
    && (PreparationStarted(db) in log <==> IsThere(config, log))
    && (SessionPrepared(db) in log <==> PreparationStarted(db) in log && part.prepared == Sessions.NoError)
    && (forall ok :: ScriptRan(db, ok) in log <==> SessionPrepared(db) in log && part.outcome.Succeeded? == ok)
    && (SessionClosed(db) in log <==> SessionPrepared(db) in log)
  }

  /** What a failure of the steps on the databases is reported as: the last step taken
      and the answer that did not allow the next. */
  ghost predicate DatabaseResultIsDue(w: World, config: Config, log: seq<Event>, r: Result) {
    var db, m := config.database, MaintenanceOf(config);
    && (r == InvalidConfig <==> config.overwrite && TargetAccepted(db) !in log)
    && (r == ConnectFailed <==>
          || (TargetAccepted(db) in log && !w.maintenanceUp)
          || (!config.overwrite && (w.probe == Unreachable || (w.probe == UndefinedDatabase && !w.maintenanceUp))))
    && (r == ExistsFailed <==> Opened(m) in log && w.existence == LookupFailed)
    && (r == ApprovalFailed <==> config.overwrite && Found(db, true) in log && w.approval == NoAnswer)
    && (r == ApprovalDenied <==> config.overwrite && Found(db, true) in log && w.approval == Denied)
    && (r == SettingsFailed <==> ApprovalGiven(db) in log && w.settings == Unread)
    && (r == TerminateFailed <==> ApprovalGiven(db) in log && w.settings.Read? && !w.terminate)
    && (r == DropFailed <==> ConnectionsTerminated(db) in log && !w.drop)
    && (r == CreateFailed <==> (Found(db, false) in log || Dropped(db) in log) && w.create == OtherFailure)
    && (r == ConcurrentDeploy <==> (Found(db, false) in log || Dropped(db) in log) && w.create == Duplicate)
    && (r == Ok <==> IsThere(config, log))
    && r !in {ScanFailed, UnsupportedCompat, PrepareFailed} && !r.ScriptFailed?
  }

  /** What a run reports, read off its log and the answer that ended it. */
  ghost predicate ResultIsDue(w: World, config: Config, part: SessionPart, log: seq<Event>, r: Result) {
    var db, accepted := config.database, CompatAccepted(config.compat) in log;
    && (r == Ok <==> ScriptRan(db, true) in log)
    && (r.ScriptFailed? <==> ScriptRan(db, false) in log)
    && (r.ScriptFailed? ==> r.outcome == part.outcome)
    && (r == ScanFailed <==> config.wellFormed && Scanned !in log)
    && (r == UnsupportedCompat <==> Scanned in log && !accepted)
    && if PreparationStarted(db) in log then
         && (r == ConnectFailed <==> part.prepared == Sessions.ConnectFailed)
         && (r == InvalidConfig <==> part.prepared == Sessions.VersionTooOld)
         && (r == ConcurrentDeploy <==> part.prepared == Sessions.ConcurrentDeploy)
         && (r == PrepareFailed <==>
               part.prepared !in {Sessions.NoError, Sessions.ConnectFailed, Sessions.VersionTooOld, Sessions.ConcurrentDeploy})
         && r !in {ExistsFailed, ApprovalFailed, ApprovalDenied, SettingsFailed, TerminateFailed, DropFailed, CreateFailed}
       else if accepted then DatabaseResultIsDue(w, config, log, r)
       else r == InvalidConfig || r == ScanFailed || r == UnsupportedCompat
  }

  /** The order of the steps. */
  function Rank(e: Event): nat {
    match e
    case Scanned => 0
    case CompatAccepted(_) => 1
    case Probed(_) => 2
    case TargetAccepted(_) => 2
    case Opened(_) => 3
    case Found(_, _) => 4
    case ApprovalGiven(_) => 5
    case SettingsRead(_, _) => 6
    case ConnectionsTerminated(_) => 7
    case Dropped(_) => 8
    case Created(_, _) => 9
    case Closed(_) => 10
    case PreparationStarted(_) => 11
    case SessionPrepared(_) => 12
    case ScriptRan(_, _) => 13
    case SessionClosed(_) => 14
  }

  /** Every step is taken at most once, and in this order. */
  ghost predicate InOrder(log: seq<Event>) {
    forall i, j :: 0 <= i < j < |log| ==> Rank(log[i]) < Rank(log[j])
  }

  /** The maintenance connection is to the maintenance database, and everything else is
      on the configured one. */
  predicate IsOfRun(e: Event, config: Config) {
    match e
    case Scanned => true
    case CompatAccepted(v) => v == config.compat
    case Opened(d) => d == MaintenanceOf(config)
    case Closed(d) => d == MaintenanceOf(config)
    case Probed(d) => d == config.database
    case TargetAccepted(d) => d == config.database
    case PreparationStarted(d) => d == config.database
    case SessionPrepared(d) => d == config.database
    case ScriptRan(d, _) => d == config.database
    case SessionClosed(d) => d == config.database
    case _ => OnTarget(e, config.database)
  }

  /** When a recreation takes the step `e`. */
  predicate IsRecreateStep(w: World, db: string, e: Event) {
    && w.approval.Approved?
    && (|| e == ApprovalGiven(db)
        || (&& w.settings.Read?
            && (|| e == SettingsRead(db, w.settings.settings)
                || (w.terminate && (|| e == ConnectionsTerminated(db)
                                    || (w.drop && (|| e == Dropped(db)
                                                   || (w.create.Done? && e == Created(db, w.settings.settings)))))))))
  }

  lemma RecreateTakes(w: World, db: string, e: Event)
    ensures e in RecreateLog(w, db) <==> IsRecreateStep(w, db, e)
  {}

  predicate IsCreateStep(w: World, db: string, e: Event) {
    && w.existence.Known?
    && (e == Found(db, w.existence.present) || (!w.existence.present && w.create.Done? && e == Created(db, None)))
  }

  lemma CreateTakes(w: World, db: string, e: Event)
    ensures e in CreateLog(w, db) <==> IsCreateStep(w, db, e)
  {}

  lemma OverwriteTakes(w: World, config: Config, e: Event)
    ensures var db, m := config.database, MaintenanceOf(config);
            e in OverwriteLog(w, config) <==>
            && ValidOverwriteTarget(w, db, m)
            && (|| e == TargetAccepted(db)
                || (w.maintenanceUp && (|| e == Opened(m) || e == Closed(m) || IsCreateStep(w, db, e)
                                        || (w.existence == Known(true) && IsRecreateStep(w, db, e)))))
  {
    hide ValidOverwriteTarget, IsCreateStep, IsRecreateStep, CreateLog, RecreateLog;
    CreateTakes(w, config.database, e);
    RecreateTakes(w, config.database, e);
  }

  lemma EnsureTakes(w: World, config: Config, e: Event)
    ensures var db, m := config.database, MaintenanceOf(config);
            e in EnsureLog(w, config) <==>
            || (w.probe.Answered? && e == Probed(db))
            || (w.probe.UndefinedDatabase? && w.maintenanceUp && (e == Opened(m) || e == Closed(m) || IsCreateStep(w, db, e)))
  {
    hide IsCreateStep, CreateLog;
    CreateTakes(w, config.database, e);
  }

  lemma DatabaseTakes(w: World, config: Config)
    ensures forall e :: e in DatabaseLog(w, config) ==> IsOfRun(e, config) && 2 <= Rank(e) <= 10
  {
    hide ValidOverwriteTarget, OverwriteLog, EnsureLog;
    forall e | e in DatabaseLog(w, config) ensures IsOfRun(e, config) && 2 <= Rank(e) <= 10 {
      OverwriteTakes(w, config, e);
      EnsureTakes(w, config, e);
    }
  }

  lemma OverwriteLooksUp(w: World, config: Config)
    requires config.overwrite
    ensures LookupStepsAreDue(w, config, true, OverwriteLog(w, config))
  {
    hide Mapped, OverwriteLog, IsRecreateStep;
    forall e { OverwriteTakes(w, config, e); }
    forall e { NotOfRecreate(w, config.database, e); }
  }

  lemma NotOfRecreate(w: World, db: string, e: Event)
    ensures IsRecreateStep(w, db, e) ==> 5 <= Rank(e) <= 9
  {}

  lemma OverwriteChanges(w: World, config: Config)
    requires config.overwrite
    ensures ChangingStepsAreDue(w, config, OverwriteLog(w, config))
  {
    hide ValidOverwriteTarget, OverwriteLog;
    forall e { OverwriteTakes(w, config, e); }
  }

  lemma EnsureLooksUp(w: World, config: Config)
    requires !config.overwrite
    ensures LookupStepsAreDue(w, config, true, EnsureLog(w, config))
  {
    hide Mapped, EnsureLog;
    forall e { EnsureTakes(w, config, e); }
  }

  lemma EnsureChanges(w: World, config: Config)
    requires !config.overwrite
    ensures ChangingStepsAreDue(w, config, EnsureLog(w, config))
  {
    hide EnsureLog;
    forall e { EnsureTakes(w, config, e); }
  }

  lemma OverwriteShows(w: World, config: Config)
    requires config.overwrite
    ensures DatabaseResultIsDue(w, config, OverwriteLog(w, config), OverwriteResult(w, config))
  {
    hide ValidOverwriteTarget, OverwriteLog;
    forall e { OverwriteTakes(w, config, e); }
  }

  lemma EnsureShows(w: World, config: Config)
    requires !config.overwrite
    ensures DatabaseResultIsDue(w, config, EnsureLog(w, config), EnsureResult(w))
  {
    hide EnsureLog;
    forall e { EnsureTakes(w, config, e); }
  }

  lemma DatabaseInOrder(w: World, config: Config)
    ensures InOrder(DatabaseLog(w, config))
  {
    hide ValidOverwriteTarget, RecreateLog;
    if config.overwrite && w.existence == Known(true) {
      var db, m := config.database, MaintenanceOf(config);
      var front := [TargetAccepted(db), Opened(m), Found(db, true)];
      forall e ensures e in RecreateLog(w, db) ==> 5 <= Rank(e) <= 9 {
        RecreateTakes(w, db, e);
      }
      RecreateInOrder(w, db);
      OrderedParts(front, RecreateLog(w, db), 5);
      forall e { InParts(e, front, RecreateLog(w, db)); }
      OrderedParts(front + RecreateLog(w, db), [Closed(m)], 10);
    }
  }

  lemma RecreateInOrder(w: World, db: string)
    ensures InOrder(RecreateLog(w, db))
  {}

  lemma OrderedParts(a: seq<Event>, b: seq<Event>, between: nat)
    requires InOrder(a) && InOrder(b)
    requires (forall e :: e in a ==> Rank(e) < between) && (forall e :: e in b ==> Rank(e) >= between)
    ensures InOrder(a + b)
  {
    hide Rank;
    forall i, j | 0 <= i < j < |a + b| ensures Rank((a + b)[i]) < Rank((a + b)[j]) {
      assert i < |a| ==> a[i] in a;
      assert j >= |a| ==> b[j - |a|] in b;
    }
  }

  predicate IsPartStep(db: string, part: SessionPart, e: Event) {
    || e == PreparationStarted(db)
    || (&& part.prepared == Sessions.NoError
        && (e == SessionPrepared(db) || e == ScriptRan(db, part.outcome.Succeeded?) || e == SessionClosed(db)))
  }

  lemma PartTakes(db: string, part: SessionPart)
    ensures InOrder(PartLog(db, part)) && forall e :: e in PartLog(db, part) <==> IsPartStep(db, part, e)
  {}

  /** The steps of a run that gets as far as the databases. */
  lemma AcceptedTakes(w: World, config: Config, part: SessionPart)
    requires Accepted(w, config)
    ensures InOrder(RunLog(w, config, part))
    ensures forall e :: e in RunLog(w, config, part) <==>
              || e == Scanned || e == CompatAccepted(config.compat) || e in DatabaseLog(w, config)
              || (DatabaseResult(w, config) == Ok && IsPartStep(config.database, part, e))
  {
    hide PartLog, IsPartStep, DatabaseLog, DatabaseResult, Rank, InOrder;
    var first, middle, last := [Scanned, CompatAccepted(config.compat)], DatabaseLog(w, config), SessionLog(w, config, part);
    SessionLast(w, config, part);
    DatabaseInOrder(w, config);
    DatabaseTakes(w, config);
    PartTakes(config.database, part);
    RanksOf(config, part);
    forall e ensures e in RunLog(w, config, part) <==> e in first || e in middle || e in last {
      InParts(e, first + middle, last);
      InParts(e, first, middle);
    }
    OrderedParts(first, middle, 2);
    OrderedParts(first + middle, last, 11);
  }

  lemma RanksOf(config: Config, part: SessionPart)
    ensures InOrder([]) && InOrder([Scanned, CompatAccepted(config.compat)])
    ensures Rank(Scanned) < Rank(CompatAccepted(config.compat)) < 2
    ensures forall e :: IsPartStep(config.database, part, e) ==> Rank(e) >= 11
  {}

  /** The database steps alone decide what is due of them in the log of a run. */
  ghost predicate SameInMiddle(a: seq<Event>, b: seq<Event>) {
    forall e :: 2 <= Rank(e) <= 10 ==> (e in a <==> e in b)
  }

  lemma SameSteps(w: World, config: Config, a: seq<Event>, b: seq<Event>)
    requires SameInMiddle(a, b)
    ensures LookupStepsAreDue(w, config, true, a) ==> LookupStepsAreDue(w, config, true, b)
    ensures IsThere(config, a) <==> IsThere(config, b)
  {
    hide Mapped;
  }

  lemma SameChanges(w: World, config: Config, a: seq<Event>, b: seq<Event>)
    requires SameInMiddle(a, b)
    ensures ChangingStepsAreDue(w, config, a) ==> ChangingStepsAreDue(w, config, b)
  {}

  lemma SameResult(w: World, config: Config, a: seq<Event>, b: seq<Event>, r: Result)
    requires SameInMiddle(a, b)
    ensures DatabaseResultIsDue(w, config, a, r) ==> DatabaseResultIsDue(w, config, b, r)
  {
    hide IsThere;
    SameSteps(w, config, a, b);
  }

  /** A run takes exactly the steps that are due, in order, on its own databases, and
      reports what ended it. */
  lemma RunShows(w: World, config: Config, part: SessionPart)
    ensures var log := RunLog(w, config, part);
            && StepsAreDue(w, config, part, log) && ResultIsDue(w, config, part, log, RunResult(w, config, part))
            && InOrder(log) && forall e :: e in log ==> IsOfRun(e, config)
  {
    hide *;
    if Accepted(w, config) {
      AcceptedTakes(w, config, part);
      AcceptedSteps(w, config, part);
      AcceptedShows(w, config, part);
      DatabaseTakes(w, config);
      OfRun(config, part);
    } else {
      RefusedShows(w, config, part);
    }
  }

  lemma OfRun(config: Config, part: SessionPart)
    ensures IsOfRun(Scanned, config) && IsOfRun(CompatAccepted(config.compat), config)
    ensures forall e :: IsPartStep(config.database, part, e) ==> IsOfRun(e, config)
  {}

  lemma RefusedShows(w: World, config: Config, part: SessionPart)
    requires !Accepted(w, config)
    ensures var log := RunLog(w, config, part);
            && StepsAreDue(w, config, part, log) && ResultIsDue(w, config, part, log, RunResult(w, config, part))
            && InOrder(log) && (forall e :: e in log ==> IsOfRun(e, config)) && PreparationStarted(config.database) !in log
  {
    hide DatabaseLog, DatabaseResult, Mapped;
  }

  lemma DatabaseIsDue(w: World, config: Config)
    ensures var log, r := DatabaseLog(w, config), DatabaseResult(w, config);
            && LookupStepsAreDue(w, config, true, log) && ChangingStepsAreDue(w, config, log) && DatabaseResultIsDue(w, config, log, r)
            && (r == Ok <==> IsThere(config, log)) && r !in {ScanFailed, UnsupportedCompat, PrepareFailed} && !r.ScriptFailed?
  {
    hide OverwriteLog, EnsureLog, OverwriteResult, EnsureResult, LookupStepsAreDue, ChangingStepsAreDue, IsThere;
    if config.overwrite {
      OverwriteLooksUp(w, config);
      OverwriteChanges(w, config);
      OverwriteShows(w, config);
    } else {
      EnsureLooksUp(w, config);
      EnsureChanges(w, config);
      EnsureShows(w, config);
    }
  }

  lemma AcceptedSteps(w: World, config: Config, part: SessionPart)
    requires Accepted(w, config)
    ensures StepsAreDue(w, config, part, RunLog(w, config, part))
  {
    hide RunLog, DatabaseLog, DatabaseResult, LookupStepsAreDue, ChangingStepsAreDue, DatabaseResultIsDue, IsThere, InOrder;
    var log := RunLog(w, config, part);
    AcceptedTakes(w, config, part);
    DatabaseTakes(w, config);
    RanksOf(config, part);
    SameSteps(w, config, DatabaseLog(w, config), log);
    SameChanges(w, config, DatabaseLog(w, config), log);
    DatabaseIsDue(w, config);
  }

  lemma AcceptedShows(w: World, config: Config, part: SessionPart)
    requires Accepted(w, config)
    ensures ResultIsDue(w, config, part, RunLog(w, config, part), RunResult(w, config, part))
  {
    hide RunLog, DatabaseLog, DatabaseResult, LookupStepsAreDue, ChangingStepsAreDue, DatabaseResultIsDue, IsThere, InOrder;
    var log, r := RunLog(w, config, part), DatabaseResult(w, config);
    AcceptedTakes(w, config, part);
    DatabaseTakes(w, config);
    RanksOf(config, part);
    SameResult(w, config, DatabaseLog(w, config), log, r);
    DatabaseIsDue(w, config);
  }

  predicate Quiet(log: seq<Event>) {
    forall i :: 0 <= i < |log| ==> !log[i].Dropped? && !log[i].Created?
  }

  lemma QuietParts(w: World, config: Config, part: SessionPart)
    ensures Quiet([Closed(MaintenanceOf(config))] + SessionLog(w, config, part))
    ensures forall s :: Quiet(BeforeDrop(config, s))
  {
    hide DatabaseResult;
  }

  lemma DropAt(pre: seq<Event>, d: Event, created: seq<Event>, rest: seq<Event>, i: nat)
    requires Quiet(pre) && Quiet(rest) && d.Dropped? && |created| <= 1 && (|created| == 1 ==> created[0].Created?)
    requires var log := pre + [d] + created + rest; i < |log| && log[i].Dropped?
    ensures var log := pre + [d] + created + rest;
            && i == |pre| && log[..i] == pre && log[i] == d
            && forall k :: 0 <= k < |log| && log[k].Created? ==> k == i + 1 && |created| == 1 && log[k] == created[0]
  {}

  /** Outside such a run a database is created only where the lookup has just
      found none, and then with the server's defaults. */
  lemma CreatedOnlyWhereMissing(w: World, config: Config, part: SessionPart, i: nat)
    requires !WillDrop(w, config)
    requires i < |RunLog(w, config, part)| && RunLog(w, config, part)[i].Created?
    ensures var log := RunLog(w, config, part);
            i > 0 && log[i] == Created(config.database, None) && log[i - 1] == Found(config.database, false)
  {
    hide EqualFold, IsTemplateDatabase;
    SessionLast(w, config, part);
    CreatedIn(w, config);
    hide RunLog, DatabaseLog, DatabaseResult;
    var dbLog := DatabaseLog(w, config);
    assert RunLog(w, config, part)[i] == dbLog[i - 2];
  }

  lemma CreatedIn(w: World, config: Config)
    requires Accepted(w, config) && !WillDrop(w, config)
    ensures var log := DatabaseLog(w, config);
            forall i :: 0 <= i < |log| && log[i].Created? ==>
              i > 0 && log[i] == Created(config.database, None) && log[i - 1] == Found(config.database, false)
  {
    hide EqualFold, IsTemplateDatabase;
  }

  predicate OnTarget(e: Event, db: string) {
    match e
    case Found(d, _) => d == db
    case ApprovalGiven(d) => d == db
    case SettingsRead(d, _) => d == db
    case ConnectionsTerminated(d) => d == db
    case Dropped(d) => d == db
    case Created(d, _) => d == db
    case _ => false
  }

  /** A run opens the maintenance connection at most once; then it closes it
      before anything else happens, and in between it works on the target
      database alone. */
  lemma ConnectionIsClosed(w: World, config: Config) returns (before: seq<Event>, work: seq<Event>)
    ensures var log, m := DatabaseLog(w, config), MaintenanceOf(config);
            && (forall i :: 0 <= i < |before| ==> !before[i].Opened? && !before[i].Closed?)
            && (log == before || log == before + [Opened(m)] + work + [Closed(m)])
            && (forall i :: 0 <= i < |work| ==> OnTarget(work[i], config.database))
  {
    hide EqualFold, IsTemplateDatabase;
    var db := config.database;
    if config.overwrite {
      before := if ValidOverwriteTarget(w, db, MaintenanceOf(config)) then [TargetAccepted(db)] else [];
      work := CreateLog(w, db) + (if w.existence == Known(true) then RecreateLog(w, db) else []);
    } else {
      before := if w.probe.Answered? then [Probed(db)] else [];
      work := CreateLog(w, db);
    }
  }

  /** Without the overwrite flag nothing is dropped or terminated, and a target
      that answers is deployed to without any maintenance connection. */
  lemma PlainDeployIsHarmless(w: World, config: Config, part: SessionPart, i: nat)
    requires !config.overwrite && i < |RunLog(w, config, part)|
    ensures var e := RunLog(w, config, part)[i];
            && !e.Dropped? && !e.ConnectionsTerminated? && !e.ApprovalGiven?
            && (w.probe.Answered? ==> !e.Opened? && !e.Created?)
  {
    EnsureIsHarmless(w, config);
    hide EnsureLog, EnsureResult, OverwriteResult;
  }

  lemma EnsureIsHarmless(w: World, config: Config)
    ensures forall i :: 0 <= i < |EnsureLog(w, config)| ==>
              var e := EnsureLog(w, config)[i];
              && !e.Dropped? && !e.ConnectionsTerminated? && !e.ApprovalGiven?
              && (w.probe.Answered? ==> !e.Opened? && !e.Created?)
  {}
}
