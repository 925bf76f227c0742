/** Running deploy.sql: executeDeploySQL of internal/services/deployer.go on the
    connection of a prepared session. */
module Execute {
  import opened Text
  import opened Lexer
  import opened Split
  import opened Macros
  import opened Options
  import opened Positions
  import opened Statements
  import opened Server
  import Locks
  import Sessions
  import Words

  /** What the messages of a run do: number `i` meets `fates(i)`. */
  function After(lx: Lexis, s: Session, units: seq<Bytes>, fates: nat -> int, n: nat): Session
    requires n <= |units|
  {
    if n == 0 then s
    else RunMessage(After(lx, s, units, fates, n - 1), StatementsOf(lx, units[n - 1]), fates(n - 1)).session
  }

  /** Whether unit `i` runs without error after the units before it. */
  predicate Runs(lx: Lexis, s: Session, units: seq<Bytes>, fates: nat -> int, i: nat)
    requires i < |units|
  {
    RunMessage(After(lx, s, units, fates, i), StatementsOf(lx, units[i]), fates(i)).ok
  }

  /** The file deploy.sql, and how its execution ends. */
  datatype File = Unreadable | File(sql: string)
  datatype Outcome = ReadFailed | PreprocessFailed | ExecutionFailed(unit: Bytes, expanded: bool) | Succeeded

  /** The script, with the regular expression that finds its calls, the test of
      callback names and the query that generates the text of a call. */
  datatype Script = Script(file: File, find: Bytes -> seq<Match>, valid: MacroCall -> bool, generate: MacroCall -> Generated)

  class DeployResult {
    var filesLoaded: nat
    var testMacros: nat
    var executionUnits: nat
    var unitsCommitted: nat
    var executionMode: string

    constructor ()
      ensures filesLoaded == 0 && testMacros == 0 && executionUnits == 0 && unitsCommitted == 0 && executionMode == ""
    {
      filesLoaded, testMacros, executionUnits, unitsCommitted, executionMode := 0, 0, 0, 0, "";
    }
  }

  /** Of `units`, exactly the first `n` ran, and the next, if any, failed. */
  predicate Ran(lx: Lexis, s: Session, units: seq<Bytes>, fates: nat -> int, n: nat, session: Session) {
    && n <= |units| && (forall i :: 0 <= i < n ==> Runs(lx, s, units, fates, i))
    && if n < |units| then !Runs(lx, s, units, fates, n) && session == After(lx, s, units, fates, n + 1)
       else session == After(lx, s, units, fates, n)
  }

  /** Number of units sent when `n` ran: the one that fails is the last. */
  function Sent(units: seq<Bytes>, n: nat): (k: nat)
    requires n <= |units|
    ensures k <= |units|
  {
    if n < |units| then n + 1 else n
  }

  function UnitRequests(units: seq<Bytes>): seq<Sessions.Request> {
    seq(|units|, i requires 0 <= i < |units| => Sessions.Unit(units[i]))
  }

  /** Sending the first `k` units, as steps of the lock machine. */
  function UnitActions(lx: Lexis, s: Session, units: seq<Bytes>, fates: nat -> int, k: nat): seq<Locks.Action>
    requires k <= |units|
  {
    if k == 0 then []
    else
      UnitActions(lx, s, units, fates, k - 1)
      + [Locks.ExecUnit(Runs(lx, s, units, fates, k - 1), After(lx, s, units, fates, k).status)]
  }

  lemma OneMoreUnit(lx: Lexis, s: Session, units: seq<Bytes>, fates: nat -> int, k: nat, w: Locks.World, i: nat)
    requires k < |units|
    ensures Locks.RunBy(w, i, UnitActions(lx, s, units, fates, k + 1)) ==
            Locks.Apply(Locks.RunBy(w, i, UnitActions(lx, s, units, fates, k)), i,
                        Locks.ExecUnit(Runs(lx, s, units, fates, k), After(lx, s, units, fates, k + 1).status))
    ensures UnitRequests(units[..k + 1]) == UnitRequests(units[..k]) + [Sessions.Unit(units[k])]
  {
    hide Runs, After, Locks.RunBy, Locks.Apply;
    var last := Locks.ExecUnit(Runs(lx, s, units, fates, k), After(lx, s, units, fates, k + 1).status);
    Locks.RunByConcat(w, i, UnitActions(lx, s, units, fates, k), [last]);
    Locks.RunByOne(Locks.RunBy(w, i, UnitActions(lx, s, units, fates, k)), i, last);
  }

  /** The units are executed in order, up to the first that fails. */
  method RunUnits(lx: Lexis, conn: Sessions.Conn, units: seq<Bytes>, fates: nat -> int) returns (n: nat)
    requires conn.Mirrored(Locks.Executing) && conn.alive
    modifies conn
    ensures Ran(lx, old(conn.backend), units, fates, n, conn.backend)
    ensures conn.requests == old(conn.requests) + UnitRequests(units[..Sent(units, n)])
    ensures conn.world ==
            Locks.RunBy(old(conn.world), conn.id, UnitActions(lx, old(conn.backend), units, fates, Sent(units, n)))
    ensures conn.Mirrored(if n < |units| then Locks.RollingBack else Locks.Executing)
    ensures conn.alive && conn.holdsLock == old(conn.holdsLock)
  {
    hide StatementsOf, RunMessage, Locks.RunBy, Locks.Apply, UnitActions, UnitRequests;
    ghost var s, w, before := conn.backend, conn.world, conn.requests;
    NoUnits(lx, s, units, fates, w, conn.id, before);
    for i := 0 to |units|
      invariant forall k :: 0 <= k < i ==> Runs(lx, s, units, fates, k)
      invariant conn.requests == before + UnitRequests(units[..i]) && conn.backend == After(lx, s, units, fates, i)
      invariant conn.world == Locks.RunBy(w, conn.id, UnitActions(lx, s, units, fates, i))
      invariant conn.Mirrored(Locks.Executing) && conn.alive && conn.holdsLock == old(conn.holdsLock)
    {
      OneMoreUnit(lx, s, units, fates, i, w, conn.id);
      var ok := conn.Exec(lx, units[i], fates(i));
      if !ok {
        return i;
      }
    }
    n := |units|;
  }

  lemma NoUnits(lx: Lexis, s: Session, units: seq<Bytes>, fates: nat -> int, w: Locks.World, i: nat, before: seq<Sessions.Request>)
    ensures Locks.RunBy(w, i, UnitActions(lx, s, units, fates, 0)) == w && before + UnitRequests(units[..0]) == before
  {}

  predicate AllGood(script: Script, macros: seq<MacroCall>) {
    forall k :: 0 <= k < |macros| ==> Good(script.valid, script.generate, macros[k])
  }

  /** The script can be read, and every call in it expanded. */
  predicate Expands(script: Script, macros: seq<MacroCall>) {
    script.file.File? && AllGood(script, macros)
  }

  predicate FindsMatches(lx: Lexis, script: Script) {
    script.file.File? ==> AreMatches(MaskOf(lx, script.file.sql), script.find(MaskOf(lx, script.file.sql)))
  }

  /** `macros` are the calls found in the script. */
  predicate AreCalls(lx: Lexis, script: Script, macros: seq<MacroCall>)
    requires FindsMatches(lx, script)
  {
    if script.file.File? then AreCallsOf(lx, script.file.sql, script.find(MaskOf(lx, script.file.sql)), macros) else macros == []
  }

  /** The units to run: those of the script with its calls expanded, if it expands. */
  function UnitsToRun(lx: Lexis, script: Script, macros: seq<MacroCall>): seq<Bytes>
    requires FindsMatches(lx, script) && AreCalls(lx, script, macros)
  {
    if Expands(script, macros) then
      ScriptUnits(lx, Substitute(Encode(script.file.sql), macros, TextOf(script.generate), 0))
    else []
  }

  /** How the execution ends, when `n` of the units run: a failing unit is reported
      itself, with the note whether the script held calls. */
  predicate EndsAs(lx: Lexis, script: Script, macros: seq<MacroCall>, n: nat, outcome: Outcome)
    requires FindsMatches(lx, script) && AreCalls(lx, script, macros)
  {
    var units := UnitsToRun(lx, script, macros);
    match outcome
    case ReadFailed => script.file.Unreadable?
    case PreprocessFailed => script.file.File? && !AllGood(script, macros)
    case ExecutionFailed(unit, expanded) =>
      Expands(script, macros) && n < |units| && unit == units[n] && (expanded <==> macros != [])
    case Succeeded => Expands(script, macros) && n == |units|
  }

  /** The text of the last unit sent. */
  function LastUnitSent(requests: seq<Sessions.Request>): Option<Bytes> {
    if requests == [] then None
    else
      var last := requests[|requests| - 1];
      if last.Unit? then Some(last.text) else LastUnitSent(requests[..|requests| - 1])
  }

  lemma LastUnitIsLast(before: seq<Sessions.Request>, units: seq<Bytes>)
    ensures units != [] ==> LastUnitSent(before + UnitRequests(units)) == Some(units[|units| - 1])
  {
    if units != [] {
      var requests := before + UnitRequests(units);
      assert requests[|requests| - 1] == Sessions.Unit(units[|units| - 1]);
    }
  }

  /** The counts and the mode reported for a run. */
  predicate Reports(result: DeployResult, units: seq<Bytes>, n: nat, mode: string)
    reads result
  {
    && result.executionUnits == |units| && result.unitsCommitted == n
    && result.executionMode == if n == |units| then mode else if n == 0 then "atomic" else "psql"
  }

  /** Reads, preprocesses and executes the script; the result counts the units
      that ran.  The calls it expands are those found in the script. */
  method ExecuteDeploySQL(lx: Lexis, conn: Sessions.Conn, lastResult: DeployResult, script: Script, fates: nat -> int)
    returns (macroCount: nat, outcome: Outcome, ghost macros: seq<MacroCall>, ghost n: nat)
    requires conn.Mirrored(Locks.Executing) && conn.alive && FindsMatches(lx, script)
    modifies conn, lastResult
    ensures AreCalls(lx, script, macros) && EndsAs(lx, script, macros, n, outcome)
    ensures outcome.ReadFailed? <==> script.file.Unreadable?
    ensures outcome.PreprocessFailed? <==> script.file.File? && !AllGood(script, macros)
    ensures outcome.ExecutionFailed? <==> Expands(script, macros) && n < |UnitsToRun(lx, script, macros)|
    ensures outcome.ExecutionFailed? ==>
              && outcome.unit == UnitsToRun(lx, script, macros)[n] && LastUnitSent(conn.requests) == Some(outcome.unit)
              && (outcome.expanded <==> macroCount > 0)
              && lastResult.unitsCommitted == n && lastResult.executionMode == (if n == 0 then "atomic" else "psql")
    ensures outcome.Succeeded? ==>
              lastResult.unitsCommitted == lastResult.executionUnits && lastResult.executionMode == old(lastResult.executionMode)
    ensures macroCount == if Expands(script, macros) then |macros| else 0
    ensures Expands(script, macros) ==>
              lastResult.executionUnits == |UnitsToRun(lx, script, macros)| && lastResult.unitsCommitted == n
    ensures var units := UnitsToRun(lx, script, macros);
            && Ran(lx, old(conn.backend), units, fates, n, conn.backend)
            && conn.requests == old(conn.requests) + UnitRequests(units[..Sent(units, n)])
            && conn.world == Locks.RunBy(old(conn.world), conn.id, UnitActions(lx, old(conn.backend), units, fates, Sent(units, n)))
            && conn.Mirrored(if n < |units| then Locks.RollingBack else Locks.Executing)
            && conn.alive && conn.holdsLock == old(conn.holdsLock)
            && (Expands(script, macros) ==> Reports(lastResult, units, n, old(lastResult.executionMode)))
    ensures !Expands(script, macros) ==>
              && lastResult.executionUnits == old(lastResult.executionUnits)
              && lastResult.unitsCommitted == old(lastResult.unitsCommitted)
              && lastResult.executionMode == old(lastResult.executionMode)
    ensures lastResult.filesLoaded == old(lastResult.filesLoaded) && lastResult.testMacros == old(lastResult.testMacros)
  {
    hide ScriptUnits, Encode, AreMatches, Substitute, Good, IsCallOf, Run, Ran, Runs, After, Locks.RunBy, UnitActions, UnitRequests, MaskOf, Server.StatementsOf;
    NoUnits(lx, conn.backend, [], fates, conn.world, conn.id, conn.requests);
    NothingRuns(lx, conn.backend, fates);
    macros, n := [], 0;
    if script.file.Unreadable? {
      return 0, ReadFailed, [], 0;
    }
    var result, calls := Process(lx, script.file.sql, script.find, script.valid, script.generate);
    macros := calls;
    if result.Refused? {
      return 0, PreprocessFailed, macros, 0;
    }
    macroCount := result.macroCount;
    var units := SplitExecutionUnits(lx, result.sql);
    lastResult.executionUnits := |units|;
    var committed := RunUnits(lx, conn, units, fates);
    n := committed;
    lastResult.unitsCommitted := committed;
    if committed < |units| {
      LastUnitIsLast(old(conn.requests), units[..committed + 1]);
      lastResult.executionMode := if committed == 0 then "atomic" else "psql";
      return macroCount, ExecutionFailed(units[committed], macroCount > 0), macros, n;
    }
    outcome := Succeeded;
  }

  /** The unit reported for a failure, decoded, is a stretch of the script that was split,
      behind blank padding, and each of its places resolves to the stretch's place there:
      `sql` is the text of that script, which without calls is the text of the file. */
  lemma FailedUnitResolves(lx: Lexis, script: Script, macros: seq<MacroCall>, n: nat, outcome: Outcome, sql: string)
    returns (k: nat, len: nat, w: nat)
    requires FindsMatches(lx, script) && AreCalls(lx, script, macros)
    requires EndsAs(lx, script, macros, n, outcome) && outcome.ExecutionFailed?
    requires if outcome.expanded then
               Substitute(Encode(script.file.sql), macros, TextOf(script.generate), 0) == Encode(sql)
             else sql == script.file.sql
    ensures var text := Decode(outcome.unit);
            && Encode(text) == outcome.unit
            && k + len <= |sql| && |text| == w + len && text[w..] == sql[k..k + len] && Words.Blank(text[..w])
            && (n == 0 ==> k == 0 && w == 0)
            && forall q :: 0 <= q <= len ==> SamePlace(text, w, sql, k, q)
  {
    hide Encode, Decode, ScriptUnits, ExecutionUnits, Words.Blank, SamePlace, AreMatches, AllGood, Substitute;
    WithoutCalls(Encode(script.file.sql), TextOf(script.generate));
    UnitsOfText(lx, sql);
    var text;
    text, k, len, w := ErrorPositionsSurvive(lx, sql, n);
    DecodeEncode(text);
  }

  lemma WithoutCalls(sql: Bytes, gen: MacroCall -> Bytes)
    ensures Substitute(sql, [], gen, 0) == sql
  {}

  lemma NothingRuns(lx: Lexis, s: Session, fates: nat -> int)
    ensures Ran(lx, s, [], fates, 0, s)
  {}

  // ---- what is durable after a failure ----

  /** What the statements of the first `n` units leave open. */
  function TrackUnits(lx: Lexis, units: seq<Bytes>, n: nat): Track
    requires n <= |units|
  {
    if n == 0 then Track(false, false)
    else TrackMessage(TrackUnits(lx, units, n - 1), StatementsOf(lx, units[n - 1]))
  }

  /** A connection as a deployment gets it: no transaction, nothing pending. */
  predicate Fresh(s: Session) { s.status == Idle && s.pending == [] }

  /** While units run, the session is as their statements say. */
  lemma {:induction false} SessionIsTracked(lx: Lexis, s: Session, units: seq<Bytes>, fates: nat -> int, n: nat)
    requires n <= |units| && Fresh(s) && forall i :: 0 <= i < n ==> Runs(lx, s, units, fates, i)
    ensures Tracks(TrackUnits(lx, units, n), After(lx, s, units, fates, n))
  {
    hide StatementsOf, RunMessage, TrackMessage;
    if n > 0 {
      SessionIsTracked(lx, s, units, fates, n - 1);
      assert Runs(lx, s, units, fates, n - 1);
      TrackFollows(TrackUnits(lx, units, n - 1), After(lx, s, units, fates, n - 1), StatementsOf(lx, units[n - 1]), fates(n - 1));
    }
  }

  /** Nothing in unit `n` before its last statement makes work durable. */
  predicate KeepsNothingEarly(lx: Lexis, units: seq<Bytes>, n: nat)
    requires n < |units|
  {
    KeepsNothing(TrackUnits(lx, units, n), StatementsOf(lx, units[n]))
  }

  /** When unit `n` fails, what is durable is what the units before it made
      durable; in atomic mode that is nothing. */
  lemma FailureKeepsEarlierUnits(lx: Lexis, units: seq<Bytes>, s: Session, fates: nat -> int, n: nat)
    requires n < |units| && Fresh(s) && Ran(lx, s, units, fates, n, After(lx, s, units, fates, n + 1))
    requires KeepsNothingEarly(lx, units, n)
    ensures After(lx, s, units, fates, n + 1).durable == After(lx, s, units, fates, n).durable
    ensures n == 0 ==> After(lx, s, units, fates, n + 1).durable == s.durable
  {
    hide StatementsOf, RunMessage, KeepsNothing, TrackUnits, Tracks;
    SessionIsTracked(lx, s, units, fates, n);
    var before := After(lx, s, units, fates, n);
    assert After(lx, s, units, fates, n + 1) == RunMessage(before, StatementsOf(lx, units[n]), fates(n)).session;
    assert !Runs(lx, s, units, fates, n);
    KeepingNothingIsAtomic(TrackUnits(lx, units, n), before, StatementsOf(lx, units[n]), fates(n));
  }

  /** So it is for every UTF-8 script that splitter and server cut alike and that has no
      PREPARE TRANSACTION in the unit. */
  lemma ScriptKeepsNothingEarly(lx: Lexis, sql: string, n: nat)
    requires ReadAlike(lx, Encode(sql)) && n < |ScriptUnits(lx, Encode(sql))|
    requires var stmts := StatementsOf(lx, ScriptUnits(lx, Encode(sql))[n]); forall j :: 0 <= j < |stmts| ==> stmts[j].kind != Prepare
    ensures KeepsNothingEarly(lx, ScriptUnits(lx, Encode(sql)), n)
  {
    hide StatementsOf, ExecutionUnits, ScriptUnits, ReadAlike, KeepsNothing, Encode;
    UnitsOfText(lx, sql);
    UnitKeepsNothing(lx, sql, n, TrackUnits(lx, ExecutionUnits(lx, sql), n));
  }

  /** The session never keeps work pending outside an explicit block. */
  lemma {:induction false} RunsSettle(lx: Lexis, s: Session, units: seq<Bytes>, fates: nat -> int, n: nat)
    requires n <= |units| && Settled(s)
    ensures Settled(After(lx, s, units, fates, n))
  {
    hide StatementsOf, RunMessage;
    if n > 0 {
      RunsSettle(lx, s, units, fates, n - 1);
      MessagesSettle(After(lx, s, units, fates, n - 1), StatementsOf(lx, units[n - 1]), fates(n - 1));
    }
  }

  /** Everything the session has done and not rolled back. */
  function Done(s: Session): seq<Bytes> { s.durable + s.pending }

  /** Once the session is closed, the units counted as committed have kept their
      effects exactly when the statements of these units leave no block with work in
      it open: after a failure, and also when every unit ran, because Close rolls an
      open block back. */
  lemma CountIsOfDurableUnits(lx: Lexis, units: seq<Bytes>, s: Session, fates: nat -> int, n: nat, session: Session)
    requires Fresh(s) && Ran(lx, s, units, fates, n, session)
    requires n < |units| ==> KeepsNothingEarly(lx, units, n)
    ensures Closed(session).durable == Done(After(lx, s, units, fates, n)) <==> !TrackUnits(lx, units, n).work
  {
    hide StatementsOf, RunMessage, KeepsNothingEarly, TrackUnits;
    var before := After(lx, s, units, fates, n);
    SessionIsTracked(lx, s, units, fates, n);
    assert |Done(before)| == |before.durable| + |before.pending|;
    assert before.pending == [] ==> before.durable + before.pending == before.durable;
    if n < |units| {
      FailureKeepsEarlierUnits(lx, units, s, fates, n);
    }
  }

  lemma OneStatement(s: Session, stmt: Statement, fate: int)
    ensures RunMessage(s, [stmt], fate) ==
            if fate == 0 || Refuses(s, stmt) then Reply(Failure(s, stmt), false)
            else
              var t := Effect(s, stmt);
              Reply(if t.status == Idle then Session(t.durable + t.pending, [], Idle) else t, true)
  {
    assert [stmt][1..] == [];
  }

  /** The first statement of unit `k` fails, and nothing else does. */
  function FailsAt(k: nat): nat -> int { (i: nat) => if i == k then 0 else -1 }

  function NeverFails(): nat -> int { (i: nat) => -1 }

  /** Statement `k` of every unit fails. */
  function AlwaysAt(k: int): nat -> int { (i: nat) => k }

  /** A tail that opens a block and works in it leaves nothing of those units, and
      they are counted: whether its last unit fails or not. */
  lemma OpenBlockIsLost(lx: Lexis, units: seq<Bytes>, end: Statement, begin: Statement, work: Statement, last: Statement, fails: bool)
    requires |units| == 4
    requires StatementsOf(lx, units[0]) == [end] && end.kind == Commit(false)
    requires StatementsOf(lx, units[1]) == [begin] && begin.kind.Begin?
    requires StatementsOf(lx, units[2]) == [work] && work.kind.Work?
    requires StatementsOf(lx, units[3]) == [last] && last.kind.Work?
    ensures var s, fates := Session([], [], Idle), FailsAt(3);
            fails ==> Ran(lx, s, units, fates, 3, Session([], [], Aborted)) && Done(After(lx, s, units, fates, 3)) == [work.text]
    ensures var s, fates := Session([], [], Idle), NeverFails();
            !fails ==> Ran(lx, s, units, fates, 4, Session([], [work.text, last.text], InBlock))
  {
    hide StatementsOf, RunMessage, After, Runs;
    var fates, s3 := if fails then FailsAt(3) else NeverFails(), Session([], [work.text], InBlock);
    BlockOpened(lx, units, end, begin, work, fates);
    LastOfFour(lx, Session([], [], Idle), units, fates, s3, last);
    assert [work.text] + [last.text] == [work.text, last.text];
  }

  lemma BlockOpened(lx: Lexis, units: seq<Bytes>, end: Statement, begin: Statement, work: Statement, fates: nat -> int)
    requires |units| == 4 && fates(0) != 0 && fates(1) != 0 && fates(2) != 0
    requires StatementsOf(lx, units[0]) == [end] && end.kind == Commit(false)
    requires StatementsOf(lx, units[1]) == [begin] && begin.kind.Begin?
    requires StatementsOf(lx, units[2]) == [work] && work.kind.Work?
    ensures var s := Session([], [], Idle);
            && (forall i :: 0 <= i < 3 ==> Runs(lx, s, units, fates, i))
            && After(lx, s, units, fates, 3) == Session([], [work.text], InBlock)
  {
    hide StatementsOf, RunMessage;
    var s := Session([], [], Idle);
    OneStatement(s, end, fates(0));
    OneStatement(s, begin, fates(1));
    OneStatement(Session([], [], InBlock), work, fates(2));
    assert After(lx, s, units, fates, 0) == s;
    assert After(lx, s, units, fates, 1) == s;
    assert After(lx, s, units, fates, 2) == Session([], [], InBlock);
  }

  lemma LastOfFour(lx: Lexis, s: Session, units: seq<Bytes>, fates: nat -> int, before: Session, last: Statement)
    requires |units| == 4 && After(lx, s, units, fates, 3) == before && before.status == InBlock
    requires StatementsOf(lx, units[3]) == [last] && last.kind.Work?
    ensures Runs(lx, s, units, fates, 3) <==> fates(3) != 0
    ensures After(lx, s, units, fates, 4) ==
            if fates(3) == 0 then Session(before.durable, [], Aborted) else before.(pending := before.pending + [last.text])
  {
    hide StatementsOf, RunMessage;
    OneStatement(before, last, fates(3));
  }
}
