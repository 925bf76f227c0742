/** The abstract database server: what a simple-query message does to one session
    and to the durable state, statement by statement, as the server reads them. */
module Server {
  import opened Text
  import opened Lexer
  import opened Words
  import opened Split
  import opened OnePass
  import opened Statements
  import SplitLaws

  datatype Statement = Statement(kind: TxKind, text: Bytes)

  function StatementsFrom(src: Bytes, m: Bytes, ps: seq<Piece>): seq<Statement> {
    if ps == [] then []
    else
      (if Within(m, ps[0]) && ps[0].end <= |src| && !IsEmptyStatement(m[ps[0].start..ps[0].end])
       then [Statement(KindOf(m[ps[0].start..ps[0].end]), src[ps[0].start..ps[0].end])] else [])
      + StatementsFrom(src, m, ps[1..])
  }

  /** The statements of a message. */
  function StatementsOf(lx: Lexis, message: Bytes): seq<Statement> {
    var sql := Decode(message);
    var m := Encode(Run(Mask, lx, sql));
    StatementsFrom(Encode(sql), m, ServerPieces(m, 0))
  }

  /** Transaction status of a session between messages: 'I', 'T' and 'E'. */
  datatype TxStatus = Idle | InBlock | Aborted

  /** What is durable, what the session has done since, and its status. */
  datatype Session = Session(durable: seq<Bytes>, pending: seq<Bytes>, status: TxStatus)

  predicate EndsBlock(stmt: Statement) { IsEnd(stmt.kind) }

  datatype Reply = Reply(session: Session, ok: bool)

  /** One statement that does not fail. */
  function Effect(s: Session, stmt: Statement): Session {
    match stmt.kind
    case Work => s.(pending := s.pending + [stmt.text])
    case Begin => s.(status := InBlock)
    case Commit(chain) =>
      Session(if s.status == Aborted then s.durable else s.durable + s.pending, [], if chain then InBlock else Idle)
    case Rollback(chain) => Session(s.durable, [], if chain then InBlock else Idle)
    case Prepare => Session(if s.status == Aborted then s.durable else s.durable + s.pending, [], Idle)
  }

  /** A failure discards what is pending; an explicit block is then aborted,
      unless the statement was to end it. */
  function Failure(s: Session, stmt: Statement): Session {
    Session(s.durable, [], if s.status == Idle || EndsBlock(stmt) then Idle else Aborted)
  }

  /** An aborted session refuses every statement that does not end its transaction. */
  predicate Refuses(s: Session, stmt: Statement) {
    s.status == Aborted && (stmt.kind.Work? || stmt.kind.Begin?)
  }

  /** A simple-query message: its statements run in order, until one fails, which
      statement number `fate` does; without an explicit block the message is one
      transaction, which its end commits. */
  function RunMessage(s: Session, stmts: seq<Statement>, fate: int): Reply
    decreases |stmts|
  {
    if stmts == [] then
      Reply(if s.status == Idle then Session(s.durable + s.pending, [], Idle) else s, true)
    else if fate == 0 || Refuses(s, stmts[0]) then Reply(Failure(s, stmts[0]), false)
    else RunMessage(Effect(s, stmts[0]), stmts[1..], fate - 1)
  }

  /** A session with nothing pending, or in a block of its own. */
  predicate Settled(s: Session) {
    (s.status == Idle || s.status == Aborted) ==> s.pending == []
  }

  lemma {:induction false} MessagesSettle(s: Session, stmts: seq<Statement>, fate: int)
    requires s.status == Aborted ==> s.pending == []
    ensures Settled(RunMessage(s, stmts, fate).session)
    decreases |stmts|
  {
    if stmts != [] && fate != 0 && !Refuses(s, stmts[0]) {
      MessagesSettle(Effect(s, stmts[0]), stmts[1..], fate - 1);
    }
  }

  /** A message in which nothing but the last statement ends a transaction is
      atomic: when it fails, what was durable is exactly what was durable before. */
  lemma {:induction false} FailedMessageIsAtomic(s: Session, stmts: seq<Statement>, fate: int)
    requires forall j :: 0 <= j < |stmts| - 1 ==> !EndsBlock(stmts[j])
    requires !RunMessage(s, stmts, fate).ok
    ensures RunMessage(s, stmts, fate).session.durable == s.durable
    decreases |stmts|
  {
    assert |stmts| == 1 ==> stmts[1..] == [];
    if fate != 0 && !Refuses(s, stmts[0]) && |stmts| > 1 {
      FailedMessageIsAtomic(Effect(s, stmts[0]), stmts[1..], fate - 1);
    }
  }

  // ---- units are such messages ----

  lemma StatementsStep(src: Bytes, m: Bytes, p: Piece, rest: seq<Piece>)
    requires |src| == |m| && Within(m, p)
    ensures StatementsFrom(src, m, [p] + rest) ==
            (if IsEmptyStatement(m[p.start..p.end]) then [] else [Statement(KindOf(m[p.start..p.end]), src[p.start..p.end])])
            + StatementsFrom(src, m, rest)
  {
    hide KindOf, IsEmptyStatement;
    assert ([p] + rest)[1..] == rest;
  }

  /** Before its last statement a message ends a transaction at most by PREPARE
      TRANSACTION. */
  predicate EndsOnlyLast(stmts: seq<Statement>) {
    forall j :: 0 <= j < |stmts| - 1 ==> EndsBlock(stmts[j]) ==> stmts[j].kind.Prepare?
  }

  lemma EndsOnlyLastCons(stmt: Statement, stmts: seq<Statement>)
    requires EndsOnlyLast(stmts) && (stmts != [] && EndsBlock(stmt) ==> stmt.kind.Prepare?)
    ensures EndsOnlyLast([stmt] + stmts)
  {
    forall j | 0 <= j < |stmts| && EndsBlock(([stmt] + stmts)[j]) ensures ([stmt] + stmts)[j].kind.Prepare? {
      assert j > 0 ==> ([stmt] + stmts)[j] == stmts[j - 1];
    }
  }

  /** If nothing but layout follows the first terminator, only the last statement
      can end a transaction, PREPARE TRANSACTION apart. */
  lemma {:induction false} OnlyLastEnds(src: Bytes, m: Bytes, at: nat)
    requires at <= |m| == |src| && (HeadEnd(m, at) == 0 || Blank(m[HeadEnd(m, at)..]))
    ensures EndsOnlyLast(StatementsFrom(src, m, PiecesAt(m, at)))
    decreases |m| - at
  {
    hide StatementEnd, HeadEnd, PiecesAt, IsTransactionTerminator, Blank, StatementsFrom, KindOf, EndsOnlyLast, IsEmptyStatement, Readable;
    var e := StatementEnd(m, at);
    PiecesStep(m, at);
    HeadEndStep(m, at);
    NoStatements(src, m);
    FewStatements();
    var b := if e > 0 then e else |m|;
    if at < |m| {
      var stmt := Statement(KindOf(m[at..b]), src[at..b]);
      var rest := if e > 0 then PiecesAt(m, e) else [];
      StatementsStep(src, m, Piece(at, b), rest);
      Alone(Piece(at, b), stmt);
      SplitterAgrees(m[at..b]);
      if e > 0 && IsTransactionTerminator(m[at..e]) {
        BlankHasNoStatements(src, m, e);
      } else if e > 0 {
        OnlyLastEnds(src, m, e);
      }
      EndsOnlyLastCons(stmt, StatementsFrom(src, m, rest));
      assert [] + StatementsFrom(src, m, rest) == StatementsFrom(src, m, rest);
    }
  }

  lemma Alone(p: Piece, stmt: Statement)
    ensures [p] + [] == [p] && [stmt] + [] == [stmt]
  {}

  /** White space is no statement. */
  lemma BlankIsEmpty(stmt: Bytes)
    requires Blank(stmt)
    ensures IsEmptyStatement(stmt)
  {
    assert AllSpace(stmt) && Bare(stmt) == stmt && stmt + "" == stmt;
    TokensAfterSpace(stmt, "", 0);
  }

  lemma FewStatements()
    ensures EndsOnlyLast([])
  {}

  lemma NoStatements(src: Bytes, m: Bytes)
    ensures StatementsFrom(src, m, []) == []
  {}

  lemma BlankHasNoStatements(src: Bytes, m: Bytes, at: nat)
    requires at <= |m| == |src| && Blank(m[at..])
    ensures StatementsFrom(src, m, PiecesAt(m, at)) == []
  {
    hide StatementEnd, PiecesAt, Blank, StatementsFrom, KindOf, IsEmptyStatement;
    PiecesStep(m, at);
    NoStatements(src, m);
    BlankHasNoEnd(m, at);
    BlankIsEmpty(m[at..]);
    if at < |m| {
      StatementsStep(src, m, Piece(at, |m|), []);
      assert [Piece(at, |m|)] + [] == [Piece(at, |m|)] && m[at..|m|] == m[at..];
    }
  }

  lemma BlankHasNoEnd(m: Bytes, at: nat)
    requires at <= |m| && Blank(m[at..])
    ensures StatementEnd(m, at) == 0
  {
    hide FindEnd, Blank;
    if StatementEnd(m, at) > 0 {
      SplitLaws.SemicolonAt(m, at);
      SemicolonNotBlank(m, at, StatementEnd(m, at) - 1);
    }
  }

  lemma SemicolonNotBlank(m: Bytes, at: nat, i: nat)
    requires at <= i < |m| && m[i] == ';'
    ensures !Blank(m[at..])
  {
    assert m[at..][i - at] == ';';
  }

  /** Where splitter and server cut alike, the server's statements are the pieces. */
  lemma StatementsReadAlike(lx: Lexis, message: Bytes)
    requires ReadAlike(lx, message)
    ensures var text := Decode(message);
            var m := Encode(Run(Mask, lx, text));
            StatementsOf(lx, message) == StatementsFrom(Encode(text), m, PiecesAt(m, 0))
  {
    hide Encode, Decode, Run, Alike, Ends, ServerEnds, StatementsFrom;
    CutsAgreeExactly(Encode(Run(Mask, lx, Decode(message))), 0, 0, 0, false);
  }

  /** In every unit of a script that splitter and server cut alike nothing but the
      last statement ends a transaction, PREPARE TRANSACTION apart. */
  lemma UnitEndsOnlyAtItsEnd(lx: Lexis, sql: string, u: nat)
    requires ReadAlike(lx, Encode(sql)) && u < |ExecutionUnits(lx, sql)|
    ensures EndsOnlyLast(StatementsOf(lx, ExecutionUnits(lx, sql)[u]))
  {
    hide Encode, Decode, Run, HeadEnd, TailUnits, Blank, StatementsFrom, PiecesAt, ReadAlike, EndsOnlyLast, ServerPieces;
    SplitLaws.SplittingIsFixedPoint(lx, sql, u);
    UnitReadAlike(lx, sql, u);
    var unit := ExecutionUnits(lx, sql)[u];
    var text := Decode(unit);
    var src, m := Encode(text), Encode(Run(Mask, lx, text));
    StatementsReadAlike(lx, unit);
    SplitLaws.MaskLength(lx, text);
    if HeadEnd(m, 0) != 0 && !Blank(m[HeadEnd(m, 0)..]) {
      NotBlankHasUnits(src, m, HeadEnd(m, 0));
    }
    OnlyLastEnds(src, m, 0);
  }

  lemma NotBlankHasUnits(src: Bytes, m: Bytes, at: nat)
    requires at <= |m| == |src| && !Blank(m[at..])
    ensures TailUnits(src, m, at) != []
  {
    hide StatementEnd, Blank, Pad;
  }

  // ---- what is pending, read off the statements ----

  /** Whether an explicit block is open, and whether there is work to lose. */
  datatype Track = Track(block: bool, work: bool)

  function TrackStatement(t: Track, stmt: Statement): Track {
    match stmt.kind
    case Work => t.(work := true)
    case Begin => t.(block := true)
    case Commit(chain) => Track(chain, false)
    case Rollback(chain) => Track(chain, false)
    case Prepare => Track(false, false)
  }

  function TrackStatements(t: Track, stmts: seq<Statement>): Track
    decreases |stmts|
  {
    if stmts == [] then t else TrackStatements(TrackStatement(t, stmts[0]), stmts[1..])
  }

  /** After a whole message: outside a block its end commits. */
  function TrackMessage(t: Track, stmts: seq<Statement>): Track {
    var r := TrackStatements(t, stmts);
    if r.block then r else Track(false, false)
  }

  predicate Tracks(t: Track, s: Session) {
    s.status != Aborted && (t.block <==> s.status == InBlock) && (t.work <==> s.pending != [])
  }

  /** A message that runs leaves the session as its statements say. */
  lemma {:induction false} TrackFollows(t: Track, s: Session, stmts: seq<Statement>, fate: int)
    requires Tracks(t, s) && RunMessage(s, stmts, fate).ok
    ensures Tracks(TrackMessage(t, stmts), RunMessage(s, stmts, fate).session)
    decreases |stmts|
  {
    if stmts != [] {
      assert s.pending + [stmts[0].text] != [];
      TrackFollows(TrackStatement(t, stmts[0]), Effect(s, stmts[0]), stmts[1..], fate - 1);
    }
  }

  /** What the ROLLBACK leaves that is sent from a session that is not idle before
      the connection is given back. */
  function Closed(s: Session): Session {
    if s.status == Idle then s else Session(s.durable, [], Idle)
  }

  // ---- failing units ----

  predicate Keeps(stmt: Statement) { stmt.kind.Commit? || stmt.kind.Prepare? }

  /** Before its last statement, no COMMIT and no PREPARE TRANSACTION meets work to keep. */
  predicate KeepsNothing(t: Track, stmts: seq<Statement>)
    decreases |stmts|
  {
    |stmts| > 1 ==> !(Keeps(stmts[0]) && t.work) && KeepsNothing(TrackStatement(t, stmts[0]), stmts[1..])
  }

  lemma {:induction false} KeepingNothingIsAtomic(t: Track, s: Session, stmts: seq<Statement>, fate: int)
    requires Tracks(t, s) && KeepsNothing(t, stmts) && !RunMessage(s, stmts, fate).ok
    ensures RunMessage(s, stmts, fate).session.durable == s.durable
    decreases |stmts|
  {
    assert |stmts| == 1 ==> stmts[1..] == [];
    if fate != 0 && |stmts| > 1 {
      assert s.pending + [stmts[0].text] != [];
      assert s.pending == [] ==> s.durable + s.pending == s.durable;
      KeepingNothingIsAtomic(TrackStatement(t, stmts[0]), Effect(s, stmts[0]), stmts[1..], fate - 1);
    }
  }

  /** Otherwise a failure right behind such a statement leaves what it kept. */
  lemma {:induction false} KeptWorkStays(t: Track, s: Session, stmts: seq<Statement>) returns (fate: nat)
    requires Tracks(t, s) && !KeepsNothing(t, stmts)
    ensures !RunMessage(s, stmts, fate).ok && |RunMessage(s, stmts, fate).session.durable| > |s.durable|
    decreases |stmts|
  {
    var s1 := Effect(s, stmts[0]);
    assert |s.durable| <= |s1.durable|;
    if Keeps(stmts[0]) && t.work {
      fate := 1;
      assert RunMessage(s1, stmts[1..], 0) == Reply(Failure(s1, stmts[1]), false);
    } else {
      assert s.pending + [stmts[0].text] != [];
      var fate' := KeptWorkStays(TrackStatement(t, stmts[0]), s1, stmts[1..]);
      fate := fate' + 1;
    }
  }

  /** A message leaves the durable state as it was, wherever it fails, exactly when
      no COMMIT or PREPARE TRANSACTION before its last statement meets work to keep. */
  lemma AtomicExactly(t: Track, s: Session, stmts: seq<Statement>)
    requires Tracks(t, s)
    ensures (forall fate: int ::
               !RunMessage(s, stmts, fate).ok ==> RunMessage(s, stmts, fate).session.durable == s.durable)
            <==> KeepsNothing(t, stmts)
  {
    if KeepsNothing(t, stmts) {
      forall fate: int | !RunMessage(s, stmts, fate).ok
        ensures RunMessage(s, stmts, fate).session.durable == s.durable
      {
        KeepingNothingIsAtomic(t, s, stmts, fate);
      }
    } else {
      var fate := KeptWorkStays(t, s, stmts);
    }
  }

  lemma {:induction false} WithoutPrepareKeepsNothing(t: Track, stmts: seq<Statement>)
    requires EndsOnlyLast(stmts) && forall j :: 0 <= j < |stmts| ==> stmts[j].kind != Prepare
    ensures KeepsNothing(t, stmts)
    decreases |stmts|
  {
    if |stmts| > 1 {
      assert forall j :: 0 <= j < |stmts| - 1 ==> stmts[1..][j] == stmts[j + 1];
      WithoutPrepareKeepsNothing(TrackStatement(t, stmts[0]), stmts[1..]);
    }
  }

  /** Where splitter and server cut a script alike, a unit without PREPARE
      TRANSACTION meets the condition, whatever is open when it starts. */
  lemma UnitKeepsNothing(lx: Lexis, sql: string, u: nat, t: Track)
    requires ReadAlike(lx, Encode(sql)) && u < |ExecutionUnits(lx, sql)|
    requires var stmts := StatementsOf(lx, ExecutionUnits(lx, sql)[u]); forall j :: 0 <= j < |stmts| ==> stmts[j].kind != Prepare
    ensures KeepsNothing(t, StatementsOf(lx, ExecutionUnits(lx, sql)[u]))
  {
    hide StatementsOf, ExecutionUnits, EndsOnlyLast, ReadAlike, KeepsNothing, Encode;
    UnitEndsOnlyAtItsEnd(lx, sql, u);
    WithoutPrepareKeepsNothing(t, StatementsOf(lx, ExecutionUnits(lx, sql)[u]));
  }

  /** So a failing unit, the head or any of the tail, leaves the durable state as it
      was: wherever it fails, whatever the units before it have left open. */
  lemma FailingUnitIsAtomic(lx: Lexis, sql: string, u: nat, t: Track, s: Session, fate: int)
    requires ReadAlike(lx, Encode(sql)) && u < |ExecutionUnits(lx, sql)| && Tracks(t, s)
    requires var stmts := StatementsOf(lx, ExecutionUnits(lx, sql)[u]); forall j :: 0 <= j < |stmts| ==> stmts[j].kind != Prepare
    requires !RunMessage(s, StatementsOf(lx, ExecutionUnits(lx, sql)[u]), fate).ok
    ensures RunMessage(s, StatementsOf(lx, ExecutionUnits(lx, sql)[u]), fate).session.durable == s.durable
  {
    hide StatementsOf, RunMessage, ExecutionUnits, ReadAlike, KeepsNothing, Encode, Tracks;
    UnitKeepsNothing(lx, sql, u, t);
    KeepingNothingIsAtomic(t, s, StatementsOf(lx, ExecutionUnits(lx, sql)[u]), fate);
  }
}
