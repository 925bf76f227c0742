/** How the server itself reads a message: its tokens, where its statements end,
    and which of them control the transaction.  Nothing here is shared with the
    splitter of internal/preprocessor/split.go, which reads letters alone and takes
    every BEGIN ATOMIC for the start of a body; the laws say where the two agree.
    The commands are those of the reference pages COMMIT, ROLLBACK, END, ABORT,
    BEGIN, START TRANSACTION, PREPARE TRANSACTION, PREPARE and CREATE FUNCTION of the
    PostgreSQL documentation. */
module Statements {
  import opened Text
  import opened Sequences
  import opened Lexer
  import opened Words
  import opened Split
  import opened OnePass
  import opened SplitLaws

  // ---- tokens ----

  /** What an identifier, a keyword or a number is made of (section 4.1 of the
      PostgreSQL documentation). */
  predicate IsTokenChar(c: char) {
    IsAsciiLetter(c) || IsAsciiDigit(c) || c == '_' || c == '$' || !IsAsciiChar(c)
  }

  /** Number of token characters that `s` starts with. */
  function TokenRun(s: Bytes): (n: nat)
    ensures n <= |s|
    ensures forall i :: 0 <= i < n ==> IsTokenChar(s[i])
    ensures n < |s| ==> !IsTokenChar(s[n])
  {
    if s == "" || !IsTokenChar(s[0]) then 0 else 1 + TokenRun(s[1..])
  }

  function Nesting(c: char, depth: nat): nat {
    if c == '(' then depth + 1 else if c == ')' && depth > 0 then depth - 1 else depth
  }

  /** The tokens of a masked statement, without those in parentheses: longest runs
      of token characters, in upper case, and single other characters. */
  function Tokens(s: Bytes, depth: nat): seq<Bytes>
    decreases |s|
  {
    if s == "" then []
    else if IsSpace(s[0]) then Tokens(s[1..], depth)
    else if IsTokenChar(s[0]) then
      (if depth == 0 then [Upper(s[..TokenRun(s)])] else []) + Tokens(s[TokenRun(s)..], depth)
    else
      (if depth == 0 then [s[..1]] else []) + Tokens(s[1..], Nesting(s[0], depth))
  }

  /** A statement without the semicolon that ends it. */
  function Bare(stmt: Bytes): Bytes {
    if stmt != "" && stmt[|stmt| - 1] == ';' then stmt[..|stmt| - 1] else stmt
  }

  function TokensOf(stmt: Bytes): seq<Bytes> { Tokens(Bare(stmt), 0) }

  // ---- commands ----

  /** What a statement does to the transaction; Prepare is PREPARE TRANSACTION. */
  datatype TxKind =
    | Work
    | Begin
    | Commit(chain: bool)
    | Rollback(chain: bool)
    | Prepare

  function WithoutNoise(ts: seq<Bytes>): seq<Bytes> {
    if ts != [] && (ts[0] == "WORK" || ts[0] == "TRANSACTION") then ts[1..] else ts
  }

  /** Nothing, or AND CHAIN, or AND NO CHAIN. */
  predicate IsChainClause(ts: seq<Bytes>) {
    ts == [] || ts == ["AND", "CHAIN"] || ts == ["AND", "NO", "CHAIN"]
  }

  predicate IsEndKeyword(t: Bytes) { t == "COMMIT" || t == "END" || t == "ROLLBACK" || t == "ABORT" }

  /** A string constant, of which the mask shows the delimiters: '..', E'..', U&'..'
      or a dollar-quoted one. */
  predicate StartsLiteral(ts: seq<Bytes>) {
    && ts != []
    && (ts[0] == "'" || (ts[0] == "E" && ["'"] <= ts[1..]) || (ts[0] == "U" && ["&", "'"] <= ts[1..]) || ['$'] <= ts[0])
  }

  function KindOfTokens(ts: seq<Bytes>): TxKind {
    if ts == [] then Work
    else if IsEndKeyword(ts[0]) && IsChainClause(WithoutNoise(ts[1..])) then
      var chain := WithoutNoise(ts[1..]) == ["AND", "CHAIN"];
      if ts[0] == "COMMIT" || ts[0] == "END" then Commit(chain) else Rollback(chain)
    else if ts[0] == "BEGIN" || ts[0] == "START" then Begin
    else if ["PREPARE", "TRANSACTION"] <= ts && StartsLiteral(ts[2..]) then Prepare
    else Work
  }

  /** How the server takes a masked statement. */
  function KindOf(stmt: Bytes): TxKind { KindOfTokens(TokensOf(stmt)) }

  predicate IsEnd(kind: TxKind) { kind.Commit? || kind.Rollback? || kind.Prepare? }

  /** The server drops a statement without tokens. */
  predicate IsEmptyStatement(stmt: Bytes) { TokensOf(stmt) == [] }

  // ---- where a statement ends ----

  /** BEGIN ATOMIC, and not END right behind it. */
  predicate HasOpenBody(ts: seq<Bytes>) {
    |ts| >= 2 && ((ts[0] == "BEGIN" && ts[1] == "ATOMIC" && !(["END"] <= ts[2..])) || (!(ts[0] == "BEGIN" && ts[1] == "ATOMIC") && HasOpenBody(ts[1..])))
  }

  predicate IsRoutine(ts: seq<Bytes>) {
    && ["CREATE"] <= ts
    && var rest := if ["OR", "REPLACE"] <= ts[1..] then ts[3..] else ts[1..];
       ["FUNCTION"] <= rest || ["PROCEDURE"] <= rest
  }

  /** Only a routine definition has a body with semicolons of its own. */
  predicate OpensBody(chunk: Bytes) {
    IsRoutine(Tokens(chunk, 0)) && HasOpenBody(Tokens(chunk, 0))
  }

  /** What a top-level semicolon after `chunk` does: whether it ends a statement, and
      whether a routine body is open after it. */
  function ServerObserve(open: bool, chunk: Bytes): (bool, bool) {
    var ends := if open then ["END"] <= Tokens(chunk, 0) else !OpensBody(chunk);
    (ends, !ends)
  }

  /** Ends of the server's statements. */
  function ServerEnds(m: Bytes, i: nat, chunk: nat, depth: int, open: bool): seq<nat>
    requires chunk <= i <= |m|
    decreases |m| - i
  {
    if i == |m| then []
    else if m[i] == ';' && depth == 0 then
      var r := ServerObserve(open, m[chunk..i]);
      (if r.0 then [i + 1] else []) + ServerEnds(m, i + 1, i + 1, depth, r.1)
    else ServerEnds(m, i + 1, chunk, NextDepth(m[i], depth), open)
  }

  /** The server's statements from `at` on. */
  function ServerPieces(m: Bytes, at: nat): seq<Piece>
    requires at <= |m|
  {
    PiecesFrom(m, ServerEnds(m, at, at, 0, false), at)
  }

  // ---- where the splitter reads alike ----

  /** At every top-level semicolon splitter and server take the text before it
      alike: as opening a body, as closing one, or as neither. */
  predicate Alike(m: Bytes, i: nat, chunk: nat, depth: int, open: bool)
    requires chunk <= i <= |m|
    decreases |m| - i
  {
    if i == |m| then true
    else if m[i] == ';' && depth == 0 then
      var r := ObserveChunk(open, m[chunk..i]);
      r.0 == ServerObserve(open, m[chunk..i]).0 && Alike(m, i + 1, i + 1, depth, r.1)
    else Alike(m, i + 1, chunk, NextDepth(m[i], depth), open)
  }

  lemma {:induction false} EndsAreLater(m: Bytes, i: nat, chunk: nat, depth: int, open: bool)
    requires chunk <= i <= |m|
    ensures forall e :: e in Ends(m, i, chunk, depth, open) ==> e > i
    ensures forall e :: e in ServerEnds(m, i, chunk, depth, open) ==> e > i
    decreases |m| - i
  {
    hide ObserveChunk, ServerObserve;
    if i < |m| {
      if m[i] == ';' && depth == 0 {
        EndsAreLater(m, i + 1, i + 1, depth, ObserveChunk(open, m[chunk..i]).1);
        EndsAreLater(m, i + 1, i + 1, depth, ServerObserve(open, m[chunk..i]).1);
      } else {
        EndsAreLater(m, i + 1, chunk, NextDepth(m[i], depth), open);
      }
    }
  }

  lemma ObserveFlips(open: bool, chunk: Bytes)
    ensures ObserveChunk(open, chunk).1 == !ObserveChunk(open, chunk).0
    ensures ServerObserve(open, chunk).1 == !ServerObserve(open, chunk).0
  {}

  lemma FirstDiffers(a: nat, s: seq<nat>, t: seq<nat>)
    requires forall e :: e in t ==> e > a
    ensures [a] + s != t && [a] + s != [] + t
  {
    assert ([a] + s)[0] == a && (t != [] ==> t[0] in t) && [] + t == t;
  }

  lemma SameFirst(e: seq<nat>, s: seq<nat>, t: seq<nat>)
    ensures e + s == e + t <==> s == t
  {
    assert (e + s)[|e|..] == s && (e + t)[|e|..] == t;
  }

  /** One byte of both cuts. */
  lemma CutsUnfold(m: Bytes, i: nat, chunk: nat, depth: int, open: bool)
    requires chunk <= i <= |m|
    ensures i == |m| ==> ServerEnds(m, i, chunk, depth, open) == Ends(m, i, chunk, depth, open) == [] && Alike(m, i, chunk, depth, open)
    ensures i < |m| && m[i] == ';' && depth == 0 ==>
              var r, q := ObserveChunk(open, m[chunk..i]), ServerObserve(open, m[chunk..i]);
              && Ends(m, i, chunk, depth, open) == (if r.0 then [i + 1] else []) + Ends(m, i + 1, i + 1, depth, r.1)
              && ServerEnds(m, i, chunk, depth, open) == (if q.0 then [i + 1] else []) + ServerEnds(m, i + 1, i + 1, depth, q.1)
              && (Alike(m, i, chunk, depth, open) <==> r.0 == q.0 && Alike(m, i + 1, i + 1, depth, r.1))
    ensures i < |m| && !(m[i] == ';' && depth == 0) ==>
              var d := NextDepth(m[i], depth);
              && Ends(m, i, chunk, depth, open) == Ends(m, i + 1, chunk, d, open)
              && ServerEnds(m, i, chunk, depth, open) == ServerEnds(m, i + 1, chunk, d, open)
              && (Alike(m, i, chunk, depth, open) <==> Alike(m, i + 1, chunk, d, open))
  {
    hide ObserveChunk, ServerObserve;
  }

  /** Splitter and server cut at the same places exactly if they read alike. */
  lemma {:induction false} CutsAgreeExactly(m: Bytes, i: nat, chunk: nat, depth: int, open: bool)
    requires chunk <= i <= |m|
    ensures ServerEnds(m, i, chunk, depth, open) == Ends(m, i, chunk, depth, open) <==> Alike(m, i, chunk, depth, open)
    decreases |m| - i
  {
    hide ObserveChunk, ServerObserve, Ends, ServerEnds, Alike;
    CutsUnfold(m, i, chunk, depth, open);
    if i < |m| {
      if m[i] == ';' && depth == 0 {
        var r, q := ObserveChunk(open, m[chunk..i]), ServerObserve(open, m[chunk..i]);
        ObserveFlips(open, m[chunk..i]);
        var s, t := ServerEnds(m, i + 1, i + 1, depth, q.1), Ends(m, i + 1, i + 1, depth, r.1);
        NothingBefore(s);
        NothingBefore(t);
        if r.0 == q.0 {
          CutsAgreeExactly(m, i + 1, i + 1, depth, r.1);
          SameFirst(if r.0 then [i + 1] else [], s, t);
        } else {
          EndsAreLater(m, i + 1, i + 1, depth, r.1);
          EndsAreLater(m, i + 1, i + 1, depth, q.1);
          FirstDiffers(i + 1, s, t);
          FirstDiffers(i + 1, t, s);
        }
      } else {
        CutsAgreeExactly(m, i + 1, chunk, NextDepth(m[i], depth), open);
      }
    }
  }

  // ---- chunks without the word ATOMIC ----

  /** The letters of `w` stand somewhere in the text. */
  predicate MentionsAt(s: Bytes, w: Bytes, k: nat) { k + |w| <= |s| && Upper(s[k..k + |w|]) == w }

  predicate Mentions(s: Bytes, w: Bytes) { exists k: nat :: k <= |s| && MentionsAt(s, w, k) }

  lemma SliceOfSlice(s: Bytes, a: nat, b: nat, k: nat, n: nat)
    requires a <= b <= |s| && k + n <= b - a
    ensures s[a..b][k..k + n] == s[a + k..a + k + n]
  {
    var t, u := s[a..b][k..k + n], s[a + k..a + k + n];
    assert forall i :: 0 <= i < n ==> t[i] == u[i];
  }

  lemma MentionsPart(s: Bytes, a: nat, b: nat, w: Bytes)
    requires a <= b <= |s| && Mentions(s[a..b], w)
    ensures Mentions(s, w)
  {
    var t := s[a..b];
    var k: nat :| k <= |t| && MentionsAt(t, w, k);
    SliceOfSlice(s, a, b, k, |w|);
    assert MentionsAt(s, w, a + k);
  }

  lemma MentionsTail(s: Bytes, a: nat, w: Bytes)
    requires a <= |s| && Mentions(s[a..], w)
    ensures Mentions(s, w)
  {
    assert s[a..] == s[a..|s|];
    MentionsPart(s, a, |s|, w);
  }

  lemma {:induction false} TokenIsMentioned(s: Bytes, depth: nat, w: Bytes)
    requires w in Tokens(s, depth) && |w| > 1
    ensures Mentions(s, w)
    decreases |s|
  {
    if IsSpace(s[0]) {
      TokenIsMentioned(s[1..], depth, w);
      MentionsTail(s, 1, w);
    } else if IsTokenChar(s[0]) {
      var n := TokenRun(s);
      if w in Tokens(s[n..], depth) {
        TokenIsMentioned(s[n..], depth, w);
        MentionsTail(s, n, w);
      } else {
        assert s[0..0 + |w|] == s[..n] && MentionsAt(s, w, 0);
      }
    } else {
      TokenIsMentioned(s[1..], Nesting(s[0], depth), w);
      MentionsTail(s, 1, w);
    }
  }

  lemma {:induction false} OpenBodyIsAtomic(ts: seq<Bytes>)
    requires HasOpenBody(ts)
    ensures "ATOMIC" in ts
  {
    if !(ts[0] == "BEGIN" && ts[1] == "ATOMIC") { OpenBodyIsAtomic(ts[1..]); }
  }

  lemma FirstWordIsMentioned(s: Bytes)
    requires FirstWord(s).0 != ""
    ensures Mentions(s, FirstWord(s).0)
    ensures exists k: nat :: k <= |s| && FirstWord(s).1 == s[k..]
  {
    var g := Gap(s);
    GapEndsAtLetter(s);
    var n := Letters(s[g..]);
    assert s[g..][..n] == s[g..g + n] && s[g..][n..] == s[g + n..];
    assert MentionsAt(s, FirstWord(s).0, g);
  }

  lemma RestMentions(s: Bytes, w: Bytes)
    requires Mentions(FirstWord(s).1, w) && FirstWord(s).0 != ""
    ensures Mentions(s, w)
  {
    hide FirstWord, Mentions;
    FirstWordIsMentioned(s);
    var k: nat :| k <= |s| && FirstWord(s).1 == s[k..];
    MentionsTail(s, k, w);
  }

  lemma {:induction false} BeginAtomicIsMentioned(s: Bytes)
    requires AfterBeginAtomic(s).Found?
    ensures Mentions(s, "ATOMIC")
    decreases |s|
  {
    hide FirstWord, LeadingSpaceOnly, Mentions;
    var (word, tail) := FirstWord(s);
    if word == "BEGIN" && LeadingSpaceOnly(tail) && FirstWord(tail).0 == "ATOMIC" {
      FirstWordIsMentioned(tail);
    } else {
      BeginAtomicIsMentioned(tail);
    }
    RestMentions(s, "ATOMIC");
  }

  /** A chunk that shows no ATOMIC opens a body neither for the splitter nor for the server. */
  lemma WithoutAtomicNoBody(chunk: Bytes)
    requires !Mentions(chunk, "ATOMIC")
    ensures !AfterBeginAtomic(chunk).Found? && !OpensBody(chunk)
  {
    hide Mentions, AfterBeginAtomic, HasOpenBody, IsRoutine, Tokens;
    if AfterBeginAtomic(chunk).Found? { BeginAtomicIsMentioned(chunk); }
    if OpensBody(chunk) {
      OpenBodyIsAtomic(Tokens(chunk, 0));
      TokenIsMentioned(chunk, 0, "ATOMIC");
    }
  }

  // ---- where statements end, by counting parentheses ----

  /** Opening parentheses less closing ones. */
  function Excess(s: Bytes): int { multiset(s)['('] as int - multiset(s)[')'] as int }

  /** A semicolon outside parentheses, read from `at` on. */
  predicate TopSemicolon(m: Bytes, at: nat, j: nat) {
    at <= j < |m| && m[j] == ';' && Excess(m[at..j]) == 0
  }

  lemma ExcessStep(m: Bytes, i: nat, j: nat)
    requires i < j <= |m|
    ensures Excess(m[i..j]) == Excess(m[i + 1..j]) + NextDepth(m[i], 0) && Excess(m[i..i]) == 0
  {
    assert m[i..j] == [m[i]] + m[i + 1..j];
  }

  /** A statement ends where the nesting of parentheses has come back to zero; in text
      without the word ATOMIC, at the first such semicolon. */
  lemma {:induction false} EndIsTop(m: Bytes, i: nat, c: nat, depth: int, open: bool)
    requires c <= i <= |m|
    ensures var e := FindEnd(m, i, c, depth, open);
            && (e > 0 ==> m[e - 1] == ';' && depth + Excess(m[i..e - 1]) == 0)
            && (!open && !Mentions(m, "ATOMIC") ==>
                  forall j :: i <= j < (if e > 0 then e - 1 else |m|) && m[j] == ';' ==> depth + Excess(m[i..j]) != 0)
    decreases |m| - i
  {
    hide ObserveChunk, FindEnd, Mentions, Excess, AfterBeginAtomic, OpensBody;
    FindEndStep(m, i, c, depth, open);
    if i < |m| {
      var e := FindEnd(m, i, c, depth, open);
      forall j | i < j <= |m| ensures Excess(m[i..j]) == Excess(m[i + 1..j]) + NextDepth(m[i], 0) && Excess(m[i..i]) == 0 {
        ExcessStep(m, i, j);
      }
      ExcessStep(m, i, i + 1);
      if m[i] == ';' && depth == 0 {
        if !open && !Mentions(m, "ATOMIC") {
          if Mentions(m[c..i], "ATOMIC") { MentionsPart(m, c, i, "ATOMIC"); }
          WithoutAtomicNoBody(m[c..i]);
        }
        ObserveOpens(open, m[c..i]);
        if !ObserveChunk(open, m[c..i]).0 { EndIsTop(m, i + 1, i + 1, 0, ObserveChunk(open, m[c..i]).1); }
      } else {
        EndIsTop(m, i + 1, c, NextDepth(m[i], depth), open);
      }
    }
  }

  lemma ObserveOpens(open: bool, chunk: Bytes)
    ensures !open && !AfterBeginAtomic(chunk).Found? ==> ObserveChunk(open, chunk).0
  {
    hide AfterBeginAtomic, ClosesBody, FirstWord;
  }

  lemma StatementEndIsTop(m: Bytes, at: nat)
    requires at <= |m|
    ensures var e := StatementEnd(m, at);
            && (e > 0 ==> TopSemicolon(m, at, e - 1))
            && (!Mentions(m, "ATOMIC") ==>
                  && (e > 0 ==> forall j :: at <= j < e - 1 ==> !TopSemicolon(m, at, j))
                  && (e == 0 ==> forall j :: at <= j < |m| ==> !TopSemicolon(m, at, j)))
  {
    hide FindEnd, Mentions, Excess;
    EndIsTop(m, at, at, 0, false);
  }

  // ---- where the splitter takes a statement alike ----

  predicate IsWordToken(t: Bytes) { t != "" && forall i :: 0 <= i < |t| ==> IsAsciiLetter(t[i]) }

  /** Starts with a word, and after a keyword that may end the transaction, as after
      its noise word, comes a word or nothing. */
  predicate Readable(ts: seq<Bytes>) {
    ts != [] ==>
      && IsWordToken(ts[0])
      && (IsEndKeyword(ts[0]) ==>
            && (|ts| > 1 ==> IsWordToken(ts[1]))
            && (WithoutNoise(ts[1..]) != [] ==> IsWordToken(WithoutNoise(ts[1..])[0])))
  }

  /** An AND after the keyword that does not ask for a chain; the server refuses
      the message as a syntax error. */
  predicate IsMalformedEnd(ts: seq<Bytes>) {
    && ts != [] && IsEndKeyword(ts[0])
    && !IsChainClause(WithoutNoise(ts[1..])) && WithoutNoise(ts[1..])[0] == "AND"
  }

  lemma {:induction false} NoTokensNoWord(s: Bytes)
    requires Tokens(s, 0) == []
    ensures FirstWord(s) == ("", "")
    decreases |s|
  {
    if s != "" {
      NoTokensNoWord(s[1..]);
      FirstWordAfter(s[..1], s[1..]);
      assert s == s[..1] + s[1..];
    }
  }

  /** White space in front does not matter. */
  lemma {:induction false} TokensAfterSpace(p: Bytes, s: Bytes, depth: nat)
    requires AllSpace(p)
    ensures Tokens(p + s, depth) == Tokens(s, depth)
  {
    if p == "" {
      assert p + s == s;
    } else {
      assert (p + s)[1..] == p[1..] + s;
      TokensAfterSpace(p[1..], s, depth);
    }
  }

  lemma UpperIsWord(t: Bytes)
    requires IsWordToken(Upper(t))
    ensures IsWordToken(t)
  {
    forall i | 0 <= i < |t| ensures IsAsciiLetter(t[i]) { assert IsAsciiLetter(Upper(t)[i]); }
  }

  lemma {:induction false} LettersOfRun(s: Bytes)
    requires IsWordToken(s[..TokenRun(s)]) || TokenRun(s) == 0
    ensures Letters(s) == TokenRun(s)
  {
    if s != "" && IsTokenChar(s[0]) {
      assert s[..TokenRun(s)][0] == s[0];
      assert s[1..][..TokenRun(s[1..])] == s[..TokenRun(s)][1..];
      LettersOfRun(s[1..]);
    }
  }

  /** When the first token is a word, it is the word the splitter reads first. */
  lemma {:induction false} FirstTokenIsWord(s: Bytes)
    requires Tokens(s, 0) != [] && IsWordToken(Tokens(s, 0)[0])
    ensures FirstWord(s).0 == Tokens(s, 0)[0] && Tokens(FirstWord(s).1, 0) == Tokens(s, 0)[1..]
    decreases |s|
  {
    hide Upper;
    if IsSpace(s[0]) {
      FirstTokenIsWord(s[1..]);
      FirstWordAfter(s[..1], s[1..]);
      assert s == s[..1] + s[1..];
    } else if IsTokenChar(s[0]) {
      var n := TokenRun(s);
      var rest := Tokens(s[n..], 0);
      assert ([Upper(s[..n])] + rest)[0] == Upper(s[..n]) && ([Upper(s[..n])] + rest)[1..] == rest;
      UpperIsWord(s[..n]);
      LettersOfRun(s);
      assert s[..n][0] == s[0] && s[0..] == s;
    }
  }

  /** The splitter's test, in terms of tokens. */
  lemma TerminatorTokens(s: Bytes)
    requires Readable(Tokens(s, 0))
    ensures var ts := Tokens(s, 0);
            IsTransactionTerminator(s) <==>
            ts != [] && IsEndKeyword(ts[0]) && (WithoutNoise(ts[1..]) == [] || WithoutNoise(ts[1..])[0] == "AND")
  {
    hide FirstWord, Tokens;
    var ts, rest := Tokens(s, 0), FirstWord(s).1;
    if ts == [] {
      NoTokensNoWord(s);
    } else {
      FirstTokenIsWord(s);
      if IsEndKeyword(ts[0]) {
        var after := FirstWord(rest).1;
        if |ts| == 1 {
          NoTokensNoWord(rest);
        } else {
          FirstTokenIsWord(rest);
          if ts[1] == "WORK" || ts[1] == "TRANSACTION" {
            assert Tokens(after, 0) == ts[1..][1..] == ts[2..];
            if |ts| == 2 { NoTokensNoWord(after); } else { FirstTokenIsWord(after); }
          }
        }
      }
    }
  }

  lemma BareTerminator(stmt: Bytes)
    ensures IsTransactionTerminator(stmt) == IsTransactionTerminator(Bare(stmt))
  {
    hide IsTransactionTerminator;
    if Bare(stmt) != stmt {
      TerminatorBefore(Bare(stmt), ";");
      assert stmt == Bare(stmt) + ";";
    }
  }

  lemma KnownKeywords(ts: seq<Bytes>)
    requires ts != []
    ensures IsChainClause(WithoutNoise(ts[1..])) && IsEndKeyword(ts[0]) ==> Readable(ts)
    ensures ["PREPARE", "TRANSACTION"] <= ts ==> Readable(ts)
  {
    assert IsWordToken("COMMIT") && IsWordToken("END") && IsWordToken("ROLLBACK") && IsWordToken("ABORT");
    assert IsWordToken("AND") && IsWordToken("WORK") && IsWordToken("TRANSACTION") && IsWordToken("PREPARE");
  }

  /** A statement that ends the transaction is one the splitter takes for a
      terminator, except PREPARE TRANSACTION, which the splitter does not know; and
      every statement that starts like a command is taken alike exactly unless it
      is that or ends in an AND without CHAIN. */
  lemma SplitterAgrees(stmt: Bytes)
    ensures IsEnd(KindOf(stmt)) ==> (IsTransactionTerminator(stmt) <==> KindOf(stmt) != Prepare)
    ensures Readable(TokensOf(stmt)) ==>
              ((IsTransactionTerminator(stmt) <==> IsEnd(KindOf(stmt)))
               <==> KindOf(stmt) != Prepare && !IsMalformedEnd(TokensOf(stmt)))
  {
    hide IsTransactionTerminator, Tokens, IsWordToken, Bare, StartsLiteral, Readable;
    var ts := TokensOf(stmt);
    BareTerminator(stmt);
    if ts != [] { KnownKeywords(ts); }
    if Readable(ts) { TerminatorTokens(Bare(stmt)); }
  }

  // ---- routine bodies that are read alike ----

  lemma {:induction false} GapPrefix(p: Bytes, t: Bytes)
    requires Gap(p) < |p|
    ensures Gap(p + t) == Gap(p)
  {
    assert (p + t)[0] == p[0] && (p + t)[1..] == p[1..] + t;
    if !IsAsciiLetter(p[0]) { GapPrefix(p[1..], t); }
  }

  lemma {:induction false} LettersPrefix(a: Bytes, t: Bytes)
    requires Letters(a) < |a|
    ensures Letters(a + t) == Letters(a) && !IsAsciiLetter(a[Letters(a)])
  {
    assert (a + t)[0] == a[0] && (a + t)[1..] == a[1..] + t;
    if IsAsciiLetter(a[0]) { LettersPrefix(a[1..], t); }
  }

  lemma {:induction false} LettersAll(a: Bytes)
    requires Letters(a) == |a|
    ensures forall i :: 0 <= i < |a| ==> IsAsciiLetter(a[i])
  {
    if a != "" {
      LettersAll(a[1..]);
      assert forall i :: 1 <= i < |a| ==> a[i] == a[1..][i - 1];
    }
  }

  /** Ends in no letter. */
  predicate EndsApart(p: Bytes) { p == "" || !IsAsciiLetter(p[|p| - 1]) }

  /** The first word of a text that ends in no letter, when more follows. */
  lemma FirstWordOfPrefix(p: Bytes, t: Bytes)
    requires EndsApart(p) && FirstWord(p).0 != ""
    ensures FirstWord(p + t) == (FirstWord(p).0, FirstWord(p).1 + t) && EndsApart(FirstWord(p).1)
  {
    hide Upper, Gap, Letters;
    var g := Gap(p);
    GapEndsAtLetter(p);
    var a := p[g..];
    assert a != "" && a[|a| - 1] == p[|p| - 1];
    if Letters(a) == |a| { LettersAll(a); }
    GapPrefix(p, t);
    LettersPrefix(a, t);
    var n := Letters(a);
    CutPrefix(p, t, g);
    CutPrefix(a, t, n);
    assert a[n..][|a| - n - 1] == a[|a| - 1];
  }

  lemma CutPrefix(a: Bytes, t: Bytes, n: nat)
    requires n <= |a|
    ensures (a + t)[..n] == a[..n] && (a + t)[n..] == a[n..] + t
  {}

  /** What the splitter finds, it finds behind any text that ends in no letter. */
  lemma {:induction false} FoundBehind(p: Bytes, t: Bytes)
    requires EndsApart(p) && AfterBeginAtomic(t).Found?
    ensures AfterBeginAtomic(p + t).Found?
    decreases |p|
  {
    hide FirstWord, LeadingSpaceOnly, EndsApart;
    if FirstWord(p).0 == "" {
      NoWordNoLetters(p);
      FirstWordAfter(p, t);
    } else {
      FirstWordOfPrefix(p, t);
      FoundBehind(FirstWord(p).1, t);
    }
  }

  lemma {:induction false} NoWordNoLetters(p: Bytes)
    requires FirstWord(p).0 == ""
    ensures NoLetters(p)
    decreases |p|
  {
    if p != "" {
      assert p[0..] == p && p == p[..1] + p[1..];
      if !IsAsciiLetter(p[0]) {
        FirstWordAfter(p[..1], p[1..]);
        NoWordNoLetters(p[1..]);
        assert forall i :: 1 <= i < |p| ==> p[i] == p[1..][i - 1];
      }
    }
  }

  /** The white space that the splitter does not count as such. */
  predicate NoFeeds(s: Bytes) { forall i :: 0 <= i < |s| ==> s[i] != '\U{0B}' && s[i] != '\U{0C}' }

  lemma {:induction false} SpaceBeforeWord(s: Bytes)
    requires Tokens(s, 0) != [] && IsWordToken(Tokens(s, 0)[0]) && NoFeeds(s)
    ensures LeadingSpaceOnly(s)
    decreases |s|
  {
    if IsSpace(s[0]) {
      SpaceBeforeWord(s[1..]);
    } else if IsTokenChar(s[0]) {
      var n := TokenRun(s);
      UpperIsWord(s[..n]);
      assert s[..n][0] == s[0];
    }
  }

  /** A body that opens for the server opens for the search of the splitter. */
  lemma {:induction false} OpenBodyIsFound(s: Bytes, depth: nat)
    requires HasOpenBody(Tokens(s, depth)) && NoFeeds(s)
    ensures AfterBeginAtomic(s).Found?
    decreases |s|
  {
    hide FirstWord, LeadingSpaceOnly, Upper, AfterBeginAtomic;
    if IsTokenChar(s[0]) && !IsSpace(s[0]) {
      var n := TokenRun(s);
      var ts := Tokens(s[n..], depth);
      if depth == 0 && Upper(s[..n]) == "BEGIN" && ts != [] && ts[0] == "ATOMIC" {
        WordIsFirst(s, n);
        assert IsWordToken("ATOMIC");
        FirstTokenIsWord(s[n..]);
        SpaceBeforeWord(s[n..]);
        FoundHere(s, s[n..]);
      } else {
        if depth == 0 { BodyInTail(Upper(s[..n]), ts); } else { NothingBefore(ts); }
        OpenBodyIsFound(s[n..], depth);
        NotAtOnce(s[n..]);
        assert s[n..][1..] == s[n + 1..] && s == s[..n + 1] + s[n + 1..];
        FoundBehind(s[..n + 1], s[n + 1..]);
      }
    } else {
      var inner := if IsSpace(s[0]) then depth else Nesting(s[0], depth);
      if !IsSpace(s[0]) && depth == 0 { BodyInTail(s[..1], Tokens(s[1..], inner)); }
      NothingBefore(Tokens(s[1..], inner));
      OpenBodyIsFound(s[1..], inner);
      assert s == s[..1] + s[1..];
      FoundBehind(s[..1], s[1..]);
    }
  }

  lemma BodyInTail(t: Bytes, ts: seq<Bytes>)
    requires HasOpenBody([t] + ts) && !(t == "BEGIN" && ts != [] && ts[0] == "ATOMIC")
    ensures HasOpenBody(ts)
  {
    assert ([t] + ts)[1..] == ts && ([t] + ts)[0] == t && (ts != [] ==> ([t] + ts)[1] == ts[0]);
  }

  lemma WordIsFirst(s: Bytes, n: nat)
    requires n == TokenRun(s) && Upper(s[..n]) == "BEGIN"
    ensures FirstWord(s) == ("BEGIN", s[n..])
  {
    assert IsWordToken("BEGIN");
    UpperIsWord(s[..n]);
    LettersOfRun(s);
    assert s[..n][0] == s[0] && s[0..] == s;
  }

  lemma FoundHere(s: Bytes, tail: Bytes)
    requires FirstWord(s) == ("BEGIN", tail) && LeadingSpaceOnly(tail) && FirstWord(tail).0 == "ATOMIC"
    ensures AfterBeginAtomic(s).Found?
  {
    hide FirstWord, LeadingSpaceOnly;
  }

  /** What is found in a text that starts with no letter is found behind its start. */
  lemma NotAtOnce(s: Bytes)
    requires s != "" && !IsAsciiLetter(s[0]) && AfterBeginAtomic(s).Found?
    ensures AfterBeginAtomic(s[1..]).Found?
  {
    hide FirstWord, LeadingSpaceOnly;
    FirstWordAfter(s[..1], s[1..]);
    assert s == s[..1] + s[1..];
  }

  /** In no stretch of words behind ATOMIC are there more ENDs than CASEs. */
  predicate EndsArePaired(ws: seq<Bytes>) {
    forall k :: 0 <= k < |ws| && ws[k] == "ATOMIC" ==> !HasUnpairedEnd(ws[k + 1..], 0)
  }

  /** A chunk as routine definitions have it: outside a body it shows no ATOMIC, or it
      opens a body for the server and behind every ATOMIC each END is paired with a
      CASE; inside one it starts with a word, or is empty. */
  predicate IsOrdinary(open: bool, chunk: Bytes) {
    if open then Tokens(chunk, 0) != [] ==> IsWordToken(Tokens(chunk, 0)[0])
    else
      || !Mentions(chunk, "ATOMIC")
      || (OpensBody(chunk) && NoFeeds(chunk) && EndsArePaired(WordList(chunk)))
  }

  lemma OrdinaryIsAlike(open: bool, chunk: Bytes)
    requires IsOrdinary(open, chunk)
    ensures ObserveChunk(open, chunk) == ServerObserve(open, chunk)
  {
    hide FirstWord, Mentions, AfterBeginAtomic, ClosesBody, Tokens, HasOpenBody, IsRoutine, IsWordToken;
    if open {
      if Tokens(chunk, 0) == [] { NoTokensNoWord(chunk); } else { FirstTokenIsWord(chunk); }
    } else if !Mentions(chunk, "ATOMIC") {
      WithoutAtomicNoBody(chunk);
    } else {
      OpenBodyIsFound(chunk, 0);
      var k := FoundIsBehindAtomic(chunk);
      ClosesBodyExactly(AfterBeginAtomic(chunk).rest, 0);
    }
  }

  /** Every chunk between top-level semicolons is ordinary. */
  predicate Ordinary(m: Bytes, i: nat, chunk: nat, depth: int, open: bool)
    requires chunk <= i <= |m|
    decreases |m| - i
  {
    if i == |m| then true
    else if m[i] == ';' && depth == 0 then
      IsOrdinary(open, m[chunk..i]) && Ordinary(m, i + 1, i + 1, depth, ServerObserve(open, m[chunk..i]).1)
    else Ordinary(m, i + 1, chunk, NextDepth(m[i], depth), open)
  }

  /** For one, where the word ATOMIC does not occur. */
  lemma {:induction false} WithoutAtomicIsOrdinary(m: Bytes, i: nat, chunk: nat, depth: int)
    requires chunk <= i <= |m| && !Mentions(m, "ATOMIC")
    ensures Ordinary(m, i, chunk, depth, false)
    decreases |m| - i
  {
    hide Mentions, AfterBeginAtomic, HasOpenBody, IsRoutine, Tokens;
    if i < |m| {
      if m[i] == ';' && depth == 0 {
        if Mentions(m[chunk..i], "ATOMIC") { MentionsPart(m, chunk, i, "ATOMIC"); }
        WithoutAtomicNoBody(m[chunk..i]);
        WithoutAtomicIsOrdinary(m, i + 1, i + 1, depth);
      } else {
        WithoutAtomicIsOrdinary(m, i + 1, chunk, NextDepth(m[i], depth));
      }
    }
  }

  /** Such a script, routine bodies included, is read alike. */
  lemma {:induction false} OrdinaryReadAlike(m: Bytes, i: nat, chunk: nat, depth: int, open: bool)
    requires chunk <= i <= |m| && Ordinary(m, i, chunk, depth, open)
    ensures Alike(m, i, chunk, depth, open)
    decreases |m| - i
  {
    hide ObserveChunk, ServerObserve, IsOrdinary;
    if i < |m| {
      if m[i] == ';' && depth == 0 {
        OrdinaryIsAlike(open, m[chunk..i]);
        OrdinaryReadAlike(m, i + 1, i + 1, depth, ServerObserve(open, m[chunk..i]).1);
      } else {
        OrdinaryReadAlike(m, i + 1, chunk, NextDepth(m[i], depth), open);
      }
    }
  }

  // ---- parts of a script that is read alike ----

  /** Reading alike depends only on the text read: the same text elsewhere, cut
      short, or behind white space, is read alike too. */
  lemma {:induction false} AlikeTransfers(m: Bytes, i: nat, c: nat, n: Bytes, i': nat, c': nat, p: Bytes, depth: int, open: bool)
    requires c <= i <= |m| && c' <= i' <= |n|
    requires n[i'..] <= m[i..]
    requires Padding(p) && n[c'..i'] == p + m[c..i]
    requires Alike(m, i, c, depth, open)
    ensures Alike(n, i', c', depth, open)
    decreases |n| - i'
  {
    hide ObserveChunk, ServerObserve;
    if i' < |n| {
      PartsStep(m, i, c, n, i', c', p);
      if m[i] == ';' && depth == 0 {
        ObserveAfter(open, p, m[c..i]);
        ServerObserveAfter(open, p, m[c..i]);
        AlikeTransfers(m, i + 1, i + 1, n, i' + 1, i' + 1, "", 0, ObserveChunk(open, m[c..i]).1);
      } else {
        AlikeTransfers(m, i + 1, c, n, i' + 1, c', p, NextDepth(m[i], depth), open);
      }
    }
  }

  lemma ServerObserveAfter(open: bool, p: Bytes, chunk: Bytes)
    requires Padding(p)
    ensures ServerObserve(open, p + chunk) == ServerObserve(open, chunk)
  {
    hide HasOpenBody, IsRoutine;
    TokensAfterSpace(p, chunk, 0);
  }

  /** What follows a statement of a script that is read alike is read alike. */
  lemma {:induction false} AlikeRestarts(m: Bytes, i: nat, c: nat, depth: int, open: bool)
    requires c <= i <= |m| && Alike(m, i, c, depth, open)
    ensures var e := FindEnd(m, i, c, depth, open); e > 0 ==> Alike(m, e, e, 0, false)
    decreases |m| - i
  {
    hide ObserveChunk, ServerObserve, FindEnd;
    FindEndStep(m, i, c, depth, open);
    if i < |m| {
      if m[i] == ';' && depth == 0 {
        var r := ObserveChunk(open, m[c..i]);
        ObserveFlips(open, m[c..i]);
        if !r.0 { AlikeRestarts(m, i + 1, i + 1, 0, r.1); }
      } else {
        AlikeRestarts(m, i + 1, c, NextDepth(m[i], depth), open);
      }
    }
  }

  predicate AlikeFrom(m: Bytes, at: nat)
    requires at <= |m|
  {
    Alike(m, at, at, 0, false)
  }

  lemma AlikeNext(m: Bytes, at: nat)
    requires at <= |m| && AlikeFrom(m, at) && StatementEnd(m, at) > 0
    ensures AlikeFrom(m, StatementEnd(m, at))
  {
    hide Alike, FindEnd;
    AlikeRestarts(m, at, at, 0, false);
  }

  /** A stretch of it, behind padding, is a message that is read alike. */
  lemma AlikePart(m: Bytes, at: nat, b: nat, p: Bytes)
    requires at <= b <= |m| && AlikeFrom(m, at) && Padding(p)
    ensures AlikeFrom(p + m[at..b], 0)
  {
    hide Alike;
    var n := p + m[at..b];
    assert n[|p|..] == m[at..b] && n[0..|p|] == p + m[at..at] && m[at..b] == m[at..][..b - at];
    AlikeTransfers(m, at, at, n, |p|, 0, p, 0, false);
    AlikeSkips(n, 0, |p|);
  }

  lemma {:induction false} AlikeSkips(n: Bytes, i: nat, k: nat)
    requires i <= k <= |n| && Padding(n[..k])
    ensures Alike(n, i, 0, 0, false) == Alike(n, k, 0, 0, false)
    decreases k - i
  {
    hide ObserveChunk, ServerObserve;
    if i < k {
      assert n[..k][i] == n[i];
      AlikeSkips(n, i + 1, k);
    }
  }

  lemma {:induction false} AlikeAfterHead(m: Bytes, at: nat)
    requires at <= |m| && AlikeFrom(m, at) && HeadEnd(m, at) > 0
    ensures AlikeFrom(m, HeadEnd(m, at))
    decreases |m| - at
  {
    hide StatementEnd, HeadEnd, Alike, IsTransactionTerminator;
    HeadEndStep(m, at);
    var e := StatementEnd(m, at);
    if e > 0 {
      AlikeNext(m, at);
      if !IsTransactionTerminator(m[at..e]) { AlikeAfterHead(m, e); }
    } else {
      AlikeAtEnd(m);
    }
  }

  lemma AlikeAtEnd(m: Bytes)
    ensures AlikeFrom(m, |m|)
  {}

  /** The message, masked, is cut by the splitter as by the server. */
  predicate ReadAlike(lx: Lexis, message: Bytes) {
    AlikeFrom(Encode(Run(Mask, lx, Decode(message))), 0)
  }

  lemma TextReadAlike(lx: Lexis, t: string)
    ensures ReadAlike(lx, Encode(t)) <==> AlikeFrom(Encode(Run(Mask, lx, t)), 0)
  {
    hide Encode, Decode, Run, AlikeFrom;
    DecodeEncode(t);
  }

  lemma {:induction false} TailUnitReadAlike(lx: Lexis, sql: string, at: nat, j: nat)
    requires var m := Encode(Run(Mask, lx, sql));
             && at <= |m| == ByteLen(sql) && (at == 0 || m[at - 1] == ';') && AlikeFrom(m, at)
             && j < |TailUnits(Encode(sql), m, at)|
    ensures ReadAlike(lx, TailUnits(Encode(sql), Encode(Run(Mask, lx, sql)), at)[j])
    decreases ByteLen(sql) - at
  {
    hide Encode, Run, FindEnd, ExecutionUnits, Pad, Blank, AlikeFrom, ReadAlike;
    var src, m := Encode(sql), Encode(Run(Mask, lx, sql));
    var e := StatementEnd(m, at);
    PadIsPadding(src, at);
    if e == 0 || j == 0 {
      var b := if e == 0 then |m| else e;
      var t := PieceIsUnit(lx, sql, at, b, Pad(src, at));
      AlikePart(m, at, b, Pad(src, at));
      TextReadAlike(lx, t);
      assert src[at..|m|] == src[at..];
    } else {
      SemicolonAt(m, at);
      AlikeNext(m, at);
      TailUnitReadAlike(lx, sql, e, j - 1);
    }
  }

  /** Every unit of a script that is read alike is read alike. */
  lemma UnitReadAlike(lx: Lexis, sql: string, j: nat)
    requires ReadAlike(lx, Encode(sql)) && j < |ExecutionUnits(lx, sql)|
    ensures ReadAlike(lx, ExecutionUnits(lx, sql)[j])
  {
    hide Encode, Decode, Run, HeadEnd, TailUnits, Blank, ReadAlike, AlikeFrom;
    var src, m := Encode(sql), Encode(Run(Mask, lx, sql));
    var h := HeadEnd(m, 0);
    MaskLength(lx, sql);
    TextReadAlike(lx, sql);
    if h != 0 && !Blank(m[h..]) {
      EmptyIsBlank();
      HeadBeforeEnd(m);
      if j == 0 {
        var t := HeadIsUnit(lx, sql, h);
        AlikePart(m, 0, h, "");
        assert "" + m[0..h] == m[..h];
        TextReadAlike(lx, t);
      } else {
        HeadEndsAtSemicolon(m, 0);
        AlikeAfterHead(m, 0);
        TailUnitReadAlike(lx, sql, h, j - 1);
      }
    }
  }

  /** Every script of ordinary chunks is read alike. */
  lemma OrdinaryScriptReadAlike(lx: Lexis, sql: string)
    requires Ordinary(Encode(Run(Mask, lx, sql)), 0, 0, 0, false)
    ensures ReadAlike(lx, Encode(sql))
  {
    hide Encode, Run, Decode, Ordinary, Alike;
    TextReadAlike(lx, sql);
    OrdinaryReadAlike(Encode(Run(Mask, lx, sql)), 0, 0, 0, false);
  }

  /** So is every script without the word ATOMIC outside literals and comments. */
  lemma WithoutAtomicReadAlike(lx: Lexis, sql: string)
    requires !Mentions(Encode(Run(Mask, lx, sql)), "ATOMIC")
    ensures ReadAlike(lx, Encode(sql))
  {
    hide Encode, Run, Decode, Mentions, Ordinary;
    WithoutAtomicIsOrdinary(Encode(Run(Mask, lx, sql)), 0, 0, 0);
    OrdinaryScriptReadAlike(lx, sql);
  }
}
