/** Scripts on which units promise less than one might think: on the first two the
    count of units that ran exceeds the count of units that took effect, with and
    without an error; on the next two a failing head leaves something behind, behind a
    PREPARE TRANSACTION and behind a query that the splitter takes for a routine body
    (executeDeploySQL of internal/services/deployer.go, observe of
    internal/preprocessor/split.go); on the last an error is reported one column too
    far (padPrefix of internal/preprocessor/split.go). */
module Limits {
  import opened Text
  import opened Lexer
  import opened Words
  import opened Split
  import opened OnePass
  import opened Statements
  import opened Server
  import opened Execute
  import opened SplitLaws
  import Positions
  import opened Sequences

  // ---- words ----

  predicate EndsWord(rest: Bytes) { rest == "" || !IsAsciiLetter(rest[0]) }

  lemma {:induction false} LettersOfWord(w: Bytes, rest: Bytes)
    requires (forall i :: 0 <= i < |w| ==> IsAsciiLetter(w[i])) && EndsWord(rest)
    ensures Letters(w + rest) == |w|
  {
    if w == "" {
      assert w + rest == rest;
    } else {
      assert (w + rest)[1..] == w[1..] + rest;
      LettersOfWord(w[1..], rest);
    }
  }

  lemma LeadingWord(p: Bytes, w: Bytes, rest: Bytes)
    requires NoLetters(p) && IsWordToken(w) && EndsWord(rest)
    ensures FirstWord(p + w + rest) == (Upper(w), rest)
  {
    hide Letters, Upper, FirstWord;
    assert p + w + rest == p + (w + rest);
    FirstWordAfter(p, w + rest);
    LettersOfWord(w, rest);
    assert (w + rest)[0] == w[0];
    WordFirst(w, rest);
  }

  lemma WordFirst(w: Bytes, rest: Bytes)
    requires w != "" && IsAsciiLetter(w[0]) && Letters(w + rest) == |w|
    ensures FirstWord(w + rest) == (Upper(w), rest)
  {
    hide Letters, Upper;
    assert (w + rest)[0] == w[0] && (w + rest)[0..] == w + rest;
    assert (w + rest)[..|w|] == w && (w + rest)[|w|..] == rest;
  }

  lemma NoWords(rest: Bytes)
    requires NoLetters(rest)
    ensures FirstWord(rest) == ("", "")
  {
    GapOfNoLetters(rest, "");
    assert rest + "" == rest && rest[|rest|..] == "" && Letters("") == 0 && Upper("") == "";
  }

  /** One round of the search for BEGIN ATOMIC. */
  lemma SearchStep(s: Bytes)
    ensures var (word, tail) := FirstWord(s);
            AfterBeginAtomic(s) ==
            if word == "" then Missing
            else if word == "BEGIN" && LeadingSpaceOnly(tail) && FirstWord(tail).0 == "ATOMIC" then Found(FirstWord(tail).1)
            else AfterBeginAtomic(tail)
  {
    hide FirstWord, LeadingSpaceOnly;
  }

  /** One round of the search for the END of a body. */
  lemma ClosesStep(s: Bytes)
    ensures var (word, tail) := FirstWord(s);
            word != "CASE" && word != "END" ==> (ClosesBody(s, 0) <==> word != "" && ClosesBody(tail, 0))
  {
    hide FirstWord;
  }

  // ---- tokens ----

  lemma {:induction false} RunOfWord(w: Bytes, rest: Bytes)
    requires (forall i :: 0 <= i < |w| ==> IsAsciiLetter(w[i])) && (rest == "" || !IsTokenChar(rest[0]))
    ensures TokenRun(w + rest) == |w|
  {
    if w == "" {
      assert w + rest == rest;
    } else {
      assert (w + rest)[1..] == w[1..] + rest;
      RunOfWord(w[1..], rest);
    }
  }

  /** Tokens, the first of them `w`. */
  lemma TokenThen(p: Bytes, w: Bytes, rest: Bytes)
    requires Padding(p) && IsWordToken(w) && (rest == "" || !IsTokenChar(rest[0]))
    ensures Tokens(p + w + rest, 0) == [Upper(w)] + Tokens(rest, 0)
  {
    hide Upper;
    assert p + w + rest == p + (w + rest);
    TokensAfterSpace(p, w + rest, 0);
    RunOfWord(w, rest);
    assert (w + rest)[0] == w[0] && (w + rest)[..|w|] == w && (w + rest)[|w|..] == rest;
  }

  lemma OneToken(p: Bytes, w: Bytes)
    requires Padding(p) && IsWordToken(w)
    ensures Tokens(p + w, 0) == [Upper(w)] && TokensOf(p + w + ";") == [Upper(w)]
  {
    hide Upper;
    TokenThen(p, w, "");
    assert p + w + "" == p + w && Bare(p + w + ";") == p + w && [Upper(w)] + [] == [Upper(w)];
  }

  // ---- statements ----

  /** From one top-level semicolon to the next. */
  lemma {:induction false} ScanToSemicolon(m: Bytes, i: nat, chunk: nat, e: nat, open: bool)
    requires chunk <= i <= e < |m| && m[e] == ';'
    requires forall k :: i <= k < e ==> m[k] != '(' && m[k] != ')' && m[k] != ';'
    ensures var r := ObserveChunk(open, m[chunk..e]);
            FindEnd(m, i, chunk, 0, open) == if r.0 then e + 1 else FindEnd(m, e + 1, e + 1, 0, r.1)
    ensures var r := ServerObserve(open, m[chunk..e]);
            ServerEnds(m, i, chunk, 0, open) == (if r.0 then [e + 1] else []) + ServerEnds(m, e + 1, e + 1, 0, r.1)
    decreases e - i
  {
    hide ObserveChunk, ServerObserve, FindEnd;
    FindEndStep(m, i, chunk, 0, open);
    if i < e { ScanToSemicolon(m, i + 1, chunk, e, open); }
  }

  /** A statement for the server, without parentheses. */
  predicate IsSimple(m: Bytes, at: nat, e: nat) {
    && at <= e < |m| && m[e] == ';' && !OpensBody(m[at..e]) && TokensOf(m[at..e + 1]) != []
    && forall k :: at <= k < e ==> m[k] != '(' && m[k] != ')' && m[k] != ';'
  }

  /** It is the first statement of a message. */
  lemma ServerStep(src: Bytes, m: Bytes, at: nat, e: nat)
    requires |src| == |m| && IsSimple(m, at, e)
    ensures StatementsFrom(src, m, ServerPieces(m, at)) ==
            [Statement(KindOf(m[at..e + 1]), src[at..e + 1])] + StatementsFrom(src, m, ServerPieces(m, e + 1))
  {
    hide StatementsFrom, KindOf, FindEnd, OpensBody, TokensOf, ServerEnds, ServerPieces, ObserveChunk;
    ScanToSemicolon(m, at, at, e, false);
    PiecesUnfold(m, at, e);
    StatementsStep(src, m, Piece(at, e + 1), ServerPieces(m, e + 1));
  }

  lemma PiecesUnfold(m: Bytes, at: nat, e: nat)
    requires at <= e < |m|
    requires ServerEnds(m, at, at, 0, false) == [e + 1] + ServerEnds(m, e + 1, e + 1, 0, false)
    ensures ServerPieces(m, at) == [Piece(at, e + 1)] + ServerPieces(m, e + 1)
  {
    hide ServerEnds;
    assert ([e + 1] + ServerEnds(m, e + 1, e + 1, 0, false))[1..] == ServerEnds(m, e + 1, e + 1, 0, false);
  }

  /** And, where the splitter opens no body, the first unit of a tail. */
  lemma SimpleStep(src: Bytes, m: Bytes, at: nat, e: nat)
    requires |src| == |m| && IsSimple(m, at, e) && ObserveChunk(false, m[at..e]).0
    ensures TailUnits(src, m, at) == [Pad(src, at) + src[at..e + 1]] + TailUnits(src, m, e + 1)
    ensures HeadEnd(m, at) == if IsTransactionTerminator(m[at..e + 1]) then e + 1 else HeadEnd(m, e + 1)
  {
    hide FindEnd, TailUnits, Pad, HeadEnd, IsTransactionTerminator, Blank, TokensOf, OpensBody, ObserveChunk;
    ScanToSemicolon(m, at, at, e, false);
    TailUnitsUnfold(src, m, at);
    HeadEndStep(m, at);
  }

  lemma NothingAtEnd(src: Bytes, m: Bytes)
    requires |src| == |m|
    ensures StatementsFrom(src, m, ServerPieces(m, |m|)) == [] && TailUnits(src, m, |m|) == [] && HeadEnd(m, |m|) == 0
  {
    hide StatementEnd, StatementsFrom, TailUnits, Pad, HeadEnd, IsTransactionTerminator;
    EndOfAll(m);
    NoStatements(src, m);
    TailUnitsUnfold(src, m, |m|);
    assert m[|m|..] == "" && Blank("");
    HeadEndStep(m, |m|);
  }

  /** Neither splitter nor server opens a body in a chunk of one word. */
  lemma WordOpensNothing(p: Bytes, w: Bytes)
    requires Padding(p) && IsWordToken(w)
    ensures ObserveChunk(false, p + w).0 && !OpensBody(p + w)
  {
    hide FirstWord, Upper, Tokens, AfterBeginAtomic;
    OneToken(p, w);
    LeadingWord(p, w, "");
    NoWords("");
    assert p + w + "" == p + w;
    SearchStep(p + w);
    SearchStep("");
  }

  /** One word behind padding is a simple statement. */
  lemma WordIsSimple(m: Bytes, at: nat, p: Bytes, w: Bytes)
    requires Padding(p) && IsWordToken(w) && at + |p| + |w| < |m|
    requires m[at..at + |p| + |w| + 1] == p + w + ";"
    ensures IsSimple(m, at, at + |p| + |w|) && ObserveChunk(false, m[at..at + |p| + |w|]).0
    ensures TokensOf(m[at..at + |p| + |w| + 1]) == [Upper(w)]
  {
    hide Upper, TokensOf, OpensBody, ObserveChunk;
    var e := at + |p| + |w|;
    OneToken(p, w);
    WordOpensNothing(p, w);
    assert m[at..e] == m[at..e + 1][..e - at] == p + w;
    assert m[e] == m[at..e + 1][e - at] == ';';
    forall k | at <= k < e ensures m[k] != '(' && m[k] != ')' && m[k] != ';' {
      assert m[k] == m[at..e][k - at] == (p + w)[k - at];
      WordChars(p, w, k - at);
    }
  }

  lemma WordChars(p: Bytes, w: Bytes, k: nat)
    requires Padding(p) && IsWordToken(w) && k < |p| + |w|
    ensures var c := (p + w)[k]; c != '(' && c != ')' && c != ';'
  {}

  // ---- masks ----

  predicate PlainChars(s: string) {
    forall i :: 0 <= i < |s| ==> IsAsciiLetter(s[i]) || s[i] == ';' || s[i] == ' ' || s[i] == '\n'
  }

  lemma PlainConcat(a: string, b: string)
    requires PlainChars(a) && PlainChars(b)
    ensures PlainChars(a + b)
  {}

  lemma PlainStep(lx: Lexis, look: Look, t: string)
    requires t != "" && PlainChars(t[..1])
    ensures Scan(Mask, lx, look, t, Normal) == t[..1] + Scan(Mask, lx, LookAfter(lx, look, t[..1]), t[1..], Normal)
  {
    hide LookAfter;
    assert t[0] == t[..1][0];
    assert Next(lx, look, t, Normal) == Step(1, Normal, Plain);
  }

  lemma {:induction false} PlainThen(lx: Lexis, look: Look, s: string, r: string)
    requires PlainChars(s)
    ensures Scan(Mask, lx, look, s + r, Normal) == s + Scan(Mask, lx, LookAfter(lx, look, s), r, Normal)
    decreases |s|
  {
    hide LookAfter, Scan;
    if s == "" {
      LookNothing(lx, look);
      assert s + r == r;
    } else {
      var t := s + r;
      assert t[..1] == s[..1] && t[1..] == s[1..] + r;
      PlainStep(lx, look, t);
      PlainThen(lx, LookAfter(lx, look, s[..1]), s[1..], r);
      LookConcat(lx, look, s[..1], s[1..]);
      SplitAt(s, 1);
      Assoc(s[..1], s[1..], Scan(Mask, lx, LookAfter(lx, look, s), r, Normal));
    }
  }

  lemma LookNothing(lx: Lexis, look: Look)
    ensures LookAfter(lx, look, "") == look
  {}

  lemma PlainText(lx: Lexis, s: string)
    requires PlainChars(s)
    ensures Encode(s) == s && Decode(s) == s && Run(Mask, lx, s) == s
  {
    hide Encode, Decode;
    assert IsAscii(s);
    EncodeAscii(s);
    DecodeEncode(s);
    PlainRun(lx, QUIET, s);
  }

  lemma PlainRun(lx: Lexis, look: Look, s: string)
    requires PlainChars(s)
    ensures Scan(Mask, lx, look, s, Normal) == s
  {
    PlainThen(lx, look, s, "");
    assert s + "" == s && Scan(Mask, lx, LookAfter(lx, look, s), "", Normal) == "";
  }

  lemma QuoteOpens(lx: Lexis, look: Look, t: string)
    requires !look.escape
    ensures Scan(Mask, lx, look, "'" + t, Normal) == "'" + Scan(Mask, lx, LookAfter(lx, look, "'"), t, SingleQuote(false))
  {
    hide LookAfter;
    var s := "'" + t;
    assert s[..1] == "'" && s[1..] == t && Next(lx, look, s, Normal) == Step(1, SingleQuote(false), Keep);
  }

  lemma BodyLetter(lx: Lexis, look: Look, c: char, t: string)
    requires c != '\''
    ensures Scan(Mask, lx, look, [c] + t, SingleQuote(false)) ==
            Spaces(ByteLen([c])) + Scan(Mask, lx, LookAfter(lx, look, [c]), t, SingleQuote(false))
  {
    hide LookAfter, Encode;
    var s := [c] + t;
    assert s[..1] == [c] && s[1..] == t && Next(lx, look, s, SingleQuote(false)) == Step(1, SingleQuote(false), Body);
  }

  lemma QuoteCloses(lx: Lexis, look: Look, t: string)
    requires t == "" || t[0] != '\''
    ensures Scan(Mask, lx, look, "'" + t, SingleQuote(false)) == "'" + Scan(Mask, lx, LookAfter(lx, look, "'"), t, Normal)
  {
    hide LookAfter;
    var s := "'" + t;
    assert t != "" ==> s[1] == t[0];
    assert s[..1] == "'" && s[1..] == t && Next(lx, look, s, SingleQuote(false)) == Step(1, Normal, Keep);
  }

  /** A literal of one letter, in front of plain text. */
  lemma LiteralThen(lx: Lexis, look: Look, c: char, r: string)
    requires !look.escape && c != '\'' && r != "" && PlainChars(r)
    ensures Scan(Mask, lx, look, "'" + ([c] + ("'" + r)), Normal) == "'" + (Spaces(ByteLen([c])) + ("'" + r))
  {
    hide LookAfter, Scan, Encode;
    QuoteOpens(lx, look, [c] + ("'" + r));
    BodyLetter(lx, LookAfter(lx, look, "'"), c, "'" + r);
    QuoteCloses(lx, LookAfter(lx, LookAfter(lx, look, "'"), [c]), r);
    PlainRun(lx, LookAfter(lx, LookAfter(lx, LookAfter(lx, look, "'"), [c]), "'"), r);
  }

  // ---- a count that exceeds the effects ----

  lemma KnownWord(w: Bytes)
    requires w != "" && forall i :: 0 <= i < |w| ==> 'A' <= w[i] <= 'Z'
    ensures IsWordToken(w) && Upper(w) == w
  {}

  lemma KnownWords()
    ensures IsWordToken("END") && IsWordToken("BEGIN") && IsWordToken("ANALYZE") && IsWordToken("VACUUM")
    ensures Upper("END") == "END" && Upper("BEGIN") == "BEGIN" && Upper("ANALYZE") == "ANALYZE" && Upper("VACUUM") == "VACUUM"
  {
    KnownWord("END");
    KnownWord("BEGIN");
    KnownWord("ANALYZE");
    KnownWord("VACUUM");
  }

  lemma UpperWord(w: Bytes)
    requires IsWordToken(w)
    ensures IsWordToken(Upper(w))
  {}

  /** The kind of a statement of one word. */
  lemma KindOfWord(stmt: Bytes, w: Bytes)
    requires TokensOf(stmt) == [w] && IsWordToken(w)
    ensures KindOf(stmt) ==
            if w == "COMMIT" || w == "END" then Commit(false)
            else if w == "ROLLBACK" || w == "ABORT" then Rollback(false)
            else if w == "BEGIN" || w == "START" then Begin
            else Work
    ensures IsTransactionTerminator(stmt) <==> IsEndKeyword(w)
  {
    hide TokensOf, IsTransactionTerminator;
    assert [w][1..] == [];
    SplitterAgrees(stmt);
  }

  lemma WordAlone(p: Bytes, w: Bytes)
    requires Padding(p) && IsWordToken(w)
    ensures var s := p + w + ";";
            StatementsFrom(s, s, ServerPieces(s, 0)) == [Statement(KindOf(s), s)] && TokensOf(s) == [Upper(w)]
  {
    hide KindOf, Upper, StatementsFrom, ServerPieces, TokensOf, HeadEnd, TailUnits, IsSimple, ObserveChunk;
    var s := p + w + ";";
    assert s[0..|p| + |w| + 1] == s;
    WordIsSimple(s, 0, p, w);
    ServerStep(s, s, 0, |p| + |w|);
    NothingAtEnd(s, s);
  }

  /** A message of one word is one statement. */
  lemma WordMessage(lx: Lexis, p: Bytes, w: Bytes)
    requires Padding(p) && IsWordToken(w)
    ensures var s := p + w + ";";
            StatementsOf(lx, s) == [Statement(KindOf(s), s)] && TokensOf(s) == [Upper(w)]
  {
    assert PlainChars(p + w + ";");
    hide PlainChars, KindOf, Upper, StatementsFrom, ServerPieces, Encode, Decode, Run, TokensOf;
    PlainText(lx, p + w + ";");
    WordAlone(p, w);
  }

  /** A text in four parts. */
  lemma FourParts(a: string, b: string, c: string, d: string)
    ensures var s := a + b + c + d;
            && s[0..|a|] == s[..|a|] == a && s[|a|..|a| + |b|] == b && s[|a| + |b|..|a| + |b| + |c|] == c
            && s[|a| + |b| + |c|..] == d && s[|a| + |b| + |c|..|s|] == d && |s| == |a| + |b| + |c| + |d|
  {}

  lemma NoPadding(w: Bytes)
    ensures Padding("") && "" + w + ";" == w + ";"
  {}

  /** A statement of one word, without padding. */
  lemma WordStep(src: Bytes, m: Bytes, at: nat, w: Bytes)
    requires |src| == |m| && IsWordToken(w) && at + |w| < |m|
    requires m[at..at + |w| + 1] == w + ";"
    ensures var e := at + |w| + 1;
            && TailUnits(src, m, at) == [Pad(src, at) + src[at..e]] + TailUnits(src, m, e)
            && HeadEnd(m, at) == (if IsEndKeyword(Upper(w)) then e else HeadEnd(m, e))
            && StatementsFrom(src, m, ServerPieces(m, at)) ==
               [Statement(KindOf(m[at..e]), src[at..e])] + StatementsFrom(src, m, ServerPieces(m, e))
            && TokensOf(m[at..e]) == [Upper(w)] && IsWordToken(Upper(w))
  {
    hide Pad, TailUnits, HeadEnd, StatementsFrom, ServerPieces, KindOf, TokensOf, Upper, IsTransactionTerminator, IsSimple, IsWordToken, ObserveChunk;
    NoPadding(w);
    WordIsSimple(m, at, "", w);
    SimpleStep(src, m, at, at + |w|);
    ServerStep(src, m, at, at + |w|);
    UpperWord(w);
    KindOfWord(m[at..at + |w| + 1], Upper(w));
  }

  /** The text of four statements of one word each. */
  function FourWords(a: Bytes, b: Bytes, c: Bytes, d: Bytes): Bytes {
    (a + ";") + (b + ";") + (c + ";") + (d + ";")
  }

  lemma FourWordsParts(a: Bytes, b: Bytes, c: Bytes, d: Bytes)
    requires IsWordToken(a) && IsWordToken(b) && IsWordToken(c) && IsWordToken(d)
    ensures PlainChars(FourWords(a, b, c, d))
  {}

  lemma UnitsOfFour(m: Bytes, a: Bytes, b: Bytes, c: Bytes, d: Bytes)
    requires IsWordToken(a) && IsWordToken(b) && IsWordToken(c) && IsWordToken(d)
    requires m == FourWords(a, b, c, d) && IsEndKeyword(Upper(a))
    ensures var i, j, k := |a| + 1, |a| + |b| + 2, |a| + |b| + |c| + 3;
            Units(m, m) == [a + ";", Pad(m, i) + (b + ";"), Pad(m, j) + (c + ";"), Pad(m, k) + (d + ";")]
  {
    hide Pad, TailUnits, HeadEnd, StatementsFrom, ServerPieces, KindOf, TokensOf, Upper, IsTransactionTerminator, IsSimple, IsWordToken, IsEndKeyword;
    var i, j, k := |a| + 1, |a| + |b| + 2, |a| + |b| + |c| + 3;
    FourParts(a + ";", b + ";", c + ";", d + ";");
    WordStep(m, m, 0, a);
    WordStep(m, m, i, b);
    WordStep(m, m, j, c);
    WordStep(m, m, k, d);
    NothingAtEnd(m, m);
    NotBlank(m, i, b);
  }

  lemma NotBlank(m: Bytes, i: nat, b: Bytes)
    requires IsWordToken(b) && i + |b| < |m| && m[i..i + |b| + 1] == b + ";"
    ensures !Blank(m[i..])
  {
    assert m[i..][0] == m[i..i + |b| + 1][0] == b[0];
  }

  /** Its four units, of which the first is the head, and their statements. */
  lemma UnitsOfScript(lx: Lexis, a: Bytes, b: Bytes, c: Bytes, d: Bytes)
    requires IsWordToken(a) && IsWordToken(b) && IsWordToken(c) && IsWordToken(d) && IsEndKeyword(Upper(a))
    ensures var units := ExecutionUnits(lx, FourWords(a, b, c, d));
            && |units| == 4
            && StatementsOf(lx, units[0]) == [Statement(KindOf(units[0]), units[0])] && TokensOf(units[0]) == [Upper(a)]
            && StatementsOf(lx, units[1]) == [Statement(KindOf(units[1]), units[1])] && TokensOf(units[1]) == [Upper(b)]
            && StatementsOf(lx, units[2]) == [Statement(KindOf(units[2]), units[2])] && TokensOf(units[2]) == [Upper(c)]
            && StatementsOf(lx, units[3]) == [Statement(KindOf(units[3]), units[3])] && TokensOf(units[3]) == [Upper(d)]
  {
    hide Pad, Units, Encode, Decode, Run, PlainChars, Upper, IsWordToken, KindOf, TokensOf, StatementsOf, IsEndKeyword, FourWords, Padding;
    var m := FourWords(a, b, c, d);
    FourWordsParts(a, b, c, d);
    PlainText(lx, m);
    UnitsOfFour(m, a, b, c, d);
    FourWordsLength(a, b, c, d);
    PadIsPadding(m, |a| + 1);
    PadIsPadding(m, |a| + |b| + 2);
    PadIsPadding(m, |a| + |b| + |c| + 3);
    NoPadding(a);
    WordMessage(lx, "", a);
    WordMessage(lx, Pad(m, |a| + 1), b);
    WordMessage(lx, Pad(m, |a| + |b| + 2), c);
    WordMessage(lx, Pad(m, |a| + |b| + |c| + 3), d);
    Assoc(Pad(m, |a| + 1), b, ";");
    Assoc(Pad(m, |a| + |b| + 2), c, ";");
    Assoc(Pad(m, |a| + |b| + |c| + 3), d, ";");
  }

  lemma FourWordsLength(a: Bytes, b: Bytes, c: Bytes, d: Bytes)
    ensures |FourWords(a, b, c, d)| == |a| + |b| + |c| + |d| + 4
  {}

  /** Four units of the kinds of END; BEGIN; ANALYZE; and one more. */
  predicate OpensBlock(lx: Lexis, units: seq<Bytes>) {
    && |units| == 4
    && StatementsOf(lx, units[0]) == [Statement(Commit(false), units[0])] && StatementsOf(lx, units[1]) == [Statement(Begin, units[1])]
    && StatementsOf(lx, units[2]) == [Statement(Work, units[2])] && StatementsOf(lx, units[3]) == [Statement(Work, units[3])]
  }

  lemma OpenBlockUnits(lx: Lexis, last: Bytes)
    requires IsWordToken(last) && Upper(last) == last && (last == "ANALYZE" || last == "VACUUM")
    ensures OpensBlock(lx, ExecutionUnits(lx, FourWords("END", "BEGIN", "ANALYZE", last)))
  {
    hide StatementsOf, KindOf, ExecutionUnits, Upper, TokensOf, IsWordToken, FourWords;
    var units := ExecutionUnits(lx, FourWords("END", "BEGIN", "ANALYZE", last));
    KnownWords();
    UnitsOfScript(lx, "END", "BEGIN", "ANALYZE", last);
    KindOfWord(units[0], "END");
    KindOfWord(units[1], "BEGIN");
    KindOfWord(units[2], "ANALYZE");
    KindOfWord(units[3], last);
  }

  lemma OpenBlockRuns(lx: Lexis, units: seq<Bytes>, fails: bool)
    requires OpensBlock(lx, units)
    ensures var s := Session([], [], Idle);
            if fails then Ran(lx, s, units, FailsAt(3), 3, Session([], [], Aborted)) && Done(After(lx, s, units, FailsAt(3), 3)) == [units[2]]
            else Ran(lx, s, units, NeverFails(), 4, Session([], [units[2], units[3]], InBlock))
  {
    hide StatementsOf, Ran, After, Done;
    OpenBlockIsLost(lx, units, Statement(Commit(false), units[0]), Statement(Begin, units[1]), Statement(Work, units[2]),
      Statement(Work, units[3]), fails);
  }

  /** The last unit, a VACUUM, fails in a block that the second opened: three units
      are counted, and nothing of them is left. */
  lemma CountCanExceedEffects(lx: Lexis)
    ensures var units := ExecutionUnits(lx, FourWords("END", "BEGIN", "ANALYZE", "VACUUM"));
            var s := Session([], [], Idle);
            && |units| == 4
            && Ran(lx, s, units, FailsAt(3), 3, Session([], [], Aborted))
            && Done(After(lx, s, units, FailsAt(3), 3)) == [units[2]]
  {
    hide StatementsOf, Ran, After, Done, ExecutionUnits, Upper, IsWordToken, FourWords;
    KnownWord("VACUUM");
    OpenBlockUnits(lx, "VACUUM");
    OpenBlockRuns(lx, ExecutionUnits(lx, FourWords("END", "BEGIN", "ANALYZE", "VACUUM")), true);
  }

  /** With an ANALYZE in its place every unit runs, all four are counted and the
      deployment succeeds; then Close rolls the open block back. */
  lemma SuccessCanBeRolledBack(lx: Lexis)
    ensures var units := ExecutionUnits(lx, FourWords("END", "BEGIN", "ANALYZE", "ANALYZE"));
            var s := Session([], [], Idle);
            && |units| == 4
            && var session := Session([], [units[2], units[3]], InBlock);
            && Ran(lx, s, units, NeverFails(), 4, session) && Closed(session) == s
  {
    hide StatementsOf, Ran, After, Done, ExecutionUnits, Upper, IsWordToken, FourWords;
    KnownWord("ANALYZE");
    OpenBlockUnits(lx, "ANALYZE");
    OpenBlockRuns(lx, ExecutionUnits(lx, FourWords("END", "BEGIN", "ANALYZE", "ANALYZE")), false);
  }

  // ---- a head that is not atomic ----

  const PREPARE_WORDS := "PREPARE" + (" " + "TRANSACTION")

  const BEFORE_LITERAL := ("BEGIN" + ";") + ("ANALYZE" + ";") + PREPARE_WORDS

  const AFTER_LITERAL := ";" + ("VACUUM" + ";")

  /** PREPARE TRANSACTION ends the block, and VACUUM then fails. */
  const PREPARED := BEFORE_LITERAL + ("'" + ("x" + ("'" + AFTER_LITERAL)))

  const PREPARED_MASK := BEFORE_LITERAL + ("'" + (" " + ("'" + AFTER_LITERAL)))

  lemma PlainParts()
    ensures PlainChars(BEFORE_LITERAL) && PlainChars(AFTER_LITERAL)
    ensures BEFORE_LITERAL != "" && BEFORE_LITERAL[|BEFORE_LITERAL| - 1] == 'N'
  {
    PlainConcat("BEGIN", ";");
    PlainConcat("ANALYZE", ";");
    PlainConcat("VACUUM", ";");
    PlainConcat(" ", "TRANSACTION");
    assert PlainChars(";");
    PlainConcat("PREPARE", " " + "TRANSACTION");
    assert PREPARE_WORDS[|PREPARE_WORDS| - 1] == "TRANSACTION"[10];
    hide PlainChars;
    PlainConcat("BEGIN" + ";", "ANALYZE" + ";");
    PlainConcat(("BEGIN" + ";") + ("ANALYZE" + ";"), PREPARE_WORDS);
    PlainConcat(";", "VACUUM" + ";");
  }

  lemma PreparedIsAscii(a: string, b: string, c: string)
    requires PlainChars(a) && PlainChars(c) && IsAscii(b)
    ensures IsAscii(a + ("'" + (b + ("'" + c))))
  {}

  lemma PreparedMask(lx: Lexis)
    ensures Encode(PREPARED) == PREPARED && Decode(PREPARED) == PREPARED
    ensures Run(Mask, lx, PREPARED) == PREPARED_MASK && Encode(PREPARED_MASK) == PREPARED_MASK
  {
    hide Encode, Decode, Scan, PlainChars, LookAfter;
    PlainParts();
    var a, r := BEFORE_LITERAL, AFTER_LITERAL;
    PreparedIsAscii(a, "x", r);
    PreparedIsAscii(a, " ", r);
    EncodeAscii(PREPARED);
    EncodeAscii(PREPARED_MASK);
    DecodeEncode(PREPARED);
    LookLast(lx, QUIET, a);
    PlainThen(lx, QUIET, a, "'" + ("x" + ("'" + r)));
    EncodeAscii("x");
    LiteralThen(lx, LookAfter(lx, QUIET, a), 'x', r);
    assert ['x'] == "x" && Spaces(1) == " ";
  }

  /** Both texts, with `x` in the literal, statement by statement. */
  lemma PreparedParts(x: string)
    ensures BEFORE_LITERAL + ("'" + (x + ("'" + AFTER_LITERAL))) ==
            ("BEGIN" + ";") + ("ANALYZE" + ";") + (PREPARE_WORDS + ("'" + x + "';")) + ("VACUUM" + ";")
  {
    var a, b := ("BEGIN" + ";") + ("ANALYZE" + ";"), "VACUUM" + ";";
    assert "'" + (x + ("'" + (";" + b))) == ("'" + x + "';") + b by { assert "'" + ";" == "';"; }
    assert (a + PREPARE_WORDS) + (("'" + x + "';") + b) == a + (PREPARE_WORDS + ("'" + x + "';")) + b;
  }

  lemma PrepareTokens()
    ensures Tokens(PREPARE_WORDS + "' '", 0) == ["PREPARE", "TRANSACTION", "'", "'"]
    ensures IsWordToken("PREPARE") && IsWordToken("TRANSACTION") && Upper("PREPARE") == "PREPARE" && Upper("TRANSACTION") == "TRANSACTION"
  {
    hide Upper, IsWordToken, Tokens;
    KnownWord("PREPARE");
    KnownWord("TRANSACTION");
    var tail := " " + "TRANSACTION" + "' '";
    TokenThen("", "PREPARE", tail);
    TokenThen(" ", "TRANSACTION", "' '");
    QuotesAreTokens();
    assert PREPARE_WORDS + "' '" == "" + "PREPARE" + tail;
  }

  lemma QuotesAreTokens()
    ensures Tokens("' '", 0) == ["'", "'"] && Tokens("'  '", 0) == ["'", "'"]
  {
    assert "' '"[1..] == " '" && " '"[1..] == "'" && "'"[1..] == "" && "'  '"[1..] == "  '" && "  '"[1..] == " '";
    assert "' '"[..1] == "'" && "'"[..1] == "'" && "'  '"[..1] == "'";
  }

  /** Neither splitter nor server opens a body there. */
  lemma PrepareOpensNothing()
    ensures ObserveChunk(false, PREPARE_WORDS + "' '").0 && !OpensBody(PREPARE_WORDS + "' '")
  {
    hide FirstWord, Upper, Tokens, IsWordToken, AfterBeginAtomic;
    PrepareTokens();
    var tail := " " + "TRANSACTION" + "' '";
    SearchStep(PREPARE_WORDS + "' '");
    SearchStep(tail);
    SearchStep("' '");
    LeadingWord("", "PREPARE", tail);
    LeadingWord(" ", "TRANSACTION", "' '");
    NoWords("' '");
    assert PREPARE_WORDS + "' '" == "" + "PREPARE" + tail;
  }

  lemma PrepareIsSimple(m: Bytes, at: nat)
    requires at + 22 < |m| && m[at..at + 23] == PREPARE_WORDS + "' ';"
    ensures IsSimple(m, at, at + 22) && ObserveChunk(false, m[at..at + 22]).0
    ensures KindOf(m[at..at + 23]) == Prepare && !IsTransactionTerminator(m[at..at + 23])
  {
    hide Tokens, IsTransactionTerminator, ObserveChunk, OpensBody;
    var t := PREPARE_WORDS + "' ';";
    PrepareTokens();
    PrepareOpensNothing();
    assert |PREPARE_WORDS| == 19 && "' ';" == "' '" + ";" && t == (PREPARE_WORDS + "' '") + ";";
    assert Bare(t) == PREPARE_WORDS + "' '";
    assert m[at..at + 22] == t[..22] == PREPARE_WORDS + "' '";
    assert m[at + 22] == t[22];
    forall k | at <= k < at + 22 ensures m[k] != '(' && m[k] != ')' && m[k] != ';' {
      assert m[k] == (PREPARE_WORDS + "' '")[k - at];
      PrepareChars(k - at);
    }
    PrepareKind(TokensOf(m[at..at + 23]));
    SplitterAgrees(m[at..at + 23]);
  }

  lemma PrepareKind(ts: seq<Bytes>)
    requires ts == ["PREPARE", "TRANSACTION", "'", "'"]
    ensures KindOfTokens(ts) == Prepare
  {
    assert ts[2..] == ["'", "'"];
  }

  lemma PrepareChars(k: nat)
    requires k < 22
    ensures var c := (PREPARE_WORDS + "' '")[k]; c != '(' && c != ')' && c != ';'
  {}

  /** The statements of the message, and that it has no terminator. */
  lemma PreparedStatements(src: Bytes, m: Bytes, x: Bytes)
    requires |x| == 1
    requires src == ("BEGIN" + ";") + ("ANALYZE" + ";") + (PREPARE_WORDS + ("'" + x + "';")) + ("VACUUM" + ";")
    requires m == ("BEGIN" + ";") + ("ANALYZE" + ";") + (PREPARE_WORDS + "' ';") + ("VACUUM" + ";")
    ensures StatementsFrom(src, m, ServerPieces(m, 0)) ==
            [Statement(Begin, "BEGIN" + ";"), Statement(Work, "ANALYZE" + ";"),
             Statement(Prepare, PREPARE_WORDS + ("'" + x + "';")), Statement(Work, "VACUUM" + ";")]
    ensures HeadEnd(m, 0) == 0
  {
    hide TailUnits, HeadEnd, StatementsFrom, ServerPieces, KindOf, TokensOf, Upper, IsTransactionTerminator, IsSimple, IsWordToken, Pad,
         ObserveChunk;
    KnownWords();
    FourParts("BEGIN" + ";", "ANALYZE" + ";", PREPARE_WORDS + ("'" + x + "';"), "VACUUM" + ";");
    FourParts("BEGIN" + ";", "ANALYZE" + ";", PREPARE_WORDS + "' ';", "VACUUM" + ";");
    WordStep(src, m, 0, "BEGIN");
    KindOfWord(m[0..6], "BEGIN");
    WordStep(src, m, 6, "ANALYZE");
    KindOfWord(m[6..14], "ANALYZE");
    PrepareIsSimple(m, 14);
    SimpleStep(src, m, 14, 36);
    ServerStep(src, m, 14, 36);
    WordStep(src, m, 37, "VACUUM");
    KindOfWord(m[37..44], "VACUUM");
    NothingAtEnd(src, m);
  }

  lemma PreparedUnits(lx: Lexis)
    ensures ExecutionUnits(lx, PREPARED) == [PREPARED]
    ensures StatementsOf(lx, PREPARED) ==
            [Statement(Begin, "BEGIN" + ";"), Statement(Work, "ANALYZE" + ";"),
             Statement(Prepare, PREPARE_WORDS + ("'" + "x" + "';")), Statement(Work, "VACUUM" + ";")]
  {
    PreparedMask(lx);
    PreparedParts("x");
    PreparedParts(" ");
    assert "'" + " " + "';" == "' ';";
    hide Encode, Decode, Run, HeadEnd, TailUnits, StatementsFrom, ServerPieces;
    PreparedStatements(PREPARED, PREPARED_MASK, "x");
  }

  lemma RunFour(s: Session, a: Statement, b: Statement, c: Statement, d: Statement)
    requires s == Session([], [], Idle) && a.kind.Begin? && b.kind.Work? && c.kind.Prepare?
    ensures RunMessage(s, [a, b, c, d], 3) == Reply(Failure(Session([b.text], [], Idle), d), false)
  {
    var s1, s2, s3 := Effect(s, a), Effect(Effect(s, a), b), Effect(Effect(Effect(s, a), b), c);
    assert [a, b, c, d][1..] == [b, c, d] && [b, c, d][1..] == [c, d] && [c, d][1..] == [d];
    assert RunMessage(s3, [d], 0) == Reply(Failure(s3, d), false);
    assert RunMessage(s2, [c, d], 1) == RunMessage(s3, [d], 0);
    assert RunMessage(s1, [b, c, d], 2) == RunMessage(s2, [c, d], 1);
    assert [] + [b.text] == [b.text];
  }

  /** The script is one unit, sent in atomic mode; its last statement fails and
      what was prepared before stays. */
  lemma FailingHeadCanKeepWork(lx: Lexis)
    ensures var units := ExecutionUnits(lx, PREPARED);
            var s, fates := Session([], [], Idle), AlwaysAt(3);
            && |units| == 1 && !KeepsNothingEarly(lx, units, 0)
            && !Runs(lx, s, units, fates, 0) && After(lx, s, units, fates, 1).durable == ["ANALYZE" + ";"]
  {
    PreparedUnits(lx);
    hide StatementsOf, RunMessage, ExecutionUnits;
    var units := ExecutionUnits(lx, PREPARED);
    var s, fates := Session([], [], Idle), AlwaysAt(3);
    var stmts := StatementsOf(lx, PREPARED);
    RunFour(s, stmts[0], stmts[1], stmts[2], stmts[3]);
    assert After(lx, s, units, fates, 0) == s;
    assert After(lx, s, units, fates, 1) == RunMessage(s, stmts, 3).session;
    PreparesSomething(stmts);
  }

  lemma PreparesSomething(stmts: seq<Statement>)
    requires |stmts| == 4 && stmts[0].kind.Begin? && stmts[1].kind.Work? && stmts[2].kind.Prepare?
    ensures !KeepsNothing(Track(false, false), stmts)
  {
    assert stmts[1..][0] == stmts[1] && stmts[1..][1..][0] == stmts[2] && |stmts[1..][1..]| == 2;
    assert !KeepsNothing(Track(true, true), stmts[1..][1..]);
  }

  // ---- a query that the splitter takes for a routine body ----

  const ATOMIC_COLUMN := " " + ("BEGIN" + (" " + ("ATOMIC" + (" " + ("FROM" + (" " + "T"))))))

  /** A column called begin, with the alias atomic; VACUUM then fails. */
  const BODYLIKE := (("SELECT" + ATOMIC_COLUMN) + ";") + ("ANALYZE" + ";") + ("COMMIT" + ";") + ("VACUUM" + ";")

  lemma AtomicColumnWords()
    ensures IsWordToken("SELECT") && IsWordToken("BEGIN") && IsWordToken("ATOMIC") && IsWordToken("FROM") && IsWordToken("T")
    ensures IsWordToken("COMMIT") && Upper("COMMIT") == "COMMIT"
    ensures Upper("SELECT") == "SELECT" && Upper("BEGIN") == "BEGIN" && Upper("ATOMIC") == "ATOMIC" && Upper("FROM") == "FROM" && Upper("T") == "T"
  {
    KnownWord("SELECT");
    KnownWord("BEGIN");
    KnownWord("ATOMIC");
    KnownWord("FROM");
    KnownWord("T");
    KnownWord("COMMIT");
  }

  /** A word behind one blank. */
  lemma SpacedWord(w: Bytes, rest: Bytes)
    requires IsWordToken(w) && EndsWord(rest)
    ensures FirstWord(" " + (w + rest)) == (Upper(w), rest) && LeadingSpaceOnly(" " + (w + rest))
  {
    hide FirstWord, Upper;
    LeadingWord(" ", w, rest);
    assert " " + w + rest == " " + (w + rest);
    assert (" " + (w + rest))[1..] == w + rest && (w + rest)[0] == w[0];
  }

  /** The splitter takes it for the start of a body. */
  lemma SplitterOpensBody()
    ensures ObserveChunk(false, "SELECT" + ATOMIC_COLUMN) == (false, true)
  {
    hide FirstWord, Upper, IsWordToken, AfterBeginAtomic, ClosesBody, LeadingSpaceOnly;
    AtomicColumnWords();
    var t := " " + "T";
    var from := " " + ("FROM" + t);
    var atomic := " " + ("ATOMIC" + from);
    LeadingWord("", "SELECT", ATOMIC_COLUMN);
    assert "" + "SELECT" + ATOMIC_COLUMN == "SELECT" + ATOMIC_COLUMN;
    SpacedWord("BEGIN", atomic);
    SpacedWord("ATOMIC", from);
    SpacedWord("FROM", t);
    SpacedWord("T", "");
    NoWords("");
    assert " " + ("T" + "") == t;
    SearchStep("SELECT" + ATOMIC_COLUMN);
    SearchStep(ATOMIC_COLUMN);
    ClosesStep(from);
    ClosesStep(t);
    ClosesStep("");
  }

  /** The server does not: the statement does not start with CREATE. */
  lemma ServerReadsQuery()
    ensures !OpensBody("SELECT" + ATOMIC_COLUMN)
    ensures TokensOf(("SELECT" + ATOMIC_COLUMN) + ";") != [] && KindOf(("SELECT" + ATOMIC_COLUMN) + ";") == Work
  {
    hide Upper, Tokens, IsWordToken;
    AtomicColumnWords();
    TokenThen("", "SELECT", ATOMIC_COLUMN);
    assert "" + "SELECT" + ATOMIC_COLUMN == "SELECT" + ATOMIC_COLUMN;
    assert Bare(("SELECT" + ATOMIC_COLUMN) + ";") == "SELECT" + ATOMIC_COLUMN;
  }

  lemma ColumnIsPlain()
    ensures PlainChars("SELECT" + ATOMIC_COLUMN) && ';' !in "SELECT" + ATOMIC_COLUMN && |ATOMIC_COLUMN| == 20
  {
    PlainConcat(" ", "T");
    PlainConcat("FROM", " " + "T");
    PlainConcat(" ", "FROM" + (" " + "T"));
    PlainConcat("ATOMIC", " " + ("FROM" + (" " + "T")));
    assert PlainChars(" ") && PlainChars("BEGIN") && PlainChars("SELECT");
    assert ';' !in ATOMIC_COLUMN;
  }

  lemma BodylikeIsPlain()
    ensures PlainChars(BODYLIKE) && |ATOMIC_COLUMN| == 20
    ensures PlainChars("SELECT" + ATOMIC_COLUMN) && ';' !in "SELECT" + ATOMIC_COLUMN
  {
    ColumnIsPlain();
    PlainConcat("ANALYZE", ";");
    PlainConcat("COMMIT", ";");
    PlainConcat("VACUUM", ";");
    assert PlainChars(";");
    hide PlainChars;
    var first := "SELECT" + ATOMIC_COLUMN;
    PlainConcat(first, ";");
    PlainConcat(first + ";", "ANALYZE" + ";");
    PlainConcat((first + ";") + ("ANALYZE" + ";"), "COMMIT" + ";");
    PlainConcat((first + ";") + ("ANALYZE" + ";") + ("COMMIT" + ";"), "VACUUM" + ";");
  }

  /** A chunk of one word without padding, up to its semicolon. */
  lemma ChunkInBody(m: Bytes, at: nat, w: Bytes)
    requires IsWordToken(w) && Upper(w) != "END" && at + |w| < |m| && m[at..at + |w| + 1] == w + ";"
    ensures FindEnd(m, at, at, 0, true) == FindEnd(m, at + |w| + 1, at + |w| + 1, 0, true)
  {
    hide FindEnd, Upper, FirstWord;
    var e := at + |w|;
    assert m[at..e] == m[at..e + 1][..|w|] == w && m[e] == m[at..e + 1][|w|];
    forall k | at <= k < e ensures m[k] != '(' && m[k] != ')' && m[k] != ';' {
      assert m[k] == m[at..e][k - at] == w[k - at];
    }
    LeadingWord("", w, "");
    assert "" + w + "" == w;
    ScanToSemicolon(m, at, at, e, true);
  }

  lemma BodylikeParts(m: Bytes)
    requires m == BODYLIKE
    ensures |m| == 49 && m[0..26] == "SELECT" + ATOMIC_COLUMN && m[0..27] == ("SELECT" + ATOMIC_COLUMN) + ";" && m[26] == ';'
    ensures m[27..35] == "ANALYZE" + ";" && m[35..42] == "COMMIT" + ";" && m[42..49] == "VACUUM" + ";"
    ensures forall k :: 0 <= k < 26 ==> m[k] != '(' && m[k] != ')' && m[k] != ';'
  {
    hide PlainChars;
    BodylikeIsPlain();
    FourParts(("SELECT" + ATOMIC_COLUMN) + ";", "ANALYZE" + ";", "COMMIT" + ";", "VACUUM" + ";");
    var first := ("SELECT" + ATOMIC_COLUMN) + ";";
    assert |first| == 27 && m[0..27] == first;
    assert m[0..26] == m[0..27][..26] && m[26] == m[0..27][26];
    forall k | 0 <= k < 26 ensures m[k] != '(' && m[k] != ')' && m[k] != ';' {
      assert m[k] == m[0..27][k] == first[k] == ("SELECT" + ATOMIC_COLUMN)[k];
      PlainAt("SELECT" + ATOMIC_COLUMN, k);
    }
  }

  lemma PlainAt(s: string, k: nat)
    requires PlainChars(s) && k < |s| && ';' !in s
    ensures s[k] != '(' && s[k] != ')' && s[k] != ';'
  {}

  /** The splitter never finds an END for what it takes for a body. */
  lemma BodylikeIsOneUnit(m: Bytes)
    requires m == BODYLIKE
    ensures Units(m, m) == [m]
  {
    hide FindEnd, Upper, IsWordToken, ObserveChunk, HeadEnd;
    BodylikeParts(m);
    KnownWords();
    AtomicColumnWords();
    SplitterOpensBody();
    ScanToSemicolon(m, 0, 0, 26, false);
    ChunkInBody(m, 27, "ANALYZE");
    ChunkInBody(m, 35, "COMMIT");
    ChunkInBody(m, 42, "VACUUM");
    FindEndStep(m, 49, 49, 0, true);
    SingleStatement(m, m);
  }

  lemma ServerWord(m: Bytes, at: nat, w: Bytes)
    requires IsWordToken(w) && at + |w| < |m| && m[at..at + |w| + 1] == w + ";"
    ensures var e := at + |w| + 1;
            && StatementsFrom(m, m, ServerPieces(m, at)) == [Statement(KindOf(m[at..e]), m[at..e])] + StatementsFrom(m, m, ServerPieces(m, e))
            && TokensOf(m[at..e]) == [Upper(w)]
  {
    hide TailUnits, HeadEnd, StatementsFrom, ServerPieces, KindOf, TokensOf, Upper, IsWordToken, Pad, IsEndKeyword;
    WordStep(m, m, at, w);
  }

  /** Three statements of one word each, up to the end. */
  lemma ThreeWordStatements(m: Bytes, at: nat, a: Bytes, b: Bytes, c: Bytes)
    requires IsWordToken(a) && IsWordToken(b) && IsWordToken(c) && |m| == at + |a| + |b| + |c| + 3
    requires var j, k := at + |a| + 1, at + |a| + |b| + 2;
             m[at..j] == a + ";" && m[j..k] == b + ";" && m[k..|m|] == c + ";"
    ensures var j, k := at + |a| + 1, at + |a| + |b| + 2;
            && StatementsFrom(m, m, ServerPieces(m, at)) ==
               [Statement(KindOf(m[at..j]), m[at..j]), Statement(KindOf(m[j..k]), m[j..k]), Statement(KindOf(m[k..|m|]), m[k..|m|])]
            && TokensOf(m[at..j]) == [Upper(a)] && TokensOf(m[j..k]) == [Upper(b)] && TokensOf(m[k..|m|]) == [Upper(c)]
  {
    hide TailUnits, HeadEnd, StatementsFrom, ServerPieces, KindOf, TokensOf, Upper, IsWordToken, Pad, IsEndKeyword;
    var j, k := at + |a| + 1, at + |a| + |b| + 2;
    ServerWord(m, at, a);
    ServerWord(m, j, b);
    ServerWord(m, k, c);
    NothingAtEnd(m, m);
    assert StatementsFrom(m, m, ServerPieces(m, k)) == [Statement(KindOf(m[k..|m|]), m[k..|m|])];
  }

  lemma KnownKinds(a: Bytes, b: Bytes, c: Bytes)
    requires TokensOf(a) == ["ANALYZE"] && TokensOf(b) == ["COMMIT"] && TokensOf(c) == ["VACUUM"]
    ensures KindOf(a) == Work && KindOf(b) == Commit(false) && KindOf(c) == Work
  {
    hide TokensOf;
    assert ["ANALYZE"][1..] == [] && ["COMMIT"][1..] == [] && ["VACUUM"][1..] == [];
  }

  /** The server runs four statements. */
  lemma BodylikeStatements(m: Bytes)
    requires |m| == 49 && IsSimple(m, 0, 26) && KindOf(m[0..27]) == Work
    requires m[27..35] == "ANALYZE" + ";" && m[35..42] == "COMMIT" + ";" && m[42..49] == "VACUUM" + ";"
    ensures StatementsFrom(m, m, ServerPieces(m, 0)) ==
            [Statement(Work, m[0..27]), Statement(Work, m[27..35]), Statement(Commit(false), m[35..42]), Statement(Work, m[42..49])]
  {
    hide StatementsFrom, ServerPieces, KindOf, TokensOf, Upper, IsSimple, IsWordToken;
    KnownWords();
    AtomicColumnWords();
    ThreeWordStatements(m, 27, "ANALYZE", "COMMIT", "VACUUM");
    KnownKinds(m[27..35], m[35..42], m[42..49]);
    ServerStep(m, m, 0, 26);
  }

  lemma QueryIsSimple(m: Bytes)
    requires m == BODYLIKE
    ensures IsSimple(m, 0, 26) && KindOf(m[0..27]) == Work
  {
    hide TokensOf, OpensBody, KindOfTokens;
    BodylikeParts(m);
    ServerReadsQuery();
  }

  lemma BodylikeUnits(lx: Lexis)
    ensures ExecutionUnits(lx, BODYLIKE) == [BODYLIKE]
    ensures StatementsOf(lx, BODYLIKE) ==
            [Statement(Work, BODYLIKE[0..27]), Statement(Work, BODYLIKE[27..35]),
             Statement(Commit(false), BODYLIKE[35..42]), Statement(Work, BODYLIKE[42..49])]
  {
    hide Encode, Decode, Run, Units, StatementsFrom, ServerPieces, PlainChars;
    BodylikeIsPlain();
    PlainText(lx, BODYLIKE);
    BodylikeParts(BODYLIKE);
    BodylikeIsOneUnit(BODYLIKE);
    QueryIsSimple(BODYLIKE);
    BodylikeStatements(BODYLIKE);
  }

  lemma RunWithCommit(s: Session, a: Statement, b: Statement, c: Statement, d: Statement)
    requires s == Session([], [], Idle) && a.kind.Work? && b.kind.Work? && c.kind == Commit(false)
    ensures RunMessage(s, [a, b, c, d], 3) == Reply(Failure(Session([a.text, b.text], [], Idle), d), false)
    ensures !KeepsNothing(Track(false, false), [a, b, c, d])
  {
    var s1, s2, s3 := Session([], [a.text], Idle), Session([], [a.text, b.text], Idle), Session([a.text, b.text], [], Idle);
    assert [a, b, c, d][1..] == [b, c, d] && [b, c, d][1..] == [c, d] && [c, d][1..] == [d];
    assert Effect(s, a) == s1 && Effect(s1, b) == s2 && Effect(s2, c) == s3;
    assert RunMessage(s3, [d], 0) == Reply(Failure(s3, d), false);
    assert RunMessage(s2, [c, d], 1) == RunMessage(s3, [d], 0);
    assert RunMessage(s1, [b, c, d], 2) == RunMessage(s2, [c, d], 1);
    assert !KeepsNothing(Track(false, true), [c, d]);
    assert !KeepsNothing(Track(false, true), [b, c, d]);
  }

  /** The script is one unit, sent in atomic mode; its last statement fails, and what
      the COMMIT before it made durable stays. */
  lemma QueryCanReadAsBody(lx: Lexis)
    ensures var units := ExecutionUnits(lx, BODYLIKE);
            var s, fates := Session([], [], Idle), AlwaysAt(3);
            && |units| == 1 && !KeepsNothingEarly(lx, units, 0)
            && !Runs(lx, s, units, fates, 0)
            && After(lx, s, units, fates, 1).durable == [BODYLIKE[0..27], "ANALYZE" + ";"]
  {
    BodylikeUnits(lx);
    BodylikeParts(BODYLIKE);
    hide StatementsOf, RunMessage, ExecutionUnits, KeepsNothing;
    var units := ExecutionUnits(lx, BODYLIKE);
    var s, fates := Session([], [], Idle), AlwaysAt(3);
    var stmts := StatementsOf(lx, BODYLIKE);
    RunWithCommit(s, stmts[0], stmts[1], stmts[2], stmts[3]);
    assert After(lx, s, units, fates, 0) == s;
    assert After(lx, s, units, fates, 1) == RunMessage(s, stmts, 3).session;
  }

  /** Splitter and server do not cut it alike. */
  lemma BodylikeIsNotAlike(lx: Lexis)
    ensures !ReadAlike(lx, Encode(BODYLIKE))
  {
    hide StatementsOf, ExecutionUnits, ScriptUnits, ReadAlike, Encode, Runs, After;
    BodylikeUnits(lx);
    QueryCanReadAsBody(lx);
    UnitsOfText(lx, BODYLIKE);
    if ReadAlike(lx, Encode(BODYLIKE)) {
      ScriptKeepsNothingEarly(lx, BODYLIKE, 0);
    }
  }

  // ---- a column that shifts ----

  const BEFORE_ACCENT := ("END" + ";") + "SELECT"

  /** The padding of the last statement counts the two bytes of the accented letter. */
  const ACCENTED := BEFORE_ACCENT + ("'" + (['\U{E9}'] + ("'" + AFTER_LITERAL)))

  /** The script or its mask, with `x` in the literal, statement by statement. */
  lemma AccentedParts(x: string)
    ensures BEFORE_ACCENT + ("'" + (x + ("'" + AFTER_LITERAL))) == ("END" + ";") + ("SELECT" + ("'" + x + "';")) + ("VACUUM" + ";")
  {
    var a, b := "END" + ";", "VACUUM" + ";";
    assert "'" + (x + ("'" + (";" + b))) == ("'" + x + "';") + b by { assert "'" + ";" == "';"; }
    assert (a + "SELECT") + (("'" + x + "';") + b) == a + ("SELECT" + ("'" + x + "';")) + b;
  }

  lemma AccentedIsPlain()
    ensures PlainChars(BEFORE_ACCENT) && PlainChars(AFTER_LITERAL)
    ensures BEFORE_ACCENT != "" && BEFORE_ACCENT[|BEFORE_ACCENT| - 1] == 'T'
  {
    PlainConcat("END", ";");
    PlainConcat("VACUUM", ";");
    assert PlainChars("SELECT") && PlainChars(";") && BEFORE_ACCENT[|BEFORE_ACCENT| - 1] == "SELECT"[5];
    hide PlainChars;
    PlainConcat("END" + ";", "SELECT");
    PlainConcat(";", "VACUUM" + ";");
  }

  lemma EncodePlain(a: string)
    requires PlainChars(a)
    ensures Encode(a) == a && Encode("'") == "'"
  {
    hide Encode;
    assert IsAscii(a) && IsAscii("'");
    EncodeAscii(a);
    EncodeAscii("'");
  }

  lemma EncodeAccent()
    ensures |Encode(['\U{E9}'])| == 2
  {
    assert ['\U{E9}'][1..] == "";
  }

  lemma AccentedBytes()
    ensures Encode(ACCENTED) == BEFORE_ACCENT + ("'" + (Encode(['\U{E9}']) + ("'" + AFTER_LITERAL)))
  {
    hide Encode, PlainChars;
    AccentedIsPlain();
    EncodePlain(BEFORE_ACCENT);
    EncodePlain(AFTER_LITERAL);
    EncodeConcat("'", AFTER_LITERAL);
    EncodeConcat(['\U{E9}'], "'" + AFTER_LITERAL);
    EncodeConcat("'", ['\U{E9}'] + ("'" + AFTER_LITERAL));
    EncodeConcat(BEFORE_ACCENT, "'" + (['\U{E9}'] + ("'" + AFTER_LITERAL)));
  }

  lemma AccentedMask(lx: Lexis)
    ensures Encode(Run(Mask, lx, ACCENTED)) == BEFORE_ACCENT + ("'" + (Spaces(2) + ("'" + AFTER_LITERAL)))
  {
    hide Encode, Scan, PlainChars, LookAfter;
    AccentedIsPlain();
    EncodeAccent();
    LookLast(lx, QUIET, BEFORE_ACCENT);
    PlainThen(lx, QUIET, BEFORE_ACCENT, "'" + (['\U{E9}'] + ("'" + AFTER_LITERAL)));
    LiteralThen(lx, LookAfter(lx, QUIET, BEFORE_ACCENT), '\U{E9}', AFTER_LITERAL);
    var mask := BEFORE_ACCENT + ("'" + (Spaces(2) + ("'" + AFTER_LITERAL)));
    AsciiMask(BEFORE_ACCENT, Spaces(2), AFTER_LITERAL);
    EncodeAscii(mask);
  }

  lemma AsciiMask(a: string, b: string, c: string)
    requires PlainChars(a) && PlainChars(c) && IsAscii(b)
    ensures IsAscii(a + ("'" + (b + ("'" + c))))
  {}

  lemma SelectIsSimple(m: Bytes)
    requires |m| == 22 && m[4..15] == "SELECT" + ("'" + Spaces(2) + "';")
    ensures IsSimple(m, 4, 14) && ObserveChunk(false, m[4..14]).0
  {
    hide Tokens, Upper, FirstWord, IsWordToken, AfterBeginAtomic;
    SearchStep("SELECT" + ("'" + Spaces(2) + "'"));
    SearchStep("'" + Spaces(2) + "'");
    var t := "SELECT" + ("'" + Spaces(2) + "';");
    var rest := "'" + Spaces(2) + "'";
    assert t == "SELECT" + rest + ";" by { assert "';" == "'" + ";"; }
    assert m[4..14] == m[4..15][..10] == "SELECT" + rest;
    assert m[14] == m[4..15][10];
    assert NoLetters(rest) && Bare(t) == "SELECT" + rest;
    KnownWord("SELECT");
    LeadingWord("", "SELECT", rest);
    NoWords(rest);
    TokenThen("", "SELECT", rest);
    assert "" + "SELECT" + rest == "SELECT" + rest;
    forall k | 4 <= k < 14 ensures m[k] != '(' && m[k] != ')' && m[k] != ';' {
      assert m[k] == ("SELECT" + rest)[k - 4];
    }
  }

  lemma ThreeParts(a: string, b: string, c: string)
    ensures var s := a + b + c;
            && s[0..|a|] == s[..|a|] == a && s[|a|..|a| + |b|] == b && s[|a| + |b|..|s|] == s[|a| + |b|..] == c
            && |s| == |a| + |b| + |c|
  {}

  lemma AccentedUnits(src: Bytes, m: Bytes, x: Bytes)
    requires |x| == 2
    requires src == ("END" + ";") + ("SELECT" + ("'" + x + "';")) + ("VACUUM" + ";")
    requires m == ("END" + ";") + ("SELECT" + ("'" + Spaces(2) + "';")) + ("VACUUM" + ";")
    ensures Units(src, m) == [src[..4], Pad(src, 4) + src[4..15], Pad(src, 15) + ("VACUUM" + ";")]
  {
    hide Pad, TailUnits, HeadEnd, StatementsFrom, ServerPieces, KindOf, TokensOf, Upper, IsTransactionTerminator, IsSimple, IsWordToken,
         ObserveChunk;
    KnownWords();
    ThreeParts("END" + ";", "SELECT" + ("'" + x + "';"), "VACUUM" + ";");
    ThreeParts("END" + ";", "SELECT" + ("'" + Spaces(2) + "';"), "VACUUM" + ";");
    WordStep(src, m, 0, "END");
    SelectIsSimple(m);
    SimpleStep(src, m, 4, 14);
    WordStep(src, m, 15, "VACUUM");
    NothingAtEnd(src, m);
    assert m[4..][0] == m[4..15][0] == 'S';
  }

  /** The last unit starts in column 15 of the script and in column 16 behind its
      padding, on the same line. */
  lemma ColumnsCanShift(lx: Lexis)
    ensures var unit := Pad(Encode(ACCENTED), 15) + ("VACUUM" + ";");
            && |ExecutionUnits(lx, ACCENTED)| == 3 && ExecutionUnits(lx, ACCENTED)[2] == unit
            && ACCENTED[14..] == "VACUUM" + ";" && |Pad(Encode(ACCENTED), 15)| == 15
            && Positions.LineAt(unit, 15) == Positions.LineAt(ACCENTED, 14) == 1
            && Positions.ColumnAt(unit, 15) == 16 && Positions.ColumnAt(ACCENTED, 14) == 15
  {
    hide Encode, Run, Units, Pad, LastLine, Newlines;
    AccentedBytes();
    AccentedMask(lx);
    EncodeAccent();
    AccentedParts(Encode(['\U{E9}']));
    AccentedParts(Spaces(2));
    AccentedUnits(Encode(ACCENTED), Encode(Run(Mask, lx, ACCENTED)), Encode(['\U{E9}']));
    AccentedPlace();
  }

  lemma OneLine(s: string)
    requires '\n' !in s
    ensures Newlines(s) == 0 && LastLine(s) == |s|
  {
    Positions.NoNewlines(s);
    Positions.LastLineOfOne(s);
  }

  lemma AccentedPlace()
    ensures ACCENTED[14..] == "VACUUM" + ";" && |Pad(Encode(ACCENTED), 15)| == 15
    ensures var unit := Pad(Encode(ACCENTED), 15) + ("VACUUM" + ";");
            && Positions.LineAt(unit, 15) == Positions.LineAt(ACCENTED, 14) == 1
            && Positions.ColumnAt(unit, 15) == 16 && Positions.ColumnAt(ACCENTED, 14) == 15
  {
    hide Encode, LastLine, Newlines;
    var src := Encode(ACCENTED);
    AccentedBytes();
    EncodeAccent();
    AccentedHead();
    AccentedParts(['\U{E9}']);
    ThreeParts("END" + ";", "SELECT" + ("'" + ['\U{E9}'] + "';"), "VACUUM" + ";");
    OneLine(ACCENTED[..14]);
    OneLine(src[..15]);
    OneLine(Spaces(15));
    assert Pad(src, 15) == Spaces(15);
    assert (Pad(src, 15) + ("VACUUM" + ";"))[..15] == Spaces(15);
  }

  lemma AccentedHead()
    ensures |ACCENTED| == 21 && '\n' !in ACCENTED[..14]
    ensures |Encode(ACCENTED)| == 22 && '\n' !in Encode(ACCENTED)[..15]
  {
    hide Encode;
    AccentedBytes();
    EncodeAccent();
    AccentByte();
    AccentedParts(['\U{E9}']);
    AccentedParts(Encode(['\U{E9}']));
    ThreeParts("END" + ";", "SELECT" + ("'" + ['\U{E9}'] + "';"), "VACUUM" + ";");
    ThreeParts("END" + ";", "SELECT" + ("'" + Encode(['\U{E9}']) + "';"), "VACUUM" + ";");
    NoNewlineIn(['\U{E9}']);
    NoNewlineIn(Encode(['\U{E9}']));
    assert ACCENTED[..14] == ("END" + ";") + ("SELECT" + ("'" + ['\U{E9}'] + "';"));
    assert Encode(ACCENTED)[..15] == ("END" + ";") + ("SELECT" + ("'" + Encode(['\U{E9}']) + "';"));
  }

  lemma AccentByte()
    ensures '\n' !in Encode(['\U{E9}'])
  {
    assert ['\U{E9}'][1..] == "";
  }

  lemma NoNewlineIn(x: string)
    requires '\n' !in x
    ensures '\n' !in ("END" + ";") + ("SELECT" + ("'" + x + "';"))
  {}
}
