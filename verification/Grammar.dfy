/** The lexical grammar of SQL as sections 4.1.1 to 4.1.5 of the PostgreSQL
    documentation give it, element by element, and the proof that both scanners
    follow it: every text is a sequence of elements, and what a scanner writes is
    what the grammar says for each of them.  Nothing in the grammar refers to the
    states or the steps of the scanner. */
module Grammar {
  import opened Text
  import opened Sequences
  import opened Lexer
  import opened Cuts

  // ---- the grammar ----

  /** Anything but a plain character may be unterminated: `closed` is then false, or
      `lineEnd` empty.  The body of a block comment holds its final delimiter. */
  datatype Element =
    | Character(c: char)
    | DollarQuoted(tag: string, body: string, closed: bool)
    | Constant(escapes: bool, body: string, closed: bool)
    | QuotedName(body: string, closed: bool)
    | LineRemark(body: string, lineEnd: string)
    | BlockRemark(body: string, closed: bool)

  function SourceOf(e: Element): string {
    match e
    case Character(c) => [c]
    case DollarQuoted(tag, body, closed) => tag + (body + if closed then tag else "")
    case Constant(_, body, closed) => "'" + (body + if closed then "'" else "")
    case QuotedName(body, closed) => "\"" + (body + if closed then "\"" else "")
    case LineRemark(body, lineEnd) => "--" + (body + lineEnd)
    case BlockRemark(body, _) => "/*" + body
  }

  /** A dollar sign, possibly a name without dollar signs, and a dollar sign. */
  predicate IsDelimiter(lx: Lexis, t: string) {
    && |t| >= 2 && t[0] == '$' && t[|t| - 1] == '$'
    && forall i :: 0 < i < |t| - 1 ==> IsTagChar(lx, t[i], i == 1)
  }

  predicate StartsDelimiter(lx: Lexis, s: string) {
    exists n: nat :: n <= |s| && IsDelimiter(lx, s[..n])
  }

  predicate OccursAt(t: string, s: string, k: nat) { k <= |s| && t <= s[k..] }

  /** `t` occurs nowhere in `s` before offset `n`. */
  predicate Avoids(t: string, s: string, n: nat) { forall k: nat :: k < n ==> !OccursAt(t, s, k) }

  /** The text before a quote makes it open an escape string: an E that does not
      continue an identifier. */
  predicate OpensEscapes(lx: Lexis, before: string) {
    && before != "" && (before[|before| - 1] == 'E' || before[|before| - 1] == 'e')
    && (|before| > 1 ==> !IsIdentifier(lx, before[|before| - 2]))
  }

  /** Between quotes `q`: every quote is doubled, and where a backslash escapes it
      takes one character with it. */
  predicate QuotedBody(s: string, q: char, escapes: bool, closed: bool)
    decreases |s|
  {
    if s == "" then true
    else if escapes && s[0] == '\\' then (if |s| == 1 then !closed else QuotedBody(s[2..], q, escapes, closed))
    else if s[0] == q then |s| > 1 && s[1] == q && QuotedBody(s[2..], q, escapes, closed)
    else QuotedBody(s[1..], q, escapes, closed)
  }

  /** The rest of a block comment, `depth` of which are open: all of them are closed at
      its end and not before, or never. */
  predicate CommentBody(s: string, depth: nat, closed: bool)
    requires depth >= 1
    decreases |s|
  {
    if |s| < 2 then !closed
    else if s[0] == '/' && s[1] == '*' then CommentBody(s[2..], depth + 1, closed)
    else if s[0] == '*' && s[1] == '/' then
      (if depth == 1 then closed && |s| == 2 else CommentBody(s[2..], depth - 1, closed))
    else CommentBody(s[1..], depth, closed)
  }

  /** `e` is an element between the texts `before` and `rest`. */
  predicate IsElement(lx: Lexis, before: string, e: Element, rest: string) {
    match e
    case Character(c) =>
      && c != '\'' && c != '"' && !(c == '-' && At(rest, 0, '-')) && !(c == '/' && At(rest, 0, '*'))
      && !(c == '$' && StartsDelimiter(lx, [c] + rest))
    case DollarQuoted(tag, body, closed) =>
      && IsDelimiter(lx, tag) && (closed || rest == "")
      && Avoids(tag, body + if closed then tag else "", |body|)
    case Constant(escapes, body, closed) =>
      && escapes == OpensEscapes(lx, before) && QuotedBody(body, '\'', escapes, closed)
      && if closed then !At(rest, 0, '\'') else rest == ""
    case QuotedName(body, closed) =>
      QuotedBody(body, '"', false, closed) && if closed then !At(rest, 0, '"') else rest == ""
    case LineRemark(body, lineEnd) =>
      && '\n' !in body && (lineEnd == "\n" || lineEnd == "\r\n" || (lineEnd == "" && rest == ""))
      && (lineEnd == "\n" && body != "" ==> body[|body| - 1] != '\r')
    case BlockRemark(body, closed) => CommentBody(body, 1, closed) && (closed || rest == "")
  }

  function SourceOfAll(es: seq<Element>): string {
    if es == [] then "" else SourceOf(es[0]) + SourceOfAll(es[1..])
  }

  /** A text in elements, behind the text `before`. */
  predicate AreElements(lx: Lexis, before: string, es: seq<Element>)
    decreases |es|
  {
    es != [] ==>
      && IsElement(lx, before, es[0], SourceOfAll(es[1..]))
      && AreElements(lx, before + SourceOf(es[0]), es[1..])
  }

  // ---- what is written for an element ----

  /** Between quotes the mask shows the doubled quotes and nothing else. */
  function MaskedBody(s: string, q: char, escapes: bool): string
    decreases |s|
  {
    if s == "" then ""
    else if escapes && s[0] == '\\' && |s| > 1 then Spaces(ByteLen(s[..2])) + MaskedBody(s[2..], q, escapes)
    else if s[0] == q && |s| > 1 then [q, q] + MaskedBody(s[2..], q, escapes)
    else Spaces(ByteLen(s[..1])) + MaskedBody(s[1..], q, escapes)
  }

  function BodyOf(mode: Mode, s: string, q: char, escapes: bool): string {
    if mode == Mask then MaskedBody(s, q, escapes) else s
  }

  /** What stands for a comment. */
  function RemarkOf(mode: Mode, text: string): string {
    match mode case Strip => "" case Mask => Spaces(ByteLen(text)) case _ => " "
  }

  function OutputOf(mode: Mode, e: Element): string {
    match e
    case Character(c) => if mode == Fold then [FoldAscii(c)] else [c]
    case DollarQuoted(tag, body, closed) =>
      tag + ((if mode == Mask then Spaces(ByteLen(body)) else body) + if closed then tag else "")
    case Constant(escapes, body, closed) => "'" + (BodyOf(mode, body, '\'', escapes) + if closed then "'" else "")
    case QuotedName(body, closed) => "\"" + (BodyOf(mode, body, '"', false) + if closed then "\"" else "")
    case LineRemark(body, lineEnd) => RemarkOf(mode, "--" + body) + lineEnd
    case BlockRemark(body, _) => RemarkOf(mode, "/*" + body)
  }

  function OutputOfAll(mode: Mode, es: seq<Element>): string {
    if es == [] then "" else OutputOf(mode, es[0]) + OutputOfAll(mode, es[1..])
  }

  // ---- the character classes of the grammar ----

  /** Names are made of letters, digits and underscores, in delimiters without a leading
      digit; an identifier may hold dollar signs as well.  Above ASCII letters and digits
      are what the tables say, and in bytes everything there belongs to identifiers only. */
  lemma NameCharacters(lx: Lexis, c: char)
    ensures var letter := if c < '\U{80}' then 'a' <= c <= 'z' || 'A' <= c <= 'Z' else lx.Runes? && c in lx.letters;
            var digit := if c < '\U{80}' then '0' <= c <= '9' else lx.Runes? && c in lx.digits;
            && (IsTagChar(lx, c, true) <==> letter || c == '_')
            && (IsTagChar(lx, c, false) <==> letter || digit || c == '_')
            && (IsIdentifier(lx, c) <==> letter || digit || c == '_' || c == '$' || (lx.ByteWise? && c >= '\U{80}'))
  {}

  // ---- steps ----

  /** One step over `x`, when more text follows. */
  lemma StepOver(mode: Mode, lx: Lexis, look: Look, x: string, r: string, st: State)
    requires x != "" && Next(lx, look, x + r, st).n == |x|
    ensures var k := Next(lx, look, x + r, st);
            Scan(mode, lx, look, x + r, st) == Emit(mode, k.kind, x) + Scan(mode, lx, LookAfter(lx, look, x), r, k.post)
  {
    hide Next, LookAfter, Emit;
    TakeDrop(x, r);
  }

  /** One step and what is known of the rest. */
  lemma StepThen(mode: Mode, lx: Lexis, look: Look, x: string, y: string, r: string, st: State, k: Step, o: string, q: State)
    requires x != "" && k == Next(lx, look, x + (y + r), st) && k.n == |x|
    requires Scan(mode, lx, LookAfter(lx, look, x), y + r, k.post) ==
             o + Scan(mode, lx, LookAfter(lx, LookAfter(lx, look, x), y), r, q)
    ensures Scan(mode, lx, look, (x + y) + r, st) ==
            (Emit(mode, k.kind, x) + o) + Scan(mode, lx, LookAfter(lx, look, x + y), r, q)
  {
    hide Next, LookAfter, Emit, Scan;
    Assoc(x, y, r);
    StepOver(mode, lx, look, x, y + r, st);
    LookConcat(lx, look, x, y);
    Assoc(Emit(mode, k.kind, x), o, Scan(mode, lx, LookAfter(lx, look, x + y), r, q));
  }

  lemma NoStep(mode: Mode, lx: Lexis, look: Look, r: string, st: State)
    ensures Scan(mode, lx, look, "" + r, st) == "" + Scan(mode, lx, LookAfter(lx, look, ""), r, st)
  {
    NothingBefore(r);
    NothingBefore(Scan(mode, lx, look, r, st));
  }

  lemma SpacesJoin(x: string, y: string)
    ensures Spaces(ByteLen(x + y)) == Spaces(ByteLen(x)) + Spaces(ByteLen(y))
  {
    hide Encode;
    EncodeConcat(x, y);
  }

  // ---- dollar quotes ----

  lemma {:induction false} TailOfDelimiter(lx: Lexis, t: string, r: string, first: bool)
    requires t != "" && t[|t| - 1] == '$'
    requires forall i :: 0 <= i < |t| - 1 ==> IsTagChar(lx, t[i], first && i == 0)
    ensures TagTail(lx, t + r, first) == |t|
    decreases |t|
  {
    assert (t + r)[0] == t[0] && (t + r)[1..] == t[1..] + r;
    if |t| > 1 { TailOfDelimiter(lx, t[1..], r, false); }
  }

  /** A delimiter is what the scanner finds there. */
  lemma DelimiterIsFound(lx: Lexis, t: string, r: string)
    requires IsDelimiter(lx, t)
    ensures DollarTag(lx, t + r) == t && IsTag(t)
  {
    var s := t + r;
    assert s[0] == t[0] && s[1..] == t[1..] + r && s[..|t|] == t;
    TailOfDelimiter(lx, t[1..], r, true);
    hide TagTail;
    assert DollarTag(lx, s) == s[..|t|];
  }

  /** And what it finds is a delimiter. */
  lemma FoundIsDelimiter(lx: Lexis, s: string)
    requires DollarTag(lx, s) != ""
    ensures IsDelimiter(lx, DollarTag(lx, s)) && DollarTag(lx, s) <= s
  {
    var t := DollarTag(lx, s);
    TagTailShape(lx, s[1..], true);
    var n := TagTail(lx, s[1..], true);
    forall i | 0 < i < |t| - 1 ensures IsTagChar(lx, t[i], i == 1) {
      assert t[i] == s[1..][i - 1];
    }
    assert t[|t| - 1] == s[1..][n - 1];
  }

  lemma StartsExactly(lx: Lexis, s: string)
    ensures StartsDelimiter(lx, s) <==> DollarTag(lx, s) != ""
  {
    hide IsDelimiter, DollarTag, IsTag;
    if StartsDelimiter(lx, s) {
      var n: nat :| n <= |s| && IsDelimiter(lx, s[..n]);
      SplitAt(s, n);
      DelimiterIsFound(lx, s[..n], s[n..]);
      DelimiterNotEmpty(lx, s[..n]);
    }
    if DollarTag(lx, s) != "" {
      FoundIsDelimiter(lx, s);
      assert s[..|DollarTag(lx, s)|] == DollarTag(lx, s);
    }
  }

  lemma DelimiterNotEmpty(lx: Lexis, t: string)
    requires IsDelimiter(lx, t)
    ensures t != ""
  {}

  function Blanked(mode: Mode, s: string): string { if mode == Mask then Spaces(ByteLen(s)) else s }

  lemma BlankedJoin(mode: Mode, x: string, y: string)
    ensures Blanked(mode, x + y) == Blanked(mode, x) + Blanked(mode, y) && Blanked(mode, "") == ""
  {
    SpacesJoin(x, y);
  }

  /** Inside a dollar body, up to a place at which the tag has not occurred. */
  lemma {:induction false} DollarBodyScans(mode: Mode, lx: Lexis, look: Look, tag: Tag, body: string, r: string)
    requires Avoids(tag, body + r, |body|)
    ensures Scan(mode, lx, look, body + r, DollarQuote(tag)) ==
            Blanked(mode, body) + Scan(mode, lx, LookAfter(lx, look, body), r, DollarQuote(tag))
    decreases |body|
  {
    hide LookAfter, Scan, Blanked;
    BlankedJoin(mode, "", "");
    if body == "" {
      NoStep(mode, lx, look, r, DollarQuote(tag));
    } else {
      var x, y := body[..1], body[1..];
      HeadOfBody(body, r);
      AvoidsRest(tag, body, r);
      DollarBodyScans(mode, lx, LookAfter(lx, look, x), tag, y, r);
      assert Next(lx, look, body + r, DollarQuote(tag)) == Step(1, DollarQuote(tag), Body);
      BodyEmits(mode, x);
      StepThen(mode, lx, look, x, y, r, DollarQuote(tag), Step(1, DollarQuote(tag), Body), Blanked(mode, y), DollarQuote(tag));
      BlankedJoin(mode, x, y);
    }
  }

  lemma AvoidsRest(tag: string, body: string, r: string)
    requires body != "" && Avoids(tag, body + r, |body|)
    ensures Avoids(tag, body[1..] + r, |body| - 1) && !(tag <= body + r)
  {
    forall k: nat | k < |body| - 1 ensures !OccursAt(tag, body[1..] + r, k) {
      assert !OccursAt(tag, body + r, k + 1);
      assert (body[1..] + r)[k..] == (body + r)[k + 1..];
    }
    assert !OccursAt(tag, body + r, 0) && (body + r)[0..] == body + r;
  }

  lemma HeadOfBody(s: string, r: string)
    requires s != ""
    ensures s == s[..1] + s[1..] && s[..1] == [s[0]] && (s + r)[0] == s[0] && s + r == s[..1] + (s[1..] + r)
  {}

  lemma BodyEmits(mode: Mode, x: string)
    ensures Emit(mode, Body, x) == Blanked(mode, x) && Emit(mode, Keep, x) == x
  {}

  /** An occurrence in front of the closing tag would be one within body and tag. */
  lemma AvoidsBehind(tag: string, body: string, r: string)
    requires tag != "" && Avoids(tag, body + tag, |body|)
    ensures Avoids(tag, body + (tag + r), |body|)
  {
    hide OccursAt;
    forall k: nat | k < |body| ensures !OccursAt(tag, body + (tag + r), k) {
      OccursInFront(tag, body, r, k);
      assert !OccursAt(tag, body + tag, k);
    }
  }

  lemma OccursInFront(tag: string, body: string, r: string, k: nat)
    requires k < |body|
    ensures OccursAt(tag, body + (tag + r), k) ==> OccursAt(tag, body + tag, k)
  {
    assert (body + tag)[k..][..|tag|] == (body + (tag + r))[k..][..|tag|];
  }

  lemma DollarScans(mode: Mode, lx: Lexis, look: Look, tag: string, body: string, closed: bool, r: string)
    requires var closing := if closed then tag else "";
             IsDelimiter(lx, tag) && (closed || r == "") && Avoids(tag, body + closing, |body|)
    ensures var e := DollarQuoted(tag, body, closed);
            Scan(mode, lx, look, SourceOf(e) + r, Normal) ==
            OutputOf(mode, e) + Scan(mode, lx, LookAfter(lx, look, SourceOf(e)), r, Normal)
  {
    hide LookAfter, Scan, IsDelimiter, Avoids, DollarTag, IsTag;
    var closing := if closed then tag else "";
    DelimiterIsFound(lx, tag, (body + closing) + r);
    DelimiterNotEmpty(lx, tag);
    DelimiterStarts(lx, tag);
    var look1 := LookAfter(lx, look, tag);
    var look2 := LookAfter(lx, look1, body);
    if closed {
      AvoidsBehind(tag, body, r);
      DollarBodyScans(mode, lx, look1, tag, body, tag + r);
      CloseDollar(mode, lx, look2, tag, r);
    } else {
      NothingBehind(body);
      assert closing + r == "";
      NothingBefore(Scan(mode, lx, LookAfter(lx, look1, body + closing), r, Normal));
      LookConcat(lx, look1, body, closing);
      DollarBodyScans(mode, lx, look1, tag, body, closing + r);
      AtEnd(mode, lx, look2, DollarQuote(tag));
      AtEnd(mode, lx, LookAfter(lx, look1, body + closing), Normal);
    }
    TwoParts(mode, lx, look1, body, closing, r, DollarQuote(tag), Blanked(mode, body), closing);
    OpenDollar(lx, look, tag, (body + closing) + r);
    StepThen(mode, lx, look, tag, body + closing, r, Normal, Step(|tag|, DollarQuote(tag), Keep), Blanked(mode, body) + closing, Normal);
    BodyEmits(mode, tag);
  }

  lemma DelimiterStarts(lx: Lexis, t: string)
    requires IsDelimiter(lx, t)
    ensures t[0] == '$'
  {}

  lemma OpenDollar(lx: Lexis, look: Look, tag: string, r: string)
    requires tag != "" && IsTag(tag) && DollarTag(lx, tag + r) == tag && tag[0] == '$'
    ensures Next(lx, look, tag + r, Normal) == Step(|tag|, DollarQuote(tag), Keep)
  {
    hide DollarTag, IsTag;
    assert (tag + r)[0] == tag[0];
  }

  lemma CloseDollar(mode: Mode, lx: Lexis, look: Look, tag: Tag, r: string)
    ensures Scan(mode, lx, look, tag + r, DollarQuote(tag)) == tag + Scan(mode, lx, LookAfter(lx, look, tag), r, Normal)
  {
    hide LookAfter;
    TakeDrop(tag, r);
    StepOver(mode, lx, look, tag, r, DollarQuote(tag));
  }

  lemma AtEnd(mode: Mode, lx: Lexis, look: Look, st: State)
    ensures Scan(mode, lx, look, "", st) == ""
  {}

  /** The inside of an element and its end, one after the other. */
  lemma TwoParts(mode: Mode, lx: Lexis, look: Look, body: string, closing: string, r: string, st: State, o: string, oClosing: string)
    requires Scan(mode, lx, look, body + (closing + r), st) == o + Scan(mode, lx, LookAfter(lx, look, body), closing + r, st)
    requires Scan(mode, lx, LookAfter(lx, look, body), closing + r, st) ==
             oClosing + Scan(mode, lx, LookAfter(lx, LookAfter(lx, look, body), closing), r, Normal)
    ensures Scan(mode, lx, look, (body + closing) + r, st) ==
            (o + oClosing) + Scan(mode, lx, LookAfter(lx, look, body + closing), r, Normal)
  {
    hide LookAfter, Scan;
    Assoc(body, closing, r);
    LookConcat(lx, look, body, closing);
    Assoc(o, oClosing, Scan(mode, lx, LookAfter(lx, look, body + closing), r, Normal));
  }

  // ---- constants and quoted names ----

  /** The state of the scanner between quotes `q`. */
  function Between(q: char, escapes: bool): State { if q == '\'' then SingleQuote(escapes) else QuotedIdentifier }

  predicate IsQuoting(q: char, escapes: bool) { q == '\'' || (q == '"' && !escapes) }

  /** Length of the first piece of such a body. */
  function PieceLength(s: string, q: char, escapes: bool): (n: nat)
    requires s != ""
    ensures 1 <= n <= |s|
  {
    if |s| > 1 && ((escapes && s[0] == '\\') || s[0] == q) then 2 else 1
  }

  lemma QuotedPiece(lx: Lexis, look: Look, body: string, q: char, escapes: bool, closed: bool, r: string)
    requires IsQuoting(q, escapes) && body != "" && QuotedBody(body, q, escapes, closed) && (closed || r == "")
    ensures var n := PieceLength(body, q, escapes);
            && Next(lx, look, body + r, Between(q, escapes)) ==
               Step(n, Between(q, escapes), if n == 2 && body[0] == q then Keep else Body)
            && QuotedBody(body[n..], q, escapes, closed)
  {
    var s := body + r;
    assert s[0] == body[0] && (|body| > 1 ==> s[1] == body[1]);
    if |body| == 1 { assert body[1..] == ""; }
  }

  lemma PieceEmits(mode: Mode, body: string, q: char, escapes: bool, closed: bool)
    requires IsQuoting(q, escapes) && body != "" && QuotedBody(body, q, escapes, closed)
    ensures var n := PieceLength(body, q, escapes);
            BodyOf(mode, body, q, escapes) ==
            Emit(mode, if n == 2 && body[0] == q then Keep else Body, body[..n]) + BodyOf(mode, body[n..], q, escapes)
  {
    hide Encode;
    var n := PieceLength(body, q, escapes);
    SplitAt(body, n);
    if n == 2 { assert body[..2] == [body[0], body[1]]; }
  }

  lemma {:induction false} QuotedBodyScans(mode: Mode, lx: Lexis, look: Look, body: string, q: char, escapes: bool, closed: bool, r: string)
    requires IsQuoting(q, escapes) && QuotedBody(body, q, escapes, closed) && (closed || r == "")
    ensures Scan(mode, lx, look, body + r, Between(q, escapes)) ==
            BodyOf(mode, body, q, escapes) + Scan(mode, lx, LookAfter(lx, look, body), r, Between(q, escapes))
    decreases |body|
  {
    hide LookAfter, Scan, Next, Emit, BodyOf, QuotedBody, PieceLength, Between;
    if body == "" {
      NoStep(mode, lx, look, r, Between(q, escapes));
      EmptyBody(mode, q, escapes);
    } else {
      var n := PieceLength(body, q, escapes);
      var x, y := body[..n], body[n..];
      SplitAt(body, n);
      Assoc(x, y, r);
      QuotedPiece(lx, look, body, q, escapes, closed, r);
      PieceEmits(mode, body, q, escapes, closed);
      QuotedBodyScans(mode, lx, LookAfter(lx, look, x), y, q, escapes, closed, r);
      StepThen(mode, lx, look, x, y, r, Between(q, escapes), Next(lx, look, body + r, Between(q, escapes)),
               BodyOf(mode, y, q, escapes), Between(q, escapes));
    }
  }

  lemma EmptyBody(mode: Mode, q: char, escapes: bool)
    ensures BodyOf(mode, "", q, escapes) == ""
  {}

  lemma CloseQuote(mode: Mode, lx: Lexis, look: Look, q: char, escapes: bool, r: string)
    requires IsQuoting(q, escapes) && !At(r, 0, q)
    ensures Scan(mode, lx, look, [q] + r, Between(q, escapes)) == [q] + Scan(mode, lx, LookAfter(lx, look, [q]), r, Normal)
  {
    hide LookAfter;
    var s := [q] + r;
    assert s[0] == q && (r != "" ==> s[1] == r[0]);
    StepOver(mode, lx, look, [q], r, Between(q, escapes));
  }

  lemma OpenQuote(lx: Lexis, look: Look, q: char, escapes: bool, r: string)
    requires IsQuoting(q, escapes) && (q == '\'' ==> escapes == look.escape)
    ensures Next(lx, look, [q] + r, Normal) == Step(1, Between(q, escapes), Keep)
  {
    assert ([q] + r)[0] == q;
  }

  lemma QuotedScans(mode: Mode, lx: Lexis, look: Look, q: char, escapes: bool, body: string, closed: bool, r: string)
    requires IsQuoting(q, escapes) && (q == '\'' ==> escapes == look.escape)
    requires QuotedBody(body, q, escapes, closed) && if closed then !At(r, 0, q) else r == ""
    ensures var closing := if closed then [q] else "";
            Scan(mode, lx, look, ([q] + (body + closing)) + r, Normal) ==
            ([q] + (BodyOf(mode, body, q, escapes) + closing))
            + Scan(mode, lx, LookAfter(lx, look, [q] + (body + closing)), r, Normal)
  {
    hide LookAfter, Scan, Next, BodyOf, QuotedBody, Between;
    var closing := if closed then [q] else "";
    var look1, st := LookAfter(lx, look, [q]), Between(q, escapes);
    QuotedBodyScans(mode, lx, look1, body, q, escapes, closed, closing + r);
    if closed {
      CloseQuote(mode, lx, LookAfter(lx, look1, body), q, escapes, r);
    } else {
      assert closing + r == "";
      AtEnd(mode, lx, LookAfter(lx, look1, body), st);
      AtEnd(mode, lx, LookAfter(lx, LookAfter(lx, look1, body), closing), Normal);
    }
    TwoParts(mode, lx, look1, body, closing, r, st, BodyOf(mode, body, q, escapes), closing);
    OpenQuote(lx, look, q, escapes, (body + closing) + r);
    StepThen(mode, lx, look, [q], body + closing, r, Normal, Step(1, st, Keep), BodyOf(mode, body, q, escapes) + closing, Normal);
    BodyEmits(mode, [q]);
  }

  // ---- comments ----

  /** What is written inside a comment. */
  function InRemark(mode: Mode, s: string): string { if mode == Mask then Spaces(ByteLen(s)) else "" }

  lemma InRemarkJoin(mode: Mode, x: string, y: string)
    ensures InRemark(mode, x + y) == InRemark(mode, x) + InRemark(mode, y) && InRemark(mode, "") == ""
  {
    SpacesJoin(x, y);
  }

  lemma RemarkEmits(mode: Mode, open: string, body: string)
    ensures Emit(mode, CommentOpen, open) + InRemark(mode, body) == RemarkOf(mode, open + body)
    ensures Emit(mode, InComment, body) == InRemark(mode, body)
  {
    SpacesJoin(open, body);
  }

  /** Up to the line break, or to the end. */
  lemma {:induction false} LineScans(mode: Mode, lx: Lexis, look: Look, body: string, r: string)
    requires '\n' !in body && (At(r, 0, '\n') && body != "" ==> body[|body| - 1] != '\r')
    ensures Scan(mode, lx, look, body + r, LineComment) ==
            InRemark(mode, body) + Scan(mode, lx, LookAfter(lx, look, body), r, LineComment)
    decreases |body|
  {
    hide LookAfter, Scan, InRemark;
    InRemarkJoin(mode, "", "");
    if body == "" {
      NoStep(mode, lx, look, r, LineComment);
    } else {
      var x, y := body[..1], body[1..];
      HeadOfBody(body, r);
      var s := body + r;
      assert y != "" ==> y[|y| - 1] == body[|body| - 1] && s[1] == body[1];
      assert y == "" && r != "" ==> s[1] == r[0];
      LineScans(mode, lx, LookAfter(lx, look, x), y, r);
      assert Next(lx, look, s, LineComment) == Step(1, LineComment, InComment);
      RemarkEmits(mode, "", x);
      StepThen(mode, lx, look, x, y, r, LineComment, Step(1, LineComment, InComment), InRemark(mode, y), LineComment);
      InRemarkJoin(mode, x, y);
    }
  }

  lemma EndLine(mode: Mode, lx: Lexis, look: Look, lineEnd: string, r: string)
    requires lineEnd == "\n" || lineEnd == "\r\n"
    ensures Scan(mode, lx, look, lineEnd + r, LineComment) == lineEnd + Scan(mode, lx, LookAfter(lx, look, lineEnd), r, Normal)
  {
    hide LookAfter;
    var s := lineEnd + r;
    assert s[0] == lineEnd[0] && (|lineEnd| > 1 ==> s[1] == lineEnd[1]);
    StepOver(mode, lx, look, lineEnd, r, LineComment);
  }

  lemma OpenRemark(lx: Lexis, look: Look, r: string)
    ensures Next(lx, look, "--" + r, Normal) == Step(2, LineComment, CommentOpen)
    ensures Next(lx, look, "/*" + r, Normal) == Step(2, BlockComment(1), CommentOpen)
  {
    assert ("--" + r)[0] == '-' && ("--" + r)[1] == '-' && ("/*" + r)[0] == '/' && ("/*" + r)[1] == '*';
  }

  lemma LineRemarkScans(mode: Mode, lx: Lexis, look: Look, body: string, lineEnd: string, r: string)
    requires '\n' !in body && (lineEnd == "\n" || lineEnd == "\r\n" || (lineEnd == "" && r == ""))
    requires lineEnd == "\n" && body != "" ==> body[|body| - 1] != '\r'
    ensures Scan(mode, lx, look, ("--" + (body + lineEnd)) + r, Normal) ==
            (RemarkOf(mode, "--" + body) + lineEnd) + Scan(mode, lx, LookAfter(lx, look, "--" + (body + lineEnd)), r, Normal)
  {
    hide LookAfter, Scan, Next, InRemark, RemarkOf, Emit;
    var look1 := LookAfter(lx, look, "--");
    LineEndStarts(lineEnd, r);
    LineScans(mode, lx, look1, body, lineEnd + r);
    if lineEnd != "" {
      EndLine(mode, lx, LookAfter(lx, look1, body), lineEnd, r);
    } else {
      assert lineEnd + r == "";
      AtEnd(mode, lx, LookAfter(lx, look1, body), LineComment);
      AtEnd(mode, lx, LookAfter(lx, LookAfter(lx, look1, body), lineEnd), Normal);
    }
    TwoParts(mode, lx, look1, body, lineEnd, r, LineComment, InRemark(mode, body), lineEnd);
    OpenRemark(lx, look, (body + lineEnd) + r);
    StepThen(mode, lx, look, "--", body + lineEnd, r, Normal, Step(2, LineComment, CommentOpen), InRemark(mode, body) + lineEnd, Normal);
    RemarkEmits(mode, "--", body);
    Assoc(Emit(mode, CommentOpen, "--"), InRemark(mode, body), lineEnd);
  }

  lemma LineEndStarts(lineEnd: string, r: string)
    requires lineEnd == "\n" || lineEnd == "\r\n" || (lineEnd == "" && r == "")
    ensures At(lineEnd + r, 0, '\n') <==> lineEnd == "\n"
  {
    assert lineEnd != "" ==> (lineEnd + r)[0] == lineEnd[0];
  }

  /** Through the delimiter that closes the last open comment, or to the end. */
  lemma {:induction false} BlockScans(mode: Mode, lx: Lexis, look: Look, body: string, depth: nat, closed: bool, r: string)
    requires depth >= 1 && CommentBody(body, depth, closed) && (closed || r == "")
    ensures Scan(mode, lx, look, body + r, BlockComment(depth)) ==
            InRemark(mode, body) + Scan(mode, lx, LookAfter(lx, look, body), r, Normal)
    decreases |body|
  {
    hide LookAfter, Scan, InRemark, Next, CommentBody, Emit;
    InRemarkJoin(mode, "", "");
    if body == "" {
      OnlyOpen(body, depth, closed);
      AtEnd(mode, lx, look, BlockComment(depth));
      AtEnd(mode, lx, LookAfter(lx, look, body), Normal);
      assert body + r == "";
    } else {
      var k := Next(lx, look, body + r, BlockComment(depth));
      BlockPiece(lx, look, body, depth, closed, r);
      var x, y := body[..k.n], body[k.n..];
      SplitAt(body, k.n);
      Assoc(x, y, r);
      if k.post.BlockComment? {
        BlockScans(mode, lx, LookAfter(lx, look, x), y, k.post.depth, closed, r);
      } else {
        NoStep(mode, lx, LookAfter(lx, look, x), r, Normal);
      }
      StepThen(mode, lx, look, x, y, r, BlockComment(depth), k, InRemark(mode, y), Normal);
      RemarkEmits(mode, "", x);
      InRemarkJoin(mode, x, y);
    }
  }

  lemma OnlyOpen(body: string, depth: nat, closed: bool)
    requires depth >= 1 && CommentBody(body, depth, closed)
    ensures body == "" ==> !closed
  {}

  lemma BlockPiece(lx: Lexis, look: Look, body: string, depth: nat, closed: bool, r: string)
    requires depth >= 1 && body != "" && CommentBody(body, depth, closed) && (closed || r == "")
    ensures var k := Next(lx, look, body + r, BlockComment(depth));
            && k.n <= |body| && k.kind == InComment
            && (k.post.BlockComment? ==> k.post.depth >= 1 && CommentBody(body[k.n..], k.post.depth, closed))
            && (!k.post.BlockComment? ==> k.post.Normal? && body[k.n..] == "")
  {
    var s := body + r;
    assert s[0] == body[0] && (|body| > 1 ==> s[1] == body[1]);
    if |body| == 1 { assert s == body && body[1..] == ""; }
  }

  lemma BlockRemarkScans(mode: Mode, lx: Lexis, look: Look, body: string, closed: bool, r: string)
    requires CommentBody(body, 1, closed) && (closed || r == "")
    ensures Scan(mode, lx, look, ("/*" + body) + r, Normal) ==
            RemarkOf(mode, "/*" + body) + Scan(mode, lx, LookAfter(lx, look, "/*" + body), r, Normal)
  {
    hide LookAfter, Scan, Next, InRemark, RemarkOf, Emit, CommentBody;
    BlockScans(mode, lx, LookAfter(lx, look, "/*"), body, 1, closed, r);
    OpenRemark(lx, look, body + r);
    StepThen(mode, lx, look, "/*", body, r, Normal, Step(2, BlockComment(1), CommentOpen), InRemark(mode, body), Normal);
    RemarkEmits(mode, "/*", body);
  }

  // ---- the scan follows the grammar ----

  lemma CharacterScans(mode: Mode, lx: Lexis, look: Look, c: char, r: string)
    requires c != '\'' && c != '"' && !(c == '-' && At(r, 0, '-')) && !(c == '/' && At(r, 0, '*'))
    requires !(c == '$' && StartsDelimiter(lx, [c] + r))
    ensures Scan(mode, lx, look, [c] + r, Normal) ==
            (if mode == Fold then [FoldAscii(c)] else [c]) + Scan(mode, lx, LookAfter(lx, look, [c]), r, Normal)
  {
    hide LookAfter, StartsDelimiter, DollarTag;
    var s := [c] + r;
    assert s[0] == c && (r != "" ==> s[1] == r[0]);
    StartsExactly(lx, s);
    StepOver(mode, lx, look, [c], r, Normal);
    assert FoldText([c]) == [FoldAscii(c)];
  }

  /** The look-back decides as the text before does. */
  lemma LookIsText(lx: Lexis, before: string)
    ensures LookAfter(lx, QUIET, before).escape == OpensEscapes(lx, before)
  {
    if before != "" { LookLast(lx, QUIET, before); }
  }

  /** An element is scanned as the grammar says, and the scan stands in its normal
      state behind it. */
  lemma ElementScans(mode: Mode, lx: Lexis, before: string, e: Element, rest: string)
    requires IsElement(lx, before, e, rest)
    ensures Scan(mode, lx, LookAfter(lx, QUIET, before), SourceOf(e) + rest, Normal) ==
            OutputOf(mode, e) + Scan(mode, lx, LookAfter(lx, QUIET, before + SourceOf(e)), rest, Normal)
  {
    hide LookAfter, Scan, BodyOf, QuotedBody, RemarkOf, CommentBody, IsDelimiter, StartsDelimiter, Avoids, OpensEscapes;
    var look := LookAfter(lx, QUIET, before);
    LookConcat(lx, QUIET, before, SourceOf(e));
    match e
    case Character(c) => CharacterScans(mode, lx, look, c, rest);
    case DollarQuoted(tag, body, closed) =>
      DollarScans(mode, lx, look, tag, body, closed, rest);
    case Constant(escapes, body, closed) =>
      LookIsText(lx, before);
      assert ['\''] == "'";
      QuotedScans(mode, lx, look, '\'', escapes, body, closed, rest);
    case QuotedName(body, closed) =>
      assert ['"'] == "\"";
      QuotedScans(mode, lx, look, '"', false, body, closed, rest);
    case LineRemark(body, lineEnd) => LineRemarkScans(mode, lx, look, body, lineEnd, rest);
    case BlockRemark(body, closed) => BlockRemarkScans(mode, lx, look, body, closed, rest);
  }

  /** Whatever the text before it, a text in elements is scanned element by element. */
  lemma {:induction false} ScanIsByElements(mode: Mode, lx: Lexis, before: string, es: seq<Element>)
    requires AreElements(lx, before, es)
    ensures Scan(mode, lx, LookAfter(lx, QUIET, before), SourceOfAll(es), Normal) == OutputOfAll(mode, es)
    decreases |es|
  {
    hide LookAfter, Scan, OutputOf, SourceOf, IsElement;
    if es == [] {
      AtEnd(mode, lx, LookAfter(lx, QUIET, before), Normal);
    } else {
      ElementScans(mode, lx, before, es[0], SourceOfAll(es[1..]));
      ScanIsByElements(mode, lx, before + SourceOf(es[0]), es[1..]);
    }
  }

  // ---- every text is a sequence of elements ----

  lemma {:induction false} SplitQuoted(t: string, q: char, escapes: bool) returns (body: string, closed: bool, rest: string)
    requires IsQuoting(q, escapes)
    ensures t == (body + if closed then [q] else "") + rest
    ensures QuotedBody(body, q, escapes, closed) && if closed then !At(rest, 0, q) else rest == ""
    decreases |t|
  {
    if t == "" {
      body, closed, rest := "", false, "";
    } else if escapes && t[0] == '\\' && |t| == 1 {
      body, closed, rest := t, false, "";
      NothingBehind(t);
    } else if t[0] == q && !At(t, 1, q) {
      body, closed, rest := "", true, t[1..];
      SplitAt(t, 1);
    } else {
      var n := PieceLength(t, q, escapes);
      var inner;
      inner, closed, rest := SplitQuoted(t[n..], q, escapes);
      body := t[..n] + inner;
      SplitAt(t, n);
      Regroup(t[..n], inner, if closed then [q] else "", rest);
      assert body[0] == t[0] && (n == 2 ==> body[1] == t[1]) && body[n..] == inner;
    }
  }

  lemma Regroup(x: string, y: string, z: string, r: string)
    ensures x + ((y + z) + r) == ((x + y) + z) + r
  {}

  lemma {:induction false} SplitLine(t: string) returns (body: string, lineEnd: string, rest: string)
    ensures t == (body + lineEnd) + rest && '\n' !in body
    ensures lineEnd == "\n" || lineEnd == "\r\n" || (lineEnd == "" && rest == "")
    ensures lineEnd == "\n" && body != "" ==> body[|body| - 1] != '\r'
  {
    if t == "" {
      body, lineEnd, rest := "", "", "";
    } else if t[0] == '\n' {
      body, lineEnd, rest := "", "\n", t[1..];
    } else if t[0] == '\r' && At(t, 1, '\n') {
      body, lineEnd, rest := "", "\r\n", t[2..];
      assert t == [t[0], t[1]] + t[2..];
    } else {
      var inner;
      inner, lineEnd, rest := SplitLine(t[1..]);
      body := t[..1] + inner;
      SplitAt(t, 1);
      Regroup(t[..1], inner, lineEnd, rest);
      assert inner == "" && lineEnd == "\n" ==> t[1] == '\n';
      assert inner != "" ==> body[|body| - 1] == inner[|inner| - 1];
    }
  }

  lemma {:induction false} SplitBlock(t: string, depth: nat) returns (body: string, closed: bool, rest: string)
    requires depth >= 1
    ensures t == body + rest && CommentBody(body, depth, closed) && (closed || rest == "")
    decreases |t|
  {
    if |t| < 2 {
      body, closed, rest := t, false, "";
      NothingBehind(t);
    } else if t[0] == '*' && t[1] == '/' && depth == 1 {
      body, closed, rest := t[..2], true, t[2..];
      SplitAt(t, 2);
    } else {
      var n := if (t[0] == '/' && t[1] == '*') || (t[0] == '*' && t[1] == '/') then 2 else 1;
      var inner;
      inner, closed, rest := SplitBlock(t[n..], if t[0] == '/' && t[1] == '*' then depth + 1 else if n == 2 then depth - 1 else depth);
      body := t[..n] + inner;
      SplitAt(t, n);
      Assoc(t[..n], inner, rest);
      BlockJoin(t, n, inner, rest);
    }
  }

  lemma BlockJoin(t: string, n: nat, inner: string, rest: string)
    requires 1 <= n <= 2 <= |t| && t[n..] == inner + rest
    ensures var body := t[..n] + inner;
            body[n..] == inner && body[0] == t[0] && (|body| > 1 ==> body[1] == t[1])
  {
    if n == 1 && inner != "" { assert t[1] == t[1..][0]; }
  }

  lemma {:induction false} SplitDollar(tag: string, t: string) returns (body: string, closed: bool, rest: string)
    requires tag != ""
    ensures t == (body + if closed then tag else "") + rest && (closed || rest == "")
    ensures Avoids(tag, body + if closed then tag else "", |body|)
    decreases |t|
  {
    if tag <= t {
      body, closed, rest := "", true, t[|tag|..];
      SplitAt(t, |tag|);
      NothingBefore(tag);
    } else if t == "" {
      body, closed, rest := "", false, "";
    } else {
      var inner;
      inner, closed, rest := SplitDollar(tag, t[1..]);
      body := t[..1] + inner;
      var closing := if closed then tag else "";
      SplitAt(t, 1);
      Regroup(t[..1], inner, closing, rest);
      AvoidsMore(tag, t, inner + closing, rest, |inner|);
      Assoc(t[..1], inner, closing);
    }
  }

  lemma AvoidsMore(tag: string, t: string, s: string, rest: string, n: nat)
    requires t != "" && !(tag <= t) && t == t[..1] + (s + rest) && Avoids(tag, s, n)
    ensures Avoids(tag, t[..1] + s, n + 1)
  {
    var u := t[..1] + s;
    assert u <= t;
    forall k: nat | k < n + 1 ensures !OccursAt(tag, u, k) {
      if k == 0 {
        assert u[0..] == u;
      } else {
        assert !OccursAt(tag, s, k - 1) && (k <= |u| ==> u[k..] == s[k - 1..]);
      }
    }
  }

  /** The first element of a text. */
  lemma FirstElement(lx: Lexis, before: string, s: string) returns (e: Element, rest: string)
    requires s != ""
    ensures s == SourceOf(e) + rest && IsElement(lx, before, e, rest) && SourceOf(e) != ""
  {
    hide IsDelimiter, StartsDelimiter, Avoids, OpensEscapes, QuotedBody, CommentBody;
    SplitAt(s, 1);
    assert s[..1] == [s[0]];
    if s[0] == '\'' {
      var escapes := OpensEscapes(lx, before);
      var body, closed, r := SplitQuoted(s[1..], '\'', escapes);
      e, rest := Constant(escapes, body, closed), r;
      Assoc("'", body + if closed then "'" else "", rest);
    } else if s[0] == '"' {
      var body, closed, r := SplitQuoted(s[1..], '"', false);
      e, rest := QuotedName(body, closed), r;
      Assoc("\"", body + if closed then "\"" else "", rest);
    } else if s[0] == '-' && At(s, 1, '-') {
      var body, lineEnd, r := SplitLine(s[2..]);
      e, rest := LineRemark(body, lineEnd), r;
      assert s == "--" + s[2..];
      Assoc("--", body + lineEnd, rest);
    } else if s[0] == '/' && At(s, 1, '*') {
      var body, closed, r := SplitBlock(s[2..], 1);
      e, rest := BlockRemark(body, closed), r;
      assert s == "/*" + s[2..];
      Assoc("/*", body, rest);
    } else if s[0] == '$' && StartsDelimiter(lx, s) {
      e, rest := FirstDollar(lx, s);
    } else {
      e, rest := Character(s[0]), s[1..];
    }
  }

  lemma FirstDollar(lx: Lexis, s: string) returns (e: Element, rest: string)
    requires StartsDelimiter(lx, s)
    ensures e.DollarQuoted? && s == SourceOf(e) + rest && IsElement(lx, "", e, rest) && SourceOf(e) != ""
  {
    hide IsDelimiter, Avoids;
    var n: nat :| n <= |s| && IsDelimiter(lx, s[..n]);
    DelimiterNotEmpty(lx, s[..n]);
    var body, closed, r := SplitDollar(s[..n], s[n..]);
    e, rest := DollarQuoted(s[..n], body, closed), r;
    SplitAt(s, n);
    Assoc(s[..n], body + if closed then s[..n] else "", rest);
  }

  /** The grammar covers every text, behind every other. */
  lemma {:induction false} EveryTextHasElements(lx: Lexis, before: string, s: string) returns (es: seq<Element>)
    ensures AreElements(lx, before, es) && SourceOfAll(es) == s
    decreases |s|
  {
    hide IsElement, SourceOf;
    if s == "" {
      es := [];
    } else {
      var e, rest := FirstElement(lx, before, s);
      var others := EveryTextHasElements(lx, before + SourceOf(e), rest);
      es := [e] + others;
      assert es[0] == e && es[1..] == others;
    }
  }

  /** So both scanners write, of every text and in every mode, what the grammar says. */
  lemma ScanFollowsGrammar(lx: Lexis, s: string) returns (es: seq<Element>)
    ensures AreElements(lx, "", es) && SourceOfAll(es) == s
    ensures forall mode :: Run(mode, lx, s) == OutputOfAll(mode, es)
  {
    hide AreElements, SourceOfAll, OutputOfAll, Scan;
    es := EveryTextHasElements(lx, "", s);
    assert LookAfter(lx, QUIET, "") == QUIET;
    forall mode ensures Run(mode, lx, s) == OutputOfAll(mode, es) {
      ScanIsByElements(mode, lx, "", es);
    }
  }

  /** Wherever the scan of a text stands in its normal state, an element there is
      scanned on its own. */
  lemma ElementInText(mode: Mode, lx: Lexis, a: string, e: Element, r: string)
    requires IsElement(lx, a, e, r) && Reaches(lx, QUIET, a + (SourceOf(e) + r), Normal, |a|, Normal)
    ensures Run(mode, lx, a + (SourceOf(e) + r)) ==
            Run(mode, lx, a) + (OutputOf(mode, e) + Scan(mode, lx, LookAfter(lx, QUIET, a + SourceOf(e)), r, Normal))
  {
    hide IsElement, SourceOf, OutputOf, Scan, LookAfter, Reaches;
    var s := a + (SourceOf(e) + r);
    TakeDrop(a, SourceOf(e) + r);
    ScanSplits(mode, lx, QUIET, s, Normal, |a|, Normal);
    ElementScans(mode, lx, a, e, r);
  }
}
