/** The six-state SQL lexer that both scanners of the program implement:
    internal/preprocessor/comments.go over code points, and
    internal/checksum/calculator.go over bytes.  The machine is written once, as
    a step function on the text still to be read; what a caller writes for each
    step is chosen by a Mode. */
module Lexer {
  import opened Text

  /** The character classes of a scanner.  Above ASCII the code point scanner
      asks the Unicode tables, which stay arbitrary sets here; the byte scanner
      takes every such byte as an identifier byte and as no tag byte. */
  datatype Lexis = Runes(letters: set<char>, digits: set<char>) | ByteWise

  predicate IsLetter(lx: Lexis, c: char) {
    if IsAsciiChar(c) then IsAsciiLetter(c) else lx.Runes? && c in lx.letters
  }

  predicate IsDigit(lx: Lexis, c: char) {
    if IsAsciiChar(c) then IsAsciiDigit(c) else lx.Runes? && c in lx.digits
  }

  predicate IsIdentifier(lx: Lexis, c: char) {
    c == '_' || c == '$' || IsLetter(lx, c) || IsDigit(lx, c) || (lx.ByteWise? && !IsAsciiChar(c))
  }

  predicate IsTagChar(lx: Lexis, c: char, first: bool) {
    c == '_' || IsLetter(lx, c) || (!first && IsDigit(lx, c))
  }

  /** What the look-back for an E'...' string can see: whether the last
      character may belong to an identifier, and whether it is an E that does
      not continue one. */
  datatype Look = Look(ident: bool, escape: bool)

  const QUIET := Look(false, false)

  function LookChar(lx: Lexis, look: Look, c: char): Look {
    Look(IsIdentifier(lx, c), (c == 'E' || c == 'e') && !look.ident)
  }

  function LookAfter(lx: Lexis, look: Look, s: string): Look
    decreases |s|
  {
    if s == "" then look else LookAfter(lx, LookChar(lx, look, s[0]), s[1..])
  }

  /** White space, and two characters that are never part of a tag. */
  predicate Inert(c: char) { IsSpace(c) || c == '/' || c == ';' }

  predicate IsTag(t: string) {
    |t| >= 2 && t[0] == '$' && t[|t| - 1] == '$' && forall i :: 0 <= i < |t| ==> !Inert(t[i])
  }

  /** A dollar-quote delimiter: `$$` or `$name$`. */
  type Tag = t: string | IsTag(t) witness "$$"

  datatype State =
    | Normal
    | LineComment
    | BlockComment(depth: nat)
    | SingleQuote(escapes: bool)
    | DollarQuote(tag: Tag)
    | QuotedIdentifier

  /** The role of the characters consumed by one step. */
  datatype Kind =
    | Plain        // one ordinary character outside every literal and comment
    | Keep         // a delimiter, or the line break that ends a line comment
    | CommentOpen  // the two characters that open a comment
    | InComment    // more of a comment
    | Body         // inside a string, a dollar body or a quoted identifier

  datatype Step = Step(n: nat, post: State, kind: Kind)

  predicate At(s: string, i: nat, c: char) { i < |s| && s[i] == c }

  /** Length of the rest of a tag, through its closing `$`; 0 when there is none. */
  function TagTail(lx: Lexis, s: string, first: bool): (n: nat)
    ensures n <= |s|
  {
    if s == "" then 0
    else if s[0] == '$' then 1
    else if !IsTagChar(lx, s[0], first) then 0
    else
      var n := TagTail(lx, s[1..], false);
      if n == 0 then 0 else n + 1
  }

  /** A tag is made of tag characters up to its closing `$`. */
  lemma {:induction false} TagTailShape(lx: Lexis, s: string, first: bool)
    ensures var n := TagTail(lx, s, first);
            && (n > 0 ==> s[n - 1] == '$')
            && (forall i :: 0 <= i < n - 1 ==> IsTagChar(lx, s[i], first && i == 0))
            && (forall i :: 0 <= i < n ==> !Inert(s[i]))
  {
    if s != "" && s[0] != '$' && IsTagChar(lx, s[0], first) {
      TagTailShape(lx, s[1..], false);
    }
  }

  /** The delimiter that `s` starts with, or "". */
  function DollarTag(lx: Lexis, s: string): (t: string)
    ensures t != "" ==> IsTag(t) && t <= s
  {
    if !At(s, 0, '$') then ""
    else
      var n := TagTail(lx, s[1..], true);
      TagTailShape(lx, s[1..], true);
      if n == 0 then "" else s[..n + 1]
  }

  /** One iteration of the scanning loop on the unread text `s`. */
  function Next(lx: Lexis, look: Look, s: string, st: State): (k: Step)
    requires s != ""
    ensures 1 <= k.n <= |s|
  {
    match st
    case Normal =>
      if s[0] == '-' && At(s, 1, '-') then Step(2, LineComment, CommentOpen)
      else if s[0] == '/' && At(s, 1, '*') then Step(2, BlockComment(1), CommentOpen)
      else if s[0] == '\'' then Step(1, SingleQuote(look.escape), Keep)
      else if s[0] == '"' then Step(1, QuotedIdentifier, Keep)
      else if s[0] == '$' then
        var tag := DollarTag(lx, s);
        if tag != "" then Step(|tag|, DollarQuote(tag), Keep) else Step(1, Normal, Keep)
      else Step(1, Normal, Plain)
    case LineComment =>
      if s[0] == '\n' then Step(1, Normal, Keep)
      else if s[0] == '\r' && At(s, 1, '\n') then Step(2, Normal, Keep)
      else Step(1, LineComment, InComment)
    case BlockComment(d) =>
      if s[0] == '/' && At(s, 1, '*') then Step(2, BlockComment(d + 1), InComment)
      else if s[0] == '*' && At(s, 1, '/') then
        Step(2, if d <= 1 then Normal else BlockComment(d - 1), InComment)
      else Step(1, st, InComment)
    case SingleQuote(escapes) =>
      if escapes && s[0] == '\\' && |s| > 1 then Step(2, st, Body)
      else if s[0] == '\'' then
        if At(s, 1, '\'') then Step(2, st, Keep) else Step(1, Normal, Keep)
      else Step(1, st, Body)
    case QuotedIdentifier =>
      if s[0] == '"' then
        if At(s, 1, '"') then Step(2, st, Keep) else Step(1, Normal, Keep)
      else Step(1, st, Body)
    case DollarQuote(tag) =>
      if tag <= s then Step(|tag|, Normal, Keep) else Step(1, st, Body)
  }

  /** What is written: Strip drops comments, Mask blanks comments and literal
      bodies byte for byte, Remove turns each comment into one space, Fold also
      lowers the case of what is outside literals. */
  datatype Mode = Strip | Mask | Remove | Fold

  function Emit(mode: Mode, kind: Kind, text: string): string {
    match kind
    case Keep => text
    case Plain => if mode == Fold then FoldText(text) else text
    case Body => if mode == Mask then Spaces(ByteLen(text)) else text
    case CommentOpen =>
      (match mode case Strip => "" case Mask => Spaces(ByteLen(text)) case _ => " ")
    case InComment => if mode == Mask then Spaces(ByteLen(text)) else ""
  }

  /** Output of the loop for the unread text `s`. */
  function Scan(mode: Mode, lx: Lexis, look: Look, s: string, st: State): string
    decreases |s|
  {
    if s == "" then "" else
      var k := Next(lx, look, s, st);
      Emit(mode, k.kind, s[..k.n]) + Scan(mode, lx, LookAfter(lx, look, s[..k.n]), s[k.n..], k.post)
  }

  /** State in which the loop ends. */
  function Final(lx: Lexis, look: Look, s: string, st: State): State
    decreases |s|
  {
    if s == "" then st else
      var k := Next(lx, look, s, st);
      Final(lx, LookAfter(lx, look, s[..k.n]), s[k.n..], k.post)
  }

  /** The loop run on the whole text. */
  function Run(mode: Mode, lx: Lexis, s: string): string { Scan(mode, lx, QUIET, s, Normal) }

  // ---- look-back ----

  lemma {:induction false} LookConcat(lx: Lexis, look: Look, a: string, b: string)
    ensures LookAfter(lx, look, a + b) == LookAfter(lx, LookAfter(lx, look, a), b)
    decreases |a|
  {
    if a == "" {
      assert a + b == b;
    } else {
      assert (a + b)[0] == a[0] && (a + b)[1..] == a[1..] + b;
      LookConcat(lx, LookChar(lx, look, a[0]), a[1..], b);
    }
  }

  /** Only the last character and the one before it matter. */
  lemma LookLast(lx: Lexis, look: Look, s: string)
    requires s != ""
    ensures var c := s[|s| - 1];
            LookAfter(lx, look, s) == Look(IsIdentifier(lx, c),
              (c == 'E' || c == 'e') && !(if |s| == 1 then look.ident else IsIdentifier(lx, s[|s| - 2])))
  {
    var a, c := s[..|s| - 1], s[|s| - 1];
    assert s == a + [c];
    LookConcat(lx, look, a, [c]);
    assert LookAfter(lx, look, s) == LookChar(lx, LookAfter(lx, look, a), c);
    if a != "" {
      var b, d := a[..|a| - 1], a[|a| - 1];
      assert a == b + [d];
      LookConcat(lx, look, b, [d]);
      assert LookAfter(lx, look, a) == LookChar(lx, LookAfter(lx, look, b), d);
    }
  }

  // ---- look-ahead ----

  /** Cutting a text beyond its tag leaves the tag; cutting a text without one
      creates none. */
  lemma {:induction false} TagTailCut(lx: Lexis, s: string, first: bool, k: nat)
    requires TagTail(lx, s, first) <= k <= |s|
    ensures TagTail(lx, s[..k], first) == TagTail(lx, s, first)
    decreases |s|
  {
    if k > 0 && s[0] != '$' && IsTagChar(lx, s[0], first) {
      TagTailCut(lx, s[1..], false, k - 1);
      assert s[..k][1..] == s[1..][..k - 1];
    }
  }

  lemma DollarTagCut(lx: Lexis, s: string, k: nat)
    requires |DollarTag(lx, s)| <= k <= |s| && k > 0
    ensures DollarTag(lx, s[..k]) == DollarTag(lx, s)
  {
    hide TagTail;
    if s[0] == '$' {
      TagTailCut(lx, s[1..], true, k - 1);
      assert s[..k][1..] == s[1..][..k - 1];
    }
  }

  /** Cutting the unread text anywhere after what a step consumed does not
      change the step: what it looked at further on did not decide it. */
  lemma NextPrefix(lx: Lexis, look: Look, s: string, st: State, k: nat)
    requires s != "" && Next(lx, look, s, st).n <= k <= |s|
    ensures Next(lx, look, s[..k], st) == Next(lx, look, s, st)
  {
    var t := s[..k];
    assert t[0] == s[0] && (k > 1 ==> forall c :: At(t, 1, c) <==> At(s, 1, c));
    match st
    case Normal => if s[0] == '$' { DollarTagCut(lx, s, k); }
    case DollarQuote(tag) => assert |tag| <= k ==> (tag <= s <==> tag <= t);
    case _ =>
  }
}
