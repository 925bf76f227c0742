/** The two scanners of the program agree: the one of the preprocessor, over code
    points, and the one of the checksum, over bytes. */
module Agreement {
  import opened Text
  import opened Lexer
  import opened Comments
  import opened Sequences

  // ---- the same states ----

  lemma {:induction false} TagsAgree(letters: set<char>, digits: set<char>, s: string, first: bool)
    requires IsAscii(s)
    ensures TagTail(Runes(letters, digits), s, first) == TagTail(ByteWise, s, first)
  {
    if s != "" { TagsAgree(letters, digits, s[1..], false); }
  }

  lemma NextAgrees(letters: set<char>, digits: set<char>, look: Look, s: string, st: State)
    requires IsAscii(s) && s != ""
    ensures Next(Runes(letters, digits), look, s, st) == Next(ByteWise, look, s, st)
  {
    TagsAgree(letters, digits, s[1..], true);
  }

  lemma {:induction false} LooksAgree(letters: set<char>, digits: set<char>, look: Look, s: string)
    requires IsAscii(s)
    ensures LookAfter(Runes(letters, digits), look, s) == LookAfter(ByteWise, look, s)
    decreases |s|
  {
    if s != "" {
      var lx := Runes(letters, digits);
      assert LookChar(lx, look, s[0]) == LookChar(ByteWise, look, s[0]);
      LooksAgree(letters, digits, LookChar(lx, look, s[0]), s[1..]);
    }
  }

  datatype Visit = Visit(at: nat, state: State)

  /** Every step boundary with the state the scanner is in there. */
  function Visits(lx: Lexis, look: Look, s: string, st: State, at: nat): seq<Visit>
    decreases |s|
  {
    [Visit(at, st)] +
    if s == "" then [] else
      var k := Next(lx, look, s, st);
      Visits(lx, LookAfter(lx, look, s[..k.n]), s[k.n..], k.post, at + k.n)
  }

  lemma AsciiParts(s: string, n: nat)
    requires IsAscii(s) && n <= |s|
    ensures IsAscii(s[..n]) && IsAscii(s[n..])
  {}

  lemma {:induction false} AgreeFrom(letters: set<char>, digits: set<char>, mode: Mode, look: Look, s: string, st: State, at: nat)
    requires IsAscii(s)
    ensures Visits(Runes(letters, digits), look, s, st, at) == Visits(ByteWise, look, s, st, at)
    ensures Scan(mode, Runes(letters, digits), look, s, st) == Scan(mode, ByteWise, look, s, st)
    decreases |s|
  {
    hide Next, LookAfter, Emit, IsAscii;
    if s != "" {
      var lx := Runes(letters, digits);
      NextAgrees(letters, digits, look, s, st);
      var k := Next(lx, look, s, st);
      AsciiParts(s, k.n);
      LooksAgree(letters, digits, look, s[..k.n]);
      AgreeFrom(letters, digits, mode, LookAfter(lx, look, s[..k.n]), s[k.n..], k.post, at + k.n);
    }
  }

  /** On every ASCII text, whatever the Unicode tables say above ASCII, the two
      scanners pass through the same states at the same places, and write the
      same in every mode. */
  lemma ScannersAgree(letters: set<char>, digits: set<char>, mode: Mode, s: string)
    requires IsAscii(s)
    ensures Visits(Runes(letters, digits), QUIET, s, Normal, 0) == Visits(ByteWise, QUIET, s, Normal, 0)
    ensures Run(mode, Runes(letters, digits), s) == Run(mode, ByteWise, s)
  {
    AgreeFrom(letters, digits, mode, QUIET, s, Normal, 0);
  }

  // ---- comment removal and comment spans ----

  /** Spans in order, apart, and within `from` .. `n`. */
  predicate Spaced(spans: seq<Span>, from: nat, n: nat) {
    if spans == [] then from <= n
    else from <= spans[0].start <= spans[0].end && Spaced(spans[1..], spans[0].end, n)
  }

  lemma {:induction false} SpacedBounds(spans: seq<Span>, from: nat, n: nat)
    requires Spaced(spans, from, n)
    ensures from <= n && (spans != [] ==> spans[0].end <= n)
  {
    if spans != [] { SpacedBounds(spans[1..], spans[0].end, n); }
  }

  /** `b` from `from` on, with each span replaced by `filler`. */
  function Replaced(b: Bytes, spans: seq<Span>, from: nat, filler: Bytes): Bytes
    requires Spaced(spans, from, |b|)
    decreases |spans|
  {
    SpacedBounds(spans, from, |b|);
    if spans == [] then b[from..]
    else b[from..spans[0].start] + filler + Replaced(b, spans[1..], spans[0].end, filler)
  }

  predicate NoLineComment(lx: Lexis, look: Look, s: string, st: State)
    decreases |s|
  {
    !st.LineComment? &&
    (s == "" ||
     var k := Next(lx, look, s, st);
     NoLineComment(lx, LookAfter(lx, look, s[..k.n]), s[k.n..], k.post))
  }

  function Filler(mode: Mode): Bytes { if mode == Remove then " " else "" }

  /** What is written inside or outside a block comment, in terms of the spans
      still to come; `b` is the whole script in bytes, of which `off` are read. */
  predicate ExplainedBy(inBlock: bool, spans: seq<Span>, out: Bytes, b: Bytes, off: nat, start: nat, filler: Bytes) {
    if inBlock then
      && spans != [] && spans[0].start == start && off <= spans[0].end
      && Spaced(spans[1..], spans[0].end, |b|) && out == Replaced(b, spans[1..], spans[0].end, filler)
    else
      Spaced(spans, off, |b|) && out == Replaced(b, spans, off, filler)
  }

  predicate Explained(mode: Mode, lx: Lexis, look: Look, s: string, st: State, b: Bytes, off: nat, start: nat) {
    ExplainedBy(st.BlockComment?, Spans(lx, look, s, st, off, start), Encode(Scan(mode, lx, look, s, st)), b, off, start, Filler(mode))
  }

  /** Text outside comments in front of the rest. */
  lemma CopyBefore(b: Bytes, x: Bytes, spans: seq<Span>, off: nat, filler: Bytes)
    requires off + |x| <= |b| && b[off..off + |x|] == x && Spaced(spans, off + |x|, |b|)
    ensures Spaced(spans, off, |b|) && x + Replaced(b, spans, off + |x|, filler) == Replaced(b, spans, off, filler)
  {
    SpacedBounds(spans, off + |x|, |b|);
    if spans == [] {
      assert x + b[off + |x|..] == b[off..];
    } else {
      assert x + b[off + |x|..spans[0].start] == b[off..spans[0].start];
      var rest := Replaced(b, spans[1..], spans[0].end, filler);
      assert x + (b[off + |x|..spans[0].start] + filler + rest) == (x + b[off + |x|..spans[0].start]) + filler + rest;
    }
  }

  /** Reading `x`, which leads into, through or out of a block comment, or past it. */
  lemma JoinExplained(was: bool, now: bool, spans: seq<Span>, out: Bytes, b: Bytes, off: nat, x: Bytes, start: nat, filler: Bytes)
    requires off + |x| <= |b| && b[off..off + |x|] == x
    requires ExplainedBy(now, spans, out, b, off + |x|, if !was && now then off else start, filler)
    ensures ExplainedBy(was, (if was && !now then [Span(start, off + |x|)] else []) + spans,
                        (if was then "" else if now then filler else x) + out, b, off, start, filler)
  {
    assert "" + out == out && [] + spans == spans;
    if was {
      if !now { assert ([Span(start, off + |x|)] + spans)[1..] == spans; }
    } else if now {
      assert b[off..off] == "" && "" + filler == filler;
    } else {
      CopyBefore(b, x, spans, off, filler);
    }
  }

  lemma EmitOfStep(mode: Mode, lx: Lexis, look: Look, s: string, st: State)
    requires s != "" && (mode == Strip || mode == Remove) && !st.LineComment?
    requires !Next(lx, look, s, st).post.LineComment?
    ensures var k := Next(lx, look, s, st);
            && Emit(mode, k.kind, s[..k.n]) ==
               (if st.BlockComment? then "" else if k.post.BlockComment? then Filler(mode) else s[..k.n])
            && (!st.BlockComment? && k.post.BlockComment? ==> st.Normal?)
            && (st.BlockComment? ==> k.post.BlockComment? || k.post.Normal?)
  {
    hide DollarTag, Encode;
  }

  lemma SpansUnfold(lx: Lexis, look: Look, s: string, st: State, off: nat, start: nat)
    requires s != ""
    ensures var k := Next(lx, look, s, st);
            var x := s[..k.n];
            Spans(lx, look, s, st, off, start) ==
            (if st.BlockComment? && k.post.Normal? then [Span(start, off + ByteLen(x))] else [])
            + Spans(lx, LookAfter(lx, look, x), s[k.n..], k.post, off + ByteLen(x),
                    if st.Normal? && k.post.BlockComment? then off else start)
  {
    hide Next, LookAfter, Encode;
  }

  lemma SpansStep(lx: Lexis, look: Look, s: string, st: State, off: nat, start: nat)
    requires s != "" && !st.LineComment? && !Next(lx, look, s, st).post.LineComment?
    ensures var k := Next(lx, look, s, st);
            var x, look1 := s[..k.n], LookAfter(lx, look, s[..k.n]);
            var was, now := st.BlockComment?, k.post.BlockComment?;
            Spans(lx, look, s, st, off, start) ==
            (if was && !now then [Span(start, off + ByteLen(x))] else [])
            + Spans(lx, look1, s[k.n..], k.post, off + ByteLen(x), if !was && now then off else start)
  {
    hide Next, LookAfter, Encode, Spans, Emit;
    EmitOfStep(Strip, lx, look, s, st);
    SpansUnfold(lx, look, s, st, off, start);
  }

  lemma BytesStep(mode: Mode, lx: Lexis, look: Look, s: string, st: State)
    requires s != "" && (mode == Strip || mode == Remove) && !st.LineComment?
    requires !Next(lx, look, s, st).post.LineComment?
    ensures var k := Next(lx, look, s, st);
            var x, look1 := s[..k.n], LookAfter(lx, look, s[..k.n]);
            Encode(Scan(mode, lx, look, s, st)) ==
            (if st.BlockComment? then "" else if k.post.BlockComment? then Filler(mode) else Encode(x))
            + Encode(Scan(mode, lx, look1, s[k.n..], k.post))
  {
    EmitOfStep(mode, lx, look, s, st);
    FillerBytes(mode);
    hide Next, LookAfter, Emit, Encode, EncodeChar, Filler;
    var k := Next(lx, look, s, st);
    EncodeConcat(Emit(mode, k.kind, s[..k.n]), Scan(mode, lx, LookAfter(lx, look, s[..k.n]), s[k.n..], k.post));
  }

  lemma FillerBytes(mode: Mode)
    ensures Encode(Filler(mode)) == Filler(mode) && Encode("") == ""
  {
    EncodeAscii(" ");
  }

  lemma {:induction false} SpansExplain(mode: Mode, lx: Lexis, look: Look, s: string, st: State, b: Bytes, off: nat, start: nat)
    requires mode == Strip || mode == Remove
    requires NoLineComment(lx, look, s, st)
    requires off <= |b| && b[off..] == Encode(s)
    ensures Explained(mode, lx, look, s, st, b, off, start)
    decreases |s|
  {
    hide Next, LookAfter, Emit, Encode, Scan, Spans, ExplainedBy, Filler;
    if s == "" {
      NothingLeft(mode, lx, look, st, b, off, start);
    } else {
      var k := Next(lx, look, s, st);
      var x, r := s[..k.n], s[k.n..];
      EncodeConcat(x, r);
      SplitAt(s, k.n);
      SliceAfter(b, off, Encode(x), Encode(r));
      BytesStep(mode, lx, look, s, st);
      SpansStep(lx, look, s, st, off, start);
      var was, now := st.BlockComment?, k.post.BlockComment?;
      var start1 := if !was && now then off else start;
      var look1 := LookAfter(lx, look, x);
      SpansExplain(mode, lx, look1, r, k.post, b, off + ByteLen(x), start1);
      JoinExplained(was, now, Spans(lx, look1, r, k.post, off + ByteLen(x), start1),
                    Encode(Scan(mode, lx, look1, r, k.post)), b, off, Encode(x), start, Filler(mode));
    }
  }

  lemma SliceAfter(b: Bytes, off: nat, x: Bytes, r: Bytes)
    requires off <= |b| && b[off..] == x + r
    ensures off + |x| <= |b| && b[off..off + |x|] == x && b[off + |x|..] == r
  {
    assert b[off..][..|x|] == x && b[off..][|x|..] == r;
    assert b[off..][..|x|] == b[off..off + |x|] && b[off..][|x|..] == b[off + |x|..];
  }

  lemma NothingLeft(mode: Mode, lx: Lexis, look: Look, st: State, b: Bytes, off: nat, start: nat)
    requires off == |b|
    ensures Explained(mode, lx, look, "", st, b, off, start)
  {
    assert b[off..] == "";
  }

  /** For every text without line comments, the reported spans are in order and
      apart, Strip deletes exactly them, and comment removal replaces each of
      them, nested or unterminated, by one space. */
  lemma SpansAreTheComments(mode: Mode, lx: Lexis, s: string)
    requires (mode == Strip || mode == Remove) && NoLineComment(lx, QUIET, s, Normal)
    ensures Spaced(BlockCommentSpans(lx, s), 0, ByteLen(s))
    ensures Encode(Run(mode, lx, s)) == Replaced(Encode(s), BlockCommentSpans(lx, s), 0, Filler(mode))
  {
    assert Encode(s)[0..] == Encode(s);
    SpansExplain(mode, lx, QUIET, s, Normal, Encode(s), 0, 0);
  }

  /** Hence the comment removal of the checksum, on ASCII text without line
      comments, is the source with each span that the preprocessor's scanner
      reports replaced by one space. */
  lemma RemovalMatchesSpans(letters: set<char>, digits: set<char>, s: string)
    requires IsAscii(s) && NoLineComment(Runes(letters, digits), QUIET, s, Normal)
    ensures var spans := BlockCommentSpans(Runes(letters, digits), s);
            Spaced(spans, 0, |s|) && Run(Remove, ByteWise, s) == Replaced(s, spans, 0, " ")
  {
    hide Scan, NoLineComment, Encode;
    var lx := Runes(letters, digits);
    SpansAreTheComments(Remove, lx, s);
    ScannersAgree(letters, digits, Remove, s);
    EncodeAscii(s);
    OutputIsAscii(Remove, lx, QUIET, s, Normal);
    EncodeAscii(Run(Remove, lx, s));
  }

  lemma {:induction false} OutputIsAscii(mode: Mode, lx: Lexis, look: Look, s: string, st: State)
    requires IsAscii(s)
    ensures IsAscii(Scan(mode, lx, look, s, st))
    decreases |s|
  {
    hide Next, LookAfter, Encode;
    if s != "" {
      var k := Next(lx, look, s, st);
      AsciiParts(s, k.n);
      OutputIsAscii(mode, lx, LookAfter(lx, look, s[..k.n]), s[k.n..], k.post);
    }
  }
}
