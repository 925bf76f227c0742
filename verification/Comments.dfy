/** The comment scanner of internal/preprocessor/comments.go: comment stripping,
    the length-preserving mask, and the byte spans of block comments. */
module Comments {
  import opened Text
  import opened Lexer
  import opened LexerLaws
  import opened Cuts
  import opened Sequences

  /** One block comment: byte offset of its first slash, and just past its end. */
  datatype Span = Span(start: nat, end: nat)

  /** The top-level block comments met from state `st`, for unread text `s` that
      starts at byte `off`; `start` is where the comment being read began. */
  function Spans(lx: Lexis, look: Look, s: string, st: State, off: nat, start: nat): seq<Span>
    decreases |s|
  {
    if s == "" then (if st.BlockComment? then [Span(start, off)] else []) else
      var k := Next(lx, look, s, st);
      var x := s[..k.n];
      var end := off + ByteLen(x);
      (if st.BlockComment? && k.post.Normal? then [Span(start, end)] else [])
      + Spans(lx, LookAfter(lx, look, x), s[k.n..], k.post, end,
              if st.Normal? && k.post.BlockComment? then off else start)
  }

  function BlockCommentSpans(lx: Lexis, s: string): seq<Span> { Spans(lx, QUIET, s, Normal, 0, 0) }

  // ---- helpers of the scanning loop ----

  predicate EscapeStringPrefixed(lx: Lexis, runes: string, i: nat)
    requires i < |runes|
  {
    if i == 0 || (runes[i - 1] != 'E' && runes[i - 1] != 'e') then false
    else i == 1 || !IsIdentifier(lx, runes[i - 2])
  }

  /** The look-back of the loop is the one carried by the lexer. */
  lemma EscapeIsLook(lx: Lexis, runes: string, i: nat)
    requires i < |runes|
    ensures EscapeStringPrefixed(lx, runes, i) == LookAfter(lx, QUIET, runes[..i]).escape
  {
    if i > 0 { LookLast(lx, QUIET, runes[..i]); }
  }

  lemma TagTailAt(lx: Lexis, runes: string, j: nat, first: bool)
    requires j < |runes|
    ensures var n := TagTail(lx, runes[j + 1..], false);
            TagTail(lx, runes[j..], first) ==
            if runes[j] == '$' then 1
            else if !IsTagChar(lx, runes[j], first) || n == 0 then 0 else n + 1
  {
    assert runes[j..][1..] == runes[j + 1..];
  }

  lemma DollarTagAt(lx: Lexis, runes: string, i: nat)
    requires i < |runes| && runes[i] == '$'
    ensures var n := TagTail(lx, runes[i + 1..], true);
            i + n < |runes| && DollarTag(lx, runes[i..]) == if n == 0 then "" else runes[i..i + n + 1]
  {
    assert runes[i..][1..] == runes[i + 1..];
  }

  /** The tag at `i`, if any, is what was read up to `j` and the rest of a tag from `j`. */
  predicate TagGoesOn(lx: Lexis, runes: string, i: nat, j: nat)
    requires i < j <= |runes|
  {
    var rest := TagTail(lx, runes[j..], j == i + 1);
    TagTail(lx, runes[i + 1..], true) == if rest == 0 then 0 else rest + (j - i - 1)
  }

  lemma TagGoesOnStep(lx: Lexis, runes: string, i: nat, j: nat)
    requires i < j <= |runes| && runes[i] == '$' && TagGoesOn(lx, runes, i, j)
    ensures if j == |runes| then DollarTag(lx, runes[i..]) == ""
            else if runes[j] == '$' then DollarTag(lx, runes[i..]) == runes[i..j + 1]
            else if !IsTagChar(lx, runes[j], j == i + 1) then DollarTag(lx, runes[i..]) == ""
            else TagGoesOn(lx, runes, i, j + 1)
  {
    hide TagTail, DollarTag, IsTagChar;
    DollarTagAt(lx, runes, i);
    if j < |runes| { TagTailAt(lx, runes, j, j == i + 1); }
  }

  method ExtractDollarTag(lx: Lexis, runes: string, i: nat) returns (tag: string)
    requires i < |runes|
    ensures tag == DollarTag(lx, runes[i..])
  {
    if runes[i] != '$' {
      return "";
    }
    hide TagTail, DollarTag, IsLetter, IsDigit, TagGoesOn;
    var j := i + 1;
    TagGoesOnStart(lx, runes, i);
    while j < |runes|
      invariant i < j <= |runes|
      invariant TagGoesOn(lx, runes, i, j)
    {
      var r := runes[j];
      TagGoesOnStep(lx, runes, i, j);
      if r == '$' {
        return runes[i..j + 1];
      }
      if j == i + 1 {
        if !IsLetter(lx, r) && r != '_' {
          return "";
        }
      } else {
        if !IsLetter(lx, r) && !IsDigit(lx, r) && r != '_' {
          return "";
        }
      }
      j := j + 1;
    }
    TagGoesOnStep(lx, runes, i, j);
    return "";
  }

  lemma TagGoesOnStart(lx: Lexis, runes: string, i: nat)
    requires i < |runes|
    ensures TagGoesOn(lx, runes, i, i + 1)
  {}

  method MatchesDollarTag(runes: string, i: nat, tag: string) returns (matches: bool)
    requires i <= |runes|
    ensures matches <==> tag <= runes[i..]
  {
    if i + |tag| > |runes| {
      return false;
    }
    for j := 0 to |tag|
      invariant tag[..j] <= runes[i..]
    {
      if runes[i + j] != tag[j] {
        return false;
      }
    }
    assert tag[..|tag|] == tag;
    return true;
  }

  /** Byte offset of every rune, and of the end. */
  method ByteOffsets(runes: string) returns (byteAt: array<nat>)
    ensures fresh(byteAt) && byteAt.Length == |runes| + 1
    ensures forall k :: 0 <= k <= |runes| ==> byteAt[k] == ByteLen(runes[..k])
  {
    byteAt := new nat[|runes| + 1];
    byteAt[0] := 0;
    for idx := 0 to |runes|
      invariant forall k :: 0 <= k <= idx ==> byteAt[k] == ByteLen(runes[..k])
    {
      assert runes[..idx + 1] == runes[..idx] + [runes[idx]];
      EncodeConcat(runes[..idx], [runes[idx]]);
      assert Encode([runes[idx]]) == EncodeChar(runes[idx]);
      byteAt[idx + 1] := byteAt[idx] + Width(runes[idx]);
    }
  }

  // ---- the scanning loop ----

  function LookAt(lx: Lexis, runes: string, i: nat): Look
    requires i <= |runes|
  {
    LookAfter(lx, QUIET, runes[..i])
  }

  /** The step taken at position `i`. */
  function StepAt(lx: Lexis, runes: string, i: nat, st: State): (k: Step)
    requires i < |runes|
    ensures 1 <= k.n && i + k.n <= |runes|
  {
    Next(lx, LookAt(lx, runes, i), runes[i..], st)
  }

  function ScanFrom(mode: Mode, lx: Lexis, runes: string, i: nat, st: State): string
    requires i <= |runes|
  {
    Scan(mode, lx, LookAt(lx, runes, i), runes[i..], st)
  }

  function SpansFrom(lx: Lexis, runes: string, i: nat, st: State, start: nat): seq<Span>
    requires i <= |runes|
  {
    Spans(lx, LookAt(lx, runes, i), runes[i..], st, ByteLen(runes[..i]), start)
  }

  lemma StepSlices(runes: string, i: nat, n: nat)
    requires i + n <= |runes|
    ensures runes[i..][..n] == runes[i..i + n] && runes[i..][n..] == runes[i + n..]
    ensures runes[..i + n] == runes[..i] + runes[i..i + n]
    ensures n > 0 ==> runes[i..][0] == runes[i]
    ensures n == 1 ==> runes[i..i + n] == [runes[i]]
    ensures n == 2 ==> runes[i..i + n] == [runes[i], runes[i + 1]]
  {}

  lemma Advance(mode: Mode, lx: Lexis, runes: string, i: nat, st: State)
    requires i < |runes|
    ensures var k := StepAt(lx, runes, i, st);
            ScanFrom(mode, lx, runes, i, st) ==
            Emit(mode, k.kind, runes[i..i + k.n]) + ScanFrom(mode, lx, runes, i + k.n, k.post)
  {
    hide Next, Emit;
    var k := StepAt(lx, runes, i, st);
    StepSlices(runes, i, k.n);
    LookConcat(lx, QUIET, runes[..i], runes[i..i + k.n]);
  }

  lemma AdvanceSpans(lx: Lexis, runes: string, i: nat, st: State, start: nat)
    requires i < |runes|
    ensures var k := StepAt(lx, runes, i, st);
            var off, end := ByteLen(runes[..i]), ByteLen(runes[..i + k.n]);
            SpansFrom(lx, runes, i, st, start) ==
            (if st.BlockComment? && k.post.Normal? then [Span(start, end)] else [])
            + SpansFrom(lx, runes, i + k.n, k.post, if st.Normal? && k.post.BlockComment? then off else start)
  {
    hide Next, Encode;
    var k := StepAt(lx, runes, i, st);
    StepSlices(runes, i, k.n);
    LookConcat(lx, QUIET, runes[..i], runes[i..i + k.n]);
    EncodeConcat(runes[..i], runes[i..i + k.n]);
  }

  lemma RuneBytes(c: char, d: char)
    ensures ByteLen([c]) == Width(c) && ByteLen([c, d]) == Width(c) + Width(d)
  {
    assert Encode([d]) == EncodeChar(d);
    assert [c, d][1..] == [d];
    assert [c][1..] == "";
  }

  /** What one pass of the loop does in state `st` at position `i`: how far it
      moves, the state it leaves and what it appends. */
  predicate Arm(lx: Lexis, runes: string, i: nat, st: State, lengthPreserve: bool, n: nat, post: State, out: string)
    requires i < |runes|
  {
    var k := StepAt(lx, runes, i, st);
    && n == k.n && post == k.post
    && out == Emit(if lengthPreserve then Mask else Mode.Strip, k.kind, runes[i..i + k.n])
  }

  method NormalArm(lx: Lexis, runes: string, i: nat, lengthPreserve: bool)
    returns (n: nat, post: State, out: string)
    requires i < |runes|
    ensures Arm(lx, runes, i, Normal, lengthPreserve, n, post, out)
  {
    hide LookAfter, Encode, EncodeChar, Width, DollarTag, IsTag, IsIdentifier;
    var r := runes[i];
    var next := if i + 1 < |runes| then runes[i + 1] else '\0';
    StepSlices(runes, i, StepAt(lx, runes, i, Normal).n);
    RuneBytes(r, next);
    if r == '-' && next == '-' {
      return 2, LineComment, if lengthPreserve then Spaces(Width(r) + Width(next)) else "";
    } else if r == '/' && next == '*' {
      return 2, BlockComment(1), if lengthPreserve then Spaces(Width(r) + Width(next)) else "";
    } else if r == '\'' {
      EscapeIsLook(lx, runes, i);
      return 1, SingleQuote(EscapeStringPrefixed(lx, runes, i)), [r];
    } else if r == '"' {
      return 1, QuotedIdentifier, [r];
    } else if r == '$' {
      var tag := ExtractDollarTag(lx, runes, i);
      if tag != "" {
        return |tag|, DollarQuote(tag), tag;
      }
    }
    return 1, Normal, [r];
  }

  method LineCommentArm(lx: Lexis, runes: string, i: nat, lengthPreserve: bool)
    returns (n: nat, post: State, out: string)
    requires i < |runes|
    ensures Arm(lx, runes, i, LineComment, lengthPreserve, n, post, out)
  {
    hide LookAfter, Encode, EncodeChar, Width;
    var r := runes[i];
    var next := if i + 1 < |runes| then runes[i + 1] else '\0';
    StepSlices(runes, i, StepAt(lx, runes, i, LineComment).n);
    RuneBytes(r, next);
    if r == '\n' {
      return 1, Normal, [r];
    } else if r == '\r' && next == '\n' {
      return 2, Normal, [r, next];
    }
    return 1, LineComment, if lengthPreserve then Spaces(Width(r)) else "";
  }

  method BlockCommentArm(lx: Lexis, runes: string, i: nat, blockDepth: nat, lengthPreserve: bool)
    returns (n: nat, post: State, out: string)
    requires i < |runes| && blockDepth >= 1
    ensures Arm(lx, runes, i, BlockComment(blockDepth), lengthPreserve, n, post, out)
    ensures post.BlockComment? ==> post.depth >= 1
  {
    hide LookAfter, Encode, EncodeChar, Width;
    var r := runes[i];
    var next := if i + 1 < |runes| then runes[i + 1] else '\0';
    StepSlices(runes, i, StepAt(lx, runes, i, BlockComment(blockDepth)).n);
    RuneBytes(r, next);
    if r == '/' && next == '*' {
      return 2, BlockComment(blockDepth + 1), if lengthPreserve then Spaces(Width(r) + Width(next)) else "";
    } else if r == '*' && next == '/' {
      return 2, if blockDepth - 1 == 0 then Normal else BlockComment(blockDepth - 1),
             if lengthPreserve then Spaces(Width(r) + Width(next)) else "";
    }
    return 1, BlockComment(blockDepth), if lengthPreserve then Spaces(Width(r)) else "";
  }

  method SingleQuoteArm(lx: Lexis, runes: string, i: nat, escapeString: bool, lengthPreserve: bool)
    returns (n: nat, post: State, out: string)
    requires i < |runes|
    ensures Arm(lx, runes, i, SingleQuote(escapeString), lengthPreserve, n, post, out)
  {
    hide LookAfter, Encode, EncodeChar, Width;
    var r := runes[i];
    var next := if i + 1 < |runes| then runes[i + 1] else '\0';
    StepSlices(runes, i, StepAt(lx, runes, i, SingleQuote(escapeString)).n);
    RuneBytes(r, next);
    if escapeString && r == '\\' && i + 1 < |runes| {
      return 2, SingleQuote(escapeString), if lengthPreserve then Spaces(Width(r) + Width(next)) else [r, next];
    } else if r == '\'' {
      if next == '\'' {
        return 2, SingleQuote(escapeString), [r, next];
      }
      return 1, Normal, [r];
    }
    return 1, SingleQuote(escapeString), if lengthPreserve then Spaces(Width(r)) else [r];
  }

  method QuotedIdentifierArm(lx: Lexis, runes: string, i: nat, lengthPreserve: bool)
    returns (n: nat, post: State, out: string)
    requires i < |runes|
    ensures Arm(lx, runes, i, QuotedIdentifier, lengthPreserve, n, post, out)
  {
    hide LookAfter, Encode, EncodeChar, Width;
    var r := runes[i];
    var next := if i + 1 < |runes| then runes[i + 1] else '\0';
    StepSlices(runes, i, StepAt(lx, runes, i, QuotedIdentifier).n);
    RuneBytes(r, next);
    if r == '"' {
      if next == '"' {
        return 2, QuotedIdentifier, [r, next];
      }
      return 1, Normal, [r];
    }
    return 1, QuotedIdentifier, if lengthPreserve then Spaces(Width(r)) else [r];
  }

  method DollarQuoteArm(lx: Lexis, runes: string, i: nat, dollarTag: Tag, lengthPreserve: bool)
    returns (n: nat, post: State, out: string)
    requires i < |runes|
    ensures Arm(lx, runes, i, DollarQuote(dollarTag), lengthPreserve, n, post, out)
  {
    hide LookAfter, Encode, EncodeChar, Width;
    var r := runes[i];
    StepSlices(runes, i, StepAt(lx, runes, i, DollarQuote(dollarTag)).n);
    RuneBytes(r, r);
    var matches := MatchesDollarTag(runes, i, dollarTag);
    if matches {
      return |dollarTag|, Normal, dollarTag;
    }
    return 1, DollarQuote(dollarTag), if lengthPreserve then Spaces(Width(r)) else [r];
  }

  /** The switch of the loop. */
  method OneStep(lx: Lexis, runes: string, i: nat, state: State, lengthPreserve: bool)
    returns (n: nat, post: State, out: string)
    requires i < |runes| && (state.BlockComment? ==> state.depth >= 1)
    ensures Arm(lx, runes, i, state, lengthPreserve, n, post, out)
    ensures post.BlockComment? ==> post.depth >= 1
  {
    match state
    case Normal => n, post, out := NormalArm(lx, runes, i, lengthPreserve);
    case LineComment => n, post, out := LineCommentArm(lx, runes, i, lengthPreserve);
    case BlockComment(blockDepth) => n, post, out := BlockCommentArm(lx, runes, i, blockDepth, lengthPreserve);
    case SingleQuote(escapeString) => n, post, out := SingleQuoteArm(lx, runes, i, escapeString, lengthPreserve);
    case QuotedIdentifier => n, post, out := QuotedIdentifierArm(lx, runes, i, lengthPreserve);
    case DollarQuote(dollarTag) => n, post, out := DollarQuoteArm(lx, runes, i, dollarTag, lengthPreserve);
  }

  lemma ScanEnds(mode: Mode, lx: Lexis, runes: string, st: State, start: nat)
    ensures ScanFrom(mode, lx, runes, 0, Normal) == Run(mode, lx, runes)
    ensures SpansFrom(lx, runes, 0, Normal, 0) == BlockCommentSpans(lx, runes)
    ensures ScanFrom(mode, lx, runes, |runes|, st) == ""
    ensures SpansFrom(lx, runes, |runes|, st, start) == if st.BlockComment? then [Span(start, ByteLen(runes))] else []
  {
    assert runes[..0] == "" && runes[0..] == runes && runes[..|runes|] == runes && runes[|runes|..] == "";
  }

  /** The loop behind Strip, RedactForMacros and BlockComments. */
  method ScanSql(lx: Lexis, runes: string, lengthPreserve: bool, wantSpans: bool)
    returns (result: string, spans: seq<Span>)
    ensures result == Run(if lengthPreserve then Mask else Mode.Strip, lx, runes)
    ensures spans == if wantSpans then BlockCommentSpans(lx, runes) else []
  {
    hide ScanFrom, SpansFrom, Run, BlockCommentSpans, StepAt, ByteLen, Emit;
    ghost var mode := if lengthPreserve then Mask else Mode.Strip;
    result, spans := "", [];
    var byteAt := ByteOffsets(runes);
    var state, i, commentStart := Normal, 0, 0;
    ScanEnds(mode, lx, runes, state, 0);
    while i < |runes|
      invariant i <= |runes|
      invariant state.BlockComment? ==> state.depth >= 1
      invariant result + ScanFrom(mode, lx, runes, i, state) == Run(mode, lx, runes)
      invariant wantSpans ==> spans + SpansFrom(lx, runes, i, state, commentStart) == BlockCommentSpans(lx, runes)
      invariant !wantSpans ==> spans == []
      modifies {}
    {
      Advance(mode, lx, runes, i, state);
      AdvanceSpans(lx, runes, i, state, commentStart);
      var n, post, out := OneStep(lx, runes, i, state, lengthPreserve);
      ghost var closed := if state.BlockComment? && post.Normal? then [Span(commentStart, byteAt[i + n])] else [];
      Assoc(spans, closed, SpansFrom(lx, runes, i + n, post,
                                          if state.Normal? && post.BlockComment? then byteAt[i] else commentStart));
      if state.Normal? && post.BlockComment? {
        commentStart := byteAt[i];
      } else if wantSpans && state.BlockComment? && post.Normal? {
        spans := spans + [Span(commentStart, byteAt[i + n])];
      }
      result, state, i := result + out, post, i + n;
    }
    ScanEnds(mode, lx, runes, state, commentStart);
    NothingBehind(spans);
    assert runes[..|runes|] == runes;
    if wantSpans && state.BlockComment? {
      spans := spans + [Span(commentStart, byteAt[|runes|])];
    }
  }

  method Strip(lx: Lexis, sql: string) returns (result: string)
    ensures result == Run(Mode.Strip, lx, sql)
  {
    var spans;
    result, spans := ScanSql(lx, sql, false, false);
  }

  method RedactForMacros(lx: Lexis, sql: string) returns (result: string)
    ensures result == Run(Mask, lx, sql)
  {
    var spans;
    result, spans := ScanSql(lx, sql, true, false);
  }

  method BlockComments(lx: Lexis, sql: string) returns (spans: seq<Span>)
    ensures spans == BlockCommentSpans(lx, sql)
  {
    var result;
    result, spans := ScanSql(lx, sql, false, true);
  }

  // ---- the mask is a fixed point ----

  lemma OnlyOpensBlocks(lx: Lexis, look: Look, s: string, st: State)
    requires s != "" && !st.BlockComment? && !Next(lx, look, s, st).kind.CommentOpen?
    ensures !Next(lx, look, s, st).post.BlockComment?
  {}

  lemma {:induction false} CleanHasNoSpans(mode: Mode, lx: Lexis, look: Look, s: string, st: State, off: nat, start: nat)
    requires Clean(mode, lx, look, s, st) && !st.BlockComment?
    ensures Spans(lx, look, s, st, off, start) == []
    decreases |s|
  {
    hide Next, LookAfter, Emit, Encode;
    if s != "" {
      var k := Next(lx, look, s, st);
      OnlyOpensBlocks(lx, look, s, st);
      CleanHasNoSpans(mode, lx, LookAfter(lx, look, s[..k.n]), s[k.n..], k.post, off + ByteLen(s[..k.n]), start);
    }
  }

  /** For every script: the mask has the script's byte length and at each byte
      the script's byte or a space; masking it again or stripping it changes
      nothing, and it holds no block comment. */
  lemma MaskIsFixedPoint(lx: Lexis, sql: string)
    ensures var mask := Run(Mask, lx, sql);
            && SourceOrBlank(Encode(mask), Encode(sql))
            && Run(Mask, lx, mask) == mask && Run(Mode.Strip, lx, mask) == mask
            && BlockCommentSpans(lx, mask) == []
  {
    hide Clean, Scan;
    MaskBytes(lx, QUIET, sql, Normal);
    OutputIsFixedPoint(Mask, lx, sql);
    CleanHasNoSpans(Mask, lx, QUIET, Run(Mask, lx, sql), Normal, 0, 0);
  }
}
