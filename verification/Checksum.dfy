/** The normalized checksum of internal/checksum/calculator.go.  The scanner is
    the byte-wise reading of the lexer; the white space pass reads the runes of
    what the scanner wrote. */
module Checksum {
  import opened Text
  import opened Trimming
  import opened Lexer
  import opened LexerLaws
  import Comments

  // ---- the program ----

  method ExtractDollarTag(s: Bytes, i: nat) returns (tag: Bytes)
    requires i < |s|
    ensures tag == DollarTag(ByteWise, s[i..])
  {
    if s[i] != '$' {
      return "";
    }
    hide TagTail, DollarTag, IsTag, IsLetter, IsDigit, Comments.TagGoesOn;
    Comments.TagGoesOnStart(ByteWise, s, i);
    var j := i + 1;
    while j < |s|
      invariant i < j <= |s|
      invariant Comments.TagGoesOn(ByteWise, s, i, j)
    {
      Comments.TagGoesOnStep(ByteWise, s, i, j);
      if s[j] == '$' {
        return s[i..j + 1];
      }
      if !IsTagChar(ByteWise, s[j], j == i + 1) {
        return "";
      }
      j := j + 1;
    }
    Comments.TagGoesOnStep(ByteWise, s, i, j);
    return "";
  }

  /** What one pass of the loop does in state `st` at offset `i`. */
  predicate Arm(s: Bytes, i: nat, st: State, foldCase: bool, n: nat, post: State, out: Bytes)
    requires i < |s|
  {
    var k := Comments.StepAt(ByteWise, s, i, st);
    n == k.n && post == k.post && out == Emit(if foldCase then Fold else Remove, k.kind, s[i..i + k.n])
  }

  method NormalArm(s: Bytes, i: nat, foldCase: bool) returns (n: nat, post: State, out: Bytes)
    requires i < |s|
    ensures Arm(s, i, Normal, foldCase, n, post, out)
  {
    hide LookAfter, DollarTag, IsTag, IsIdentifier, Encode;
    var ch := s[i];
    var next := if i + 1 < |s| then s[i + 1] else '\0';
    Comments.StepSlices(s, i, Comments.StepAt(ByteWise, s, i, Normal).n);
    if ch == '-' && next == '-' {
      return 2, LineComment, " ";
    } else if ch == '/' && next == '*' {
      return 2, BlockComment(1), " ";
    } else if ch == '\'' {
      Comments.EscapeIsLook(ByteWise, s, i);
      return 1, SingleQuote(Comments.EscapeStringPrefixed(ByteWise, s, i)), [ch];
    } else if ch == '"' {
      return 1, QuotedIdentifier, [ch];
    } else if ch == '$' {
      var tag := ExtractDollarTag(s, i);
      if tag != "" {
        return |tag|, DollarQuote(tag), tag;
      }
      return 1, Normal, [ch];
    }
    if foldCase {
      assert FoldText([ch]) == [FoldAscii(ch)];
      ch := FoldAscii(ch);
    }
    return 1, Normal, [ch];
  }

  method CommentArm(s: Bytes, i: nat, st: State, foldCase: bool) returns (n: nat, post: State, out: Bytes)
    requires i < |s| && InCommentState(st) && (st.BlockComment? ==> st.depth >= 1)
    ensures Arm(s, i, st, foldCase, n, post, out)
    ensures post.BlockComment? ==> post.depth >= 1
  {
    hide LookAfter, Encode;
    var ch := s[i];
    var next := if i + 1 < |s| then s[i + 1] else '\0';
    Comments.StepSlices(s, i, Comments.StepAt(ByteWise, s, i, st).n);
    match st
    case LineComment =>
      if ch == '\n' {
        return 1, Normal, [ch];
      } else if ch == '\r' && next == '\n' {
        return 2, Normal, [ch, next];
      }
      return 1, st, "";
    case BlockComment(blockDepth) =>
      if ch == '/' && next == '*' {
        return 2, BlockComment(blockDepth + 1), "";
      } else if ch == '*' && next == '/' {
        return 2, if blockDepth - 1 == 0 then Normal else BlockComment(blockDepth - 1), "";
      }
      return 1, st, "";
  }

  method LiteralArm(s: Bytes, i: nat, st: State, foldCase: bool) returns (n: nat, post: State, out: Bytes)
    requires i < |s| && !st.Normal? && !InCommentState(st)
    ensures Arm(s, i, st, foldCase, n, post, out)
    ensures post == st || post == Normal
  {
    hide LookAfter, Encode;
    var ch := s[i];
    var next := if i + 1 < |s| then s[i + 1] else '\0';
    Comments.StepSlices(s, i, Comments.StepAt(ByteWise, s, i, st).n);
    match st
    case SingleQuote(escapeString) =>
      if escapeString && ch == '\\' && i + 1 < |s| {
        return 2, st, [ch, next];
      }
      if ch == '\'' {
        if next == '\'' {
          return 2, st, [ch, next];
        }
        return 1, Normal, [ch];
      }
      return 1, st, [ch];
    case QuotedIdentifier =>
      if ch == '"' {
        if next == '"' {
          return 2, st, [ch, next];
        }
        return 1, Normal, [ch];
      }
      return 1, st, [ch];
    case DollarQuote(dollarTag) =>
      if dollarTag <= s[i..] {
        return |dollarTag|, Normal, dollarTag;
      }
      return 1, st, [ch];
  }

  /** Comment removal, folding case as it goes when asked to. */
  method ScanContent(content: Bytes, foldCase: bool) returns (result: Bytes)
    ensures result == Run(if foldCase then Fold else Remove, ByteWise, content)
  {
    hide Comments.ScanFrom, Run, Comments.StepAt, Emit, Comments.SpansFrom, Comments.BlockCommentSpans, ByteLen;
    ghost var mode := if foldCase then Fold else Remove;
    result := "";
    var state, i := Normal, 0;
    Comments.ScanEnds(mode, ByteWise, content, state, 0);
    while i < |content|
      invariant i <= |content| && (state.BlockComment? ==> state.depth >= 1)
      invariant result + Comments.ScanFrom(mode, ByteWise, content, i, state) == Run(mode, ByteWise, content)
    {
      Comments.Advance(mode, ByteWise, content, i, state);
      var n, post, out;
      if state.Normal? {
        n, post, out := NormalArm(content, i, foldCase);
        NormalOpensOne(content, i);
      } else if state.LineComment? || state.BlockComment? {
        n, post, out := CommentArm(content, i, state, foldCase);
      } else {
        n, post, out := LiteralArm(content, i, state, foldCase);
      }
      result, state, i := result + out, post, i + n;
    }
    Comments.ScanEnds(mode, ByteWise, content, state, 0);
  }

  lemma NormalOpensOne(s: Bytes, i: nat)
    requires i < |s|
    ensures var post := Comments.StepAt(ByteWise, s, i, Normal).post; post.BlockComment? ==> post.depth == 1
  {}

  method RemoveComments(content: Bytes) returns (result: Bytes)
    ensures result == Run(Remove, ByteWise, content)
  {
    result := ScanContent(content, false);
  }

  // ---- white space ----

  /** Every run of white space becomes one space; `last` tells that one was just written. */
  function Collapse(s: string, last: bool): string {
    if s == "" then ""
    else if IsUnicodeSpace(s[0]) then (if last then "" else " ") + Collapse(s[1..], true)
    else [s[0]] + Collapse(s[1..], false)
  }

  /** The normalized form of a text. */
  function NormalText(s: string): string {
    Trim(Collapse(Run(Fold, ByteWise, s), false))
  }

  /** The bytes whose digest is the normalized checksum: the scan is over bytes,
      the white space pass over the code points they decode to. */
  function Normalized(content: Bytes): Bytes {
    Encode(Trim(Collapse(Decode(Run(Fold, ByteWise, content)), false)))
  }

  lemma CollapseDecoded(b: Bytes, last: bool)
    requires b != ""
    ensures var r := DecodeFirst(b);
            Collapse(Decode(b), last) ==
            (if !IsUnicodeSpace(r.0) then [r.0] else if last then "" else " ")
            + Collapse(Decode(b[r.1..]), IsUnicodeSpace(r.0))
  {
    hide DecodeFirst, IsUnicodeSpace;
    assert ([DecodeFirst(b).0] + Decode(b[DecodeFirst(b).1..]))[1..] == Decode(b[DecodeFirst(b).1..]);
  }

  /** The loop over the runes of the scanned text; `b` is what it has written. */
  method CollapseRunes(cleaned: Bytes) returns (b: Bytes)
    ensures b == Encode(Collapse(Decode(cleaned), false))
  {
    hide Collapse, Encode, Decode, DecodeFirst, IsUnicodeSpace;
    NothingToCollapse();
    ghost var written := "";
    var lastWasSpace, i := false, 0;
    b := "";
    assert cleaned[0..] == cleaned;
    while i < |cleaned|
      invariant i <= |cleaned| && b == Encode(written)
      invariant written + Collapse(Decode(cleaned[i..]), lastWasSpace) == Collapse(Decode(cleaned), false)
    {
      CollapseDecoded(cleaned[i..], lastWasSpace);
      var decoded := DecodeFirst(cleaned[i..]);
      var r := decoded.0;
      assert cleaned[i..][decoded.1..] == cleaned[i + decoded.1..];
      if IsUnicodeSpace(r) {
        if !lastWasSpace {
          WriteRune(written, ' ');
          b, written := b + EncodeChar(' '), written + " ";
          lastWasSpace := true;
        }
      } else {
        WriteRune(written, r);
        b, written := b + EncodeChar(r), written + [r];
        lastWasSpace := false;
      }
      i := i + decoded.1;
    }
    assert cleaned[i..] == "" && written + "" == written;
  }

  lemma NothingToCollapse()
    ensures Decode("") == "" && Encode("") == "" && Collapse("", false) == Collapse("", true) == ""
  {}

  lemma WriteRune(written: string, r: char)
    ensures Encode(written + [r]) == Encode(written) + EncodeChar(r)
  {
    EncodeConcat(written, [r]);
    assert [r][1..] == "" && Encode([r]) == EncodeChar(r) + "";
  }

  method Normalize(content: Bytes) returns (result: Bytes)
    ensures result == Normalized(content)
  {
    hide Collapse, Run, Trim, Encode, Decode;
    var cleaned := ScanContent(content, true);
    var b := CollapseRunes(cleaned);
    DecodeEncode(Collapse(Decode(cleaned), false));
    result := Encode(Trim(Decode(b)));
  }
}
