/** Laws of the lexer that hold for every text: its output is a fixed point, it
    can be cut, and its output depends on nothing but the tokens. */
module LexerLaws {
  import opened Text
  import opened Lexer
  import opened Sequences

  /** Scanning `s` meets no comment and writes exactly what it reads. */
  predicate Clean(mode: Mode, lx: Lexis, look: Look, s: string, st: State)
    decreases |s|
  {
    s == "" ||
    var k := Next(lx, look, s, st);
    && !k.kind.CommentOpen? && !k.kind.InComment?
    && Emit(mode, k.kind, s[..k.n]) == s[..k.n]
    && Clean(mode, lx, LookAfter(lx, look, s[..k.n]), s[k.n..], k.post)
  }

  lemma {:induction false} CleanIsUnchanged(mode: Mode, lx: Lexis, look: Look, s: string, st: State)
    requires Clean(mode, lx, look, s, st)
    ensures Scan(mode, lx, look, s, st) == s && Scan(Strip, lx, look, s, st) == s
    decreases |s|
  {
    if s != "" {
      var k := Next(lx, look, s, st);
      var x, r := s[..k.n], s[k.n..];
      CleanIsUnchanged(mode, lx, LookAfter(lx, look, x), r, k.post);
      SplitAt(s, k.n);
      assert Emit(Strip, k.kind, x) == x;
    }
  }

  lemma CleanStep(mode: Mode, lx: Lexis, look: Look, e: string, o: string, q: State, k: Step)
    requires e != "" && k == Next(lx, look, e + o, q) && k.n == |e|
    requires !k.kind.CommentOpen? && !k.kind.InComment? && Emit(mode, k.kind, e) == e
    requires Clean(mode, lx, LookAfter(lx, look, e), o, k.post)
    ensures Clean(mode, lx, look, e + o, q)
  {
    assert (e + o)[..|e|] == e && (e + o)[|e|..] == o;
  }

  predicate InCommentState(st: State) { st.LineComment? || st.BlockComment? }

  lemma CleanSpace(mode: Mode, lx: Lexis, look: Look, z: string, q: State)
    requires !InCommentState(q) && Clean(mode, lx, QUIET, z, q)
    ensures Clean(mode, lx, look, " " + z, q)
  {
    var s := " " + z;
    var k := Next(lx, look, s, q);
    assert s[0] == ' ';
    assert k == Step(1, q, if q.Normal? then Plain else Body);
    assert s[..1] == " " && s[1..] == z;
    BlankAscii();
    assert LookAfter(lx, look, " ") == QUIET;
  }

  lemma BlankAscii()
    ensures Encode(" ") == " " && Spaces(1) == " " && FoldText(" ") == " "
  {
    EncodeAscii(" ");
  }

  lemma SpacesCons(n: nat, o: string)
    requires n > 0
    ensures Spaces(n) + o == " " + (Spaces(n - 1) + o)
  {}

  lemma {:induction false} CleanSpaces(mode: Mode, lx: Lexis, look: Look, n: nat, o: string, q: State)
    requires !InCommentState(q)
    requires Clean(mode, lx, if n == 0 then look else QUIET, o, q)
    ensures Clean(mode, lx, look, Spaces(n) + o, q)
    decreases n
  {
    if n == 0 {
      assert Spaces(n) + o == o;
    } else {
      CleanSpaces(mode, lx, QUIET, n - 1, o, q);
      CleanSpace(mode, lx, look, Spaces(n - 1) + o, q);
      SpacesCons(n, o);
    }
  }

  // ---- what the output starts with ----

  /** Outside literals the output of a comment-replacing mode starts with the
      character read, its lower case, or a space. */
  lemma OutputHead(mode: Mode, lx: Lexis, look: Look, s: string)
    requires mode != Strip && s != ""
    ensures var o := Scan(mode, lx, look, s, Normal);
            o != "" && (o[0] == s[0] || o[0] == FoldAscii(s[0]) || o[0] == ' ')
  {
    var k := Next(lx, look, s, Normal);
    assert Emit(mode, k.kind, s[..k.n]) != "" by {
      assert ByteLen(s[..k.n]) >= 1;
    }
  }

  /** Text that does not continue a tag still does not after scanning. */
  lemma {:induction false} NoTagInOutput(mode: Mode, lx: Lexis, look: Look, s: string, first: bool)
    requires mode != Strip && TagTail(lx, s, first) == 0
    ensures TagTail(lx, Scan(mode, lx, look, s, Normal), first) == 0
    decreases |s|
  {
    if s != "" {
      OutputHead(mode, lx, look, s);
      if IsTagChar(lx, s[0], first) {
        assert Next(lx, look, s, Normal) == Step(1, Normal, Plain);
        var e := Emit(mode, Plain, s[..1]);
        NoTagInOutput(mode, lx, LookAfter(lx, look, s[..1]), s[1..], false);
        var o := Scan(mode, lx, LookAfter(lx, look, s[..1]), s[1..], Normal);
        assert (e + o)[1..] == o;
      }
    }
  }

  lemma PrefixShort(p: string, t: string, s: string)
    requires t <= s && |p| <= |t|
    ensures p <= s <==> p <= t
  {
    assert s[..|p|] == t[..|p|];
  }

  /** A literal body is copied one character at a time by Remove and Fold. */
  lemma CopyBody(mode: Mode, lx: Lexis, look: Look, s: string, st: State)
    requires (mode == Remove || mode == Fold) && s != "" && Next(lx, look, s, st) == Step(1, st, Body)
    ensures Scan(mode, lx, look, s, st) == [s[0]] + Scan(mode, lx, LookAfter(lx, look, s[..1]), s[1..], st)
  {
    assert s[..1] == [s[0]];
  }

  /** Inside a dollar body the output of Remove and Fold agrees with the source
      as far as the next delimiter reaches. */
  lemma {:induction false} DollarBodyPrefix(mode: Mode, lx: Lexis, look: Look, s: string, tag: Tag, p: string)
    requires mode == Remove || mode == Fold
    requires |p| <= |tag|
    ensures p <= Scan(mode, lx, look, s, DollarQuote(tag)) <==> p <= s
    decreases |s|
  {
    if tag <= s {
      PrefixShort(p, tag, s);
      PrefixShort(p, tag, Scan(mode, lx, look, s, DollarQuote(tag)));
    } else if s != "" && p != "" {
      var look1 := LookAfter(lx, look, s[..1]);
      CopyBody(mode, lx, look, s, DollarQuote(tag));
      DollarBodyPrefix(mode, lx, look1, s[1..], tag, p[1..]);
      PrefixCons(p, s[0], Scan(mode, lx, look1, s[1..], DollarQuote(tag)));
      PrefixCons(p, s[0], s[1..]);
      SplitHead(s);
    }
  }

  lemma SplitHead(s: string)
    requires s != ""
    ensures s == [s[0]] + s[1..]
  {}

  lemma PrefixCons(p: string, c: char, o: string)
    requires p != ""
    ensures p <= [c] + o <==> p[0] == c && p[1..] <= o
  {
    var t := [c] + o;
    assert t[1..] == o;
    if p <= t { assert p[1..] == t[1..][..|p| - 1]; }
    if p[0] == c && p[1..] <= o { assert p == [p[0]] + p[1..]; }
  }

  // ---- the output is a fixed point ----

  /** State of a second scan, over the output, when the first is in `st`:
      comments have become white space. */
  function Image(st: State): State { if InCommentState(st) then Normal else st }

  /** How the look-backs of the two scans are related. */
  predicate Related(st: State, look: Look, look': Look) {
    (st.Normal? ==> look' == look) && (InCommentState(st) ==> look' == QUIET)
  }

  /** Look-back of the second scan after what the first writes for one step. */
  function SecondLook(mode: Mode, lx: Lexis, st: State, k: Step, x: string, look': Look): Look {
    if InCommentState(st) || k.kind.CommentOpen? || (k.kind.Body? && mode == Mask) then QUIET
    else LookAfter(lx, look', Emit(mode, k.kind, x))
  }

  /** The second scan, in the image of `st`, reads the output for `s` as written. */
  predicate Repeats(mode: Mode, lx: Lexis, look: Look, s: string, st: State, look': Look) {
    Clean(mode, lx, look', Scan(mode, lx, look, s, st), Image(st))
  }

  /** The same for what is left after the first step. */
  predicate RestRepeats(mode: Mode, lx: Lexis, look: Look, s: string, st: State, look': Look)
    requires s != ""
  {
    var k := Next(lx, look, s, st);
    Repeats(mode, lx, LookAfter(lx, look, s[..k.n]), s[k.n..], k.post, SecondLook(mode, lx, st, k, s[..k.n], look'))
  }

  lemma FoldKeepsClass(lx: Lexis, look: Look, c: char)
    ensures LookAfter(lx, look, FoldText([c])) == LookAfter(lx, look, [c])
    ensures FoldAscii(FoldAscii(c)) == FoldAscii(c)
    ensures FoldText([c]) == [FoldAscii(c)]
  {
    assert FoldText([c]) == [FoldAscii(c)];
  }

  /** A `$` in the normal state opens a dollar body again, or again does not. */
  lemma DollarStepAgain(mode: Mode, lx: Lexis, look: Look, s: string, o: string)
    requires mode != Strip && At(s, 0, '$')
    requires var k := Next(lx, look, s, Normal);
             o == Scan(mode, lx, LookAfter(lx, look, s[..k.n]), s[k.n..], k.post)
    ensures var k := Next(lx, look, s, Normal); Next(lx, look, s[..k.n] + o, Normal) == k
  {
    var k := Next(lx, look, s, Normal);
    var x, r := s[..k.n], s[k.n..];
    assert s == x + r;
    if DollarTag(lx, s) != "" {
      assert DollarTag(lx, s) == x;
      TagAgain(lx, x, r, o);
    } else {
      assert x == "$";
      NoTagInOutput(mode, lx, LookAfter(lx, look, x), r, true);
      assert ("$" + o)[1..] == o;
    }
  }

  /** So does every other step from the normal state that opens no comment. */
  lemma OtherStepAgain(mode: Mode, lx: Lexis, look: Look, s: string, o: string)
    requires mode != Strip && s != "" && s[0] != '$'
    requires var k := Next(lx, look, s, Normal);
             !k.kind.CommentOpen? && o == Scan(mode, lx, LookAfter(lx, look, s[..k.n]), s[k.n..], k.post)
    ensures var k := Next(lx, look, s, Normal);
            && s[..k.n] == [s[0]] && LookAfter(lx, look, Emit(mode, k.kind, [s[0]])) == LookAfter(lx, look, [s[0]])
            && Next(lx, look, Emit(mode, k.kind, [s[0]]) + o, Normal) == k
  {
    var k := Next(lx, look, s, Normal);
    var x, r := s[..1], s[1..];
    assert x == [s[0]];
    FoldKeepsClass(lx, look, s[0]);
    if r != "" && k.post.Normal? { OutputHead(mode, lx, LookAfter(lx, look, x), r); }
  }

  /** A step from the normal state that opens no comment is repeated by the
      second scan. */
  lemma NormalStepRepeats(mode: Mode, lx: Lexis, look: Look, s: string)
    requires mode != Strip && s != "" && !Next(lx, look, s, Normal).kind.CommentOpen?
    requires RestRepeats(mode, lx, look, s, Normal, look)
    ensures Repeats(mode, lx, look, s, Normal, look)
  {
    var k := Next(lx, look, s, Normal);
    var x := s[..k.n];
    var e, o := Emit(mode, k.kind, x), Scan(mode, lx, LookAfter(lx, look, x), s[k.n..], k.post);
    if s[0] == '$' {
      DollarStepAgain(mode, lx, look, s, o);
    } else {
      OtherStepAgain(mode, lx, look, s, o);
      FoldKeepsClass(lx, look, s[0]);
      EmitTwice(mode, k.kind, s[0]);
    }
    CleanStep(mode, lx, look, e, o, Normal, k);
  }

  lemma EmitTwice(mode: Mode, kind: Kind, c: char)
    requires kind.Plain? || kind.Keep?
    ensures Emit(mode, kind, Emit(mode, kind, [c])) == Emit(mode, kind, [c])
  {
    assert FoldText([c]) == [FoldAscii(c)];
    assert FoldText([FoldAscii(c)]) == [FoldAscii(FoldAscii(c))];
  }

  lemma TagAgain(lx: Lexis, x: string, r: string, o: string)
    requires x != "" && DollarTag(lx, x + r) == x
    ensures DollarTag(lx, x + o) == x
  {
    DollarTagCut(lx, x + r, |x|);
    assert (x + r)[..|x|] == x;
    assert x[1..] + o == (x + o)[1..];
    TagExtend(lx, x[1..], true, o);
  }

  lemma {:induction false} TagExtend(lx: Lexis, s: string, first: bool, z: string)
    requires TagTail(lx, s, first) > 0
    ensures TagTail(lx, s + z, first) == TagTail(lx, s, first)
    decreases |s|
  {
    if s[0] != '$' {
      TagExtend(lx, s[1..], false, z);
      assert (s + z)[1..] == s[1..] + z;
    }
  }

  lemma LookAfterDelimiter(lx: Lexis, look: Look, s: string)
    requires s != "" && s[|s| - 1] != 'E' && s[|s| - 1] != 'e'
    ensures LookAfter(lx, look, s) == Look(IsIdentifier(lx, s[|s| - 1]), false)
  {
    LookLast(lx, look, s);
  }

  lemma CommentStates(lx: Lexis, look: Look, s: string, st: State)
    requires s != "" && (Next(lx, look, s, st).kind.CommentOpen? || Next(lx, look, s, st).kind.InComment?)
    ensures Image(st) == Normal && Image(Next(lx, look, s, st).post) == Normal
    ensures Next(lx, look, s, st).kind.InComment? ==> InCommentState(st)
    ensures Next(lx, look, s, st).kind.CommentOpen? ==> st.Normal?
  {}

  /** A step that writes a comment's replacement is read back as white space. */
  lemma CommentStepRepeats(mode: Mode, lx: Lexis, look: Look, s: string, st: State, look': Look)
    requires mode != Strip && s != "" && Related(st, look, look')
    requires Next(lx, look, s, st).kind.CommentOpen? || Next(lx, look, s, st).kind.InComment?
    requires RestRepeats(mode, lx, look, s, st, look')
    ensures Repeats(mode, lx, look, s, st, look')
  {
    CommentStates(lx, look, s, st);
    hide Next, LookAfter, Encode, Clean;
    var k := Next(lx, look, s, st);
    var x, o := s[..k.n], Scan(mode, lx, LookAfter(lx, look, s[..k.n]), s[k.n..], k.post);
    var n := if mode == Mask then ByteLen(x) else if k.kind.CommentOpen? then 1 else 0;
    BlankAscii();
    assert Emit(mode, k.kind, x) == Spaces(n);
    CleanSpaces(mode, lx, look', n, o, Normal);
  }

  /** The line break that ends a line comment is read back as ordinary text. */
  lemma LineBreakRepeats(mode: Mode, lx: Lexis, look: Look, e: string, o: string)
    requires e == "\n" || e == "\r\n"
    requires Clean(mode, lx, QUIET, o, Normal)
    ensures Clean(mode, lx, look, e + o, Normal)
  {
    var n := "\n" + o;
    FoldKeepsClass(lx, QUIET, '\n');
    FoldKeepsClass(lx, QUIET, '\r');
    LookAfterDelimiter(lx, look, "\n");
    LookAfterDelimiter(lx, look, "\r");
    LookAfterDelimiter(lx, QUIET, "\n");
    CleanStep(mode, lx, QUIET, "\n", o, Normal, Next(lx, QUIET, n, Normal));
    if e == "\n" {
      CleanStep(mode, lx, look, "\n", o, Normal, Next(lx, look, n, Normal));
    } else {
      CleanStep(mode, lx, look, "\r", n, Normal, Next(lx, look, "\r" + n, Normal));
      assert e + o == "\r" + n;
    }
  }

  lemma LineStepRepeats(mode: Mode, lx: Lexis, look: Look, s: string, look': Look)
    requires mode != Strip && s != "" && Next(lx, look, s, LineComment).kind.Keep?
    requires RestRepeats(mode, lx, look, s, LineComment, look')
    ensures Repeats(mode, lx, look, s, LineComment, look')
  {
    var k := Next(lx, look, s, LineComment);
    var x := s[..k.n];
    assert x == "\n" || x == "\r\n";
    LineBreakRepeats(mode, lx, look', x, Scan(mode, lx, LookAfter(lx, look, x), s[k.n..], k.post));
  }

  /** A step inside a literal, or one that closes it, is repeated when it is
      written as it was read. */
  lemma LiteralStepAgain(mode: Mode, lx: Lexis, look: Look, s: string, st: State, look': Look, o: string)
    requires mode != Strip && s != "" && (st.SingleQuote? || st.QuotedIdentifier?)
    requires var k := Next(lx, look, s, st);
             o == Scan(mode, lx, LookAfter(lx, look, s[..k.n]), s[k.n..], k.post)
             && (k.kind.Body? ==> mode != Mask)
    ensures var k := Next(lx, look, s, st); Next(lx, look', s[..k.n] + o, st) == k
  {
    var k := Next(lx, look, s, st);
    if s[k.n..] != "" && k.post.Normal? { OutputHead(mode, lx, LookAfter(lx, look, s[..k.n]), s[k.n..]); }
  }

  lemma DollarStepBodyAgain(mode: Mode, lx: Lexis, look: Look, s: string, st: State, look': Look, o: string)
    requires mode != Strip && s != "" && st.DollarQuote?
    requires var k := Next(lx, look, s, st);
             o == Scan(mode, lx, LookAfter(lx, look, s[..k.n]), s[k.n..], k.post)
             && (k.kind.Body? ==> mode != Mask)
    ensures var k := Next(lx, look, s, st); Next(lx, look', s[..k.n] + o, st) == k
  {
    var k := Next(lx, look, s, st);
    if st.tag <= s {
      assert s[..k.n] == st.tag;
    } else {
      DollarBodyPrefix(mode, lx, look, s, st.tag, st.tag);
      CopyBody(mode, lx, look, s, st);
      assert s[..k.n] == [s[0]];
    }
  }

  lemma LiteralStepRepeats(mode: Mode, lx: Lexis, look: Look, s: string, st: State, look': Look)
    requires mode != Strip && s != "" && !st.Normal? && !InCommentState(st)
    requires RestRepeats(mode, lx, look, s, st, look')
    ensures Repeats(mode, lx, look, s, st, look')
  {
    var k := Next(lx, look, s, st);
    var x := s[..k.n];
    var o := Scan(mode, lx, LookAfter(lx, look, x), s[k.n..], k.post);
    if k.kind.Body? && mode == Mask {
      CleanSpaces(mode, lx, look', ByteLen(x), o, st);
    } else {
      if st.DollarQuote? {
        DollarStepBodyAgain(mode, lx, look, s, st, look', o);
      } else {
        LiteralStepAgain(mode, lx, look, s, st, look', o);
      }
      CleanStep(mode, lx, look', x, o, st, k);
    }
  }

  /** When a step returns to the normal state the look-back sees only the
      delimiter it consumed. */
  lemma LookOnReturn(lx: Lexis, look: Look, s: string, st: State, look': Look)
    requires s != "" && !st.Normal? && Next(lx, look, s, st).post.Normal?
    ensures var x := s[..Next(lx, look, s, st).n];
            && LookAfter(lx, look', x) == LookAfter(lx, look, x)
            && (InCommentState(st) ==> LookAfter(lx, look, x) == QUIET)
  {
    var k := Next(lx, look, s, st);
    var x := s[..k.n];
    if st.DollarQuote? { assert x == st.tag; }
    LookAfterDelimiter(lx, look, x);
    LookAfterDelimiter(lx, look', x);
  }

  lemma StepKeepsRelated(mode: Mode, lx: Lexis, look: Look, s: string, st: State, look': Look)
    requires mode != Strip && s != "" && Related(st, look, look')
    ensures var k := Next(lx, look, s, st);
            Related(k.post, LookAfter(lx, look, s[..k.n]), SecondLook(mode, lx, st, k, s[..k.n], look'))
  {
    var k := Next(lx, look, s, st);
    if !st.Normal? && k.post.Normal? {
      LookOnReturn(lx, look, s, st, look');
    } else if k.kind.Plain? {
      FoldKeepsClass(lx, look, s[0]);
      assert s[..1] == [s[0]];
    }
  }

  lemma {:induction false} OutputIsClean(mode: Mode, lx: Lexis, look: Look, s: string, st: State, look': Look)
    requires mode != Strip && Related(st, look, look')
    ensures Repeats(mode, lx, look, s, st, look')
    decreases |s|
  {
    if s != "" {
      hide Next, LookAfter, Emit, Clean, Scan;
      var k := Next(lx, look, s, st);
      StepKeepsRelated(mode, lx, look, s, st, look');
      OutputIsClean(mode, lx, LookAfter(lx, look, s[..k.n]), s[k.n..], k.post,
                    SecondLook(mode, lx, st, k, s[..k.n], look'));
      if k.kind.CommentOpen? || k.kind.InComment? {
        CommentStepRepeats(mode, lx, look, s, st, look');
      } else if st.LineComment? {
        LineStepRepeats(mode, lx, look, s, look');
      } else if st.Normal? {
        NormalStepRepeats(mode, lx, look, s);
      } else {
        LiteralStepRepeats(mode, lx, look, s, st, look');
      }
    }
  }

  /** Whatever the text, scanning the output of a scan that replaces comments
      finds no comment and changes nothing, and stripping it changes nothing. */
  lemma OutputIsFixedPoint(mode: Mode, lx: Lexis, s: string)
    requires mode != Strip
    ensures Clean(mode, lx, QUIET, Run(mode, lx, s), Normal)
    ensures Run(mode, lx, Run(mode, lx, s)) == Run(mode, lx, s)
    ensures Run(Strip, lx, Run(mode, lx, s)) == Run(mode, lx, s)
  {
    OutputIsClean(mode, lx, QUIET, s, Normal, QUIET);
    CleanIsUnchanged(mode, lx, QUIET, Run(mode, lx, s), Normal);
  }
}
