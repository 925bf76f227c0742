/** What the normalized checksum promises: normalizing twice is normalizing once.
    It does so unless white space beyond ASCII stands directly before an E and a
    literal in which a backslash covers a quote: the byte scan takes the bytes of the
    white space for identifier bytes, and once it has become a space the E opens an
    escape string. */
module ChecksumLaws {
  import opened Text
  import opened Trimming
  import opened Lexer
  import opened LexerLaws
  import opened Checksum
  import opened ByteScan
  import opened Sequences

  // ---- white space before an escape prefix ----

  /** An E and a quote. */
  predicate EscapeOpens(s: string) { |s| >= 2 && (s[0] == 'E' || s[0] == 'e') && s[1] == '\'' }

  /** Nowhere does white space beyond ASCII stand directly before an E and a quote. */
  predicate Tame(s: string) {
    s != "" ==> !(IsWideSpace(s[0]) && EscapeOpens(s[1..])) && Tame(s[1..])
  }

  lemma {:induction false} TameRest(s: string, n: nat)
    requires n <= |s| && Tame(s)
    ensures Tame(s[n..])
    decreases n
  {
    if n > 0 {
      TameRest(s[1..], n - 1);
      assert s[1..][n - 1..] == s[n..];
    } else {
      assert s[0..] == s;
    }
  }

  /** What follows an opening quote reads the same with and without escapes: in the
      literal no backslash stands before a quote, unless another one covers it. */
  predicate EscapesNoQuote(s: string)
    decreases |s|
  {
    if s == "" then true
    else if s[0] == '\\' && |s| > 1 then s[1] != '\'' && EscapesNoQuote(s[2..])
    else if s[0] == '\'' then !At(s, 1, '\'') || EscapesNoQuote(s[2..])
    else EscapesNoQuote(s[1..])
  }

  /** Read from state `st` on, outside literals and comments white space beyond ASCII
      stands before an E and a quote only if the literal reads the same either way. */
  predicate GainsNoEscape(look: Look, s: string, st: State)
    decreases |s|
  {
    s != "" ==>
      && (st.Normal? && IsWideSpace(s[0]) && EscapeOpens(s[1..]) ==> EscapesNoQuote(s[3..]))
      && var k := Next(ByteWise, look, s, st);
         GainsNoEscape(LookAfter(ByteWise, look, s[..k.n]), s[k.n..], k.post)
  }

  lemma {:induction false} TameGainsNoEscape(look: Look, s: string, st: State)
    requires Tame(s)
    ensures GainsNoEscape(look, s, st)
    decreases |s|
  {
    hide Next, LookAfter, EscapeOpens, IsWideSpace;
    if s != "" {
      var k := Next(ByteWise, look, s, st);
      TameRest(s, k.n);
      TameGainsNoEscape(LookAfter(ByteWise, look, s[..k.n]), s[k.n..], k.post);
    }
  }

  /** Such a literal, and what follows it, may as well be read with escapes. */
  lemma {:induction false} LiteralReadsAlike(look: Look, s: string)
    requires EscapesNoQuote(s) && Clean(Fold, ByteWise, look, s, SingleQuote(false)) && GainsNoEscape(look, s, SingleQuote(false))
    ensures Clean(Fold, ByteWise, look, s, SingleQuote(true)) && GainsNoEscape(look, s, SingleQuote(true))
    decreases |s|
  {
    hide LookAfter, EscapeOpens, IsWideSpace;
    if s != "" {
      var k := Next(ByteWise, look, s, SingleQuote(false));
      var look1 := LookAfter(ByteWise, look, s[..k.n]);
      if s[0] == '\\' && |s| > 1 {
        assert k == Step(1, SingleQuote(false), Body);
        var t := s[1..];
        assert Next(ByteWise, look1, t, SingleQuote(false)) == Step(1, SingleQuote(false), Body);
        assert t[1..] == s[2..] && s[..2] == s[..1] + t[..1];
        LookConcat(ByteWise, look, s[..1], t[..1]);
        LiteralReadsAlike(LookAfter(ByteWise, look, s[..2]), s[2..]);
        assert Next(ByteWise, look, s, SingleQuote(true)) == Step(2, SingleQuote(true), Body);
      } else {
        assert Next(ByteWise, look, s, SingleQuote(true)).n == k.n && Next(ByteWise, look, s, SingleQuote(true)).kind == k.kind;
        if k.post.SingleQuote? { LiteralReadsAlike(look1, s[k.n..]); }
      }
    }
  }

  /** Text without white space beyond ASCII is tame. */
  lemma {:induction false} NarrowIsTame(s: string)
    requires forall i :: 0 <= i < |s| ==> !IsWideSpace(s[i])
    ensures Tame(s)
  {
    if s != "" { NarrowIsTame(s[1..]); }
  }

  /** How the start of what was written compares with the start of what was read. */
  predicate StartsAs(o: string, s: string) {
    (EscapeOpens(o) ==> EscapeOpens(s)) && (At(o, 0, '\'') ==> At(s, 0, '\''))
  }

  lemma {:induction false} TameJoin(x: string, o: string, r: string)
    requires Tame(x + r) && Tame(o) && StartsAs(o, r)
    ensures Tame(x + o)
    decreases |x|
  {
    if x == "" {
      assert x + o == o;
    } else {
      assert (x + r)[1..] == x[1..] + r && (x + o)[1..] == x[1..] + o;
      TameJoin(x[1..], o, r);
      if |x| == 1 {
        assert x[1..] + r == r && x[1..] + o == o;
      } else if |x| == 2 {
        assert (x[1..] + r)[0] == x[1] == (x[1..] + o)[0];
        assert |r| > 0 ==> (x[1..] + r)[1] == r[0];
        assert |o| > 0 ==> (x[1..] + o)[1] == o[0];
      } else {
        assert (x[1..] + r)[0] == x[1] == (x[1..] + o)[0] && (x[1..] + r)[1] == x[2] == (x[1..] + o)[1];
      }
    }
  }

  lemma TameCons(c: char, o: string)
    requires Tame(o) && IsAsciiChar(c)
    ensures Tame([c] + o)
  {
    assert ([c] + o)[1..] == o;
    if IsWideSpace(c) { WideIsNotAscii(c); }
  }

  lemma TameTwo(c: char, d: char, o: string)
    requires Tame(o) && IsAsciiChar(c) && IsAsciiChar(d)
    ensures Tame([c, d] + o)
  {
    TameCons(d, o);
    TameCons(c, [d] + o);
    assert [c, d] + o == [c] + ([d] + o);
  }

  lemma {:induction false} StartsAsJoin(x: string, o: string, r: string)
    requires x != "" && StartsAs(o, r)
    ensures StartsAs(x + o, x + r)
  {
    assert (x + o)[0] == x[0] == (x + r)[0];
    if |x| == 1 {
      assert |o| > 0 ==> (x + o)[1] == o[0];
      assert |r| > 0 ==> (x + r)[1] == r[0];
    } else {
      assert (x + o)[1] == x[1] == (x + r)[1];
    }
  }

  lemma StartsAsFolded(c: char, o: string, r: string)
    requires StartsAs(o, r)
    ensures StartsAs([FoldAscii(c)] + o, [c] + r)
  {
    var a, b := [FoldAscii(c)] + o, [c] + r;
    assert |o| > 0 ==> a[1] == o[0];
    assert |r| > 0 ==> b[1] == r[0];
  }

  lemma TameFolded(c: char, o: string, r: string)
    requires Tame([c] + r) && Tame(o) && StartsAs(o, r)
    ensures Tame([FoldAscii(c)] + o)
  {
    TameJoin([c], o, r);
    assert ([c] + o)[1..] == o && ([FoldAscii(c)] + o)[1..] == o;
    if IsWideSpace(FoldAscii(c)) { WideIsNotAscii(FoldAscii(c)); }
  }

  /** The kinds of steps by what they write in mode Fold. */
  lemma FoldEmits(look: Look, s: string, st: State)
    requires s != ""
    ensures var k := Next(ByteWise, look, s, st);
            var e := Emit(Fold, k.kind, s[..k.n]);
            && (InCommentState(k.post) ==> e == "" || e == " ")
            && (InCommentState(k.post) && !InCommentState(st) ==> e == " ")
            && (InCommentState(st) && !InCommentState(k.post) ==> e == "" || e == "\n" || e == "\r\n")
            && (!InCommentState(st) && !InCommentState(k.post) ==>
                  (k.kind == Plain && e == [FoldAscii(s[0])] && k.n == 1) || e == s[..k.n])
  {
    assert FoldText([s[0]]) == [FoldAscii(s[0])] && s[..1] == [s[0]];
    if |s| > 1 { assert s[..2] == [s[0], s[1]]; }
  }

  /** The scan of a tame text writes a tame text. */
  lemma {:induction false} OutputIsTame(look: Look, s: string, st: State)
    requires Tame(s)
    ensures var o := Scan(Fold, ByteWise, look, s, st);
            Tame(o) && (!InCommentState(st) ==> StartsAs(o, s))
    decreases |s|
  {
    hide Next, LookAfter, Emit, Tame, StartsAs, EscapeOpens;
    NothingIsTame();
    if s != "" {
      var k := Next(ByteWise, look, s, st);
      var x, r := s[..k.n], s[k.n..];
      var e, o := Emit(Fold, k.kind, x), Scan(Fold, ByteWise, LookAfter(ByteWise, look, x), r, k.post);
      TameRest(s, k.n);
      OutputIsTame(LookAfter(ByteWise, look, x), r, k.post);
      FoldEmits(look, s, st);
      assert s == x + r;
      if InCommentState(st) || InCommentState(k.post) {
        SmallOutput(e, o, s);
      } else if k.kind == Plain && e == [FoldAscii(s[0])] && k.n == 1 {
        assert x == [s[0]];
        TameFolded(s[0], o, r);
        StartsAsFolded(s[0], o, r);
      } else {
        TameJoin(x, o, r);
        StartsAsJoin(x, o, r);
      }
    }
  }

  lemma NothingIsTame()
    ensures Tame("") && StartsAs("", "")
  {}

  lemma SmallOutput(e: string, o: string, s: string)
    requires Tame(o) && (e == "" || e == " " || e == "\n" || e == "\r\n")
    ensures Tame(e + o) && (e == " " ==> StartsAs(e + o, s))
  {
    if e == "" {
      assert e + o == o;
    } else if e == "\r\n" {
      TameTwo('\r', '\n', o);
    } else {
      TameCons(e[0], o);
      assert (e + o)[0] == e[0];
    }
  }

  // ---- collapsing white space creates no token ----

  lemma CollapseCons(s: Bytes, last: bool)
    requires s != ""
    ensures Collapse(s, last) ==
            (if !IsUnicodeSpace(s[0]) then [s[0]] else if last then "" else " ")
            + Collapse(s[1..], IsUnicodeSpace(s[0]))
  {}

  /** Outside a run of white space the first character stays, or becomes a space. */
  lemma CollapseHead(s: Bytes)
    ensures Collapse(s, false) == "" <==> s == ""
    ensures s != "" ==> Collapse(s, false)[0] == if IsUnicodeSpace(s[0]) then ' ' else s[0]
  {}

  lemma {:induction false} CollapseOfSolid(x: Bytes, r: Bytes, last: bool)
    requires x != "" && forall i :: 0 <= i < |x| ==> !IsUnicodeSpace(x[i])
    ensures Collapse(x + r, last) == x + Collapse(r, false)
    decreases |x|
  {
    assert (x + r)[0] == x[0] && (x + r)[1..] == x[1..] + r;
    if |x| == 1 {
      assert x[1..] + r == r && x == [x[0]];
    } else {
      CollapseOfSolid(x[1..], r, false);
      assert x + Collapse(r, false) == [x[0]] + (x[1..] + Collapse(r, false));
    }
  }

  lemma {:induction false} NoTagAfterCollapse(s: Bytes, first: bool)
    requires TagTail(ByteWise, s, first) == 0
    ensures TagTail(ByteWise, Collapse(s, false), first) == 0
    decreases |s|
  {
    CollapseHead(s);
    if s != "" && IsTagChar(ByteWise, s[0], first) {
      NoTagAfterCollapse(s[1..], false);
      assert Collapse(s, false)[1..] == Collapse(s[1..], false);
    }
  }

  lemma {:induction false} NoPrefixAfterCollapse(p: Bytes, s: Bytes)
    requires p <= Collapse(s, false) && forall i :: 0 <= i < |p| ==> !IsUnicodeSpace(p[i])
    ensures p <= s
    decreases |s|
  {
    CollapseHead(s);
    if p != "" {
      var o := Collapse(s[1..], false);
      assert p[0] == s[0] && Collapse(s, false) == [s[0]] + o;
      PrefixCons(p, s[0], o);
      NoPrefixAfterCollapse(p[1..], s[1..]);
      PrefixCons(p, s[0], s[1..]);
      SplitHead(s);
    }
  }

  lemma TagIsSolid(tag: Tag)
    requires IsAscii(tag)
    ensures Solid(tag)
  {
    forall i | 0 <= i < |tag| ensures !IsUnicodeSpace(tag[i]) {
      if IsWideSpace(tag[i]) { WideIsNotAscii(tag[i]); }
    }
  }

  lemma TagStaysAscii(look: Look, s: string, st: State)
    requires s != "" && AsciiTag(st)
    ensures AsciiTag(Next(ByteWise, look, s, st).post)
  {
    if IsAsciiChar(s[0]) { AsciiStepTakes(look, s, st); } else { HighStep(Fold, look, s, st); }
  }

  predicate Solid(x: Bytes) { x != "" && forall i :: 0 <= i < |x| ==> !IsUnicodeSpace(x[i]) }

  /** A step over characters that are not white space is repeated after collapsing. */
  lemma SolidStepAgain(look: Look, s: Bytes, st: State, look': Look)
    requires s != "" && !InCommentState(st) && (st.Normal? && s[0] == '\'' ==> look'.escape == look.escape)
    requires AsciiTag(st)
    requires var k := Next(ByteWise, look, s, st); !k.kind.CommentOpen? && Solid(s[..k.n])
    ensures var k := Next(ByteWise, look, s, st);
            Next(ByteWise, look', s[..k.n] + Collapse(s[k.n..], false), st) == k
  {
    var k := Next(ByteWise, look, s, st);
    var x, r := s[..k.n], s[k.n..];
    var o := Collapse(r, false);
    CollapseHead(r);
    assert s == x + r && s[0] == x[0];
    if st.Normal? && s[0] == '$' {
      if k.n > 1 || DollarTag(ByteWise, s) != "" {
        TagAgain(ByteWise, x, r, o);
      } else {
        assert x == "$";
        NoTagAfterCollapse(r, true);
        assert ("$" + o)[1..] == o;
      }
    } else if st.DollarQuote? {
      SolidDollarStep(s, st.tag);
    }
  }

  lemma SolidDollarStep(s: Bytes, tag: Tag)
    requires s != "" && !IsUnicodeSpace(s[0]) && IsAscii(tag)
    ensures !(tag <= s) ==> !(tag <= s[..1] + Collapse(s[1..], false))
  {
    if tag <= s[..1] + Collapse(s[1..], false) {
      assert Collapse(s, false) == s[..1] + Collapse(s[1..], false) by { assert s[..1] == [s[0]]; }
      TagIsSolid(tag);
      NoPrefixAfterCollapse(tag, s);
    }
  }

  /** How the look-back over the text relates to that over what was written: they
      are the same, except just after white space beyond ASCII, and after an E
      behind it, where it does not matter to the literal that may follow. */
  predicate LooksRelated(look: Look, look': Look, last: bool, s: string) {
    || (look' == look && (last ==> look == QUIET))
    || (last && look == Look(true, false) && look' == QUIET && (EscapeOpens(s) ==> EscapesNoQuote(s[2..])))
    || (!last && look == Look(true, false) && look' == Look(true, true) && (At(s, 0, '\'') ==> EscapesNoQuote(s[1..])))
  }

  predicate CollapseRelated(st: State, look: Look, look': Look, last: bool, s: string) {
    !InCommentState(st) && AsciiTag(st) && (st.Normal? ==> LooksRelated(look, look', last, s))
  }

  lemma SpaceStep(look: Look, s: string, st: State)
    requires s != "" && IsUnicodeSpace(s[0]) && !InCommentState(st)
    ensures var k := Next(ByteWise, look, s, st);
            && k.n == 1 && k.post == st
            && LookAfter(ByteWise, look, s[..1]) == if IsSpace(s[0]) then QUIET else Look(true, false)
  {
    assert s[..1] == [s[0]] && LookAfter(ByteWise, look, [s[0]]) == LookChar(ByteWise, look, s[0]);
    assert st.DollarQuote? ==> st.tag[0] == '$';
    if IsWideSpace(s[0]) { WideIsNotAscii(s[0]); }
  }

  /** After white space. */
  lemma SpaceRelated(look: Look, s: string, st: State, look': Look, last: bool)
    requires s != "" && IsUnicodeSpace(s[0]) && GainsNoEscape(look, s, st) && CollapseRelated(st, look, look', last, s)
    ensures CollapseRelated(st, LookAfter(ByteWise, look, s[..1]), if last then look' else QUIET, true, s[1..])
  {
    hide EscapesNoQuote;
    SpaceStep(look, s, st);
    assert |s| > 2 ==> s[1..][2..] == s[3..];
  }

  /** An escaped character, white space or not. */
  lemma EscapeStep(look: Look, s: Bytes, st: State, look': Look)
    requires |s| > 1 && st.SingleQuote? && st.escapes && s[0] == '\\'
    requires Clean(Fold, ByteWise, LookAfter(ByteWise, look', if IsUnicodeSpace(s[1]) then "\\ " else s[..2]),
                   Collapse(s[2..], IsUnicodeSpace(s[1])), st)
    ensures Clean(Fold, ByteWise, look', Collapse(s, false), st)
  {
    hide Clean, LookAfter;
    var e := if IsUnicodeSpace(s[1]) then "\\ " else s[..2];
    var o := Collapse(s[2..], IsUnicodeSpace(s[1]));
    CollapseCons(s, false);
    CollapseCons(s[1..], false);
    assert s[1..][1..] == s[2..] && s[..2] == [s[0], s[1]];
    assert Collapse(s, false) == e + o;
    CleanStep(Fold, ByteWise, look', e, o, st, Step(2, st, Body));
  }

  lemma CollapseLastMatters(s: Bytes, last: bool)
    requires s != "" && !IsUnicodeSpace(s[0])
    ensures Collapse(s, last) == Collapse(s, false)
  {}

  lemma StepIsSolidOrEscape(look: Look, s: Bytes, st: State)
    requires s != "" && !IsUnicodeSpace(s[0]) && !InCommentState(st) && AsciiTag(st)
    ensures var k := Next(ByteWise, look, s, st);
            Solid(s[..k.n]) || (st.SingleQuote? && st.escapes && s[0] == '\\' && |s| > 1)
  {
    var k := Next(ByteWise, look, s, st);
    hide DollarTag, IsWideSpace;
    TagIsAscii(s);
    if st.Normal? && s[0] == '$' && DollarTag(ByteWise, s) != "" {
      assert s[..k.n] == DollarTag(ByteWise, s);
      TagIsSolid(DollarTag(ByteWise, s));
    }
    if st.DollarQuote? && st.tag <= s {
      assert s[..k.n] == st.tag;
      TagIsSolid(st.tag);
    }
  }

  /** Collapsing the white space of a clean text that gains no escape, inside literals
      too, leaves it clean. */
  lemma {:induction false} CollapseKeepsClean(look: Look, s: Bytes, st: State, look': Look, last: bool)
    requires GainsNoEscape(look, s, st) && CollapseRelated(st, look, look', last, s)
    requires Clean(Fold, ByteWise, look, s, st)
    ensures Clean(Fold, ByteWise, look', Collapse(s, last), st)
    decreases |s|
  {
    hide Next, LookAfter, Emit, Collapse, DollarTag, IsWideSpace, LooksRelated, EscapesNoQuote, EscapeOpens;
    if s == "" {
      CollapseOfEmpty(last);
    } else {
      var k := Next(ByteWise, look, s, st);
      var look1 := LookAfter(ByteWise, look, s[..k.n]);
      CollapseCons(s, last);
      if IsUnicodeSpace(s[0]) {
        SpaceStep(look, s, st);
        SpaceRelated(look, s, st, look', last);
        CollapseKeepsClean(look1, s[1..], st, if last then look' else QUIET, true);
        if last {
          NothingBefore(Collapse(s[1..], true));
        } else {
          CleanSpace(Fold, ByteWise, look', Collapse(s[1..], true), st);
        }
      } else {
        StepIsSolidOrEscape(look, s, st);
        CollapseLastMatters(s, last);
        if st.SingleQuote? && st.escapes && s[0] == '\\' && |s| > 1 {
          EscapeIsPair(look, s, st);
          CollapseKeepsClean(look1, s[2..], st, LookAfter(ByteWise, look', if IsUnicodeSpace(s[1]) then "\\ " else s[..2]), IsUnicodeSpace(s[1]));
          EscapeStep(look, s, st, look');
        } else if st.Normal? && s[0] == '\'' && look'.escape != look.escape {
          QuoteLooksDiffer(look, look', last, s);
          QuoteStep(look, s);
          LiteralReadsAlike(look1, s[1..]);
          CollapseKeepsClean(look1, s[1..], SingleQuote(true), LookAfter(ByteWise, look', "'"), false);
          CollapseCons(s, false);
          QuoteStep(look', "'" + Collapse(s[1..], false));
          CleanStep(Fold, ByteWise, look', "'", Collapse(s[1..], false), Normal, Step(1, SingleQuote(true), Keep));
        } else {
          SolidStepAgain(look, s, st, look');
          SolidRelated(look, s, st, look', last);
          CollapseKeepsClean(look1, s[k.n..], k.post, LookAfter(ByteWise, look', s[..k.n]), false);
          SplitAt(s, k.n);
          CollapseOfSolid(s[..k.n], s[k.n..], last);
          CleanStep(Fold, ByteWise, look', s[..k.n], Collapse(s[k.n..], false), st, k);
        }
      }
    }
  }

  lemma CollapseOfEmpty(last: bool)
    ensures Collapse("", last) == ""
  {}

  lemma EscapeIsPair(look: Look, s: Bytes, st: State)
    requires |s| > 1 && st.SingleQuote? && st.escapes && s[0] == '\\'
    ensures Next(ByteWise, look, s, st) == Step(2, st, Body)
  {}

  /** Where the looks differ at a quote, the literal reads alike. */
  lemma QuoteLooksDiffer(look: Look, look': Look, last: bool, s: string)
    requires s != "" && LooksRelated(look, look', last, s) && s[0] == '\'' && look'.escape != look.escape
    ensures !look.escape && look'.escape && EscapesNoQuote(s[1..])
  {
    hide EscapesNoQuote;
  }

  lemma QuoteStep(look: Look, s: string)
    requires s != "" && s[0] == '\''
    ensures Next(ByteWise, look, s, Normal) == Step(1, SingleQuote(look.escape), Keep)
    ensures s[..1] == "'" && !IsUnicodeSpace(s[0]) && Emit(Fold, Keep, "'") == "'"
  {}

  lemma SolidRelated(look: Look, s: string, st: State, look': Look, last: bool)
    requires s != "" && CollapseRelated(st, look, look', last, s) && !IsUnicodeSpace(s[0])
    requires !Next(ByteWise, look, s, st).kind.CommentOpen?
    requires st.Normal? && s[0] == '\'' ==> look'.escape == look.escape
    ensures var k := Next(ByteWise, look, s, st);
            CollapseRelated(k.post, LookAfter(ByteWise, look, s[..k.n]), LookAfter(ByteWise, look', s[..k.n]), false, s[k.n..])
  {
    LeavesNoComment(look, s, st);
    TagStaysAscii(look, s, st);
    var k := Next(ByteWise, look, s, st);
    if k.post.Normal? {
      if st.Normal? {
        hide EscapesNoQuote, DollarTag;
        NormalStays(look, s);
        OneCharLook(look, look', last, s);
      } else {
        LookOnReturn(ByteWise, look, s, st, look');
      }
    }
  }

  lemma NormalStays(look: Look, s: string)
    requires s != "" && Next(ByteWise, look, s, Normal).post.Normal?
    ensures Next(ByteWise, look, s, Normal).n == 1
  {}

  lemma OneCharLook(look: Look, look': Look, last: bool, s: string)
    requires s != "" && LooksRelated(look, look', last, s)
    ensures LooksRelated(LookAfter(ByteWise, look, s[..1]), LookAfter(ByteWise, look', s[..1]), false, s[1..])
  {
    hide EscapesNoQuote;
    assert |s| > 1 ==> s[1..][1..] == s[2..];
    assert s[..1] == [s[0]];
    assert LookAfter(ByteWise, look, [s[0]]) == LookChar(ByteWise, look, s[0]);
    assert LookAfter(ByteWise, look', [s[0]]) == LookChar(ByteWise, look', s[0]);
  }

  // ---- trimming ----

  /** White space is single spaces. */
  predicate Collapsed(s: string) {
    forall i :: 0 <= i < |s| && IsUnicodeSpace(s[i]) ==> s[i] == ' ' && (i + 1 < |s| ==> !IsUnicodeSpace(s[i + 1]))
  }

  lemma CollapsedPart(s: string, i: nat, j: nat)
    requires Collapsed(s) && i <= j <= |s|
    ensures Collapsed(s[i..j])
  {
    var t := s[i..j];
    forall k | 0 <= k < |t| && IsUnicodeSpace(t[k]) ensures t[k] == ' ' && (k + 1 < |t| ==> !IsUnicodeSpace(t[k + 1])) {
      assert t[k] == s[i + k];
      assert k + 1 < |t| ==> t[k + 1] == s[i + k + 1];
    }
  }

  lemma {:induction false} CleanTrimStart(s: string)
    requires Clean(Fold, ByteWise, QUIET, s, Normal) && Collapsed(s)
    ensures Clean(Fold, ByteWise, QUIET, TrimStart(s), Normal) && Collapsed(TrimStart(s))
    decreases |s|
  {
    hide Collapsed, IsWideSpace;
    if s != "" && IsUnicodeSpace(s[0]) {
      SpaceIsBlank(s, 0);
      SpaceStep(QUIET, s, Normal);
      CollapsedPart(s, 1, |s|);
      assert s[1..|s|] == s[1..];
      CleanTrimStart(s[1..]);
    }
  }

  lemma SpaceIsBlank(s: string, i: nat)
    requires Collapsed(s) && i < |s| && IsUnicodeSpace(s[i])
    ensures s[i] == ' '
  {}

  /** A clean text without its last character, a white space, is clean. */
  lemma {:induction false} CleanWithoutLast(look: Look, s: string, st: State)
    requires s != "" && IsSpace(s[|s| - 1]) && !InCommentState(st)
    requires Clean(Fold, ByteWise, look, s, st)
    ensures Clean(Fold, ByteWise, look, s[..|s| - 1], st)
    decreases |s|
  {
    hide Next, LookAfter, Emit, DollarTag;
    var p := s[..|s| - 1];
    if p != "" {
      var k := Next(ByteWise, look, s, st);
      if k.n <= |p| {
        NextPrefix(ByteWise, look, s, st, |p|);
        assert p[..k.n] == s[..k.n] && p[k.n..] == s[k.n..][..|s[k.n..]| - 1];
        LeavesNoComment(look, s, st);
        CleanWithoutLast(LookAfter(ByteWise, look, s[..k.n]), s[k.n..], k.post);
      } else {
        LastIsEscaped(look, s, st);
      }
    }
  }

  lemma LeavesNoComment(look: Look, s: string, st: State)
    requires s != "" && !InCommentState(st) && !Next(ByteWise, look, s, st).kind.CommentOpen?
    ensures !InCommentState(Next(ByteWise, look, s, st).post)
  {}

  lemma TagEndsSolid(s: string)
    ensures DollarTag(ByteWise, s) == s && s != "" ==> !IsSpace(s[|s| - 1])
  {}

  /** A step over a last white space and what is before it is an escape. */
  lemma LastIsEscaped(look: Look, s: string, st: State)
    requires |s| > 1 && IsSpace(s[|s| - 1]) && !InCommentState(st)
    requires Next(ByteWise, look, s, st).n == |s| && !Next(ByteWise, look, s, st).kind.CommentOpen?
    ensures Clean(Fold, ByteWise, look, s[..|s| - 1], st)
  {
    var k := Next(ByteWise, look, s, st);
    TagEndsSolid(s);
    assert st.SingleQuote? && |s| == 2 && s[..1] == [s[0]];
    assert Next(ByteWise, look, s[..1], st) == Step(1, st, Body);
    assert s[..1][..1] == s[..1] && s[..1][1..] == "";
  }

  lemma {:induction false} CleanTrimEnd(s: string)
    requires Clean(Fold, ByteWise, QUIET, s, Normal) && Collapsed(s)
    ensures Clean(Fold, ByteWise, QUIET, TrimEnd(s), Normal) && Collapsed(TrimEnd(s))
    decreases |s|
  {
    hide Collapsed, IsWideSpace, Clean;
    if s != "" && IsUnicodeSpace(s[|s| - 1]) {
      SpaceIsBlank(s, |s| - 1);
      CleanWithoutLast(QUIET, s, Normal);
      CollapsedPart(s, 0, |s| - 1);
      assert s[0..|s| - 1] == s[..|s| - 1];
      CleanTrimEnd(s[..|s| - 1]);
    }
  }

  // ---- normalized text ----

  lemma {:induction false} CollapseCollapses(s: string, last: bool)
    ensures var o := Collapse(s, last); Collapsed(o) && (last && o != "" ==> !IsUnicodeSpace(o[0]))
  {
    hide IsWideSpace;
    if s != "" {
      CollapseCollapses(s[1..], IsUnicodeSpace(s[0]));
      CollapseCons(s, last);
    }
  }

  lemma {:induction false} CollapsedIsUnchanged(s: string, last: bool)
    requires Collapsed(s) && (last && s != "" ==> !IsUnicodeSpace(s[0]))
    ensures Collapse(s, last) == s
    decreases |s|
  {
    if s != "" {
      CollapsedPart(s, 1, |s|);
      assert s[1..|s|] == s[1..];
      CollapsedIsUnchanged(s[1..], IsUnicodeSpace(s[0]));
      CollapseCons(s, last);
      SplitHead(s);
    }
  }

  /** Normalizing a normalized text changes nothing, for every text whose scanned form
      gains no escape; unterminated comments and literals included.  Removing
      comments, folding case, collapsing and trimming white space create no comment,
      tag, escape prefix or quote pair that matters. */
  lemma NormalTextIsIdempotent(s: string)
    requires GainsNoEscape(QUIET, Run(Fold, ByteWise, s), Normal)
    ensures NormalText(NormalText(s)) == NormalText(s)
  {
    hide Clean, Scan, Collapse, Trim, TrimStart, TrimEnd, Collapsed, GainsNoEscape;
    var c := Run(Fold, ByteWise, s);
    var d := Collapse(c, false);
    var n := Trim(d);
    OutputIsFixedPoint(Fold, ByteWise, s);
    CollapseKeepsClean(QUIET, c, Normal, QUIET, false);
    CollapseCollapses(c, false);
    CleanTrimStart(d);
    CleanTrimEnd(TrimStart(d));
    TrimIsBoth(d);
    CleanIsUnchanged(Fold, ByteWise, QUIET, n, Normal);
    CollapsedIsUnchanged(n, false);
    var k, l := TrimShape(d);
    TrimKeeps(n);
  }

  lemma TrimIsBoth(s: string)
    ensures Trim(s) == TrimEnd(TrimStart(s))
  {}

  /** The same for the bytes that are hashed, of every such UTF-8 text. */
  lemma NormalizeIsIdempotent(s: string)
    requires GainsNoEscape(QUIET, Run(Fold, ByteWise, s), Normal)
    ensures Normalized(Normalized(Encode(s))) == Normalized(Encode(s))
  {
    hide NormalText, Normalized, Encode, GainsNoEscape, Run;
    NormalizedText(s);
    NormalizedText(NormalText(s));
    NormalTextIsIdempotent(s);
  }

  /** So for every text in which no white space beyond ASCII stands directly before an
      E and a quote. */
  lemma NormalizeIsIdempotentOnTame(s: string)
    requires Tame(s)
    ensures Normalized(Normalized(Encode(s))) == Normalized(Encode(s))
  {
    hide NormalText, Normalized, Encode, GainsNoEscape, Scan, Tame;
    OutputIsTame(QUIET, s, Normal);
    TameGainsNoEscape(QUIET, Run(Fold, ByteWise, s), Normal);
    NormalizeIsIdempotent(s);
  }

  /** So for all of ASCII. */
  lemma NormalizeIsIdempotentOnAscii(content: Bytes)
    requires IsAscii(content)
    ensures Normalized(Normalized(content)) == Normalized(content)
  {
    hide Normalized, Encode, Tame;
    forall i | 0 <= i < |content| ensures !IsWideSpace(content[i]) {
      if IsWideSpace(content[i]) { WideIsNotAscii(content[i]); }
    }
    NarrowIsTame(content);
    EncodeAscii(content);
    NormalizeIsIdempotentOnTame(content);
  }
}
