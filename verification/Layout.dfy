/** Layout edits are free: white space between tokens, and comments in its
    place, do not change the normalized text. */
module Layout {
  import opened Text
  import opened Trimming
  import opened Lexer
  import opened LexerLaws
  import opened Cuts
  import opened Checksum
  import opened ByteScan
  import opened ChecksumLaws
  import opened Sequences
  import Grammar

  /** Text between tokens: it starts with white space or a block comment, every
      comment in it is closed, and nothing but white space and comments is in it. */
  predicate IsLayout(l: string) {
    && l != "" && (IsSpace(l[0]) || l[0] == '/')
    && Final(ByteWise, QUIET, l, Normal) == Normal
    && AllSpace(Run(Remove, ByteWise, l))
  }

  // ---- a text that scans back to the normal state can be continued by layout ----

  lemma TagStaysBefore(t: string, a: string, x: string)
    requires t == "" || IsTag(t)
    requires x != "" && Inert(x[0]) && t <= a + x
    ensures |t| <= |a|
  {
    assert (a + x)[|a|] == x[0];
  }

  /** A step does not reach from `a` into layout behind it, if `a` alone ends in
      the normal state. */
  lemma StepStaysBefore(look: Look, a: string, st: State, x: string)
    requires a != "" && x != "" && (IsSpace(x[0]) || x[0] == '/')
    requires Final(ByteWise, look, a, st) == Normal
    ensures Next(ByteWise, look, a + x, st).n <= |a|
  {
    var s := a + x;
    assert s[0] == a[0] && s[|a|] == x[0];
    assert |a| == 1 ==> a[..1] == a && a[1..] == "";
    TagStaysBefore(DollarTag(ByteWise, s), a, x);
    match st
    case DollarQuote(tag) => if tag <= s { TagStaysBefore(tag, a, x); }
    case _ =>
  }

  lemma {:induction false} ContinuesWithLayout(look: Look, a: string, st: State, x: string)
    requires x != "" && (IsSpace(x[0]) || x[0] == '/')
    requires Final(ByteWise, look, a, st) == Normal
    ensures Reaches(ByteWise, look, a + x, st, |a|, Normal)
    decreases |a|
  {
    if a != "" {
      StepStaysBefore(look, a, st, x);
      hide Next, LookAfter;
      NextPrefix(ByteWise, look, a + x, st, |a|);
      TakeLeft(a, x);
      var k := Next(ByteWise, look, a, st);
      DropLeft(a, x, k.n);
      ContinuesWithLayout(LookAfter(ByteWise, look, a[..k.n]), a[k.n..], k.post, x);
    }
  }

  lemma TakeLeft(a: string, x: string)
    ensures (a + x)[..|a|] == a
  {}

  lemma DropLeft(a: string, x: string, n: nat)
    requires n <= |a|
    ensures (a + x)[..n] == a[..n] && (a + x)[n..] == a[n..] + x
  {}

  // ---- layout is scanned on its own ----

  predicate BetweenTokens(st: State) { st.Normal? || InCommentState(st) }

  /** Layout being read from state `st`. */
  predicate LayoutFrom(look: Look, l: string, st: State) {
    BetweenTokens(st) && Final(ByteWise, look, l, st) == Normal && AllSpace(Scan(Remove, ByteWise, look, l, st))
  }

  lemma AllSpaceParts(a: string, b: string)
    ensures AllSpace(a + b) <==> AllSpace(a) && AllSpace(b)
  {
    if AllSpace(a + b) {
      assert forall i :: 0 <= i < |a| ==> (a + b)[i] == a[i];
      assert forall i :: 0 <= i < |b| ==> (a + b)[|a| + i] == b[i];
    }
  }

  /** The first step of layout: it does not depend on the look-back, nor on what
      follows the layout, and writes white space in lower case already. */
  lemma LayoutStep(look: Look, l: string, st: State, look': Look, b: string)
    requires l != "" && LayoutFrom(look, l, st)
    ensures var k := Next(ByteWise, look, l, st);
            && Next(ByteWise, look', l, st) == k && Next(ByteWise, look', l + b, st) == k
            && BetweenTokens(k.post)
            && AllSpace(Emit(Remove, k.kind, l[..k.n]))
            && Emit(Fold, k.kind, l[..k.n]) == Emit(Remove, k.kind, l[..k.n])
            && (k.post.Normal? ==> IsSpace(l[k.n - 1]) || l[k.n - 1] == '/')
  {
    var k := Next(ByteWise, look, l, st);
    var e := Emit(Remove, k.kind, l[..k.n]);
    AllSpaceParts(e, Scan(Remove, ByteWise, LookAfter(ByteWise, look, l[..k.n]), l[k.n..], k.post));
    hide Scan, Encode, DollarTag, LookAfter, Reaches;
    assert (l + b)[0] == l[0] && (|l| > 1 ==> (l + b)[1] == l[1]);
    if k.kind.Plain? || k.kind.Keep? { assert e[0] == l[0]; }
    if k.kind.Plain? { assert l[..1] == [l[0]] && FoldText([l[0]]) == [FoldAscii(l[0])]; }
    if |l| == 1 {
      assert l[..1] == l && l[1..] == "";
      assert Final(ByteWise, look, l, st) == k.post;
    }
  }

  lemma LayoutRest(look: Look, l: string, st: State)
    requires l != "" && LayoutFrom(look, l, st)
    ensures var k := Next(ByteWise, look, l, st);
            LayoutFrom(LookAfter(ByteWise, look, l[..k.n]), l[k.n..], k.post)
  {
    LayoutStep(look, l, st, look, "");
    hide Next, Emit, LookAfter, AllSpace;
    var k := Next(ByteWise, look, l, st);
    AllSpaceParts(Emit(Remove, k.kind, l[..k.n]), Scan(Remove, ByteWise, LookAfter(ByteWise, look, l[..k.n]), l[k.n..], k.post));
  }

  lemma {:induction false} LayoutIsIndependent(look: Look, l: string, st: State, look': Look, b: string)
    requires LayoutFrom(look, l, st)
    ensures Scan(Fold, ByteWise, look', l, st) == Scan(Remove, ByteWise, look, l, st)
    ensures Reaches(ByteWise, look', l + b, st, |l|, Normal)
    ensures l != "" ==> IsSpace(l[|l| - 1]) || l[|l| - 1] == '/'
    decreases |l|
  {
    hide Next, Emit, LookAfter, AllSpace;
    if l != "" {
      LayoutStep(look, l, st, look', b);
      LayoutRest(look, l, st);
      var k := Next(ByteWise, look, l, st);
      var x := l[..k.n];
      LayoutIsIndependent(LookAfter(ByteWise, look, x), l[k.n..], k.post, LookAfter(ByteWise, look', x), b);
      DropLeft(l, b, k.n);
      if k.n == |l| { assert k.post == Normal; }
    }
  }

  // ---- collapsing ----

  lemma {:induction false} CollapseSpaces(w: string, r: string, last: bool)
    requires AllSpace(w) && w != ""
    ensures Collapse(w + r, last) == (if last then "" else " ") + Collapse(r, true)
    decreases |w|
  {
    hide Collapse, IsWideSpace;
    assert (w + r)[0] == w[0] && (w + r)[1..] == w[1..] + r;
    CollapseCons(w + r, last);
    if |w| > 1 {
      CollapseSpaces(w[1..], r, true);
      NothingBefore(Collapse(r, true));
    } else {
      assert w[1..] + r == r;
    }
  }

  /** One stretch of white space is as good as another. */
  lemma {:induction false} CollapseForgets(a: string, w1: string, w2: string, r: string, last: bool)
    requires AllSpace(w1) && w1 != "" && AllSpace(w2) && w2 != ""
    ensures Collapse(a + w1 + r, last) == Collapse(a + w2 + r, last)
    decreases |a|
  {
    hide AllSpace, Collapse, IsUnicodeSpace;
    if a == "" {
      CollapseSpaces(w1, r, last);
      CollapseSpaces(w2, r, last);
      NothingBefore(w1);
      NothingBefore(w2);
    } else {
      CollapseForgets(a[1..], w1, w2, r, IsUnicodeSpace(a[0]));
      ConsThree(a, w1, r);
      ConsThree(a, w2, r);
      CollapseCons(a + w1 + r, last);
      CollapseCons(a + w2 + r, last);
    }
  }

  lemma ConsThree(a: string, w: string, r: string)
    requires a != ""
    ensures a + w + r != "" && (a + w + r)[0] == a[0] && (a + w + r)[1..] == a[1..] + w + r
  {}

  // ---- the theorem ----

  lemma LayoutSplits(look: Look, l: string, b: string)
    requires IsLayout(l)
    ensures Scan(Fold, ByteWise, look, l + b, Normal) == Run(Remove, ByteWise, l) + Scan(Fold, ByteWise, QUIET, b, Normal)
  {
    hide Scan, LookAfter, AllSpace, Final, Reaches;
    LayoutIsIndependent(QUIET, l, Normal, look, b);
    ScanSplits(Fold, ByteWise, look, l + b, Normal, |l|, Normal);
    TakeLeft(l, b);
    DropLeft(l, b, |l|);
    assert l[|l|..] + b == b;
    LookAfterDelimiter(ByteWise, look, l);
  }

  /** The output for text followed by layout. */
  lemma ScanBeforeLayout(a: string, x: string)
    requires x != "" && (IsSpace(x[0]) || x[0] == '/') && Final(ByteWise, QUIET, a, Normal) == Normal
    ensures Run(Fold, ByteWise, a + x) ==
            Run(Fold, ByteWise, a) + Scan(Fold, ByteWise, LookAfter(ByteWise, QUIET, a), x, Normal)
  {
    hide Scan, LookAfter, AllSpace, Final, Reaches;
    ContinuesWithLayout(QUIET, a, Normal, x);
    ScanSplits(Fold, ByteWise, QUIET, a + x, Normal, |a|, Normal);
    TakeLeft(a, x);
    DropLeft(a, x, |a|);
    assert a[|a|..] + x == x;
  }

  /** The output for text, layout, text. */
  lemma ScanAroundLayout(a: string, l: string, b: string)
    requires IsLayout(l) && Final(ByteWise, QUIET, a, Normal) == Normal
    ensures var w := Run(Remove, ByteWise, l);
            && AllSpace(w) && w != ""
            && Run(Fold, ByteWise, a + l + b) == Run(Fold, ByteWise, a) + w + Scan(Fold, ByteWise, QUIET, b, Normal)
  {
    OutputHead(Remove, ByteWise, QUIET, l);
    hide Scan, LookAfter, AllSpace, Final;
    assert (l + b)[0] == l[0];
    Assoc(a, l, b);
    ScanBeforeLayout(a, l + b);
    LayoutSplits(LookAfter(ByteWise, QUIET, a), l, b);
    Assoc(Run(Fold, ByteWise, a), Run(Remove, ByteWise, l), Scan(Fold, ByteWise, QUIET, b, Normal));
  }

  /** Wherever the scanner is in its normal state, exchanging one piece of layout
      for another leaves the normalized text, and so the bytes that are hashed,
      unchanged. */
  lemma LayoutIsFree(a: string, l1: string, l2: string, b: string)
    requires IsLayout(l1) && IsLayout(l2)
    requires Reaches(ByteWise, QUIET, a + l1 + b, Normal, |a|, Normal)
    ensures NormalText(a + l1 + b) == NormalText(a + l2 + b)
    ensures Normalized(Encode(a + l1 + b)) == Normalized(Encode(a + l2 + b))
  {
    hide IsLayout, Scan, Collapse, AllSpace, Trim, Final, Reaches, Normalized, Encode;
    NormalizedText(a + l1 + b);
    NormalizedText(a + l2 + b);
    ScanSplits(Fold, ByteWise, QUIET, a + l1 + b, Normal, |a|, Normal);
    assert (a + l1 + b)[..|a|] == a;
    ScanAroundLayout(a, l1, b);
    ScanAroundLayout(a, l2, b);
    CollapseForgets(Run(Fold, ByteWise, a), Run(Remove, ByteWise, l1), Run(Remove, ByteWise, l2),
                    Scan(Fold, ByteWise, QUIET, b, Normal), false);
  }

  // ---- white space and closed comments are layout ----

  /** One closed block comment, possibly with comments nested in it. */
  predicate ClosedComment(s: string) {
    |s| >= 2 && s[0] == '/' && s[1] == '*' && Grammar.CommentBody(s[2..], 1, true)
  }

  lemma {:induction false} CommentScans(look: Look, s: string, depth: nat)
    requires depth >= 1 && Grammar.CommentBody(s, depth, true)
    ensures Final(ByteWise, look, s, BlockComment(depth)) == Normal
    ensures Scan(Remove, ByteWise, look, s, BlockComment(depth)) == ""
    decreases |s|
  {
    var k := Next(ByteWise, look, s, BlockComment(depth));
    var look1 := LookAfter(ByteWise, look, s[..k.n]);
    hide LookAfter;
    if k.post.Normal? {
      assert s[2..] == "";
    } else {
      CommentScans(look1, s[k.n..], k.post.depth);
    }
  }

  lemma CommentIsLayout(s: string)
    requires ClosedComment(s)
    ensures IsLayout(s)
  {
    assert Next(ByteWise, QUIET, s, Normal) == Step(2, BlockComment(1), CommentOpen);
    CommentScans(LookAfter(ByteWise, QUIET, s[..2]), s[2..], 1);
    assert Run(Remove, ByteWise, s) == " " + "";
  }

  lemma SpaceIsLayout(w: char)
    requires IsSpace(w)
    ensures IsLayout([w])
  {
    assert Next(ByteWise, QUIET, [w], Normal) == Step(1, Normal, Plain);
    assert [w][..1] == [w] && [w][1..] == "";
    assert Scan(Remove, ByteWise, LookAfter(ByteWise, QUIET, [w]), "", Normal) == "";
    assert Run(Remove, ByteWise, [w]) == [w] + "";
  }

  /** Replacing a white space character read in the normal state by any closed,
      possibly nested, block comment leaves the normalized text unchanged. */
  lemma CommentForSpace(a: string, w: char, comment: string, b: string)
    requires IsSpace(w) && ClosedComment(comment)
    requires Reaches(ByteWise, QUIET, a + [w] + b, Normal, |a|, Normal)
    ensures NormalText(a + comment + b) == NormalText(a + [w] + b)
    ensures Normalized(Encode(a + comment + b)) == Normalized(Encode(a + [w] + b))
  {
    hide Normalized, NormalText, Encode, IsLayout, Reaches, ClosedComment;
    SpaceIsLayout(w);
    CommentIsLayout(comment);
    LayoutIsFree(a, [w], comment, b);
  }
}
