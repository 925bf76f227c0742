/** The two passes of the splitter amount to one uninterrupted pass over the
    script, and nothing of the script is lost. */
module OnePass {
  import opened Text
  import opened Lexer
  import opened Cuts
  import opened Words
  import opened Split
  import opened SplitLaws
  import opened Sequences

  /** Ends of the split-level statements in a single pass that never restarts:
      nesting depth and the open body are carried from one to the next. */
  function Ends(m: Bytes, i: nat, chunk: nat, depth: int, open: bool): seq<nat>
    requires chunk <= i <= |m|
    decreases |m| - i
  {
    if i == |m| then []
    else if m[i] == ';' && depth == 0 then
      var r := ObserveChunk(open, m[chunk..i]);
      (if r.0 then [i + 1] else []) + Ends(m, i + 1, i + 1, depth, r.1)
    else Ends(m, i + 1, chunk, NextDepth(m[i], depth), open)
  }

  datatype Piece = Piece(start: nat, end: nat)

  /** `m` from `at` on is cut at the given ends; what follows the last is one more piece. */
  function PiecesFrom(m: Bytes, ends: seq<nat>, at: nat): seq<Piece> {
    if ends == [] then (if at < |m| then [Piece(at, |m|)] else [])
    else [Piece(at, ends[0])] + PiecesFrom(m, ends[1..], ends[0])
  }

  function PiecesAt(m: Bytes, at: nat): seq<Piece>
    requires at <= |m|
  {
    PiecesFrom(m, Ends(m, at, at, 0, false), at)
  }

  predicate Within(m: Bytes, p: Piece) { p.start < p.end <= |m| }

  predicate Terminates(m: Bytes, p: Piece) { Within(m, p) && IsTransactionTerminator(m[p.start..p.end]) }

  predicate BlankPiece(m: Bytes, p: Piece) { Within(m, p) && Blank(m[p.start..p.end]) }

  /** Index of the first piece that is a transaction terminator. */
  function FirstTerminator(m: Bytes, ps: seq<Piece>): (h: nat)
    ensures h <= |ps|
  {
    if ps == [] || Terminates(m, ps[0]) then 0 else 1 + FirstTerminator(m, ps[1..])
  }

  /** No piece before it is a terminator, and it is one. */
  lemma {:induction false} FirstTerminatorIsFirst(m: Bytes, ps: seq<Piece>)
    ensures var h := FirstTerminator(m, ps);
            (h < |ps| ==> Terminates(m, ps[h])) && forall j :: 0 <= j < h ==> !Terminates(m, ps[j])
  {
    hide Terminates;
    if ps != [] && !Terminates(m, ps[0]) {
      FirstTerminatorIsFirst(m, ps[1..]);
      assert forall j :: 1 <= j < |ps| ==> ps[j] == ps[1..][j - 1];
    }
  }

  function NonBlank(m: Bytes, ps: seq<Piece>): seq<Piece> {
    if ps == [] then []
    else (if BlankPiece(m, ps[0]) then [] else [ps[0]]) + NonBlank(m, ps[1..])
  }

  function PadEach(src: Bytes, ps: seq<Piece>): seq<Bytes> {
    if ps == [] then []
    else
      (if ps[0].start <= ps[0].end <= |src| then [Pad(src, ps[0].start) + src[ps[0].start..ps[0].end]] else [])
      + PadEach(src, ps[1..])
  }

  /** The specification: everything through the first terminator is one unit,
      every later statement that is not blank is one padded unit; without a
      terminator, or without anything after it, the script is one unit. */
  function OnePassUnits(src: Bytes, m: Bytes): seq<Bytes> {
    var ps := PiecesAt(m, 0);
    var h := FirstTerminator(m, ps);
    if h == |ps| || ps[h].end > |src| then [src]
    else
      var tail := NonBlank(m, ps[h + 1..]);
      if tail == [] then [src] else [src[..ps[h].end]] + PadEach(src, tail)
  }

  // ---- restarting after a statement changes nothing ----

  lemma {:induction false} EndsRestart(m: Bytes, i: nat, c: nat, depth: int, open: bool)
    requires c <= i <= |m|
    ensures var e := FindEnd(m, i, c, depth, open);
            Ends(m, i, c, depth, open) == if e == 0 then [] else [e] + Ends(m, e, e, 0, false)
    decreases |m| - i
  {
    hide ObserveChunk, FindEnd;
    FindEndStep(m, i, c, depth, open);
    if i < |m| {
      if m[i] == ';' && depth == 0 {
        var r := ObserveChunk(open, m[c..i]);
        if !r.0 { EndsRestart(m, i + 1, i + 1, 0, r.1); }
      } else {
        EndsRestart(m, i + 1, c, NextDepth(m[i], depth), open);
      }
    }
  }

  lemma PiecesStep(m: Bytes, at: nat)
    requires at <= |m|
    ensures var e := StatementEnd(m, at);
            PiecesAt(m, at) ==
            if e == 0 then (if at < |m| then [Piece(at, |m|)] else []) else [Piece(at, e)] + PiecesAt(m, e)
  {
    hide Ends, FindEnd;
    EndsRestart(m, at, at, 0, false);
    var e := StatementEnd(m, at);
    if e > 0 { assert ([e] + Ends(m, e, e, 0, false))[1..] == Ends(m, e, e, 0, false); }
  }

  lemma StatementNotBlank(m: Bytes, at: nat)
    requires at <= |m| && StatementEnd(m, at) > 0
    ensures !Blank(m[at..StatementEnd(m, at)])
  {
    hide FindEnd, Blank, IsTransactionTerminator;
    SemicolonAt(m, at);
    WithoutSemicolon(m, at, StatementEnd(m, at));
  }

  /** The head is the pieces through the first terminator, and the second pass
      sees the pieces after it. */
  lemma {:induction false} HeadIsFirstTerminator(m: Bytes, at: nat)
    requires at <= |m|
    ensures var ps := PiecesAt(m, at);
            var h, e := FirstTerminator(m, ps), HeadEnd(m, at);
            if h == |ps| then e == 0 else e == ps[h].end && PiecesAt(m, e) == ps[h + 1..]
    decreases |m| - at
  {
    hide StatementEnd, IsTransactionTerminator, HeadEnd, PiecesAt;
    var ps, e := PiecesAt(m, at), StatementEnd(m, at);
    PiecesStep(m, at);
    HeadEndStep(m, at);
    if e > 0 {
      assert ps[1..] == PiecesAt(m, e);
      HeadIsFirstTerminator(m, e);
      var h := FirstTerminator(m, ps[1..]);
      if !Terminates(m, ps[0]) && h < |ps[1..]| { assert ps[1..][h + 1..] == ps[h + 2..]; }
    } else {
      if at == |m| { EndOfAll(m); } else { assert m[at..|m|] == m[at..]; }
      PiecesStep(m, |m|);
      EndOfAll(m);
    }
  }

  /** The second pass makes one unit of every piece that is not blank. */
  lemma {:induction false} TailIsPieces(src: Bytes, m: Bytes, at: nat)
    requires at <= |m| == |src|
    ensures TailUnits(src, m, at) == PadEach(src, NonBlank(m, PiecesAt(m, at)))
    ensures Blank(m[at..]) <==> NonBlank(m, PiecesAt(m, at)) == []
    decreases |m| - at
  {
    hide StatementEnd, Blank, PiecesAt, Pad, TailUnits;
    var ps, e := PiecesAt(m, at), StatementEnd(m, at);
    PiecesStep(m, at);
    TailUnitsStep(src, m, at, []);
    assert forall x: seq<Bytes> :: [] + x == x + [] == x;
    if e > 0 {
      assert ps[1..] == PiecesAt(m, e);
      StatementNotBlank(m, at);
      if Blank(m[at..]) { BlankPart(m, at, e); }
      TailIsPieces(src, m, e);
      TailStep(src, m, ps);
    } else if at < |m| {
      assert m[at..|m|] == m[at..] && src[at..|m|] == src[at..];
      assert ps[1..] == [] && PadEach(src, []) == [];
      TailStep(src, m, ps);
    } else {
      BlankEnd(m);
    }
  }

  lemma BlankEnd(m: Bytes)
    ensures Blank(m[|m|..])
  {}

  lemma BlankPart(m: Bytes, at: nat, e: nat)
    requires at <= e <= |m| && Blank(m[at..])
    ensures Blank(m[at..e])
  {
    assert m[at..e] == m[at..][..e - at];
  }

  lemma TailStep(src: Bytes, m: Bytes, ps: seq<Piece>)
    requires |src| == |m| && ps != [] && Within(m, ps[0])
    ensures var rest := NonBlank(m, ps[1..]);
            if Blank(m[ps[0].start..ps[0].end]) then NonBlank(m, ps) == rest
            else NonBlank(m, ps) == [ps[0]] + rest
                 && PadEach(src, NonBlank(m, ps)) ==
                    [Pad(src, ps[0].start) + src[ps[0].start..ps[0].end]] + PadEach(src, rest)
  {
    hide Pad, Blank, PadEach;
    if !Blank(m[ps[0].start..ps[0].end]) { PadEachStep(src, ps[0], NonBlank(m, ps[1..])); }
  }

  lemma PadEachStep(src: Bytes, p: Piece, rest: seq<Piece>)
    requires p.start <= p.end <= |src|
    ensures PadEach(src, [p] + rest) == [Pad(src, p.start) + src[p.start..p.end]] + PadEach(src, rest)
  {
    hide Pad;
    assert ([p] + rest)[1..] == rest;
  }

  /** The two passes compute the one-pass specification. */
  lemma TwoPassesAreOne(src: Bytes, m: Bytes)
    requires |src| == |m|
    ensures Units(src, m) == OnePassUnits(src, m)
  {
    hide StatementEnd, HeadEnd, PiecesAt, Pad, TailUnits, Blank, IsTransactionTerminator;
    HeadIsFirstTerminator(m, 0);
    var h := HeadEnd(m, 0);
    if h != 0 { TailIsPieces(src, m, h); }
  }

  // ---- nothing is lost ----

  predicate Inside(src: Bytes, ps: seq<Piece>) {
    forall j :: 0 <= j < |ps| ==> ps[j].start <= ps[j].end <= |src|
  }

  /** The source text of the pieces, one after the other. */
  function Bodies(src: Bytes, ps: seq<Piece>): Bytes
    requires Inside(src, ps)
  {
    if ps == [] then "" else src[ps[0].start..ps[0].end] + Bodies(src, ps[1..])
  }

  lemma BodiesCons(src: Bytes, p: Piece, ps: seq<Piece>)
    requires Inside(src, ps) && p.start <= p.end <= |src|
    ensures Inside(src, [p] + ps) && Bodies(src, [p] + ps) == src[p.start..p.end] + Bodies(src, ps)
  {
    assert ([p] + ps)[1..] == ps;
  }

  lemma JoinSlices(src: Bytes, a: nat, b: nat, c: nat)
    requires a <= b <= c <= |src|
    ensures src[a..b] + src[b..c] == src[a..c]
  {}

  /** The tail units, without their padding, are consecutive pieces of the
      source up to an offset after which the mask is blank. */
  lemma {:induction false} TailConserves(src: Bytes, m: Bytes, at: nat) returns (tail: seq<Piece>, r: nat)
    requires at <= |m| == |src|
    ensures at <= r <= |m| && (r == at || r == |m| || m[r - 1] == ';')
    ensures Inside(src, tail) && TailUnits(src, m, at) == PadEach(src, tail)
    ensures Bodies(src, tail) == src[at..r] && Blank(m[r..])
    decreases |m| - at
  {
    hide FindEnd, Blank, Pad, PadEach, TailUnits, Bodies;
    var e := StatementEnd(m, at);
    TailUnitsUnfold(src, m, at);
    PadEachEmpty(src);
    if e > 0 {
      SemicolonAt(m, at);
      tail, r := TailConserves(src, m, e);
      PadEachStep(src, Piece(at, e), tail);
      BodiesCons(src, Piece(at, e), tail);
      JoinSlices(src, at, e, r);
      tail := [Piece(at, e)] + tail;
    } else if Blank(m[at..]) {
      tail, r := [], at;
    } else {
      tail, r := [Piece(at, |m|)], |m|;
      OnePiece(src, at);
      BlankEnd(m);
    }
  }

  lemma TailUnitsUnfold(src: Bytes, m: Bytes, at: nat)
    requires at <= |m| == |src|
    ensures var e := StatementEnd(m, at);
            TailUnits(src, m, at) ==
            if e == 0 then (if Blank(m[at..]) then [] else [Pad(src, at) + src[at..]])
            else [Pad(src, at) + src[at..e]] + TailUnits(src, m, e)
  {
    hide FindEnd, Blank, Pad;
  }

  lemma OnePiece(src: Bytes, at: nat)
    requires at <= |src|
    ensures Inside(src, [Piece(at, |src|)]) && Bodies(src, [Piece(at, |src|)]) == src[at..|src|]
    ensures PadEach(src, [Piece(at, |src|)]) == [Pad(src, at) + src[at..]]
  {
    hide Pad;
    OneBody(src, at);
    OnePadded(src, Piece(at, |src|));
    assert src[at..|src|] == src[at..];
  }

  lemma OneBody(src: Bytes, at: nat)
    requires at <= |src|
    ensures Inside(src, [Piece(at, |src|)]) && Bodies(src, [Piece(at, |src|)]) == src[at..|src|]
  {
    var ps := [Piece(at, |src|)];
    assert ps[1..] == [];
    NothingBehind(src[at..|src|]);
  }

  lemma OnePadded(src: Bytes, p: Piece)
    requires p.start <= p.end <= |src|
    ensures PadEach(src, [p]) == [Pad(src, p.start) + src[p.start..p.end]]
  {
    hide Pad;
    assert [p][1..] == [];
  }

  lemma PadEachEmpty(src: Bytes)
    ensures PadEach(src, []) == [] && Bodies(src, []) == ""
  {}

  // ---- a blank mask hides only layout ----

  lemma EncodeBlank(s: string)
    requires Blank(Encode(s))
    ensures AllSpace(s)
  {
    hide EncodeChar, Encode;
    forall i | 0 <= i < |s| ensures IsSpace(s[i]) {
      assert s == s[..i] + ([s[i]] + s[i + 1..]);
      EncodeConcat(s[..i], [s[i]] + s[i + 1..]);
      EncodeConcat([s[i]], s[i + 1..]);
      FirstByte(s[i]);
      assert Encode(s)[ByteLen(s[..i])] == Encode([s[i]])[0];
    }
  }

  lemma FirstByte(c: char)
    ensures Encode([c]) == EncodeChar(c) && |Encode([c])| > 0
    ensures Encode([c])[0] == c || (!IsAsciiChar(c) && !IsAsciiChar(Encode([c])[0]))
  {
    assert [c][1..] == "";
  }

  lemma BlankParts(a: Bytes, b: Bytes)
    requires Blank(a + b)
    ensures Blank(a) && Blank(b)
  {
    forall i | 0 <= i < |a| ensures IsBlankByte(a[i]) { assert (a + b)[i] == a[i]; }
    forall i | 0 <= i < |b| ensures IsBlankByte(b[i]) { assert (a + b)[|a| + i] == b[i]; }
  }

  /** Where the mask of a text is blank, the text holds nothing but white space
      and comments: stripping its comments leaves white space. */
  lemma {:induction false} BlankMaskIsLayout(lx: Lexis, look: Look, s: string, st: State)
    requires st.Normal? || st.LineComment? || st.BlockComment?
    requires Blank(Encode(Scan(Mask, lx, look, s, st)))
    ensures AllSpace(Scan(Strip, lx, look, s, st))
    decreases |s|
  {
    hide Next, LookAfter, Encode, Emit, Blank, AllSpace;
    if s != "" {
      var k := Next(lx, look, s, st);
      var x, look1 := s[..k.n], LookAfter(lx, look, s[..k.n]);
      var e, o := Emit(Mask, k.kind, x), Scan(Mask, lx, look1, s[k.n..], k.post);
      EncodeConcat(e, o);
      BlankParts(Encode(e), Encode(o));
      BlankStep(lx, look, s, st);
      BlankMaskIsLayout(lx, look1, s[k.n..], k.post);
      AllSpaceConcat(Emit(Strip, k.kind, x), Scan(Strip, lx, look1, s[k.n..], k.post));
    } else {
      AllSpaceConcat("", "");
    }
  }

  lemma AllSpaceConcat(a: string, b: string)
    ensures AllSpace("") && (AllSpace(a) && AllSpace(b) ==> AllSpace(a + b))
  {}

  lemma BlankStep(lx: Lexis, look: Look, s: string, st: State)
    requires s != "" && (st.Normal? || st.LineComment? || st.BlockComment?)
    requires var k := Next(lx, look, s, st); Blank(Encode(Emit(Mask, k.kind, s[..k.n])))
    ensures var k := Next(lx, look, s, st);
            && AllSpace(Emit(Strip, k.kind, s[..k.n]))
            && (k.post.Normal? || k.post.LineComment? || k.post.BlockComment?)
  {
    hide Encode, LookAfter, DollarTag;
    var k := Next(lx, look, s, st);
    if k.kind.Keep? || k.kind.Plain? {
      EncodeBlank(s[..k.n]);
      assert s[..k.n][0] == s[0];
    }
  }

  /** Splitting loses nothing: the head, and the tail units without their
      padding, follow one another in the source, and what comes after the last
      of them is only white space and comments. */
  lemma SplittingConserves(lx: Lexis, sql: string) returns (tail: seq<Piece>, dropped: string)
    ensures var src, units := Encode(sql), ExecutionUnits(lx, sql);
            && units != [] && Inside(src, tail) && units[1..] == PadEach(src, tail)
            && src == units[0] + Bodies(src, tail) + Encode(dropped)
            && AllSpace(Run(Strip, lx, dropped))
  {
    hide Encode, Run, HeadEnd, TailUnits, Blank, PadEach, CutAt;
    var src, m := Encode(sql), Encode(Run(Mask, lx, sql));
    var h := HeadEnd(m, 0);
    MaskLength(lx, sql);
    if h == 0 || Blank(m[h..]) {
      tail, dropped := [], "";
      PadEachEmpty(src);
      NothingDropped(lx, src);
    } else {
      var r;
      tail, r := TailConserves(src, m, h);
      HeadBeforeEnd(m);
      HeadEndsAtSemicolon(m, 0);
      if r == |m| {
        dropped := "";
        NothingDropped(lx, src);
      } else {
        dropped := DroppedText(lx, sql, r);
      }
      JoinSlices(src, h, r, |src|);
      JoinSlices(src, 0, h, |src|);
      assert ([src[..h]] + TailUnits(src, m, h))[1..] == TailUnits(src, m, h);
      assert src[..h] + (src[h..r] + src[r..|src|]) == src[..h] + src[h..r] + src[r..|src|];
    }
  }

  lemma NothingDropped(lx: Lexis, src: Bytes)
    ensures Encode("") == "" && AllSpace(Run(Strip, lx, "")) && src[|src|..|src|] == "" && src + "" == src
    ensures Bodies(src, []) == ""
  {}

  lemma DroppedText(lx: Lexis, sql: string, r: nat) returns (z: string)
    requires var m := Encode(Run(Mask, lx, sql));
             0 < r <= |m| == ByteLen(sql) && m[r - 1] == ';' && Blank(m[r..])
    ensures Encode(z) == Encode(sql)[r..ByteLen(sql)] && AllSpace(Run(Strip, lx, z))
  {
    hide Encode, Scan, Blank, AllSpace, CutAt;
    var k := MaskIsCompositional(lx, sql, r);
    CutBytes(lx, sql, r, k);
    z := sql[k..];
    BlankMaskIsLayout(lx, QUIET, z, Normal);
    assert Encode(sql)[r..] == Encode(sql)[r..ByteLen(sql)];
  }
}
