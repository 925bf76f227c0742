/** What splitting a script promises: every cut is outside literals and comments
    and commutes with masking, splitting a unit again gives the unit, and the
    two passes amount to one pass over the whole script. */
module SplitLaws {
  import opened Text
  import opened Lexer
  import opened Cuts
  import opened Words
  import opened Split
  import opened Sequences

  // ---- cuts ----

  /** Byte offset `at` is a place where the script can be cut: `k` characters
      precede it, the scanner is then in its normal state, and in every mode the
      scan of the script is the scans of the two parts. */
  predicate CutAt(lx: Lexis, sql: string, at: nat, k: nat) {
    && k <= |sql| && Reaches(lx, QUIET, sql, Normal, k, Normal)
    && at <= ByteLen(sql) && Encode(sql)[..at] == Encode(sql[..k]) && Encode(sql)[at..] == Encode(sql[k..])
    && (forall mode :: Run(mode, lx, sql) == Run(mode, lx, sql[..k]) + Run(mode, lx, sql[k..]))
    && ByteLen(Run(Mask, lx, sql)) == ByteLen(sql)
    && Encode(Run(Mask, lx, sql))[..at] == Encode(Run(Mask, lx, sql[..k]))
    && Encode(Run(Mask, lx, sql))[at..] == Encode(Run(Mask, lx, sql[k..]))
  }

  /** A step boundary with a quiet look-back is a cut. */
  lemma ReachedIsCut(lx: Lexis, sql: string, k: nat)
    requires k <= |sql| && Reaches(lx, QUIET, sql, Normal, k, Normal)
    requires LookAfter(lx, QUIET, sql[..k]) == QUIET
    ensures CutAt(lx, sql, ByteLen(sql[..k]), k)
  {
    hide Reaches, Scan, LookAfter, Encode;
    var a, b := sql[..k], sql[k..];
    assert sql == a + b;
    EncodeConcat(a, b);
    TakeDrop(Encode(a), Encode(b));
    forall mode ensures Run(mode, lx, sql) == Run(mode, lx, a) + Run(mode, lx, b) {
      ScanSplits(mode, lx, QUIET, sql, Normal, k, Normal);
    }
    EncodeConcat(Run(Mask, lx, a), Run(Mask, lx, b));
    MaskBytes(lx, QUIET, a, Normal);
    MaskBytes(lx, QUIET, b, Normal);
    TakeDrop(Encode(Run(Mask, lx, a)), Encode(Run(Mask, lx, b)));
  }

  /** Every offset right after a semicolon of the mask is a cut. */
  lemma MaskIsCompositional(lx: Lexis, sql: string, at: nat) returns (k: nat)
    requires var m := Encode(Run(Mask, lx, sql)); at <= |m| && (at == 0 || m[at - 1] == ';')
    ensures CutAt(lx, sql, at, k)
    ensures at > 0 ==> k > 0 && sql[k - 1] == ';'
  {
    hide Scan, Encode, CutAt;
    if at == 0 {
      k := 0;
      assert sql[..0] == "";
    } else {
      k := SemicolonReached(lx, QUIET, sql, Normal, at - 1);
      LookLast(lx, QUIET, sql[..k]);
    }
    ReachedIsCut(lx, sql, k);
  }

  /** What a cut says about bytes. */
  lemma CutBytes(lx: Lexis, sql: string, at: nat, k: nat)
    requires CutAt(lx, sql, at, k)
    ensures k <= |sql| && at <= ByteLen(sql) == ByteLen(Run(Mask, lx, sql)) && ByteLen(sql[..k]) == at
    ensures Encode(sql)[..at] == Encode(sql[..k]) && Encode(sql)[at..] == Encode(sql[k..])
    ensures Encode(Run(Mask, lx, sql))[..at] == Encode(Run(Mask, lx, sql[..k]))
    ensures Encode(Run(Mask, lx, sql))[at..] == Encode(Run(Mask, lx, sql[k..]))
  {
    hide Run, Encode;
  }

  // ---- statements of a part of a mask ----

  /** Reading a statement depends only on its own text: the same text elsewhere,
      cut short, or behind text without letters, ends at the same place. */
  lemma {:induction false} FindEndTransfers(m: Bytes, i: nat, c: nat, n: Bytes, i': nat, c': nat, p: Bytes, depth: int, open: bool)
    requires c <= i <= |m| && c' <= i' <= |n|
    requires n[i'..] <= m[i..]
    requires NoLetters(p) && n[c'..i'] == p + m[c..i]
    ensures var e := FindEnd(m, i, c, depth, open);
            FindEnd(n, i', c', depth, open) == if e > 0 && e - i <= |n| - i' then e - i + i' else 0
    decreases |n| - i'
  {
    hide ObserveChunk, FindEnd;
    FindEndStep(m, i, c, depth, open);
    FindEndStep(n, i', c', depth, open);
    if i' < |n| {
      PartsStep(m, i, c, n, i', c', p);
      if m[i] == ';' && depth == 0 {
        ObserveAfter(open, p, m[c..i]);
        var r := ObserveChunk(open, m[c..i]);
        if !r.0 { FindEndTransfers(m, i + 1, i + 1, n, i' + 1, i' + 1, "", 0, r.1); }
      } else {
        FindEndTransfers(m, i + 1, c, n, i' + 1, c', p, NextDepth(m[i], depth), open);
      }
    }
  }

  lemma PartsStep(m: Bytes, i: nat, c: nat, n: Bytes, i': nat, c': nat, p: Bytes)
    requires c <= i < |m| && c' <= i' < |n|
    requires n[i'..] <= m[i..] && n[c'..i'] == p + m[c..i]
    ensures n[i'] == m[i] && n[i' + 1..] <= m[i + 1..] && n[c'..i' + 1] == p + m[c..i + 1]
    ensures n[i' + 1..i' + 1] == "" + m[i + 1..i + 1]
  {
    assert n[i' + 1..] == n[i'..][1..] && m[i + 1..] == m[i..][1..];
    assert n[i'] == n[i'..][0] && m[i] == m[i..][0];
    assert n[c'..i' + 1] == n[c'..i'] + [n[i']] && m[c..i + 1] == m[c..i] + [m[i]];
  }

  /** Neither letters nor anything that a statement is cut at. */
  predicate Padding(p: Bytes) { forall i :: 0 <= i < |p| ==> p[i] == ' ' || p[i] == '\n' }

  lemma {:induction false} SkipPadding(n: Bytes, i: nat, k: nat)
    requires i <= k <= |n| && Padding(n[..k])
    ensures FindEnd(n, i, 0, 0, false) == FindEnd(n, k, 0, 0, false)
    decreases k - i
  {
    hide ObserveChunk, FindEnd;
    if i < k {
      assert n[..k][i] == n[i];
      FindEndStep(n, i, 0, 0, false);
      SkipPadding(n, i + 1, k);
    }
  }

  /** The text of a statement, behind padding, is again one statement. */
  lemma PaddedStatementEnd(m: Bytes, at: nat, b: nat, p: Bytes)
    requires at <= b <= |m| && Padding(p)
    ensures var e := StatementEnd(m, at);
            StatementEnd(p + m[at..b], 0) == if 0 < e <= b then |p| + e - at else 0
  {
    hide FindEnd;
    var n := p + m[at..b];
    assert n[..|p|] == p && n[|p|..] == m[at..b] && n[0..|p|] == p + m[at..at];
    assert m[at..b] == m[at..][..b - at];
    SkipPadding(n, 0, |p|);
    FindEndTransfers(m, at, at, n, |p|, 0, p, 0, false);
  }

  lemma StatementEndCut(m: Bytes, at: nat, b: nat)
    requires at <= b <= |m|
    ensures var e := StatementEnd(m, at);
            StatementEnd(m[..b], at) == if 0 < e <= b then e else 0
  {
    hide FindEnd;
    var n := m[..b];
    assert n[at..] == m[at..][..b - at] && n[at..at] == "" + m[at..at];
    FindEndTransfers(m, at, at, n, at, at, "", 0, false);
  }

  /** Cutting a mask after its head leaves the head. */
  lemma {:induction false} HeadEndCut(m: Bytes, at: nat)
    requires at <= |m| && HeadEnd(m, at) > 0
    ensures HeadEnd(m[..HeadEnd(m, at)], at) == HeadEnd(m, at)
    decreases |m| - at
  {
    hide StatementEnd, IsTransactionTerminator, HeadEnd;
    var h, e := HeadEnd(m, at), StatementEnd(m, at);
    HeadEndStep(m, at);
    HeadEndStep(m[..h], at);
    StatementEndCut(m, at, h);
    if e == 0 {
      assert m[..h] == m;
    } else {
      if !IsTransactionTerminator(m[at..e]) { HeadEndCut(m, e); }
      assert m[..h][at..e] == m[at..e];
    }
  }

  /** The head ends at a semicolon unless it is the whole script. */
  lemma {:induction false} HeadEndsAtSemicolon(m: Bytes, at: nat)
    requires at <= |m| && 0 < HeadEnd(m, at) < |m|
    ensures m[HeadEnd(m, at) - 1] == ';'
    decreases |m| - at
  {
    hide FindEnd, IsTransactionTerminator, HeadEnd;
    var e := StatementEnd(m, at);
    HeadEndStep(m, at);
    if e > 0 {
      if IsTransactionTerminator(m[at..e]) {
        EndsAtSemicolon(m, at, at, 0, false);
      } else {
        HeadEndsAtSemicolon(m, e);
      }
    }
  }

  /** A script that is one statement, terminator or not, is one unit. */
  lemma SingleStatement(src: Bytes, m: Bytes)
    requires |src| == |m| && (StatementEnd(m, 0) == 0 || StatementEnd(m, 0) == |m|)
    ensures Units(src, m) == [src]
  {
    hide StatementEnd, IsTransactionTerminator, HeadEnd;
    HeadEndStep(m, 0);
    HeadEndStep(m, |m|);
    assert m[|m|..] == "" && Blank("");
    EndOfAll(m);
    assert src[..|src|] == src;
    assert m[0..|m|] == m;
  }

  lemma EndOfAll(m: Bytes)
    ensures StatementEnd(m, |m|) == 0 && !IsTransactionTerminator(m[|m|..])
  {
    if IsTransactionTerminator(m[|m|..]) { TerminatorNotEmpty(m[|m|..]); }
  }

  // ---- padding and the scanner ----

  /** White space in front of a text is scanned on its own. */
  lemma {:induction false} MaskOfPadded(lx: Lexis, p: Bytes, z: string)
    requires Padding(p)
    ensures Run(Mask, lx, p + z) == p + Run(Mask, lx, z)
    ensures Encode(p + z) == p + Encode(z)
    ensures Encode(Run(Mask, lx, p + z)) == p + Encode(Run(Mask, lx, z))
  {
    assert IsAscii(p);
    EncodeAscii(p);
    EncodeConcat(p, z);
    EncodeConcat(p, Run(Mask, lx, z));
    MaskSkipsPadding(lx, p, z);
  }

  lemma {:induction false} MaskSkipsPadding(lx: Lexis, p: Bytes, z: string)
    requires Padding(p)
    ensures Scan(Mask, lx, QUIET, p + z, Normal) == p + Scan(Mask, lx, QUIET, z, Normal)
    decreases |p|
  {
    hide Scan;
    if p == "" {
      assert p + z == z && forall o: string :: p + o == o;
    } else {
      var q := p[1..];
      MaskSkipsPadding(lx, q, z);
      PaddingStep(lx, p[0], q + z);
      ConsConcat(p, z);
      ConsConcat(p, Scan(Mask, lx, QUIET, z, Normal));
    }
  }

  lemma ConsConcat(p: string, z: string)
    requires p != ""
    ensures p + z == [p[0]] + (p[1..] + z)
  {}

  lemma PaddingStep(lx: Lexis, c: char, r: string)
    requires c == ' ' || c == '\n'
    ensures Scan(Mask, lx, QUIET, [c] + r, Normal) == [c] + Scan(Mask, lx, QUIET, r, Normal)
  {
    var s := [c] + r;
    assert s[..1] == [c] && s[1..] == r;
    assert Next(lx, QUIET, s, Normal) == Step(1, Normal, Plain);
    assert LookAfter(lx, QUIET, [c]) == QUIET;
  }

  lemma PadIsPadding(src: Bytes, end: nat)
    requires end <= |src|
    ensures Padding(Pad(src, end))
  {}

  // ---- splitting is a fixed point ----

  /** The statement of the script at `at` .. `b`, behind padding, is a script
      that splits into itself. */
  lemma PieceIsUnit(lx: Lexis, sql: string, at: nat, b: nat, p: Bytes) returns (t: string)
    requires var m := Encode(Run(Mask, lx, sql));
             && at <= b <= |m| && (at == 0 || m[at - 1] == ';') && Padding(p)
             && (if StatementEnd(m, at) == 0 then b == |m| else b == StatementEnd(m, at))
    ensures ByteLen(sql) == ByteLen(Run(Mask, lx, sql))
    ensures Encode(t) == p + Encode(sql)[at..b]
    ensures Encode(Run(Mask, lx, t)) == p + Encode(Run(Mask, lx, sql))[at..b]
    ensures ExecutionUnits(lx, t) == [Encode(t)]
  {
    hide Scan, Encode, Run, Units, CutAt, FindEnd;
    var m := Encode(Run(Mask, lx, sql));
    var k := MaskIsCompositional(lx, sql, at);
    CutBytes(lx, sql, at, k);
    var z := sql[k..];
    if b < |m| {
      SemicolonAt(m, at);
      var k' := MaskIsCompositional(lx, z, b - at);
      CutBytes(lx, z, b - at, k');
      z := z[..k'];
    }
    assert Encode(z) == Encode(sql)[at..b] && Encode(Run(Mask, lx, z)) == m[at..b];
    t := p + z;
    MaskOfPadded(lx, p, z);
    PaddedStatementEnd(m, at, b, p);
    SingleStatement(p + Encode(z), p + m[at..b]);
  }

  lemma SemicolonAt(m: Bytes, at: nat)
    requires at <= |m| && StatementEnd(m, at) > 0
    ensures m[StatementEnd(m, at) - 1] == ';'
  {
    EndsAtSemicolon(m, at, at, 0, false);
  }

  lemma {:induction false} TailUnitIsUnit(lx: Lexis, sql: string, at: nat, j: nat) returns (t: string)
    requires var m := Encode(Run(Mask, lx, sql));
             && at <= |m| == ByteLen(sql) && (at == 0 || m[at - 1] == ';')
             && j < |TailUnits(Encode(sql), m, at)|
    ensures Encode(t) == TailUnits(Encode(sql), Encode(Run(Mask, lx, sql)), at)[j]
    ensures ExecutionUnits(lx, t) == [Encode(t)]
    decreases ByteLen(sql) - at
  {
    hide Encode, Run, FindEnd, ExecutionUnits, Pad, Blank;
    var src, m := Encode(sql), Encode(Run(Mask, lx, sql));
    var e := StatementEnd(m, at);
    PadIsPadding(src, at);
    if e == 0 {
      t := PieceIsUnit(lx, sql, at, |m|, Pad(src, at));
    } else if j == 0 {
      t := PieceIsUnit(lx, sql, at, e, Pad(src, at));
    } else {
      SemicolonAt(m, at);
      t := TailUnitIsUnit(lx, sql, e, j - 1);
    }
  }

  lemma HeadIsUnit(lx: Lexis, sql: string, h: nat) returns (t: string)
    requires var m := Encode(Run(Mask, lx, sql)); |m| == ByteLen(sql) && 0 < h < |m| && h == HeadEnd(m, 0)
    ensures Encode(t) == Encode(sql)[..h] && ExecutionUnits(lx, t) == [Encode(t)]
    ensures Encode(Run(Mask, lx, t)) == Encode(Run(Mask, lx, sql))[..h]
  {
    hide Scan, Encode, Run, HeadEnd, CutAt;
    var m := Encode(Run(Mask, lx, sql));
    HeadEndsAtSemicolon(m, 0);
    var k := MaskIsCompositional(lx, sql, h);
    CutBytes(lx, sql, h, k);
    t := sql[..k];
    HeadEndCut(m, 0);
    assert m[..h][h..] == "" && Encode(sql)[..h][..h] == Encode(sql)[..h];
    assert Blank(m[..h][h..]);
  }

  /** Splitting any unit of any script, padded tail units and BEGIN ATOMIC
      bodies included, gives exactly that unit. */
  lemma SplittingIsFixedPoint(lx: Lexis, sql: string, j: nat)
    requires j < |ExecutionUnits(lx, sql)|
    ensures var unit := ExecutionUnits(lx, sql)[j];
            Encode(Decode(unit)) == unit && ExecutionUnits(lx, Decode(unit)) == [unit]
  {
    hide Encode, Decode, Run, HeadEnd, TailUnits, Blank;
    var src, m := Encode(sql), Encode(Run(Mask, lx, sql));
    var h := HeadEnd(m, 0);
    MaskLength(lx, sql);
    var u := sql;
    if h != 0 && !Blank(m[h..]) {
      EmptyIsBlank();
      HeadBeforeEnd(m);
      if j == 0 {
        u := HeadIsUnit(lx, sql, h);
      } else {
        HeadEndsAtSemicolon(m, 0);
        u := TailUnitIsUnit(lx, sql, h, j - 1);
      }
    }
    DecodeEncode(u);
  }

  lemma EmptyIsBlank()
    ensures Blank("")
  {}

  lemma HeadBeforeEnd(m: Bytes)
    requires !Blank(m[HeadEnd(m, 0)..])
    ensures HeadEnd(m, 0) < |m|
  {
    hide HeadEnd;
    assert |m[HeadEnd(m, 0)..]| > 0;
  }

  lemma MaskLength(lx: Lexis, sql: string)
    ensures ByteLen(Run(Mask, lx, sql)) == ByteLen(sql)
  {
    MaskBytes(lx, QUIET, sql, Normal);
  }
}
