/** Error positions: resolvePosition and LocateError of pkg/pgmi/errors.go, and
    why the padding of a tail unit keeps them right. */
module Positions {
  import opened Text
  import opened Trimming
  import opened Lexer
  import opened Words
  import opened Split
  import SplitLaws

  /** Line and column, from 1, of the place that `n` characters precede. */
  function LineAt(s: string, n: nat): nat
    requires n <= |s|
  {
    1 + Newlines(s[..n])
  }

  function ColumnAt(s: string, n: nat): nat
    requires n <= |s|
  {
    1 + LastLine(s[..n])
  }

  /** One line more than newlines. */
  lemma {:induction false} LinesCount(s: string)
    ensures |Lines(s)| == 1 + Newlines(s)
  {
    if s != "" { LinesCount(s[1..]); }
  }

  function TrimReturns(s: string): string {
    if s != "" && s[|s| - 1] == '\r' then TrimReturns(s[..|s| - 1]) else s
  }

  lemma {:induction false} LastLineStep(s: string, i: nat)
    requires i < |s|
    ensures LastLine(s[..i + 1]) == if s[i] == '\n' then 0 else 1 + LastLine(s[..i])
  {
    assert s[..i + 1][..i] == s[..i];
  }

  lemma {:induction false} NewlinesConcat(a: string, b: string)
    ensures Newlines(a + b) == Newlines(a) + Newlines(b)
  {
    if a == "" {
      assert a + b == b;
    } else {
      assert (a + b)[1..] == a[1..] + b;
      NewlinesConcat(a[1..], b);
    }
  }

  lemma NewlinesPrefix(s: string, n: nat)
    requires n <= |s|
    ensures Newlines(s[..n]) <= Newlines(s)
  {
    NewlinesConcat(s[..n], s[n..]);
    assert s == s[..n] + s[n..];
  }

  datatype Resolved = Unresolved | Resolved(line: nat, column: nat, sourceLine: string)

  /** What a position resolves to: 1-based, in characters, and possible up to
      one past the last. */
  function Resolution(script: string, position: int): Resolved {
    if position > |script| + 1 then Unresolved
    else
      var n: nat := if position < 1 then 0 else position - 1;
      NewlinesPrefix(script, n);
      LinesCount(script);
      Resolved(LineAt(script, n), ColumnAt(script, n), TrimReturns(Lines(script)[Newlines(script[..n])]))
  }

  method SplitLines(s: string) returns (ls: seq<string>)
    ensures ls == Lines(s)
  {
    ls := [""];
    var i := |s|;
    assert s[|s|..] == "";
    while i > 0
      invariant 0 <= i <= |s| && ls == Lines(s[i..])
    {
      i := i - 1;
      assert s[i..][1..] == s[i + 1..];
      ls := if s[i] == '\n' then [""] + ls else [[s[i]] + ls[0]] + ls[1..];
    }
    assert s[0..] == s;
  }

  method ResolvePosition(script: string, position: int) returns (r: Resolved)
    ensures r == Resolution(script, position)
  {
    if position > |script| + 1 {
      return Unresolved;
    }
    var line, column: nat := 1, 1;
    var i := 0;
    while i < position - 1
      invariant 0 <= i <= |script| && (i == 0 || i <= position - 1)
      invariant line == LineAt(script, i) && column == ColumnAt(script, i)
    {
      CountNewlines(script, i);
      LastLineStep(script, i);
      if script[i] == '\n' {
        line := line + 1;
        column := 1;
      } else {
        column := column + 1;
      }
      i := i + 1;
    }
    var lines := SplitLines(script);
    NewlinesPrefix(script, i);
    LinesCount(script);
    var sourceLine := "";
    if line <= |lines| {
      sourceLine := TrimReturns(lines[line - 1]);
    }
    return Resolved(line, column, sourceLine);
  }

  // ---- what line, column and source line mean ----

  /** Newlines are counted, nothing else. */
  lemma {:induction false} NewlinesAreCounted(s: string)
    ensures Newlines(s) == multiset(s)['\n']
  {
    if s != "" {
      NewlinesAreCounted(s[1..]);
      assert s == [s[0]] + s[1..];
    }
  }

  /** Of a text and an offset in it, the line around the offset. */
  predicate IsLineAround(s: string, n: nat, a: nat, b: nat) {
    && a <= n <= b <= |s| && '\n' !in s[a..b]
    && (a == 0 || s[a - 1] == '\n') && (b == |s| || s[b] == '\n')
  }

  lemma {:induction false} LineAround(s: string, n: nat) returns (a: nat, b: nat)
    requires n <= |s|
    ensures IsLineAround(s, n, a, b) && (Newlines(s[..n]) == 0 ==> a == 0)
    ensures Newlines(s[..n]) < |Lines(s)| && Lines(s)[Newlines(s[..n])] == s[a..b]
    decreases |s|
  {
    if s == "" || (n == 0 && s[0] == '\n') {
      a, b := 0, 0;
    } else if n == 0 {
      a, b := LineAround(s[1..], 0);
      a, b := 0, b + 1;
      assert s[..0] == s[1..][..0] == "" && s[0..b] == [s[0]] + s[1..][0..b - 1];
    } else {
      var a', b' := LineAround(s[1..], n - 1);
      a, b := LineBehind(s, n, a', b');
    }
  }

  /** The line around an offset, from that in the text without its first character. */
  lemma LineBehind(s: string, n: nat, a': nat, b': nat) returns (a: nat, b: nat)
    requires 0 < n <= |s| && IsLineAround(s[1..], n - 1, a', b')
    requires var k := Newlines(s[1..][..n - 1]);
             && (k == 0 ==> a' == 0) && k < |Lines(s[1..])| && Lines(s[1..])[k] == s[1..][a'..b']
    ensures IsLineAround(s, n, a, b) && (Newlines(s[..n]) == 0 ==> a == 0)
    ensures Newlines(s[..n]) < |Lines(s)| && Lines(s)[Newlines(s[..n])] == s[a..b]
  {
    hide IsLineAround;
    assert s[..n][1..] == s[1..][..n - 1] && s[..n][0] == s[0];
    var first := s[0] != '\n' && Newlines(s[1..][..n - 1]) == 0;
    a, b := if first then 0 else a' + 1, b' + 1;
    LineStarts(s[1..], n - 1, a', b');
    LineShifts(s, n, a', b', first);
  }

  lemma LineShifts(s: string, n: nat, a': nat, b': nat, first: bool)
    requires 0 < n <= |s| && IsLineAround(s[1..], n - 1, a', b') && (first ==> a' == 0 && s[0] != '\n')
    requires !first ==> a' > 0 || s[0] == '\n'
    ensures var a, b := if first then 0 else a' + 1, b' + 1;
            && a' <= b' < |s| && a <= b <= |s| && IsLineAround(s, n, a, b)
            && s[a..b] == if first then [s[0]] + s[1..][a'..b'] else s[1..][a'..b']
  {
    assert a' > 0 ==> s[a'] == s[1..][a' - 1];
    assert b' < |s| - 1 ==> s[b' + 1] == s[1..][b'];
    assert s[1..][a'..b'] == s[a' + 1..b' + 1];
    assert first ==> s[0..b' + 1] == [s[0]] + s[1..][0..b'];
  }

  /** A line that is not the first starts behind a newline. */
  lemma LineStarts(s: string, n: nat, a: nat, b: nat)
    requires IsLineAround(s, n, a, b)
    ensures Newlines(s[..n]) > 0 ==> a > 0
  {
    if a == 0 {
      assert s[..n] == s[0..b][..n];
      NoNewlines(s[..n]);
    }
  }

  lemma {:induction false} TrimReturnsShape(s: string)
    ensures var t := TrimReturns(s);
            && t <= s && (t == "" || t[|t| - 1] != '\r')
            && forall i :: |t| <= i < |s| ==> s[i] == '\r'
    decreases |s|
  {
    if s != "" && s[|s| - 1] == '\r' { TrimReturnsShape(s[..|s| - 1]); }
  }

  /** A position resolves to the line that holds it, less its carriage returns; the
      line's number is one more than the newlines before it, and the column is the
      position's place in it. */
  lemma ResolvedLine(script: string, position: int) returns (n: nat, a: nat, b: nat)
    requires position <= |script| + 1
    ensures n == (if position < 1 then 0 else position - 1) && IsLineAround(script, n, a, b)
    ensures var r := Resolution(script, position);
            && r.Resolved? && r.line == 1 + multiset(script[..n])['\n'] && r.column == 1 + (n - a)
            && r.sourceLine <= script[a..b] && (r.sourceLine == "" || r.sourceLine[|r.sourceLine| - 1] != '\r')
            && forall i :: a + |r.sourceLine| <= i < b ==> script[i] == '\r'
  {
    n := if position < 1 then 0 else position - 1;
    a, b := LineAround(script, n);
    NewlinesAreCounted(script[..n]);
    TrimReturnsShape(script[a..b]);
    ColumnInLine(script, n, a, b);
    hide LastLine, Newlines, Lines, TrimReturns;
    var t := TrimReturns(script[a..b]);
    forall i | a + |t| <= i < b ensures script[i] == '\r' {
      assert script[i] == script[a..b][i - a];
    }
  }

  lemma ColumnInLine(s: string, n: nat, a: nat, b: nat)
    requires IsLineAround(s, n, a, b)
    ensures LastLine(s[..n]) == n - a
  {
    assert forall i :: a <= i < n ==> s[..n][i] == s[a..b][i - a];
    assert a > 0 ==> s[..n][a - 1] == s[a - 1];
  }

  // ---- lines and columns of bytes and characters ----

  lemma {:induction false} LastLineConcat(a: string, b: string)
    ensures LastLine(a + b) == if Newlines(b) > 0 then LastLine(b) else LastLine(a) + |b|
    decreases |b|
  {
    if b == "" {
      assert a + b == a;
    } else {
      var c := b[..|b| - 1];
      assert (a + b)[..|a + b| - 1] == a + c;
      assert b == c + [b[|b| - 1]];
      NewlinesConcat(c, [b[|b| - 1]]);
      assert [b[|b| - 1]][1..] == "";
      LastLineConcat(a, c);
      if Newlines(c) == 0 { LastLineOfOne(c); }
    }
  }

  /** Text without a newline is all on its last line. */
  lemma {:induction false} LastLineOfOne(s: string)
    requires Newlines(s) == 0
    ensures LastLine(s) == |s|
    decreases |s|
  {
    if s != "" {
      var c := s[..|s| - 1];
      assert s == c + [s[|s| - 1]];
      NewlinesConcat(c, [s[|s| - 1]]);
      LastLineOfOne(c);
    }
  }

  lemma {:induction false} EncodeLines(s: string)
    ensures Newlines(Encode(s)) == Newlines(s)
    ensures LastLine(Encode(s)) == ByteLen(s[|s| - LastLine(s)..])
    decreases |s|
  {
    hide EncodeChar, Encode, Newlines;
    if s == "" {
      NoLines();
    } else {
      var c, d := s[..|s| - 1], [s[|s| - 1]];
      SnocParts(s);
      EncodeConcat(c, d);
      EncodeLines(c);
      EncodeOne(s[|s| - 1]);
      NewlinesConcat(c, d);
      NewlinesConcat(Encode(c), Encode(d));
      LastLineConcat(Encode(c), Encode(d));
      EncodeConcat(c[|c| - LastLine(c)..], d);
    }
  }

  lemma NoLines()
    ensures Encode("") == "" && Newlines("") == 0 && LastLine("") == 0 && ""[0..] == ""
  {}

  lemma SnocParts(s: string)
    requires s != ""
    ensures var c, d := s[..|s| - 1], [s[|s| - 1]];
            && s == c + d && s[|s|..] == "" && Encode("") == "" && LastLine("") == 0
            && (s[|s| - 1] == '\n' ==> LastLine(s) == 0 && LastLine(Encode(d)) == 0)
            && (s[|s| - 1] != '\n' ==> LastLine(s) == LastLine(c) + 1
                                       && s[|s| - (LastLine(c) + 1)..] == c[|c| - LastLine(c)..] + d)
  {
    var c, d := s[..|s| - 1], s[|s| - 1];
    assert s == c + [d];
    assert s[|s|..] == "";
    NoLines();
    LastLineSnoc(c, d);
  }

  lemma LastLineSnoc(c: string, d: char)
    ensures d == '\n' ==> LastLine(c + [d]) == 0 && LastLine(Encode([d])) == 0
    ensures var s := c + [d];
            d != '\n' ==> LastLine(s) == LastLine(c) + 1 && s[|s| - (LastLine(c) + 1)..] == c[|c| - LastLine(c)..] + [d]
  {
    hide Encode, LastLine;
    LastLineUnfold(c + [d]);
    assert (c + [d])[..|c|] == c;
    NewlineByte();
    TailSnoc(c, d, LastLine(c));
  }

  lemma NewlineByte()
    ensures LastLine(Encode(['\n'])) == 0
  {
    hide EncodeChar;
    assert IsAscii(['\n']);
    EncodeAscii(['\n']);
  }

  lemma LastLineUnfold(s: string)
    requires s != ""
    ensures LastLine(s) == if s[|s| - 1] == '\n' then 0 else 1 + LastLine(s[..|s| - 1])
  {}

  lemma TailSnoc(c: string, d: char, n: nat)
    requires n <= |c|
    ensures (c + [d])[|c| - n..] == c[|c| - n..] + [d]
  {}

  lemma EncodeOne(d: char)
    ensures Newlines(Encode([d])) == Newlines([d]) == if d == '\n' then 1 else 0
  {
    assert [d][1..] == "" && Encode([d]) == EncodeChar(d);
    if !IsAsciiChar(d) { NoNewlines(EncodeChar(d)); }
  }

  lemma {:induction false} NoNewlines(s: string)
    requires forall i :: 0 <= i < |s| ==> s[i] != '\n'
    ensures Newlines(s) == 0
  {
    if s != "" { NoNewlines(s[1..]); }
  }

  /** Bytes and characters agree in number exactly for ASCII text. */
  lemma {:induction false} ByteLenOfAscii(s: string)
    ensures ByteLen(s) >= |s| && (ByteLen(s) == |s| <==> IsAscii(s))
  {
    if s != "" {
      ByteLenOfAscii(s[1..]);
      assert IsAscii(s) <==> IsAsciiChar(s[0]) && IsAscii(s[1..]) by {
        assert s == [s[0]] + s[1..];
      }
    }
  }

  lemma PadLines(src: Bytes, at: nat)
    requires at <= |src|
    ensures Newlines(Pad(src, at)) == Newlines(src[..at]) && LastLine(Pad(src, at)) == LastLine(src[..at])
  {
    var a, b := Newlines(src[..at]), LastLine(src[..at]);
    OnlyNewlines(a);
    NoNewlines(Spaces(b));
    NewlinesConcat(seq(a, _ => '\n'), Spaces(b));
    LastLineConcat(seq(a, _ => '\n'), Spaces(b));
  }

  lemma {:induction false} OnlyNewlines(a: nat)
    ensures Newlines(seq(a, _ => '\n')) == a && LastLine(seq(a, _ => '\n')) == 0
  {
    if a > 0 {
      OnlyNewlines(a - 1);
      assert seq(a, _ => '\n')[1..] == seq(a - 1, _ => '\n');
    }
  }

  // ---- positions survive splitting ----

  /** A tail unit that is the text `sql[k..k + n]` behind its padding: every
      place in the body, its end included, has the line of the full script, and
      its column exceeds that of the full script by the number of extra bytes
      of the characters before the unit on its first line.  So it is the same
      column exactly when the place is on a later line or those are all ASCII. */
  lemma PaddedPosition(sql: string, k: nat, n: nat, q: nat)
    requires k + n <= |sql| && q <= n
    ensures ByteLen(sql[..k]) <= ByteLen(sql)
    ensures var pad := Pad(Encode(sql), ByteLen(sql[..k]));
            var unit := pad + sql[k..k + n];
            var before := sql[k - LastLine(sql[..k])..k];
            && LineAt(unit, |pad| + q) == LineAt(sql, k + q)
            && (ColumnAt(unit, |pad| + q) == ColumnAt(sql, k + q) <==> Newlines(sql[k..k + q]) > 0 || IsAscii(before))
            && (Newlines(sql[k..k + q]) == 0 ==>
                ColumnAt(unit, |pad| + q) == ColumnAt(sql, k + q) + (ByteLen(before) - |before|))
  {
    hide Encode, Newlines, LastLine, Pad, IsAscii;
    var src, a := Encode(sql), sql[..k];
    EncodeConcat(a, sql[k..]);
    CutAtPlace(sql, k);
    var pad, body := Pad(src, ByteLen(a)), sql[k..k + q];
    FrontOfUnit(pad, sql, k, n, q);
    PadThenBody(src, a, body);
    LineOfPlace(a, sql, k);
  }

  lemma CutAtPlace(sql: string, k: nat)
    requires k <= |sql|
    ensures sql == sql[..k] + sql[k..]
  {}

  lemma FrontOfUnit(pad: string, sql: string, k: nat, n: nat, q: nat)
    requires k + n <= |sql| && q <= n
    ensures (pad + sql[k..k + n])[..|pad| + q] == pad + sql[k..k + q] && sql[..k + q] == sql[..k] + sql[k..k + q]
  {}

  lemma LineOfPlace(a: string, sql: string, k: nat)
    requires k <= |sql| && a == sql[..k]
    ensures sql[k - LastLine(a)..k] == a[|a| - LastLine(a)..]
  {
    hide LastLine;
  }

  /** Padding against the text it stands for, both in front of `body`. */
  lemma PadThenBody(src: Bytes, a: string, body: string)
    requires ByteLen(a) <= |src| && src[..ByteLen(a)] == Encode(a)
    ensures var pad, before := Pad(src, ByteLen(a)), a[|a| - LastLine(a)..];
            && Newlines(pad + body) == Newlines(a + body)
            && (LastLine(pad + body) == LastLine(a + body) <==> Newlines(body) > 0 || IsAscii(before))
            && (Newlines(body) == 0 ==> LastLine(pad + body) == LastLine(a + body) + (ByteLen(before) - |before|))
  {
    hide Encode, Newlines, LastLine, Pad, IsAscii;
    var pad, before := Pad(src, ByteLen(a)), a[|a| - LastLine(a)..];
    PadLines(src, ByteLen(a));
    EncodeLines(a);
    NewlinesConcat(pad, body);
    NewlinesConcat(a, body);
    LastLineConcat(pad, body);
    LastLineConcat(a, body);
    ByteLenOfAscii(before);
  }

  /** The mask of everything before an offset: newlines kept, every other byte a space. */
  function FullMask(head: Bytes): (m: Bytes)
    ensures |m| == |head|
  {
    seq(|head|, i requires 0 <= i < |head| => if head[i] == '\n' then '\n' else ' ')
  }

  lemma {:induction false} FullMaskLines(head: Bytes)
    ensures Newlines(FullMask(head)) == Newlines(head) && LastLine(FullMask(head)) == LastLine(head)
    decreases |head|
  {
    if head != "" {
      var c := head[..|head| - 1];
      assert FullMask(head)[..|head| - 1] == FullMask(c);
      FullMaskLines(c);
      CountNewlines(head, |head| - 1);
      CountNewlines(FullMask(head), |head| - 1);
      assert head[..|head|] == head && FullMask(head)[..|head|] == FullMask(head);
      LastLineStep(head, |head| - 1);
      LastLineStep(FullMask(head), |head| - 1);
    }
  }

  /** The short padding resolves every position as the full mask does. */
  lemma PadResolvesAsFullMask(src: Bytes, at: nat, body: string, q: nat)
    requires at <= |src| && q <= |body|
    ensures var pad, full := Pad(src, at), FullMask(src[..at]);
            && LineAt(pad + body, |pad| + q) == LineAt(full + body, |full| + q)
            && ColumnAt(pad + body, |pad| + q) == ColumnAt(full + body, |full| + q)
  {
    hide Pad, FullMask, Newlines, LastLine;
    var pad, full, b := Pad(src, at), FullMask(src[..at]), body[..q];
    assert (pad + body)[..|pad| + q] == pad + b && (full + body)[..|full| + q] == full + b;
    PadLines(src, at);
    FullMaskLines(src[..at]);
    NewlinesConcat(pad, b);
    NewlinesConcat(full, b);
    LastLineConcat(pad, b);
    LastLineConcat(full, b);
  }

  /** Every tail unit is a stretch of the script's characters behind its padding. */
  lemma {:induction false} TailUnitText(lx: Lexis, sql: string, at: nat, j: nat) returns (k: nat, n: nat)
    requires var m := Encode(Run(Mask, lx, sql));
             && at <= |m| == ByteLen(sql) && (at == 0 || m[at - 1] == ';')
             && j < |TailUnits(Encode(sql), m, at)|
    ensures k + n <= |sql| && ByteLen(sql[..k]) <= ByteLen(sql)
    ensures TailUnits(Encode(sql), Encode(Run(Mask, lx, sql)), at)[j]
         == Encode(Pad(Encode(sql), ByteLen(sql[..k])) + sql[k..k + n])
    decreases ByteLen(sql) - at
  {
    hide Encode, Run, FindEnd, Pad, Blank;
    var src, m := Encode(sql), Encode(Run(Mask, lx, sql));
    var e := StatementEnd(m, at);
    if e > 0 && j > 0 {
      SplitLaws.SemicolonAt(m, at);
      k, n := TailUnitText(lx, sql, e, j - 1);
    } else {
      k, n := PieceText(lx, sql, at, if e == 0 then |m| else e);
      PadEncodes(src, at, sql[k..k + n]);
      assert src[at..] == src[at..|src|];
    }
  }

  lemma PadEncodes(src: Bytes, at: nat, z: string)
    requires at <= |src|
    ensures Encode(Pad(src, at) + z) == Pad(src, at) + Encode(z)
  {
    assert IsAscii(Pad(src, at));
    EncodeAscii(Pad(src, at));
    EncodeConcat(Pad(src, at), z);
  }

  lemma PieceText(lx: Lexis, sql: string, at: nat, b: nat) returns (k: nat, n: nat)
    requires var m := Encode(Run(Mask, lx, sql));
             && at <= b <= |m| == ByteLen(sql) && (at == 0 || m[at - 1] == ';')
             && (if StatementEnd(m, at) == 0 then b == |m| else b == StatementEnd(m, at))
    ensures k + n <= |sql| && ByteLen(sql[..k]) == at && Encode(sql[k..k + n]) == Encode(sql)[at..b]
  {
    hide Encode, Scan, Run, FindEnd, SplitLaws.CutAt;
    var m := Encode(Run(Mask, lx, sql));
    k := SplitLaws.MaskIsCompositional(lx, sql, at);
    SplitLaws.CutBytes(lx, sql, at, k);
    if b == |m| {
      n := |sql| - k;
      assert sql[k..k + n] == sql[k..];
    } else {
      SplitLaws.SemicolonAt(m, at);
      n := SplitLaws.MaskIsCompositional(lx, sql[k..], b - at);
      SplitLaws.CutBytes(lx, sql[k..], b - at, n);
      assert sql[k..][..n] == sql[k..k + n];
    }
  }

  /** Character `q` of the body of a tail unit that starts at character `k` of
      the script, behind `w` characters of padding, resolves to its line in the
      script, and to its column there exactly unless it is on the unit's first
      line with non-ASCII text before the unit on that line. */
  predicate SamePlace(unit: string, w: nat, sql: string, k: nat, q: nat)
    requires w + q <= |unit| && k + q <= |sql|
  {
    var u, s := Resolution(unit, w + q + 1), Resolution(sql, k + q + 1);
    && u.Resolved? && s.Resolved? && u.line == s.line
    && (u.column == s.column <==>
        Newlines(sql[k..k + q]) > 0 || IsAscii(sql[k - LastLine(sql[..k])..k]))
  }

  /** The server's error position in a unit points at the right place of the script,
      for every character of the unit's body and its end.  The first unit is the
      beginning of the script, without padding. */
  lemma ErrorPositionsSurvive(lx: Lexis, sql: string, j: nat) returns (unit: string, k: nat, n: nat, w: nat)
    requires j < |ExecutionUnits(lx, sql)|
    ensures Encode(unit) == ExecutionUnits(lx, sql)[j]
    ensures k + n <= |sql| && |unit| == w + n && unit[w..] == sql[k..k + n] && Blank(unit[..w])
    ensures forall q :: 0 <= q <= n ==> SamePlace(unit, w, sql, k, q)
    ensures j == 0 ==> k == 0 && w == 0
  {
    hide Encode, Run, Newlines, LastLine, Blank, ExecutionUnits, SamePlace;
    if j == 0 {
      n := FirstUnitText(lx, sql);
      unit, k, w := sql[..n], 0, 0;
      assert unit[w..] == sql[..n] == sql[k..k + n];
      EmptyBlank(unit);
      forall q | 0 <= q <= n ensures SamePlace(unit, w, sql, k, q) {
        SamePrefix(sql, n, q);
      }
    } else {
      unit, k, n, w := TailPositionsSurvive(lx, sql, j);
    }
  }

  lemma EmptyBlank(s: string)
    ensures Blank(s[..0])
  {}

  lemma SamePrefix(sql: string, n: nat, q: nat)
    requires q <= n <= |sql|
    ensures SamePlace(sql[..n], 0, sql, 0, q)
  {
    hide Newlines, Lines, TrimReturns;
    assert sql[..n][..q] == sql[..q];
    assert sql[0 - LastLine(sql[..0])..0] == "";
  }

  /** The first unit is the text before some place of the script. */
  lemma FirstUnitText(lx: Lexis, sql: string) returns (n: nat)
    ensures ExecutionUnits(lx, sql) != [] && n <= |sql| && ExecutionUnits(lx, sql)[0] == Encode(sql[..n])
  {
    hide Encode, Run, HeadEnd, TailUnits, Blank, SplitLaws.CutAt;
    var m := Encode(Run(Mask, lx, sql));
    var h := HeadEnd(m, 0);
    SplitLaws.MaskLength(lx, sql);
    n := |sql|;
    assert sql[..n] == sql;
    if h != 0 && !Blank(m[h..]) {
      SplitLaws.HeadBeforeEnd(m);
      SplitLaws.HeadEndsAtSemicolon(m, 0);
      n := SplitLaws.MaskIsCompositional(lx, sql, h);
      SplitLaws.CutBytes(lx, sql, h, n);
    }
  }

  lemma TailPositionsSurvive(lx: Lexis, sql: string, j: nat) returns (unit: string, k: nat, n: nat, w: nat)
    requires 0 < j < |ExecutionUnits(lx, sql)|
    ensures Encode(unit) == ExecutionUnits(lx, sql)[j]
    ensures k + n <= |sql| && |unit| == w + n && unit[w..] == sql[k..k + n] && Blank(unit[..w])
    ensures forall q :: 0 <= q <= n ==> SamePlace(unit, w, sql, k, q)
  {
    hide Encode, Run, Newlines, LastLine, HeadEnd, TailUnits, Blank, Lines, TrimReturns;
    var src, m := Encode(sql), Encode(Run(Mask, lx, sql));
    var h := HeadEnd(m, 0);
    SplitLaws.MaskLength(lx, sql);
    SplitLaws.HeadBeforeEnd(m);
    SplitLaws.HeadEndsAtSemicolon(m, 0);
    k, n := TailUnitText(lx, sql, h, j - 1);
    var pad := Pad(src, ByteLen(sql[..k]));
    unit, w := pad + sql[k..k + n], |pad|;
    assert unit[w..] == sql[k..k + n] && unit[..w] == pad;
    PadBlank(src, ByteLen(sql[..k]));
    forall q | 0 <= q <= n
      ensures SamePlace(unit, w, sql, k, q)
    {
      PaddedPosition(sql, k, n, q);
    }
  }

  lemma PadBlank(src: Bytes, at: nat)
    requires at <= |src|
    ensures Blank(Pad(src, at))
  {}

  // ---- locating an error ----

  datatype ScriptError = ScriptError(name: string, script: string, expanded: bool)

  datatype Located = NoLocation | Located(script: string, line: nat, column: nat, sourceLine: string, expanded: bool)

  /** LocateError on an error chain: the script that was sent, if the chain has
      one, and the position of the server's error, if it has one. */
  method LocateError(scripts: seq<ScriptError>, positions: seq<int>) returns (r: Located)
    ensures r.Located? <==> scripts != [] && positions != [] && 0 < positions[0] <= |scripts[0].script| + 1
    ensures r.Located? ==>
              && r.script == scripts[0].name && r.expanded == scripts[0].expanded
              && Resolution(scripts[0].script, positions[0]) == Resolved(r.line, r.column, r.sourceLine)
  {
    if scripts == [] {
      return NoLocation;
    }
    if positions == [] || positions[0] <= 0 {
      return NoLocation;
    }
    var place := ResolvePosition(scripts[0].script, positions[0]);
    if place.Unresolved? {
      return NoLocation;
    }
    return Located(scripts[0].name, place.line, place.column, place.sourceLine, scripts[0].expanded);
  }
}
