/** The byte loop of the checksum reads a UTF-8 text as if it read its code
    points: every byte of a character beyond ASCII is one ordinary step. */
module ByteScan {
  import opened Text
  import opened Trimming
  import opened Lexer
  import opened LexerLaws
  import opened Checksum
  import opened Sequences

  // ---- encoded text ----

  lemma EncodedFirst(s: string)
    requires s != ""
    ensures Encode(s) != ""
    ensures IsAsciiChar(s[0]) ==> Encode(s)[0] == s[0] && Encode(s)[1..] == Encode(s[1..])
    ensures !IsAsciiChar(s[0]) ==> !IsAsciiChar(Encode(s)[0])
  {
    DivDiv(s[0] as int);
  }

  lemma EncodedAt(s: string, i: nat, c: char)
    requires i <= 1 && IsAsciiChar(c) && (i == 1 ==> s != "" && IsAsciiChar(s[0]))
    ensures At(Encode(s), i, c) <==> At(s, i, c)
  {
    hide Encode;
    EncodedNothing();
    if s != "" {
      EncodedFirst(s);
      if i == 1 && |s| > 1 { EncodedFirst(s[1..]); }
      if |s| == 1 { assert s[1..] == ""; }
    }
  }

  lemma EncodedNothing()
    ensures Encode("") == ""
  {}

  lemma {:induction false} EncodedUpTo(s: string, n: nat)
    requires n <= |s| && forall i :: 0 <= i < n ==> IsAsciiChar(s[i])
    ensures n <= ByteLen(s) && Encode(s)[..n] == s[..n] && Encode(s)[n..] == Encode(s[n..])
    decreases n
  {
    hide Encode;
    if n > 0 {
      EncodedFirst(s);
      EncodedUpTo(s[1..], n - 1);
      assert s[1..][n - 1..] == s[n..] && Encode(s)[n..] == Encode(s)[1..][n - 1..];
      assert Encode(s)[..n] == [s[0]] + Encode(s)[1..][..n - 1] && s[..n] == [s[0]] + s[1..][..n - 1];
    } else {
      assert s[0..] == s && Encode(s)[0..] == Encode(s);
    }
  }

  lemma EncodedPrefix(s: string, n: nat)
    requires n <= |s| && IsAscii(s[..n])
    ensures n <= ByteLen(s) && Encode(s)[..n] == s[..n] && Encode(s)[n..] == Encode(s[n..])
  {
    assert forall i :: 0 <= i < n ==> s[i] == s[..n][i];
    EncodedUpTo(s, n);
  }

  lemma {:induction false} PrefixEncoded(p: string, s: string)
    requires IsAscii(p)
    ensures p <= Encode(s) <==> p <= s
  {
    hide Encode;
    EncodedNothing();
    if p != "" && s != "" {
      EncodedFirst(s);
      PrefixEncoded(p[1..], s[1..]);
      PrefixOfCons(p, s);
      PrefixOfCons(p, Encode(s));
    }
  }

  lemma PrefixOfCons(p: string, t: string)
    requires p != "" && t != ""
    ensures p <= t <==> p[0] == t[0] && p[1..] <= t[1..]
  {
    if p[0] == t[0] && p[1..] <= t[1..] { assert p == [p[0]] + p[1..] && t == [t[0]] + t[1..]; }
  }

  lemma {:induction false} TagTailEncoded(s: string, first: bool)
    ensures TagTail(ByteWise, Encode(s), first) == TagTail(ByteWise, s, first)
  {
    hide Encode;
    EncodedNothing();
    if s != "" {
      EncodedFirst(s);
      TagTailEncoded(s[1..], false);
    }
  }

  /** A tag of the byte scanner is ASCII. */
  lemma TagIsAscii(s: string)
    ensures IsAscii(DollarTag(ByteWise, s))
  {
    if At(s, 0, '$') {
      TagTailShape(ByteWise, s[1..], true);
      var n := TagTail(ByteWise, s[1..], true);
      assert forall i :: 0 < i < n + 1 ==> s[i] == s[1..][i - 1];
    }
  }

  lemma DollarTagEncoded(s: string)
    ensures DollarTag(ByteWise, Encode(s)) == DollarTag(ByteWise, s)
  {
    hide Encode, TagTail, IsTag;
    EncodedAt(s, 0, '$');
    if At(s, 0, '$') {
      EncodedFirst(s);
      TagTailEncoded(s[1..], true);
      TagIsAscii(s);
      var t := DollarTag(ByteWise, s);
      assert t == s[..|t|];
      EncodedPrefix(s, |t|);
    }
  }

  // ---- one step ----

  predicate AsciiTag(st: State) { st.DollarQuote? ==> IsAscii(st.tag) }

  /** A step that starts at an ASCII character is the same step over the bytes. */
  lemma AsciiStep(look: Look, s: string, st: State)
    requires s != "" && IsAsciiChar(s[0]) && AsciiTag(st)
    ensures Next(ByteWise, look, Encode(s), st) == Next(ByteWise, look, s, st)
  {
    hide Encode, TagTail, DollarTag, IsTag, IsAscii;
    EncodedFirst(s);
    SecondAgrees(s);
    DollarTagEncoded(s);
    if st.DollarQuote? { PrefixEncoded(st.tag, s); }
  }

  lemma AsciiStepTakes(look: Look, s: string, st: State)
    requires s != "" && IsAsciiChar(s[0]) && AsciiTag(st)
    ensures var k := Next(ByteWise, look, s, st);
            && AsciiTag(k.post)
            && (IsAscii(s[..k.n]) || (st.SingleQuote? && st.escapes && s[0] == '\\' && k.n == 2))
  {
    hide TagTail, DollarTag, IsTag;
    TagIsAscii(s);
    match st
    case Normal => if s[0] == '$' && DollarTag(ByteWise, s) != "" { assert s[..|DollarTag(ByteWise, s)|] == DollarTag(ByteWise, s); }
    case DollarQuote(tag) => if tag <= s { assert s[..|tag|] == tag; }
    case _ =>
  }

  lemma SecondAgrees(s: string)
    requires s != "" && IsAsciiChar(s[0])
    ensures forall c :: IsAsciiChar(c) ==> (At(Encode(s), 1, c) <==> At(s, 1, c))
    ensures |Encode(s)| > 1 <==> |s| > 1
  {
    hide Encode;
    forall c ensures IsAsciiChar(c) ==> (At(Encode(s), 1, c) <==> At(s, 1, c)) {
      if IsAsciiChar(c) { EncodedAt(s, 1, c); }
    }
    EncodedFirst(s);
    EncodedNothing();
    if |s| > 1 { EncodedFirst(s[1..]); } else { assert s[1..] == ""; }
  }

  function Copied(st: State, x: string): string { if InCommentState(st) then "" else x }

  lemma HighStep(mode: Mode, look: Look, b: string, st: State)
    requires (mode == Remove || mode == Fold) && b != "" && !IsAsciiChar(b[0])
    ensures var k := Next(ByteWise, look, b, st);
            && k.n == 1 && k.post == st && Emit(mode, k.kind, b[..1]) == Copied(st, b[..1])
            && LookAfter(ByteWise, look, b[..1]) == Look(true, false)
  {
    assert b[..1] == [b[0]] && FoldText([b[0]]) == [b[0]];
    assert LookAfter(ByteWise, look, [b[0]]) == LookChar(ByteWise, look, b[0]);
    assert st.DollarQuote? ==> st.tag[0] == '$';
  }

  predicate High(x: string) { forall i :: 0 <= i < |x| ==> !IsAsciiChar(x[i]) }

  /** Characters beyond ASCII are taken one by one, in every state. */
  lemma {:induction false} HighRun(mode: Mode, look: Look, x: string, rest: string, st: State)
    requires (mode == Remove || mode == Fold) && x != "" && High(x)
    ensures Scan(mode, ByteWise, look, x + rest, st) ==
            Copied(st, x) + Scan(mode, ByteWise, Look(true, false), rest, st)
    decreases |x|
  {
    hide Next, Emit, LookAfter;
    var s := x + rest;
    HighStep(mode, look, s, st);
    assert s[..1] == x[..1] && s[1..] == x[1..] + rest;
    if |x| == 1 {
      assert x[1..] + rest == rest && x[..1] == x;
    } else {
      HighRun(mode, Look(true, false), x[1..], rest, st);
      Assoc(Copied(st, x[..1]), Copied(st, x[1..]), Scan(mode, ByteWise, Look(true, false), rest, st));
      assert x == x[..1] + x[1..];
    }
  }

  lemma EncodedHigh(c: char, r: string)
    requires !IsAsciiChar(c)
    ensures High(EncodeChar(c)) && |EncodeChar(c)| >= 2 && Encode([c] + r) == EncodeChar(c) + Encode(r)
    ensures Encode([c]) == EncodeChar(c)
  {
    DivDiv(c as int);
    assert ([c] + r)[1..] == r;
    assert [c][1..] == "" && EncodeChar(c) + "" == EncodeChar(c);
  }

  // ---- the whole scan ----

  /** Scanning the bytes of a text, from any state, writes the bytes of what
      scanning its code points writes. */
  lemma {:induction false} BytesOfScan(mode: Mode, look: Look, s: string, st: State)
    requires (mode == Remove || mode == Fold) && AsciiTag(st)
    ensures Scan(mode, ByteWise, look, Encode(s), st) == Encode(Scan(mode, ByteWise, look, s, st))
    decreases |s|
  {
    hide Next, Emit, LookAfter, Encode, EncodeChar, DollarTag;
    EncodedNothing();
    if s != "" {
      if !IsAsciiChar(s[0]) {
        HighCharacter(mode, look, s, st);
        BytesOfScan(mode, Look(true, false), s[1..], st);
      } else {
        var k := Next(ByteWise, look, s, st);
        AsciiStep(look, s, st);
        AsciiStepTakes(look, s, st);
        if IsAscii(s[..k.n]) {
          BytesOfScan(mode, LookAfter(ByteWise, look, s[..k.n]), s[k.n..], k.post);
          AsciiCharacters(mode, look, s, st);
        } else {
          EscapedHigh(mode, look, s, st);
          BytesOfScan(mode, Look(true, false), s[2..], st);
        }
      }
    }
  }

  lemma HighCharacter(mode: Mode, look: Look, s: string, st: State)
    requires (mode == Remove || mode == Fold) && s != "" && !IsAsciiChar(s[0])
    ensures Scan(mode, ByteWise, look, Encode(s), st) ==
            Encode(Copied(st, [s[0]])) + Scan(mode, ByteWise, Look(true, false), Encode(s[1..]), st)
    ensures Encode(Scan(mode, ByteWise, look, s, st)) ==
            Encode(Copied(st, [s[0]])) + Encode(Scan(mode, ByteWise, Look(true, false), s[1..], st))
  {
    hide Next, Emit, LookAfter, Encode, EncodeChar, Scan;
    var c, r := s[0], s[1..];
    EncodedHigh(c, r);
    EncodedNothing();
    assert s == [c] + r;
    HighRun(mode, look, EncodeChar(c), Encode(r), st);
    HighRun(mode, look, [c], r, st);
    EncodeConcat(Copied(st, [c]), Scan(mode, ByteWise, Look(true, false), r, st));
  }

  lemma EmitAscii(mode: Mode, kind: Kind, x: string)
    requires (mode == Remove || mode == Fold) && IsAscii(x)
    ensures IsAscii(Emit(mode, kind, x))
  {}

  lemma AsciiCharacters(mode: Mode, look: Look, s: string, st: State)
    requires (mode == Remove || mode == Fold) && s != "" && Encode(s) != ""
    requires var k := Next(ByteWise, look, s, st); IsAscii(s[..k.n]) && Next(ByteWise, look, Encode(s), st) == k
    ensures var k := Next(ByteWise, look, s, st);
            var look1, e := LookAfter(ByteWise, look, s[..k.n]), Emit(mode, k.kind, s[..k.n]);
            && Scan(mode, ByteWise, look, Encode(s), st) == e + Scan(mode, ByteWise, look1, Encode(s[k.n..]), k.post)
            && Encode(Scan(mode, ByteWise, look, s, st)) == e + Encode(Scan(mode, ByteWise, look1, s[k.n..], k.post))
  {
    hide Next, Emit, LookAfter, Encode, EncodeChar;
    var k := Next(ByteWise, look, s, st);
    EncodedPrefix(s, k.n);
    EmitAscii(mode, k.kind, s[..k.n]);
    var e := Emit(mode, k.kind, s[..k.n]);
    EncodeAscii(e);
    EncodeConcat(e, Scan(mode, ByteWise, LookAfter(ByteWise, look, s[..k.n]), s[k.n..], k.post));
  }

  /** A backslash and the first byte of a character are one step over the bytes,
      a backslash and the character one step over the code points. */
  lemma EscapedHigh(mode: Mode, look: Look, s: string, st: State)
    requires (mode == Remove || mode == Fold) && |s| > 1 && st.SingleQuote? && st.escapes
    requires s[0] == '\\' && !IsAsciiChar(s[1])
    ensures Scan(mode, ByteWise, look, Encode(s), st) ==
            Encode(s[..2]) + Scan(mode, ByteWise, Look(true, false), Encode(s[2..]), st)
    ensures Encode(Scan(mode, ByteWise, look, s, st)) ==
            Encode(s[..2]) + Encode(Scan(mode, ByteWise, Look(true, false), s[2..], st))
  {
    EscapedBytes(mode, look, EncodeParts(s), Encode(s[2..]), st);
    EscapedText(mode, look, s, st);
    hide Next, Emit, LookAfter, Encode, EncodeChar, Scan;
    var x := EncodeParts(s);
    assert s == s[..2] + s[2..];
    EncodeConcat(s[..2], s[2..]);
    EncodeConcat(s[..2], Scan(mode, ByteWise, Look(true, false), s[2..], st));
  }

  /** The bytes of a backslash and a character beyond ASCII. */
  function EncodeParts(s: string): (x: Bytes)
    requires |s| > 1 && s[0] == '\\' && !IsAsciiChar(s[1])
    ensures x == Encode(s[..2]) && |x| >= 3 && x[0] == '\\' && High(x[1..])
  {
    EncodedHigh(s[1], "");
    EncodedFirst(s[..2]);
    assert s[..2][1..] == [s[1]] && [s[1]] + "" == [s[1]];
    Encode(s[..2])
  }

  lemma EscapedPair(mode: Mode, look: Look, s: string, st: State)
    requires (mode == Remove || mode == Fold) && |s| > 1 && st.SingleQuote? && st.escapes && s[0] == '\\'
    ensures Scan(mode, ByteWise, look, s, st) ==
            s[..2] + Scan(mode, ByteWise, LookAfter(ByteWise, look, s[..2]), s[2..], st)
  {
    hide LookAfter;
    assert Next(ByteWise, look, s, st) == Step(2, st, Body);
  }

  lemma EscapedBytes(mode: Mode, look: Look, x: Bytes, rest: Bytes, st: State)
    requires (mode == Remove || mode == Fold) && st.SingleQuote? && st.escapes
    requires |x| >= 3 && x[0] == '\\' && High(x[1..])
    ensures Scan(mode, ByteWise, look, x + rest, st) == x + Scan(mode, ByteWise, Look(true, false), rest, st)
  {
    hide LookAfter, Scan;
    var s := x + rest;
    EscapedPair(mode, look, s, st);
    assert s[..2] == x[..2] && s[2..] == x[2..] + rest;
    assert forall i :: 0 <= i < |x[2..]| ==> x[2..][i] == x[1..][i + 1];
    HighRun(mode, LookAfter(ByteWise, look, x[..2]), x[2..], rest, st);
    Assoc(x[..2], x[2..], Scan(mode, ByteWise, Look(true, false), rest, st));
    assert x == x[..2] + x[2..];
  }

  lemma EscapedText(mode: Mode, look: Look, s: string, st: State)
    requires (mode == Remove || mode == Fold) && |s| > 1 && st.SingleQuote? && st.escapes
    requires s[0] == '\\' && !IsAsciiChar(s[1])
    ensures Scan(mode, ByteWise, look, s, st) == s[..2] + Scan(mode, ByteWise, Look(true, false), s[2..], st)
  {
    EscapedPair(mode, look, s, st);
    LookLast(ByteWise, look, s[..2]);
  }

  // ---- the normal form ----

  /** The normalized bytes of a UTF-8 text are the bytes of its normalized text. */
  lemma NormalizedText(s: string)
    ensures Normalized(Encode(s)) == Encode(NormalText(s))
  {
    hide Scan, Encode, Decode, Collapse, Trim;
    BytesOfScan(Fold, QUIET, s, Normal);
    DecodeEncode(Run(Fold, ByteWise, s));
  }
}
