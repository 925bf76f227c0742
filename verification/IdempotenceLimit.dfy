/** A text on which normalizing twice is not normalizing once: the condition of
    ChecksumLaws.NormalizeIsIdempotent cannot be dropped. */
module IdempotenceLimit {
  import opened Text
  import opened Trimming
  import opened Lexer
  import opened Checksum
  import opened ByteScan
  import opened ChecksumLaws

  /** A no-break space, an E and a quote; what the quote opens ends at the second
      quote or, with escapes, at the third. */
  const SAMPLE := "\U{A0}E'\\'\"'A"

  /** The same without the space, its E in lower case. */
  const ONCE := "e'\\'\"'A"

  const TWICE := "e'\\'\"'a"

  /** Characters that are one step each. */
  lemma StepOne(look: Look, c: char, r: string, st: State)
    requires Next(ByteWise, look, [c] + r, st).n == 1
    ensures var k := Next(ByteWise, look, [c] + r, st);
            Scan(Fold, ByteWise, look, [c] + r, st) ==
            Emit(Fold, k.kind, [c]) + Scan(Fold, ByteWise, LookChar(ByteWise, look, c), r, k.post)
  {
    hide Next, Emit;
    var s := [c] + r;
    assert s[..1] == [c] && s[1..] == r;
    assert LookAfter(ByteWise, look, [c]) == LookChar(ByteWise, look, c);
  }

  lemma FoldOne(c: char)
    ensures FoldText([c]) == [FoldAscii(c)]
  {}

  /** A quoted identifier that is not closed. */
  lemma ScanIdentifier(look: Look)
    ensures Scan(Fold, ByteWise, look, "\"'A", Normal) == "\"'A"
  {
    hide Scan;
    assert "\"'A" == ['"'] + "'A" && "'A" == ['\''] + "A" && "A" == ['A'] + "";
    StepOne(look, '"', "'A", Normal);
    StepOne(Look(false, false), '\'', "A", QuotedIdentifier);
    StepOne(Look(false, false), 'A', "", QuotedIdentifier);
    ScanNothing(Look(true, false), QuotedIdentifier);
  }

  lemma ScanNothing(look: Look, st: State)
    ensures Scan(Fold, ByteWise, look, "", st) == ""
  {}

  /** The literal without escapes ends at the second quote. */
  lemma ScanPlainLiteral(look: Look)
    requires !look.escape
    ensures Scan(Fold, ByteWise, look, "'\\'\"'A", Normal) == "'\\'\"'A"
  {
    hide Scan;
    assert "'\\'\"'A" == ['\''] + "\\'\"'A" && "\\'\"'A" == ['\\'] + "'\"'A" && "'\"'A" == ['\''] + "\"'A";
    StepOne(look, '\'', "\\'\"'A", Normal);
    StepOne(Look(false, false), '\\', "'\"'A", SingleQuote(false));
    StepOne(Look(false, false), '\'', "\"'A", SingleQuote(false));
    ScanIdentifier(Look(false, false));
  }

  /** With escapes it ends at the third, and what follows is folded. */
  lemma ScanEscapeLiteral(look: Look)
    requires look.escape
    ensures Scan(Fold, ByteWise, look, "'\\'\"'A", Normal) == "'\\'\"'a"
  {
    hide Scan;
    assert "'\\'\"'A" == ['\''] + "\\'\"'A" && "\\'\"'A"[2..] == "\"'A" && "\\'\"'A"[..2] == "\\'";
    StepOne(look, '\'', "\\'\"'A", Normal);
    EscapedPair(Fold, Look(false, false), "\\'\"'A", SingleQuote(true));
    var look1 := LookAfter(ByteWise, Look(false, false), "\\'");
    assert "\"'A" == ['"'] + "'A" && "'A" == ['\''] + "A" && "A" == ['A'] + "";
    StepOne(look1, '"', "'A", SingleQuote(true));
    StepOne(LookChar(ByteWise, look1, '"'), '\'', "A", SingleQuote(true));
    StepOne(LookChar(ByteWise, LookChar(ByteWise, look1, '"'), '\''), 'A', "", Normal);
    ScanNothing(LookChar(ByteWise, LookChar(ByteWise, LookChar(ByteWise, look1, '"'), '\''), 'A'), Normal);
    FoldOne('A');
  }

  lemma FirstPass()
    ensures Run(Fold, ByteWise, SAMPLE) == "\U{A0}e'\\'\"'A"
  {
    hide Scan;
    var rest := "'\\'\"'A";
    assert SAMPLE == ['\U{A0}'] + "E'\\'\"'A" && "E'\\'\"'A" == ['E'] + rest;
    StepOne(QUIET, '\U{A0}', "E'\\'\"'A", Normal);
    StepOne(Look(true, false), 'E', rest, Normal);
    ScanPlainLiteral(Look(true, false));
    FoldOne('\U{A0}');
    FoldOne('E');
  }

  lemma SecondPass()
    ensures Run(Fold, ByteWise, ONCE) == TWICE
  {
    hide Scan;
    assert ONCE == ['e'] + "'\\'\"'A";
    StepOne(QUIET, 'e', "'\\'\"'A", Normal);
    ScanEscapeLiteral(Look(true, true));
    FoldOne('e');
  }

  /** Text without white space, but perhaps with one in front. */
  lemma CollapseOnce(w: string, t: string)
    requires (w == "" || (|w| == 1 && IsUnicodeSpace(w[0]))) && Solid(t)
    ensures Trim(Collapse(w + t, false)) == t
  {
    hide IsWideSpace;
    CollapseOfSolid(t, "", w != "");
    assert t + "" == t && Collapse("", false) == "";
    if w == "" {
      assert w + t == t;
      TrimKeeps(t);
    } else {
      assert (w + t)[1..] == t && (w + t)[0] == w[0];
      CollapseCons(w + t, false);
      assert Collapse(w + t, false) == " " + t && (" " + t)[1..] == t;
      TrimKeeps(t);
      assert TrimStart(" " + t) == TrimStart(t) == t;
    }
  }

  lemma SolidSamples()
    ensures Solid(ONCE) && Solid(TWICE) && IsUnicodeSpace('\U{A0}')
  {
    assert ONCE == ['e', '\'', '\\', '\'', '"', '\'', 'A'];
    assert TWICE == ['e', '\'', '\\', '\'', '"', '\'', 'a'];
  }

  lemma Passes()
    ensures NormalText(SAMPLE) == ONCE && NormalText(ONCE) == TWICE
  {
    FirstPass();
    SecondPass();
    SolidSamples();
    hide Scan, Collapse, Trim, Solid, IsUnicodeSpace, Run;
    assert "\U{A0}e'\\'\"'A" == "\U{A0}" + ONCE && "" + TWICE == TWICE;
    CollapseOnce("\U{A0}", ONCE);
    CollapseOnce("", TWICE);
  }

  lemma SamplesDiffer()
    ensures ONCE != TWICE && Encode(ONCE) != Encode(TWICE)
  {
    assert ONCE[6] != TWICE[6];
    hide Encode, Decode;
    DecodeEncode(ONCE);
    DecodeEncode(TWICE);
  }

  /** The no-break space becomes a space and is trimmed; the second pass then reads
      an escape string and folds what the first took for a quoted identifier. */
  lemma NormalizingTwiceCanDiffer()
    ensures !GainsNoEscape(QUIET, Run(Fold, ByteWise, SAMPLE), Normal)
    ensures NormalText(SAMPLE) == ONCE && NormalText(ONCE) == TWICE && ONCE != TWICE
    ensures Normalized(Normalized(Encode(SAMPLE))) != Normalized(Encode(SAMPLE))
  {
    hide GainsNoEscape, NormalText, Normalized, Encode, Run;
    Passes();
    SamplesDiffer();
    NormalizedText(SAMPLE);
    NormalizedText(ONCE);
    if GainsNoEscape(QUIET, Run(Fold, ByteWise, SAMPLE), Normal) { NormalTextIsIdempotent(SAMPLE); }
  }
}
