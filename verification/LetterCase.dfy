/** Letter case is free outside literals, and only there: texts that differ by the
    case of ASCII letters in plain characters have the same normalized checksum
    (Normalized of internal/checksum/calculator.go). */
module LetterCase {
  import opened Text
  import opened Trimming
  import opened Lexer
  import opened Checksum
  import opened ByteScan
  import opened Grammar
  import opened Words

  // ---- the letters ----

  /** `u` is letter number `k` of the alphabet in upper case, and `l` in lower case. */
  predicate IsPair(u: char, l: char, k: nat) {
    k < 26 && u as int == 'A' as int + k && l as int == 'a' as int + k
  }

  predicate SameLetter(c: char, d: char) {
    exists k: nat :: k < 26 && (IsPair(c, d, k) || IsPair(d, c, k))
  }

  /** Folding takes each of the 26 letters to lower case, and nothing else anywhere. */
  lemma FoldIsLower(c: char)
    ensures forall l, k :: IsPair(c, l, k) ==> FoldAscii(c) == l && FoldAscii(l) == l
    ensures (forall l, k :: !IsPair(c, l, k)) ==> FoldAscii(c) == c
  {
    if 'A' <= c <= 'Z' { assert IsPair(c, (c as int + 32) as char, c as int - 'A' as int); }
  }

  /** The words of a statement are read in upper case, likewise. */
  lemma UpperIsUpper(c: char)
    ensures forall u, k :: IsPair(u, c, k) ==> UpperAscii(c) == u && UpperAscii(u) == u
    ensures (forall u, k :: !IsPair(u, c, k)) ==> UpperAscii(c) == c
  {
    if 'a' <= c <= 'z' { assert IsPair((c as int - 32) as char, c, c as int - 'a' as int); }
  }

  // ---- texts that differ by the case of letters ----

  /** Character by character the same, or the same letter. */
  predicate SameButCase(s: string, t: string) {
    |s| == |t| && forall i :: 0 <= i < |s| ==> s[i] == t[i] || SameLetter(s[i], t[i])
  }

  /** Element by element the same, or the same letter outside literals and comments. */
  predicate CaseVariant(es: seq<Element>, fs: seq<Element>) {
    && |es| == |fs|
    && forall i :: 0 <= i < |es| ==>
         es[i] == fs[i] || (es[i].Character? && fs[i].Character? && SameLetter(es[i].c, fs[i].c))
  }

  lemma SameLetterShape(lx: Lexis, c: char, d: char)
    requires SameLetter(c, d)
    ensures IsAsciiLetter(c) && IsAsciiLetter(d) && FoldAscii(c) == FoldAscii(d)
    ensures ((c == 'E' || c == 'e') <==> (d == 'E' || d == 'e'))
    ensures IsIdentifier(lx, c) && IsIdentifier(lx, d) && (forall first :: IsTagChar(lx, c, first) && IsTagChar(lx, d, first))
  {}

  lemma SameButCaseJoin(a: string, b: string, c: string, d: string)
    requires SameButCase(a, b) && SameButCase(c, d)
    ensures SameButCase(a + c, b + d)
  {
    hide SameLetter;
  }

  lemma SameText(s: string)
    ensures SameButCase(s, s)
  {}

  lemma {:induction false} VariantSource(es: seq<Element>, fs: seq<Element>)
    requires CaseVariant(es, fs)
    ensures SameButCase(SourceOfAll(es), SourceOfAll(fs))
    decreases |es|
  {
    hide SourceOf, SameLetter;
    if es != [] {
      VariantTail(es, fs);
      VariantSource(es[1..], fs[1..]);
      VariantFirst(es[0], fs[0]);
      SameButCaseJoin(SourceOf(es[0]), SourceOf(fs[0]), SourceOfAll(es[1..]), SourceOfAll(fs[1..]));
    }
  }

  lemma VariantTail(es: seq<Element>, fs: seq<Element>)
    requires CaseVariant(es, fs) && es != []
    ensures CaseVariant(es[1..], fs[1..])
  {
    hide SameLetter;
  }

  lemma VariantFirst(e: Element, f: Element)
    requires e == f || (e.Character? && f.Character? && SameLetter(e.c, f.c))
    ensures SameButCase(SourceOf(e), SourceOf(f))
  {
    hide SameLetter;
    SameText(SourceOf(e));
    if e != f { assert SourceOf(e) == [e.c] && SourceOf(f) == [f.c]; }
  }

  /** Case decides nothing in the grammar. */
  lemma DelimiterVariant(lx: Lexis, t: string, u: string)
    requires SameButCase(t, u) && IsDelimiter(lx, t)
    ensures IsDelimiter(lx, u)
  {
    forall i | 0 <= i < |t| && t[i] != u[i] ensures IsAsciiLetter(t[i]) && IsTagChar(lx, u[i], true) && IsTagChar(lx, u[i], false) {
      SameLetterShape(lx, t[i], u[i]);
    }
  }

  lemma StartsVariant(lx: Lexis, s: string, t: string)
    requires SameButCase(s, t) && StartsDelimiter(lx, s)
    ensures StartsDelimiter(lx, t)
  {
    hide IsDelimiter, SameLetter;
    var n: nat :| n <= |s| && IsDelimiter(lx, s[..n]);
    assert SameButCase(s[..n], t[..n]);
    DelimiterVariant(lx, s[..n], t[..n]);
  }

  lemma Flipped(s: string, t: string)
    requires SameButCase(s, t)
    ensures SameButCase(t, s)
  {}

  lemma EscapesVariant(lx: Lexis, s: string, t: string)
    requires SameButCase(s, t)
    ensures OpensEscapes(lx, s) == OpensEscapes(lx, t)
  {
    forall i | 0 <= i < |s| && s[i] != t[i]
      ensures ((s[i] == 'E' || s[i] == 'e') <==> (t[i] == 'E' || t[i] == 'e')) && IsIdentifier(lx, s[i]) && IsIdentifier(lx, t[i])
    {
      SameLetterShape(lx, s[i], t[i]);
    }
    hide IsIdentifier, SameLetter;
  }

  lemma FirstVariant(s: string, t: string, c: char)
    requires SameButCase(s, t) && !IsAsciiLetter(c)
    ensures At(s, 0, c) == At(t, 0, c)
  {
    if s != "" && s[0] != t[0] { SameLetterShape(ByteWise, s[0], t[0]); }
  }

  lemma ElementVariant(lx: Lexis, before: string, e: Element, rest: string, before': string, f: Element, rest': string)
    requires IsElement(lx, before, e, rest) && SameButCase(before, before') && SameButCase(rest, rest')
    requires e == f || (e.Character? && f.Character? && SameLetter(e.c, f.c))
    ensures IsElement(lx, before', f, rest')
  {
    hide IsDelimiter, StartsDelimiter, Avoids, OpensEscapes, QuotedBody, CommentBody, SameLetter;
    EscapesVariant(lx, before, before');
    FirstVariant(rest, rest', '-');
    FirstVariant(rest, rest', '*');
    FirstVariant(rest, rest', '\'');
    FirstVariant(rest, rest', '"');
    if e != f {
      SameLetterShape(lx, e.c, f.c);
    } else if e.Character? && StartsDelimiter(lx, [e.c] + rest') {
      SameText([e.c]);
      Flipped(rest, rest');
      SameButCaseJoin([e.c], [e.c], rest', rest);
      StartsVariant(lx, [e.c] + rest', [e.c] + rest);
    }
  }

  lemma {:induction false} VariantIsElements(lx: Lexis, before: string, es: seq<Element>, before': string, fs: seq<Element>)
    requires AreElements(lx, before, es) && CaseVariant(es, fs) && SameButCase(before, before')
    ensures AreElements(lx, before', fs)
    decreases |es|
  {
    hide IsElement, SourceOf, SameLetter, SourceOfAll, SameButCase;
    if es != [] {
      VariantTail(es, fs);
      VariantFirst(es[0], fs[0]);
      VariantSource(es[1..], fs[1..]);
      ElementVariant(lx, before, es[0], SourceOfAll(es[1..]), before', fs[0], SourceOfAll(fs[1..]));
      SameButCaseJoin(before, before', SourceOf(es[0]), SourceOf(fs[0]));
      VariantIsElements(lx, before + SourceOf(es[0]), es[1..], before' + SourceOf(fs[0]), fs[1..]);
    }
  }

  lemma {:induction false} VariantOutput(es: seq<Element>, fs: seq<Element>)
    requires CaseVariant(es, fs)
    ensures OutputOfAll(Fold, es) == OutputOfAll(Fold, fs)
    decreases |es|
  {
    hide SameLetter;
    if es != [] {
      VariantTail(es, fs);
      if es[0] != fs[0] { SameLetterShape(ByteWise, es[0].c, fs[0].c); }
      VariantOutput(es[1..], fs[1..]);
    }
  }

  /** The case of letters outside literals is free: changing it anywhere leaves a text
      of the same elements, and the same normalized bytes. */
  lemma CaseIsFree(es: seq<Element>, fs: seq<Element>)
    requires AreElements(ByteWise, "", es) && CaseVariant(es, fs)
    ensures AreElements(ByteWise, "", fs) && SameButCase(SourceOfAll(es), SourceOfAll(fs))
    ensures Normalized(Encode(SourceOfAll(es))) == Normalized(Encode(SourceOfAll(fs)))
  {
    hide AreElements, SourceOfAll, OutputOfAll, Scan, CaseVariant, Normalized, Encode, Collapse, Trim;
    SameText("");
    VariantIsElements(ByteWise, "", es, "", fs);
    VariantSource(es, fs);
    VariantOutput(es, fs);
    assert LookAfter(ByteWise, QUIET, "") == QUIET;
    ScanIsByElements(Fold, ByteWise, "", es);
    ScanIsByElements(Fold, ByteWise, "", fs);
    NormalizedText(SourceOfAll(es));
    NormalizedText(SourceOfAll(fs));
  }

  /** No upper-case letter survives outside literals, and within them nothing changes. */
  lemma FoldOfElement(e: Element)
    ensures e.Character? ==>
              |OutputOf(Fold, e)| == 1 && !('A' <= OutputOf(Fold, e)[0] <= 'Z')
              && (OutputOf(Fold, e)[0] == e.c || IsPair(e.c, OutputOf(Fold, e)[0], e.c as int - 'A' as int))
    ensures e.DollarQuoted? || e.Constant? || e.QuotedName? ==> OutputOf(Fold, e) == SourceOf(e)
    ensures e.LineRemark? ==> OutputOf(Fold, e) == " " + e.lineEnd
    ensures e.BlockRemark? ==> OutputOf(Fold, e) == " "
  {
    if e.Character? && OutputOf(Fold, e)[0] != e.c { assert 'A' <= e.c <= 'Z'; }
  }
}
