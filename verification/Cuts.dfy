/** Where a text can be cut so that its two parts are scanned independently. */
module Cuts {
  import opened Text
  import opened Lexer
  import opened Sequences

  /** Scanning `s` from `st` comes to a step boundary after exactly `k`
      characters, in state `q`. */
  predicate Reaches(lx: Lexis, look: Look, s: string, st: State, k: nat, q: State)
    requires k <= |s|
    decreases |s|
  {
    if k == 0 then st == q else
      var j := Next(lx, look, s, st);
      j.n <= k && Reaches(lx, LookAfter(lx, look, s[..j.n]), s[j.n..], j.post, k - j.n, q)
  }

  lemma Slices(s: string, n: nat, k: nat)
    requires n <= k <= |s|
    ensures s[..k][..n] == s[..n] && s[..k][n..] == s[n..][..k - n] && s[n..][k - n..] == s[k..]
    ensures s[..n] + s[n..][..k - n] == s[..k]
  {}

  lemma EmptyPart(mode: Mode, lx: Lexis, look: Look, s: string, st: State)
    ensures s[..0] == "" && s[0..] == s && LookAfter(lx, look, s[..0]) == look
    ensures Scan(mode, lx, look, s, st) == Scan(mode, lx, look, s[..0], st) + Scan(mode, lx, look, s[0..], st)
  {}

  /** The first step of a cut text is that of the whole. */
  lemma CutUnfolds(mode: Mode, lx: Lexis, look: Look, s: string, st: State, k: nat)
    requires s != "" && Next(lx, look, s, st).n <= k <= |s|
    ensures var j := Next(lx, look, s, st);
            var look1, t := LookAfter(lx, look, s[..j.n]), s[j.n..][..k - j.n];
            && Scan(mode, lx, look, s[..k], st) == Emit(mode, j.kind, s[..j.n]) + Scan(mode, lx, look1, t, j.post)
            && Final(lx, look, s[..k], st) == Final(lx, look1, t, j.post)
            && LookAfter(lx, look, s[..k]) == LookAfter(lx, look1, t)
  {
    hide Next, LookAfter, Emit;
    var j := Next(lx, look, s, st);
    NextPrefix(lx, look, s, st, k);
    Slices(s, j.n, k);
    LookConcat(lx, look, s[..j.n], s[j.n..][..k - j.n]);
  }

  /** At every step boundary, in every mode, the scan is that of the first part
      followed by that of the second, despite the unbounded look-ahead. */
  lemma {:induction false} ScanSplits(mode: Mode, lx: Lexis, look: Look, s: string, st: State, k: nat, q: State)
    requires k <= |s| && Reaches(lx, look, s, st, k, q)
    ensures Scan(mode, lx, look, s, st) ==
            Scan(mode, lx, look, s[..k], st) + Scan(mode, lx, LookAfter(lx, look, s[..k]), s[k..], q)
    ensures Final(lx, look, s[..k], st) == q
    decreases |s|
  {
    hide Next, LookAfter, Emit;
    if k > 0 {
      var j := Next(lx, look, s, st);
      var look1, r := LookAfter(lx, look, s[..j.n]), s[j.n..];
      ScanSplits(mode, lx, look1, r, j.post, k - j.n, q);
      CutUnfolds(mode, lx, look, s, st, k);
      Slices(s, j.n, k);
      Assoc(Emit(mode, j.kind, s[..j.n]), Scan(mode, lx, look1, r[..k - j.n], j.post),
            Scan(mode, lx, LookAfter(lx, look, s[..k]), s[k..], q));
    } else {
      EmptyPart(mode, lx, look, s, st);
    }
  }

  // ---- the mask, byte by byte ----

  lemma SpacesEncode(n: nat)
    ensures Encode(Spaces(n)) == Spaces(n)
  {
    EncodeAscii(Spaces(n));
  }

  /** Byte for byte the source, or a space. */
  predicate SourceOrBlank(m: Bytes, b: Bytes) {
    |m| == |b| && forall i :: 0 <= i < |m| ==> m[i] == b[i] || m[i] == ' '
  }

  lemma EmitBytes(kind: Kind, x: string)
    ensures SourceOrBlank(Encode(Emit(Mask, kind, x)), Encode(x))
  {
    hide Encode, EncodeChar;
    SpacesEncode(ByteLen(x));
  }

  /** Masking keeps every byte in place: each byte of the mask is the byte of
      the source, or a space. */
  lemma {:induction false} MaskBytes(lx: Lexis, look: Look, s: string, st: State)
    ensures SourceOrBlank(Encode(Scan(Mask, lx, look, s, st)), Encode(s))
    decreases |s|
  {
    hide Next, LookAfter, Emit, Encode, EncodeChar;
    if s != "" {
      var k := Next(lx, look, s, st);
      var x, r := s[..k.n], s[k.n..];
      var look1 := LookAfter(lx, look, x);
      MaskBytes(lx, look1, r, k.post);
      EmitBytes(k.kind, x);
      EncodeConcat(Emit(Mask, k.kind, x), Scan(Mask, lx, look1, r, k.post));
      EncodeConcat(x, r);
      Slices(s, k.n, |s|);
      assert s == x + r;
    }
  }

  lemma ReachesStep(lx: Lexis, look: Look, s: string, st: State, k: nat, q: State)
    requires s != "" && Next(lx, look, s, st).n + k <= |s|
    requires var j := Next(lx, look, s, st);
             Reaches(lx, LookAfter(lx, look, s[..j.n]), s[j.n..], j.post, k, q)
    ensures Reaches(lx, look, s, st, Next(lx, look, s, st).n + k, q)
  {}

  /** A semicolon that survives masking ends a step in the normal state: the
      text can be cut right after it. */
  lemma {:induction false} SemicolonReached(lx: Lexis, look: Look, s: string, st: State, p: nat) returns (k: nat)
    requires p < ByteLen(Scan(Mask, lx, look, s, st))
    requires Encode(Scan(Mask, lx, look, s, st))[p] == ';'
    ensures 0 < k <= |s| && s[k - 1] == ';' && ByteLen(s[..k]) == p + 1
    ensures Reaches(lx, look, s, st, k, Normal)
    decreases |s|
  {
    hide Next, LookAfter, Emit, Encode, EncodeChar;
    var j := Next(lx, look, s, st);
    var x, r := s[..j.n], s[j.n..];
    var look1 := LookAfter(lx, look, x);
    EmitBytes(j.kind, x);
    EncodeConcat(Emit(Mask, j.kind, x), Scan(Mask, lx, look1, r, j.post));
    if p < ByteLen(x) {
      SemicolonStep(lx, look, s, st, p);
      k := 1;
      assert x == ";";
      EncodeAscii(x);
    } else {
      var k' := SemicolonReached(lx, look1, r, j.post, p - ByteLen(x));
      k := j.n + k';
      Slices(s, j.n, k);
      EncodeConcat(x, r[..k']);
      ReachesStep(lx, look, s, st, k', Normal);
    }
  }

  lemma SemicolonStep(lx: Lexis, look: Look, s: string, st: State, p: nat)
    requires s != ""
    requires var j := Next(lx, look, s, st);
             p < ByteLen(Emit(Mask, j.kind, s[..j.n])) && Encode(Emit(Mask, j.kind, s[..j.n]))[p] == ';'
    ensures p == 0 && s[0] == ';' && Next(lx, look, s, st) == Step(1, Normal, Plain)
  {
    hide Encode, EncodeChar;
    var j := Next(lx, look, s, st);
    SpacesEncode(ByteLen(s[..j.n]));
    var i := EncodedAscii(Emit(Mask, j.kind, s[..j.n]), p);
  }
}
