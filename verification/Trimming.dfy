/** The library functions on text that the configuration and file code uses. */
module Trimming {
  import opened Text

  /** White space beyond ASCII. */
  predicate IsWideSpace(c: char) {
    || c == '\U{85}' || c == '\U{A0}' || c == '\U{1680}' || '\U{2000}' <= c <= '\U{200A}'
    || c == '\U{2028}' || c == '\U{2029}' || c == '\U{202F}' || c == '\U{205F}' || c == '\U{3000}'
  }

  /** White space as the standard library defines it. */
  predicate IsUnicodeSpace(c: char) { IsSpace(c) || IsWideSpace(c) }

  /** The white space of Unicode. */
  lemma UnicodeSpaces(c: char)
    ensures IsUnicodeSpace(c) <==>
            || c in {'\t', '\n', '\U{0B}', '\U{0C}', '\r', ' ', '\U{85}', '\U{A0}', '\U{1680}', '\U{2028}', '\U{2029}', '\U{202F}', '\U{205F}', '\U{3000}'}
            || '\U{2000}' <= c <= '\U{200A}'
  {}

  lemma WideIsNotAscii(c: char)
    requires IsWideSpace(c)
    ensures !IsAsciiChar(c) && !IsSpace(c)
  {}

  function TrimStart(s: string): string {
    if s != "" && IsUnicodeSpace(s[0]) then TrimStart(s[1..]) else s
  }

  function TrimEnd(s: string): string {
    if s != "" && IsUnicodeSpace(s[|s| - 1]) then TrimEnd(s[..|s| - 1]) else s
  }

  function Trim(s: string): string { TrimEnd(TrimStart(s)) }

  predicate Trimmed(s: string) {
    s == "" || (!IsUnicodeSpace(s[0]) && !IsUnicodeSpace(s[|s| - 1]))
  }

  lemma {:induction false} TrimStartShape(s: string) returns (k: nat)
    ensures var t := TrimStart(s);
            && (t == "" || !IsUnicodeSpace(t[0])) && k <= |s| && t == s[k..]
            && forall i :: 0 <= i < k ==> IsUnicodeSpace(s[i])
  {
    k := 0;
    if s != "" && IsUnicodeSpace(s[0]) {
      var k' := TrimStartShape(s[1..]);
      k := k' + 1;
    }
  }

  lemma {:induction false} TrimEndShape(s: string) returns (k: nat)
    requires s == "" || !IsUnicodeSpace(s[0])
    ensures k <= |s| && TrimEnd(s) == s[..k] && Trimmed(s[..k])
    ensures forall i :: k <= i < |s| ==> IsUnicodeSpace(s[i])
  {
    k := |s|;
    if s != "" && IsUnicodeSpace(s[|s| - 1]) {
      k := TrimEndShape(s[..|s| - 1]);
      assert s[..|s| - 1][..k] == s[..k];
    } else {
      assert s == s[..|s|];
    }
  }

  /** Trimming takes the white space off both ends, and nothing else. */
  lemma TrimShape(s: string) returns (k: nat, l: nat)
    ensures k <= l <= |s| && Trim(s) == s[k..l] && Trimmed(s[k..l])
    ensures forall i :: 0 <= i < k || l <= i < |s| ==> IsUnicodeSpace(s[i])
  {
    hide TrimStart, TrimEnd, Trimmed, IsUnicodeSpace;
    k := TrimStartShape(s);
    var n := TrimEndShape(s[k..]);
    l := k + n;
    assert s[k..][..n] == s[k..l];
    assert forall i :: l <= i < |s| ==> s[i] == s[k..][i - k];
  }

  lemma TrimKeeps(s: string)
    requires Trimmed(s)
    ensures Trim(s) == s
  {}

  predicate AllUnicodeSpace(s: string) { forall i :: 0 <= i < |s| ==> IsUnicodeSpace(s[i]) }

  lemma {:induction false} TrimStartSkips(a: string, x: string)
    requires AllUnicodeSpace(a)
    ensures TrimStart(a + x) == TrimStart(x)
  {
    hide IsUnicodeSpace;
    if a == "" {
      assert a + x == x;
    } else {
      assert (a + x)[1..] == a[1..] + x && (a + x)[0] == a[0];
      TrimStartSkips(a[1..], x);
    }
  }

  lemma {:induction false} TrimEndSkips(x: string, b: string)
    requires AllUnicodeSpace(b)
    ensures TrimEnd(x + b) == TrimEnd(x)
    decreases |b|
  {
    hide IsUnicodeSpace;
    if b == "" {
      assert x + b == x;
    } else {
      assert (x + b)[..|x + b| - 1] == x + b[..|b| - 1] && (x + b)[|x + b| - 1] == b[|b| - 1];
      TrimEndSkips(x, b[..|b| - 1]);
    }
  }

  /** Trimming takes off the white space around a trimmed text. */
  lemma TrimAround(a: string, x: string, b: string)
    requires Trimmed(x) && AllUnicodeSpace(a) && AllUnicodeSpace(b)
    ensures Trim(a + (x + b)) == x
  {
    hide IsUnicodeSpace, AllUnicodeSpace;
    TrimStartSkips(a, x + b);
    if x == "" {
      assert x + b == b == b + "";
      TrimStartSkips(b, "");
    } else {
      assert (x + b)[0] == x[0];
      TrimEndSkips(x, b);
    }
  }

  // ---- lines ----

  /** The lines of a text: it is their concatenation, joined by newlines. */
  function Lines(s: string): (ls: seq<string>)
    ensures ls != []
  {
    if s == "" then [""]
    else
      var rest := Lines(s[1..]);
      if s[0] == '\n' then [""] + rest else [[s[0]] + rest[0]] + rest[1..]
  }
}
