/** Text as the Go program sees it.  A valid UTF-8 Go string is a `string` of
    code points; its bytes are `Encode(s)`, and a byte is a char below 256, so
    that ASCII text is its own encoding. */
module Text {

  /** A Go string seen byte by byte. */
  type Bytes = string

  predicate IsAsciiChar(c: char) { c < '\U{80}' }

  predicate IsAscii(s: string) { forall i :: 0 <= i < |s| ==> IsAsciiChar(s[i]) }

  /** Number of UTF-8 bytes of a code point. */
  function Width(c: char): (w: nat)
    ensures 1 <= w <= 4
  {
    if c < '\U{80}' then 1 else if c < '\U{800}' then 2 else if c < '\U{10000}' then 3 else 4
  }

  /** UTF-8 encoding of one code point: ASCII is itself, everything else is
      made of bytes above 127. */
  function EncodeChar(c: char): (b: Bytes)
    ensures |b| == Width(c)
    ensures IsAsciiChar(c) ==> b == [c]
    ensures !IsAsciiChar(c) ==> forall i :: 0 <= i < |b| ==> '\U{80}' <= b[i] < '\U{100}'
  {
    var n := c as int;
    if n < 0x80 then [c]
    else if n < 0x800 then [(0xC0 + n / 64) as char, (0x80 + n % 64) as char]
    else if n < 0x10000 then
      [(0xE0 + n / 4096) as char, (0x80 + n / 64 % 64) as char, (0x80 + n % 64) as char]
    else
      [(0xF0 + n / 262144) as char, (0x80 + n / 4096 % 64) as char,
       (0x80 + n / 64 % 64) as char, (0x80 + n % 64) as char]
  }

  function Encode(s: string): (b: Bytes)
    ensures |b| >= |s| && (b == "" <==> s == "")
  {
    if s == "" then "" else EncodeChar(s[0]) + Encode(s[1..])
  }

  function ByteLen(s: string): nat { |Encode(s)| }

  lemma {:induction false} EncodeConcat(a: string, b: string)
    ensures Encode(a + b) == Encode(a) + Encode(b)
    ensures ByteLen(a + b) == ByteLen(a) + ByteLen(b)
  {
    if a == "" {
      assert a + b == b;
    } else {
      assert (a + b)[0] == a[0] && (a + b)[1..] == a[1..] + b;
      EncodeConcat(a[1..], b);
    }
  }

  lemma {:induction false} EncodeAscii(s: string)
    requires IsAscii(s)
    ensures Encode(s) == s
  {
    if s != "" {
      EncodeAscii(s[1..]);
      assert s == [s[0]] + s[1..];
    }
  }

  lemma DivDiv(n: nat)
    ensures n / 4096 == n / 64 / 64 && n / 262144 == n / 4096 / 64
    ensures n == n / 64 * 64 + n % 64
    ensures n / 64 == n / 4096 * 64 + n / 64 % 64
    ensures n / 4096 == n / 262144 * 64 + n / 4096 % 64
  {}

  predicate Continuation(c: char) { '\U{80}' <= c < '\U{C0}' }

  /** The first code point of a byte string and its length; a byte that starts
      no valid encoding is read as the replacement character. */
  function DecodeFirst(b: Bytes): (r: (char, nat))
    requires b != ""
    ensures 1 <= r.1 <= |b|
  {
    var x := b[0] as int;
    var bad := ('\U{FFFD}', 1);
    if x < 0x80 then (b[0], 1)
    else if 0xC2 <= x < 0xE0 && |b| >= 2 && Continuation(b[1]) then
      (((x - 0xC0) * 64 + (b[1] as int - 0x80)) as char, 2)
    else if 0xE0 <= x < 0xF0 && |b| >= 3 && Continuation(b[1]) && Continuation(b[2]) then
      var n := (x - 0xE0) * 4096 + (b[1] as int - 0x80) * 64 + (b[2] as int - 0x80);
      if 0x800 <= n < 0xD800 || 0xE000 <= n then (n as char, 3) else bad
    else if 0xF0 <= x < 0xF5 && |b| >= 4 && Continuation(b[1]) && Continuation(b[2]) && Continuation(b[3]) then
      var n := (x - 0xF0) * 262144 + (b[1] as int - 0x80) * 4096 + (b[2] as int - 0x80) * 64 + (b[3] as int - 0x80);
      if 0x10000 <= n < 0x110000 then (n as char, 4) else bad
    else bad
  }

  function Decode(b: Bytes): string {
    if b == "" then ""
    else
      var (c, n) := DecodeFirst(b);
      [c] + Decode(b[n..])
  }

  lemma DecodeFirstOfEncoded(c: char, rest: Bytes)
    ensures DecodeFirst(EncodeChar(c) + rest) == (c, Width(c))
  {
    var b := EncodeChar(c) + rest;
    assert forall i :: 0 <= i < Width(c) ==> b[i] == EncodeChar(c)[i];
    DivDiv(c as int);
  }

  /** Decoding undoes encoding. */
  lemma {:induction false} DecodeEncode(s: string)
    ensures Decode(Encode(s)) == s
  {
    if s != "" {
      hide EncodeChar, DecodeFirst;
      DecodeFirstOfEncoded(s[0], Encode(s[1..]));
      DecodeEncode(s[1..]);
      assert Encode(s)[Width(s[0])..] == Encode(s[1..]);
    }
  }

  /** An ASCII byte of the encoding is a character of the text, and its offset
      is the length of what precedes it. */
  lemma {:induction false} EncodedAscii(s: string, p: nat) returns (i: nat)
    requires p < ByteLen(s) && IsAsciiChar(Encode(s)[p])
    ensures i < |s| && s[i] == Encode(s)[p] && ByteLen(s[..i]) == p
  {
    var w := Width(s[0]);
    if p < w {
      i := 0;
    } else {
      var i' := EncodedAscii(s[1..], p - w);
      i := i' + 1;
      assert s[..i][0] == s[0] && s[..i][1..] == s[1..][..i'];
    }
  }

  function Spaces(n: nat): (s: string)
    ensures |s| == n && IsAscii(s)
    ensures forall i :: 0 <= i < n ==> s[i] == ' '
  {
    seq(n, _ => ' ')
  }

  /** The white space of every routine modelled here, restricted to ASCII. */
  predicate IsSpace(c: char) { c == ' ' || '\t' <= c <= '\r' }

  predicate AllSpace(s: string) { forall i :: 0 <= i < |s| ==> IsSpace(s[i]) }

  predicate IsAsciiLetter(c: char) { 'a' <= c <= 'z' || 'A' <= c <= 'Z' }

  predicate IsAsciiDigit(c: char) { '0' <= c <= '9' }

  /** Upper case to lower case, ASCII only. */
  function FoldAscii(c: char): char {
    if 'A' <= c <= 'Z' then (c as int + 32) as char else c
  }

  function FoldText(s: string): (t: string)
    ensures |t| == |s|
  {
    seq(|s|, i requires 0 <= i < |s| => FoldAscii(s[i]))
  }

}
