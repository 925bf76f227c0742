/** Managed files, whose stamp shows hand edits: RenderManaged and ParseManaged
    in internal/ai/setup.go. The digest is a parameter. */
module Managed {
  import opened Trimming
  import opened Sequences

  const MARKER := "<!-- pgmi:managed"
  const KEY := "checksum: "

  datatype Stamp = Stamp(version: string, source: string)
  datatype File = File(body: string, stamp: Stamp, hasStamp: bool, valid: bool)

  predicate Edited(m: File) { !m.valid }

  // ---- the library functions ----

  predicate Occurs(s: string, sub: string, k: int) {
    0 <= k <= |s| - |sub| && s[k..k + |sub|] == sub
  }

  /** `k` is the first place at which `sub` occurs. */
  predicate First(s: string, sub: string, k: int) {
    Occurs(s, sub, k) && forall j :: 0 <= j < k ==> !Occurs(s, sub, j)
  }

  predicate Contains(s: string, sub: string) {
    exists k :: 0 <= k <= |s| && Occurs(s, sub, k)
  }

  function IndexFrom(s: string, sub: string, k: nat): (i: int)
    requires k <= |s|
    ensures i == -1 || (k <= i && Occurs(s, sub, i))
    decreases |s| - k
  {
    if Occurs(s, sub, k) then k else if k == |s| then -1 else IndexFrom(s, sub, k + 1)
  }

  function Index(s: string, sub: string): int { IndexFrom(s, sub, 0) }

  lemma {:induction false} IndexFromIsFirst(s: string, sub: string, k: nat)
    requires k <= |s|
    ensures var i := IndexFrom(s, sub, k);
            && (i >= 0 ==> forall j :: k <= j < i ==> !Occurs(s, sub, j))
            && (i < 0 ==> forall j :: k <= j <= |s| ==> !Occurs(s, sub, j))
    decreases |s| - k
  {
    if !Occurs(s, sub, k) && k < |s| { IndexFromIsFirst(s, sub, k + 1); }
  }

  /** The index is the first place, and -1 exactly when there is none. */
  lemma IndexIsFirst(s: string, sub: string)
    ensures Index(s, sub) == -1 <==> !Contains(s, sub)
    ensures Contains(s, sub) ==> First(s, sub, Index(s, sub))
    ensures forall k :: First(s, sub, k) ==> Index(s, sub) == k
  {
    IndexFromIsFirst(s, sub, 0);
  }

  function ReplaceFirst(s: string, old_: string, new_: string): string {
    var i := Index(s, old_);
    if i < 0 then s else s[..i] + new_ + s[i + |old_|..]
  }

  /** Every carriage return with line feed becomes a line feed. */
  function Unix(s: string): string {
    if s == "" then ""
    else if |s| > 1 && s[0] == '\r' && s[1] == '\n' then "\n" + Unix(s[2..])
    else [s[0]] + Unix(s[1..])
  }

  /** Every line feed becomes a carriage return with line feed. */
  function Dos(s: string): string {
    if s == "" then "" else (if s[0] == '\n' then "\r\n" else [s[0]]) + Dos(s[1..])
  }

  predicate NoCrLf(s: string) {
    forall k :: 0 <= k < |s| - 1 && s[k] == '\r' ==> s[k + 1] != '\n'
  }

  function TrimNewlines(s: string): (t: string)
    ensures |t| <= |s| && t <= s && (t == "" || t[|t| - 1] != '\n')
  {
    if s != "" && s[|s| - 1] == '\n' then TrimNewlines(s[..|s| - 1]) else s
  }

  function NormalizeBody(s: string): string { TrimNewlines(Unix(s)) + "\n" }

  // ---- rendering and parsing ----

  /** The value of the first line with the key, from line `i` on; "" without one. */
  function FieldFrom(lines: seq<string>, key: string, i: nat): string
    requires i <= |lines|
    decreases |lines| - i
  {
    if i == |lines| then ""
    else
      var line := Trim(lines[i]);
      if key <= line then Trim(line[|key|..]) else FieldFrom(lines, key, i + 1)
  }

  method StampField(block: string, key: string) returns (value: string)
    ensures value == FieldFrom(Lines(block), key, 0)
  {
    var lines := Lines(block);
    for i := 0 to |lines|
      invariant FieldFrom(lines, key, 0) == FieldFrom(lines, key, i)
    {
      var line := Trim(lines[i]);
      if key <= line {
        return Trim(line[|key|..]);
      }
    }
    return "";
  }

  function Field(block: string, key: string): string { FieldFrom(Lines(block), key, 0) }

  function StampedForm(normalizedBody: string, stamp: Stamp): string {
    normalizedBody + "\n" + MARKER + "\n" + "version: " + stamp.version + "\n" + "source: " + stamp.source + "\n" + KEY + "\n-->\n"
  }

  function RenderManaged(digest: string -> string, body: string, stamp: Stamp): string {
    var bare := StampedForm(NormalizeBody(body), stamp);
    ReplaceFirst(bare, KEY + "\n", KEY + digest(bare) + "\n")
  }

  /** Where the stamp starts in a file with Unix line ends; -1 without a stamp. */
  function StampAt(unix: string): (i: int)
    ensures i == -1 || (0 <= i < |unix| && Occurs(unix, MARKER, i))
  {
    Index(unix, MARKER)
  }

  /** The digest on record. */
  function Recorded(unix: string): string {
    var i := StampAt(unix);
    if i < 0 then "" else Field(unix[i..], KEY)
  }

  /** What the digest covers: the file with the recorded digest blanked. */
  function Bare(unix: string): string {
    var i := StampAt(unix);
    if i < 0 then unix else unix[..i] + ReplaceFirst(unix[i..], KEY + Recorded(unix), KEY)
  }

  function Parsed(digest: string -> string, content: string): File {
    var unix := Unix(content);
    var i := StampAt(unix);
    if i < 0 then File(NormalizeBody(unix), Stamp("", ""), false, false)
    else
      File(NormalizeBody(unix[..i]), Stamp(Field(unix[i..], "version:"), Field(unix[i..], "source:")), true,
           Recorded(unix) != "" && digest(Bare(unix)) == Recorded(unix))
  }

  method ParseManaged(digest: string -> string, content: string) returns (m: File)
    ensures m == Parsed(digest, content)
    ensures m.hasStamp <==> Contains(Unix(content), MARKER)
    ensures !m.hasStamp ==> Edited(m) && m.stamp == Stamp("", "") && IsNormalized(Unix(Unix(content)), m.body)
  {
    hide Field, Unix, NormalizeBody, ReplaceFirst, Contains;
    WithoutStamp(digest, content);
    var unix := Unix(content);
    var i := Index(unix, MARKER);
    if i < 0 {
      return File(NormalizeBody(unix), Stamp("", ""), false, false);
    }
    var head, block := unix[..i], unix[i..];
    FieldIsFieldFrom(block);
    var recorded := StampField(block, KEY);
    var version := StampField(block, "version:");
    var source := StampField(block, "source:");
    m := File(NormalizeBody(head), Stamp(version, source), true, false);
    var bare := head + ReplaceFirst(block, KEY + recorded, KEY);
    m := m.(valid := recorded != "" && digest(bare) == recorded);
  }

  lemma FieldIsFieldFrom(block: string)
    ensures forall key :: Field(block, key) == FieldFrom(Lines(block), key, 0)
  {}

  /** A body as it is compared: the text up to its trailing newlines, and one newline. */
  predicate IsNormalized(text: string, body: string) {
    && body != "" && body[|body| - 1] == '\n' && |body| - 1 <= |text| && body[..|body| - 1] == text[..|body| - 1]
    && (|body| > 1 ==> body[|body| - 2] != '\n') && forall k :: |body| - 1 <= k < |text| ==> text[k] == '\n'
  }

  lemma {:induction false} TrimmedNewlines(s: string)
    ensures var t := TrimNewlines(s); t <= s && forall k :: |t| <= k < |s| ==> s[k] == '\n'
    decreases |s|
  {
    if s != "" && s[|s| - 1] == '\n' { TrimmedNewlines(s[..|s| - 1]); }
  }

  lemma BodyIsNormalized(text: string)
    ensures IsNormalized(Unix(text), NormalizeBody(text))
  {
    hide Unix;
    TrimmedNewlines(Unix(text));
  }

  /** A file without the marker reads as edited, with no stamp and all of its text as the
      body; with the marker it has a stamp, and the text before the first marker as the body.
      The line ends are changed for the file and once more for the body. */
  lemma WithoutStamp(digest: string -> string, content: string)
    ensures var m, unix := Parsed(digest, content), Unix(content);
            && (m.hasStamp <==> Contains(unix, MARKER))
            && (!m.hasStamp ==> Edited(m) && m.stamp == Stamp("", "") && IsNormalized(Unix(unix), m.body))
            && forall i :: First(unix, MARKER, i) ==> IsNormalized(Unix(unix[..i]), m.body)
  {
    hide Field, Unix, Contains, NormalizeBody, IsNormalized, Index, Recorded, Bare;
    var unix := Unix(content);
    IndexIsFirst(unix, MARKER);
    BodyIsNormalized(unix);
    forall i | First(unix, MARKER, i) ensures IsNormalized(Unix(unix[..i]), Parsed(digest, content).body) {
      assert i == StampAt(unix);
      BodyIsNormalized(unix[..i]);
    }
  }

  /** The field is the trimmed rest of the first line that starts with the key, and
      empty when no line does. */
  lemma {:induction false} FieldIsOfFirstLine(lines: seq<string>, key: string, i: nat, j: nat)
    requires i <= j <= |lines| && forall k :: i <= k < j ==> !(key <= Trim(lines[k]))
    ensures j == |lines| ==> FieldFrom(lines, key, i) == ""
    ensures j < |lines| && key <= Trim(lines[j]) ==> FieldFrom(lines, key, i) == Trim(Trim(lines[j])[|key|..])
    decreases j - i
  {
    hide Trim;
    if i < j { FieldIsOfFirstLine(lines, key, i + 1, j); }
  }

  // ---- line ends ----

  /** A carriage return goes exactly where a line feed follows it. */
  lemma {:induction false} UnixDropsOne(a: string, b: string)
    requires NoCrLf(a)
    ensures Unix(a + "\r\n" + b) == a + "\n" + Unix(b)
  {
    var s := a + "\r\n" + b;
    if a == "" {
      assert s[2..] == b;
    } else {
      assert s[1..] == a[1..] + "\r\n" + b;
      assert forall k :: 0 <= k < |a| - 1 ==> a[1..][k] == a[k + 1];
      UnixDropsOne(a[1..], b);
      assert a == [a[0]] + a[1..];
    }
  }

  lemma {:induction false} DosStart(s: string)
    ensures s != "" ==> Dos(s) != "" && Dos(s)[0] != '\n'
  {}

  lemma {:induction false} UnixOfDos(s: string)
    ensures Unix(Dos(s)) == s
  {
    if s != "" {
      UnixOfDos(s[1..]);
      DosStart(s[1..]);
      var d := Dos(s);
      if s[0] == '\n' { assert d[2..] == Dos(s[1..]); } else { assert d[1..] == Dos(s[1..]); }
    }
  }

  lemma {:induction false} UnixKeeps(s: string)
    requires NoCrLf(s)
    ensures Unix(s) == s
  {
    if s != "" {
      assert forall k :: 0 <= k < |s| - 1 ==> s[1..][k] == s[k + 1];
      UnixKeeps(s[1..]);
    }
  }

  /** A file that was written with line feeds reads the same after its line ends
      were changed to carriage return and line feed. */
  lemma LineEndsDoNotMatter(digest: string -> string, content: string)
    requires NoCrLf(content)
    ensures Parsed(digest, Dos(content)) == Parsed(digest, content)
  {
    UnixOfDos(content);
    UnixKeeps(content);
  }

  // ---- the block ----

  /** The stamp block with a digest. */
  function Block(stamp: Stamp, d: string): string {
    MARKER + "\n" + (("version: " + stamp.version) + "\n" + (("source: " + stamp.source) + "\n" + ((KEY + d) + "\n" + "-->\n")))
  }

  /** A stamp that fits on its lines. */
  predicate PlainText(v: string) {
    '\n' !in v && '\r' !in v && Trimmed(v)
  }

  predicate Plain(stamp: Stamp) { PlainText(stamp.version) && PlainText(stamp.source) }

  /** The stamp does not quote the key with the digest `d`. */
  predicate FreeOf(stamp: Stamp, d: string) {
    !Contains(stamp.version, KEY + d) && !Contains(stamp.source, KEY + d)
  }

  /** A digest in hexadecimal: not empty, of digits and the letters a to f. */
  predicate Hex(d: string) {
    d != "" && forall i :: 0 <= i < |d| ==> '0' <= d[i] <= '9' || 'a' <= d[i] <= 'f'
  }

  lemma OccursInLines(line: string, rest: string, sub: string, k: int)
    requires '\n' !in sub && sub != "" && Occurs(line + "\n" + rest, sub, k)
    ensures Occurs(line, sub, k) || Occurs(rest, sub, k - |line| - 1)
  {
    var s := line + "\n" + rest;
    if k + |sub| <= |line| {
      assert s[k..k + |sub|] == line[k..k + |sub|];
    } else if k <= |line| {
      OccursAt(s, sub, k, |line|);
    } else {
      assert s[k..k + |sub|] == rest[k - |line| - 1..k - |line| - 1 + |sub|];
    }
  }

  lemma OccursAt(s: string, sub: string, k: int, j: int)
    requires Occurs(s, sub, k) && k <= j < k + |sub|
    ensures s[j] in sub && s[j] == sub[j - k]
  {}

  lemma KeyStarts(s: string, k: int)
    ensures Occurs(s, KEY, k) ==> s[k] == 'c' && s[k + 1] == 'h'
  {
    if Occurs(s, KEY, k) {
      OccursAt(s, KEY, k, k);
      OccursAt(s, KEY, k, k + 1);
    }
  }

  /** The key, and what follows it, starts in a labelled line only in the value. */
  lemma KeyInValue(tag: string, v: string, d: string, k: int)
    requires tag in ["version: ", "source: "] && Occurs(tag + v, KEY + d, k)
    ensures k >= |tag| && Occurs(v, KEY + d, k - |tag|)
  {
    OccursSplits(tag + v, KEY, d, k);
    KeyStarts(tag + v, k);
    assert k >= |tag|;
    OccursInTail(tag, v, KEY + d, k);
  }

  lemma OccursInTail(a: string, b: string, sub: string, k: int)
    ensures k >= |a| ==> (Occurs(a + b, sub, k) <==> Occurs(b, sub, k - |a|))
  {
    if |a| <= k <= |a + b| - |sub| {
      assert (a + b)[k..k + |sub|] == b[k - |a|..k - |a| + |sub|];
    }
  }

  function KeyAt(stamp: Stamp): nat { |MARKER| + |stamp.version| + |stamp.source| + 20 }

  lemma BlockParts(stamp: Stamp, d: string)
    ensures var b := Block(stamp, d);
            && |b| == KeyAt(stamp) + 10 + |d| + 5 && MARKER <= b
            && b[..KeyAt(stamp) + 10] == Block(stamp, "")[..KeyAt(stamp) + 10]
            && b[KeyAt(stamp)..] == KEY + d + "\n-->\n"
            && Block(stamp, d) == Block(stamp, "")[..KeyAt(stamp)] + KEY + d + Block(stamp, "")[KeyAt(stamp) + 10..]
            && Block(stamp, "")[KeyAt(stamp) + 10..] == "\n-->\n"
  {
    var p := MARKER + "\n" + ("version: " + stamp.version) + "\n" + ("source: " + stamp.source) + "\n";
    assert forall x :: Block(stamp, x) == p + (KEY + x + "\n-->\n") by {
      forall x ensures Block(stamp, x) == p + (KEY + x + "\n-->\n") { BlockShape(stamp, x); }
    }
    assert |p| == KeyAt(stamp);
    hide Block;
    Pieces(p, d);
    Pieces(p, "");
    assert MARKER <= p;
  }

  lemma BlockShape(stamp: Stamp, d: string)
    ensures Block(stamp, d) == MARKER + "\n" + ("version: " + stamp.version) + "\n" + ("source: " + stamp.source) + "\n" + (KEY + d + "\n-->\n")
  {
    assert ("\n" + "-->\n") == "\n-->\n";
    var a, b, c, e := MARKER + "\n", "version: " + stamp.version, "source: " + stamp.source, KEY + d;
    assert e + "\n" + "-->\n" == e + "\n-->\n";
    assert Block(stamp, d) == a + (b + "\n" + (c + "\n" + (e + "\n" + "-->\n")));
    assert a + (b + "\n" + (c + "\n" + (e + "\n-->\n"))) == a + b + "\n" + c + "\n" + (e + "\n-->\n");
  }

  lemma Pieces(p: string, d: string)
    ensures var b := p + (KEY + d + "\n-->\n");
            && |b| == |p| + 15 + |d|
            && b[..|p| + 10] == p + KEY
            && b[..|p|] == p
            && b[|p|..] == KEY + d + "\n-->\n"
            && b[|p| + 10..] == d + "\n-->\n"
            && b == p + KEY + d + "\n-->\n"
  {
    var b := p + (KEY + d + "\n-->\n");
    assert |KEY| == 10 && |"\n-->\n"| == 5;
    assert b == p + KEY + (d + "\n-->\n");
    assert b == p + KEY + d + "\n-->\n";
  }

  /** The lines of a block behind its marker. */
  function AfterMarker(stamp: Stamp, d: string): string {
    ("version: " + stamp.version) + "\n" + AfterVersion(stamp, d)
  }

  function AfterVersion(stamp: Stamp, d: string): string {
    ("source: " + stamp.source) + "\n" + ((KEY + d) + "\n" + "-->\n")
  }

  /** Where in a block the key, and `e` behind it, can stand: on its own line, or
      in the value of the version or the source. */
  lemma KeyPlaces(stamp: Stamp, d: string, e: string, k: int)
    requires Plain(stamp) && (d == "" || Hex(d)) && '\n' !in e && Occurs(Block(stamp, d), KEY + e, k)
    ensures || k == KeyAt(stamp)
            || Occurs(stamp.version, KEY + e, k - 27)
            || Occurs(stamp.source, KEY + e, k - 36 - |stamp.version|)
  {
    assert Block(stamp, d) == MARKER + "\n" + AfterMarker(stamp, d) && |MARKER| == 17;
    NoNewline(e);
    hide Occurs, Block, AfterMarker, Trimmed, Hex;
    OccursInLines(MARKER, AfterMarker(stamp, d), KEY + e, k);
    MarkerHidesNoKey(e, k);
    KeyAfterVersion(stamp, d, e, k - 18);
  }

  lemma KeyAfterVersion(stamp: Stamp, d: string, e: string, k: int)
    requires Plain(stamp) && (d == "" || Hex(d)) && '\n' !in e && Occurs(AfterMarker(stamp, d), KEY + e, k)
    ensures || k == |stamp.version| + |stamp.source| + 19
            || Occurs(stamp.version, KEY + e, k - 9)
            || Occurs(stamp.source, KEY + e, k - 18 - |stamp.version|)
  {
    NoNewline(e);
    var v := "version: " + stamp.version;
    assert |"version: "| == 9 && '\n' !in v;
    hide Occurs, AfterVersion, Trimmed, Hex;
    OccursInLines(v, AfterVersion(stamp, d), KEY + e, k);
    if Occurs(v, KEY + e, k) {
      KeyInValue("version: ", stamp.version, e, k);
    } else {
      KeyAfterSource(stamp, d, e, k - |v| - 1);
    }
  }

  lemma KeyAfterSource(stamp: Stamp, d: string, e: string, k: int)
    requires Plain(stamp) && (d == "" || Hex(d)) && '\n' !in e && Occurs(AfterVersion(stamp, d), KEY + e, k)
    ensures k == |stamp.source| + 9 || Occurs(stamp.source, KEY + e, k - 8)
  {
    NoNewline(e);
    HexIsTrimmed(d);
    NoNewline(d);
    var w := "source: " + stamp.source;
    assert |"source: "| == 8 && '\n' !in w;
    hide Occurs, Trimmed, Hex;
    OccursInLines(w, (KEY + d) + "\n" + "-->\n", KEY + e, k);
    if Occurs(w, KEY + e, k) {
      KeyInValue("source: ", stamp.source, e, k);
    } else {
      var k3 := k - |w| - 1;
      OccursInLines(KEY + d, "-->\n", KEY + e, k3);
      ShortLine(e, k3 - |KEY + d| - 1);
      KeyLine(d, e, k3);
    }
  }

  lemma NoNewline(e: string)
    requires '\n' !in e
    ensures '\n' !in KEY + e && KEY + e != ""
  {}

  lemma MarkerHidesNoKey(e: string, k: int)
    ensures !Occurs(MARKER, KEY + e, k)
  {
    OccursSplits(MARKER, KEY, e, k);
    KeyStarts(MARKER, k);
  }

  lemma ShortLine(e: string, k: int)
    ensures !Occurs("-->\n", KEY + e, k)
  {}

  /** On its own line the key stands at the start; a digest in hexadecimal holds no key. */
  lemma KeyLine(d: string, e: string, k: int)
    requires Occurs(KEY + d, KEY + e, k) && (d == "" || Hex(d))
    ensures k == 0
  {
    OccursSplits(KEY + d, KEY, e, k);
    assert forall j :: 10 <= j < |KEY + d| ==> (KEY + d)[j] == d[j - 10];
    if k > 0 { OccursAt(KEY + d, KEY, k, k + 9); }
  }

  // ---- the fields of a block ----

  lemma {:induction false} LinesCons(line: string, rest: string)
    requires '\n' !in line
    ensures Lines(line + "\n" + rest) == [line] + Lines(rest)
  {
    var s := line + "\n" + rest;
    if line == "" {
      assert s == "\n" + rest && s[1..] == rest;
    } else {
      assert s[1..] == line[1..] + "\n" + rest;
      LinesCons(line[1..], rest);
      assert line == [line[0]] + line[1..];
    }
  }

  lemma LinesOfBlock(stamp: Stamp, d: string, tail: string)
    requires Plain(stamp) && '\n' !in d
    ensures Lines(Block(stamp, d) + tail) ==
            [MARKER, "version: " + stamp.version, "source: " + stamp.source, KEY + d] + Lines("-->\n" + tail)
  {
    hide Lines, Trimmed;
    var r4 := "-->\n" + tail;
    var r3 := (KEY + d) + "\n" + r4;
    var r2 := ("source: " + stamp.source) + "\n" + r3;
    var r1 := ("version: " + stamp.version) + "\n" + r2;
    LinesCons(KEY + d, r4);
    LinesCons("source: " + stamp.source, r3);
    LinesCons("version: " + stamp.version, r2);
    LinesCons(MARKER, r1);
    TailMovesIn(stamp, d, tail);
  }

  lemma TailMovesIn(stamp: Stamp, d: string, tail: string)
    ensures Block(stamp, d) + tail ==
            MARKER + "\n" + (("version: " + stamp.version) + "\n" + (("source: " + stamp.source) + "\n" + ((KEY + d) + "\n" + ("-->\n" + tail))))
  {
    var c := (KEY + d) + "\n";
    var b := ("source: " + stamp.source) + "\n";
    var a := ("version: " + stamp.version) + "\n";
    assert (c + "-->\n") + tail == c + ("-->\n" + tail);
    assert (b + (c + "-->\n")) + tail == b + ((c + "-->\n") + tail);
    assert (a + (b + (c + "-->\n"))) + tail == a + ((b + (c + "-->\n")) + tail);
  }

  lemma LinesNothing()
    ensures Lines("") == [""]
  {}

  lemma TrimLabelled(tag: string, v: string)
    requires tag != "" && Trimmed(tag) && Trimmed(v)
    ensures Trim(tag + " " + v) == if v == "" then tag else tag + " " + v
  {
    if v == "" {
      var s := tag + " " + v;
      assert s == tag + " " && s[..|s| - 1] == tag;
      TrimKeeps(tag);
      assert TrimStart(s) == s && TrimEnd(s) == TrimEnd(tag);
    } else {
      TrimKeeps(tag + " " + v);
    }
  }

  lemma TrimSpaced(v: string)
    requires Trimmed(v)
    ensures Trim(" " + v) == v
  {
    assert (" " + v)[1..] == v;
    assert IsUnicodeSpace(' ');
    TrimKeeps(v);
  }

  /** A line with a tag gives its value under the tag, with or without the
      final space as part of the key. */
  lemma ReadsLabelled(lines: seq<string>, i: nat, tag: string, v: string)
    requires i < |lines| && lines[i] == tag + " " + v && tag != "" && Trimmed(tag) && Trimmed(v)
    ensures FieldFrom(lines, tag, i) == v
    ensures v != "" ==> FieldFrom(lines, tag + " ", i) == v
    ensures v == "" ==> FieldFrom(lines, tag + " ", i) == FieldFrom(lines, tag + " ", i + 1)
  {
    hide Trim, Trimmed;
    TrimLabelled(tag, v);
    var line := Trim(lines[i]);
    if v == "" {
      assert line[|tag|..] == "";
      TrimNothing();
    } else {
      assert tag <= line && line[|tag|..] == " " + v;
      assert tag + " " <= line && line[|tag + " "|..] == v;
      TrimSpaced(v);
      TrimKeeps(v);
    }
  }

  lemma TrimNothing()
    ensures Trim("") == ""
  {}

  lemma SkipsLine(lines: seq<string>, i: nat, key: string)
    requires i < |lines| && key != "" && Trim(lines[i]) != "" && Trim(lines[i])[0] != key[0]
    ensures FieldFrom(lines, key, i) == FieldFrom(lines, key, i + 1)
  {}

  lemma SkipsEmptyLine(lines: seq<string>, i: nat, key: string)
    requires i < |lines| && key != "" && Trim(lines[i]) == ""
    ensures FieldFrom(lines, key, i) == FieldFrom(lines, key, i + 1)
  {}

  lemma LabelsTrimmed()
    ensures Trimmed(MARKER) && Trimmed("-->") && Trimmed("version:") && Trimmed("source:") && Trimmed("checksum:") && Trimmed("")
    ensures Trim(MARKER) == MARKER && Trim("-->") == "-->" && Trim("") == ""
    ensures "checksum:" + " " == KEY
  {
    TrimKeeps(MARKER);
    TrimKeeps("-->");
  }

  lemma HexIsTrimmed(d: string)
    requires d == "" || Hex(d)
    ensures Trimmed(d) && '\n' !in d && '\r' !in d
  {}

  /** The fields of a block, and of a block with more text behind it. */
  lemma FieldsOfBlock(stamp: Stamp, d: string, tail: string)
    requires Plain(stamp) && (d == "" || Hex(d))
    ensures Field(Block(stamp, d) + tail, "version:") == stamp.version
    ensures Field(Block(stamp, d) + tail, "source:") == stamp.source
    ensures d != "" || tail == "" ==> Field(Block(stamp, d) + tail, KEY) == d
  {
    hide Lines, Block, FieldFrom, Trim, Trimmed, Hex;
    HexIsTrimmed(d);
    LinesOfBlock(stamp, d, tail);
    LabelsTrimmed();
    var lines := Lines(Block(stamp, d) + tail);
    FieldsOfLines(lines, stamp, d);
    if tail == "" {
      LinesCons("-->", "");
      assert "-->" + "\n" + "" == "-->\n" == "-->\n" + tail;
      LinesNothing();
      assert lines[4] == "-->" && lines[5] == "" && |lines| == 6;
      SkipsLine(lines, 4, KEY);
      SkipsEmptyLine(lines, 5, KEY);
      NoFieldLeft(lines, KEY);
    }
  }

  lemma FieldsOfLines(lines: seq<string>, stamp: Stamp, d: string)
    requires Plain(stamp) && Trimmed(d)
    requires [MARKER, "version: " + stamp.version, "source: " + stamp.source, KEY + d] <= lines
    ensures FieldFrom(lines, "version:", 0) == stamp.version
    ensures FieldFrom(lines, "source:", 0) == stamp.source
    ensures FieldFrom(lines, KEY, 0) == if d != "" then d else FieldFrom(lines, KEY, 4)
  {
    hide Lines, FieldFrom, Trim, Trimmed;
    LabelsTrimmed();
    var version, source := "version: " + stamp.version, "source: " + stamp.source;
    assert lines[0] == MARKER && lines[1] == version && lines[2] == source && lines[3] == KEY + d;
    assert version == "version:" + " " + stamp.version && source == "source:" + " " + stamp.source;
    assert KEY + d == "checksum:" + " " + d;
    TrimLabelled("version:", stamp.version);
    TrimLabelled("source:", stamp.source);
    SkipsLine(lines, 0, "version:");
    ReadsLabelled(lines, 1, "version:", stamp.version);
    SkipsLine(lines, 0, "source:");
    SkipsLine(lines, 1, "source:");
    ReadsLabelled(lines, 2, "source:", stamp.source);
    SkipsLine(lines, 0, KEY);
    SkipsLine(lines, 1, KEY);
    SkipsLine(lines, 2, KEY);
    ReadsLabelled(lines, 3, "checksum:", d);
  }

  lemma NoFieldLeft(lines: seq<string>, key: string)
    ensures FieldFrom(lines, key, |lines|) == ""
  {}

  // ---- a file with a stamp ----

  /** A file with a body and a stamp block. */
  function Stamped(nb: string, stamp: Stamp, d: string): string { nb + "\n" + Block(stamp, d) }

  /** A body as the renderer writes it. */
  predicate NormalBody(nb: string) {
    NoCrLf(nb) && nb != "" && nb[|nb| - 1] == '\n' && TrimNewlines(nb) + "\n" == nb
  }

  lemma StampedIsStampedForm(nb: string, stamp: Stamp)
    ensures StampedForm(nb, stamp) == Stamped(nb, stamp, "")
  {
    BlockShape(stamp, "");
    var a, b, c, e := MARKER + "\n", "version: " + stamp.version, "source: " + stamp.source, "\n-->\n";
    assert KEY + "" + e == KEY + e;
    assert StampedForm(nb, stamp) == nb + "\n" + (a + b + "\n" + c + "\n" + (KEY + e));
  }

  lemma MarkerInBlock(stamp: Stamp, d: string, tail: string)
    ensures Occurs(Block(stamp, d) + tail, MARKER, 0)
  {
    BlockParts(stamp, d);
    assert (Block(stamp, d) + tail)[..17] == Block(stamp, d)[..17];
  }

  /** The first marker of the file is that of its block, exactly when the body has none. */
  lemma StampOfStamped(nb: string, stamp: Stamp, d: string, tail: string)
    ensures var s := Stamped(nb, stamp, d) + tail;
            && (Contains(nb, MARKER) ==> 0 <= StampAt(s) <= |nb| - |MARKER|)
            && (!Contains(nb, MARKER) ==> First(s, MARKER, |nb| + 1) && StampAt(s) == |nb| + 1)
  {
    hide Block, Contains, Index, Occurs;
    var b := Block(stamp, d) + tail;
    var s := Stamped(nb, stamp, d) + tail;
    assert s == nb + "\n" + b;
    IndexIsFirst(s, MARKER);
    MarkerInBlock(stamp, d, tail);
    forall k ensures k > |nb| ==> (Occurs(s, MARKER, k) <==> Occurs(b, MARKER, k - |nb| - 1)) {
      OccursInTail(nb + "\n", b, MARKER, k);
    }
    ContainsBy(s, MARKER, |nb| + 1);
    if Contains(nb, MARKER) {
      var k := ContainsAt(nb, MARKER);
      OccursInFront(nb, "\n" + b, MARKER, k);
      assert s == nb + ("\n" + b);
    } else {
      forall k | 0 <= k <= |nb| ensures !Occurs(s, MARKER, k) {
        if Occurs(s, MARKER, k) {
          OccursInLines(nb, b, MARKER, k);
          OccursIsContained(nb, MARKER, k);
          BeforeStart(b, MARKER, k - |nb| - 1);
        }
      }
    }
  }

  lemma BeforeStart(s: string, sub: string, k: int)
    ensures k < 0 ==> !Occurs(s, sub, k)
  {}

  lemma OccursIsContained(s: string, sub: string, k: int)
    ensures Occurs(s, sub, k) ==> Contains(s, sub) && k <= |s| - |sub|
  {}

  lemma ContainsBy(s: string, sub: string, k: int)
    requires Occurs(s, sub, k)
    ensures Contains(s, sub)
  {}

  lemma ContainsAt(s: string, sub: string) returns (k: int)
    requires Contains(s, sub)
    ensures Occurs(s, sub, k) && 0 <= k <= |s| - |sub|
  {
    k :| 0 <= k <= |s| && Occurs(s, sub, k);
  }

  lemma OccursInFront(a: string, b: string, sub: string, k: int)
    requires Occurs(a, sub, k)
    ensures Occurs(a + b, sub, k)
  {
    assert (a + b)[k..k + |sub|] == a[k..k + |sub|];
  }

  lemma OccursSplits(s: string, a: string, b: string, k: int)
    ensures Occurs(s, a + b, k) <==> Occurs(s, a, k) && Occurs(s, b, k + |a|)
  {
    if 0 <= k <= |s| - |a + b| {
      assert s[k..k + |a + b|] == s[k..k + |a|] + s[k + |a|..k + |a| + |b|];
      if Occurs(s, a + b, k) {
        assert s[k..k + |a|] == (a + b)[..|a|] && s[k + |a|..k + |a| + |b|] == (a + b)[|a|..];
      }
    }
  }

  /** In a block, the key with its digest is first at the place of the key. */
  lemma KeyWithDigest(stamp: Stamp, d: string, tail: string)
    requires Plain(stamp) && Hex(d) && FreeOf(stamp, d)
    ensures First(Block(stamp, d) + tail, KEY + d, KeyAt(stamp))
  {
    hide Block, Plain, Occurs, Contains, Hex;
    BlockParts(stamp, d);
    HexIsTrimmed(d);
    var b := Block(stamp, d);
    OccursByPieces(b, KeyAt(stamp), KEY + d, "\n-->\n");
    OccursInFront(b, tail, KEY + d, KeyAt(stamp));
    forall k | 0 <= k < KeyAt(stamp) ensures !Occurs(b + tail, KEY + d, k) {
      assert (b + tail)[..|b|] == b[..|b|];
      SamePrefix(b + tail, b, KEY + d, k, |b|);
      if Occurs(b, KEY + d, k) {
        KeyPlaces(stamp, d, d, k);
        OccursIsContained(stamp.version, KEY + d, k - 27);
        OccursIsContained(stamp.source, KEY + d, k - 36 - |stamp.version|);
      }
    }
  }

  lemma OccursByPieces(s: string, k: nat, sub: string, rest: string)
    requires k <= |s| && s[k..] == sub + rest
    ensures Occurs(s, sub, k)
  {
    assert s[k..k + |sub|] == s[k..][..|sub|] == sub;
  }

  lemma SamePrefix(a: string, b: string, sub: string, k: int, n: nat)
    requires n <= |a| && n <= |b| && a[..n] == b[..n] && k + |sub| <= n
    ensures Occurs(a, sub, k) <==> Occurs(b, sub, k)
  {
    if 0 <= k { assert a[k..k + |sub|] == a[..n][k..k + |sub|] == b[k..k + |sub|]; }
  }

  /** The block before its key. */
  function Lead(stamp: Stamp): (p: string)
    ensures |p| == KeyAt(stamp)
  {
    MARKER + "\n" + ("version: " + stamp.version) + "\n" + ("source: " + stamp.source) + "\n"
  }

  lemma BlockLead(stamp: Stamp, d: string)
    ensures Block(stamp, d) == Lead(stamp) + (KEY + d + "\n-->\n")
  {
    BlockShape(stamp, d);
  }

  lemma Fill(p: string, q: string, rest: string, x: string)
    ensures var s := p + (q + rest);
            |p| + |q| <= |s| && s[..|p|] + x + s[|p| + |q|..] == p + (x + rest)
  {}

  lemma BlankDigest(stamp: Stamp, d: string, tail: string)
    requires Plain(stamp) && (d == "" || (Hex(d) && FreeOf(stamp, d)))
    ensures ReplaceFirst(Block(stamp, d) + tail, KEY + d, KEY) == Block(stamp, "") + tail
  {
    hide Block, Plain, Occurs, Index, Lead, First, Hex, FreeOf;
    assert KEY + "" == KEY;
    if d == "" {
      ReplaceSame(Block(stamp, d) + tail, KEY);
    } else {
      KeyWithDigest(stamp, d, tail);
      IndexIsFirst(Block(stamp, d) + tail, KEY + d);
      FirstOccurs(Block(stamp, d) + tail, KEY + d, KeyAt(stamp));
      LeadWithTail(stamp, d, tail);
      LeadWithTail(stamp, "", tail);
      Fill(Lead(stamp), KEY + d, "\n-->\n" + tail, KEY);
    }
  }

  lemma LeadWithTail(stamp: Stamp, d: string, tail: string)
    ensures Block(stamp, d) + tail == Lead(stamp) + ((KEY + d) + ("\n-->\n" + tail))
  {
    hide Block, Lead;
    BlockLead(stamp, d);
    assert (KEY + d + "\n-->\n") + tail == (KEY + d) + ("\n-->\n" + tail);
    assert (Lead(stamp) + (KEY + d + "\n-->\n")) + tail == Lead(stamp) + ((KEY + d + "\n-->\n") + tail);
  }

  lemma ReplaceSame(s: string, x: string)
    ensures ReplaceFirst(s, x, x) == s
  {
    hide Index, Occurs;
    var i := Index(s, x);
    if i >= 0 {
      IndexIsFirst(s, x);
      ThreeWay(s, x, i);
    }
  }

  lemma ThreeWay(s: string, x: string, i: nat)
    requires Occurs(s, x, i)
    ensures i + |x| <= |s| && s == s[..i] + x + s[i + |x|..]
  {}

  lemma FirstOccurs(s: string, sub: string, k: int)
    requires First(s, sub, k)
    ensures Occurs(s, sub, k) && Contains(s, sub)
  {}

  lemma CutStamped(nb: string, stamp: Stamp, d: string, tail: string)
    ensures var s := Stamped(nb, stamp, d) + tail;
            |nb| + 1 <= |s| && s[..|nb| + 1] == nb + "\n" && s[|nb| + 1..] == Block(stamp, d) + tail
  {
    hide Block;
    assert Stamped(nb, stamp, d) + tail == (nb + "\n") + (Block(stamp, d) + tail);
  }

  /** What is on record, and what the digest covers. */
  lemma RecordOfStamped(nb: string, stamp: Stamp, d: string, tail: string)
    requires Plain(stamp) && !Contains(nb, MARKER)
    requires (d == "" && tail == "") || (Hex(d) && FreeOf(stamp, d))
    ensures Recorded(Stamped(nb, stamp, d) + tail) == d
    ensures Bare(Stamped(nb, stamp, d) + tail) == Stamped(nb, stamp, "") + tail
  {
    hide Block, Plain, Contains, StampAt, Field, ReplaceFirst, Stamped, Hex, FreeOf;
    StampOfStamped(nb, stamp, d, tail);
    FieldsOfBlock(stamp, d, tail);
    if Hex(d) { HexIsNotEmpty(d); }
    CutStamped(nb, stamp, d, tail);
    CutStamped(nb, stamp, "", tail);
    BlankDigest(stamp, d, tail);
    var s, s0 := Stamped(nb, stamp, d) + tail, Stamped(nb, stamp, "") + tail;
    assert Recorded(s) == d;
    assert Bare(s) == s[..|nb| + 1] + ReplaceFirst(s[|nb| + 1..], KEY + d, KEY);
    assert s0 == s0[..|nb| + 1] + s0[|nb| + 1..];
  }

  // ---- carriage returns ----

  lemma NoReturnInBlock(stamp: Stamp, d: string)
    requires Plain(stamp) && '\r' !in d
    ensures '\r' !in Block(stamp, d)
  {
    hide Trimmed;
  }

  lemma NoCrLfConcat(a: string, b: string)
    requires NoCrLf(a) && '\r' !in b && (a == "" || a[|a| - 1] != '\r')
    ensures NoCrLf(a + b)
  {
    assert forall k :: |a| <= k < |a + b| ==> (a + b)[k] in b;
  }

  lemma StampedHasNoCrLf(nb: string, stamp: Stamp, d: string)
    requires NormalBody(nb) && Plain(stamp) && '\r' !in d
    ensures NoCrLf(Stamped(nb, stamp, d))
  {
    hide Block, Plain, TrimNewlines;
    NoReturnInBlock(stamp, d);
    NoCrLfConcat(nb, "\n" + Block(stamp, d));
    assert Stamped(nb, stamp, d) == nb + ("\n" + Block(stamp, d));
  }

  /** Replacing the empty digest makes no pair of carriage return and line feed. */
  lemma ReplaceMakesNoCrLf(s: string, d: string)
    requires NoCrLf(s) && '\r' !in d
    ensures NoCrLf(ReplaceFirst(s, KEY + "\n", KEY + d + "\n"))
  {
    var i := Index(s, KEY + "\n");
    if i >= 0 {
      var mid := KEY + d + "\n";
      NoCrLfPart(s, 0, i);
      NoCrLfPart(s, i + 11, |s|);
      JoinNoCrLf(s[..i], mid, s[i + 11..]);
    }
  }

  lemma NoCrLfPart(s: string, i: nat, j: nat)
    requires NoCrLf(s) && i <= j <= |s|
    ensures NoCrLf(s[i..j]) && s[0..j] == s[..j] && s[i..|s|] == s[i..]
  {}

  lemma JoinNoCrLf(a: string, mid: string, c: string)
    requires NoCrLf(a) && NoCrLf(c) && '\r' !in mid && mid != "" && mid[0] != '\n'
    ensures NoCrLf(a + mid + c)
  {
    var s := a + mid + c;
    assert forall k :: |a| <= k < |a| + |mid| ==> s[k] in mid;
    assert forall k :: 0 <= k < |a| ==> s[k] == a[k];
    assert s[|a|] == mid[0];
    assert forall k :: 0 <= k < |c| ==> s[|a| + |mid| + k] == c[k];
    forall k | |a| + |mid| <= k < |s| - 1 && s[k] == '\r' ensures s[k + 1] != '\n' {
      assert s[k] == c[k - |a| - |mid|] && s[k + 1] == c[k - |a| - |mid| + 1];
    }
  }

  // ---- the round trip ----

  lemma {:induction false} TrimNewlinesDrops(s: string)
    ensures forall j :: |TrimNewlines(s)| <= j < |s| ==> s[j] == '\n'
  {
    if s != "" && s[|s| - 1] == '\n' { TrimNewlinesDrops(s[..|s| - 1]); }
  }

  lemma {:induction false} TrimNewlinesOf(t: string, n: nat)
    requires t == "" || t[|t| - 1] != '\n'
    ensures TrimNewlines(t + seq(n, _ => '\n')) == t
  {
    var s := t + seq(n, _ => '\n');
    if n > 0 {
      assert s[..|s| - 1] == t + seq(n - 1, _ => '\n');
      TrimNewlinesOf(t, n - 1);
    } else {
      assert s == t;
    }
  }

  lemma NormalizedIsNormal(body: string)
    requires NoCrLf(NormalizeBody(body))
    ensures NormalBody(NormalizeBody(body))
  {
    var t := TrimNewlines(Unix(body));
    TrimNewlinesOf(t, 1);
    assert t + seq(1, _ => '\n') == t + "\n";
  }

  lemma BodyAgain(nb: string)
    requires NormalBody(nb)
    ensures NormalizeBody(nb + "\n") == nb
  {
    NoCrLfConcat(nb, "\n");
    UnixKeeps(nb + "\n");
    var t := TrimNewlines(nb);
    TrimNewlinesOf(t, 2);
    assert nb + "\n" == t + seq(2, _ => '\n');
  }

  /** Without an empty digest in the body, rendering writes the digest into the block. */
  lemma RenderedForm(digest: string -> string, body: string, stamp: Stamp)
    requires Plain(stamp) && NormalBody(NormalizeBody(body)) && !Contains(NormalizeBody(body), KEY + "\n")
    ensures var nb := NormalizeBody(body);
            RenderManaged(digest, body, stamp) == Stamped(nb, stamp, digest(Stamped(nb, stamp, "")))
  {
    hide Block, Plain, Occurs, Contains, Index, Stamped, NormalizeBody, NormalBody, StampedForm;
    var nb := NormalizeBody(body);
    var bare := Stamped(nb, stamp, "");
    var d := digest(bare);
    StampedIsStampedForm(nb, stamp);
    EmptyKeyIsFirst(nb, stamp);
    IndexIsFirst(bare, KEY + "\n");
    FillDigest(nb, stamp, d);
  }

  lemma StampedLead(nb: string, stamp: Stamp, d: string)
    ensures Stamped(nb, stamp, d) == (nb + "\n" + Lead(stamp)) + ((KEY + d + "\n") + "-->\n")
  {
    hide Block, Lead;
    BlockLead(stamp, d);
    var p := nb + "\n";
    assert "\n" + "-->\n" == "\n-->\n";
    Assoc(KEY + d, "\n", "-->\n");
    Assoc(p, Lead(stamp), (KEY + d + "\n") + "-->\n");
  }

  lemma FillDigest(nb: string, stamp: Stamp, d: string)
    ensures var bare, k := Stamped(nb, stamp, ""), |nb| + 1 + KeyAt(stamp);
            && k + |KEY + "\n"| <= |bare|
            && bare[..k] + (KEY + d + "\n") + bare[k + |KEY + "\n"|..] == Stamped(nb, stamp, d)
  {
    hide Stamped, Lead;
    StampedLead(nb, stamp, d);
    StampedLead(nb, stamp, "");
    assert KEY + "" == KEY;
    Fill(nb + "\n" + Lead(stamp), KEY + "\n", "-->\n", KEY + d + "\n");
  }

  lemma EmptyKeyIsFirst(nb: string, stamp: Stamp)
    requires Plain(stamp) && NormalBody(nb) && !Contains(nb, KEY + "\n")
    ensures First(Stamped(nb, stamp, ""), KEY + "\n", |nb| + 1 + KeyAt(stamp))
  {
    hide Block, Plain, Occurs, Contains, TrimNewlines, NoCrLf;
    var s, b0 := Stamped(nb, stamp, ""), Block(stamp, "");
    var k0 := |nb| + 1 + KeyAt(stamp);
    BlockParts(stamp, "");
    assert b0[KeyAt(stamp)..] == KEY + "\n" + "-->\n";
    OccursByPieces(b0, KeyAt(stamp), KEY + "\n", "-->\n");
    OccursInTail(nb + "\n", b0, KEY + "\n", k0);
    forall k | 0 <= k < k0 ensures !Occurs(s, KEY + "\n", k) { NoEmptyKeyBefore(nb, stamp, k); }
  }

  lemma NoEmptyKeyBefore(nb: string, stamp: Stamp, k: int)
    requires Plain(stamp) && !Contains(nb, KEY + "\n") && 0 <= k < |nb| + 1 + KeyAt(stamp)
    requires nb != "" && nb[|nb| - 1] == '\n'
    ensures !Occurs(Stamped(nb, stamp, ""), KEY + "\n", k)
  {
    hide Block, Occurs, Contains, KeyAt, Plain;
    var s, b0 := Stamped(nb, stamp, ""), Block(stamp, "");
    OccursSplits(s, KEY, "\n", k);
    if Occurs(s, KEY + "\n", k) {
      OccursInLines(nb, b0, KEY, k);
      if Occurs(nb, KEY, k) {
        EmptyKeyInBody(nb, b0, k);
      } else {
        BeforeStart(b0, KEY, k - |nb| - 1);
        OccursInTail(nb + "\n", b0, "\n", k + 10);
        EmptyKeyInBlock(stamp, k - |nb| - 1);
      }
    }
  }

  /** In the block only the key's own line can end in the key, for values that do
      not end in a space. */
  lemma EmptyKeyInBlock(stamp: Stamp, k: int)
    requires Plain(stamp) && Occurs(Block(stamp, ""), KEY, k) && Occurs(Block(stamp, ""), "\n", k + 10)
    ensures k == KeyAt(stamp)
  {
    hide Block, Occurs, Contains, Trimmed;
    assert KEY + "" == KEY;
    KeyPlaces(stamp, "", "", k);
    BlockValues(stamp);
    if Occurs(stamp.version, KEY, k - 27) {
      ValueGoesOn(Block(stamp, ""), 27, stamp.version, k - 27);
    } else if Occurs(stamp.source, KEY, k - 36 - |stamp.version|) {
      ValueGoesOn(Block(stamp, ""), 36 + |stamp.version|, stamp.source, k - 36 - |stamp.version|);
    }
  }

  lemma BlockValues(stamp: Stamp)
    ensures var b, i, j := Block(stamp, ""), 27, 36 + |stamp.version|;
            && i + |stamp.version| <= j + |stamp.source| <= |b|
            && b[i..i + |stamp.version|] == stamp.version && b[j..j + |stamp.source|] == stamp.source
  {
    VersionAlone(stamp);
    SourceAlone(stamp);
    hide Block, AfterVersion;
    Middle(MARKER + "\n" + "version: ", stamp.version, "\n" + AfterVersion(stamp, ""));
    Middle(MARKER + "\n" + "version: " + stamp.version + "\n" + "source: ", stamp.source, "\n" + (KEY + "\n" + "-->\n"));
  }

  lemma Middle(p: string, v: string, q: string)
    ensures |p| + |v| <= |p + v + q| && (p + v + q)[|p|..|p| + |v|] == v
  {}

  /** A key in a value is followed by a character of the value. */
  lemma ValueGoesOn(b: string, i: nat, v: string, x: int)
    requires i + |v| <= |b| && b[i..i + |v|] == v && PlainText(v) && Occurs(v, KEY, x)
    ensures !Occurs(b, "\n", i + x + 10)
  {
    OccursAt(v, KEY, x, x + 9);
    assert v[x + 9] == ' ' && x + 10 < |v|;
    assert b[i + x + 10] == b[i..i + |v|][x + 10] == v[x + 10];
    if Occurs(b, "\n", i + x + 10) { OccursAt(b, "\n", i + x + 10, i + x + 10); }
  }

  lemma EmptyKeyInBody(nb: string, rest: string, k: int)
    requires nb != "" && nb[|nb| - 1] == '\n' && Occurs(nb, KEY, k) && Occurs(nb + "\n" + rest, "\n", k + |KEY|)
    ensures Contains(nb, KEY + "\n")
  {
    var s := nb + "\n" + rest;
    assert s[k + 10..k + 11] == "\n" && s[k + 10] == "\n"[0];
    OccursAt(nb, KEY, k, k + 9);
    assert nb[k + 9] == ' ';
    assert nb[k + 10..k + 11] == "\n";
    OccursSplits(nb, KEY, "\n", k);
  }

  /** A file with a fitting digest reads as unedited, with its body and stamp,
      also with more text behind the stamp that the digest covers. */
  lemma ParsedStamped(digest: string -> string, nb: string, stamp: Stamp, d: string, tail: string)
    requires Plain(stamp) && NormalBody(nb) && !Contains(nb, MARKER) && Hex(d) && FreeOf(stamp, d) && '\r' !in tail
    ensures var s := Stamped(nb, stamp, d) + tail;
            && Unix(s) == s
            && Parsed(digest, s) == File(nb, stamp, true, digest(Stamped(nb, stamp, "") + tail) == d)
  {
    hide Block, Plain, Contains, Stamped, Recorded, Bare, Field, StampAt, NormalizeBody, NormalBody, Unix, NoCrLf, Hex, FreeOf;
    var s := Stamped(nb, stamp, d) + tail;
    HexIsTrimmed(d);
    HexIsNotEmpty(d);
    StampedHasNoCrLf(nb, stamp, d);
    StampedEnds(nb, stamp, d);
    NoCrLfConcat(Stamped(nb, stamp, d), tail);
    UnixKeeps(s);
    StampOfStamped(nb, stamp, d, tail);
    CutStamped(nb, stamp, d, tail);
    RecordOfStamped(nb, stamp, d, tail);
    FieldsOfBlock(stamp, d, tail);
    BodyAgain(nb);
  }

  lemma StampedEnds(nb: string, stamp: Stamp, d: string)
    ensures var s := Stamped(nb, stamp, d); s != "" && s[|s| - 1] == '\n'
  {
    hide Block;
    BlockLead(stamp, d);
  }

  /** With a marker in the body, the body is cut there. */
  lemma MarkerBreaks(digest: string -> string, nb: string, stamp: Stamp, d: string)
    requires Plain(stamp) && NormalBody(nb) && Contains(nb, MARKER) && Hex(d)
    ensures Parsed(digest, Stamped(nb, stamp, d)).body != nb
  {
    hide Block, Plain, Contains, Stamped, Recorded, Bare, Field, StampAt, NormalBody, Unix, TrimNewlines, Hex, NoCrLf;
    HexIsTrimmed(d);
    StampedHasNoCrLf(nb, stamp, d);
    var s := Stamped(nb, stamp, d);
    UnixKeeps(s);
    StampOfStamped(nb, stamp, d, "");
    assert s + "" == s;
    UnixShrinks(s[..StampAt(s)]);
  }

  lemma {:induction false} UnixShrinks(s: string)
    ensures |Unix(s)| <= |s|
  {
    if s != "" {
      UnixShrinks(s[1..]);
      if |s| > 1 { UnixShrinks(s[2..]); }
    }
  }

  /** With an empty digest in the body, the digest is written into the body. */
  lemma EmptyKeyBreaks(digest: string -> string, body: string, stamp: Stamp)
    requires Plain(stamp) && NormalBody(NormalizeBody(body)) && Contains(NormalizeBody(body), KEY + "\n")
    requires Hex(digest(Stamped(NormalizeBody(body), stamp, "")))
    ensures var m := Parsed(digest, RenderManaged(digest, body, stamp));
            m.hasStamp ==> m.body != NormalizeBody(body)
  {
    hide Block, Plain, Occurs, Contains, Index, Stamped, NormalBody, StampedForm, Recorded, Bare, Field, TrimNewlines, Unix, NoCrLf;
    var nb := NormalizeBody(body);
    var bare := Stamped(nb, stamp, "");
    var d := digest(bare);
    StampedIsStampedForm(nb, stamp);
    var r := RenderManaged(digest, body, stamp);
    var k := EmptyKeyInFront(nb, stamp);
    HexIsTrimmed(d);
    StampedHasNoCrLf(nb, stamp, "");
    ReplaceMakesNoCrLf(bare, d);
    UnixKeeps(r);
    var i := StampAt(r);
    if i >= 0 {
      NoCrLfPart(r, 0, i);
      UnixKeeps(r[..i]);
      DigestInBody(nb, bare, r, d, k, i);
    }
  }

  lemma EmptyKeyInFront(nb: string, stamp: Stamp) returns (k: int)
    requires Contains(nb, KEY + "\n")
    ensures k == Index(Stamped(nb, stamp, ""), KEY + "\n") && 0 <= k <= |nb| - 11
    ensures nb[k + 10] == '\n' && nb <= Stamped(nb, stamp, "")
    ensures Stamped(nb, stamp, "")[k..k + 11] == KEY + "\n"
  {
    hide Block, Contains, Index;
    var s := Stamped(nb, stamp, "");
    k := Index(s, KEY + "\n");
    IndexIsFirst(s, KEY + "\n");
    var j := ContainsAt(nb, KEY + "\n");
    assert s == nb + ("\n" + Block(stamp, ""));
    OccursInFront(nb, "\n" + Block(stamp, ""), KEY + "\n", j);
    OccursIsContained(s, KEY + "\n", j);
    OccursAt(s, KEY + "\n", k, k + 10);
    OccursPart(s, KEY + "\n", k);
  }

  lemma OccursPart(s: string, sub: string, k: int)
    requires Occurs(s, sub, k)
    ensures 0 <= k <= |s| - |sub| && s[k..k + |sub|] == sub && s[k..][..|sub|] == sub && sub <= s[k..]
  {}

  lemma DigestInBody(nb: string, bare: string, r: string, d: string, k: nat, i: nat)
    requires nb <= bare && k + 11 <= |nb| && nb[k + 10] == '\n' && Hex(d)
    requires bare[k..k + 11] == KEY + "\n" && r == bare[..k] + (KEY + d + "\n") + bare[k + 11..]
    requires i <= |r| && Occurs(r, MARKER, i)
    ensures TrimNewlines(r[..i]) + "\n" != nb
  {
    var t := TrimNewlines(r[..i]);
    assert r[k + 10] == d[0];
    assert t <= r[..i] <= r;
    TrimNewlinesDrops(r[..i]);
    OccursAt(r, MARKER, i, i);
    SameChars(t, nb);
  }

  lemma SameChars(t: string, nb: string)
    ensures t + "\n" == nb ==> t <= nb
  {}

  // ---- a body with an empty digest ----

  /** The body with the digest written into its first empty one. */
  function Filled(nb: string, k: nat, d: string): string
    requires k + 10 <= |nb|
  {
    nb[..k + 10] + d + nb[k + 10..]
  }

  /** A digest in hexadecimal, behind a key, makes no marker. */
  lemma FilledHasNoMarker(nb: string, k: nat, d: string)
    requires k + 11 <= |nb| && Occurs(nb, KEY + "\n", k) && Hex(d) && !Contains(nb, MARKER)
    ensures !Contains(Filled(nb, k, d), MARKER)
  {
    var f := Filled(nb, k, d);
    Rejoin(nb, k + 10);
    if Contains(f, MARKER) {
      var i := ContainsAt(f, MARKER);
      OccursAt(nb, KEY + "\n", k, k + 9);
      assert f[..k + 10] == nb[..k + 10];
      hide Contains, Hex, Occurs;
      MarkerMissesDigest(nb, k, d, i);
      if i + 17 <= k + 10 {
        SamePrefix(f, nb, MARKER, i, k + 10);
        OccursIsContained(nb, MARKER, i);
      } else {
        OccursInTail(nb[..k + 10] + d, nb[k + 10..], MARKER, i);
        OccursInTail(nb[..k + 10], nb[k + 10..], MARKER, i - |d|);
        OccursIsContained(nb, MARKER, i - |d|);
      }
    }
  }

  /** The space before the digest is where the marker goes on with a `p`. */
  lemma MarkerMissesDigest(nb: string, k: nat, d: string, i: nat)
    requires k + 11 <= |nb| && nb[k + 9] == ' ' && Hex(d) && Occurs(Filled(nb, k, d), MARKER, i)
    ensures i + 17 <= k + 10 || i >= k + 10 + |d|
  {
    var f := Filled(nb, k, d);
    FilledChars(nb, k, d);
    hide Filled, Hex, Occurs;
    OccursAt(f, MARKER, i, i);
    MarkerChar(0);
    if i < k + 10 < i + 17 {
      OccursAt(f, MARKER, i, k + 10);
      OccursAt(f, MARKER, i, k + 9);
      MarkerChar(k + 9 - i);
    }
  }

  lemma FilledChars(nb: string, k: nat, d: string)
    requires k + 11 <= |nb| && Hex(d)
    ensures var f := Filled(nb, k, d);
            && |f| == |nb| + |d| && f[k + 9] == nb[k + 9] && f[k + 10] != 'p'
            && forall j :: k + 10 <= j < k + 10 + |d| ==> f[j] != '<'
  {
    var f := Filled(nb, k, d);
    assert f[k + 9] == nb[..k + 10][k + 9];
    assert forall j :: k + 10 <= j < k + 10 + |d| ==> f[j] == d[j - k - 10];
  }

  /** The marker has one space, and a `p` behind it. */
  lemma MarkerChar(j: nat)
    requires j < 17
    ensures |MARKER| == 17 && MARKER[0] == '<' && (MARKER[j] == ' ' ==> j == 4 && MARKER[j + 1] == 'p')
  {}

  lemma FillFront(nb: string, rest: string, k: nat, d: string)
    requires k + 11 <= |nb| && nb[k + 10] == '\n' && nb[k..k + 10] == KEY
    ensures var bare := nb + rest;
            bare[..k] + (KEY + d + "\n") + bare[k + 11..] == Filled(nb, k, d) + rest
  {
    var bare := nb + rest;
    assert bare[..k] == nb[..k] && bare[k + 11..] == nb[k + 11..] + rest;
    assert nb[..k + 10] == nb[..k] + KEY && nb[k + 10..] == "\n" + nb[k + 11..];
  }

  /** Without a marker in it, a body that holds an empty digest is rendered to a
      file that reads as edited. */
  lemma EmptyKeyReadsEdited(digest: string -> string, body: string, stamp: Stamp)
    requires Plain(stamp) && Hex(digest(StampedForm(NormalizeBody(body), stamp))) && NoCrLf(NormalizeBody(body))
    requires Contains(NormalizeBody(body), KEY + "\n") && !Contains(NormalizeBody(body), MARKER)
    ensures Edited(Parsed(digest, RenderManaged(digest, body, stamp)))
  {
    hide Block, Plain, Contains, Index, StampedForm, Recorded, NormalizeBody, Field, Unix, NoCrLf, Bare, Hex, Occurs, TrimNewlines;
    var nb := NormalizeBody(body);
    var bare := Stamped(nb, stamp, "");
    NormalizedIsNormal(body);
    StampedIsStampedForm(nb, stamp);
    var d := digest(bare);
    var k := EmptyKeyInFront(nb, stamp);
    EmptyKeyInside(nb, stamp, k);
    var f := Filled(nb, k, d);
    var r := RenderManaged(digest, body, stamp);
    FillFront(nb, "\n" + Block(stamp, ""), k, d);
    assert bare == nb + ("\n" + Block(stamp, "")) && r == f + ("\n" + Block(stamp, "")) == Stamped(f, stamp, "");
    FilledHasNoMarker(nb, k, d);
    HexIsTrimmed(d);
    StampedHasNoCrLf(nb, stamp, "");
    ReplaceMakesNoCrLf(bare, d);
    UnixKeeps(r);
    NothingBehind(r);
    RecordOfStamped(f, stamp, "", "");
  }

  lemma EmptyKeyInside(nb: string, stamp: Stamp, k: nat)
    requires k + 11 <= |nb| && nb <= Stamped(nb, stamp, "") && Stamped(nb, stamp, "")[k..k + 11] == KEY + "\n"
    ensures Occurs(nb, KEY + "\n", k) && nb[k..k + 10] == KEY
  {
    hide Block;
    assert nb[k..k + 11] == Stamped(nb, stamp, "")[k..k + 11];
    assert nb[k..k + 10] == nb[k..k + 11][..10];
  }

  /** So does the shortest such body. */
  lemma EmptyKeyExample(digest: string -> string, stamp: Stamp)
    requires Plain(stamp) && Hex(digest(StampedForm(KEY + "\n", stamp)))
    ensures NormalizeBody(KEY) == KEY + "\n" && Edited(Parsed(digest, RenderManaged(digest, KEY, stamp)))
  {
    ShortBody();
    hide Parsed, RenderManaged, StampedForm, Hex, Plain, NormalizeBody, Contains;
    OccursByPieces(KEY + "\n", 0, KEY + "\n", "");
    OccursIsContained(KEY + "\n", KEY + "\n", 0);
    NoMarkerInKey();
    EmptyKeyReadsEdited(digest, KEY, stamp);
  }

  lemma ShortBody()
    ensures NormalizeBody(KEY) == KEY + "\n" && NoCrLf(KEY + "\n")
  {
    hide Unix;
    assert '\r' !in KEY + "\n" && '\r' !in KEY;
    assert NoCrLf(KEY);
    UnixKeeps(KEY);
    assert KEY[9] == ' ' && |KEY| == 10;
  }

  lemma NoMarkerInKey()
    ensures !Contains(KEY + "\n", MARKER)
  {}

  /** A body that is itself a file with an empty digest: the digest is written
      into the stamp in the body, and the result reads as that file, unedited. */
  lemma StampInBodyReadsUnedited(digest: string -> string, nb: string, inner: Stamp, stamp: Stamp)
    requires Plain(inner) && Plain(stamp) && NormalBody(nb) && !Contains(nb, MARKER) && !Contains(nb, KEY + "\n")
    requires Hex(digest(StampedForm(Stamped(nb, inner, ""), stamp)))
    requires FreeOf(inner, digest(StampedForm(Stamped(nb, inner, ""), stamp)))
    ensures var body := Stamped(nb, inner, "");
            && NormalizeBody(body) == body
            && Parsed(digest, RenderManaged(digest, body, stamp)) == File(nb, inner, true, true)
  {
    hide Block, Plain, Contains, Index, StampedForm, Recorded, NormalizeBody, Field, Unix, NoCrLf, Bare, Hex, Occurs, TrimNewlines, Stamped, First, FreeOf, NormalBody;
    var body, tail := Stamped(nb, inner, ""), "\n" + Block(stamp, "");
    StampedIsNormal(nb, inner);
    var bare := StampedForm(body, stamp);
    StampedIsStampedForm(body, stamp);
    StampedWithTail(body, stamp);
    var d := digest(bare);
    EmptyKeyIsFirst(nb, inner);
    FirstOccurs(body, KEY + "\n", |nb| + 1 + KeyAt(inner));
    FirstWithTail(body, tail, KEY + "\n", |nb| + 1 + KeyAt(inner));
    IndexIsFirst(bare, KEY + "\n");
    FirstOccurs(bare, KEY + "\n", |nb| + 1 + KeyAt(inner));
    FillDigest(nb, inner, d);
    FillWithTail(body, tail, |nb| + 1 + KeyAt(inner), KEY + d + "\n", Stamped(nb, inner, d));
    NoReturnInTail(stamp);
    ParsedStamped(digest, nb, inner, d, tail);
  }

  lemma NoReturnInTail(stamp: Stamp)
    requires Plain(stamp)
    ensures '\r' !in "\n" + Block(stamp, "")
  {
    hide Block, Plain;
    NoReturnInBlock(stamp, "");
  }

  lemma StampedWithTail(body: string, stamp: Stamp)
    ensures Stamped(body, stamp, "") == body + ("\n" + Block(stamp, ""))
  {
    hide Block;
  }

  lemma FillWithTail(s: string, tail: string, k: nat, x: string, filled: string)
    requires k + 11 <= |s| && s[..k] + x + s[k + 11..] == filled
    ensures (s + tail)[..k] + x + (s + tail)[k + 11..] == filled + tail
  {
    assert (s + tail)[..k] == s[..k] && (s + tail)[k + 11..] == s[k + 11..] + tail;
  }

  lemma FirstWithTail(s: string, tail: string, sub: string, k: nat)
    requires First(s, sub, k)
    ensures First(s + tail, sub, k)
  {
    hide Occurs;
    OccursIsContained(s, sub, k);
    OccursInFront(s, tail, sub, k);
    forall j | 0 <= j < k ensures !Occurs(s + tail, sub, j) {
      assert (s + tail)[..|s|] == s[..|s|];
      SamePrefix(s + tail, s, sub, j, |s|);
    }
  }

  /** A file with an empty digest is a normal body. */
  lemma StampedIsNormal(nb: string, stamp: Stamp)
    requires Plain(stamp) && NormalBody(nb)
    ensures NormalizeBody(Stamped(nb, stamp, "")) == Stamped(nb, stamp, "") && NoCrLf(Stamped(nb, stamp, ""))
  {
    hide Block, Plain, NoCrLf, Unix, NormalBody;
    var s := Stamped(nb, stamp, "");
    StampedHasNoCrLf(nb, stamp, "");
    UnixKeeps(s);
    BlockLead(stamp, "");
    var t := s[..|s| - 1];
    assert s[|s| - 1] == '\n' && t[|t| - 1] == '>' && s == t + "\n";
    TrimNewlinesOf(t, 1);
    assert t + seq(1, _ => '\n') == t + "\n";
  }

  // ---- a body with carriage returns ----

  function Returns(s: string): nat {
    if s == "" then 0 else (if s[0] == '\r' then 1 else 0) + Returns(s[1..])
  }

  lemma {:induction false} ReturnsConcat(a: string, b: string)
    ensures Returns(a + b) == Returns(a) + Returns(b)
  {
    if a == "" {
      assert a + b == b;
    } else {
      assert (a + b)[1..] == a[1..] + b;
      ReturnsConcat(a[1..], b);
    }
  }

  lemma {:induction false} NoReturns(s: string)
    requires '\r' !in s
    ensures Returns(s) == 0
  {
    if s != "" { NoReturns(s[1..]); }
  }

  /** Changing line ends loses carriage returns where there is a pair. */
  lemma {:induction false} UnixLosesReturns(s: string)
    ensures Returns(Unix(s)) <= Returns(s)
    ensures !NoCrLf(s) ==> Returns(Unix(s)) < Returns(s)
  {
    if |s| > 1 && s[0] == '\r' && s[1] == '\n' {
      UnixLosesReturns(s[2..]);
      assert s[1..][1..] == s[2..];
      ReturnsConcat("\n", Unix(s[2..]));
      NoReturns("\n");
    } else if s != "" {
      UnixLosesReturns(s[1..]);
      ReturnsConcat([s[0]], Unix(s[1..]));
      assert s == [s[0]] + s[1..];
      ReturnsConcat([s[0]], s[1..]);
      if NoCrLf(s[1..]) { NoCrLfCons(s); }
    }
  }

  lemma NoCrLfCons(s: string)
    requires s != "" && NoCrLf(s[1..]) && !(|s| > 1 && s[0] == '\r' && s[1] == '\n')
    ensures NoCrLf(s)
  {
    forall k | 0 <= k < |s| - 1 && s[k] == '\r' ensures s[k + 1] != '\n' {
      if k > 0 { assert s[1..][k - 1] == s[k] && s[1..][k] == s[k + 1]; }
    }
  }

  lemma PrefixReturns(s: string, k: nat)
    requires k <= |s|
    ensures Returns(s[..k]) <= Returns(s)
  {
    ReturnsConcat(s[..k], s[k..]);
    Rejoin(s, k);
  }

  lemma CutOut(s: string, i: nat, x: string)
    requires i + |x| <= |s| && s[i..i + |x|] == x
    ensures s == s[..i] + x + s[i + |x|..]
  {}

  lemma ReplaceKeepsReturns(s: string, d: string)
    requires '\r' !in d
    ensures Returns(ReplaceFirst(s, KEY + "\n", KEY + d + "\n")) == Returns(s)
  {
    hide IndexFrom, Returns, Occurs;
    var i := Index(s, KEY + "\n");
    if i >= 0 {
      OccursPart(s, KEY + "\n", i);
      var mid := KEY + d + "\n";
      NoReturns(mid);
      NoReturns(KEY + "\n");
      ReturnsConcat(s[..i] + mid, s[i + 11..]);
      ReturnsConcat(s[..i], mid);
      CutOut(s, i, KEY + "\n");
      ReturnsConcat(s[..i] + (KEY + "\n"), s[i + 11..]);
      ReturnsConcat(s[..i], KEY + "\n");
    }
  }

  lemma {:induction false} NoCrLfOfFront(a: string, b: string)
    requires !NoCrLf(a)
    ensures !NoCrLf(a + b)
  {
    var k :| 0 <= k < |a| - 1 && a[k] == '\r' && a[k + 1] == '\n';
    assert (a + b)[k] == '\r' && (a + b)[k + 1] == '\n';
  }

  lemma ReplaceKeepsCrLf(s: string, d: string)
    requires !NoCrLf(s)
    ensures !NoCrLf(ReplaceFirst(s, KEY + "\n", KEY + d + "\n"))
  {
    var i := Index(s, KEY + "\n");
    if i >= 0 {
      var k :| 0 <= k < |s| - 1 && s[k] == '\r' && s[k + 1] == '\n';
      OccursPart(s, KEY + "\n", i);
      var r := s[..i] + (KEY + d + "\n") + s[i + 11..];
      var k' := if k < i then k else k + |d|;
      assert k < i || k >= i + 11 by {
        assert s[i..][..11] == KEY + "\n";
        assert s[i] == (KEY + "\n")[0];
        assert forall j :: 0 <= j < 11 ==> s[i + j] == (KEY + "\n")[j];
      }
      assert k < i ==> r[k] == '\r' && k + 1 < |r|;
      assert r[k'] == '\r' && r[k' + 1] == '\n';
    }
  }

  /** A pair of carriage return and line feed in the body does not come back. */
  lemma CrLfBreaks(digest: string -> string, body: string, stamp: Stamp)
    requires Plain(stamp) && Hex(digest(StampedForm(NormalizeBody(body), stamp)))
    requires !NoCrLf(NormalizeBody(body))
    ensures var m := Parsed(digest, RenderManaged(digest, body, stamp));
            m.hasStamp ==> m.body != NormalizeBody(body)
  {
    hide Block, Plain, Contains, StampedForm, Recorded, Bare, Field, TrimNewlines, Unix, NoCrLf, ReplaceFirst, Returns, Hex;
    var nb := NormalizeBody(body);
    var bare := Stamped(nb, stamp, "");
    StampedIsStampedForm(nb, stamp);
    var d := digest(bare);
    HexIsTrimmed(d);
    var r := RenderManaged(digest, body, stamp);
    assert bare == nb + ("\n" + Block(stamp, ""));
    NoReturnInBlock(stamp, "");
    NoReturns("\n" + Block(stamp, ""));
    ReturnsConcat(nb, "\n" + Block(stamp, ""));
    NoCrLfOfFront(nb, "\n" + Block(stamp, ""));
    ReplaceKeepsReturns(bare, d);
    ReplaceKeepsCrLf(bare, d);
    UnixLosesReturns(r);
    var i := StampAt(Unix(r));
    if i >= 0 {
      var head := Unix(r)[..i];
      PrefixReturns(Unix(r), i);
      UnixLosesReturns(head);
      PrefixReturns(Unix(head), |TrimNewlines(Unix(head))|);
      ReturnsConcat(TrimNewlines(Unix(head)), "\n");
      NoReturns("\n");
      TrimmedIsPrefix(Unix(head));
    }
  }

  lemma TrimmedIsPrefix(s: string)
    ensures s[..|TrimNewlines(s)|] == TrimNewlines(s)
  {}

  /** Rendering then parsing gives the body, the stamp and no edit, exactly when
      the normalized body holds no pair of carriage return and line feed, no marker
      and no line that ends in an empty digest. */
  lemma RoundTripExactly(digest: string -> string, body: string, stamp: Stamp)
    requires Plain(stamp) && Hex(digest(StampedForm(NormalizeBody(body), stamp)))
    requires FreeOf(stamp, digest(StampedForm(NormalizeBody(body), stamp)))
    ensures var nb := NormalizeBody(body);
            Parsed(digest, RenderManaged(digest, body, stamp)) == File(nb, stamp, true, true)
            <==> NoCrLf(nb) && !Contains(nb, MARKER) && !Contains(nb, KEY + "\n")
  {
    hide Plain, Contains, Stamped, NormalBody, Parsed, RenderManaged, StampedForm, NormalizeBody, Hex, NoCrLf, FreeOf;
    var nb := NormalizeBody(body);
    StampedIsStampedForm(nb, stamp);
    var d := digest(Stamped(nb, stamp, ""));
    if !NoCrLf(nb) {
      CrLfBreaks(digest, body, stamp);
    } else {
      NormalizedIsNormal(body);
      if Contains(nb, KEY + "\n") {
        EmptyKeyBreaks(digest, body, stamp);
      } else {
        RenderedForm(digest, body, stamp);
        if Contains(nb, MARKER) {
          MarkerBreaks(digest, nb, stamp, d);
        } else {
          ParsedStamped(digest, nb, stamp, d, "");
          NothingBehind(Stamped(nb, stamp, d));
          NothingBehind(Stamped(nb, stamp, ""));
        }
      }
    }
  }

  /** A rendered file reads the same with either line ends. */
  lemma RenderedLineEnds(digest: string -> string, body: string, stamp: Stamp)
    requires Plain(stamp) && Hex(digest(StampedForm(NormalizeBody(body), stamp))) && NoCrLf(NormalizeBody(body))
    ensures var r := RenderManaged(digest, body, stamp);
            Parsed(digest, Dos(r)) == Parsed(digest, r)
  {
    hide Plain, Stamped, NormalBody, Parsed, StampedForm, NormalizeBody, Hex, NoCrLf, ReplaceFirst;
    NormalizedIsNormal(body);
    StampedIsStampedForm(NormalizeBody(body), stamp);
    var bare := StampedForm(NormalizeBody(body), stamp);
    HexIsTrimmed(digest(bare));
    StampedHasNoCrLf(NormalizeBody(body), stamp, "");
    ReplaceMakesNoCrLf(bare, digest(bare));
    LineEndsDoNotMatter(digest, RenderManaged(digest, body, stamp));
  }

  // ---- edits ----

  lemma FirstInPrefix(a: string, b: string, sub: string, i: nat)
    requires First(a, sub, i) && i + |sub| <= |b| && a[..i + |sub|] == b[..i + |sub|]
    ensures First(b, sub, i)
  {
    hide Occurs;
    OccursIsContained(a, sub, i);
    forall k ensures k <= i ==> (Occurs(a, sub, k) <==> Occurs(b, sub, k)) {
      if k <= i { SamePrefix(a, b, sub, k, i + |sub|); }
    }
  }

  /** The key comes after the marker. */
  lemma KeyAfterMarker(block: string, d: string, p: int)
    requires MARKER <= block && Occurs(block, KEY + d, p)
    ensures p >= |MARKER|
  {
    OccursSplits(block, KEY, d, p);
    KeyStarts(block, p);
    assert forall j :: 0 <= j < |MARKER| ==> block[j] == MARKER[j];
  }

  /** The digest is covered with its place: only one file gives a bare form and a digest. */
  lemma BareDetermines(u: string, nb: string, stamp: Stamp, d: string)
    requires Plain(stamp) && Hex(d) && !Contains(nb, MARKER)
    requires Recorded(u) == d && Bare(u) == Stamped(nb, stamp, "")
    ensures u == Stamped(nb, stamp, d)
  {
    hide Block, Plain, Occurs, Contains, Index, Stamped, Field;
    var bare := Stamped(nb, stamp, "");
    NothingBehind(bare);
    RecordOfStamped(nb, stamp, "", "");
    var i := StampAt(u);
    assert i >= 0;
    IndexIsFirst(u, MARKER);
    var block := u[i..];
    var p := Index(block, KEY + d);
    assert u == u[..i] + u[i..];
    assert p >= 0;
    IndexIsFirst(block, KEY + d);
    OccursIsContained(block, KEY + d, p);
    OccursIsContained(u, MARKER, i);
    PlaceOfDigest(u, i, p, nb, stamp, d);
  }

  /** Filling in the digest behind the key moves neither marker nor key. */
  lemma PlaceOfDigest(u: string, i: nat, p: nat, nb: string, stamp: Stamp, d: string)
    requires Plain(stamp) && Hex(d) && !Contains(nb, MARKER)
    requires i <= |u| && First(u, MARKER, i) && Occurs(u[i..], KEY + d, p) && Field(u[i..], KEY) == d
    requires p + 10 + |d| <= |u| - i
    requires u[..i] + (u[i..][..p] + KEY + u[i..][p + 10 + |d|..]) == Stamped(nb, stamp, "")
    ensures u == Stamped(nb, stamp, d)
  {
    hide Block, Plain, Contains, Stamped, Occurs, Field, Hex, First;
    var block := u[i..];
    OccursPart(block, KEY + d, p);
    HalvesOfBare(u, i, p, nb, stamp, d);
    PlaceInBlock(block, p, stamp, d);
    StampedInHalves(nb, stamp, d);
    Rejoin(u, i);
  }

  lemma StampedInHalves(nb: string, stamp: Stamp, d: string)
    ensures Stamped(nb, stamp, d) == (nb + "\n") + Block(stamp, d)
  {
    hide Block;
  }

  /** The bare file is cut at its marker into body and block. */
  lemma HalvesOfBare(u: string, i: nat, p: nat, nb: string, stamp: Stamp, d: string)
    requires Hex(d) && !Contains(nb, MARKER)
    requires i <= |u| && First(u, MARKER, i) && Occurs(u[i..], KEY + d, p)
    requires p + 10 + |d| <= |u| - i
    requires u[..i] + (u[i..][..p] + KEY + u[i..][p + 10 + |d|..]) == Stamped(nb, stamp, "")
    ensures u[..i] == nb + "\n" && u[i..][..p] + KEY + u[i..][p + 10 + |d|..] == Block(stamp, "")
  {
    hide Block, Contains, Stamped, Occurs, Hex;
    var bare, block := Stamped(nb, stamp, ""), u[i..];
    var pre, post := block[..p], block[p + 10 + |d|..];
    NothingBehind(bare);
    OccursPart(u, MARKER, i);
    KeyAfterMarker(block, d, p);
    PrefixThrough(u, i, p, pre + KEY + post, |MARKER|);
    FirstInPrefix(u, bare, MARKER, i);
    StampOfStamped(nb, stamp, "", "");
    FirstIsUnique(bare, MARKER, i, |nb| + 1);
    CutStamped(nb, stamp, "", "");
    NothingBehind(Block(stamp, ""));
    Halves(u[..i], pre + KEY + post);
  }

  lemma PrefixThrough(u: string, i: nat, p: nat, rest: string, m: nat)
    requires m <= p <= |u| - i && p <= |rest| && rest[..p] == u[i..][..p]
    ensures (u[..i] + rest)[..i + m] == u[..i + m]
  {
    assert rest[..m] == rest[..p][..m] == u[i..][..p][..m] == u[i..i + m];
  }

  lemma Halves(a: string, b: string)
    ensures (a + b)[..|a|] == a && (a + b)[|a|..] == b
  {}

  lemma Rejoin(s: string, k: nat)
    requires k <= |s|
    ensures s == s[..k] + s[k..]
  {}

  /** A digest put behind a key in the version or the source is not on record. */
  lemma PlaceInBlock(block: string, p: nat, stamp: Stamp, d: string)
    requires Plain(stamp) && Hex(d) && p + 10 + |d| <= |block| && block[p..p + |KEY + d|] == KEY + d
    requires block[..p] + KEY + block[p + 10 + |d|..] == Block(stamp, "") && Field(block, KEY) == d
    ensures block == Block(stamp, d)
  {
    hide Block, Plain, Occurs, Field, Hex, Contains;
    InsertedAt(block, p, d, Block(stamp, ""));
    NothingBehind(KEY);
    KeyPlaces(stamp, "", "", p);
    HexIsNotEmpty(d);
    HexIsTrimmed(d);
    if p == KeyAt(stamp) {
      BlockParts(stamp, d);
    } else if Occurs(stamp.version, KEY, p - 27) {
      NotInVersion(block, p, stamp, d);
    } else {
      NotInSource(block, p, stamp, d);
    }
  }

  lemma InsertedAt(block: string, p: nat, d: string, b0: string)
    requires p + 10 + |d| <= |block| && block[p..p + |KEY + d|] == KEY + d
    requires block[..p] + KEY + block[p + 10 + |d|..] == b0
    ensures Occurs(b0, KEY, p) && p + 10 <= |b0| && block == b0[..p + 10] + d + b0[p + 10..]
  {
    var pre, post := block[..p], block[p + 10 + |d|..];
    assert b0[p..] == KEY + post;
    OccursByPieces(b0, p, KEY, post);
    assert block == pre + block[p..p + |KEY + d|] + post;
    Assoc(pre, KEY, d);
    assert b0[..p + 10] == pre + KEY && b0[p + 10..] == post;
  }

  lemma NotInVersion(block: string, p: nat, stamp: Stamp, d: string)
    requires Plain(stamp) && d != "" && '\n' !in d && '\r' !in d && p + 10 <= |Block(stamp, "")|
    requires block == Block(stamp, "")[..p + 10] + d + Block(stamp, "")[p + 10..] && Occurs(stamp.version, KEY, p - 27)
    ensures Field(block, KEY) != d
  {
    InValue(stamp.version, p - 27, d);
    VersionGrows(stamp, p - 17, d);
    hide Block, Field;
    NoRecord(stamp.(version := Grown(stamp.version, p - 17, d)));
  }

  lemma NotInSource(block: string, p: nat, stamp: Stamp, d: string)
    requires Plain(stamp) && d != "" && '\n' !in d && '\r' !in d && p + 10 <= |Block(stamp, "")|
    requires block == Block(stamp, "")[..p + 10] + d + Block(stamp, "")[p + 10..]
    requires Occurs(stamp.source, KEY, p - 36 - |stamp.version|)
    ensures Field(block, KEY) != d
  {
    InValue(stamp.source, p - 36 - |stamp.version|, d);
    SourceGrows(stamp, p - 26 - |stamp.version|, d);
    hide Block, Field;
    NoRecord(stamp.(source := Grown(stamp.source, p - 26 - |stamp.version|, d)));
  }

  function Grown(v: string, x: int, d: string): string
    requires 0 <= x <= |v|
  {
    v[..x] + d + v[x..]
  }

  lemma InValue(v: string, x: int, d: string)
    requires PlainText(v) && Occurs(v, KEY, x) && d != "" && '\n' !in d && '\r' !in d
    ensures 0 <= x + 10 <= |v| && PlainText(Grown(v, x + 10, d))
  {
    OccursAt(v, KEY, x, x + 9);
    assert v[x + 9] == ' ' && x + 10 < |v|;
    var t := Grown(v, x + 10, d);
    assert t[0] == v[0] && t[|t| - 1] == v[|v| - 1];
  }

  lemma NoRecord(stamp: Stamp)
    requires Plain(stamp)
    ensures Field(Block(stamp, ""), KEY) == ""
  {
    hide Block, Field, Plain;
    FieldsOfBlock(stamp, "", "");
    NothingBehind(Block(stamp, ""));
  }

  lemma VersionGrows(stamp: Stamp, x: int, d: string)
    requires 0 <= x <= |stamp.version|
    ensures var b0 := Block(stamp, "");
            && 27 + x <= |b0|
            && Block(stamp.(version := Grown(stamp.version, x, d)), "") == b0[..27 + x] + d + b0[27 + x..]
  {
    var v := stamp.version;
    var p, q := MARKER + "\n" + "version: ", "\n" + AfterVersion(stamp, "");
    assert |p| == 27;
    VersionAlone(stamp);
    VersionAlone(stamp.(version := Grown(v, x, d)));
    hide Block, AfterVersion;
    GrowMiddle(p, v, q, x, d);
  }

  lemma GrowMiddle(p: string, v: string, q: string, x: int, d: string)
    requires 0 <= x <= |v|
    ensures var s := p + v + q;
            p + Grown(v, x, d) + q == s[..|p| + x] + d + s[|p| + x..]
  {
    var s := p + v + q;
    assert s[..|p| + x] == p + v[..x] && s[|p| + x..] == v[x..] + q;
  }

  lemma VersionAlone(stamp: Stamp)
    ensures Block(stamp, "") == MARKER + "\n" + "version: " + stamp.version + ("\n" + AfterVersion(stamp, ""))
  {
    assert Block(stamp, "") == MARKER + "\n" + AfterMarker(stamp, "");
  }

  lemma SourceAlone(stamp: Stamp)
    ensures Block(stamp, "") ==
            (MARKER + "\n" + "version: " + stamp.version + "\n" + "source: ") + stamp.source + ("\n" + (KEY + "\n" + "-->\n"))
  {
    VersionAlone(stamp);
    NothingBehind(KEY);
    assert AfterVersion(stamp, "") == "source: " + stamp.source + ("\n" + (KEY + "\n" + "-->\n"));
  }

  lemma SourceGrows(stamp: Stamp, x: int, d: string)
    requires 0 <= x <= |stamp.source|
    ensures var b0, i := Block(stamp, ""), 36 + |stamp.version|;
            && i + x <= |b0|
            && Block(stamp.(source := Grown(stamp.source, x, d)), "") == b0[..i + x] + d + b0[i + x..]
  {
    var p, q := MARKER + "\n" + "version: " + stamp.version + "\n" + "source: ", "\n" + (KEY + "\n" + "-->\n");
    assert |p| == 36 + |stamp.version|;
    SourceAlone(stamp);
    SourceAlone(stamp.(source := Grown(stamp.source, x, d)));
    hide Block;
    GrowMiddle(p, stamp.source, q, x, d);
  }

  lemma FirstIsUnique(s: string, sub: string, i: nat, j: nat)
    requires First(s, sub, i) && First(s, sub, j)
    ensures i == j
  {}

  /** Among the files that carry the digest of a rendered file, only the rendered
      file, with any line ends, reads as unedited; so every other change is seen,
      in body, stamp or after the stamp. */
  lemma EditsAreSeen(digest: string -> string, body: string, stamp: Stamp, content: string)
    requires Plain(stamp) && NoCrLf(NormalizeBody(body))
    requires Hex(digest(StampedForm(NormalizeBody(body), stamp)))
    requires FreeOf(stamp, digest(StampedForm(NormalizeBody(body), stamp)))
    requires !Contains(NormalizeBody(body), MARKER) && !Contains(NormalizeBody(body), KEY + "\n")
    requires Recorded(Unix(content)) == digest(StampedForm(NormalizeBody(body), stamp))
    requires digest(Bare(Unix(content))) == digest(StampedForm(NormalizeBody(body), stamp))
      ==> Bare(Unix(content)) == StampedForm(NormalizeBody(body), stamp)
    ensures !Edited(Parsed(digest, content)) <==> Unix(content) == RenderManaged(digest, body, stamp)
  {
    hide Plain, Contains, Stamped, NormalBody, RenderManaged, StampedForm, NormalizeBody, Hex, Bare, Field, Unix, NoCrLf, FreeOf;
    var nb, u := NormalizeBody(body), Unix(content);
    NormalizedIsNormal(body);
    StampedIsStampedForm(nb, stamp);
    var d := digest(Stamped(nb, stamp, ""));
    RenderedForm(digest, body, stamp);
    NothingBehind(Stamped(nb, stamp, d));
    NothingBehind(Stamped(nb, stamp, ""));
    if !Edited(Parsed(digest, content)) {
      BareDetermines(u, nb, stamp, d);
    } else if u == Stamped(nb, stamp, d) {
      RecordOfStamped(nb, stamp, d, "");
      HexIsNotEmpty(d);
      StampOfStamped(nb, stamp, d, "");
    }
  }

  lemma HexIsNotEmpty(d: string)
    requires Hex(d)
    ensures d != ""
  {}
}
