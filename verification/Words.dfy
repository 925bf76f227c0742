/** Reading keywords out of a masked statement: the word helpers and the
    BEGIN ATOMIC tracker of internal/preprocessor/split.go. */
module Words {
  import opened Text

  predicate IsBlankByte(c: char) { c == ' ' || c == '\t' || c == '\n' || c == '\r' }

  predicate Blank(s: Bytes) { forall i :: 0 <= i < |s| ==> IsBlankByte(s[i]) }

  function UpperAscii(c: char): char {
    if 'a' <= c <= 'z' then (c as int - 32) as char else c
  }

  function Upper(s: Bytes): (t: Bytes)
    ensures |t| == |s|
  {
    seq(|s|, i requires 0 <= i < |s| => UpperAscii(s[i]))
  }

  /** Length of what precedes the first letter. */
  function Gap(s: Bytes): (n: nat)
    ensures n <= |s|
  {
    if s == "" || IsAsciiLetter(s[0]) then 0 else 1 + Gap(s[1..])
  }

  /** Number of letters that `s` starts with. */
  function Letters(s: Bytes): (n: nat)
    ensures n <= |s|
  {
    if s == "" || !IsAsciiLetter(s[0]) then 0 else 1 + Letters(s[1..])
  }

  /** The first word in upper case, and what follows it. */
  function FirstWord(s: Bytes): (r: (Bytes, Bytes))
    ensures |r.0| + |r.1| <= |s|
    ensures r.0 == "" ==> r.1 == ""
  {
    var t := s[Gap(s)..];
    GapEndsAtLetter(s);
    (Upper(t[..Letters(t)]), t[Letters(t)..])
  }

  lemma {:induction false} GapEndsAtLetter(s: Bytes)
    ensures var t := s[Gap(s)..]; t == "" || (IsAsciiLetter(t[0]) && Letters(t) > 0)
  {
    if s != "" && !IsAsciiLetter(s[0]) {
      GapEndsAtLetter(s[1..]);
      assert s[1..][Gap(s[1..])..] == s[Gap(s)..];
    }
  }

  lemma CountAt(s: Bytes, i: nat)
    requires i <= |s|
    ensures i < |s| ==> Gap(s[i..]) == if IsAsciiLetter(s[i]) then 0 else 1 + Gap(s[i + 1..])
    ensures i < |s| ==> Letters(s[i..]) == if !IsAsciiLetter(s[i]) then 0 else 1 + Letters(s[i + 1..])
    ensures i == |s| ==> Gap(s[i..]) == 0 && Letters(s[i..]) == 0
  {
    if i < |s| { assert s[i..][1..] == s[i + 1..]; }
  }

  lemma FirstWordAt(s: Bytes, i: nat, j: nat)
    requires i <= j <= |s| && Gap(s) == i && Letters(s[i..]) == j - i
    ensures FirstWord(s) == (Upper(s[i..j]), s[j..])
  {
    hide Gap, Letters, Upper;
    assert s[i..][..j - i] == s[i..j] && s[i..][j - i..] == s[j..];
  }

  method UpperOf(s: Bytes, i: nat, j: nat) returns (word: Bytes)
    requires i <= j <= |s|
    ensures word == Upper(s[i..j])
  {
    word := "";
    for k := i to j
      invariant word == Upper(s[i..k])
    {
      var c := s[k];
      if 'a' <= c <= 'z' {
        c := (c as int - 32) as char;
      }
      word := word + [c];
      assert s[i..k + 1] == s[i..k] + [s[k]];
    }
  }

  method FirstWordOf(s: Bytes) returns (word: Bytes, rest: Bytes)
    ensures (word, rest) == FirstWord(s)
  {
    hide FirstWord, Gap, Letters, Upper;
    var i := 0;
    assert s[0..] == s;
    while i < |s| && !IsAsciiLetter(s[i])
      invariant i <= |s| && Gap(s) == i + Gap(s[i..])
    {
      CountAt(s, i);
      i := i + 1;
    }
    CountAt(s, i);
    var j := i;
    while j < |s| && IsAsciiLetter(s[j])
      invariant i <= j <= |s| && Letters(s[i..]) == j - i + Letters(s[j..])
    {
      CountAt(s, j);
      j := j + 1;
    }
    CountAt(s, j);
    FirstWordAt(s, i, j);
    word := UpperOf(s, i, j);
    rest := s[j..];
  }

  predicate LeadingSpaceOnly(s: Bytes) {
    s == "" || IsAsciiLetter(s[0]) || (IsBlankByte(s[0]) && LeadingSpaceOnly(s[1..]))
  }

  lemma {:induction false} LeadingSpaceIsBlank(s: Bytes)
    ensures LeadingSpaceOnly(s) <==> forall i :: 0 <= i < Gap(s) ==> s[i] in {' ', '\t', '\n', '\r'}
  {
    if s != "" && !IsAsciiLetter(s[0]) {
      LeadingSpaceIsBlank(s[1..]);
      assert forall i :: 0 < i < Gap(s) ==> s[i] == s[1..][i - 1];
      assert forall i :: 0 <= i < Gap(s[1..]) ==> s[1..][i] == s[i + 1];
    }
  }

  method IsLeadingSpaceOnly(s: Bytes) returns (r: bool)
    ensures r == LeadingSpaceOnly(s) && (r <==> forall i :: 0 <= i < Gap(s) ==> s[i] in {' ', '\t', '\n', '\r'})
  {
    LeadingSpaceIsBlank(s);
    var i := 0;
    while i < |s| && !IsAsciiLetter(s[i])
      invariant i <= |s| && LeadingSpaceOnly(s) == LeadingSpaceOnly(s[i..])
    {
      assert s[i..][1..] == s[i + 1..];
      if !IsBlankByte(s[i]) {
        return false;
      }
      i := i + 1;
    }
    return true;
  }

  datatype Found = Missing | Found(rest: Bytes)

  /** The text after the first BEGIN ATOMIC whose two words are separated by
      white space alone. */
  function AfterBeginAtomic(s: Bytes): (r: Found)
    decreases |s|
  {
    var (word, tail) := FirstWord(s);
    if word == "" then Missing
    else if word == "BEGIN" && LeadingSpaceOnly(tail) && FirstWord(tail).0 == "ATOMIC" then Found(FirstWord(tail).1)
    else AfterBeginAtomic(tail)
  }

  method FindBeginAtomic(s: Bytes) returns (r: Found)
    ensures r == AfterBeginAtomic(s)
  {
    hide FirstWord, LeadingSpaceOnly;
    var rest := s;
    while true
      invariant AfterBeginAtomic(s) == AfterBeginAtomic(rest)
      decreases |rest|
    {
      var word, tail := FirstWordOf(rest);
      if word == "" {
        return Missing;
      }
      var adjacent := IsLeadingSpaceOnly(tail);
      if word == "BEGIN" && adjacent {
        var next, after := FirstWordOf(tail);
        if next == "ATOMIC" {
          return Found(after);
        }
      }
      rest := tail;
    }
  }

  /** An END occurs that no CASE before it accounts for. */
  predicate ClosesBody(s: Bytes, depth: nat)
    decreases |s|
  {
    var (word, tail) := FirstWord(s);
    if word == "" then false
    else if word == "CASE" then ClosesBody(tail, depth + 1)
    else if word == "END" then depth == 0 || ClosesBody(tail, depth - 1)
    else ClosesBody(tail, depth)
  }

  method FindsBodyEnd(s: Bytes) returns (r: bool)
    ensures r == ClosesBody(s, 0)
  {
    hide FirstWord;
    var depth: nat := 0;
    var rest := s;
    while true
      invariant ClosesBody(s, 0) == ClosesBody(rest, depth)
      decreases |rest|
    {
      var word, tail := FirstWordOf(rest);
      if word == "" {
        return false;
      } else if word == "CASE" {
        depth := depth + 1;
      } else if word == "END" {
        if depth == 0 {
          return true;
        }
        depth := depth - 1;
      }
      rest := tail;
    }
  }

  // ---- what an END is paired with ----

  /** All words of a text. */
  function WordList(s: Bytes): seq<Bytes>
    decreases |s|
  {
    var (word, tail) := FirstWord(s);
    if word == "" then [] else [word] + WordList(tail)
  }

  /** Among the first `n` words there are more ENDs than CASEs, by more than `depth`. */
  predicate EndsExceed(ws: seq<Bytes>, n: nat, depth: nat) {
    n <= |ws| && multiset(ws[..n])["END"] > multiset(ws[..n])["CASE"] + depth
  }

  /** Some END has no CASE before it to be paired with. */
  predicate HasUnpairedEnd(ws: seq<Bytes>, depth: nat) {
    exists n: nat :: n <= |ws| && EndsExceed(ws, n, depth)
  }

  lemma CountCons(w: Bytes, ws: seq<Bytes>, n: nat, x: Bytes)
    requires n <= |ws|
    ensures multiset(([w] + ws)[..n + 1])[x] == multiset(ws[..n])[x] + if w == x then 1 else 0
  {
    assert ([w] + ws)[..n + 1] == [w] + ws[..n];
  }

  lemma ExceedCons(w: Bytes, ws: seq<Bytes>, n: nat, depth: nat)
    requires n <= |ws|
    ensures w == "CASE" ==> EndsExceed([w] + ws, n + 1, depth) == EndsExceed(ws, n, depth + 1)
    ensures w == "END" && depth > 0 ==> EndsExceed([w] + ws, n + 1, depth) == EndsExceed(ws, n, depth - 1)
    ensures w != "CASE" && w != "END" ==> EndsExceed([w] + ws, n + 1, depth) == EndsExceed(ws, n, depth)
    ensures w == "END" && depth == 0 ==> EndsExceed([w] + ws, 1, 0)
    ensures !EndsExceed([w] + ws, 0, depth)
  {
    CountCons(w, ws, n, "END");
    CountCons(w, ws, n, "CASE");
    CountCons(w, ws, 0, "END");
    CountCons(w, ws, 0, "CASE");
    assert multiset(ws[..0])["END"] == multiset(ws[..0])["CASE"] == 0;
    assert multiset(([w] + ws)[..0])["END"] == 0;
  }

  lemma NothingExceeds(depth: nat)
    ensures !HasUnpairedEnd([], depth)
  {}

  lemma UnpairedCons(w: Bytes, ws: seq<Bytes>, depth: nat)
    ensures HasUnpairedEnd([w] + ws, depth) <==>
            if w == "CASE" then HasUnpairedEnd(ws, depth + 1)
            else if w == "END" then depth == 0 || HasUnpairedEnd(ws, depth - 1)
            else HasUnpairedEnd(ws, depth)
  {
    hide EndsExceed;
    ExceedCons(w, ws, 0, depth);
    if w == "END" && depth == 0 {
    } else {
      var inner := if w == "CASE" then depth + 1 else if w == "END" then depth - 1 else depth;
      if HasUnpairedEnd([w] + ws, depth) {
        var n: nat :| n <= |[w] + ws| && EndsExceed([w] + ws, n, depth);
        ExceedCons(w, ws, if n > 0 then n - 1 else 0, depth);
        assert EndsExceed(ws, n - 1, inner);
      }
      if HasUnpairedEnd(ws, inner) {
        var n: nat :| n <= |ws| && EndsExceed(ws, n, inner);
        ExceedCons(w, ws, n, depth);
        assert EndsExceed([w] + ws, n + 1, depth);
      }
    }
  }

  /** The search for the END of a body finds one exactly if some beginning of the words
      holds more ENDs than CASEs. */
  lemma {:induction false} ClosesBodyExactly(s: Bytes, depth: nat)
    ensures ClosesBody(s, depth) <==> HasUnpairedEnd(WordList(s), depth)
    decreases |s|
  {
    hide FirstWord, HasUnpairedEnd;
    var (word, tail) := FirstWord(s);
    NothingExceeds(depth);
    if word != "" {
      UnpairedCons(word, WordList(tail), depth);
      ClosesBodyExactly(tail, if word == "CASE" then depth + 1 else if word == "END" && depth > 0 then depth - 1 else depth);
    }
  }

  /** What the search for BEGIN ATOMIC returns is the text behind two such words. */
  lemma {:induction false} FoundIsBehindAtomic(s: Bytes) returns (k: nat)
    requires AfterBeginAtomic(s).Found?
    ensures 0 < k < |WordList(s)| && WordList(s)[k - 1] == "BEGIN" && WordList(s)[k] == "ATOMIC" && WordList(AfterBeginAtomic(s).rest) == WordList(s)[k + 1..]
    decreases |s|
  {
    hide FirstWord, LeadingSpaceOnly;
    var (word, tail) := FirstWord(s);
    if word == "BEGIN" && LeadingSpaceOnly(tail) && FirstWord(tail).0 == "ATOMIC" {
      k := 1;
      var rest := WordList(FirstWord(tail).1);
      assert WordList(s) == [word] + (["ATOMIC"] + rest);
      assert ([word] + (["ATOMIC"] + rest))[2..] == rest;
    } else {
      var k' := FoundIsBehindAtomic(tail);
      k := k' + 1;
      assert ([word] + WordList(tail))[k + 1..] == WordList(tail)[k..];
    }
  }

  /** COMMIT, END, ROLLBACK or ABORT, an optional noise word, and then either
      nothing or AND. */
  predicate IsTransactionTerminator(stmt: Bytes) {
    var (first, rest) := FirstWord(stmt);
    var (second, after) := FirstWord(rest);
    var decisive := if second == "WORK" || second == "TRANSACTION" then FirstWord(after).0 else second;
    (first == "COMMIT" || first == "END" || first == "ROLLBACK" || first == "ABORT")
    && (decisive == "" || decisive == "AND")
  }

  /** What the words of a terminator are. */
  lemma TerminatorWords(stmt: Bytes)
    ensures var ws := WordList(stmt);
            IsTransactionTerminator(stmt) <==>
            && ws != [] && ws[0] in {"COMMIT", "END", "ROLLBACK", "ABORT"}
            && var rest := if |ws| > 1 && ws[1] in {"WORK", "TRANSACTION"} then ws[2..] else ws[1..];
               rest == [] || rest[0] == "AND"
  {
    hide FirstWord;
    var (first, rest) := FirstWord(stmt);
    var (second, after) := FirstWord(rest);
    assert second != "" ==> WordList(rest) == [second] + WordList(after);
    assert first != "" ==> WordList(stmt) == [first] + WordList(rest);
    assert first != "" && second != "" ==> WordList(stmt)[2..] == WordList(after);
  }

  method EndsTransaction(stmt: Bytes) returns (r: bool)
    ensures r == IsTransactionTerminator(stmt)
  {
    hide FirstWord;
    var first, rest := FirstWordOf(stmt);
    if first != "COMMIT" && first != "END" && first != "ROLLBACK" && first != "ABORT" {
      return false;
    }
    var second, after := FirstWordOf(rest);
    if second == "WORK" || second == "TRANSACTION" {
      second, after := FirstWordOf(after);
    }
    return second == "" || second == "AND";
  }

  method IsBlank(s: Bytes) returns (r: bool)
    ensures r == Blank(s) && (r <==> forall i :: 0 <= i < |s| ==> s[i] in {' ', '\t', '\n', '\r'})
  {
    for i := 0 to |s|
      invariant forall k :: 0 <= k < i ==> IsBlankByte(s[k])
    {
      if !IsBlankByte(s[i]) {
        return false;
      }
    }
    return true;
  }

  /** What a top-level semicolon after `chunk` does: whether it ends a
      split-level statement, and whether a BEGIN ATOMIC body is open after it. */
  function ObserveChunk(open: bool, chunk: Bytes): (r: (bool, bool))
    ensures r.0 ==> !r.1
  {
    if open then
      var ends := FirstWord(chunk).0 == "END"; (ends, !ends)
    else
      var found := AfterBeginAtomic(chunk);
      var opens := found.Found? && !ClosesBody(found.rest, 0); (!opens, opens)
  }

  /** The tracker of BEGIN ATOMIC bodies. */
  class AtomicBody {
    var open: bool

    constructor ()
      ensures !open
    {
      open := false;
    }

    method Observe(chunk: Bytes) returns (ends: bool)
      modifies this
      ensures (ends, open) == ObserveChunk(old(open), chunk)
    {
      hide FirstWord, AfterBeginAtomic, ClosesBody;
      if open {
        var first, rest := FirstWordOf(chunk);
        if first == "END" {
          open := false;
          return true;
        }
        return false;
      }
      var found := FindBeginAtomic(chunk);
      if found.Found? {
        var closes := FindsBodyEnd(found.rest);
        if !closes {
          open := true;
          return false;
        }
      }
      return true;
    }
  }

  // ---- what does not matter to the words ----

  predicate NoLetters(s: Bytes) { forall i :: 0 <= i < |s| ==> !IsAsciiLetter(s[i]) }

  lemma {:induction false} GapOfNoLetters(p: Bytes, s: Bytes)
    requires NoLetters(p)
    ensures Gap(p + s) == |p| + Gap(s)
  {
    if p == "" {
      assert p + s == s;
    } else {
      assert (p + s)[1..] == p[1..] + s;
      GapOfNoLetters(p[1..], s);
    }
  }

  /** Text without letters in front of a statement changes none of its words. */
  lemma FirstWordAfter(p: Bytes, s: Bytes)
    requires NoLetters(p)
    ensures FirstWord(p + s) == FirstWord(s)
  {
    GapOfNoLetters(p, s);
    assert (p + s)[|p| + Gap(s)..] == s[Gap(s)..];
  }

  lemma ObserveAfter(open: bool, p: Bytes, chunk: Bytes)
    requires NoLetters(p)
    ensures ObserveChunk(open, p + chunk) == ObserveChunk(open, chunk)
  {
    hide FirstWord, ClosesBody;
    FirstWordAfter(p, chunk);
    assert AfterBeginAtomic(p + chunk) == AfterBeginAtomic(chunk);
  }

  lemma TerminatorAfter(p: Bytes, s: Bytes)
    requires NoLetters(p)
    ensures IsTransactionTerminator(p + s) == IsTransactionTerminator(s)
  {
    hide FirstWord;
    FirstWordAfter(p, s);
  }

  lemma {:induction false} LettersBefore(s: Bytes, z: Bytes)
    requires NoLetters(z)
    ensures Letters(s + z) == Letters(s)
  {
    if s == "" {
      assert s + z == z;
    } else {
      assert (s + z)[1..] == s[1..] + z;
      if IsAsciiLetter(s[0]) { LettersBefore(s[1..], z); }
    }
  }

  lemma {:induction false} GapBefore(s: Bytes, z: Bytes)
    requires NoLetters(z)
    ensures Gap(s + z) == if Gap(s) < |s| then Gap(s) else |s| + |z|
  {
    if s == "" {
      GapOfNoLetters(z, "");
      assert s + z == z && z + "" == z;
    } else {
      assert (s + z)[1..] == s[1..] + z;
      if !IsAsciiLetter(s[0]) { GapBefore(s[1..], z); }
    }
  }

  /** So does text without letters behind it. */
  lemma FirstWordBefore(s: Bytes, z: Bytes)
    requires NoLetters(z)
    ensures FirstWord(s + z).0 == FirstWord(s).0
    ensures FirstWord(s).0 != "" ==> FirstWord(s + z).1 == FirstWord(s).1 + z
  {
    GapBefore(s, z);
    GapEndsAtLetter(s);
    var g := Gap(s);
    if g < |s| {
      var t := s[g..];
      LettersBefore(t, z);
      assert (s + z)[g..] == t + z;
      assert (t + z)[..Letters(t)] == t[..Letters(t)] && (t + z)[Letters(t)..] == t[Letters(t)..] + z;
    } else {
      assert (s + z)[|s| + |z|..] == "" && s[g..] == "";
    }
  }

  lemma TerminatorBefore(s: Bytes, z: Bytes)
    requires NoLetters(z)
    ensures IsTransactionTerminator(s + z) == IsTransactionTerminator(s)
  {
    hide FirstWord;
    var first := FirstWord(s);
    FirstWordBefore(s, z);
    if first.0 != "" {
      var second := FirstWord(first.1);
      FirstWordBefore(first.1, z);
      if second.0 != "" { FirstWordBefore(second.1, z); }
    }
  }
}
