/** Connection strings of key/value pairs: splitADONETPairs in internal/db/parser.go. */
module AdoNet {
  import opened Trimming
  import opened Sequences

  datatype Pair = Pair(key: string, value: string)

  predicate IsQuote(c: char) { c == '\'' || c == '"' }

  /** Length of the longest prefix of `s` made of `chars`. */
  function Leading(s: string, chars: set<char>): (n: nat)
    ensures n <= |s| && (n < |s| ==> s[n] !in chars)
  {
    if s != "" && s[0] in chars then 1 + Leading(s[1..], chars) else 0
  }

  /** Length of the longest prefix of `s` free of `stops`. */
  function Until(s: string, stops: set<char>): (n: nat)
    ensures n <= |s| && (n < |s| ==> s[n] in stops)
  {
    if s != "" && s[0] !in stops then 1 + Until(s[1..], stops) else 0
  }

  /** A value and the number of characters it takes. */
  datatype Token = Token(value: string, used: nat)

  /** What stands after an opening quote: a doubled quote is a quote, a single
      one closes the value, and so does the end of the text. */
  function Quoted(s: string, q: char): (t: Token)
    ensures t.used <= |s|
  {
    if s == "" then Token("", 0)
    else if s[0] == q then
      if |s| > 1 && s[1] == q then
        var t := Quoted(s[2..], q);
        Token([q] + t.value, t.used + 2)
      else Token("", 1)
    else
      var t := Quoted(s[1..], q);
      Token([s[0]] + t.value, t.used + 1)
  }

  /** The value after an equals sign and everything up to the next semicolon. */
  function ValueAt(s: string): (t: Token)
    ensures t.used <= |s| && (t.used < |s| ==> s[t.used] == ';')
  {
    var b := Leading(s, {' '});
    if b < |s| && IsQuote(s[b]) then
      var t := Quoted(s[b + 1..], s[b]);
      var e := b + 1 + t.used;
      Token(t.value, e + Until(s[e..], {';'}))
    else
      var e := b + Until(s[b..], {';'});
      Token(Trim(s[b..e]), e)
  }

  datatype Item = Item(pairs: seq<Pair>, rest: string)

  /** The item at the front of a text that starts with neither space nor
      semicolon; one without equals sign or without key gives no pair. */
  function ItemAt(t: string): (item: Item)
    requires t != "" && t[0] !in {' ', ';'}
    ensures |item.rest| < |t|
  {
    var k := Until(t, {'=', ';'});
    if k == |t| || t[k] != '=' then Item([], t[k..])
    else
      var v := ValueAt(t[k + 1..]);
      var key := Trim(t[..k]);
      Item(if key == "" then [] else [Pair(key, v.value)], t[k + 1 + v.used..])
  }

  function Split(s: string): seq<Pair>
    decreases |s|
  {
    var t := s[Leading(s, {' ', ';'})..];
    if t == "" then [] else ItemAt(t).pairs + Split(ItemAt(t).rest)
  }

  // ---- the splitter ----

  lemma LeadingStep(s: string, i: nat, chars: set<char>)
    requires i < |s| && s[i] in chars
    ensures i + Leading(s[i..], chars) == i + 1 + Leading(s[i + 1..], chars)
  {
    assert s[i..][1..] == s[i + 1..];
  }

  lemma UntilStep(s: string, i: nat, stops: set<char>)
    requires i < |s| && s[i] !in stops
    ensures i + Until(s[i..], stops) == i + 1 + Until(s[i + 1..], stops)
  {
    assert s[i..][1..] == s[i + 1..];
  }

  lemma QuotedStep(s: string, i: nat, q: char)
    requires i < |s|
    ensures var t := Quoted(s[i..], q);
            if s[i] != q then
              t == Token([s[i]] + Quoted(s[i + 1..], q).value, 1 + Quoted(s[i + 1..], q).used)
            else if i + 1 < |s| && s[i + 1] == q then
              t == Token([q] + Quoted(s[i + 2..], q).value, 2 + Quoted(s[i + 2..], q).used)
            else t == Token("", 1)
  {
    assert s[i..][1..] == s[i + 1..];
    if i + 1 < |s| { assert s[i..][2..] == s[i + 2..]; }
  }

  /** Reads a quoted value; `start` is just past the opening quote. */
  method ReadQuoted(s: string, start: nat, quote: char) returns (value: string, i: nat)
    requires start <= |s|
    ensures start <= i <= |s| && Token(value, i - start) == Quoted(s[start..], quote)
  {
    hide Quoted;
    value, i := "", start;
    var open := true;
    while open && i < |s|
      invariant start <= i <= |s|
      invariant open ==>
        var t := Quoted(s[i..], quote);
        Quoted(s[start..], quote) == Token(value + t.value, i - start + t.used)
      invariant !open ==> Quoted(s[start..], quote) == Token(value, i - start)
      decreases open, |s| - i
    {
      QuotedStep(s, i, quote);
      if s[i] == quote {
        if i + 1 < |s| && s[i + 1] == quote {
          value := value + [quote];
          i := i + 2;
        } else {
          i := i + 1;
          open := false;
        }
      } else {
        value := value + [s[i]];
        i := i + 1;
      }
    }
    QuotedNothing(quote);
  }

  lemma QuotedNothing(q: char)
    ensures Quoted("", q) == Token("", 0)
  {}

  method SkipUntil(s: string, start: nat, stops: set<char>) returns (i: nat)
    requires start <= |s|
    ensures i == start + Until(s[start..], stops)
  {
    i := start;
    while i < |s| && s[i] !in stops
      invariant start <= i <= |s|
      invariant start + Until(s[start..], stops) == i + Until(s[i..], stops)
    {
      UntilStep(s, i, stops);
      i := i + 1;
    }
  }

  method SkipLeading(s: string, start: nat, chars: set<char>) returns (i: nat)
    requires start <= |s|
    ensures i == start + Leading(s[start..], chars)
  {
    i := start;
    while i < |s| && s[i] in chars
      invariant start <= i <= |s|
      invariant start + Leading(s[start..], chars) == i + Leading(s[i..], chars)
    {
      LeadingStep(s, i, chars);
      i := i + 1;
    }
  }

  method ReadValue(s: string, start: nat) returns (value: string, i: nat)
    requires start <= |s|
    ensures start <= i <= |s| && Token(value, i - start) == ValueAt(s[start..])
  {
    hide Quoted, Until, Leading, Trim;
    i := SkipLeading(s, start, {' '});
    var b := i - start;
    assert s[start..][b..] == s[i..];
    if i < |s| && IsQuote(s[i]) {
      assert s[start..][b] == s[i] && s[start..][b + 1..] == s[i + 1..];
      var quote := s[i];
      value, i := ReadQuoted(s, i + 1, quote);
      assert s[start..][i - start..] == s[i..];
      i := SkipUntil(s, i, {';'});
    } else {
      var valStart := i;
      i := SkipUntil(s, i, {';'});
      assert s[start..][b..i - start] == s[valStart..i];
      value := Trim(s[valStart..i]);
    }
  }

  lemma SplitNothing()
    ensures Split("") == []
  {}

  lemma SplitStep(s: string)
    ensures var t := s[Leading(s, {' ', ';'})..];
            Split(s) == if t == "" then [] else ItemAt(t).pairs + Split(ItemAt(t).rest)
  {}

  lemma SplitStepAt(s: string, at: nat)
    requires at <= |s|
    ensures var i := at + Leading(s[at..], {' ', ';'});
            Split(s[at..]) == if i == |s| then [] else ItemAt(s[i..]).pairs + Split(ItemAt(s[i..]).rest)
  {
    hide Leading, Split, ItemAt;
    SplitStep(s[at..]);
    assert s[at..][Leading(s[at..], {' ', ';'})..] == s[at + Leading(s[at..], {' ', ';'})..];
  }

  lemma MalformedItem(s: string, i: nat, k: nat)
    requires i < |s| && s[i] !in {' ', ';'} && k == i + Until(s[i..], {'=', ';'})
    requires k == |s| || s[k] != '='
    ensures ItemAt(s[i..]) == Item([], s[k..])
  {
    hide Until;
    assert k < |s| ==> s[i..][k - i] == s[k];
    assert s[i..][k - i..] == s[k..];
  }

  lemma PairItem(s: string, i: nat, k: nat)
    requires i < |s| && s[i] !in {' ', ';'} && k == i + Until(s[i..], {'=', ';'})
    requires k < |s| && s[k] == '='
    ensures var key, v := Trim(s[i..k]), ValueAt(s[k + 1..]);
            ItemAt(s[i..]) == Item(if key == "" then [] else [Pair(key, v.value)], s[k + 1 + v.used..])
  {
    hide Until, ValueAt, Trim;
    assert s[i..][k - i] == s[k];
    assert s[i..][..k - i] == s[i..k];
    assert s[i..][k - i + 1..] == s[k + 1..];
    var v := ValueAt(s[k + 1..]);
    assert s[i..][k - i + 1 + v.used..] == s[k + 1 + v.used..];
  }

  /** The item at `keyStart`: no pair, or one. */
  method ReadItem(s: string, keyStart: nat) returns (item: seq<Pair>, i: nat)
    requires keyStart < |s| && s[keyStart] !in {' ', ';'}
    ensures keyStart < i <= |s| && Item(item, s[i..]) == ItemAt(s[keyStart..])
  {
    hide ValueAt, Until, Trim, ItemAt;
    item := [];
    i := SkipUntil(s, keyStart, {'=', ';'});
    if i >= |s| || s[i] != '=' { // the source's scan on to the next semicolon finds nothing to skip
      MalformedItem(s, keyStart, i);
      assert s[i..] == ItemAt(s[keyStart..]).rest;
    } else {
      PairItem(s, keyStart, i);
      var key := Trim(s[keyStart..i]);
      var value;
      value, i := ReadValue(s, i + 1);
      if key != "" {
        item := [Pair(key, value)];
      }
    }
  }

  method SplitPairs(s: string) returns (pairs: seq<Pair>)
    ensures pairs == Split(s)
  {
    hide Leading, Split, ItemAt;
    pairs := [];
    var i := 0;
    assert s[0..] == s;
    while i < |s|
      invariant i <= |s|
      invariant pairs + Split(s[i..]) == Split(s)
      decreases |s| - i
    {
      SplitStepAt(s, i);
      i := SkipLeading(s, i, {' ', ';'});
      if i >= |s| {
        break;
      }
      var item;
      item, i := ReadItem(s, i);
      Assoc(pairs, item, Split(s[i..]));
      pairs := pairs + item;
    }
    assert s[|s|..] == "";
    SplitNothing();
  }

  // ---- the printer ----

  function Doubled(v: string, q: char): string {
    if v == "" then "" else (if v[0] == q then [q, q] else [v[0]]) + Doubled(v[1..], q)
  }

  function PrintPair(p: Pair, q: char): string {
    p.key + "=" + [q] + Doubled(p.value, q) + [q]
  }

  /** Pairs as a connection string; pair `i` is quoted with `quotes[i]`. */
  function Print(pairs: seq<Pair>, quotes: string): string
    requires |quotes| == |pairs|
  {
    if pairs == [] then ""
    else if |pairs| == 1 then PrintPair(pairs[0], quotes[0])
    else PrintPair(pairs[0], quotes[0]) + ";" + Print(pairs[1..], quotes[1..])
  }

  predicate GoodKey(key: string) {
    key != "" && Trimmed(key) && '=' !in key && ';' !in key
  }

  lemma {:induction false} QuotedOfDoubled(v: string, q: char, rest: string)
    requires rest == "" || rest[0] != q
    ensures Quoted(Doubled(v, q) + [q] + rest, q) == Token(v, |Doubled(v, q)| + 1)
  {
    hide Quoted;
    if v == "" {
      assert Doubled(v, q) + [q] + rest == [q] + rest;
      QuotedCons([q], rest, q);
    } else {
      QuotedOfDoubled(v[1..], q, rest);
      var tail := Doubled(v[1..], q) + [q] + rest;
      var head := if v[0] == q then [q, q] else [v[0]];
      assert Doubled(v, q) == head + Doubled(v[1..], q);
      Assoc(head, Doubled(v[1..], q), [q]);
      Assoc(head, Doubled(v[1..], q) + [q], rest);
      hide Doubled;
      QuotedCons(head, tail, q);
    }
  }

  lemma QuotedCons(head: string, tail: string, q: char)
    requires |head| == 1 || head == [q, q]
    ensures var t := Quoted(tail, q);
            if head == [q, q] then Quoted(head + tail, q) == Token([q] + t.value, t.used + 2)
            else if head[0] != q then Quoted(head + tail, q) == Token(head + t.value, t.used + 1)
            else tail == "" || tail[0] != q ==> Quoted(head + tail, q) == Token("", 1)
  {
    hide Quoted;
    var s := head + tail;
    assert s[|head|..] == tail && s[0] == head[0];
    assert |head| > 1 ==> s[1] == head[1];
    assert |head| == 1 && tail != "" ==> s[1] == tail[0];
    assert |head| == 1 ==> head == [head[0]];
    QuotedUnfolds(s, q);
  }

  lemma QuotedUnfolds(s: string, q: char)
    requires s != ""
    ensures Quoted(s, q) ==
            if s[0] != q then Token([s[0]] + Quoted(s[1..], q).value, Quoted(s[1..], q).used + 1)
            else if |s| > 1 && s[1] == q then Token([q] + Quoted(s[2..], q).value, Quoted(s[2..], q).used + 2)
            else Token("", 1)
  {}

  lemma {:induction false} UntilOf(a: string, stops: set<char>, rest: string)
    requires forall i :: 0 <= i < |a| ==> a[i] !in stops
    requires rest == "" || rest[0] in stops
    ensures Until(a + rest, stops) == |a|
  {
    if a == "" {
      assert a + rest == rest;
    } else {
      assert (a + rest)[1..] == a[1..] + rest;
      UntilOf(a[1..], stops, rest);
    }
  }

  lemma NoLeading(s: string, chars: set<char>)
    requires s == "" || s[0] !in chars
    ensures Leading(s, chars) == 0 && s[0..] == s
  {}

  /** What may stand between a closing quote and the next semicolon, without being read. */
  predicate Ignored(junk: string, q: char) { ';' !in junk && (junk == "" || junk[0] != q) }

  lemma ValueOfPrinted(v: string, q: char, junk: string, rest: string)
    requires IsQuote(q) && Ignored(junk, q) && (rest == "" || rest[0] == ';')
    ensures ValueAt([q] + Doubled(v, q) + [q] + (junk + rest)) == Token(v, |Doubled(v, q)| + 2 + |junk|)
  {
    hide Leading, Until, Quoted, Doubled, ValueAt;
    var s := [q] + Doubled(v, q) + [q] + (junk + rest);
    QuotedValue(s, q);
    QuotedOfDoubled(v, q, junk + rest);
    BetweenQuotes(Doubled(v, q), q, junk + rest);
    UntilOf(junk, {';'}, rest);
  }

  lemma QuotedValue(s: string, q: char)
    requires IsQuote(q) && s != "" && s[0] == q
    ensures var t := Quoted(s[1..], q);
            ValueAt(s) == Token(t.value, 1 + t.used + Until(s[1 + t.used..], {';'}))
  {
    hide Leading, Until, Quoted;
    NoLeading(s, {' '});
  }

  lemma BetweenQuotes(d: string, q: char, rest: string)
    ensures var s := [q] + d + [q] + rest;
            s[0] == q && s[1..] == d + [q] + rest && s[|d| + 2..] == rest
  {
    assert [q] + d + [q] + rest == [q] + (d + [q] + rest);
  }

  lemma LeadingSemicolon(x: string)
    ensures var n := Leading(x, {' ', ';'});
            Leading(";" + x, {' ', ';'}) == n + 1 && (";" + x)[n + 1..] == x[n..]
  {
    assert (";" + x)[1..] == x;
  }

  lemma SplitSkipsSemicolon(x: string)
    ensures Split(";" + x) == Split(x)
  {
    hide Leading, Split, ItemAt;
    LeadingSemicolon(x);
    SplitStep(x);
    SplitStep(";" + x);
  }

  lemma AfterKey(key: string, tail: string, n: nat)
    requires n <= |tail|
    ensures var s := key + ("=" + tail);
            && (key != "" ==> s[0] == key[0]) && s[..|key|] == key && |s| == |key| + 1 + |tail| && s[|key|] == '='
            && s[|key| + 1..] == tail && s[|key| + 1 + n..] == tail[n..]
  {}

  lemma ItemOfPair(p: Pair, tail: string, used: nat)
    requires GoodKey(p.key) && used <= |tail| && ValueAt(tail) == Token(p.value, used)
    ensures var s := p.key + ("=" + tail); s != "" && s[0] !in {' ', ';'} && ItemAt(s) == Item([p], tail[used..])
  {
    hide Until, ValueAt, Trim;
    AfterKey(p.key, tail, used);
    UntilOf(p.key, {'=', ';'}, "=" + tail);
    TrimKeeps(p.key);
    assert p == Pair(p.key, p.value);
  }

  /** A pair is read as its key and the value behind the equals sign. */
  lemma SplitOfPair(p: Pair, tail: string, used: nat)
    requires GoodKey(p.key) && ValueAt(tail) == Token(p.value, used)
    ensures used <= |tail| && Split(p.key + ("=" + tail)) == [p] + Split(tail[used..])
  {
    hide *;
    ItemOfPair(p, tail, used);
    SplitOfItem(p.key + ("=" + tail));
  }

  lemma SplitOfItem(s: string)
    requires s != "" && s[0] !in {' ', ';'}
    ensures Split(s) == ItemAt(s).pairs + Split(ItemAt(s).rest)
  {
    hide Leading, Split, ItemAt;
    NoLeading(s, {' ', ';'});
    SplitStep(s);
  }

  lemma PrintedTail(p: Pair, q: char, junk: string, rest: string)
    ensures var tail := [q] + Doubled(p.value, q) + [q] + (junk + rest);
            && PrintPair(p, q) + (junk + rest) == p.key + ("=" + tail)
            && tail[|Doubled(p.value, q)| + 2 + |junk|..] == rest
  {
    hide Doubled;
    var d := Doubled(p.value, q);
    assert ([q] + d + [q] + junk) + rest == [q] + d + [q] + (junk + rest);
  }

  lemma SplitOfPrinted(p: Pair, q: char, junk: string, rest: string)
    requires GoodKey(p.key) && IsQuote(q) && Ignored(junk, q) && (rest == "" || rest[0] == ';')
    ensures Split(PrintPair(p, q) + (junk + rest)) == [p] + Split(rest)
  {
    hide ValueAt, Split, Doubled, PrintPair, Ignored;
    PrintedTail(p, q, junk, rest);
    ValueOfPrinted(p.value, q, junk, rest);
    SplitOfPair(p, [q] + Doubled(p.value, q) + [q] + (junk + rest), |Doubled(p.value, q)| + 2 + |junk|);
  }

  // ---- other ways to write a pair ----

  predicate OnlySpaces(s: string) { forall i :: 0 <= i < |s| ==> s[i] == ' ' }

  /** A value that needs no quotes. */
  predicate PlainValue(v: string) {
    Trimmed(v) && ';' !in v && (v == "" || !IsQuote(v[0]))
  }

  lemma {:induction false} LeadingOf(a: string, rest: string)
    requires OnlySpaces(a) && (rest == "" || rest[0] != ' ')
    ensures Leading(a + rest, {' '}) == |a|
  {
    if a == "" {
      assert a + rest == rest;
    } else {
      assert (a + rest)[1..] == a[1..] + rest;
      LeadingOf(a[1..], rest);
    }
  }

  lemma UnquotedValue(s: string, b: nat, e: nat)
    requires b <= e <= |s| && Leading(s, {' '}) == b && (b < |s| ==> !IsQuote(s[b])) && Until(s[b..], {';'}) == e - b
    ensures ValueAt(s) == Token(Trim(s[b..e]), e)
  {
    hide Leading, Until, Trim;
  }

  lemma NoValue(a: string, rest: string)
    requires OnlySpaces(a) && (rest == "" || rest[0] == ';')
    ensures ValueAt(a + rest) == Token("", |a|)
  {
    hide Leading, Until, Trim;
    LeadingOf(a, rest);
    assert (a + rest)[|a|..] == rest == "" + rest && (a + rest)[|a|..|a|] == "";
    UntilOf("", {';'}, rest);
    UnquotedValue(a + rest, |a|, |a|);
    TrimKeeps("");
  }

  lemma ValueOfPlain(a: string, v: string, b: string, rest: string)
    requires OnlySpaces(a) && OnlySpaces(b) && PlainValue(v) && (rest == "" || rest[0] == ';')
    ensures ValueAt(a + (v + b + rest)) == Token(v, |a| + |v| + |b|)
  {
    hide Leading, Until, Trim, ValueAt, IsQuote;
    var s := a + (v + b + rest);
    if v == "" {
      assert s == (a + b) + rest;
      NoValue(a + b, rest);
    } else {
      LettersOfPlain(a, v, b, rest);
      LeadingOf(a, v + b + rest);
      UntilOf(v + b, {';'}, rest);
      TrimAround("", v, b);
      assert "" + (v + b) == v + b;
      UnquotedValue(s, |a|, |a| + |v| + |b|);
    }
  }

  lemma LettersOfPlain(a: string, v: string, b: string, rest: string)
    requires v != "" && PlainValue(v) && OnlySpaces(b)
    ensures var s := a + (v + b + rest);
            && s[|a|..] == (v + b) + rest && s[|a|] == v[0] && v[0] != ' ' && !IsQuote(v[0])
            && s[|a|..|a| + |v| + |b|] == v + b && forall i :: 0 <= i < |v + b| ==> (v + b)[i] != ';'
  {
    assert IsUnicodeSpace(' ');
  }

  /** A value without quotes is read up to the next semicolon, less the spaces around it. */
  lemma SplitOfPlain(p: Pair, a: string, b: string, rest: string)
    requires GoodKey(p.key) && PlainValue(p.value) && OnlySpaces(a) && OnlySpaces(b) && (rest == "" || rest[0] == ';')
    ensures Split(p.key + ("=" + (a + (p.value + b + rest)))) == [p] + Split(rest)
  {
    hide ValueAt, Split, OnlySpaces, PlainValue;
    ValueOfPlain(a, p.value, b, rest);
    var tail := a + (p.value + b + rest);
    assert tail[|a| + |p.value| + |b|..] == rest;
    SplitOfPair(p, tail, |a| + |p.value| + |b|);
  }

  /** Text without an equals sign gives no pair. */
  lemma SplitSkipsWord(word: string, rest: string)
    requires word != "" && word[0] != ' ' && '=' !in word && ';' !in word && (rest == "" || rest[0] == ';')
    ensures Split(word + rest) == Split(rest)
  {
    hide Leading, Until, ValueAt, Split, Trim;
    NoLeading(word + rest, {' ', ';'});
    UntilOf(word, {'=', ';'}, rest);
    assert (word + rest)[|word|..] == rest;
    SplitStep(word + rest);
    Sequences.NothingBefore(Split(rest));
  }

  predicate AllGood(pairs: seq<Pair>) {
    forall i :: 0 <= i < |pairs| ==> GoodKey(pairs[i].key)
  }

  predicate AllQuotes(quotes: string) {
    forall i :: 0 <= i < |quotes| ==> IsQuote(quotes[i])
  }

  /** Splitting undoes printing, for every list of pairs with good keys and any values. */
  lemma {:induction false} SplitUndoesPrint(pairs: seq<Pair>, quotes: string)
    requires |quotes| == |pairs| && AllQuotes(quotes) && AllGood(pairs)
    ensures Split(Print(pairs, quotes)) == pairs
  {
    hide Split, PrintPair;
    SplitNothing();
    if pairs != [] {
      var first := PrintPair(pairs[0], quotes[0]);
      if |pairs| == 1 {
        SplitOfPrinted(pairs[0], quotes[0], "", "");
        assert first + ("" + "") == first;
      } else {
        var rest := Print(pairs[1..], quotes[1..]);
        SplitUndoesPrint(pairs[1..], quotes[1..]);
        SplitOfPrinted(pairs[0], quotes[0], "", ";" + rest);
        assert "" + (";" + rest) == ";" + rest;
        SplitSkipsSemicolon(rest);
        assert first + ";" + rest == first + (";" + rest);
      }
    }
  }

  lemma {:induction false} UntilIsFree(s: string, stops: set<char>)
    ensures forall i :: 0 <= i < Until(s, stops) ==> s[i] !in stops
  {
    if s != "" && s[0] !in stops {
      UntilIsFree(s[1..], stops);
      forall i | 0 <= i < Until(s, stops) ensures s[i] !in stops {
        if i > 0 { assert s[i] == s[1..][i - 1]; }
      }
    }
  }

  lemma KeyIsGood(t: string)
    ensures var key := Trim(t[..Until(t, {'=', ';'})]);
            key == "" || GoodKey(key)
  {
    hide Until, Trim;
    UntilIsFree(t, {'=', ';'});
    var a, b := TrimShape(t[..Until(t, {'=', ';'})]);
  }

  lemma ItemKeyIsGood(t: string)
    requires t != "" && t[0] !in {' ', ';'}
    ensures AllGood(ItemAt(t).pairs)
  {
    hide ValueAt, Until, Trim, GoodKey;
    KeyIsGood(t);
  }

  /** Whatever the text, every key found is good. */
  lemma {:induction false} KeysAreGood(s: string)
    ensures AllGood(Split(s))
    decreases |s|
  {
    hide Leading, GoodKey, Split, ItemAt;
    SplitStep(s);
    var t := s[Leading(s, {' ', ';'})..];
    if t != "" {
      ItemKeyIsGood(t);
      KeysAreGood(ItemAt(t).rest);
    }
  }

  /** A list of pairs survives printing and splitting exactly when its keys are
      good; so printing what any text splits into changes nothing. */
  lemma RoundTripExactly(pairs: seq<Pair>, quotes: string)
    requires |quotes| == |pairs| && AllQuotes(quotes)
    ensures Split(Print(pairs, quotes)) == pairs <==> AllGood(pairs)
  {
    hide Split, Print, AllGood;
    KeysAreGood(Print(pairs, quotes));
    if AllGood(pairs) { SplitUndoesPrint(pairs, quotes); }
  }
}
