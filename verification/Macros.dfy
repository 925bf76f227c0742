/** Macro expansion: Detect of internal/preprocessor/macros.go, whose regular
    expression is a contract on matches, and Process with its splicing loop of
    internal/preprocessor/pipeline.go. */
module Macros {
  import opened Text
  import opened Lexer
  import opened Split
  import opened Positions
  import Comments
  import SplitLaws

  /** One match of the macro pattern: the whole match, and the two arguments. */
  datatype Group = Absent | Group(start: nat, end: nat)
  datatype Match = Match(start: nat, end: nat, pattern: Group, callback: Group)

  datatype MacroCall = MacroCall(pattern: Bytes, callback: Bytes, start: nat, end: nat, line: nat, column: nat)

  predicate IsC(c: char) { c == 'c' || c == 'C' }

  /** Offset of the CALL keyword in a match, which may start with one other rune. */
  function CallStart(mask: Bytes, m: Match): nat
    requires m.start < |mask|
  {
    var (r, size) := DecodeFirst(mask[m.start..]);
    if IsC(r) then m.start else m.start + size
  }

  predicate GroupWithin(g: Group, n: nat) { g.Group? ==> g.start <= g.end <= n }

  /** What the regular expression engine returns: matches in order and apart,
      each with a CALL after at most one boundary rune. */
  predicate AreMatches(mask: Bytes, ms: seq<Match>) {
    && (forall j :: 0 <= j < |ms| ==>
          ms[j].start < ms[j].end <= |mask| && CallStart(mask, ms[j]) < ms[j].end && IsC(mask[CallStart(mask, ms[j])])
          && GroupWithin(ms[j].pattern, |mask|) && GroupWithin(ms[j].callback, |mask|))
    && (forall j :: 0 < j < |ms| ==> ms[j - 1].end <= ms[j].start)
  }

  /** Calls in order, apart and within a text of `n` bytes. */
  predicate Ordered(ms: seq<MacroCall>, n: nat) {
    && (forall j :: 0 <= j < |ms| ==> ms[j].start < ms[j].end <= n)
    && (forall j :: 0 < j < |ms| ==> ms[j - 1].end <= ms[j].start)
  }

  method CalculatePosition(sql: Bytes, offset: nat) returns (line: nat, column: nat)
    ensures var n := if offset < |sql| then offset else |sql|;
            line == LineAt(sql, n) && column == ColumnAt(sql, n)
  {
    line, column := 1, 1;
    var i := 0;
    while i < offset && i < |sql|
      invariant i <= |sql| && i <= offset
      invariant line == LineAt(sql, i) && column == ColumnAt(sql, i)
    {
      CountNewlines(sql, i);
      LastLineStep(sql, i);
      if sql[i] == '\n' {
        line := line + 1;
        column := 1;
      } else {
        column := column + 1;
      }
      i := i + 1;
    }
  }

  function Argument(sql: Bytes, g: Group): Bytes
    requires GroupWithin(g, |sql|)
  {
    if g.Group? then sql[g.start..g.end] else ""
  }

  /** Every call starts at its CALL keyword; its arguments are read from the script. */
  predicate IsCallOf(sql: Bytes, mask: Bytes, m: Match, c: MacroCall)
    requires m.start < m.end <= |mask| == |sql| && GroupWithin(m.pattern, |sql|) && GroupWithin(m.callback, |sql|)
  {
    && c.start == CallStart(mask, m) && c.end == m.end
    && c.pattern == Argument(sql, m.pattern) && c.callback == Argument(sql, m.callback)
    && c.start <= |sql| && c.line == LineAt(sql, c.start) && c.column == ColumnAt(sql, c.start)
  }

  /** The text in which calls are looked for: the mask, unless it is missing or not
      aligned with the script, and then the script itself. */
  function Searched(sql: Bytes, mask: Bytes): (text: Bytes)
    ensures |text| == |sql|
  {
    if mask == "" || |mask| != |sql| then sql else mask
  }

  method Detect(sql: Bytes, mask: Bytes, find: Bytes -> seq<Match>) returns (macros: seq<MacroCall>)
    requires AreMatches(Searched(sql, mask), find(Searched(sql, mask)))
    ensures var text := Searched(sql, mask);
            var matches := find(text);
            && |macros| == |matches| && Ordered(macros, |sql|)
            && forall j :: 0 <= j < |macros| ==> IsCallOf(sql, text, matches[j], macros[j]) && IsC(text[macros[j].start])
  {
    hide LineAt, ColumnAt, Argument, DecodeFirst;
    var text := Searched(sql, mask);
    var matches := find(text);
    macros := [];
    for j := 0 to |matches|
      invariant |macros| == j && Ordered(macros, |sql|)
      invariant forall i :: 0 <= i < j ==> IsCallOf(sql, text, matches[i], macros[i]) && IsC(text[macros[i].start])
    {
      var m := matches[j];
      var startPos := m.start;
      var (rune, size) := DecodeFirst(text[startPos..]);
      if !IsC(rune) {
        startPos := startPos + size;
      }
      var line, column := CalculatePosition(sql, startPos);
      macros := macros + [MacroCall(Argument(sql, m.pattern), Argument(sql, m.callback), startPos, m.end, line, column)];
    }
  }

  /** `text` is what the script holds in the group, and nothing without a group. */
  predicate ReadsGroup(sql: Bytes, g: Group, text: Bytes) {
    match g
    case Absent => text == ""
    case Group(a, b) => a <= b <= |sql| && |text| == b - a && forall i :: 0 <= i < |text| ==> text[i] == sql[a + i]
  }

  /** The arguments of a call are read from the script itself, where the searched text may
      be blank; its position is that of the CALL keyword. */
  lemma CallReadsScript(sql: Bytes, mask: Bytes, m: Match, c: MacroCall)
    requires m.start < m.end <= |mask| == |sql| && GroupWithin(m.pattern, |sql|) && GroupWithin(m.callback, |sql|)
    requires IsCallOf(sql, mask, m, c)
    ensures ReadsGroup(sql, m.pattern, c.pattern) && ReadsGroup(sql, m.callback, c.callback)
    ensures c.start <= |sql| && c.line == 1 + multiset(sql[..c.start])['\n']
    ensures mask[m.start] in {'c', 'C'} ==> c.start == m.start
    ensures mask[m.start] !in {'c', 'C'} ==> m.start < c.start <= m.start + 4
  {
    NewlinesAreCounted(sql[..c.start]);
    var s := mask[m.start..];
    assert s[0] == mask[m.start];
  }

  // ---- splicing ----

  datatype Generated = Failed | Generated(sql: Bytes)

  /** The script from `from` on with every call replaced by its generated text
      at once; each stretch between calls is kept as it is. */
  function Substitute(sql: Bytes, ms: seq<MacroCall>, gen: MacroCall -> Bytes, from: nat): Bytes
    requires Ordered(ms, |sql|) && from <= |sql| && (ms != [] ==> from <= ms[0].start)
    decreases |ms|
  {
    if ms == [] then sql[from..]
    else
      assert Ordered(ms[1..], |sql|);
      sql[from..ms[0].start] + gen(ms[0]) + Substitute(sql, ms[1..], gen, ms[0].end)
  }

  /** At the offset `at[k]` of `r` stands the generated text of call `k`. */
  predicate TextAt(ms: seq<MacroCall>, gen: MacroCall -> Bytes, at: seq<nat>, r: Bytes, k: nat)
    requires k < |ms| == |at|
  {
    at[k] + |gen(ms[k])| <= |r| && r[at[k]..at[k] + |gen(ms[k])|] == gen(ms[k])
  }

  /** Before it, or at the end, stands what the script holds there since the last call. */
  predicate StretchAt(sql: Bytes, ms: seq<MacroCall>, gen: MacroCall -> Bytes, from: nat, at: seq<nat>, r: Bytes, k: nat)
    requires k <= |ms| == |at|
  {
    var a, b := if k == 0 then from else ms[k - 1].end, if k < |ms| then ms[k].start else |sql|;
    var c, d := if k == 0 then 0 else at[k - 1] + |gen(ms[k - 1])|, if k < |ms| then at[k] else |r|;
    a <= b <= |sql| && c <= d <= |r| && r[c..d] == sql[a..b]
  }

  lemma Shifted(first: Bytes, rest: Bytes, a: nat, b: nat)
    requires a <= b <= |rest|
    ensures (first + rest)[|first| + a..|first| + b] == rest[a..b]
  {}

  /** The offsets in a text of which the first call has been taken off with `first`. */
  predicate IsShift(at: seq<nat>, first: Bytes, later: seq<nat>) {
    |at| == |later| + 1 && forall k :: 0 <= k < |later| ==> at[k + 1] == |first| + later[k]
  }

  lemma TextShifts(ms: seq<MacroCall>, gen: MacroCall -> Bytes, at: seq<nat>, at1: seq<nat>, first: Bytes, rest: Bytes, k: nat)
    requires 0 < k < |ms| == |at| && IsShift(at, first, at1) && TextAt(ms[1..], gen, at1, rest, k - 1)
    ensures TextAt(ms, gen, at, first + rest, k)
  {
    Shifted(first, rest, at1[k - 1], at1[k - 1] + |gen(ms[k])|);
  }

  lemma StretchShifts(sql: Bytes, ms: seq<MacroCall>, gen: MacroCall -> Bytes, from: nat, at: seq<nat>, at1: seq<nat>,
                      first: Bytes, rest: Bytes, k: nat)
    requires 0 < k <= |ms| == |at| && IsShift(at, first, at1) && at[0] + |gen(ms[0])| == |first|
    requires StretchAt(sql, ms[1..], gen, ms[0].end, at1, rest, k - 1)
    ensures StretchAt(sql, ms, gen, from, at, first + rest, k)
  {
    var c := if k == 1 then 0 else at1[k - 2] + |gen(ms[k - 1])|;
    Shifted(first, rest, c, if k < |ms| then at1[k - 1] else |rest|);
  }

  /** A script with its calls replaced consists of the stretches between the calls and of
      the generated texts, in turn. */
  lemma {:induction false} SubstituteInterleaves(sql: Bytes, ms: seq<MacroCall>, gen: MacroCall -> Bytes, from: nat)
    returns (at: seq<nat>)
    requires Ordered(ms, |sql|) && from <= |sql| && (ms != [] ==> from <= ms[0].start)
    ensures |at| == |ms|
    ensures forall k :: 0 <= k < |ms| ==> TextAt(ms, gen, at, Substitute(sql, ms, gen, from), k)
    ensures forall k :: 0 <= k <= |ms| ==> StretchAt(sql, ms, gen, from, at, Substitute(sql, ms, gen, from), k)
    decreases |ms|
  {
    if ms == [] {
      at := [];
    } else {
      var m, later := ms[0], ms[1..];
      assert Ordered(later, |sql|);
      var first, rest, r := sql[from..m.start] + gen(m), Substitute(sql, later, gen, m.end), Substitute(sql, ms, gen, from);
      assert r == first + rest;
      var at1 := SubstituteInterleaves(sql, later, gen, m.end);
      at := [m.start - from] + seq(|at1|, k requires 0 <= k < |at1| => |first| + at1[k]);
      FirstParts(sql, m, gen, from, rest);
      assert TextAt(ms, gen, at, r, 0) && StretchAt(sql, ms, gen, from, at, r, 0);
      hide Substitute, Ordered, TextAt, StretchAt;
      forall k | 0 < k < |ms| ensures TextAt(ms, gen, at, r, k) {
        TextShifts(ms, gen, at, at1, first, rest, k);
      }
      forall k | 0 < k <= |ms| ensures StretchAt(sql, ms, gen, from, at, r, k) {
        StretchShifts(sql, ms, gen, from, at, at1, first, rest, k);
      }
    }
  }

  lemma FirstParts(sql: Bytes, m: MacroCall, gen: MacroCall -> Bytes, from: nat, rest: Bytes)
    requires from <= m.start <= |sql|
    ensures var n, r := m.start - from, sql[from..m.start] + gen(m) + rest;
            r[0..n] == sql[from..m.start] && r[n..n + |gen(m)|] == gen(m)
  {}

  function Reversed(ms: seq<MacroCall>): (r: seq<MacroCall>)
    ensures |r| == |ms|
    ensures forall j :: 0 <= j < |r| ==> r[j] == ms[|ms| - 1 - j]
  {
    seq(|ms|, j requires 0 <= j < |ms| => ms[|ms| - 1 - j])
  }

  lemma OrderedStarts(ms: seq<MacroCall>, n: nat, i: nat, j: nat)
    requires Ordered(ms, n) && i < j < |ms|
    ensures ms[i].start < ms[j].start
    decreases j
  {
    if i < j - 1 { OrderedStarts(ms, n, i, j - 1); }
  }

  function Insert(r: seq<MacroCall>, m: MacroCall): seq<MacroCall> {
    if r == [] || r[0].start < m.start then [m] + r else [r[0]] + Insert(r[1..], m)
  }

  /** The library sort, by descending start. */
  function SortDescending(ms: seq<MacroCall>): seq<MacroCall> {
    if ms == [] then [] else Insert(SortDescending(ms[..|ms| - 1]), ms[|ms| - 1])
  }

  lemma ReversedSnoc(ms: seq<MacroCall>)
    requires ms != []
    ensures Reversed(ms) == [ms[|ms| - 1]] + Reversed(ms[..|ms| - 1])
  {}

  /** Sorting calls that are in order puts the last call first. */
  lemma {:induction false} SortReverses(ms: seq<MacroCall>, n: nat)
    requires Ordered(ms, n)
    ensures SortDescending(ms) == Reversed(ms)
    decreases |ms|
  {
    if ms != [] {
      var init := ms[..|ms| - 1];
      assert Ordered(init, n);
      if init != [] { OrderedStarts(ms, n, |ms| - 2, |ms| - 1); }
      hide Ordered;
      SortReverses(init, n);
      ReversedSnoc(ms);
      hide Reversed;
      InsertFirst(Reversed(init), ms[|ms| - 1]);
    }
  }

  lemma InsertFirst(r: seq<MacroCall>, m: MacroCall)
    requires r == [] || r[0].start < m.start
    ensures Insert(r, m) == [m] + r
  {}

  datatype Expansion = Refused | Expanded(sql: Bytes, macroCount: nat)

  /** The generated text of a call, when there is one. */
  function TextOf(generate: MacroCall -> Generated): MacroCall -> Bytes {
    (m: MacroCall) => match generate(m) case Generated(g) => g case Failed => ""
  }

  predicate Good(valid: MacroCall -> bool, generate: MacroCall -> Generated, m: MacroCall) {
    valid(m) && generate(m).Generated?
  }

  /** Sorting and splicing, given the detected calls: each callback name is
      validated and its text generated; the first failure ends the run. */
  method Splice(sql: Bytes, macros: seq<MacroCall>, valid: MacroCall -> bool, generate: MacroCall -> Generated)
    returns (result: Expansion)
    requires Ordered(macros, |sql|)
    ensures result.Expanded? <==> forall k :: 0 <= k < |macros| ==> Good(valid, generate, macros[k])
    ensures result.Expanded? ==>
              forall k :: 0 <= k < |macros| ==> valid(macros[k]) && generate(macros[k]) == Generated(TextOf(generate)(macros[k]))
    ensures result.Expanded? ==>
              result == Expanded(Substitute(sql, macros, TextOf(generate), 0), |macros|)
  {
    hide Substitute, Spliced, Ordered, SortDescending;
    NoCallsLeft(sql, macros, TextOf(generate));
    var sorted := SortDescending(macros);
    SortReverses(macros, |sql|);
    var expanded := sql;
    for j := 0 to |sorted|
      invariant forall k :: |macros| - j <= k < |macros| ==> Good(valid, generate, macros[k])
      invariant Spliced(sql, macros, TextOf(generate), |macros| - j, expanded)
    {
      var macro := sorted[j];
      assert macro == macros[|macros| - 1 - j];
      if !valid(macro) {
        return Refused;
      }
      var generated := generate(macro);
      if generated.Failed? {
        return Refused;
      }
      SpliceStep(sql, macros, TextOf(generate), |macros| - 1 - j, expanded);
      expanded := expanded[..macro.start] + generated.sql + expanded[macro.end..];
    }
    AllSpliced(sql, macros, TextOf(generate), expanded);
    result := Expanded(expanded, |macros|);
  }

  lemma NoCallsLeft(sql: Bytes, ms: seq<MacroCall>, gen: MacroCall -> Bytes)
    requires Ordered(ms, |sql|)
    ensures Spliced(sql, ms, gen, |ms|, sql)
    ensures ms != [] ==> 0 <= ms[0].start
  {
    assert ms[|ms|..] == [];
  }

  lemma AllSpliced(sql: Bytes, ms: seq<MacroCall>, gen: MacroCall -> Bytes, expanded: Bytes)
    requires Ordered(ms, |sql|) && Spliced(sql, ms, gen, 0, expanded)
    ensures expanded == Substitute(sql, ms, gen, 0)
  {
    assert ms[0..] == ms && sql[..0] == "";
  }

  /** The text after the calls from `k` on have been replaced. */
  ghost predicate Spliced(sql: Bytes, ms: seq<MacroCall>, gen: MacroCall -> Bytes, k: nat, expanded: Bytes)
    requires Ordered(ms, |sql|) && k <= |ms|
  {
    var p := if k == 0 then 0 else ms[k - 1].end;
    Ordered(ms[k..], |sql|) && expanded == sql[..p] + Substitute(sql, ms[k..], gen, p)
  }

  lemma SpliceStep(sql: Bytes, ms: seq<MacroCall>, gen: MacroCall -> Bytes, k: nat, expanded: Bytes)
    requires Ordered(ms, |sql|) && k < |ms| && Spliced(sql, ms, gen, k + 1, expanded)
    ensures ms[k].end <= |expanded| && ms[k].start <= |expanded|
    ensures Spliced(sql, ms, gen, k, expanded[..ms[k].start] + gen(ms[k]) + expanded[ms[k].end..])
  {
    var m, p := ms[k], if k == 0 then 0 else ms[k - 1].end;
    var rest := Substitute(sql, ms[k + 1..], gen, m.end);
    assert expanded[m.end..] == rest && expanded[..m.start] == sql[..m.start];
    assert ms[k..][1..] == ms[k + 1..];
    assert sql[..p] + (sql[p..m.start] + gen(m) + rest) == sql[..m.start] + gen(m) + rest;
  }

  // ---- mask, detect, splice ----

  /** The mask in which calls are looked for. */
  function MaskOf(lx: Lexis, sql: string): Bytes { Encode(Run(Mask, lx, sql)) }

  /** The calls found in a script, one for each match in its mask: in order, apart,
      each at a C of the script that the mask shows, so outside comments and the
      bodies of literals. */
  predicate AreCallsOf(lx: Lexis, sql: string, matches: seq<Match>, macros: seq<MacroCall>)
    requires AreMatches(MaskOf(lx, sql), matches)
  {
    var src, mask := Encode(sql), MaskOf(lx, sql);
    && |mask| == |src| && |macros| == |matches| && Ordered(macros, |src|)
    && forall j :: 0 <= j < |macros| ==>
         && IsCallOf(src, mask, matches[j], macros[j])
         && IsC(src[macros[j].start]) && mask[macros[j].start] == src[macros[j].start]
  }

  lemma VisibleIsSource(lx: Lexis, sql: string, i: nat)
    requires i < |MaskOf(lx, sql)| && IsC(MaskOf(lx, sql)[i])
    ensures i < ByteLen(sql) && Encode(sql)[i] == MaskOf(lx, sql)[i]
  {
    hide Encode, Run;
    Comments.MaskIsFixedPoint(lx, sql);
  }

  /** The whole of Process: `find` is the regular expression, `valid` the test of
      callback names and `generate` the query that generates the text of a call. */
  method Process(lx: Lexis, sql: string, find: Bytes -> seq<Match>, valid: MacroCall -> bool, generate: MacroCall -> Generated)
    returns (result: Expansion, macros: seq<MacroCall>)
    requires AreMatches(MaskOf(lx, sql), find(MaskOf(lx, sql)))
    ensures AreCallsOf(lx, sql, find(MaskOf(lx, sql)), macros)
    ensures result.Expanded? <==> forall k :: 0 <= k < |macros| ==> Good(valid, generate, macros[k])
    ensures result.Expanded? ==>
              forall k :: 0 <= k < |macros| ==> valid(macros[k]) && generate(macros[k]) == Generated(TextOf(generate)(macros[k]))
    ensures result.Expanded? ==>
              result == Expanded(Substitute(Encode(sql), macros, TextOf(generate), 0), |macros|)
  {
    hide Encode, Run, Substitute, IsCallOf, AreMatches;
    var redacted := Comments.RedactForMacros(lx, sql);
    var src, mask := Encode(sql), Encode(redacted);
    SplitLaws.MaskLength(lx, sql);
    macros := Detect(src, mask, find);
    forall j | 0 <= j < |macros| ensures mask[macros[j].start] == src[macros[j].start] {
      VisibleIsSource(lx, sql, macros[j].start);
    }
    if |macros| == 0 {
      result := Expanded(src, 0);
      NoCallsToSplice(src, TextOf(generate));
    } else {
      result := Splice(src, macros, valid, generate);
    }
  }

  lemma NoCallsToSplice(sql: Bytes, gen: MacroCall -> Bytes)
    ensures Substitute(sql, [], gen, 0) == sql
  {}
}
