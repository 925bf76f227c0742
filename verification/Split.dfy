/** Cutting a script into execution units: SplitExecutionUnits and padPrefix of
    internal/preprocessor/split.go. */
module Split {
  import opened Text
  import opened Lexer
  import opened Words
  import Comments

  // ---- split-level statements of a mask ----

  /** End of the statement being read at `i`, just past its semicolon, or 0 when
      it never ends; `chunk` is where the text after the last top-level
      semicolon starts. */
  function FindEnd(m: Bytes, i: nat, chunk: nat, depth: int, open: bool): (e: nat)
    requires chunk <= i <= |m|
    ensures e == 0 || i < e <= |m|
    decreases |m| - i
  {
    if i == |m| then 0
    else if m[i] == '(' then FindEnd(m, i + 1, chunk, depth + 1, open)
    else if m[i] == ')' then FindEnd(m, i + 1, chunk, depth - 1, open)
    else if m[i] == ';' && depth == 0 then
      var r := ObserveChunk(open, m[chunk..i]);
      if r.0 then i + 1 else FindEnd(m, i + 1, i + 1, 0, r.1)
    else FindEnd(m, i + 1, chunk, depth, open)
  }

  function NextDepth(c: char, depth: int): int {
    if c == '(' then depth + 1 else if c == ')' then depth - 1 else depth
  }

  lemma FindEndStep(m: Bytes, i: nat, c: nat, depth: int, open: bool)
    requires c <= i <= |m|
    ensures FindEnd(m, i, c, depth, open) ==
            if i == |m| then 0
            else if m[i] == ';' && depth == 0 then
              var r := ObserveChunk(open, m[c..i]);
              if r.0 then i + 1 else FindEnd(m, i + 1, i + 1, 0, r.1)
            else FindEnd(m, i + 1, c, NextDepth(m[i], depth), open)
  {
    hide ObserveChunk;
  }

  /** End of the statement that starts at `at`. */
  function StatementEnd(m: Bytes, at: nat): (e: nat)
    requires at <= |m|
    ensures e == 0 || at < e <= |m|
  {
    FindEnd(m, at, at, 0, false)
  }

  /** End of the first transaction terminator from `at` on, or 0. */
  function HeadEnd(m: Bytes, at: nat): (h: nat)
    requires at <= |m|
    ensures h <= |m| && (h == 0 || h > at)
    decreases |m| - at
  {
    var e := StatementEnd(m, at);
    if e == 0 then (if IsTransactionTerminator(m[at..]) then |m| else 0)
    else if IsTransactionTerminator(m[at..e]) then e
    else HeadEnd(m, e)
  }

  function Newlines(s: Bytes): nat {
    if s == "" then 0 else (if s[0] == '\n' then 1 else 0) + Newlines(s[1..])
  }

  /** Number of bytes after the last newline. */
  function LastLine(s: Bytes): (n: nat)
    ensures n <= |s|
    ensures forall k :: |s| - n <= k < |s| ==> s[k] != '\n'
    ensures n < |s| ==> s[|s| - n - 1] == '\n'
  {
    if s == "" || s[|s| - 1] == '\n' then 0 else 1 + LastLine(s[..|s| - 1])
  }

  /** White space that puts what follows on the line and byte column of offset `end`. */
  function Pad(src: Bytes, end: nat): Bytes
    requires end <= |src|
  {
    seq(Newlines(src[..end]), _ => '\n') + Spaces(LastLine(src[..end]))
  }

  /** One padded unit per statement from `at` on; a blank rest is dropped. */
  function TailUnits(src: Bytes, m: Bytes, at: nat): seq<Bytes>
    requires at <= |m| == |src|
    decreases |m| - at
  {
    var e := StatementEnd(m, at);
    if e == 0 then (if Blank(m[at..]) then [] else [Pad(src, at) + src[at..]])
    else [Pad(src, at) + src[at..e]] + TailUnits(src, m, e)
  }

  function Units(src: Bytes, m: Bytes): seq<Bytes> {
    if |m| != |src| then [src] else
      var h := HeadEnd(m, 0);
      if h == 0 || Blank(m[h..]) then [src] else [src[..h]] + TailUnits(src, m, h)
  }

  /** The execution units of a script. */
  function ExecutionUnits(lx: Lexis, sql: string): seq<Bytes> {
    Units(Encode(sql), Encode(Run(Mask, lx, sql)))
  }

  /** The execution units of a script given as bytes. */
  function ScriptUnits(lx: Lexis, sql: Bytes): seq<Bytes> {
    Units(sql, Encode(Run(Mask, lx, Decode(sql))))
  }

  lemma UnitsOfText(lx: Lexis, sql: string)
    ensures ScriptUnits(lx, Encode(sql)) == ExecutionUnits(lx, sql)
  {
    hide Units, Encode, Decode, Run;
    DecodeEncode(sql);
  }

  // ---- the program ----

  lemma {:induction false} CountNewlines(s: Bytes, i: nat)
    requires i < |s|
    ensures Newlines(s[..i + 1]) == Newlines(s[..i]) + if s[i] == '\n' then 1 else 0
    decreases |s|
  {
    if i == 0 {
      assert s[..1] == [s[0]] && s[..0] == "" && s[..1][1..] == "";
    } else {
      CountNewlines(s[1..], i - 1);
      assert s[..i + 1][1..] == s[1..][..i] && s[..i][1..] == s[1..][..i - 1];
    }
  }

  method CountNewlinesOf(head: Bytes) returns (n: nat)
    ensures n == Newlines(head)
  {
    n := 0;
    for i := 0 to |head|
      invariant n == Newlines(head[..i])
    {
      CountNewlines(head, i);
      if head[i] == '\n' {
        n := n + 1;
      }
    }
    assert head[..|head|] == head;
  }

  /** Index of the last newline, or -1. */
  method LastNewline(head: Bytes) returns (p: int)
    ensures -1 <= p < |head| && LastLine(head) == |head| - p - 1
  {
    p := |head| - 1;
    assert head[..|head|] == head;
    while p >= 0 && head[p] != '\n'
      invariant -1 <= p < |head| && LastLine(head) == |head| - p - 1 + LastLine(head[..p + 1])
    {
      assert head[..p + 1][..p] == head[..p];
      p := p - 1;
    }
  }

  method PadPrefix(sql: Bytes, end: nat) returns (pad: Bytes)
    requires end <= |sql|
    ensures pad == Pad(sql, end)
  {
    var head := sql[..end];
    var newlines := CountNewlinesOf(head);
    var last := LastNewline(head);
    var col := end - last - 1;
    var buffer := new char[newlines + col];
    for i := 0 to newlines
      invariant forall k :: 0 <= k < i ==> buffer[k] == '\n'
    {
      buffer[i] := '\n';
    }
    for i := newlines to buffer.Length
      invariant forall k :: 0 <= k < newlines ==> buffer[k] == '\n'
      invariant forall k :: newlines <= k < i ==> buffer[k] == ' '
    {
      buffer[i] := ' ';
    }
    pad := buffer[..];
  }

  lemma {:induction false} EndsAtSemicolon(m: Bytes, i: nat, chunk: nat, depth: int, open: bool)
    requires chunk <= i <= |m| && FindEnd(m, i, chunk, depth, open) > 0
    ensures m[FindEnd(m, i, chunk, depth, open) - 1] == ';'
    decreases |m| - i
  {
    hide ObserveChunk;
    if m[i] == '(' { EndsAtSemicolon(m, i + 1, chunk, depth + 1, open); }
    else if m[i] == ')' { EndsAtSemicolon(m, i + 1, chunk, depth - 1, open); }
    else if m[i] == ';' && depth == 0 {
      var r := ObserveChunk(open, m[chunk..i]);
      if !r.0 { EndsAtSemicolon(m, i + 1, i + 1, 0, r.1); }
    } else { EndsAtSemicolon(m, i + 1, chunk, depth, open); }
  }

  lemma SplitLast(m: Bytes, at: nat, e: nat)
    requires at < e <= |m|
    ensures m[at..e] == m[at..e - 1] + [m[e - 1]]
  {}

  /** The semicolon that ends a statement does not matter to its words. */
  lemma WithoutSemicolon(m: Bytes, at: nat, e: nat)
    requires at < e <= |m| && m[e - 1] == ';'
    ensures IsTransactionTerminator(m[at..e]) == IsTransactionTerminator(m[at..e - 1])
    ensures !Blank(m[at..e])
  {
    hide IsTransactionTerminator;
    SplitLast(m, at, e);
    TerminatorBefore(m[at..e - 1], ";");
    assert m[at..e][e - 1 - at] == ';';
  }

  /** The first pass: the end of the first top-level terminator, or -1. */
  method FindHead(mask: Bytes) returns (headEnd: int)
    ensures headEnd == if HeadEnd(mask, 0) == 0 then -1 else HeadEnd(mask, 0)
  {
    hide HeadEnd, FindEnd, ObserveChunk, IsTransactionTerminator;
    headEnd := -1;
    var depth, stmtStart, chunkStart := 0, 0, 0;
    var body := new AtomicBody();
    var i := 0;
    while i < |mask|
      invariant stmtStart <= chunkStart <= i <= |mask| && headEnd == -1
      invariant HeadEnd(mask, 0) == HeadEnd(mask, stmtStart)
      invariant StatementEnd(mask, stmtStart) == FindEnd(mask, i, chunkStart, depth, body.open)
    {
      FindEndStep(mask, i, chunkStart, depth, body.open);
      if mask[i] == '(' {
        depth := depth + 1;
      } else if mask[i] == ')' {
        depth := depth - 1;
      } else if mask[i] == ';' && depth == 0 {
        var ends := body.Observe(mask[chunkStart..i]);
        chunkStart := i + 1;
        if ends {
          var terminates := EndsTransaction(mask[stmtStart..i]);
          WithoutSemicolon(mask, stmtStart, i + 1);
          HeadEndStep(mask, stmtStart);
          if terminates {
            return i + 1;
          }
          stmtStart := i + 1;
        }
      }
      i := i + 1;
    }
    FindEndStep(mask, i, chunkStart, depth, body.open);
    HeadEndStep(mask, stmtStart);
    var terminates := EndsTransaction(mask[stmtStart..]);
    if terminates {
      headEnd := |mask|;
      TerminatorNotEmpty(mask[stmtStart..]);
    }
  }

  lemma HeadEndStep(m: Bytes, at: nat)
    requires at <= |m|
    ensures var e := StatementEnd(m, at);
            HeadEnd(m, at) == if e == 0 then (if IsTransactionTerminator(m[at..]) then |m| else 0)
                              else if IsTransactionTerminator(m[at..e]) then e else HeadEnd(m, e)
  {}

  lemma TerminatorNotEmpty(s: Bytes)
    requires IsTransactionTerminator(s)
    ensures s != ""
  {}

  /** The second pass: one unit per statement after the head. */
  method CutTail(sql: Bytes, mask: Bytes, headEnd: nat) returns (units: seq<Bytes>)
    requires headEnd <= |mask| == |sql|
    ensures units == TailUnits(sql, mask, headEnd)
  {
    hide TailUnits, FindEnd, ObserveChunk, Pad, Blank, IsTransactionTerminator;
    units := [];
    var depth, stmtStart, chunkStart := 0, headEnd, headEnd;
    var body := new AtomicBody();
    var i := headEnd;
    while i < |mask|
      invariant headEnd <= stmtStart <= chunkStart <= i <= |mask|
      invariant units + TailUnits(sql, mask, stmtStart) == TailUnits(sql, mask, headEnd)
      invariant StatementEnd(mask, stmtStart) == FindEnd(mask, i, chunkStart, depth, body.open)
    {
      FindEndStep(mask, i, chunkStart, depth, body.open);
      if mask[i] == '(' {
        depth := depth + 1;
      } else if mask[i] == ')' {
        depth := depth - 1;
      } else if mask[i] == ';' && depth == 0 {
        var ends := body.Observe(mask[chunkStart..i]);
        chunkStart := i + 1;
        if ends {
          var blank := IsBlank(mask[stmtStart..i + 1]);
          WithoutSemicolon(mask, stmtStart, i + 1);
          TailUnitsStep(sql, mask, stmtStart, units);
          if !blank {
            var pad := PadPrefix(sql, stmtStart);
            units := units + [pad + sql[stmtStart..i + 1]];
          }
          stmtStart := i + 1;
        }
      }
      i := i + 1;
    }
    FindEndStep(mask, i, chunkStart, depth, body.open);
    TailUnitsStep(sql, mask, stmtStart, units);
    var blank := IsBlank(mask[stmtStart..]);
    if !blank {
      var pad := PadPrefix(sql, stmtStart);
      units := units + [pad + sql[stmtStart..]];
    }
  }

  lemma TailUnitsStep(src: Bytes, m: Bytes, at: nat, done: seq<Bytes>)
    requires at <= |m| == |src|
    ensures var e := StatementEnd(m, at);
            done + TailUnits(src, m, at) ==
            if e == 0 then (if Blank(m[at..]) then done else done + [Pad(src, at) + src[at..]])
            else done + [Pad(src, at) + src[at..e]] + TailUnits(src, m, e)
  {}

  /** Both passes, over a mask that may be of any length: one of another length
      than the script, as for invalid UTF-8, leaves the script whole. */
  method SplitMasked(sql: Bytes, mask: Bytes) returns (units: seq<Bytes>)
    ensures units == Units(sql, mask)
  {
    hide HeadEnd, TailUnits;
    if |mask| != |sql| {
      return [sql];
    }
    var headEnd := FindHead(mask);
    if headEnd == -1 {
      return [sql];
    }
    var blank := IsBlank(mask[headEnd..]);
    if blank {
      return [sql];
    }
    var tail := CutTail(sql, mask, headEnd);
    units := [sql[..headEnd]] + tail;
  }

  /** The splitter, for any bytes; of a UTF-8 text the units are its execution units. */
  method SplitExecutionUnits(lx: Lexis, sql: Bytes) returns (units: seq<Bytes>)
    ensures units == ScriptUnits(lx, sql)
    ensures Encode(Decode(sql)) == sql ==> units == ExecutionUnits(lx, Decode(sql))
  {
    hide Encode, Decode, Run, Units;
    var mask := Comments.RedactForMacros(lx, Decode(sql));
    units := SplitMasked(sql, Encode(mask));
  }
}
