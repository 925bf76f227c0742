/** The white space of a normalized checksum: the scanned text is cut into its fields,
    the maximal stretches without white space, and they are joined by single spaces
    (the second half of normalize in internal/checksum/calculator.go). */
module Fields {
  import opened Text
  import opened Sequences
  import opened Trimming
  import opened Lexer
  import opened Checksum
  import opened ByteScan
  import opened ChecksumLaws

  /** Length of the stretch without white space that `s` starts with. */
  function FieldLength(s: string): (n: nat)
    ensures n <= |s| && (forall i :: 0 <= i < n ==> !IsUnicodeSpace(s[i])) && (n < |s| ==> IsUnicodeSpace(s[n]))
  {
    if s == "" || IsUnicodeSpace(s[0]) then 0 else 1 + FieldLength(s[1..])
  }

  function FieldsOf(s: string): seq<string>
    decreases |s|
  {
    if s == "" then []
    else if IsUnicodeSpace(s[0]) then FieldsOf(s[1..])
    else [s[..FieldLength(s)]] + FieldsOf(s[FieldLength(s)..])
  }

  function JoinFields(fs: seq<string>): string {
    if fs == [] then "" else if |fs| == 1 then fs[0] else fs[0] + " " + JoinFields(fs[1..])
  }

  predicate EndsSpaced(s: string) { s != "" && IsUnicodeSpace(s[|s| - 1]) }

  lemma JoinCons(f: string, fs: seq<string>)
    ensures JoinFields([f] + fs) == if fs == [] then f else f + " " + JoinFields(fs)
  {
    assert ([f] + fs)[1..] == fs;
  }

  /** Behind a space, collapsing writes the fields, and one more space where the text
      ends in white space. */
  lemma {:induction false} CollapseIsFields(s: string)
    ensures Collapse(s, true) == JoinFields(FieldsOf(s)) + if EndsSpaced(s) && FieldsOf(s) != [] then " " else ""
    decreases |s|
  {
    hide IsUnicodeSpace, Collapse, JoinFields;
    if s == "" {
      CollapseOfEmpty(true);
      NoFields();
    } else if IsUnicodeSpace(s[0]) {
      CollapseCons(s, true);
      CollapseIsFields(s[1..]);
      NothingBefore(Collapse(s[1..], true));
      assert s[1..] != "" ==> s[1..][|s| - 2] == s[|s| - 1];
      if s[1..] == "" { NoFields(); }
    } else {
      var n := FieldLength(s);
      var x, r := s[..n], s[n..];
      SplitAt(s, n);
      CollapseOfSolid(x, r, true);
      JoinCons(x, FieldsOf(r));
      if r == "" {
        CollapseOfEmpty(false);
        NoFields();
      } else {
        CollapseCons(r, false);
        CollapseIsFields(r[1..]);
        assert r[|r| - 1] == s[|s| - 1] && (r[1..] != "" ==> r[1..][|r| - 2] == r[|r| - 1]);
        NoFields();
        var j, z := JoinFields(FieldsOf(r)), if EndsSpaced(r[1..]) && FieldsOf(r) != [] then " " else "";
        assert FieldsOf(r) == FieldsOf(r[1..]);
        assert x + (" " + (j + z)) == (x + " " + j) + z;
        assert FieldsOf(r) == [] ==> " " + (j + z) == " ";
        assert FieldsOf(r) != [] ==> r[1..] != "";
        if FieldsOf(r) == [] { WithoutFields(r); }
      }
    }
  }

  lemma {:induction false} WithoutFields(s: string)
    requires s != "" && FieldsOf(s) == []
    ensures EndsSpaced(s)
    decreases |s|
  {
    hide IsUnicodeSpace;
    if s[1..] != "" {
      WithoutFields(s[1..]);
      assert s[1..][|s| - 2] == s[|s| - 1];
    }
  }

  lemma NoFields()
    ensures FieldsOf("") == [] && JoinFields([]) == "" && "" + "" == ""
  {}

  /** Every field is solid, so joined they neither start nor end in white space. */
  lemma {:induction false} JoinedIsTrimmed(s: string)
    ensures var j := JoinFields(FieldsOf(s)); Trimmed(j) && (FieldsOf(s) != [] ==> j != "")
    decreases |s|
  {
    hide IsUnicodeSpace, JoinFields;
    if s == "" {
      NoFields();
    } else if IsUnicodeSpace(s[0]) {
      JoinedIsTrimmed(s[1..]);
    } else {
      var n := FieldLength(s);
      JoinedIsTrimmed(s[n..]);
      JoinCons(s[..n], FieldsOf(s[n..]));
      TrimmedJoin(s[..n], JoinFields(FieldsOf(s[n..])));
    }
  }

  lemma TrimmedJoin(x: string, j: string)
    requires x != "" && (forall i :: 0 <= i < |x| ==> !IsUnicodeSpace(x[i])) && Trimmed(j)
    ensures Trimmed(x) && (j != "" ==> Trimmed(x + " " + j))
  {
    hide IsUnicodeSpace;
    if j != "" {
      var t := x + " " + j;
      assert t[0] == x[0] && t[|t| - 1] == j[|j| - 1];
    }
  }

  /** The normal form is the fields of the scanned text, joined by single spaces. */
  lemma NormalTextIsFields(s: string)
    ensures NormalText(s) == JoinFields(FieldsOf(Run(Fold, ByteWise, s)))
    ensures Normalized(Encode(s)) == Encode(JoinFields(FieldsOf(Run(Fold, ByteWise, s))))
  {
    hide Run, IsUnicodeSpace, Collapse, FieldsOf, JoinFields, Trim, Normalized, Encode;
    var c := Run(Fold, ByteWise, s);
    NormalizedText(s);
    CollapseIsTrimmedFields(c);
  }

  lemma SpacesAreSpace()
    ensures AllUnicodeSpace(" ") && AllUnicodeSpace("")
  {}

  lemma CollapseIsTrimmedFields(c: string)
    ensures Trim(Collapse(c, false)) == JoinFields(FieldsOf(c))
  {
    hide IsUnicodeSpace, Collapse, FieldsOf, JoinFields, Trim;
    var j := JoinFields(FieldsOf(c));
    var b := if EndsSpaced(c) && FieldsOf(c) != [] then " " else "";
    SpacesAreSpace();
    JoinedIsTrimmed(c);
    CollapseIsFields(c);
    if c == "" || !IsUnicodeSpace(c[0]) {
      if c == "" { CollapseOfEmpty(true); CollapseOfEmpty(false); } else { CollapseLastMatters(c, true); }
      assert "" + (j + b) == j + b;
      TrimAround("", j, b);
    } else {
      CollapseCons(c, false);
      CollapseCons(c, true);
      NothingBefore(Collapse(c[1..], true));
      TrimAround(" ", j, b);
    }
  }
}
