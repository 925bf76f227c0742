/** The tree of test directories: insertTestDirectories and its helpers in
    internal/files/loader/loader.go. */
module TestTree {
  import opened Options

  type Path = string

  // ---- paths ----

  function Slashed(path: Path): (p: Path)
    ensures |p| == |path|
  {
    seq(|path|, i requires 0 <= i < |path| => if path[i] == '\\' then '/' else path[i])
  }

  /** Length of the test marker at `i`, `/__test__/` or `/__tests__/`, or 0. */
  function MarkerAt(path: Path, i: nat): nat
    requires i <= |path|
  {
    if "/__test__/" <= path[i..] then 10 else if "/__tests__/" <= path[i..] then 11 else 0
  }

  /** Offset just past the first marker from `i` on, or 0. */
  function MarkerEnd(path: Path, i: nat): (e: nat)
    requires i <= |path|
    ensures e <= |path| && (e == 0 || (e >= i + 10 && path[e - 1] == '/'))
    decreases |path| - i
  {
    if MarkerAt(path, i) > 0 then i + MarkerAt(path, i)
    else if i == |path| then 0
    else MarkerEnd(path, i + 1)
  }

  function LastSlash(path: Path): (k: nat)
    ensures k <= |path| && (k > 0 ==> path[k - 1] == '/')
    ensures forall j :: k <= j < |path| ==> path[j] != '/'
  {
    if path == "" then 0 else if path[|path| - 1] == '/' then |path| else LastSlash(path[..|path| - 1])
  }

  /** The directory of a file below a test marker, with its final slash; "" for other files. */
  function ExtractTestDirectory(file: Path): Path {
    var p := Slashed(file);
    if MarkerEnd(p, 0) == 0 then "" else p[..LastSlash(p)]
  }

  /** What follows the first marker. */
  function AfterTest(path: Path): Path {
    path[MarkerEnd(path, 0)..]
  }

  function Slashes(s: string): nat {
    if s == "" then 0 else (if s[0] == '/' then 1 else 0) + Slashes(s[1..])
  }

  function TrimSlash(s: string): string {
    if s != "" && s[|s| - 1] == '/' then s[..|s| - 1] else s
  }

  /** Depth below the root of the test tree. */
  function Depth(path: Path): nat {
    var p := Slashed(path);
    if MarkerEnd(p, 0) == 0 then 0
    else
      var below := TrimSlash(AfterTest(p));
      if below == "" then 0 else Slashes(below) + 1
  }

  /** A directory of the test tree: with forward slashes, below a marker, and
      with its final slash. */
  predicate TestDirectory(d: Path) {
    d != "" && d[|d| - 1] == '/' && '\\' !in d && MarkerEnd(d, 0) > 0
  }

  // ---- what markers, test directories and depths are ----

  /** A test marker of length `n` stands at `i`. */
  predicate IsMarker(path: Path, i: nat, n: nat) {
    i + n <= |path| && path[i..i + n] in {"/__test__/", "/__tests__/"}
  }

  lemma MarkerAtIsMarker(path: Path, i: nat, n: nat)
    requires i <= |path|
    ensures IsMarker(path, i, n) <==> n > 0 && MarkerAt(path, i) == n
  {
    assert "/__test__/" <= path[i..] <==> |path[i..]| >= 10 && path[i..][..10] == "/__test__/";
    assert "/__tests__/" <= path[i..] <==> |path[i..]| >= 11 && path[i..][..11] == "/__tests__/";
    if i + n <= |path| { assert path[i..i + n] == path[i..][..n]; }
    if i + 10 <= |path| { assert path[i..][..10] == path[i..i + 10]; }
    if i + 11 <= |path| { assert path[i..][7] == path[i + 7]; }
  }

  /** The marker found is the first one. */
  lemma {:induction false} MarkerIsFirst(path: Path, from: nat) returns (i: nat, n: nat)
    requires from <= |path|
    ensures forall j, k :: from <= j < i ==> !IsMarker(path, j, k)
    ensures if MarkerEnd(path, from) == 0 then i > |path| else i >= from && IsMarker(path, i, n) && MarkerEnd(path, from) == i + n
    decreases |path| - from
  {
    forall k { MarkerAtIsMarker(path, from, k); }
    if MarkerAt(path, from) > 0 {
      i, n := from, MarkerAt(path, from);
    } else if from == |path| {
      i, n := |path| + 1, 0;
    } else {
      hide MarkerAt;
      i, n := MarkerIsFirst(path, from + 1);
    }
  }

  /** A file has a test directory exactly when its path, with forward slashes, holds a
      marker; the directory is the path through its last slash. */
  lemma TestDirectoryOfFile(file: Path)
    ensures var p, d := Slashed(file), ExtractTestDirectory(file);
            && (forall i :: 0 <= i < |p| ==> p[i] == if file[i] == '\\' then '/' else file[i])
            && (d != "" <==> exists i, n :: IsMarker(p, i, n))
            && (d != "" ==> d <= p && d[|d| - 1] == '/' && '/' !in p[|d|..])
  {
    hide MarkerAt, MarkerEnd;
    var p := Slashed(file);
    var i, n := MarkerIsFirst(p, 0);
    if MarkerEnd(p, 0) > 0 { MarkerBeforeLastSlash(p, 0); }
  }

  lemma {:induction false} SlashesAreCounted(s: string)
    ensures Slashes(s) == multiset(s)['/']
  {
    if s != "" {
      SlashesAreCounted(s[1..]);
      assert s == [s[0]] + s[1..];
    }
  }

  /** The depth of a test directory is the number of slashes behind its first marker,
      save for a lone one. */
  lemma DepthCounts(d: Path, i: nat, n: nat)
    requires TestDirectory(d) && IsMarker(d, i, n) && forall j, k :: 0 <= j < i ==> !IsMarker(d, j, k)
    ensures Depth(d) == if d[i + n..] == "/" then 0 else multiset(d[i + n..])['/']
  {
    hide MarkerAt, MarkerEnd, IsMarker, Depth, Slashes;
    var i', n' := MarkerIsFirst(d, 0);
    forall k { MarkerAtIsMarker(d, i, k); }
    SlashesAreCounted(AfterTest(d));
    DepthIsSlashes(d);
  }

  // ---- components ----

  function Components(s: string): (parts: seq<string>)
    ensures parts != []
  {
    if s == "" then [""]
    else
      var parts := Components(s[1..]);
      if s[0] == '/' then [""] + parts else [[s[0]] + parts[0]] + parts[1..]
  }

  function Join(parts: seq<string>): string {
    if parts == [] then "" else if |parts| == 1 then parts[0] else parts[0] + "/" + Join(parts[1..])
  }

  /** The first `i` components with a slash: the `i`-th ancestor directory. */
  function Candidate(parts: seq<string>, i: nat): string
    requires i <= |parts|
  {
    Join(parts[..i]) + "/"
  }

  /** `a` is a directory above `d`: a proper prefix that ends with a slash. */
  predicate Above(a: Path, d: Path) {
    a < d && a != "" && a[|a| - 1] == '/'
  }

  /** The components, each with a slash. */
  function Terminated(parts: seq<string>): string {
    if parts == [] then "" else parts[0] + "/" + Terminated(parts[1..])
  }

  lemma {:induction false} JoinIsTerminated(parts: seq<string>)
    requires parts != []
    ensures Join(parts) + "/" == Terminated(parts)
  {
    if |parts| == 1 {
      assert parts[1..] == [];
      assert parts[0] + "/" + "" == parts[0] + "/";
    } else {
      JoinIsTerminated(parts[1..]);
      assert parts[0] + "/" + Join(parts[1..]) + "/" == parts[0] + "/" + (Join(parts[1..]) + "/");
    }
  }

  lemma TerminatedFirst(first: string, rest: seq<string>)
    ensures Terminated([first] + rest) == first + "/" + Terminated(rest)
  {
    assert ([first] + rest)[1..] == rest;
  }

  lemma SlashAfter(c: char, a: string, b: string)
    ensures ([c] + a) + "/" + b == [c] + (a + "/" + b)
    ensures "" + "/" + b == "/" + b
  {}

  lemma TerminatedCons(c: char, parts: seq<string>)
    requires parts != []
    ensures Terminated([""] + parts) == "/" + Terminated(parts)
    ensures Terminated([[c] + parts[0]] + parts[1..]) == [c] + Terminated(parts)
  {
    hide Terminated;
    TerminatedFirst("", parts);
    TerminatedFirst([c] + parts[0], parts[1..]);
    TerminatedFirst(parts[0], parts[1..]);
    assert parts == [parts[0]] + parts[1..];
    SlashAfter(c, parts[0], Terminated(parts[1..]));
    SlashAfter(c, "", Terminated(parts));
  }

  lemma ComponentSlices(s: string, i: nat)
    requires s != "" && 1 <= i <= |Components(s)|
    ensures var parts, rest := Components(s), Components(s[1..]);
            if s[0] == '/' then i - 1 <= |rest| && parts[..i] == [""] + rest[..i - 1]
            else i <= |rest| && parts[..i] == [[s[0]] + rest[..i][0]] + rest[..i][1..]
  {
    var rest := Components(s[1..]);
    if s[0] == '/' { TakeCons([], "", rest, i); } else { TakeCons(rest, [s[0]] + rest[0], rest[1..], i); }
  }

  lemma TakeCons(all: seq<string>, first: string, rest: seq<string>, i: nat)
    requires 1 <= i <= |rest| + 1
    ensures ([first] + rest)[..i] == [first] + rest[..i - 1]
    ensures i <= |all| && all[1..] == rest ==> all[..i][1..] == rest[..i - 1] && all[..i][0] == all[0]
  {}

  lemma ConsPrefix(h: char, c: string, t: string, whole: bool)
    requires DirectoryPrefix(c, t, whole)
    ensures DirectoryPrefix([h] + c, [h] + t, whole)
  {
    if [h] + c == [h] + t { assert c == ([h] + c)[1..] == ([h] + t)[1..] == t; }
  }

  /** Dropping the first character of a text, in terms of its candidates. */
  lemma CandidateStep(s: string, i: nat)
    requires s != "" && 1 <= i <= |Components(s)|
    ensures var parts, rest := Components(s), Components(s[1..]);
            if s[0] == '/' then
              i - 1 <= |rest| && Candidate(parts, i) == if i == 1 then "/" else "/" + Candidate(rest, i - 1)
            else
              i <= |rest| && Candidate(parts, i) == [s[0]] + Candidate(rest, i)
  {
    ComponentSlices(s, i);
    hide Components, Join, Terminated;
    var parts, rest := Components(s), Components(s[1..]);
    JoinIsTerminated(parts[..i]);
    if s[0] != '/' {
      JoinIsTerminated(rest[..i]);
      TerminatedCons(s[0], rest[..i]);
    } else if i > 1 {
      JoinIsTerminated(rest[..i - 1]);
      TerminatedCons(s[0], rest[..i - 1]);
    } else {
      assert parts[..i] == [""];
      OneSlash();
    }
  }

  lemma OneSlash()
    ensures Terminated([""]) == "/"
  {
    assert [""][1..] == [] && Terminated([]) == "" && "" + "/" + "" == "/";
  }

  /** `c` is a directory prefix of `t`, and all of it exactly if `whole`. */
  predicate DirectoryPrefix(c: string, t: string, whole: bool) {
    c <= t && c != "" && c[|c| - 1] == '/' && (whole <==> c == t)
  }

  predicate GoodCandidate(s: string, i: nat)
    requires 1 <= i <= |Components(s)|
  {
    && DirectoryPrefix(Candidate(Components(s), i), s + "/", i == |Components(s)|)
    && (i < |Components(s)| ==> |Candidate(Components(s), i)| < |Candidate(Components(s), i + 1)|)
  }

  lemma SlashCons(s: string)
    requires s != ""
    ensures s + "/" == [s[0]] + (s[1..] + "/")
  {}

  lemma EmptyPath()
    ensures |Components("")| == 1 && Candidate(Components(""), 1) == "/" && "" + "/" == "/"
  {
    assert Components("")[..1] == [""] && "" + "/" == "/";
  }

  lemma GoodFromRest(s: string, i: nat, j: nat)
    requires s != "" && 1 <= i <= |Components(s)|
    requires 1 <= j == (if s[0] == '/' then i - 1 else i) <= |Components(s[1..])| && GoodCandidate(s[1..], j)
    ensures GoodCandidate(s, i)
  {
    hide Components, Candidate, DirectoryPrefix;
    CountComponents(s);
    CandidateOfRest(s, i, j);
    if i < |Components(s)| { CandidateOfRest(s, i + 1, j + 1); }
    SlashCons(s);
    ConsPrefix(s[0], Candidate(Components(s[1..]), j), s[1..] + "/", j == |Components(s[1..])|);
  }

  lemma CandidateOfRest(s: string, i: nat, j: nat)
    requires s != "" && 1 <= i <= |Components(s)|
    requires 1 <= j == if s[0] == '/' then i - 1 else i
    ensures j <= |Components(s[1..])| && Candidate(Components(s), i) == [s[0]] + Candidate(Components(s[1..]), j)
  {
    hide Components, Candidate;
    CandidateStep(s, i);
  }

  lemma GoodAtSlash(s: string)
    requires s != "" && s[0] == '/'
    ensures |Components(s)| >= 2 && GoodCandidate(s, 1)
  {
    hide Components, Candidate;
    CountComponents(s);
    CandidateStep(s, 1);
    SlashCons(s);
    CandidateStep(s, 2);
    CandidateNotEmpty(Components(s[1..]), 1);
    assert |s + "/"| > 1;
  }

  /** Candidates are prefixes, and longer for more components. */
  lemma {:induction false} CandidatesArePrefixes(s: string, i: nat)
    requires 1 <= i <= |Components(s)|
    ensures GoodCandidate(s, i)
  {
    hide Components, Candidate, GoodCandidate;
    if s == "" {
      GoodAlone();
    } else {
      CountComponents(s);
      var j := if s[0] == '/' then i - 1 else i;
      if j == 0 {
        GoodAtSlash(s);
      } else {
        CandidatesArePrefixes(s[1..], j);
        GoodFromRest(s, i, j);
      }
    }
  }

  lemma GoodAlone()
    ensures |Components("")| == 1 && GoodCandidate("", 1)
  {
    hide Components, Candidate;
    EmptyPath();
  }

  lemma CandidateNotEmpty(parts: seq<string>, i: nat)
    requires i <= |parts|
    ensures |Candidate(parts, i)| > 0
  {}

  lemma CountComponents(s: string)
    requires s != ""
    ensures |Components(s)| == |Components(s[1..])| + if s[0] == '/' then 1 else 0
  {}

  lemma TakeAfter(h: char, t: string, k: nat)
    requires 1 <= k <= |t| + 1
    ensures ([h] + t)[..k] == [h] + t[..k - 1] && ([h] + t)[k - 1] == (if k == 1 then h else t[k - 2])
  {}

  /** Every prefix that ends with a slash is a candidate. */
  lemma {:induction false} PrefixesAreCandidates(s: string, k: nat) returns (i: nat)
    requires 1 <= k <= |s| + 1 && (s + "/")[k - 1] == '/'
    ensures 1 <= i <= |Components(s)| && Candidate(Components(s), i) == (s + "/")[..k]
    decreases |s|
  {
    hide Components, Candidate;
    if s == "" {
      i := 1;
      EmptyPath();
      assert "/"[..1] == "/";
    } else {
      var rest := s[1..];
      SlashCons(s);
      TakeAfter(s[0], rest + "/", k);
      CountComponents(s);
      if k == 1 {
        i := 1;
        assert (rest + "/")[..0] == "";
      } else {
        var i' := PrefixesAreCandidates(rest, k - 1);
        i := if s[0] == '/' then i' + 1 else i';
      }
      CandidateStep(s, i);
    }
  }

  // ---- the nearest ancestor in a set ----

  lemma SlashSplit(dir: Path)
    requires dir != "" && dir[|dir| - 1] == '/'
    ensures TrimSlash(dir) + "/" == dir
  {}

  /** The nearest directory above `dir` that is in the set. */
  ghost predicate IsParent(dir: Path, dirs: set<Path>, parent: Option<Path>) {
    match parent
    case None => forall a :: a in dirs ==> !Above(a, dir)
    case Some(p) => p in dirs && Above(p, dir) && forall a :: a in dirs && Above(a, dir) ==> |a| <= |p|
  }

  /** The candidates with at least `i` components are exactly the directories
      above `dir` that are at least that long. */
  lemma AboveIsCandidate(dir: Path, a: Path) returns (i: nat)
    requires dir != "" && dir[|dir| - 1] == '/' && Above(a, dir)
    ensures 1 <= i < |Components(TrimSlash(dir))| && Candidate(Components(TrimSlash(dir)), i) == a
  {
    hide Components, Candidate;
    var s := TrimSlash(dir);
    SlashSplit(dir);
    assert (s + "/")[..|a|] == a && (s + "/")[|a| - 1] == a[|a| - 1];
    i := PrefixesAreCandidates(s, |a|);
    CandidatesArePrefixes(s, i);
  }

  lemma CandidateIsAbove(dir: Path, i: nat)
    requires dir != "" && dir[|dir| - 1] == '/' && 1 <= i < |Components(TrimSlash(dir))|
    ensures Above(Candidate(Components(TrimSlash(dir)), i), dir)
  {
    hide Components, Candidate;
    SlashSplit(dir);
    CandidatesArePrefixes(TrimSlash(dir), i);
  }

  lemma {:induction false} CandidatesGrow(s: string, i: nat, j: nat)
    requires 1 <= i <= j <= |Components(s)|
    ensures |Candidate(Components(s), i)| <= |Candidate(Components(s), j)|
    decreases j - i
  {
    hide Components, Candidate;
    if i < j {
      CandidatesArePrefixes(s, i);
      CandidatesGrow(s, i + 1, j);
    }
  }

  method FindParentTestDirectory(dir: Path, dirSet: set<Path>) returns (parent: Option<Path>)
    requires dir != "" && dir[|dir| - 1] == '/'
    ensures IsParent(dir, dirSet, parent)
  {
    hide Components, Candidate, Above;
    var parts := Components(TrimSlash(dir));
    var i: int := |parts| - 1;
    while i >= 1
      invariant 0 <= i <= |parts| - 1
      invariant forall j :: i < j < |parts| ==> Candidate(parts, j) !in dirSet
    {
      var candidate := Candidate(parts, i);
      if candidate in dirSet {
        CandidateIsAbove(dir, i);
        forall a | a in dirSet && Above(a, dir) ensures |a| <= |candidate| {
          var j := AboveIsCandidate(dir, a);
          CandidatesGrow(TrimSlash(dir), j, i);
        }
        return Some(candidate);
      }
      i := i - 1;
    }
    forall a | a in dirSet ensures !Above(a, dir) {
      if Above(a, dir) { var j := AboveIsCandidate(dir, a); }
    }
    return None;
  }

  // ---- following parents ----

  lemma AbovesAreNested(a: Path, b: Path, dir: Path)
    requires Above(a, dir) && Above(b, dir) && |a| < |b|
    ensures Above(a, b)
  {
    assert a == dir[..|a|] && b == dir[..|b|] && b[..|a|] == dir[..|a|];
  }

  lemma AboveIsTransitive(a: Path, b: Path, dir: Path)
    requires Above(a, b) && Above(b, dir)
    ensures Above(a, dir)
  {
    assert a == b[..|a|] && b == dir[..|b|] && dir[..|a|] == b[..|a|];
  }

  /** Parents as a map: every directory of the set to its parent. */
  ghost predicate IsParentMap(dirs: set<Path>, parents: map<Path, Option<Path>>) {
    parents.Keys == dirs && forall d :: d in dirs ==> IsParent(d, dirs, parents[d])
  }

  /** The directories met by following parents from `d`. */
  ghost function Ancestors(dirs: set<Path>, parents: map<Path, Option<Path>>, d: Path): (chain: seq<Path>)
    requires IsParentMap(dirs, parents) && d in dirs
    decreases |d|
  {
    match parents[d]
    case None => []
    case Some(p) => [p] + Ancestors(dirs, parents, p)
  }

  /** Following parents reaches exactly the directories of the set above `d`. */
  lemma {:induction false} AncestorsAreThoseAbove(dirs: set<Path>, parents: map<Path, Option<Path>>, d: Path, a: Path)
    requires IsParentMap(dirs, parents) && d in dirs
    ensures a in Ancestors(dirs, parents, d) <==> a in dirs && Above(a, d)
    decreases |d|
  {
    hide Above;
    match parents[d]
    case None =>
    case Some(p) =>
      AboveIsShorter(p, d);
      AncestorsAreThoseAbove(dirs, parents, p, a);
      if Above(a, p) { AboveIsTransitive(a, p, d); }
      if a in dirs && Above(a, d) && a != p {
        if |a| < |p| { AbovesAreNested(a, p, d); } else { SameLength(a, p, d); }
      }
  }

  lemma AboveIsShorter(a: Path, d: Path)
    requires Above(a, d)
    ensures |a| < |d|
  {}

  lemma SameLength(a: Path, b: Path, d: Path)
    requires Above(a, d) && Above(b, d) && |a| == |b|
    ensures a == b
  {
    assert a == d[..|a|] && b == d[..|b|];
  }

  // ---- depth ----

  lemma SlashedIsSame(d: Path)
    requires '\\' !in d
    ensures Slashed(d) == d
  {}

  /** The first marker of a directory is the first marker of everything below it. */
  lemma {:induction false} MarkerOfPrefix(a: Path, d: Path, i: nat)
    requires a <= d && i <= |a| && MarkerEnd(a, i) > 0
    ensures MarkerEnd(d, i) == MarkerEnd(a, i)
    decreases |a| - i
  {
    MarkerInPrefix(a, d, i);
    if MarkerAt(a, i) == 0 {
      MarkerFits(a, i + 1);
      MarkerOfPrefix(a, d, i + 1);
    }
  }

  /** A marker that ends by the end of the prefix is seen in both. */
  lemma MarkerInPrefix(a: Path, d: Path, i: nat)
    requires a <= d && i <= |a| && MarkerEnd(a, i) > 0
    ensures MarkerAt(d, i) == MarkerAt(a, i)
  {
    assert a == d[..|a|] && a[i..] == d[i..][..|a| - i];
    if MarkerAt(a, i) == 0 {
      assert i + 11 <= |a|;
      assert forall m: string :: |m| <= 11 ==> (m <= d[i..] <==> m <= a[i..]);
    }
  }

  lemma MarkerFits(a: Path, i: nat)
    requires i <= |a| && MarkerEnd(a, i) > 0
    ensures i + 10 <= |a|
  {}

  lemma {:induction false} SlashesConcat(a: string, b: string)
    ensures Slashes(a + b) == Slashes(a) + Slashes(b)
  {
    if a == "" {
      assert a + b == b;
    } else {
      assert (a + b)[1..] == a[1..] + b;
      SlashesConcat(a[1..], b);
    }
  }

  /** The depth of a test directory is the number of slashes below its marker;
      only a second slash right at the marker is not counted. */
  lemma DepthIsSlashes(d: Path)
    requires TestDirectory(d)
    ensures Depth(d) == if AfterTest(d) == "/" then 0 else Slashes(AfterTest(d))
  {
    SlashedIsSame(d);
    var below := AfterTest(d);
    if below != "" {
      assert below[|below| - 1] == '/' && below == TrimSlash(below) + "/";
      SlashesConcat(TrimSlash(below), "/");
      assert "/"[1..] == "";
    }
  }

  lemma EndsInSlash(s: string)
    requires s != "" && s[|s| - 1] == '/'
    ensures Slashes(s) > 0
  {
    assert s == s[..|s| - 1] + "/";
    SlashesConcat(s[..|s| - 1], "/");
    assert "/"[1..] == "";
  }

  lemma DropInFirst(a: string, rest: string, e: nat)
    requires e <= |a|
    ensures (a + rest)[e..] == a[e..] + rest && a <= a + rest
  {}

  lemma AfterPrefix(a: Path, rest: string)
    requires MarkerEnd(a, 0) > 0
    ensures AfterTest(a + rest) == AfterTest(a) + rest
  {
    DropInFirst(a, rest, MarkerEnd(a, 0));
    MarkerOfPrefix(a, a + rest, 0);
    hide MarkerEnd;
  }

  lemma AboveSplits(a: Path, d: Path)
    requires Above(a, d)
    ensures d == a + d[|a|..] && d[|a|..] != "" && d[|a|..][|d[|a|..]| - 1] == d[|d| - 1]
  {}

  /** A directory above another is strictly shallower, exactly unless the lower
      one is the marker followed by an empty component. */
  lemma AboveIsShallower(a: Path, d: Path)
    requires TestDirectory(a) && TestDirectory(d) && Above(a, d)
    ensures Depth(a) < Depth(d) <==> AfterTest(d) != "/"
  {
    hide Depth, MarkerEnd, Slashes, AfterTest, Above;
    DepthIsSlashes(a);
    DepthIsSlashes(d);
    AboveSplits(a, d);
    var rest := d[|a|..];
    AfterPrefix(a, rest);
    EndsInSlash(rest);
    SlashesConcat(AfterTest(a), rest);
    EmptySlashes();
    if AfterTest(d) == "/" { assert |AfterTest(a)| + |rest| == 1 && AfterTest(a) == ""; }
  }

  /** With an empty component right at the marker, child and parent are equally deep. */
  lemma EqualDepthExample()
    ensures var a, d := "a/__test__/", "a/__test__//";
            TestDirectory(a) && TestDirectory(d) && Above(a, d) && Depth(a) == Depth(d) == 0
  {
    var a, d := "a/__test__/", "a/__test__//";
    assert a[1..] == "/__test__/" && d[1..] == "/__test__//" && d[1..][..10] == "/__test__/";
    assert MarkerAt(a, 1) == 10 && MarkerAt(d, 1) == 10;
    assert MarkerAt(a, 0) == 0 && MarkerAt(d, 0) == 0 by { assert a[0] == 'a' && d[0] == 'a'; }
    hide Slashes, MarkerAt, Depth;
    assert AfterTest(a) == "" && AfterTest(d) == "/";
    DepthIsSlashes(a);
    DepthIsSlashes(d);
    EmptySlashes();
  }

  lemma EmptySlashes()
    ensures Slashes("") == 0
  {}

  lemma ExtractedIsTestDirectory(file: Path)
    requires ExtractTestDirectory(file) != ""
    ensures TestDirectory(ExtractTestDirectory(file))
  {
    var p := Slashed(file);
    var d := p[..LastSlash(p)];
    MarkerBeforeLastSlash(p, 0);
    MarkerWithin(p, 0, |d|);
  }

  lemma MarkerBeforeLastSlash(p: Path, i: nat)
    requires i <= |p| && MarkerEnd(p, i) > 0
    ensures MarkerEnd(p, i) <= LastSlash(p)
  {}

  /** Cutting a path at or after the end of its first marker keeps the marker. */
  lemma {:induction false} MarkerWithin(p: Path, i: nat, k: nat)
    requires i <= k <= |p| && 0 < MarkerEnd(p, i) <= k
    ensures MarkerEnd(p[..k], i) == MarkerEnd(p, i)
    decreases |p| - i
  {
    var n := MarkerAt(p, i);
    assert p[..k][i..] == p[i..][..k - i];
    if n == 0 { MarkerWithin(p, i + 1, k); }
  }

  // ---- the batch ----

  datatype DirInfo = DirInfo(path: Path, parent: Option<Path>, depth: nat)

  function Insert<T>(before: (T, T) -> bool, r: seq<T>, x: T): seq<T> {
    if r == [] || before(x, r[0]) then [x] + r else [r[0]] + Insert(before, r[1..], x)
  }

  /** The library sort, by an order on elements. */
  function Sort<T>(before: (T, T) -> bool, xs: seq<T>): seq<T> {
    if xs == [] then [] else Insert(before, Sort(before, xs[1..]), xs[0])
  }

  lemma {:induction false} InsertKeeps<T>(before: (T, T) -> bool, r: seq<T>, x: T, y: T)
    ensures |Insert(before, r, x)| == |r| + 1
    ensures y in Insert(before, r, x) <==> y == x || y in r
  {
    if r != [] && !before(x, r[0]) {
      InsertKeeps(before, r[1..], x, y);
      assert r == [r[0]] + r[1..];
    }
  }

  lemma {:induction false} SortKeeps<T>(before: (T, T) -> bool, xs: seq<T>, y: T)
    ensures |Sort(before, xs)| == |xs| && (y in Sort(before, xs) <==> y in xs)
  {
    if xs != [] {
      SortKeeps(before, xs[1..], y);
      InsertKeeps(before, Sort(before, xs[1..]), xs[0], y);
      assert xs == [xs[0]] + xs[1..];
    }
  }

  predicate Shallower(a: DirInfo, b: DirInfo) { a.depth <= b.depth }

  predicate SortedByDepth(r: seq<DirInfo>) {
    forall i, j :: 0 <= i < j < |r| ==> r[i].depth <= r[j].depth
  }

  lemma {:induction false} InsertSorts(r: seq<DirInfo>, x: DirInfo)
    requires SortedByDepth(r)
    ensures SortedByDepth(Insert(Shallower, r, x))
  {
    if r != [] && !Shallower(x, r[0]) {
      InsertSorts(r[1..], x);
      var q := Insert(Shallower, r[1..], x);
      forall j | 0 <= j < |q| ensures r[0].depth <= q[j].depth {
        InsertKeeps(Shallower, r[1..], x, q[j]);
        if q[j] != x {
          var k :| 0 <= k < |r[1..]| && r[1..][k] == q[j];
          assert r[k + 1] == q[j];
        }
      }
    }
  }

  lemma {:induction false} SortSorts(xs: seq<DirInfo>)
    ensures SortedByDepth(Sort(Shallower, xs))
  {
    if xs != [] {
      SortSorts(xs[1..]);
      InsertSorts(Sort(Shallower, xs[1..]), xs[0]);
    }
  }

  predicate PathBefore(a: Path, b: Path) {
    a == "" || (b != "" && (a[0] < b[0] || (a[0] == b[0] && PathBefore(a[1..], b[1..]))))
  }

  function TestDirectories(files: seq<Path>): set<Path> {
    set f | f in files && ExtractTestDirectory(f) != "" :: ExtractTestDirectory(f)
  }

  /** A row describes a directory of the set truly. */
  ghost predicate TrueRow(dirs: set<Path>, row: DirInfo) {
    row.path in dirs && IsParent(row.path, dirs, row.parent) && row.depth == Depth(row.path)
  }

  /** One row for every directory, by depth. */
  ghost predicate IsBatch(dirs: set<Path>, batch: seq<DirInfo>) {
    && |batch| == |dirs| && SortedByDepth(batch)
    && (forall k :: 0 <= k < |batch| ==> TrueRow(dirs, batch[k]))
    && (forall d :: d in dirs ==> exists k :: 0 <= k < |batch| && batch[k].path == d)
  }

  lemma AddToSet(s: set<Path>, d: Path)
    ensures if d in s then s + {d} == s else |s + {d}| == |s| + 1
  {}

  lemma NoTestDirectories()
    ensures TestDirectories([]) == {}
  {}

  lemma OneMoreFile(files: seq<Path>, file: Path)
    ensures var dir := ExtractTestDirectory(file);
            TestDirectories(files + [file]) == TestDirectories(files) + if dir == "" then {} else {dir}
  {
    hide ExtractTestDirectory;
    var dir := ExtractTestDirectory(file);
    var all := files + [file];
    assert all[|files|] == file && all[..|files|] == files;
    forall d ensures d in TestDirectories(all) <==> d in TestDirectories(files) || (d == dir && d != "") {
      if d in TestDirectories(files) {
        var f :| f in files && ExtractTestDirectory(f) == d;
        assert f in all;
      }
    }
  }

  method CollectDirectories(files: seq<Path>) returns (dirSet: set<Path>, dirs: seq<Path>)
    ensures dirSet == TestDirectories(files) && |dirs| == |dirSet|
    ensures forall d :: d in dirs <==> d in dirSet
    ensures forall d :: d in dirs ==> TestDirectory(d)
  {
    dirSet, dirs := {}, [];
    hide ExtractTestDirectory, TestDirectory, TestDirectories;
    NoTestDirectories();
    for i := 0 to |files|
      invariant dirSet == TestDirectories(files[..i]) && |dirs| == |dirSet|
      invariant forall d :: d in dirs <==> d in dirSet
      invariant forall d :: d in dirs ==> TestDirectory(d)
    {
      var dir := ExtractTestDirectory(files[i]);
      assert files[..i + 1] == files[..i] + [files[i]];
      OneMoreFile(files[..i], files[i]);
      if dir != "" {
        ExtractedIsTestDirectory(files[i]);
        if dir !in dirSet {
          dirs := dirs + [dir];
        }
        AddToSet(dirSet, dir);
        dirSet := dirSet + {dir};
      }
    }
    assert files[..|files|] == files;
  }

  /** The rows to insert for the test directories of the files. */
  method InsertTestDirectories(files: seq<Path>) returns (batch: seq<DirInfo>)
    ensures IsBatch(TestDirectories(files), batch)
  {
    hide TestDirectories, IsParent, Depth, TestDirectory, Sort;
    var dirSet, found := CollectDirectories(files);
    var dirs := Sort(PathBefore, found);
    forall d ensures d in dirs <==> d in dirSet { SortKeeps(PathBefore, found, d); }
    SortKeeps(PathBefore, found, "");
    var infos: seq<DirInfo> := [];
    for i := 0 to |dirs|
      invariant |infos| == i
      invariant forall k :: 0 <= k < i ==> infos[k].path == dirs[k] && TrueRow(dirSet, infos[k])
    {
      assert dirs[i] in dirs && dirs[i] in found;
      TestDirectoryEnds(dirs[i]);
      var parent := FindParentTestDirectory(dirs[i], dirSet);
      infos := infos + [DirInfo(dirs[i], parent, Depth(dirs[i]))];
    }
    batch := Sort(Shallower, infos);
    BatchOfInfos(dirSet, dirs, infos);
  }

  lemma TestDirectoryEnds(d: Path)
    requires TestDirectory(d)
    ensures d != "" && d[|d| - 1] == '/'
  {}

  lemma SortLength(infos: seq<DirInfo>)
    ensures |Sort(Shallower, infos)| == |infos|
  {
    SortKeeps(Shallower, infos, DirInfo("", None, 0));
  }

  lemma BatchOfInfos(dirSet: set<Path>, dirs: seq<Path>, infos: seq<DirInfo>)
    requires |dirs| == |dirSet| == |infos| && forall d :: d in dirs <==> d in dirSet
    requires forall k :: 0 <= k < |infos| ==> infos[k].path == dirs[k] && TrueRow(dirSet, infos[k])
    ensures IsBatch(dirSet, Sort(Shallower, infos))
  {
    hide TrueRow, Sort;
    var batch := Sort(Shallower, infos);
    SortSorts(infos);
    forall x ensures x in batch <==> x in infos { SortKeeps(Shallower, infos, x); }
    SortLength(infos);
    forall k | 0 <= k < |batch| ensures TrueRow(dirSet, batch[k]) {
      assert batch[k] in infos;
    }
    forall d | d in dirSet ensures exists k :: 0 <= k < |batch| && batch[k].path == d {
      var i :| 0 <= i < |dirs| && dirs[i] == d;
      assert infos[i] in batch;
      var k :| 0 <= k < |batch| && batch[k] == infos[i];
      assert batch[k].path == d;
    }
  }

  /** Without empty components at a marker, every row comes after the row of its
      parent, whatever the order among rows of equal depth. */
  lemma ParentsComeFirst(dirs: set<Path>, batch: seq<DirInfo>, k: nat)
    requires IsBatch(dirs, batch) && k < |batch| && batch[k].parent.Some?
    requires forall d :: d in dirs ==> TestDirectory(d) && AfterTest(d) != "/"
    ensures exists j :: 0 <= j < k && batch[j].path == batch[k].parent.value
  {
    hide Depth, TestDirectory, AfterTest, Above;
    assert TrueRow(dirs, batch[k]);
    var p := batch[k].parent.value;
    var j :| 0 <= j < |batch| && batch[j].path == p;
    assert TrueRow(dirs, batch[j]);
    AboveIsShallower(p, batch[k].path);
  }
}
