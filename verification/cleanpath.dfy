/**
 Lexical path cleaning in the manner of Go's `path.Clean`, formulated over
 path elements: the path is split at `/`, empty and `.` elements are dropped,
 `..` removes the preceding element (at the root it is dropped, in a relative
 path that has nothing left to remove it is kept), and the survivors are
 joined again, prefixed by `/` when the input was rooted. An empty relative
 result is `.`.
 */
module CleanPath {

  /** A path element that names something: non-empty, no separator, not `.` or `..`. */
  predicate IsName(seg: string) {
    seg != "" && seg != "." && seg != ".." && '/' !in seg
  }

  /** The path starts at the root. */
  predicate IsRooted(p: string) {
    |p| > 0 && p[0] == '/'
  }

  /** Elements joined with `/` between them. */
  function Join(segs: seq<string>): string
  {
    if |segs| == 0 then ""
    else if |segs| == 1 then segs[0]
    else segs[0] + "/" + Join(segs[1..])
  }

  /** The elements of `s` between separators; `Join` puts them back together. */
  function Split(s: string): (segs: seq<string>)
    ensures |segs| >= 1
    ensures forall i :: 0 <= i < |segs| ==> '/' !in segs[i]
    ensures Join(segs) == s
  {
    if s == [] then [""]
    else
      var rest := Split(s[1..]);
      if s[0] == '/' then
        assert s == "/" + s[1..];
        [""] + rest
      else
        var segs := [[s[0]] + rest[0]] + rest[1..];
        assert Join(segs) == s by {
          if |rest| > 1 {
            assert segs[1..] == rest[1..];
            assert Join(rest) == rest[0] + "/" + Join(rest[1..]);
          }
        }
        segs
  }

  /** Processing of one element against the stack of surviving elements. */
  function Step(acc: seq<string>, seg: string, rooted: bool): seq<string>
  {
    if seg == "" || seg == "." then acc
    else if seg == ".." then
      if |acc| > 0 && acc[|acc| - 1] != ".." then acc[..|acc| - 1]
      else if rooted then acc
      else acc + [".."]
    else acc + [seg]
  }

  /** Processing of all elements, left to right. */
  function Resolve(acc: seq<string>, segs: seq<string>, rooted: bool): seq<string>
    decreases |segs|
  {
    if segs == [] then acc else Resolve(Step(acc, segs[0], rooted), segs[1..], rooted)
  }

  /**
   The shape of a cleaned element list: only names and `..`, no `..` at all
   when rooted, and every `..` comes before every name.
   */
  ghost predicate Canonical(st: seq<string>, rooted: bool) {
    && (forall i :: 0 <= i < |st| ==> IsName(st[i]) || (!rooted && st[i] == ".."))
    && (forall i, j :: 0 <= i < j < |st| && st[j] == ".." ==> st[i] == "..")
  }

  /** The surviving elements of `p`. */
  function CleanSegments(p: string): seq<string>
  {
    Resolve([], Split(p), IsRooted(p))
  }

  /** `path.Clean`. */
  function Clean(p: string): (r: string)
    ensures |r| > 0
    ensures r[0] == '/' <==> IsRooted(p)
    ensures r[|r| - 1] == '/' ==> r == "/"
  {
    CleanSegmentsProper(p);
    Assemble(CleanSegments(p), IsRooted(p))
  }

  /** Elements that are non-empty and free of separators. */
  predicate Proper(st: seq<string>) {
    forall i :: 0 <= i < |st| ==> st[i] != "" && '/' !in st[i]
  }

  /** The cleaned path built from its surviving elements: `/` or `.` when none survive. */
  function Assemble(st: seq<string>, rooted: bool): (r: string)
    requires Proper(st)
    ensures |r| > 0
    ensures r[0] == '/' <==> rooted
    ensures r[|r| - 1] == '/' ==> r == "/"
  {
    if st == [] then (if rooted then "/" else ".")
    else
      JoinEnds(st);
      if rooted then "/" + Join(st) else Join(st)
  }

  /** The surviving elements of a path are non-empty and free of separators. */
  lemma CleanSegmentsProper(p: string)
    ensures Proper(CleanSegments(p))
  {
    var st := CleanSegments(p);
    CleanSegmentsCanonical(p);
    forall i | 0 <= i < |st|
      ensures st[i] != "" && '/' !in st[i]
    {
      assert IsName(st[i]) || st[i] == "..";
    }
  }

  /** One step on a separator-free element keeps the stack canonical. */
  lemma StepCanonical(acc: seq<string>, seg: string, rooted: bool)
    requires Canonical(acc, rooted) && '/' !in seg
    ensures Canonical(Step(acc, seg, rooted), rooted)
  {
    if seg == ".." && !(|acc| > 0 && acc[|acc| - 1] != "..") && !rooted {
      var r := acc + [".."];
      forall i, j | 0 <= i < j < |r| && r[j] == ".."
        ensures r[i] == ".."
      {
        if j == |acc| {
          assert acc[|acc| - 1] == "..";
        }
      }
    }
  }

  /** Processing separator-free elements keeps the stack canonical. */
  lemma {:induction false} ResolveCanonical(acc: seq<string>, segs: seq<string>, rooted: bool)
    requires Canonical(acc, rooted)
    requires forall i :: 0 <= i < |segs| ==> '/' !in segs[i]
    ensures Canonical(Resolve(acc, segs, rooted), rooted)
    decreases |segs|
  {
    if segs != [] {
      StepCanonical(acc, segs[0], rooted);
      ResolveCanonical(Step(acc, segs[0], rooted), segs[1..], rooted);
    }
  }

  /** The cleaned elements of any path are canonical. */
  lemma CleanSegmentsCanonical(p: string)
    ensures Canonical(CleanSegments(p), IsRooted(p))
  {
    ResolveCanonical([], Split(p), IsRooted(p));
  }

  /** Joining non-empty separator-free elements neither starts nor ends with `/`. */
  lemma {:induction false} JoinEnds(st: seq<string>)
    requires |st| > 0 && Proper(st)
    ensures |Join(st)| > 0
    ensures Join(st)[0] == st[0][0]
    ensures Join(st)[|Join(st)| - 1] == st[|st| - 1][|st[|st| - 1]| - 1]
  {
    if |st| == 1 {
      assert Join(st) == st[0];
    } else {
      var rest := st[1..];
      JoinEnds(rest);
      assert Join(st) == st[0] + "/" + Join(rest);
      assert rest[|rest| - 1] == st[|st| - 1];
    }
  }

  /** A separator-free string is a single element. */
  lemma {:induction false} SplitSingle(a: string)
    requires '/' !in a
    ensures Split(a) == [a]
  {
    if a != [] {
      SplitSingle(a[1..]);
    }
  }

  /** Splitting past a leading separator-free element yields that element first. */
  lemma {:induction false} SplitAfterElement(a: string, t: string)
    requires '/' !in a
    ensures Split(a + "/" + t) == [a] + Split(t)
  {
    var s := a + "/" + t;
    if a == [] {
      assert s == "/" + t && s[1..] == t;
    } else {
      assert s[0] == a[0] && s[1..] == a[1..] + "/" + t;
      SplitAfterElement(a[1..], t);
      var rest := Split(s[1..]);
      assert rest[0] == a[1..] && rest[1..] == Split(t);
      assert [s[0]] + rest[0] == a;
    }
  }

  /** `Split` undoes `Join` on a non-empty list of separator-free elements. */
  lemma {:induction false} SplitJoin(st: seq<string>)
    requires |st| >= 1
    requires forall i :: 0 <= i < |st| ==> '/' !in st[i]
    ensures Split(Join(st)) == st
  {
    if |st| == 1 {
      SplitSingle(st[0]);
    } else {
      SplitAfterElement(st[0], Join(st[1..]));
      SplitJoin(st[1..]);
    }
  }

  /** Processing elements that already form a canonical stack pushes each of them. */
  lemma {:induction false} ResolveCanonicalIsAppend(acc: seq<string>, st: seq<string>, rooted: bool)
    requires Canonical(acc + st, rooted)
    ensures Resolve(acc, st, rooted) == acc + st
    decreases |st|
  {
    if st != [] {
      var all := acc + st;
      assert all[|acc|] == st[0];
      if st[0] == ".." && |acc| > 0 {
        assert all[|acc| - 1] == "..";
      }
      assert Step(acc, st[0], rooted) == acc + [st[0]];
      assert (acc + [st[0]]) + st[1..] == all;
      ResolveCanonicalIsAppend(acc + [st[0]], st[1..], rooted);
    }
  }

  /** Canonical elements are kept as they are. */
  lemma ResolveCanonicalIsIdentity(st: seq<string>, rooted: bool)
    requires Canonical(st, rooted)
    ensures Resolve([], st, rooted) == st
  {
    assert [] + st == st;
    ResolveCanonicalIsAppend([], st, rooted);
  }

  /** An empty element is skipped. */
  lemma ResolveSkipsEmpty(acc: seq<string>, st: seq<string>, rooted: bool)
    ensures Resolve(acc, [""] + st, rooted) == Resolve(acc, st, rooted)
  {
    assert ([""] + st)[1..] == st;
  }

  /** Proper names form a canonical rooted stack. */
  lemma NamesCanonical(st: seq<string>)
    requires forall i :: 0 <= i < |st| ==> IsName(st[i])
    ensures Canonical(st, true) && Proper(st)
  {
  }

  /** Splitting a rooted path of proper elements yields an empty element, then those elements. */
  lemma SplitRooted(st: seq<string>)
    requires |st| >= 1 && Proper(st)
    ensures Split("/" + Join(st)) == [""] + st
  {
    assert "/" + Join(st) == "" + "/" + Join(st);
    SplitAfterElement("", Join(st));
    SplitJoin(st);
  }

  /** The elements of a rooted path made of proper names all survive cleaning. */
  lemma CleanSegmentsOfRootedNames(st: seq<string>)
    requires |st| >= 1
    requires forall i :: 0 <= i < |st| ==> IsName(st[i])
    ensures CleanSegments("/" + Join(st)) == st
  {
    NamesCanonical(st);
    SplitRooted(st);
    ResolveSkipsEmpty([], st, true);
    ResolveCanonicalIsIdentity(st, true);
  }

  /** A rooted path made of proper names is already clean. */
  lemma CleanRootedNames(st: seq<string>)
    requires |st| >= 1
    requires forall i :: 0 <= i < |st| ==> IsName(st[i])
    ensures Clean("/" + Join(st)) == "/" + Join(st)
  {
    CleanSegmentsOfRootedNames(st);
  }

  /** The elements of a canonical stack survive cleaning of the path they spell. */
  lemma CleanSegmentsOfClean(p: string)
    ensures CleanSegments(Clean(p)) == CleanSegments(p)
  {
    var st := CleanSegments(p);
    CleanSegmentsCanonical(p);
    CleanSegmentsProper(p);
    if st == [] {
      if IsRooted(p) {
        assert "/" == "" + "/" + "";
        SplitAfterElement("", "");
        ResolveSkipsEmpty([], [""], true);
      } else {
        SplitSingle(".");
      }
    } else if IsRooted(p) {
      SplitRooted(st);
      ResolveSkipsEmpty([], st, true);
      ResolveCanonicalIsIdentity(st, true);
    } else {
      SplitJoin(st);
      ResolveCanonicalIsIdentity(st, false);
    }
  }

  /** Cleaning a cleaned path changes nothing. */
  lemma CleanIdempotent(p: string)
    ensures Clean(Clean(p)) == Clean(p)
  {
    CleanSegmentsOfClean(p);
  }

  /** The elements of `/a/../b`. */
  lemma SplitDotDot(a: string, b: string)
    requires IsName(a) && IsName(b)
    ensures Split("/" + a + "/../" + b) == ["", a, "..", b]
  {
    assert "/" + a + "/../" + b == "" + "/" + (a + "/" + (".." + "/" + b));
    SplitAfterElement("", a + "/" + (".." + "/" + b));
    SplitAfterElement(a, ".." + "/" + b);
    SplitAfterElement("..", b);
    SplitSingle(b);
  }

  /**
   `..` cancels the name before it: `/a/../b` cleans to `/b` for any names
   `a` and `b` (so `/a/../b.js` is looked up as `/b.js`).
   */
  lemma DotDotCancels(a: string, b: string)
    requires IsName(a) && IsName(b)
    ensures Clean("/" + a + "/../" + b) == Clean("/" + b) == "/" + b
  {
    var p := "/" + a + "/../" + b;
    var segs := ["", a, "..", b];
    SplitDotDot(a, b);
    assert Resolve([], segs, true) == Resolve([], segs[1..], true);
    assert Resolve([], segs[1..], true) == Resolve([a], segs[2..], true);
    assert Resolve([a], segs[2..], true) == Resolve([], segs[3..], true);
    assert CleanSegments(p) == [b];
    assert Join([b]) == b;
    CleanRootedNames([b]);
  }
}
