/**
 Left trimming of a string by a single-character cut set, as Go's
 `strings.TrimLeft(s, "/")` does it: every leading occurrence of the
 character is removed, not only the first one.
 */
module Strs {

  /** Every character of `s` is `c`. */
  predicate AllChar(s: string, c: char) {
    forall i :: 0 <= i < |s| ==> s[i] == c
  }

  /** `n` copies of `c`. */
  function Repeat(c: char, n: nat): (r: string)
    ensures |r| == n && AllChar(r, c)
  {
    if n == 0 then "" else [c] + Repeat(c, n - 1)
  }

  /**
   `r` is `s` with its maximal leading run of `c` removed: `r` is a suffix of
   `s`, the part cut off consists of `c` only, and `r` does not start with `c`.
   */
  ghost predicate IsLeftTrim(s: string, c: char, r: string) {
    && |r| <= |s|
    && r == s[|s| - |r|..]
    && AllChar(s[..|s| - |r|], c)
    && (r == [] || r[0] != c)
  }

  /** The recursive formulation of the trim. */
  function TrimLeft(s: string, c: char): (r: string)
    ensures IsLeftTrim(s, c, r)
  {
    if |s| > 0 && s[0] == c then
      var r := TrimLeft(s[1..], c);
      LeftTrimExtends(s, c, r);
      r
    else s
  }

  /** A left trim of `s[1..]` is a left trim of `s` when `s` starts with `c`. */
  lemma LeftTrimExtends(s: string, c: char, r: string)
    requires |s| > 0 && s[0] == c
    requires IsLeftTrim(s[1..], c, r)
    ensures IsLeftTrim(s, c, r)
  {
    var k := |s| - |r|;
    assert s[..k] == [c] + s[1..][..k - 1];
  }

  /** At most one string is the left trim of `s`. */
  lemma LeftTrimUnique(s: string, c: char, r1: string, r2: string)
    requires IsLeftTrim(s, c, r1) && IsLeftTrim(s, c, r2)
    ensures r1 == r2
  {
    // every character cut off for either trim is `c`, while each trim's first character is not
    assert forall i :: 0 <= i < |s| - |r1| ==> s[..|s| - |r1|][i] == s[i] == c;
    assert forall i :: 0 <= i < |s| - |r2| ==> s[..|s| - |r2|][i] == s[i] == c;
    assert |r1| > 0 ==> s[|s| - |r1|] == r1[0] != c;
    assert |r2| > 0 ==> s[|s| - |r2|] == r2[0] != c;
  }

  /** The trim is exactly characterised by `IsLeftTrim`, in both directions. */
  lemma TrimLeftCharacterised(s: string, c: char, r: string)
    ensures IsLeftTrim(s, c, r) <==> r == TrimLeft(s, c)
  {
    if IsLeftTrim(s, c, r) {
      LeftTrimUnique(s, c, r, TrimLeft(s, c));
    }
  }

  /** The byte loop Go runs for a one-byte cut set: drop the first character while it is `c`. */
  method TrimLeftByte(s: string, c: char) returns (r: string)
    ensures IsLeftTrim(s, c, r)
    ensures r == TrimLeft(s, c)
  {
    r := s;
    while |r| > 0 && r[0] == c
      invariant |r| <= |s|
      invariant r == s[|s| - |r|..]
      invariant AllChar(s[..|s| - |r|], c)
    {
      assert s[..|s| - |r| + 1] == s[..|s| - |r|] + [r[0]];
      r := r[1..];
    }
    LeftTrimUnique(s, c, r, TrimLeft(s, c));
  }

  /** Trimming twice is trimming once. */
  lemma TrimLeftIdempotent(s: string, c: char)
    ensures TrimLeft(TrimLeft(s, c), c) == TrimLeft(s, c)
  {
  }

  /** Any number of extra leading `c` makes no difference to the trim. */
  lemma TrimLeftIgnoresLeadingRun(n: nat, s: string, c: char)
    ensures TrimLeft(Repeat(c, n) + s, c) == TrimLeft(s, c)
  {
    var t := Repeat(c, n) + s;
    var r := TrimLeft(s, c);
    var k := |s| - |r|;
    assert t[..|t| - |r|] == Repeat(c, n) + s[..k];
    assert t[|t| - |r|..] == s[k..];
    assert IsLeftTrim(t, c, r);
    LeftTrimUnique(t, c, r, TrimLeft(t, c));
  }

  /** The trim leaves a string that does not start with `c` untouched. */
  lemma TrimLeftKeepsUnprefixed(s: string, c: char)
    requires s == [] || s[0] != c
    ensures TrimLeft(s, c) == s
  {
  }
}
