/**
 * Substring search and separator splitting on strings, as Python's
 * `str.find`, `str.split(sep)` and `sep.join(...)` behave on them.
 */
module Strings {
  import opened Wrappers

  /** `pat` occurs in `s` starting at index `i`. */
  predicate OccursAt(s: string, pat: string, i: nat) {
    i + |pat| <= |s| && s[i..i + |pat|] == pat
  }

  /** `pat` is a substring of `s`. */
  ghost predicate Contains(s: string, pat: string) {
    exists i: nat :: OccursAt(s, pat, i)
  }

  /** An occurrence in a suffix is an occurrence in the whole string, shifted by `k`. */
  lemma OccursShift(s: string, pat: string, k: nat, j: nat)
    requires k <= |s|
    ensures OccursAt(s[k..], pat, j) <==> OccursAt(s, pat, j + k)
  {
    if j + k + |pat| <= |s| {
      assert s[k..][j..j + |pat|] == s[j + k..j + k + |pat|];
    }
  }

  /** An occurrence in a prefix is an occurrence in the whole string, at the same index. */
  lemma OccursInPrefix(s: string, pat: string, k: nat, j: nat)
    requires k <= |s| && OccursAt(s[..k], pat, j)
    ensures OccursAt(s, pat, j) && j + |pat| <= k
  {
    assert s[..k][j..j + |pat|] == s[j..j + |pat|];
  }

  /** Leftmost occurrence of `pat` in `s` (Python's `s.find(pat)`, with `None` for -1). */
  function Find(s: string, pat: string): (r: Option<nat>)
    ensures r.Some? ==> OccursAt(s, pat, r.value)
    ensures r.Some? ==> forall j: nat :: j < r.value ==> !OccursAt(s, pat, j)
    ensures r.None? <==> !Contains(s, pat)
    decreases |s|
  {
    if |s| < |pat| then
      None
    else if s[..|pat|] == pat then
      Some(0)
    else
      assert !OccursAt(s, pat, 0);
      assert forall j: nat :: OccursAt(s[1..], pat, j) <==> OccursAt(s, pat, j + 1) by {
        forall j: nat ensures OccursAt(s[1..], pat, j) <==> OccursAt(s, pat, j + 1) {
          OccursShift(s, pat, 1, j);
        }
      }
      match Find(s[1..], pat)
      case None =>
        assert forall j: nat :: !OccursAt(s, pat, j) by {
          forall j: nat ensures !OccursAt(s, pat, j) {
            if j > 0 { assert !OccursAt(s[1..], pat, j - 1); }
          }
        }
        None
      case Some(i) =>
        assert forall j: nat :: j < i + 1 ==> !OccursAt(s, pat, j) by {
          forall j: nat | j < i + 1 ensures !OccursAt(s, pat, j) {
            if j > 0 { assert !OccursAt(s[1..], pat, j - 1); }
          }
        }
        Some(i + 1)
  }

  /** Python's `s.split(sep)` for a non-empty separator: the pieces between
      successive non-overlapping occurrences of `sep`, scanning left to right.
      Every cut but the last is at the leftmost occurrence after the previous
      one: no occurrence of `sep` starts inside a part. */
  function Split(s: string, sep: string): (parts: seq<string>)
    requires sep != []
    ensures |parts| >= 1
    ensures |parts| == 1 <==> !Contains(s, sep)
    ensures forall k :: 0 <= k < |parts| ==> !Contains(parts[k], sep)
    ensures forall k :: 0 <= k < |parts| - 1 ==> !Contains(parts[k] + sep[..|sep| - 1], sep)
    decreases |s|
  {
    match Find(s, sep)
    case None => [s]
    case Some(i) =>
      var rest := Split(s[i + |sep|..], sep);
      var early := s[..i] + sep[..|sep| - 1];
      assert early == s[..i + |sep| - 1];
      assert !Contains(early, sep) by {
        forall j: nat ensures !OccursAt(early, sep, j) {
          if OccursAt(early, sep, j) { OccursInPrefix(s, sep, i + |sep| - 1, j); }
        }
      }
      assert !Contains(s[..i], sep) by {
        forall j: nat ensures !OccursAt(s[..i], sep, j) {
          if OccursAt(s[..i], sep, j) { OccursInPrefix(s, sep, i, j); }
        }
      }
      [s[..i]] + rest
  }

  /** Python's `sep.join(parts)`. */
  function JoinWith(parts: seq<string>, sep: string): string
    decreases |parts|
  {
    if parts == [] then ""
    else if |parts| == 1 then parts[0]
    else parts[0] + sep + JoinWith(parts[1..], sep)
  }

  /** Cutting a string around an occurrence of `pat` and putting the pieces
      back together gives the string. */
  lemma Reassemble(s: string, pat: string, i: nat)
    requires OccursAt(s, pat, i)
    ensures s[..i] + pat + s[i + |pat|..] == s
  {
    assert s == s[..i] + s[i..i + |pat|] + s[i + |pat|..];
  }

  /** Joining the pieces of a split with the separator gives back the string. */
  lemma {:induction false} SplitJoin(s: string, sep: string)
    requires sep != []
    ensures JoinWith(Split(s, sep), sep) == s
    decreases |s|
  {
    var f := Find(s, sep);
    if f.Some? {
      var i := f.value;
      var tail := s[i + |sep|..];
      var rest := Split(tail, sep);
      var parts := [s[..i]] + rest;
      assert Split(s, sep) == parts;
      assert parts[1..] == rest;
      SplitJoin(tail, sep);
      assert JoinWith(parts, sep) == s[..i] + sep + tail;
      Reassemble(s, sep, i);
    }
  }
}
