/**
 * The two SQL text operations the context lookup combines, with SQLite's
 * meaning: `s LIKE p` (no ESCAPE clause; `%` matches any run of characters,
 * `_` any single character, ASCII letters compare without regard to case)
 * and `instr(s, w)` (1-based position of the first occurrence, 0 if none).
 */
module SqlText {
  import opened Wrappers
  import opened Strings

  /** ASCII upper-case letters folded to lower case; every other character unchanged. */
  function FoldCase(c: char): char {
    if 'A' <= c <= 'Z' then (c as int + 32) as char else c
  }

  /** One string character against one pattern character that is not `%`. */
  predicate CharLike(c: char, p: char) {
    p == '_' || FoldCase(c) == FoldCase(p)
  }

  /** `s LIKE p`. */
  predicate Like(s: string, p: string)
    decreases |s| + |p|
  {
    if p == [] then s == []
    else if p[0] == '%' then Like(s, p[1..]) || (s != [] && Like(s[1..], p))
    else s != [] && CharLike(s[0], p[0]) && Like(s[1..], p[1..])
  }

  /** Every string is LIKE itself, wildcards included. */
  lemma {:induction false} LikeSelf(s: string)
    ensures Like(s, s)
    decreases |s|
  {
    if s != [] {
      LikeSelf(s[1..]);
      if s[0] == '%' {
        assert Like(s[1..], s);
      }
    }
  }

  /** Every string is LIKE `%`. */
  lemma {:induction false} LikeAnything(s: string)
    ensures Like(s, "%")
    decreases |s|
  {
    assert "%"[1..] == "";
    if s != [] {
      LikeAnything(s[1..]);
    }
  }

  /** Matches compose: if each string is LIKE its pattern, the concatenation
      of the strings is LIKE the concatenation of the patterns. */
  lemma {:induction false} LikeConcat(s1: string, p1: string, s2: string, p2: string)
    requires Like(s1, p1) && Like(s2, p2)
    ensures Like(s1 + s2, p1 + p2)
    decreases |s1| + |p1|
  {
    if p1 == [] {
      assert s1 + s2 == s2;
      assert p1 + p2 == p2;
    } else {
      assert (p1 + p2)[0] == p1[0];
      assert (p1 + p2)[1..] == p1[1..] + p2;
      if p1[0] == '%' {
        if Like(s1, p1[1..]) {
          LikeConcat(s1, p1[1..], s2, p2);
        } else {
          assert (s1 + s2)[1..] == s1[1..] + s2;
          LikeConcat(s1[1..], p1, s2, p2);
        }
      } else {
        assert (s1 + s2)[0] == s1[0];
        assert (s1 + s2)[1..] == s1[1..] + s2;
        LikeConcat(s1[1..], p1[1..], s2, p2);
      }
    }
  }

  /** SQLite's `instr(s, w)`. */
  function Instr(s: string, w: string): (r: nat)
    ensures r > 0 <==> Contains(s, w)
    ensures r > 0 ==> OccursAt(s, w, r - 1)
  {
    match Find(s, w)
    case None => 0
    case Some(i) => i + 1
  }

  /** `instr(s, w) > 0` implies `s LIKE '%' || w || '%'`: the position test
      is the stronger of the two conditions of the lookup. */
  lemma InstrImpliesLike(s: string, w: string)
    requires Instr(s, w) > 0
    ensures Like(s, "%" + w + "%")
  {
    var i := Instr(s, w) - 1;
    var before, after := s[..i], s[i + |w|..];
    assert s == before + w + after;
    LikeAnything(before);
    LikeSelf(w);
    LikeConcat(before, "%", w, w);
    LikeAnything(after);
    LikeConcat(before + w, "%" + w, after, "%");
  }
}
