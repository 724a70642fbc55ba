/**
 * The whitespace tokenizer: Python's `text.split()` with no arguments, which
 * splits on runs of whitespace and drops whitespace at both ends.
 */
module Tokenizer {
  import opened Strings

  /** Python's `str.isspace` for one character: the characters that
      `str.split()` with no arguments treats as separators. */
  predicate IsSpace(c: char) {
    || ('\t' <= c <= '\r')
    || ('\U{1C}' <= c <= '\U{1F}')
    || c == ' '
    || c == '\U{85}'
    || c == '\U{A0}'
    || c == '\U{1680}'
    || ('\U{2000}' <= c <= '\U{200A}')
    || c == '\U{2028}'
    || c == '\U{2029}'
    || c == '\U{202F}'
    || c == '\U{205F}'
    || c == '\U{3000}'
  }

  /** A token: non-empty and free of whitespace. */
  predicate IsWord(w: string) {
    w != [] && forall i :: 0 <= i < |w| ==> !IsSpace(w[i])
  }

  /** Length of the run of non-whitespace characters that starts `s`. */
  function WordLength(s: string): (n: nat)
    ensures n <= |s|
    ensures forall i :: 0 <= i < n ==> !IsSpace(s[i])
    ensures n < |s| ==> IsSpace(s[n])
  {
    if s == [] || IsSpace(s[0]) then 0 else 1 + WordLength(s[1..])
  }

  /** `text.split()`: the maximal runs of non-whitespace characters, left to right. */
  function Tokenize(text: string): (tokens: seq<string>)
    ensures forall i :: 0 <= i < |tokens| ==> IsWord(tokens[i])
    decreases |text|
  {
    if text == [] then []
    else if IsSpace(text[0]) then Tokenize(text[1..])
    else
      var n := WordLength(text);
      [text[..n]] + Tokenize(text[n..])
  }

  /** The concatenation of a sequence of strings. */
  function Concat(ss: seq<string>): string {
    if ss == [] then "" else ss[0] + Concat(ss[1..])
  }

  /** The characters of `s` that are not whitespace, in order. */
  function DropSpaces(s: string): string {
    if s == [] then "" else (if IsSpace(s[0]) then "" else [s[0]]) + DropSpaces(s[1..])
  }

  lemma {:induction false} DropSpacesAppend(a: string, b: string)
    ensures DropSpaces(a + b) == DropSpaces(a) + DropSpaces(b)
  {
    if a == [] {
      assert a + b == b;
    } else {
      assert (a + b)[0] == a[0];
      assert (a + b)[1..] == a[1..] + b;
      DropSpacesAppend(a[1..], b);
    }
  }

  lemma {:induction false} DropSpacesOfWord(w: string)
    requires forall i :: 0 <= i < |w| ==> !IsSpace(w[i])
    ensures DropSpaces(w) == w
  {
    if w != [] {
      DropSpacesOfWord(w[1..]);
    }
  }

  /** The tokens, read left to right, spell out exactly the non-whitespace
      characters of the text in their original order. */
  lemma {:induction false} TokensInOrder(text: string)
    ensures Concat(Tokenize(text)) == DropSpaces(text)
    decreases |text|
  {
    if text == [] {
    } else if IsSpace(text[0]) {
      TokensInOrder(text[1..]);
    } else {
      var n := WordLength(text);
      var tokens := Tokenize(text);
      assert tokens == [text[..n]] + Tokenize(text[n..]);
      assert tokens[1..] == Tokenize(text[n..]);
      TokensInOrder(text[n..]);
      DropSpacesOfWord(text[..n]);
      DropSpacesAppend(text[..n], text[n..]);
      assert text[..n] + text[n..] == text;
    }
  }

  /** Every token occurs in the text it was cut from. */
  lemma {:induction false} TokenOccurs(text: string, k: nat)
    requires k < |Tokenize(text)|
    ensures Contains(text, Tokenize(text)[k])
    decreases |text|
  {
    if IsSpace(text[0]) {
      TokenOccurs(text[1..], k);
      var j: nat :| OccursAt(text[1..], Tokenize(text)[k], j);
      OccursShift(text, Tokenize(text)[k], 1, j);
    } else {
      var n := WordLength(text);
      var tokens := Tokenize(text);
      assert tokens == [text[..n]] + Tokenize(text[n..]);
      if k == 0 {
        assert OccursAt(text, tokens[0], 0);
      } else {
        TokenOccurs(text[n..], k - 1);
        var j: nat :| OccursAt(text[n..], tokens[k], j);
        OccursShift(text, tokens[k], n, j);
      }
    }
  }

  lemma {:induction false} WordLengthExtend(a: string, t: string)
    requires WordLength(a) < |a| || (t != [] && IsSpace(t[0]))
    ensures WordLength(a + t) == WordLength(a)
  {
    if a == [] {
    } else if IsSpace(a[0]) {
    } else {
      assert (a + t)[1..] == a[1..] + t;
      WordLengthExtend(a[1..], t);
    }
  }

  /** A whitespace character cuts the text in two: the tokens of the whole
      are the tokens of the left part followed by those of the right part. */
  lemma {:induction false} SplitAtSpace(a: string, c: char, b: string)
    requires IsSpace(c)
    ensures Tokenize(a + [c] + b) == Tokenize(a) + Tokenize(b)
    decreases |a|
  {
    var s := a + [c] + b;
    if a == [] {
      assert s[1..] == b;
    } else if IsSpace(a[0]) {
      assert s[1..] == a[1..] + [c] + b;
      SplitAtSpace(a[1..], c, b);
    } else {
      var m := WordLength(a);
      WordLengthExtend(a, [c] + b);
      assert a + ([c] + b) == s;
      assert WordLength(s) == m;
      assert s[..m] == a[..m];
      assert s[m..] == a[m..] + [c] + b;
      SplitAtSpace(a[m..], c, b);
    }
  }

  /** A single token tokenizes to itself. */
  lemma SingleWord(w: string)
    requires IsWord(w)
    ensures Tokenize(w) == [w]
  {
    assert WordLength(w) == |w|;
    assert w[..|w|] == w;
  }

  /** Round trip: joining tokens with single spaces and tokenizing again gives them back. */
  lemma {:induction false} TokenizeJoin(words: seq<string>)
    requires forall i :: 0 <= i < |words| ==> IsWord(words[i])
    ensures Tokenize(JoinWith(words, " ")) == words
  {
    if words == [] {
    } else if |words| == 1 {
      SingleWord(words[0]);
    } else {
      var rest := JoinWith(words[1..], " ");
      assert JoinWith(words, " ") == words[0] + [' '] + rest;
      SplitAtSpace(words[0], ' ', rest);
      SingleWord(words[0]);
      TokenizeJoin(words[1..]);
    }
  }

  /** Whitespace around the text does not change its tokens. */
  lemma {:induction false} SurroundingSpaceIgnored(before: string, text: string, after: string)
    requires forall i :: 0 <= i < |before| ==> IsSpace(before[i])
    requires forall i :: 0 <= i < |after| ==> IsSpace(after[i])
    ensures Tokenize(before + text + after) == Tokenize(text)
    decreases |before| + |after|
  {
    if before != [] {
      var s := before + text + after;
      assert s == [] + [before[0]] + (before[1..] + text + after);
      SplitAtSpace([], before[0], before[1..] + text + after);
      SurroundingSpaceIgnored(before[1..], text, after);
    } else if after != [] {
      var last := |after| - 1;
      var front := text + after[..last];
      assert before + text + after == front + [after[last]] + [];
      calc {
        Tokenize(before + text + after);
        Tokenize(front + [after[last]] + []);
        { SplitAtSpace(front, after[last], []); }
        Tokenize(front) + Tokenize([]);
        Tokenize(front);
        { assert [] + text + after[..last] == front;
          SurroundingSpaceIgnored([], text, after[..last]); }
        Tokenize(text);
      }
    } else {
      assert before + text + after == text;
    }
  }
}
