/**
 * The pending-mapping string: a selected token and its sentence are kept as
 * `token + " -> " + sentence` and taken apart again with `split(" -> ")`
 * followed by a two-way unpack.
 */
module Mappings {
  import opened Wrappers
  import opened Strings
  import opened Tokenizer

  const ARROW: string := " -> "

  /** The value of the word selector over `tokens` when option `choice` is
      chosen: `None` when the selector has no options, as it does for a
      sentence made only of whitespace. */
  function Selected(tokens: seq<string>, choice: nat): (r: Option<string>)
    requires tokens == [] || choice < |tokens|
    ensures r.None? <==> tokens == []
    ensures r.Some? ==> r.value in tokens
  {
    if tokens == [] then None else Some(tokens[choice])
  }

  /** How an f-string renders the selected value: the token itself, or the
      text "None" when nothing could be selected. */
  function Render(selected: Option<string>): string {
    match selected
    case Some(w) => w
    case None => "None"
  }

  /** The mapping string appended by the link action. */
  function Encode(token: string, sentence: string): string {
    token + ARROW + sentence
  }

  /** `token, sentence = mapping.split(" -> ")`: succeeds exactly when the
      split yields two parts, that is when the mapping has a separator and no
      other one after it; otherwise the unpack raises. The token ends where
      the leftmost separator starts. */
  function Decode(mapping: string): (r: Option<(string, string)>)
    ensures var f := Find(mapping, ARROW);
            r.None? <==> f.None? || Contains(mapping[f.value + |ARROW|..], ARROW)
    ensures r.Some? ==> Find(mapping, ARROW) == Some(|r.value.0|)
    ensures r.Some? ==> Encode(r.value.0, r.value.1) == mapping
    ensures r.Some? ==> !Contains(r.value.0, ARROW) && !Contains(r.value.1, ARROW)
  {
    var parts := Split(mapping, ARROW);
    if |parts| == 2 then
      SplitJoin(mapping, ARROW);
      assert parts[1..] == [parts[1]];
      Some((parts[0], parts[1]))
    else
      None
  }

  /** The separator overlaps itself by one blank; the unpack still cuts at
      the leftmost separator, so the sentence keeps the second arrow. */
  lemma OverlappingSeparator()
    ensures Decode("x -> -> y") == Some(("x", "-> y"))
  {
    var m := "x -> -> y";
    assert OccursAt(m, ARROW, 1);
    assert m[0] != ARROW[0];
    assert Find(m, ARROW) == Some(1);
    var tail := m[1 + |ARROW|..];
    assert tail == "-> y";
    assert !Contains(tail, ARROW) by {
      forall j: nat ensures !OccursAt(tail, ARROW, j) {
        if j == 0 { assert tail[0] != ARROW[0]; }
      }
    }
    var r := Decode(m);
    var word, sentence := r.value.0, r.value.1;
    assert |word| == 1;
    assert word + ARROW + sentence == m;
    assert (word + ARROW + sentence)[..1] == word;
    assert (word + ARROW + sentence)[1 + |ARROW|..] == sentence;
    assert word == m[..1] == "x";
    assert sentence == tail;
  }

  /** No blank (U+0020) in `t`. */
  predicate NoBlank(t: string) {
    forall i :: 0 <= i < |t| ==> t[i] != ' '
  }

  /** A token without blanks puts the first separator right after itself. */
  lemma FirstArrowAfterToken(token: string, sentence: string)
    requires NoBlank(token)
    ensures Find(Encode(token, sentence), ARROW) == Some(|token|)
  {
    var m := Encode(token, sentence);
    assert m[|token|..|token| + |ARROW|] == ARROW;
    assert OccursAt(m, ARROW, |token|);
    forall j: nat | j < |token| ensures !OccursAt(m, ARROW, j) {
      assert m[j] == token[j];
    }
  }

  /** Decoding inverts encoding exactly when the sentence does not contain
      the separator; when it does, the split has three or more parts and
      the two-way unpack fails. */
  lemma EncodeDecode(token: string, sentence: string)
    requires NoBlank(token)
    ensures Decode(Encode(token, sentence)) ==
            if Contains(sentence, ARROW) then None else Some((token, sentence))
  {
    var m := Encode(token, sentence);
    FirstArrowAfterToken(token, sentence);
    assert m[..|token|] == token;
    assert m[|token| + |ARROW|..] == sentence;
    assert Split(m, ARROW) == [token] + Split(sentence, ARROW);
    if !Contains(sentence, ARROW) {
      assert Split(sentence, ARROW) == [sentence];
    }
  }

  /** Whatever the word selector yields is blank-free: a token, or "None". */
  lemma RenderedSelectionNoBlank(tokens: seq<string>, choice: nat)
    requires forall i :: 0 <= i < |tokens| ==> IsWord(tokens[i])
    requires tokens == [] || choice < |tokens|
    ensures NoBlank(Render(Selected(tokens, choice)))
  {
    if tokens != [] {
      assert IsWord(tokens[choice]);
      assert IsSpace(' ');
    }
  }

  /** Linking the token at position `choice` of a sentence and decoding the
      stored mapping gives back that token and the sentence unchanged, unless
      the sentence itself contains the separator. */
  lemma LinkDecodes(sentence: string, choice: nat)
    requires choice < |Tokenize(sentence)|
    ensures Decode(Encode(Render(Selected(Tokenize(sentence), choice)), sentence)) ==
            if Contains(sentence, ARROW) then None else Some((Tokenize(sentence)[choice], sentence))
  {
    RenderedSelectionNoBlank(Tokenize(sentence), choice);
    EncodeDecode(Render(Selected(Tokenize(sentence), choice)), sentence);
  }
}
