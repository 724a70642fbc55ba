/**
 * One complete pass through the annotation page, composed from the session's
 * own actions: a reviewer enters a configured id, types a sentence made of
 * whitespace-free words separated by single spaces, links one of its words
 * and saves, with every insert committing.
 */
module AnnotationScenario {
  import opened Wrappers
  import opened Strings
  import opened Tokenizer
  import opened Mappings
  import opened AnnotationStore
  import opened Identity
  import opened AnnotationSession

  /** Saving the single link of a token of `sentence`, with every insert
      committing, writes one record: the token, the sentence, the id and the
      first timestamp. */
  lemma SingleLinkSaved(sentence: string, choice: nat, id: string, clock: nat -> string, commits: nat -> bool)
    requires choice < |Tokenize(sentence)|
    requires !Contains(sentence, ARROW)
    requires commits(0)
    ensures var ds := Unpacked([Encode(Render(Selected(Tokenize(sentence), choice)), sentence)]);
            && Completed(ds, commits) == 1
            && Persisted(ds, id, clock, 1) == [Record(Tokenize(sentence)[choice], sentence, id, clock(0))]
  {
    LinkDecodes(sentence, choice);
    var ds := Unpacked([Encode(Render(Selected(Tokenize(sentence), choice)), sentence)]);
    assert ds[0] == Some((Tokenize(sentence)[choice], sentence));
    CompletedAt(ds, commits, 1);
  }

  /** The whole run: exactly one record is added to the table, holding the
      chosen word, the whole sentence, the reviewer's id and the first
      timestamp; both counters end at one, the pending list is empty again
      and no warning is shown. */
  method LinkAndSave(allow: AllowList, store: Store, id: string, words: seq<string>, choice: nat, clock: nat -> string)
      returns (session: Session)
    requires id != "" && id in allow.Ids()
    requires forall i :: 0 <= i < |words| ==> IsWord(words[i])
    requires choice < |words|
    requires !Contains(JoinWith(words, " "), ARROW)
    modifies store
    ensures store.records == old(store.records) + [Record(words[choice], JoinWith(words, " "), id, clock(0))]
    ensures session.dailyAnnotated == 1 && session.totalAnnotated == 1
    ensures session.tokenMappings == [] && !session.showWarning
  {
    var sentence := JoinWith(words, " ");
    TokenizeJoin(words);
    session := new Session(allow);
    var proceed := session.SubmitId(id);
    session.EnterSentence(sentence);
    session.Link(choice);
    var commits := (j: nat) => true;
    SingleLinkSaved(sentence, choice, id, clock, commits);
    var outcome := session.Save(store, clock, commits);
  }
}
