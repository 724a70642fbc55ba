/**
 * The per-session state of the annotation page and its transitions: the
 * identity gate, typing a sentence, linking a selected word to it, saving
 * the pending links as records, and clearing the sentence field.
 */
module AnnotationSession {
  import opened Wrappers
  import opened Strings
  import opened Tokenizer
  import opened Mappings
  import opened AnnotationStore
  import opened Identity

  /** What a pending mapping string stands for: the selector's value and the
      sentence it was linked to. */
  datatype PendingLink = PendingLink(word: Option<string>, sentence: string)

  /** A link the link action can create: a non-empty sentence and a word that
      is one of its tokens, or no word when the sentence has no tokens. */
  ghost predicate LinkedFrom(p: PendingLink) {
    && p.sentence != ""
    && match p.word
       case None => Tokenize(p.sentence) == []
       case Some(w) => w in Tokenize(p.sentence)
  }

  /** The mapping string the link action stores for a pending link. */
  function EncodeLink(p: PendingLink): string {
    Encode(Render(p.word), p.sentence)
  }

  /** Shape of a saved record: its word is a token, and it occurs in the
      context, unless the sentence had no token at all and the word stored is
      the rendering "None" of the empty selection. */
  ghost predicate RecordShape(r: Record) {
    && IsWord(r.word)
    && (Contains(r.context, r.word) || (r.word == "None" && Tokenize(r.context) == []))
  }

  datatype SaveError = UnpackFailed | InsertFailed

  /** What a save reports: the warning for an empty list, success with the
      number of records, or an abort after `completed` records. */
  datatype SaveOutcome = Warned | Saved(count: nat) | Aborted(completed: nat, cause: SaveError)

  /** The result of the two-way unpack of one mapping string. */
  type Unpacking = Option<(string, string)>

  /** The unpack results of the mappings, in list order. */
  function Unpacked(ms: seq<string>): (ds: seq<Unpacking>)
    ensures |ds| == |ms|
    ensures forall j :: 0 <= j < |ms| ==> ds[j] == Decode(ms[j])
  {
    seq(|ms|, j requires 0 <= j < |ms| => Decode(ms[j]))
  }

  /** The first `n` mappings all unpack. */
  predicate DecodesThrough(ds: seq<Unpacking>, n: nat) {
    n <= |ds| && forall j :: 0 <= j < n ==> ds[j].Some?
  }

  /** How far the save loop gets when started at mapping `i`: the first
      mapping from `i` on that fails to unpack or whose insert does not
      commit, or the end of the list. */
  function CompletedFrom(ds: seq<Unpacking>, commits: nat -> bool, i: nat): (k: nat)
    requires i <= |ds|
    ensures i <= k <= |ds|
    ensures forall j :: i <= j < k ==> ds[j].Some? && commits(j)
    ensures k < |ds| ==> ds[k].None? || !commits(k)
    decreases |ds| - i
  {
    if i == |ds| || ds[i].None? || !commits(i) then i
    else CompletedFrom(ds, commits, i + 1)
  }

  /** Number of mappings a save persists: the length of the longest prefix of
      mappings that all unpack and whose inserts all commit. */
  function Completed(ds: seq<Unpacking>, commits: nat -> bool): (k: nat)
    ensures DecodesThrough(ds, k)
    ensures forall j :: 0 <= j < k ==> commits(j)
    ensures k < |ds| ==> ds[k].None? || !commits(k)
  {
    CompletedFrom(ds, commits, 0)
  }

  /** Where and why a save loop stopped: after the `k` completed mappings,
      with no error exactly when it reached the end of the list, and
      otherwise with the error of mapping `k`. */
  ghost predicate Stopped(ds: seq<Unpacking>, commits: nat -> bool, k: nat, cause: Option<SaveError>) {
    && k == Completed(ds, commits)
    && (cause.None? <==> k == |ds|)
    && (cause.Some? ==> k < |ds| && cause.value == if ds[k].None? then UnpackFailed else InsertFailed)
  }

  lemma StoppedAt(ds: seq<Unpacking>, commits: nat -> bool, k: nat, cause: Option<SaveError>)
    requires k <= |ds| && Completed(ds, commits) == CompletedFrom(ds, commits, k)
    requires cause.None? ==> k == |ds|
    requires cause.Some? ==> k < |ds| && !(ds[k].Some? && commits(k))
    requires cause.Some? ==> cause.value == if ds[k].None? then UnpackFailed else InsertFailed
    ensures Stopped(ds, commits, k, cause)
  {
  }

  /** The record saved for an unpacked mapping. */
  function RecordOf(d: (string, string), id: string, stamp: string): Record {
    Record(d.0, d.1, id, stamp)
  }

  /** The records of the first `n` mappings, in list order, the `j`-th
      stamped with the `j`-th reading of the clock. */
  function Persisted(ds: seq<Unpacking>, id: string, clock: nat -> string, n: nat): (r: seq<Record>)
    requires DecodesThrough(ds, n)
    ensures |r| == n
  {
    if n == 0 then [] else Persisted(ds, id, clock, n - 1) + [RecordOf(ds[n - 1].value, id, clock(n - 1))]
  }

  /** The `j`-th saved record is the record of the `j`-th mapping. */
  lemma {:induction false} PersistedAt(ds: seq<Unpacking>, id: string, clock: nat -> string, n: nat, j: nat)
    requires DecodesThrough(ds, n) && j < n
    ensures Persisted(ds, id, clock, n)[j] == RecordOf(ds[j].value, id, clock(j))
  {
    if j < n - 1 {
      PersistedAt(ds, id, clock, n - 1, j);
    }
  }

  /** The save stops at `i` when every mapping before it went through and
      mapping `i`, if there is one, fails. */
  lemma CompletedAt(ds: seq<Unpacking>, commits: nat -> bool, i: nat)
    requires DecodesThrough(ds, i)
    requires forall j :: 0 <= j < i ==> commits(j)
    requires i < |ds| ==> ds[i].None? || !commits(i)
    ensures Completed(ds, commits) == i
  {
  }

  /** One more mapping that unpacks and commits: the save goes on past it
      and adds its record at the end. */
  lemma SaveStep(ds: seq<Unpacking>, id: string, clock: nat -> string, commits: nat -> bool, k: nat)
    requires DecodesThrough(ds, k) && k < |ds| && ds[k].Some? && commits(k)
    ensures DecodesThrough(ds, k + 1)
    ensures CompletedFrom(ds, commits, k) == CompletedFrom(ds, commits, k + 1)
    ensures Persisted(ds, id, clock, k + 1) == Persisted(ds, id, clock, k) + [RecordOf(ds[k].value, id, clock(k))]
  {
  }

  lemma AppendLast(a: seq<Record>, p: seq<Record>, x: Record)
    ensures a + (p + [x]) == (a + p) + [x]
  {
  }

  /** Decoding a linked mapping gives back its rendered word and sentence,
      unless the sentence contains the separator: `LinkDecodes` for a chosen
      token, and the same for the rendering "None" of the empty selection. */
  lemma LinkDecode(p: PendingLink)
    requires LinkedFrom(p)
    ensures Decode(EncodeLink(p)) ==
            if Contains(p.sentence, ARROW) then None else Some((Render(p.word), p.sentence))
  {
    var tokens := Tokenize(p.sentence);
    match p.word
    case None =>
      RenderedSelectionNoBlank(tokens, 0);
      EncodeDecode(Render(p.word), p.sentence);
    case Some(w) =>
      var k :| 0 <= k < |tokens| && tokens[k] == w;
      LinkDecodes(p.sentence, k);
  }

  /** A record saved from a linked mapping has the shape of RecordShape. */
  lemma LinkedRecordShape(p: PendingLink, id: string, stamp: string)
    requires LinkedFrom(p) && Decode(EncodeLink(p)).Some?
    ensures RecordShape(RecordOf(Decode(EncodeLink(p)).value, id, stamp))
  {
    LinkDecode(p);
    var tokens := Tokenize(p.sentence);
    match p.word
    case None =>
      assert IsWord("None");
    case Some(w) =>
      var k :| 0 <= k < |tokens| && tokens[k] == w;
      TokenOccurs(p.sentence, k);
  }

  /** Every record a save writes from linked mappings carries the session's
      id and has the shape of RecordShape. */
  lemma {:induction false} PersistedShapes(ms: seq<string>, ps: seq<PendingLink>, id: string, clock: nat -> string, n: nat)
    requires |ms| == |ps|
    requires forall j :: 0 <= j < |ps| ==> ms[j] == EncodeLink(ps[j]) && LinkedFrom(ps[j])
    requires DecodesThrough(Unpacked(ms), n)
    ensures forall r :: r in Persisted(Unpacked(ms), id, clock, n) ==> r.annotatorId == id && RecordShape(r)
  {
    if n > 0 {
      PersistedShapes(ms, ps, id, clock, n - 1);
      LinkedRecordShape(ps[n - 1], id, clock(n - 1));
    }
  }

  /** The mapping strings of a sequence of pending links. */
  function EncodeAll(ps: seq<PendingLink>): (ms: seq<string>)
    ensures |ms| == |ps|
    ensures forall j :: 0 <= j < |ps| ==> ms[j] == EncodeLink(ps[j])
  {
    if ps == [] then [] else EncodeAll(ps[..|ps| - 1]) + [EncodeLink(ps[|ps| - 1])]
  }

  /** Saving linked mappings: the `j`-th record written carries the `j`-th
      linked word, rendered, its sentence, the session's id and the `j`-th
      timestamp. */
  lemma SavedRecordsOfLinks(ps: seq<PendingLink>, commits: nat -> bool, id: string, clock: nat -> string, j: nat)
    requires forall i :: 0 <= i < |ps| ==> LinkedFrom(ps[i])
    requires j < Completed(Unpacked(EncodeAll(ps)), commits)
    ensures var ds := Unpacked(EncodeAll(ps));
            Persisted(ds, id, clock, Completed(ds, commits))[j] == Record(Render(ps[j].word), ps[j].sentence, id, clock(j))
  {
    var ds := Unpacked(EncodeAll(ps));
    PersistedAt(ds, id, clock, Completed(ds, commits), j);
    LinkDecode(ps[j]);
  }

  /** When no linked sentence contains the separator and every insert
      commits, a save writes all of the mappings. */
  lemma SaveOfCleanLinks(ps: seq<PendingLink>, commits: nat -> bool)
    requires forall j :: 0 <= j < |ps| ==> LinkedFrom(ps[j])
    requires forall j :: 0 <= j < |ps| ==> !Contains(ps[j].sentence, ARROW) && commits(j)
    ensures Completed(Unpacked(EncodeAll(ps)), commits) == |ps|
  {
    var ds := Unpacked(EncodeAll(ps));
    forall j | 0 <= j < |ps|
      ensures ds[j].Some?
    {
      LinkDecode(ps[j]);
    }
    CompletedAt(ds, commits, |ps|);
  }

  /** A linked sentence that contains the separator stops every save at or
      before its mapping, whatever the store does, so such a save never
      covers the whole list. */
  lemma ArrowBlocksSave(ps: seq<PendingLink>, commits: nat -> bool, i: nat)
    requires forall j :: 0 <= j < |ps| ==> LinkedFrom(ps[j])
    requires i < |ps| && Contains(ps[i].sentence, ARROW)
    ensures Completed(Unpacked(EncodeAll(ps)), commits) <= i
  {
    LinkDecode(ps[i]);
  }

  class Session {
    /** The five configured annotator ids. */
    const allow: AllowList
    var annotatorId: Option<string>
    var tokenMappings: seq<string>
    var dailyAnnotated: nat
    var totalAnnotated: nat
    var showWarning: bool
    var userText: string
    /** What each mapping string stands for. */
    ghost var pending: seq<PendingLink>
    /** The records this session has committed, oldest first. */
    ghost var committed: seq<Record>

    /** Every mapping string was produced by the link action. */
    ghost predicate LinksValid()
      reads this`tokenMappings, this`pending
    {
      && |pending| == |tokenMappings|
      && forall j :: 0 <= j < |pending| ==> tokenMappings[j] == EncodeLink(pending[j]) && LinkedFrom(pending[j])
    }

    /** Both counters count exactly the committed records. */
    ghost predicate CountsValid()
      reads this`dailyAnnotated, this`totalAnnotated, this`committed
    {
      dailyAnnotated == |committed| && totalAnnotated == |committed|
    }

    /** Every committed record carries a configured id and has the shape of RecordShape. */
    ghost predicate RecordsValid()
      reads this`committed
    {
      forall r :: r in committed ==> r.annotatorId in allow.Ids() && RecordShape(r)
    }

    ghost predicate Valid()
      reads this
    {
      LinksValid() && CountsValid() && RecordsValid()
    }

    /** A fresh session: no id, no mappings, both counters zero, an empty sentence. */
    constructor (allow: AllowList)
      ensures Valid()
      ensures this.allow == allow
      ensures annotatorId == None && tokenMappings == []
      ensures dailyAnnotated == 0 && totalAnnotated == 0
      ensures !showWarning && userText == ""
      ensures pending == [] && committed == []
    {
      this.allow := allow;
      annotatorId := None;
      tokenMappings := [];
      dailyAnnotated := 0;
      totalAnnotated := 0;
      showWarning := false;
      userText := "";
      pending := [];
      committed := [];
    }

    /** The identity gate of one rerun: a non-empty input replaces the
        remembered id, an empty one leaves it; the workflow proceeds only
        when the remembered id is configured. */
    method SubmitId(input: string) returns (proceed: bool)
      requires Valid()
      modifies this`annotatorId
      ensures Valid()
      ensures input != "" ==> annotatorId == Some(input)
      ensures input == "" ==> annotatorId == old(annotatorId)
      ensures proceed <==> annotatorId.Some? && annotatorId.value in allow.Ids()
    {
      annotatorId := StoreId(annotatorId, input);
      proceed := Admitted(allow, annotatorId);
    }

    /** Typing into the sentence field. */
    method EnterSentence(text: string)
      requires Valid() && Admitted(allow, annotatorId)
      modifies this`userText
      ensures Valid() && userText == text
    {
      userText := text;
    }

    /** The link button: appends exactly one mapping, for the selector's
        value over the tokens of the current sentence, and keeps every
        earlier mapping. */
    method Link(choice: nat)
      requires Valid() && Admitted(allow, annotatorId)
      requires userText != ""
      requires Tokenize(userText) == [] || choice < |Tokenize(userText)|
      modifies this`tokenMappings, this`pending
      ensures Valid()
      ensures var word := Selected(Tokenize(userText), choice);
              && tokenMappings == old(tokenMappings) + [Encode(Render(word), userText)]
              && pending == old(pending) + [PendingLink(word, userText)]
    {
      var word := Selected(Tokenize(userText), choice);
      tokenMappings := tokenMappings + [Encode(Render(word), userText)];
      pending := pending + [PendingLink(word, userText)];
    }

    /** The save button. With no mappings it only raises the warning flag.
        Otherwise it lowers the flag and saves the mappings in list order,
        each decoded and inserted with the remembered id and a fresh
        timestamp; the counters move by one after each committed insert. The
        first mapping that fails to decode or to commit aborts the save and
        leaves the list as it was; a save that reaches the end empties it. */
    method Save(store: Store, clock: nat -> string, commits: nat -> bool) returns (outcome: SaveOutcome)
      requires Valid() && Admitted(allow, annotatorId)
      modifies this`showWarning, this`tokenMappings, this`pending
      modifies this`dailyAnnotated, this`totalAnnotated, this`committed, store
      ensures Valid()
      ensures old(tokenMappings) == [] ==>
                && outcome == Warned && showWarning
                && tokenMappings == [] && pending == old(pending)
                && store.records == old(store.records) && committed == old(committed)
                && dailyAnnotated == old(dailyAnnotated) && totalAnnotated == old(totalAnnotated)
      ensures old(tokenMappings) != [] ==>
                var ms := old(tokenMappings);
                var ds := Unpacked(ms);
                var k := Completed(ds, commits);
                && !showWarning
                && store.records == old(store.records) + Persisted(ds, annotatorId.value, clock, k)
                && committed == old(committed) + Persisted(ds, annotatorId.value, clock, k)
                && dailyAnnotated == old(dailyAnnotated) + k
                && totalAnnotated == old(totalAnnotated) + k
                && (k == |ms| ==> outcome == Saved(k) && tokenMappings == [] && pending == [])
                && (k < |ms| ==>
                      && outcome == Aborted(k, if ds[k].None? then UnpackFailed else InsertFailed)
                      && tokenMappings == ms && pending == old(pending))
    {
      if tokenMappings == [] {
        showWarning := true;
        return Warned;
      }
      showWarning := false;
      var ms, id := tokenMappings, annotatorId.value;
      ghost var ps, ds := pending, Unpacked(ms);
      var k, cause := SaveMappings(store, ms, ds, id, clock, commits);
      PersistedShapes(ms, ps, id, clock, k);
      assert k == Completed(ds, commits);
      assert ms == old(tokenMappings) && id == annotatorId.value;
      assert CountsValid() && RecordsValid();
      if cause.None? {
        tokenMappings := [];
        pending := [];
        outcome := Saved(k);
      } else {
        outcome := Aborted(k, cause.value);
      }
    }

    /** The loop of the save action: the mappings are decoded and saved one
        by one in list order until one fails to decode or to commit. The
        list itself is left as it is. */
    method SaveMappings(store: Store, ms: seq<string>, ghost ds: seq<Unpacking>, id: string, clock: nat -> string, commits: nat -> bool)
      returns (k: nat, cause: Option<SaveError>)
      requires ms == tokenMappings && annotatorId == Some(id)
      requires |ds| == |ms| && forall j {:trigger Decode(ms[j])} :: 0 <= j < |ms| ==> ds[j] == Decode(ms[j])
      modifies this`dailyAnnotated, this`totalAnnotated, this`committed, store
      ensures Stopped(ds, commits, k, cause)
      ensures store.records == old(store.records) + Persisted(ds, id, clock, k)
      ensures committed == old(committed) + Persisted(ds, id, clock, k)
      ensures dailyAnnotated == old(dailyAnnotated) + k
      ensures totalAnnotated == old(totalAnnotated) + k
    {
      ghost var records0, committed0 := store.records, committed;
      var daily0, total0 := dailyAnnotated, totalAnnotated;
      ghost var written: seq<Record> := [];
      k := 0;
      cause := None;
      while k < |ms|
        invariant 0 <= k <= |ms|
        invariant DecodesThrough(ds, k)
        invariant Completed(ds, commits) == CompletedFrom(ds, commits, k)
        invariant written == Persisted(ds, id, clock, k)
        invariant store.records == records0 + written
        invariant committed == committed0 + written
        invariant dailyAnnotated == daily0 + k && totalAnnotated == total0 + k
        invariant cause == None
      {
        var failure := SaveNext(store, ms[k], id, clock(k), commits(k));
        if failure.Some? {
          cause := failure;
          break;
        }
        ghost var rec := RecordOf(ds[k].value, id, clock(k));
        SaveStep(ds, id, clock, commits, k);
        AppendLast(records0, written, rec);
        AppendLast(committed0, written, rec);
        written := written + [rec];
        k := k + 1;
      }
      StoppedAt(ds, commits, k, cause);
    }

    /** One pass of the save loop: the mapping is unpacked at the separator
        and, when that gives a word and a context, saved with the given
        timestamp; the result names what went wrong, if anything. */
    method SaveNext(store: Store, mapping: string, id: string, stamp: string, commit: bool)
      returns (failure: Option<SaveError>)
      requires annotatorId == Some(id)
      modifies this`dailyAnnotated, this`totalAnnotated, this`committed, store
      ensures failure.None? <==> Decode(mapping).Some? && commit
      ensures failure.Some? ==> failure.value == if Decode(mapping).None? then UnpackFailed else InsertFailed
      ensures failure.None? ==>
                var rec := RecordOf(Decode(mapping).value, id, stamp);
                && store.records == old(store.records) + [rec]
                && committed == old(committed) + [rec]
                && dailyAnnotated == old(dailyAnnotated) + 1
                && totalAnnotated == old(totalAnnotated) + 1
      ensures failure.Some? ==>
                && store.records == old(store.records) && committed == old(committed)
                && dailyAnnotated == old(dailyAnnotated) && totalAnnotated == old(totalAnnotated)
    {
      var decoded := Decode(mapping);
      if decoded.None? {
        return Some(UnpackFailed);
      }
      var ok := SaveAnnotation(store, decoded.value.0, decoded.value.1, stamp, commit);
      failure := if ok then None else Some(InsertFailed);
    }

    /** Saving one record: an insert of the word, its context, the
        remembered id and the timestamp, which either commits or fails; only
        after a commit do both counters go up by one. */
    method SaveAnnotation(store: Store, word: string, context: string, stamp: string, commit: bool)
      returns (ok: bool)
      requires annotatorId.Some?
      modifies this`dailyAnnotated, this`totalAnnotated, this`committed, store
      ensures ok == commit
      ensures var rec := Record(word, context, annotatorId.value, stamp);
              if commit then
                && store.records == old(store.records) + [rec]
                && committed == old(committed) + [rec]
                && dailyAnnotated == old(dailyAnnotated) + 1
                && totalAnnotated == old(totalAnnotated) + 1
              else
                && store.records == old(store.records) && committed == old(committed)
                && dailyAnnotated == old(dailyAnnotated) && totalAnnotated == old(totalAnnotated)
    {
      if !commit {
        return false;
      }
      var rec := Record(word, context, annotatorId.value, stamp);
      store.Insert(rec);
      dailyAnnotated := dailyAnnotated + 1;
      totalAnnotated := totalAnnotated + 1;
      committed := committed + [rec];
      ok := true;
    }

    /** The "new word" button: empties the sentence field and nothing else. */
    method ClearText()
      requires Valid()
      modifies this`userText
      ensures Valid()
      ensures userText == ""
    {
      userText := "";
    }
  }
}
