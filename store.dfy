/**
 * The shared table of annotation records, seen as an append-only sequence,
 * and the lookup of stored contexts that contain a selected word.
 */
module AnnotationStore {
  import opened Wrappers
  import opened Strings
  import opened SqlText

  /** One row of the annotation table. */
  datatype Record = Record(word: string, context: string, annotatorId: string, datestamp: string)

  /** Reference meaning of the lookup: the stored contexts, in table order,
      of the rows whose context contains the selected word as a substring;
      nothing when no word is selected. */
  ghost function ContextsContaining(records: seq<Record>, selected: Option<string>): (r: seq<string>)
    ensures |r| <= |records|
    ensures forall c :: c in r ==> selected.Some? && Contains(c, selected.value)
    ensures forall c :: c in r ==> exists i :: 0 <= i < |records| && records[i].context == c
    ensures forall i :: 0 <= i < |records| && selected.Some? && Contains(records[i].context, selected.value)
                        ==> records[i].context in r
  {
    if records == [] then []
    else
      var c := records[0].context;
      var rest := ContextsContaining(records[1..], selected);
      assert forall i :: 1 <= i < |records| ==> records[i] == records[1..][i - 1];
      assert forall i :: 0 <= i < |records| - 1 ==> records[1..][i] == records[i + 1];
      (if selected.Some? && Contains(c, selected.value) then [c] else []) + rest
  }

  /** The lookup as the query states it:
      `WHERE context LIKE '%w%' AND instr(context, w) > 0`, with the
      selected word bound to both parameters. A missing selection binds
      NULL to the instr parameter, so no row satisfies the condition. */
  function Query(records: seq<Record>, selected: Option<string>): (r: seq<string>)
    ensures r == ContextsContaining(records, selected)
  {
    if records == [] then []
    else
      var c := records[0].context;
      var hit := selected.Some? && Like(c, "%" + selected.value + "%") && Instr(c, selected.value) > 0;
      assert hit <==> selected.Some? && Contains(c, selected.value) by {
        if selected.Some? && Instr(c, selected.value) > 0 {
          InstrImpliesLike(c, selected.value);
        }
      }
      (if hit then [c] else []) + Query(records[1..], selected)
  }

  /** The remote table. Rows are only ever appended. */
  class Store {
    var records: seq<Record>

    constructor (initial: seq<Record>)
      ensures records == initial
    {
      records := initial;
    }

    /** One committed single-row insert. */
    method Insert(r: Record)
      modifies this
      ensures records == old(records) + [r]
    {
      records := records + [r];
    }

    /** The reference lookup shown beside the word selector: every stored
        context containing the selected word, and their number. */
    method FindContexts(selected: Option<string>) returns (contexts: seq<string>, total: nat)
      ensures contexts == ContextsContaining(records, selected)
      ensures total == |contexts|
    {
      contexts := Query(records, selected);
      total := |contexts|;
    }
  }
}
