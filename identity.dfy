/**
 * The identity gate: the annotator id typed by the user is remembered in the
 * session, and the annotation workflow is entered only while the remembered
 * id is one of the five configured ids.
 */
module Identity {
  import opened Wrappers

  /** The five configured annotator ids, in configuration order. */
  datatype AllowList = AllowList(first: string, second: string, third: string, forth: string, fifth: string) {
    function Ids(): (ids: seq<string>)
      ensures |ids| == 5
    {
      [first, second, third, forth, fifth]
    }
  }

  /** The remembered id after one rerun with `input` in the id field: only
      non-empty input overwrites it. */
  function StoreId(stored: Option<string>, input: string): Option<string> {
    if input != "" then Some(input) else stored
  }

  /** The gate: a remembered id that is one of the configured ids. A session
      that has never seen an id (`None`) is refused. */
  predicate Admitted(allow: AllowList, stored: Option<string>) {
    stored.Some? && stored.value in allow.Ids()
  }

  /** The remembered id after a series of reruns with the given inputs. */
  function AfterInputs(stored: Option<string>, inputs: seq<string>): Option<string>
    decreases |inputs|
  {
    if inputs == [] then stored else AfterInputs(StoreId(stored, inputs[0]), inputs[1..])
  }

  /** Reference definition: the last non-empty input, if any. */
  function LastNonEmpty(inputs: seq<string>): (r: Option<string>)
    ensures r.Some? ==> r.value != "" && r.value in inputs
    ensures r.None? ==> forall i :: 0 <= i < |inputs| ==> inputs[i] == ""
  {
    if inputs == [] then None
    else if inputs[|inputs| - 1] != "" then Some(inputs[|inputs| - 1])
    else LastNonEmpty(inputs[..|inputs| - 1])
  }

  lemma {:induction false} AfterInputsSnoc(stored: Option<string>, inputs: seq<string>, x: string)
    ensures AfterInputs(stored, inputs + [x]) == StoreId(AfterInputs(stored, inputs), x)
    decreases |inputs|
  {
    if inputs == [] {
      assert [] + [x] == [x];
    } else {
      assert (inputs + [x])[1..] == inputs[1..] + [x];
      AfterInputsSnoc(StoreId(stored, inputs[0]), inputs[1..], x);
    }
  }

  /** The remembered id is the last non-empty input; empty inputs leave the
      previous id in place. */
  lemma {:induction false} AfterInputsIsLastNonEmpty(stored: Option<string>, inputs: seq<string>)
    ensures AfterInputs(stored, inputs) == if LastNonEmpty(inputs).Some? then LastNonEmpty(inputs) else stored
    decreases |inputs|
  {
    if inputs != [] {
      var n := |inputs| - 1;
      assert inputs == inputs[..n] + [inputs[n]];
      AfterInputsSnoc(stored, inputs[..n], inputs[n]);
      AfterInputsIsLastNonEmpty(stored, inputs[..n]);
    }
  }

  /** From the start of a session, the workflow is entered exactly when some
      non-empty id has been typed and the last one typed is configured. */
  lemma SessionGate(allow: AllowList, inputs: seq<string>)
    ensures Admitted(allow, AfterInputs(None, inputs)) <==>
            LastNonEmpty(inputs).Some? && LastNonEmpty(inputs).value in allow.Ids()
  {
    AfterInputsIsLastNonEmpty(None, inputs);
  }
}
