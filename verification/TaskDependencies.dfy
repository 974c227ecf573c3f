// Dependency indexes of planned tasks: cleaning what the model proposed, and
// dropping the edges that other edges already imply.
module TaskDependencies {
  import opened Digraph
  import opened Sequences

  // A JSON number, as far as Number.isInteger can tell.
  datatype JsNumber = Integer(value: int) | NotInteger

  type Deps = seq<seq<nat>>

  function GraphOf(deps: Deps): Graph<nat> {
    map i | 0 <= i < |deps| :: set d | d in deps[i]
  }

  // Every dependency index is smaller than the index of its task.
  ghost predicate Backward(deps: Deps) {
    forall i, d: nat :: 0 <= i < |deps| && d in deps[i] ==> d < i
  }

  predicate ValidDependency(dep: JsNumber, index: nat, count: nat) {
    dep.Integer? && 0 <= dep.value < count && dep.value != index && dep.value < index
  }

  function KeepValid(raw: seq<JsNumber>, index: nat, count: nat): seq<nat> {
    if raw == [] then [] else
      var last := raw[|raw| - 1];
      var r := KeepValid(raw[..|raw| - 1], index, count);
      if ValidDependency(last, index, count) then r + [last.value] else r
  }

  lemma {:induction false} KeepValidIff(raw: seq<JsNumber>, index: nat, count: nat)
    ensures |KeepValid(raw, index, count)| <= |raw|
    ensures forall d: nat ::
      d in KeepValid(raw, index, count) <==> Integer(d) in raw && ValidDependency(Integer(d), index, count)
    ensures |KeepValid(raw, index, count)| == |raw| ==> AsRaw(KeepValid(raw, index, count)) == raw
  {
    if raw != [] {
      KeepValidIff(raw[..|raw| - 1], index, count);
      assert raw == raw[..|raw| - 1] + [raw[|raw| - 1]];
    }
  }

  function Sanitized(raw: seq<JsNumber>, index: nat, count: nat): seq<nat> {
    Dedup(KeepValid(raw, index, count))
  }

  function AsRaw(deps: seq<nat>): seq<JsNumber> {
    seq(|deps|, k requires 0 <= k < |deps| => Integer(deps[k]))
  }

  function SanitizedDeps(raw: seq<seq<JsNumber>>): (deps: Deps) {
    seq(|raw|, i requires 0 <= i < |raw| => Sanitized(raw[i], i, |raw|))
  }

  // The list of the task is not already what it should be.
  predicate NeedsCorrection(raw: seq<seq<JsNumber>>, i: nat)
    requires i < |raw|
  {
    AsRaw(Sanitized(raw[i], i, |raw|)) != raw[i]
  }

  // How many of the first tasks need it.
  function CorrectedAmong(raw: seq<seq<JsNumber>>, count: nat): nat
    requires count <= |raw|
  {
    if count == 0 then 0 else CorrectedAmong(raw, count - 1) + (if NeedsCorrection(raw, count - 1) then 1 else 0)
  }

  // sanitizeTaskDependencyIndexes: a task is counted as corrected exactly when its
  // list changed.
  method SanitizeTaskDependencyIndexes(raw: seq<seq<JsNumber>>) returns (deps: Deps, corrected: nat)
    ensures deps == SanitizedDeps(raw)
    ensures corrected == CorrectedAmong(raw, |raw|)
  {
    deps, corrected := [], 0;
    for index := 0 to |raw|
      invariant deps == SanitizedDeps(raw)[..index]
      invariant corrected == CorrectedAmong(raw, index)
    {
      var normalized := Sanitized(raw[index], index, |raw|);
      deps := deps + [normalized];
      LengthTellsChange(raw, index);
      if |normalized| != |raw[index]| {
        corrected := corrected + 1;
      }
    }
  }

  // The sanitised plan names, for every task, exactly the proposed indexes of
  // earlier tasks, each once.
  lemma SanitizedIsBackward(raw: seq<seq<JsNumber>>)
    ensures Backward(SanitizedDeps(raw))
    ensures forall i :: 0 <= i < |raw| ==> NoDuplicates(SanitizedDeps(raw)[i])
    ensures forall i, d: nat :: 0 <= i < |raw| ==> (d in SanitizedDeps(raw)[i] <==> d < i && Integer(d) in raw[i])
  {
    forall i | 0 <= i < |raw|
      ensures forall d: nat :: d in SanitizedDeps(raw)[i] <==> d < i && Integer(d) in raw[i]
    {
      SanitizedIff(raw[i], i, |raw|);
    }
  }

  lemma SanitizedIff(raw: seq<JsNumber>, index: nat, count: nat)
    requires index < count
    ensures forall d: nat :: d in Sanitized(raw, index, count) <==> d < index && Integer(d) in raw
  {
    KeepValidIff(raw, index, count);
  }

  // Comparing lengths is enough to see whether a list was corrected.
  lemma LengthTellsChange(raw: seq<seq<JsNumber>>, index: nat)
    requires index < |raw|
    ensures |Sanitized(raw[index], index, |raw|)| != |raw[index]| <==> NeedsCorrection(raw, index)
  {
    var kept := KeepValid(raw[index], index, |raw|);
    KeepValidIff(raw[index], index, |raw|);
    if |Dedup(kept)| == |raw[index]| {
      assert Dedup(kept) == kept;
    }
  }
}
