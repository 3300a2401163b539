/** The ordered step definitions and the pure queries over them: which steps are
    valid (all required fields filled) and which are inactive (not reachable yet). */
module StepRegistry {
  import opened FormValues

  type StepId = string

  /** One page of the wizard: its id, the names of its required fields, its url. */
  datatype Step = Step(id: StepId, fields: seq<string>, url: string)

  /** Every required field of the step holds a truthy value. */
  predicate Complete(step: Step, values: Values) {
    forall f :: f in step.fields ==> FieldTruthy(values, f)
  }

  predicate UniqueIds(steps: seq<Step>) {
    forall i, j :: 0 <= i < j < |steps| ==> steps[i].id != steps[j].id
  }

  /** The ids of the steps, in order. */
  function Ids(steps: seq<Step>): (r: seq<StepId>)
    ensures |r| == |steps|
    ensures forall i :: 0 <= i < |steps| ==> r[i] == steps[i].id
  {
    seq(|steps|, i requires 0 <= i < |steps| => steps[i].id)
  }

  lemma IdsAppend(a: seq<Step>, b: seq<Step>)
    ensures Ids(a + b) == Ids(a) + Ids(b)
  {
  }

  /** `x` is one of the ids of `steps`, spelled out by index. */
  lemma IdsMembership(steps: seq<Step>, x: StepId)
    ensures x in Ids(steps) <==> exists i :: 0 <= i < |steps| && steps[i].id == x
  {
    if x in Ids(steps) {
      var i :| 0 <= i < |steps| && Ids(steps)[i] == x;
      assert steps[i].id == x;
    }
  }

  /** The complete steps, in order. */
  function CompleteSteps(steps: seq<Step>, values: Values): seq<Step>
  {
    if steps == [] then []
    else (if Complete(steps[0], values) then [steps[0]] else []) + CompleteSteps(steps[1..], values)
  }

  /** The valid steps: the ids of the complete steps, in step order. */
  function ValidSteps(steps: seq<Step>, values: Values): seq<StepId>
  {
    Ids(CompleteSteps(steps, values))
  }

  /** `a` is `b` with some elements dropped, order kept. */
  predicate IsSubsequence(a: seq<StepId>, b: seq<StepId>)
    decreases |b|
  {
    if a == [] then true
    else if b == [] then false
    else (a[0] == b[0] && IsSubsequence(a[1..], b[1..])) || IsSubsequence(a, b[1..])
  }

  lemma ValidStepsCons(steps: seq<Step>, values: Values)
    requires steps != []
    ensures ValidSteps(steps, values) ==
              (if Complete(steps[0], values) then [steps[0].id] else []) + ValidSteps(steps[1..], values)
  {
    var head := if Complete(steps[0], values) then [steps[0]] else [];
    IdsAppend(head, CompleteSteps(steps[1..], values));
  }

  /** A valid step id is the id of a complete step, and every complete step's id is valid. */
  lemma {:induction false} ValidStepsMembership(steps: seq<Step>, values: Values, x: StepId)
    ensures x in ValidSteps(steps, values) <==>
              exists i :: 0 <= i < |steps| && steps[i].id == x && Complete(steps[i], values)
  {
    if steps != [] {
      ValidStepsCons(steps, values);
      ValidStepsMembership(steps[1..], values, x);
      if x in ValidSteps(steps[1..], values) {
        var i :| 0 <= i < |steps[1..]| && steps[1..][i].id == x && Complete(steps[1..][i], values);
        assert steps[i + 1].id == x && Complete(steps[i + 1], values);
      }
      if exists i :: 0 <= i < |steps| && steps[i].id == x && Complete(steps[i], values) {
        var i :| 0 <= i < |steps| && steps[i].id == x && Complete(steps[i], values);
        if i > 0 {
          assert steps[1..][i - 1] == steps[i];
        }
      }
    }
  }

  /** The valid ids keep the order of the steps. */
  lemma {:induction false} ValidStepsInStepOrder(steps: seq<Step>, values: Values)
    ensures IsSubsequence(ValidSteps(steps, values), Ids(steps))
  {
    if steps != [] {
      ValidStepsCons(steps, values);
      ValidStepsInStepOrder(steps[1..], values);
      var a, b := ValidSteps(steps, values), Ids(steps);
      assert b[1..] == Ids(steps[1..]);
      if Complete(steps[0], values) {
        assert a[0] == b[0] && a[1..] == ValidSteps(steps[1..], values);
      } else if a != [] {
        assert a == ValidSteps(steps[1..], values);
      }
    }
  }

  /** With distinct ids, a step is valid exactly when it is complete. */
  lemma ValidIffComplete(steps: seq<Step>, values: Values, i: int)
    requires UniqueIds(steps) && 0 <= i < |steps|
    ensures steps[i].id in ValidSteps(steps, values) <==> Complete(steps[i], values)
  {
    ValidStepsMembership(steps, values, steps[i].id);
  }

  /** The index of the last complete step, or -1 when no step is complete. */
  function LastComplete(steps: seq<Step>, values: Values): (k: int)
    ensures -1 <= k < |steps|
    ensures k >= 0 ==> Complete(steps[k], values)
    ensures forall i :: k < i < |steps| ==> !Complete(steps[i], values)
  {
    if steps == [] then -1
    else
      var j := LastComplete(steps[1..], values);
      assert forall i :: j + 1 < i < |steps| ==> steps[i] == steps[1..][i - 1];
      if j >= 0 then j + 1
      else if Complete(steps[0], values) then 0
      else -1
  }

  /** The last element, or nothing (undefined) for an empty list. */
  function Last(valid: seq<StepId>): (r: Option<StepId>)
    ensures r.None? <==> valid == []
    ensures r.Some? ==> r.value == valid[|valid| - 1]
  {
    if valid == [] then None else Some(valid[|valid| - 1])
  }

  /** The last valid id is the id of the last complete step. */
  lemma {:induction false} LastValidIsLastComplete(steps: seq<Step>, values: Values)
    ensures Last(ValidSteps(steps, values)).None? <==> LastComplete(steps, values) == -1
    ensures LastComplete(steps, values) >= 0 ==>
              Last(ValidSteps(steps, values)) == Some(steps[LastComplete(steps, values)].id)
  {
    if steps != [] {
      ValidStepsCons(steps, values);
      LastValidIsLastComplete(steps[1..], values);
    }
  }

  /** The first index whose id is strictly equal to `x`,
      or -1. An `undefined` `x` (the last of an empty list) matches no string id. */
  function FindIndex(steps: seq<Step>, x: Option<StepId>): (r: int)
    ensures -1 <= r < |steps|
    ensures r >= 0 ==> Some(steps[r].id) == x
    ensures forall j :: 0 <= j < |steps| && (r == -1 || j < r) ==> Some(steps[j].id) != x
  {
    if steps == [] then -1
    else if Some(steps[0].id) == x then 0
    else
      var j := FindIndex(steps[1..], x);
      assert forall i :: 0 < i < |steps| ==> steps[i] == steps[1..][i - 1];
      if j == -1 then -1 else j + 1
  }

  function Min(a: int, b: int): int {
    if a <= b then a else b
  }

  /** The inactive steps: the ids of every step from two places past the first
      occurrence of the last valid id (from index 1 when that id is not found). */
  function InactiveSteps(steps: seq<Step>, valid: seq<StepId>): (r: seq<StepId>)
    ensures |r| <= |steps| && (|steps| > 0 ==> |r| < |steps|)
    ensures forall i :: 0 <= i < |r| ==> r[i] == steps[|steps| - |r| + i].id
  {
    var start := Min(FindIndex(steps, Last(valid)) + 2, |steps|);
    var r := Ids(steps[start..]);
    assert forall i :: 0 <= i < |r| ==> r[i] == steps[start + i].id;
    r
  }

  /** With no valid step, or a last valid id that names no step, only the first step is active. */
  lemma InactiveWithoutProgress(steps: seq<Step>, valid: seq<StepId>)
    requires valid == [] || forall i :: 0 <= i < |steps| ==> steps[i].id != valid[|valid| - 1]
    ensures InactiveSteps(steps, valid) == Ids(steps[Min(1, |steps|)..])
  {
  }

  /** Otherwise every step from two past the last valid one is inactive. */
  lemma InactiveAfterLastValid(steps: seq<Step>, valid: seq<StepId>, k: int)
    requires valid != [] && 0 <= k < |steps| && steps[k].id == valid[|valid| - 1]
    requires forall j :: 0 <= j < k ==> steps[j].id != steps[k].id
    ensures InactiveSteps(steps, valid) == Ids(steps[Min(k + 2, |steps|)..])
  {
    assert FindIndex(steps, Last(valid)) == k;
  }

  /** Steps A(x), B(y), C(z) with values {x: 1}: A is valid, B is the step to fill in, C is inactive. */
  lemma ThreeStepExample()
    ensures var steps := [Step("A", ["x"], "/a"), Step("B", ["y"], "/b"), Step("C", ["z"], "/c")];
            var valid := ValidSteps(steps, map["x" := Num(1.0)]);
            valid == ["A"] && InactiveSteps(steps, valid) == ["C"]
  {
    var steps := [Step("A", ["x"], "/a"), Step("B", ["y"], "/b"), Step("C", ["z"], "/c")];
    var values := map["x" := Num(1.0)];
    assert Complete(steps[0], values);
    assert !Complete(steps[1], values) by { assert "y" in steps[1].fields; }
    assert !Complete(steps[2], values) by { assert "z" in steps[2].fields; }
    ValidStepsCons(steps, values);
    ValidStepsCons(steps[1..], values);
    ValidStepsCons(steps[2..], values);
    assert steps[1..][1..] == steps[2..];
    assert ValidSteps(steps, values) == ["A"];
    assert FindIndex(steps, Some("A")) == 0;
  }

  /** With distinct ids, `lastValidIndex` is the index of the last complete step. */
  lemma LastValidIndex(steps: seq<Step>, values: Values)
    requires UniqueIds(steps)
    ensures FindIndex(steps, Last(ValidSteps(steps, values))) == LastComplete(steps, values)
  {
    LastValidIsLastComplete(steps, values);
  }

  /** With distinct ids, a step is inactive exactly when it lies two or more places
      past the last complete step. */
  lemma InactiveIffBeyondNext(steps: seq<Step>, values: Values, i: int)
    requires UniqueIds(steps) && 0 <= i < |steps|
    ensures steps[i].id in InactiveSteps(steps, ValidSteps(steps, values)) <==>
              i >= LastComplete(steps, values) + 2
  {
    LastValidIndex(steps, values);
    var s := Min(LastComplete(steps, values) + 2, |steps|);
    var tail := steps[s..];
    IdsMembership(tail, steps[i].id);
    if i >= s {
      assert tail[i - s] == steps[i];
    }
    if exists j :: 0 <= j < |tail| && tail[j].id == steps[i].id {
      var j :| 0 <= j < |tail| && tail[j].id == steps[i].id;
      assert steps[s + j].id == steps[i].id;
    }
  }
}
