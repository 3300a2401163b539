/** The render-time decision to send a visitor who opened an unreachable step back
    to the first step still to be filled in. */
module Reachability {
  import opened FormValues
  import opened StepRegistry

  /** A step the redirect may land on: neither inactive nor already valid. */
  predicate Available(step: Step, inactive: seq<StepId>, valid: seq<StepId>) {
    step.id !in inactive && step.id !in valid
  }

  /** The steps, in order, whose id is in neither list (two filters in the source, one here). */
  function AvailableSteps(steps: seq<Step>, inactive: seq<StepId>, valid: seq<StepId>): seq<Step>
  {
    if steps == [] then []
    else (if Available(steps[0], inactive, valid) then [steps[0]] else [])
         + AvailableSteps(steps[1..], inactive, valid)
  }

  /** The head of the filtered list is the first available step; the list is empty
      exactly when no step is available. */
  lemma {:induction false} AvailableHead(steps: seq<Step>, inactive: seq<StepId>, valid: seq<StepId>)
    ensures AvailableSteps(steps, inactive, valid) == [] <==>
              forall i :: 0 <= i < |steps| ==> !Available(steps[i], inactive, valid)
    ensures AvailableSteps(steps, inactive, valid) != [] ==>
              exists j :: 0 <= j < |steps| && AvailableSteps(steps, inactive, valid)[0] == steps[j]
                       && Available(steps[j], inactive, valid)
                       && forall i :: 0 <= i < j ==> !Available(steps[i], inactive, valid)
  {
    if steps != [] {
      AvailableHead(steps[1..], inactive, valid);
      assert forall i :: 0 < i < |steps| ==> steps[i] == steps[1..][i - 1];
      if !Available(steps[0], inactive, valid) && AvailableSteps(steps[1..], inactive, valid) != [] {
        var j :| 0 <= j < |steps[1..]| && AvailableSteps(steps[1..], inactive, valid)[0] == steps[1..][j]
                 && Available(steps[1..][j], inactive, valid)
                 && forall i :: 0 <= i < j ==> !Available(steps[1..][i], inactive, valid);
        assert AvailableSteps(steps, inactive, valid)[0] == steps[j + 1];
      }
    }
  }

  /** The url of the first available step. The source's fallback to the whole step list
      never applies, since an empty array is truthy in JavaScript: `None` stands for the `TypeError` that
      reading `.url` of `undefined` throws. */
  function RedirectTarget(steps: seq<Step>, inactive: seq<StepId>, valid: seq<StepId>): (r: Option<string>)
    ensures r.None? <==> forall i :: 0 <= i < |steps| ==> !Available(steps[i], inactive, valid)
    ensures r.Some? ==>
              exists j :: 0 <= j < |steps| && r.value == steps[j].url && Available(steps[j], inactive, valid)
                       && forall i :: 0 <= i < j ==> !Available(steps[i], inactive, valid)
  {
    AvailableHead(steps, inactive, valid);
    var available := AvailableSteps(steps, inactive, valid);
    if available == [] then None else Some(available[0].url)
  }

  /** The current index is -1, or it names a step whose id is inactive. An index
      outside the steps has no id and so is never inactive. */
  predicate ShouldRedirect(steps: seq<Step>, inactive: seq<StepId>, cur: int) {
    cur == -1 || (0 <= cur < |steps| && steps[cur].id in inactive)
  }

  /** With distinct ids and `valid` computed from `values`, a step is available
      exactly when it is incomplete and no more than one place past the last complete step. */
  lemma AvailableIff(steps: seq<Step>, values: Values, i: int)
    requires UniqueIds(steps) && 0 <= i < |steps|
    ensures var valid := ValidSteps(steps, values);
            Available(steps[i], InactiveSteps(steps, valid), valid) <==>
              !Complete(steps[i], values) && i < LastComplete(steps, values) + 2
  {
    ValidIffComplete(steps, values, i);
    InactiveIffBeyondNext(steps, values, i);
  }

  /** For a step inside the list, the redirect fires exactly when the step lies two
      or more places past the last complete step. */
  lemma RedirectIffUnreachable(steps: seq<Step>, values: Values, cur: int)
    requires UniqueIds(steps) && 0 <= cur < |steps|
    ensures ShouldRedirect(steps, InactiveSteps(steps, ValidSteps(steps, values)), cur) <==>
              cur >= LastComplete(steps, values) + 2
  {
    InactiveIffBeyondNext(steps, values, cur);
  }

  /** The redirect lands on the first incomplete step. */
  lemma RedirectToFirstIncomplete(steps: seq<Step>, values: Values, j: int)
    requires UniqueIds(steps) && 0 <= j < |steps| && !Complete(steps[j], values)
    requires forall i :: 0 <= i < j ==> Complete(steps[i], values)
    ensures var valid := ValidSteps(steps, values);
            RedirectTarget(steps, InactiveSteps(steps, valid), valid) == Some(steps[j].url)
  {
    var valid := ValidSteps(steps, values);
    var inactive := InactiveSteps(steps, valid);
    var k := LastComplete(steps, values);
    forall i | 0 <= i < |steps|
      ensures Available(steps[i], inactive, valid) <==> !Complete(steps[i], values) && i < k + 2
    {
      AvailableIff(steps, values, i);
    }
    // The step right after the last complete one is incomplete, so the first
    // incomplete step comes no later than it.
    assert k + 1 < |steps| ==> !Complete(steps[k + 1], values);
    assert j < k + 2;
    assert Available(steps[j], inactive, valid);
    var r := RedirectTarget(steps, inactive, valid);
    var j' :| 0 <= j' < |steps| && r.value == steps[j'].url && Available(steps[j'], inactive, valid)
              && forall i :: 0 <= i < j' ==> !Available(steps[i], inactive, valid);
    assert j' == j;
  }

  /** The redirect has no target, and the written code throws, exactly when every
      step is complete. */
  lemma RedirectFailsIffAllComplete(steps: seq<Step>, values: Values)
    requires UniqueIds(steps)
    ensures var valid := ValidSteps(steps, values);
            RedirectTarget(steps, InactiveSteps(steps, valid), valid).None? <==>
              forall i :: 0 <= i < |steps| ==> Complete(steps[i], values)
  {
    var valid := ValidSteps(steps, values);
    var inactive := InactiveSteps(steps, valid);
    var k := LastComplete(steps, values);
    forall i | 0 <= i < |steps|
      ensures Available(steps[i], inactive, valid) <==> !Complete(steps[i], values) && i < k + 2
    {
      AvailableIff(steps, values, i);
    }
    if exists i :: 0 <= i < |steps| && !Complete(steps[i], values) {
      var i :| 0 <= i < |steps| && !Complete(steps[i], values);
      if k + 1 < |steps| {
        assert Available(steps[k + 1], inactive, valid);
      } else {
        assert Available(steps[i], inactive, valid);
      }
    }
  }
}
