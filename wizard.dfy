/** The `MultiFormRoutes` component: the wizard state it holds (`values`,
    `validSteps`), the session-storage entry it reads once and writes on every
    submit, the route indices it pushes, and the render-time decision between
    redirecting, showing the error modal and showing the form. */
module Wizard {
  import opened FormValues
  import opened PriceCodec
  import opened Persistence
  import opened StepRegistry
  import opened Reachability
  import opened ValueMerge

  /** A field name to error message map, as a page's validator returns it. */
  type Errors = map<string, string>

  /** One child page of the wizard; only its optional `validate` prop matters here. */
  datatype Page = Page(validate: Option<Values -> Errors>)

  /** The component's props. Routing owns `currentStep`, so it is passed to each
      operation instead. `pages` are the children, one per route, as a flat list of
      page elements. */
  datatype Props = Props(
    initialValues: Values,
    sessionStorageKey: string,
    steps: seq<Step>,
    routes: seq<string>,
    pages: seq<Page>,
    checkStorageReset: seq<int>,
    availableAdSlots: seq<Value>,
    handleStorageReset: Option<(Values, Option<Value>) -> Values>)

  /** The part of the form library's submit bag that `handleSubmit` changes. */
  class Bag {
    var touched: map<string, bool>
    var submitting: bool

    constructor (touched: map<string, bool>, submitting: bool)
      ensures this.touched == touched && this.submitting == submitting
    {
      this.touched := touched;
      this.submitting := submitting;
    }
  }

  /** What `render` produces. */
  datatype View =
    | Redirect(to: string)
      // a redirect with no available step: reading the target url throws
    | RedirectCrash
      // the error modal: there is no page at the current index
    | Unrecoverable
    | Form(values: Values, current: Option<StepId>, valid: seq<StepId>, inactive: seq<StepId>, isLastPage: bool)

  /** The route index `next` pushes: one past the current index, capped at the last page. */
  function NextIndex(cur: int, count: int): (r: int)
    ensures r <= cur + 1 && r <= count - 1
    ensures r == cur + 1 || r == count - 1
  {
    if cur + 1 <= count - 1 then cur + 1 else count - 1
  }

  /** The route index `previous` pushes: one before the current index, never below 0. */
  function PreviousIndex(cur: int): (r: int)
    ensures r >= cur - 1 && r >= 0
    ensures r == cur - 1 || r == 0
  {
    if cur - 1 >= 0 then cur - 1 else 0
  }

  /** From a page that exists, both directions stay among the pages, and each moves
      by one page unless it is already at the end it moves towards. */
  lemma NavigationInRange(cur: int, count: int)
    requires 0 <= cur < count
    ensures 0 <= NextIndex(cur, count) < count && 0 <= PreviousIndex(cur) < count
    ensures NextIndex(cur, count) == (if cur == count - 1 then cur else cur + 1)
    ensures PreviousIndex(cur) == (if cur == 0 then 0 else cur - 1)
  {
  }

  /** The values the constructor starts from: whatever is persisted under the key,
      as it is (no price conversion), or else the caller's initial values with the
      price converted to major units. */
  function SeedValues(store: Store, key: string, initialValues: Values): (r: Values)
    ensures LoadCached(store, key).Some? ==> r == LoadCached(store, key).value
    ensures LoadCached(store, key).None? ==> r == ToDisplay(initialValues)
  {
    match LoadCached(store, key)
    case Some(parsed) => parsed
    case None => ToDisplay(initialValues)
  }

  /** After a final submit has written the empty string, the next wizard starts
      again from the caller's initial values. */
  lemma SeedAfterFinalSubmit(store: Store, key: string, initialValues: Values)
    ensures SeedValues(store[key := Empty], key, initialValues) == ToDisplay(initialValues)
  {
    LoadAfterClear(store, key);
  }

  /** After an intermediate submit, the next wizard resumes from the saved values,
      which are not converted again. */
  lemma SeedAfterSave(store: Store, key: string, initialValues: Values, saved: Values)
    requires NoNaN(saved)
    ensures SeedValues(store[key := Stringify(saved)], key, initialValues) == saved
  {
    LoadAfterSave(store, key, saved);
  }

  class MultiFormRoutes {
    const props: Props
    var values: Values
    var validSteps: seq<StepId>
    /** The session storage, key to stored string. */
    var store: Store
    /** The route indices given to `history.push`, oldest first. */
    var pushed: seq<int>
    /** The value objects handed to `onSubmit`, oldest first. */
    var onSubmitCalls: seq<Values>

    /** `validSteps` is always the valid steps of the current `values`. */
    ghost predicate Valid()
      reads this
    {
      validSteps == ValidSteps(props.steps, values)
    }

    /** Every route index pushed so far names a page. */
    ghost predicate PushedInRange()
      reads this
    {
      forall i :: 0 <= i < |pushed| ==> 0 <= pushed[i] < |props.pages|
    }

    function PageCount(): nat {
      |props.pages|
    }

    predicate IsLastPage(cur: int) {
      cur == |props.pages| - 1
    }

    constructor (props: Props, store: Store)
      ensures this.props == props && this.store == store
      ensures values == SeedValues(store, props.sessionStorageKey, props.initialValues)
      ensures Valid()
      ensures pushed == [] && onSubmitCalls == []
    {
      this.props := props;
      this.store := store;
      var cached := LoadCached(store, props.sessionStorageKey);
      var newValues := ToDisplay(props.initialValues);
      var stateValues := if cached.Some? then cached.value else newValues;
      values := stateValues;
      validSteps := ValidSteps(props.steps, stateValues);
      pushed := [];
      onSubmitCalls := [];
    }

    /** Advance: commit the values and their valid steps, then push the next route. */
    method Next(cur: int, newValues: Values)
      modifies this
      ensures values == newValues && Valid()
      ensures pushed == old(pushed) + [NextIndex(cur, PageCount())]
      ensures store == old(store) && onSubmitCalls == old(onSubmitCalls)
      ensures 0 <= cur < PageCount() && old(PushedInRange()) ==> PushedInRange()
    {
      var valid := ValidSteps(props.steps, newValues);
      values, validSteps := newValues, valid;
      pushed := pushed + [NextIndex(cur, PageCount())];
    }

    /** Go back: push the previous route; nothing else changes. */
    method Previous(cur: int)
      modifies this
      ensures pushed == old(pushed) + [PreviousIndex(cur)]
      ensures values == old(values) && validSteps == old(validSteps)
      ensures store == old(store) && onSubmitCalls == old(onSubmitCalls)
      ensures 0 <= cur < PageCount() && old(PushedInRange()) ==> PushedInRange()
    {
      pushed := pushed + [PreviousIndex(cur)];
    }

    /** The active page's validator applied to the values, or no errors when it has
        none. `None` stands for the `TypeError` of reading the props of a missing page. */
    function Validate(cur: int, formValues: Values): (r: Option<Errors>)
      ensures r.Some? <==> 0 <= cur < PageCount()
      ensures r.Some? && props.pages[cur].validate.None? ==> r.value == map[]
      ensures r.Some? && props.pages[cur].validate.Some? ==>
                r.value == props.pages[cur].validate.value(formValues)
    {
      if 0 <= cur < |props.pages| then
        match props.pages[cur].validate
        case Some(validator) => Some(validator(formValues))
        case None => Some(map[])
      else None
    }

    /** The first available ad slot, undefined when there is none. */
    function SelectedSlot(): (r: Option<Value>)
      ensures r.Some? <==> |props.availableAdSlots| > 0
      ensures r.Some? ==> r.value == props.availableAdSlots[0]
    {
      if |props.availableAdSlots| > 0 then Some(props.availableAdSlots[0]) else None
    }

    /** The values an intermediate submit saves: reshaped by the storage-reset hook
        when the current step is one of `checkStorageReset` and a hook is given,
        the submitted values otherwise. */
    function ResetValues(cur: int, formValues: Values): (r: Values)
      ensures cur !in props.checkStorageReset || props.handleStorageReset.None? ==> r == formValues
      ensures cur in props.checkStorageReset && props.handleStorageReset.Some? ==>
                r == props.handleStorageReset.value(formValues, SelectedSlot())
    {
      if cur in props.checkStorageReset && props.handleStorageReset.Some? then
        props.handleStorageReset.value(formValues, SelectedSlot())
      else formValues
    }

    /** Submit the current page. On the last page: convert the price back to
        minor units, clear the stored entry and call `onSubmit` once, with no
        navigation and no change to the wizard's values. On any other page: save
        the (possibly reset) values, advance with `next`, and clear the bag's
        touched fields and submitting flag. */
    method HandleSubmit(cur: int, formValues: Values, bag: Bag)
      modifies this, bag
      ensures IsLastPage(cur) ==>
                && store == old(store)[props.sessionStorageKey := Empty]
                && onSubmitCalls == old(onSubmitCalls) + [ToStorage(formValues)]
                && values == old(values) && validSteps == old(validSteps)
                && pushed == old(pushed)
                && bag.touched == old(bag.touched) && bag.submitting == old(bag.submitting)
      ensures !IsLastPage(cur) ==>
                var saved := ResetValues(cur, formValues);
                && store == old(store)[props.sessionStorageKey := Stringify(saved)]
                && values == saved && validSteps == ValidSteps(props.steps, saved)
                && pushed == old(pushed) + [NextIndex(cur, PageCount())]
                && onSubmitCalls == old(onSubmitCalls)
                && bag.touched == map[] && !bag.submitting
      ensures old(Valid()) ==> Valid()
      ensures 0 <= cur < PageCount() && old(PushedInRange()) ==> PushedInRange()
    {
      if IsLastPage(cur) {
        var newValues := ToStorage(formValues);
        store := store[props.sessionStorageKey := Empty];
        onSubmitCalls := onSubmitCalls + [newValues];
        return;
      }
      var newValues := ResetValues(cur, formValues);
      store := store[props.sessionStorageKey := Stringify(newValues)];
      Next(cur, newValues);
      bag.touched := map[];
      bag.submitting := false;
    }

    /** The decision `render` makes before drawing anything: redirect when the
        current index is -1 or names an inactive step; otherwise the error modal
        when there is no page at the index; otherwise the form, seeded with the
        wizard's values merged with the caller's initial values. */
    function Render(cur: int): (view: View)
      reads this
      ensures var inactive := InactiveSteps(props.steps, validSteps);
              && ((view.Redirect? || view.RedirectCrash?) <==> ShouldRedirect(props.steps, inactive, cur))
              && (view.Redirect? ==> RedirectTarget(props.steps, inactive, validSteps) == Some(view.to))
              && (view.RedirectCrash? ==> RedirectTarget(props.steps, inactive, validSteps).None?)
              && (view.Unrecoverable? <==> !ShouldRedirect(props.steps, inactive, cur) && !(0 <= cur < PageCount()))
              && (view.Form? ==>
                    && view.values == MergeWith(values, props.initialValues)
                    && view.valid == validSteps && view.inactive == inactive
                    && view.isLastPage == IsLastPage(cur)
                    && view.current == (if 0 <= cur < |props.steps| then Some(props.steps[cur].id) else None))
    {
      var inactive := InactiveSteps(props.steps, validSteps);
      if ShouldRedirect(props.steps, inactive, cur) then
        match RedirectTarget(props.steps, inactive, validSteps)
        case Some(url) => Redirect(url)
        case None => RedirectCrash
      else if !(0 <= cur < |props.pages|) then Unrecoverable
      else
        var current := if 0 <= cur < |props.steps| then Some(props.steps[cur].id) else None;
        Form(MergeWith(values, props.initialValues), current, validSteps, inactive, IsLastPage(cur))
    }
  }

  /** For a wizard whose state is consistent and whose step ids are distinct, a
      visitor on a step two or more places past the last complete one is sent to
      the first incomplete step. */
  lemma RenderSendsToFirstIncomplete(w: MultiFormRoutes, cur: int, j: int)
    requires w.Valid() && UniqueIds(w.props.steps)
    requires 0 <= cur < |w.props.steps| && cur >= LastComplete(w.props.steps, w.values) + 2
    requires 0 <= j < |w.props.steps| && !Complete(w.props.steps[j], w.values)
    requires forall i :: 0 <= i < j ==> Complete(w.props.steps[i], w.values)
    ensures w.Render(cur) == Redirect(w.props.steps[j].url)
  {
    RedirectIffUnreachable(w.props.steps, w.values, cur);
    RedirectToFirstIncomplete(w.props.steps, w.values, j);
  }
}
