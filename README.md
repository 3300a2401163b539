# MultiFormRoutes wizard model

This project is a Dafny model of the state machine inside the `MultiFormRoutes` React
component of formik-multipage. The component drives a multi-step form wizard. It has an
ordered list of steps, and each step has an id, required fields and a url. The component:

- keeps the wizard's `values` and the ids of the steps whose required fields are all filled (`validSteps`);
- persists in-progress answers in session storage under a caller-chosen key;
- computes which steps cannot be reached yet (`inactive`);
- redirects a visitor who opened such a step to the first step still to be filled in;
- advances or goes back one route at a time;
- on the last page, converts the price back to minor units, clears the stored entry and calls `onSubmit`.

Modules, one per component of the wizard:

- `FormValues`: the JavaScript values a form holds (`Value`), JavaScript truthiness, and `Option`.
- `PriceCodec`: the `price` conversion, ÷100 when the initial values are loaded and ×100 on the final submit.
- `Persistence`: the session-storage entry. It is either the empty string or the JSON text of a value object.
- `StepRegistry`: `Step`, `ValidSteps` (`getValidSteps`), `FindIndex`, `InactiveSteps` (`getInactiveSteps`).
- `Reachability`: the redirect test and the redirect target from `render`.
- `ValueMerge`: the `R.mergeWith` reconciliation of the wizard's values with the caller's `initialValues`.
- `Wizard`: props, the form library's submit bag, the render outcome, and the class
  `MultiFormRoutes`. Its constructor, `Next`, `Previous` and `HandleSubmit` update its fields in place.

What the model takes as parameters:

- Session storage is the map field `store`. It is passed to the constructor and written by `HandleSubmit`.
- `history.push` appends a route index to the field `pushed`.
- `onSubmit` appends the value object it receives to `onSubmitCalls`.
- The storage-reset hook and the page validators are function-valued props.
- The current step index belongs to the router, so it is an argument of every operation.

Places where the code does something one might not expect, modelled as written:

- The redirect has no working fallback. `(availableSteps || steps)[0]` never falls back to
  `steps[0]`, because an empty array is truthy. With no available step, `render` reads `.url`
  of `undefined` and throws. `RedirectTarget` returns `None` and `Render` returns
  `RedirectCrash` in that case. `RedirectFailsIffAllComplete` shows that, with distinct step
  ids, this happens exactly when every step is complete.
- Persisted values are used as they are. Only the caller's `initialValues` get the ÷100 price
  conversion (`SeedValues`).
- A stored entry that is not valid JSON would make `JSON.parse` throw. Nothing catches it, so
  the model has no "treat as absent" path for it.
- The code counts and indexes its children in three ways. `next` uses `children.length`, which
  counts top-level entries. `handleSubmit` uses `React.Children.count`, which flattens nested
  arrays and counts empty nodes. `validate` and `render` use `React.Children.toArray`, which
  flattens and drops empty nodes. The three agree only for a flat array of page elements, and
  that is what `pages` stands for here.

## Model

| member | source | states |
|---|---|---|
| `StepRegistry.ValidStepsMembership` | src/components/MultiPageForm/MultiPageForm.js:64-68 | an id is valid iff some step with that id has every required field truthy; an absent field counts as falsy |
| `StepRegistry.ValidStepsInStepOrder` | src/components/MultiPageForm/MultiPageForm.js:64-68 | the valid ids are a subsequence of the step ids, in step order |
| `StepRegistry.ValidIffComplete` | src/components/MultiPageForm/MultiPageForm.js:64-68 | with distinct ids, step i is valid iff all its required fields are truthy |
| `StepRegistry.LastComplete` | src/components/MultiPageForm/MultiPageForm.js:64-68 | the index of the last complete step (or -1): that step is complete and every later one is not |
| `StepRegistry.LastValidIsLastComplete` | src/components/MultiPageForm/MultiPageForm.js:64-71 | the last valid id is the id of the last complete step; there is none iff no step is complete |
| `StepRegistry.Last` | src/components/MultiPageForm/MultiPageForm.js:71 | `R.last`: nothing for an empty list, otherwise its last element |
| `StepRegistry.FindIndex` | src/components/MultiPageForm/MultiPageForm.js:72 | the first index whose id matches, or -1 when none does; an undefined id matches nothing |
| `StepRegistry.InactiveSteps` | src/components/MultiPageForm/MultiPageForm.js:70-74 | the inactive ids are a suffix of the step ids that never includes the first step |
| `StepRegistry.InactiveWithoutProgress` | src/components/MultiPageForm/MultiPageForm.js:70-74 | with no valid id, or a last valid id that names no step, everything from index 1 is inactive |
| `StepRegistry.InactiveAfterLastValid` | src/components/MultiPageForm/MultiPageForm.js:70-74 | when the last valid id first occurs at index k, the steps from k + 2 on are inactive |
| `StepRegistry.ThreeStepExample` | src/components/MultiPageForm/MultiPageForm.js:64-74 | steps A(x), B(y), C(z) with {x: 1}: valid is [A], inactive is [C] |
| `StepRegistry.LastValidIndex` | src/components/MultiPageForm/MultiPageForm.js:70-72 | with distinct ids, `lastValidIndex` is the index of the last complete step |
| `StepRegistry.InactiveIffBeyondNext` | src/components/MultiPageForm/MultiPageForm.js:70-74 | with distinct ids, step i is inactive iff i is at least two past the last complete step |
| `Reachability.AvailableHead` | src/components/MultiPageForm/MultiPageForm.js:165-167 | the filtered list is empty iff no step is available; otherwise its head is the first available step |
| `Reachability.RedirectTarget` | src/components/MultiPageForm/MultiPageForm.js:165-168 | the url of the first step that is neither inactive nor valid; nothing (the read throws) iff there is no such step |
| `Reachability.AvailableIff` | src/components/MultiPageForm/MultiPageForm.js:161-167 | with distinct ids and consistent validity, a step is available iff it is incomplete and at most one past the last complete step |
| `Reachability.RedirectIffUnreachable` | src/components/MultiPageForm/MultiPageForm.js:161-164 | for an index inside the steps, the redirect fires iff the index is two or more past the last complete step |
| `Reachability.RedirectToFirstIncomplete` | src/components/MultiPageForm/MultiPageForm.js:161-168 | the redirect lands on the url of the first incomplete step |
| `Reachability.RedirectFailsIffAllComplete` | src/components/MultiPageForm/MultiPageForm.js:165-168 | the redirect has no target, so the code throws, iff every step is complete |
| `ValueMerge.MergeWith` | src/components/MultiPageForm/MultiPageForm.js:155-160 | keys are the union; one-sided keys keep their value; non-empty state values are kept; an empty state string is replaced iff the props value is truthy |
| `ValueMerge.MergeWithoutGaps` | src/components/MultiPageForm/MultiPageForm.js:155-160 | with no empty state string, the merge is the union in which the state wins |
| `ValueMerge.MergeIdempotent` | src/components/MultiPageForm/MultiPageForm.js:155-160 | merging the same defaults a second time changes nothing |
| `ValueMerge.FillsEmptyField` | src/components/MultiPageForm/MultiPageForm.js:155-160 | `""` against `"Alice"` gives `"Alice"` |
| `ValueMerge.KeepsFilledField` | src/components/MultiPageForm/MultiPageForm.js:155-160 | `"Bob"` against anything gives `"Bob"` |
| `PriceCodec.ToDisplay` | src/components/MultiPageForm/MultiPageForm.js:49-55 | same keys and other fields untouched; a truthy numeric price is divided by 100; a falsy or absent price leaves the values unchanged |
| `PriceCodec.ToStorage` | src/components/MultiPageForm/MultiPageForm.js:119-123 | same keys and other fields untouched; a truthy numeric price is multiplied by 100; a falsy or absent price leaves the values unchanged |
| `PriceCodec.StorageUndoesDisplay` | src/components/MultiPageForm/MultiPageForm.js:49-55 | for an absent or numeric price, ×100 after ÷100 is the identity |
| `PriceCodec.DisplayUndoesStorage` | src/components/MultiPageForm/MultiPageForm.js:119-123 | for an absent or numeric price, ÷100 after ×100 is the identity |
| `PriceCodec.FinalPriceExample` | src/components/MultiPageForm/MultiPageForm.js:119-123 | `{price: 500}` becomes `{price: 50000}` |
| `Persistence.Stringify` | src/components/MultiPageForm/MultiPageForm.js:137 | the JSON text keeps every key; `NaN` becomes `null` and other values are kept |
| `Persistence.LoadCached` | src/components/MultiPageForm/MultiPageForm.js:47-48 | something is loaded iff the key is present and its string is not empty, and then it is the stored object |
| `Persistence.LoadAfterSave` | src/components/MultiPageForm/MultiPageForm.js:137 | what is saved is loaded back, for values without `NaN` |
| `Persistence.LoadAfterClear` | src/components/MultiPageForm/MultiPageForm.js:124 | after the empty string is written, nothing is loaded |
| `Wizard.SeedValues` | src/components/MultiPageForm/MultiPageForm.js:47-56 | the stored object as it is when one is loaded; otherwise the initial values with the price divided by 100 |
| `Wizard.SeedAfterFinalSubmit` | src/components/MultiPageForm/MultiPageForm.js:124 | after a final submit, a new wizard seeds from the converted initial values |
| `Wizard.SeedAfterSave` | src/components/MultiPageForm/MultiPageForm.js:137 | after an intermediate submit, a new wizard seeds from the saved values, with no second conversion |
| `Wizard.NextIndex` | src/components/MultiPageForm/MultiPageForm.js:86 | at most one past the current index and at most the last page index, and equal to one of these |
| `Wizard.PreviousIndex` | src/components/MultiPageForm/MultiPageForm.js:95 | at least one before the current index and at least 0, and equal to one of these |
| `Wizard.NavigationInRange` | src/components/MultiPageForm/MultiPageForm.js:84-96 | from an existing page both pushed indices name a page; each moves by one except at the end it moves towards |
| `Wizard.MultiFormRoutes.constructor` | src/components/MultiPageForm/MultiPageForm.js:44-62 | the values are the seed values, `validSteps` agrees with them, and nothing is pushed or submitted |
| `Wizard.MultiFormRoutes.Next` | src/components/MultiPageForm/MultiPageForm.js:76-91 | commits the values and their valid steps, then pushes exactly the clamped next index; storage and submissions are untouched |
| `Wizard.MultiFormRoutes.Previous` | src/components/MultiPageForm/MultiPageForm.js:93-97 | pushes exactly the clamped previous index and changes nothing else |
| `Wizard.MultiFormRoutes.Validate` | src/components/MultiPageForm/MultiPageForm.js:99-104 | an existing page's validator result, or no errors when it has no validator; a missing page throws |
| `Wizard.MultiFormRoutes.SelectedSlot` | src/components/MultiPageForm/MultiPageForm.js:131 | the first available ad slot, or undefined when there is none |
| `Wizard.MultiFormRoutes.ResetValues` | src/components/MultiPageForm/MultiPageForm.js:128-135 | the hook's result iff the step is a reset trigger and a hook is given; the submitted values otherwise |
| `Wizard.MultiFormRoutes.HandleSubmit` | src/components/MultiPageForm/MultiPageForm.js:106-142 | last page: the store key becomes empty, `onSubmit` is called once with the price ×100, with no navigation and no state change. Other pages: the (reset) values are saved and committed, one next index is pushed, touched is cleared and submitting is false |
| `Wizard.MultiFormRoutes.Render` | src/components/MultiPageForm/MultiPageForm.js:144-179 | redirect iff the index is -1 or names an inactive step, aimed at the redirect target; the error modal iff there is no page; otherwise the form with the merged values and the current step's id |
| `Wizard.RenderSendsToFirstIncomplete` | src/components/MultiPageForm/MultiPageForm.js:161-168 | in a consistent wizard with distinct ids, opening an unreachable step redirects to the first incomplete step |

## Left out

- Field names inherited from the object prototype (`constructor`, `toString`, ...) read as truthy on any plain object. The model treats every field missing from the map as undefined.
- Rendering (`Page`, Formik configuration, `Progress`, `ModalError`, buttons, lines 170-251) is not modelled. `Render` reduces it to a `View`: a redirect, a crash, the error modal, or the form with the data the form and progress bar receive.
- react-router is not modelled. `<Redirect>` is the `Redirect` view, and `history.push` logs a route index. The model keeps the index rather than `routes[i]`, which is `undefined` when `routes` is shorter than the pages.
- Session storage holds only entries this component writes: the empty string or JSON text of a value object. Other strings, such as malformed JSON or `"null"`, are not modelled. `JSON.parse` would throw on malformed JSON, and the code has no catch.
- JSON is modelled only for top-level fields. Objects and arrays are opaque `Obj` values, and keys with `undefined` values cannot occur.
- Floating point is not modelled: prices are `real`, so ÷100 and ×100 are exact.
- PriceCodec.ToDisplay: a price that is a string or an object gives `NaN` in the model, whereas JavaScript converts numeric strings and some arrays to numbers. The model does not capture JavaScript's ToNumber coercion.
- PriceCodec.ToStorage: the same ToNumber simplification as `ToDisplay`.
- `onSubmit`'s return value is not modelled, and neither is the submission-result reporting it does through the bag. `handleStorageReset` and page validators are opaque functions.
- `setState` asynchrony and render batching are not modelled. `Next` commits the state and then pushes, in that order.
- `initialValues` defaults to `null`, which would make line 49 throw. The model's `initialValues` is always an object.
- The instance field `this.newValues` set by the constructor is not modelled. Nothing reads it after construction; it becomes the local value that `SeedValues` falls back to.
- `pages` stands for children with no nested arrays and no empty nodes (`null`, `false`, `undefined`), so one sequence serves every count and index. With children `[false, <A/>, <B/>]`, for example, `handleSubmit` counts 3 pages while `render` and `validate` see only 2. Then the last page shown takes the intermediate path, and index 2 shows the error modal. The model does not capture this mismatch. It also leaves out a single non-array child, whose `children.length` is undefined, so `next` pushes an undefined route.
- PropTypes checks, `submitText`, `renderSubmit` and `nextButtonLabel` are presentation only and are not modelled.
