# Login wizard: step sequencer, field merge and redirect decision

This project models the multi-step mode of the `LoginForm` React component
(`src/components/LoginForm.tsx`). In that mode the form shows one field at a
time: username, then email, then password. The values collected so far are
sent as JSON to the component's `action` address. When the request completes,
the browser is redirected to the response's URL.

The component keeps two pieces of state, the current step and the collected
values. Its step switch re-runs whenever the values object changes. Here that
becomes a pure reducer over an immutable state `State(step, values, pending)`.
`pending` is not React state. It counts the fetches that `submitFormData` has
started and whose promise has not settled, because only those can still run
the `then` callback. The events are:

- `Mount` is a render that is not caused by new values. On the first render,
  while the step is still unset, the memoised block runs the step switch once.
  On any later such render it does nothing, because the block depends only on
  `formValues`.
- `StepSubmitted(entries)` merges the submitted form entries into the values,
  then runs the step switch once. The submit handler always stores a fresh
  object, so the switch re-runs even when the contents did not change.
- `Responded(outcome)` models one started fetch settling. If no fetch is
  pending it does nothing. Otherwise it consumes one pending fetch and
  decides only whether to redirect. So each fetch runs its callback at most
  once, and nothing navigates unless a fetch was started.

Side effects are returned as values: `Submit(action, payload)` for the POST and
`Navigate(url)` for the assignment to `window.location.href`.

Modules:

- `Wrappers`: `Option`, where `None` stands for `undefined`.
- `FormValues`: `Object.fromEntries` over a submitted form's entries (the last
  entry of a name wins) and the spread merge `{ ...formValues, ...fields }`.
- `SubmissionClient`: the `Effect` values and the `then` callback's redirect
  decision.
- `Wizard`: steps, state, the step switch (`Recompute`), the reducer (`Apply`,
  `Run`), and the view for a step (`Render`, `ButtonLabel`, `FormEntries`).
- `WizardProperties`: properties over sequences of events and over a user
  filling in the rendered inputs (`Fill`).

Behaviour of the code that the model keeps:

- The password step never advances. Every further submission while in it
  merges the new entries and submits again (`PasswordAbsorbing`,
  `FillInPassword`, `RunEffectCounts`). It is absorbing, not terminal.
- Mounting alone moves the step from unset to username, with no user input
  (`MountStartsAtUsername`).
- The URL the redirect checks is the `url` property of the `Response` object
  itself, not a field of a JSON body. For a fetched response that is the final
  URL after any HTTP redirects, which is never empty with `fetch`'s default
  options. So in a browser a resolved fetch practically always navigates to
  the `action` address, or to wherever that address redirected. The model
  keeps the URL an opaque optional string, so its missing and empty cases are
  near-unreachable in practice.
- The welcome screen is never shown in the component. The step is set to
  username during the first render, so React renders again before anything
  reaches the page. The model's welcome case (`Render`, `SubmitRenderedForm`)
  therefore cannot happen in the component.
- Collected values are never discarded after a submission. They stay in state
  and are merged into by later submissions.

## Model

| member | source | states |
|---|---|---|
| FormValues.FromEntries | src/components/LoginForm.tsx:42-43 | the object built from a form's entries has exactly the entries' names as keys |
| FormValues.FromEntriesLastWins | src/components/LoginForm.tsx:42-43 | for a name that occurs more than once, the object holds the value of its last entry |
| FormValues.Merge | src/components/LoginForm.tsx:43 | the spread is a right-biased union: its keys are both key sets, submitted keys take the submitted value, and every other collected key keeps its old value |
| FormValues.Accept | src/components/LoginForm.tsx:39-44 | submitting a step adds the submitted names to the collected keys, gives each submitted name its converted value, and leaves every field it does not name unchanged |
| FormValues.AcceptLastWins | src/components/LoginForm.tsx:42-43 | after a submission, a submitted name holds the value of its last entry |
| FormValues.MergeIdempotent | src/components/LoginForm.tsx:43 | submitting the same fields twice in a row gives the same values as submitting them once |
| FormValues.MergeAssociative | src/components/LoginForm.tsx:43 | successive merges may be grouped either way |
| FormValues.FromEntriesAppend | src/components/LoginForm.tsx:42-43 | converting concatenated entries equals merging the conversion of the second part over the first |
| FormValues.AcceptTwice | src/components/LoginForm.tsx:39-44 | accepting two submissions in turn equals accepting all their entries at once |
| SubmissionClient.OnResponse | src/components/LoginForm.tsx:141-145 | at most one effect; there is a navigation iff the fetch resolved with a present, non-empty response URL, and it targets that URL; a rejected fetch does nothing |
| SubmissionClient.NavigateTargetsResponseUrl | src/components/LoginForm.tsx:141-144 | navigating to a target happens iff the response URL is exactly that target and it is non-empty |
| Wizard.Recompute | src/components/LoginForm.tsx:22-37 | the step switch keeps the values, always leaves a step set, moves one position forward in the order unset, username, email, password (capped at password), and emits a submission of the current values to `action` iff it ran in the password step; that submission is the call to `submitFormData` (lines 134-140), one POST that starts one more fetch |
| Wizard.Apply | src/components/LoginForm.tsx:22-44 | a render keeps the values and a step submission leaves the merged values; a render once the step is set changes nothing and emits nothing; a step submission, and a render while the step is unset, move the step one position forward (capped at password), and in the password step emit a submission of the resulting (merged) values and start one more fetch; a settled fetch keeps step and values, and emits the redirect decision only when a fetch was pending, consuming it |
| Wizard.Run | src/components/LoginForm.tsx:22-44 | over any events the step never moves backwards and no collected key is dropped |
| Wizard.Render | src/components/LoginForm.tsx:48-56 | the welcome text is shown iff no step is set; otherwise the single input shown is the current step's |
| Wizard.ButtonLabel | src/components/LoginForm.tsx:58-60 | the button reads "Submit" iff the step is password, and "Next" otherwise |
| Wizard.FormEntries | src/components/LoginForm.tsx:42-56 | the submitted form yields entries named exactly after the rendered step's input (none on the welcome screen), each carrying the typed string |
| WizardProperties.MountStartsAtUsername | src/components/LoginForm.tsx:18-37 | mounting a fresh component sets the step to username, with empty values and no effect |
| WizardProperties.UnsetGoesToUsername | src/components/LoginForm.tsx:33-35 | from the unset step any recompute goes to username, keeps the values and emits nothing |
| WizardProperties.PasswordAbsorbing | src/components/LoginForm.tsx:30-31 | in the password step a step submission keeps the password step, submits the newly merged values and starts one more fetch |
| WizardProperties.RunAppend | src/components/LoginForm.tsx:22-44 | handling two event sequences in turn equals handling their concatenation |
| WizardProperties.RunStep | src/components/LoginForm.tsx:22-37 | after any events the step's position is the start position plus the number of recomputes (step submissions, and a render while the step is unset), capped at password; without a recompute the step does not change |
| WizardProperties.RunEffectCounts | src/components/LoginForm.tsx:22-37 | the number of submissions is the number of recomputes beyond the password position; navigations are at most the fetches settled with a truthy URL, and navigations plus still-pending fetches are at most the fetches pending before plus the submissions made |
| WizardProperties.ApplyEffectCounts | src/components/LoginForm.tsx:30-31 | one event emits one submission iff it recomputes in the password step, at most one navigation and only for a truthy response, and never more navigations than fetches it consumes |
| WizardProperties.RecomputationsBound | src/components/LoginForm.tsx:22-37 | the step switch re-runs at most once per step submission, plus once for the render that finds the step unset |
| WizardProperties.NothingSubmittedBeforeThirdStep | src/components/LoginForm.tsx:18-44 | from a fresh component nothing is submitted before the third step submission, and there are at most as many submissions as step submissions beyond the second |
| WizardProperties.NavigationsFollowSubmissions | src/components/LoginForm.tsx:134-145 | from a fresh component there are never more navigations than submissions, so nothing navigates before the password step has submitted |
| WizardProperties.RunValues | src/components/LoginForm.tsx:39-44 | after any events the values are the starting values with every submitted entry accepted in order |
| WizardProperties.RunSubmitsToAction | src/components/LoginForm.tsx:30-31 | every submission targets `action` and its payload keeps every key collected before the events |
| WizardProperties.FullRunSubmitsOnce | src/components/LoginForm.tsx:18-44 | mount, then username, email and password submissions, gives exactly one submission whose payload is exactly the three fields |
| WizardProperties.SubmitRenderedForm | src/components/LoginForm.tsx:43-56 | submitting the input a step renders stores the typed string under that step's name and nothing else; on the welcome screen values stay unchanged but the step still advances |
| WizardProperties.FillInPassword | src/components/LoginForm.tsx:30-31 | typing further passwords into the password step re-submits once per entry, each time with the latest password |
| WizardProperties.FillFromUsername | src/components/LoginForm.tsx:22-56 | entering strings into the rendered inputs from the username step: the first is the username, the second the email, and each later one is submitted as the password along with them |
| WizardProperties.SessionSubmitsOnce | src/components/LoginForm.tsx:18-56 | mounting and then typing three strings into the inputs as rendered submits exactly once, with exactly those three fields |

## Left out

- JSX markup, CSS classes and the input sub-components (`src/components/LoginForm.tsx:79-132`) are presentation. Only the choice of which single input or the welcome text a step shows is modelled, plus the input's name.
- The flat, non-multi-step form (`src/components/LoginForm.tsx:62-76`) is a browser-native POST with a fixed hidden token. It has no logic of its own.
- `fetch`, `JSON.stringify`, promise resolution and the assignment to `window.location.href` are foreign browser APIs. They appear only as `Submit`/`Navigate` effects, and the response URL is an opaque optional string. The request's fixed method (POST), its JSON content-type header and the key order of the serialised body are not modelled.
- React scheduling (`useMemo`, `useState`, setting state during render, batching of re-renders) is abstracted as one recompute on the first render (the first `Mount` while the step is unset) and one per change of the values; other renders do nothing. Every submission counts as a change, because it stores a new object.
- Network failure is unhandled in the component. It is modelled as `Rejected`, which consumes the pending fetch and produces no effect.
- Settled fetches are not matched to the particular request they answer; only their number is tracked. Responses carry no payload the component reads other than the URL, so which request a response belongs to does not change any effect.
- The browser's `required` and `type="email"` validation happens before the submit event and is not observed by the component. The model accepts any entries.
- Steps outside the three named ones can only arise as the initial `undefined`. The model represents that as `None`, which takes the switch's default branch.
