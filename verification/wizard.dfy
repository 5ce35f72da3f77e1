/**
 This module models the multi-step `LoginForm` as a pure reducer. The state is
 the current step (unset, username, email or password) and the collected field
 values. The step switch that React re-runs whenever `formValues` changes is
 `Recompute`; it runs once on mount and once after every step submission,
 because each submission stores a fresh object even when its contents are
 unchanged. Side effects are returned as `Effect` values.
 */
module Wizard {
  import opened Wrappers
  import opened FormValues
  import opened SubmissionClient

  /** The three named wizard steps. */
  datatype Step = Username | Email | Password

  /** The string each step stands for, which is also the name of its input. */
  function Name(s: Step): string
  {
    match s
    case Username => "username"
    case Email => "email"
    case Password => "password"
  }

  /**
   The component's state: the current step (`None` before the first
   recompute), the values, and the number of fetches started by
   `submitFormData` whose promise has not settled yet. The last is not React
   state; it records which `then` callbacks can still run.
   */
  datatype State = State(step: Option<Step>, values: Values, pending: nat)

  /** The state of a freshly created component: no step, an empty object, no fetch. */
  const Initial: State := State(None, map[], 0)

  /** The result of handling one event: the next state and the effects to perform, in order. */
  datatype Transition = Transition(state: State, effects: seq<Effect>)

  /** What can happen to the component. */
  datatype Event =
    | Mount                              // a render without a change of `formValues`
    | StepSubmitted(entries: seq<Entry>) // the wizard form's submit handler
    | Responded(outcome: FetchOutcome)   // one unsettled fetch settles, if there is one

  /**
   Position of a step in the wizard's order, independent of the step switch:
   unset 0, username 1, email 2, password 3.
   */
  function Rank(step: Option<Step>): nat
  {
    match step
    case None => 0
    case Some(Username) => 1
    case Some(Email) => 2
    case Some(Password) => 3
  }

  /**
   The step switch: advance username to email and email to password; in the
   password step stay put and call `submitFormData`, which POSTs the current
   values to `action` and so starts one more fetch; from any other step (in particular the initial unset
   one) go to username.
   */
  function Recompute(action: string, s: State): (t: Transition)
    ensures t.state.values == s.values
    ensures t.state.step.Some?
    ensures Rank(t.state.step) == if Rank(s.step) < 3 then Rank(s.step) + 1 else 3
    ensures s.step != Some(Password) ==> t.effects == [] && t.state.pending == s.pending
    ensures s.step == Some(Password) ==> t.effects == [Submit(action, s.values)] && t.state.pending == s.pending + 1
  {
    match s.step
    case Some(Username) => Transition(s.(step := Some(Email)), [])
    case Some(Email) => Transition(s.(step := Some(Password)), [])
    case Some(Password) => Transition(s.(pending := s.pending + 1), [Submit(action, s.values)])
    case None => Transition(s.(step := Some(Username)), [])
  }

  /**
   Whether event `e` re-runs the step switch in state `s`. The memoised block
   runs on the first render, while the step is still unset, and afterwards
   only when `formValues` changes, which only a step submission does.
   */
  predicate Recomputes(s: State, e: Event)
  {
    e.StepSubmitted? || (e.Mount? && s.step.None?)
  }

  /**
   One event. The first render recomputes, and a later render without new
   values does nothing; a step submission merges the submitted entries into
   the values and then recomputes with the merged values; a settled fetch only
   decides whether to navigate, and only a fetch that was started and has not
   settled yet can settle.
   */
  function Apply(action: string, s: State, e: Event): (t: Transition)
    ensures e.Mount? ==> t.state.values == s.values
    ensures e.Mount? && s.step.Some? ==> t == Transition(s, [])
    ensures e.StepSubmitted? ==> t.state.values == Accept(s.values, e.entries)
    ensures Recomputes(s, e) ==> Rank(t.state.step) == if Rank(s.step) < 3 then Rank(s.step) + 1 else 3
    ensures Recomputes(s, e) ==>
      t.effects == if s.step == Some(Password) then [Submit(action, t.state.values)] else []
    ensures Recomputes(s, e) ==>
      t.state.pending == s.pending + if s.step == Some(Password) then 1 else 0
    ensures e.Responded? ==> t.state.step == s.step && t.state.values == s.values
    ensures e.Responded? ==> t.effects == if s.pending > 0 then OnResponse(e.outcome) else []
    ensures e.Responded? ==> t.state.pending == if s.pending > 0 then s.pending - 1 else 0
  {
    match e
    case Mount => if s.step.None? then Recompute(action, s) else Transition(s, [])
    case StepSubmitted(entries) => Recompute(action, s.(values := Accept(s.values, entries)))
    case Responded(outcome) =>
      if s.pending > 0 then Transition(s.(pending := s.pending - 1), OnResponse(outcome))
      else Transition(s, [])
  }

  /**
   A sequence of events, handled in order; the effects are concatenated. The
   step never moves backwards and no collected key is ever dropped.
   */
  function Run(action: string, s: State, events: seq<Event>): (t: Transition)
    ensures Rank(t.state.step) >= Rank(s.step)
    ensures s.values.Keys <= t.state.values.Keys
    decreases |events|
  {
    if |events| == 0 then Transition(s, [])
    else
      var first := Apply(action, s, events[0]);
      var rest := Run(action, first.state, events[1..]);
      Transition(rest.state, first.effects + rest.effects)
  }

  /** What the wizard form shows: the single input of a step, or the welcome text. */
  datatype View = Input(field: Step) | Welcome

  /** The welcome paragraph shown while no step is set. */
  const WelcomeText: string := "Welcome! Please click the \"next\" button to proceed."

  /** The body of the wizard form for the current step. */
  function Render(step: Option<Step>): (v: View)
    ensures v.Welcome? <==> step.None?
    ensures v.Input? ==> step == Some(v.field)
  {
    match step
    case Some(s) => Input(s)
    case None => Welcome
  }

  /** The label of the wizard's submit button. */
  function ButtonLabel(step: Option<Step>): (caption: string)
    ensures caption == "Submit" <==> step == Some(Password)
    ensures caption == "Submit" || caption == "Next"
  {
    if step == Some(Password) then "Submit" else "Next"
  }

  /**
   The entries the browser collects when the form showing `v` is submitted
   with `typed` in its input: one entry named after the step, or none on the
   welcome screen. The submit button has no name, so it adds no entry.
   */
  function FormEntries(v: View, typed: string): (es: seq<Entry>)
    ensures Names(es) == if v.Input? then {Name(v.field)} else {}
    ensures forall j :: 0 <= j < |es| ==> es[j].1 == typed
  {
    match v
    case Input(field) =>
      var es := [(Name(field), typed)];
      assert es[0].0 in Names(es);
      es
    case Welcome => []
  }
}
