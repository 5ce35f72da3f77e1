/**
 Properties of the login wizard over sequences of events: the order in which
 steps are visited, how many submissions and navigations are emitted, what
 the submitted payload holds, and the quirks of the component (the password step
 re-submits on every further submission; mounting alone advances the step).
 */
module WizardProperties {
  import opened Wrappers
  import opened FormValues
  import opened SubmissionClient
  import opened Wizard

  /**
   Number of events that re-run the step switch, when the step is unset
   before them iff `unset`: every step submission, and a render while the
   step is still unset. Whichever of them comes first sets the step.
   */
  function Recomputations(unset: bool, events: seq<Event>): nat
    decreases |events|
  {
    if |events| == 0 then 0
    else
      var counts := events[0].StepSubmitted? || (events[0].Mount? && unset);
      (if counts then 1 else 0) + Recomputations(unset && !counts, events[1..])
  }

  /** Number of step submissions among `events`. */
  function StepSubmissions(events: seq<Event>): nat
    decreases |events|
  {
    if |events| == 0 then 0
    else (if events[0].StepSubmitted? then 1 else 0) + StepSubmissions(events[1..])
  }

  /** A fetch settled with a truthy response URL. */
  predicate TruthyResponse(e: Event)
  {
    e.Responded? && e.outcome.Resolved? && Truthy(e.outcome.url)
  }

  /** Number of settled fetches whose response URL is truthy. */
  function TruthyResponses(events: seq<Event>): nat
    decreases |events|
  {
    if |events| == 0 then 0
    else (if TruthyResponse(events[0]) then 1 else 0) + TruthyResponses(events[1..])
  }

  /** All entries submitted by the step submissions among `events`, in order. */
  function SubmittedEntries(events: seq<Event>): seq<Entry>
    decreases |events|
  {
    if |events| == 0 then []
    else (if events[0].StepSubmitted? then events[0].entries else []) + SubmittedEntries(events[1..])
  }

  /** Number of `Submit` effects in `effects`. */
  function Submissions(effects: seq<Effect>): nat
    decreases |effects|
  {
    if |effects| == 0 then 0
    else (if effects[0].Submit? then 1 else 0) + Submissions(effects[1..])
  }

  /** Number of `Navigate` effects in `effects`. */
  function Navigations(effects: seq<Effect>): nat
    decreases |effects|
  {
    if |effects| == 0 then 0
    else (if effects[0].Navigate? then 1 else 0) + Navigations(effects[1..])
  }

  function Min(a: int, b: int): int { if a < b then a else b }

  function Max(a: int, b: int): int { if a < b then b else a }

  /** Counting effects distributes over concatenation. */
  lemma {:induction false} CountsAppend(a: seq<Effect>, b: seq<Effect>)
    ensures Submissions(a + b) == Submissions(a) + Submissions(b)
    ensures Navigations(a + b) == Navigations(a) + Navigations(b)
    decreases |a|
  {
    if |a| == 0 {
      assert a + b == b;
    } else {
      assert (a + b)[1..] == a[1..] + b;
      CountsAppend(a[1..], b);
    }
  }

  /** Mounting a fresh component sets the step to username with no input and no effect. */
  lemma MountStartsAtUsername(action: string)
    ensures Apply(action, Initial, Mount) == Transition(State(Some(Username), map[], 0), [])
  {
  }

  /**
   Any step outside the three named ones (the unset step) goes to username on
   the next recompute, whatever the values are, and emits nothing.
   */
  lemma UnsetGoesToUsername(action: string, s: State)
    requires s.step.None?
    ensures Recompute(action, s) == Transition(State(Some(Username), s.values, s.pending), [])
  {
  }

  /**
   The password step is absorbing: every further step submission keeps the
   password step and submits the values merged with the new entries, starting
   one more fetch.
   */
  lemma PasswordAbsorbing(action: string, s: State, es: seq<Entry>)
    requires s.step == Some(Password)
    ensures Apply(action, s, StepSubmitted(es))
         == Transition(State(Some(Password), Accept(s.values, es), s.pending + 1),
                       [Submit(action, Accept(s.values, es))])
  {
  }

  /** No events, no change and no effect. */
  lemma RunNil(action: string, s: State, events: seq<Event>)
    requires |events| == 0
    ensures Run(action, s, events) == Transition(s, [])
  {
  }

  /** Unfolds `Run` by one event. */
  lemma RunCons(action: string, s: State, events: seq<Event>)
    requires |events| > 0
    ensures var first := Apply(action, s, events[0]);
      var rest := Run(action, first.state, events[1..]);
      Run(action, s, events) == Transition(rest.state, first.effects + rest.effects)
  {
  }

  /** Concatenation regroups freely. */
  lemma ConcatAssociative<T>(x: seq<T>, y: seq<T>, z: seq<T>)
    ensures x + (y + z) == (x + y) + z
  {
  }

  /** Handling events one after another is handling their concatenation. */
  lemma {:induction false} RunAppend(action: string, s: State, a: seq<Event>, b: seq<Event>)
    ensures var mid := Run(action, s, a);
      Run(action, s, a + b)
        == Transition(Run(action, mid.state, b).state, mid.effects + Run(action, mid.state, b).effects)
    decreases |a|
  {
    if |a| == 0 {
      assert a + b == b;
      RunNil(action, s, a);
    } else {
      assert (a + b)[0] == a[0];
      assert (a + b)[1..] == a[1..] + b;
      var first := Apply(action, s, a[0]);
      var tail := Run(action, first.state, a[1..]);
      var last := Run(action, tail.state, b);
      RunCons(action, s, a);
      RunCons(action, s, a + b);
      RunAppend(action, first.state, a[1..], b);
      ConcatAssociative(first.effects, tail.effects, last.effects);
    }
  }

  /**
   The step only moves forward, one position per recompute, and stops at
   password: after any events its position is the starting one plus the
   number of recomputes, capped at password.
   */
  lemma {:induction false} RunStep(action: string, s: State, events: seq<Event>)
    ensures Rank(Run(action, s, events).state.step) == Min(3, Rank(s.step) + Recomputations(s.step.None?, events))
    ensures Recomputations(s.step.None?, events) > 0 ==> Run(action, s, events).state.step.Some?
    ensures Recomputations(s.step.None?, events) == 0 ==> Run(action, s, events).state.step == s.step
    decreases |events|
  {
    if |events| > 0 {
      var first := Apply(action, s, events[0]);
      assert first.state.step.None? == (s.step.None? && !Recomputes(s, events[0]));
      RunStep(action, first.state, events[1..]);
    }
  }

  /**
   Submissions are emitted only from the password step: one per recompute
   beyond the third position. Navigations are emitted only by settled fetches
   with a truthy URL, at most one per fetch: every navigation answers a fetch
   that was pending before the events or started by one of their submissions,
   and a fetch still pending afterwards has not navigated.
   */
  lemma {:induction false} RunEffectCounts(action: string, s: State, events: seq<Event>)
    ensures Submissions(Run(action, s, events).effects)
         == Max(0, Rank(s.step) + Recomputations(s.step.None?, events) - 3)
    ensures Navigations(Run(action, s, events).effects) <= TruthyResponses(events)
    ensures Navigations(Run(action, s, events).effects) + Run(action, s, events).state.pending
         <= s.pending + Submissions(Run(action, s, events).effects)
    decreases |events|
  {
    if |events| > 0 {
      var first := Apply(action, s, events[0]);
      var rest := Run(action, first.state, events[1..]);
      assert first.state.step.None? == (s.step.None? && !Recomputes(s, events[0]));
      assert Recomputations(s.step.None?, events)
          == (if Recomputes(s, events[0]) then 1 else 0) + Recomputations(first.state.step.None?, events[1..]);
      assert TruthyResponses(events) == (if TruthyResponse(events[0]) then 1 else 0) + TruthyResponses(events[1..]);
      RunEffectCounts(action, first.state, events[1..]);
      CountsAppend(first.effects, rest.effects);
      RunCons(action, s, events);
      ApplyEffectCounts(action, s, events[0]);
    }
  }

  /** The effects of a single event, counted. */
  lemma ApplyEffectCounts(action: string, s: State, e: Event)
    ensures Submissions(Apply(action, s, e).effects) == if Recomputes(s, e) && Rank(s.step) == 3 then 1 else 0
    ensures Navigations(Apply(action, s, e).effects) <= if TruthyResponse(e) then 1 else 0
    ensures Navigations(Apply(action, s, e).effects) + Apply(action, s, e).state.pending
         <= s.pending + Submissions(Apply(action, s, e).effects)
  {
  }

  /**
   From a fresh component there are never more navigations than submissions;
   in particular nothing navigates before the password step has submitted.
   */
  lemma NavigationsFollowSubmissions(action: string, events: seq<Event>)
    ensures Navigations(Run(action, Initial, events).effects) <= Submissions(Run(action, Initial, events).effects)
  {
    RunEffectCounts(action, Initial, events);
  }

  /** Only step submissions recompute, apart from the one render that finds the step unset. */
  lemma {:induction false} RecomputationsBound(unset: bool, events: seq<Event>)
    ensures Recomputations(unset, events) <= StepSubmissions(events) + if unset then 1 else 0
    decreases |events|
  {
    if |events| > 0 {
      var counts := events[0].StepSubmitted? || (events[0].Mount? && unset);
      RecomputationsBound(unset && !counts, events[1..]);
    }
  }

  /**
   From a fresh component nothing is submitted before the third step
   submission, and each later step submission submits at most once more;
   renders and settled fetches never submit on their own.
   */
  lemma NothingSubmittedBeforeThirdStep(action: string, events: seq<Event>)
    ensures Submissions(Run(action, Initial, events).effects) <= Max(0, StepSubmissions(events) - 2)
  {
    RunEffectCounts(action, Initial, events);
    RecomputationsBound(true, events);
  }

  /**
   The values after any events are the starting values with every submitted
   entry accepted in order: no key is ever dropped and the latest value of a
   field wins.
   */
  lemma {:induction false} RunValues(action: string, s: State, events: seq<Event>)
    ensures Run(action, s, events).state.values == Accept(s.values, SubmittedEntries(events))
    decreases |events|
  {
    if |events| == 0 {
      assert Accept(s.values, []) == s.values;
    } else {
      var first := Apply(action, s, events[0]);
      RunValues(action, first.state, events[1..]);
      var es := if events[0].StepSubmitted? then events[0].entries else [];
      assert first.state.values == Accept(s.values, es);
      AcceptTwice(s.values, es, SubmittedEntries(events[1..]));
    }
  }

  /**
   Every submission goes to `action` and carries every key collected before
   the events started.
   */
  lemma {:induction false} RunSubmitsToAction(action: string, s: State, events: seq<Event>)
    ensures forall i :: 0 <= i < |Run(action, s, events).effects| && Run(action, s, events).effects[i].Submit? ==>
      Run(action, s, events).effects[i].action == action
      && s.values.Keys <= Run(action, s, events).effects[i].payload.Keys
    decreases |events|
  {
    if |events| > 0 {
      var first := Apply(action, s, events[0]);
      var rest := Run(action, first.state, events[1..]);
      RunSubmitsToAction(action, first.state, events[1..]);
      assert s.values.Keys <= first.state.values.Keys;
      var effects := first.effects + rest.effects;
      forall i | 0 <= i < |effects| && effects[i].Submit?
        ensures effects[i].action == action && s.values.Keys <= effects[i].payload.Keys
      {
        if i >= |first.effects| {
          assert effects[i] == rest.effects[i - |first.effects|];
        }
      }
    }
  }

  /** A full wizard run: the mount, then three step submissions of one field each. */
  function FullRun(u: string, e: string, p: string): seq<Event>
  {
    [Mount, StepSubmitted([("username", u)]), StepSubmitted([("email", e)]), StepSubmitted([("password", p)])]
  }

  /**
   Mounting on empty values and submitting username, email and password
   emits exactly one submission, whose payload is exactly the three fields.
   */
  lemma FullRunSubmitsOnce(action: string, u: string, e: string, p: string)
    ensures Run(action, Initial, FullRun(u, e, p))
         == Transition(State(Some(Password), map["username" := u, "email" := e, "password" := p], 1),
                       [Submit(action, map["username" := u, "email" := e, "password" := p])])
  {
    var evs := FullRun(u, e, p);
    var m1 := map["username" := u];
    var m2 := map["username" := u, "email" := e];
    var m3 := map["username" := u, "email" := e, "password" := p];
    AcceptOne(map[], "username", u);
    AcceptOne(m1, "email", e);
    AcceptOne(m2, "password", p);
    assert m1 == map[]["username" := u];
    var s1 := State(Some(Username), map[], 0);
    var s2 := State(Some(Email), m1, 0);
    var s3 := State(Some(Password), m2, 0);
    var s4 := State(Some(Password), m3, 1);
    assert Run(action, s4, evs[4..]) == Transition(s4, []);
    assert Run(action, s3, evs[3..]) == Transition(s4, [Submit(action, m3)]);
    assert Run(action, s2, evs[2..]) == Transition(s4, [Submit(action, m3)]);
    assert Run(action, s1, evs[1..]) == Transition(s4, [Submit(action, m3)]);
  }

  /**
   The user's side of the wizard: each string in `typed` is entered into the
   input the current step renders, and the form is submitted.
   */
  function Fill(action: string, s: State, typed: seq<string>): Transition
    decreases |typed|
  {
    if |typed| == 0 then Transition(s, [])
    else
      var first := Apply(action, s, StepSubmitted(FormEntries(Render(s.step), typed[0])));
      var rest := Fill(action, first.state, typed[1..]);
      Transition(rest.state, first.effects + rest.effects)
  }

  /** Unfolds `Fill` by one typed string. */
  lemma FillCons(action: string, s: State, typed: seq<string>)
    requires |typed| > 0
    ensures var first := Apply(action, s, StepSubmitted(FormEntries(Render(s.step), typed[0])));
      var rest := Fill(action, first.state, typed[1..]);
      Fill(action, s, typed) == Transition(rest.state, first.effects + rest.effects)
  {
  }

  /** Submitting a single-entry form adds or overwrites exactly that field. */
  lemma AcceptOne(v: Values, k: string, x: string)
    ensures Accept(v, [(k, x)]) == v[k := x]
  {
    assert FromEntries([(k, x)]) == map[k := x];
  }

  /**
   Submitting the form a step renders stores the typed string under that
   step's name and changes no other field. On the welcome screen there is no
   input, so the values stay as they were, yet the step still advances.
   */
  lemma SubmitRenderedForm(action: string, s: State, typed: string)
    ensures s.step.Some? ==>
      Apply(action, s, StepSubmitted(FormEntries(Render(s.step), typed))).state.values
        == s.values[Name(s.step.value) := typed]
    ensures s.step.None? ==>
      Apply(action, s, StepSubmitted(FormEntries(Render(s.step), typed))).state
        == State(Some(Username), s.values, s.pending)
  {
  }

  /** Storing a field twice keeps only the second value. */
  lemma OverwriteTwice(v: Values, k: string, x: string, y: string)
    ensures v[k := x][k := y] == v[k := y]
  {
  }

  /** One submission through the password input: store the password and re-submit. */
  lemma PasswordStep(action: string, v: Values, n: nat, x: string)
    ensures Apply(action, State(Some(Password), v, n), StepSubmitted(FormEntries(Render(Some(Password)), x)))
         == Transition(State(Some(Password), v["password" := x], n + 1), [Submit(action, v["password" := x])])
  {
    AcceptOne(v, "password", x);
  }

  /** Peels the first re-submission off the sequence `FillInPassword` describes. */
  lemma PasswordResubmissionsCons(action: string, v: Values, typed: seq<string>)
    requires |typed| > 0
    ensures seq(|typed|, i requires 0 <= i < |typed| => Submit(action, v["password" := typed[i]]))
         == [Submit(action, v["password" := typed[0]])]
          + seq(|typed| - 1, i requires 0 <= i < |typed| - 1 =>
                Submit(action, v["password" := typed[0]]["password" := typed[1..][i]]))
  {
    var all := seq(|typed|, i requires 0 <= i < |typed| => Submit(action, v["password" := typed[i]]));
    var rest := seq(|typed| - 1, i requires 0 <= i < |typed| - 1 =>
                Submit(action, v["password" := typed[0]]["password" := typed[1..][i]]));
    forall i | 0 <= i < |rest| ensures rest[i] == all[i + 1] {
      OverwriteTwice(v, "password", typed[0], typed[i + 1]);
    }
  }

  /**
   In the password step every further submission through the rendered
   password input re-submits the values with the newly typed password.
   */
  lemma {:induction false} FillInPassword(action: string, v: Values, n: nat, typed: seq<string>)
    ensures Fill(action, State(Some(Password), v, n), typed).effects
         == seq(|typed|, i requires 0 <= i < |typed| => Submit(action, v["password" := typed[i]]))
    ensures Fill(action, State(Some(Password), v, n), typed).state
         == if |typed| == 0 then State(Some(Password), v, n)
            else State(Some(Password), v["password" := typed[|typed| - 1]], n + |typed|)
    decreases |typed|
  {
    if |typed| > 0 {
      var s0 := State(Some(Password), v, n);
      var v1 := v["password" := typed[0]];
      PasswordStep(action, v, n, typed[0]);
      FillInPassword(action, v1, n + 1, typed[1..]);
      var rest := Fill(action, State(Some(Password), v1, n + 1), typed[1..]);
      FillCons(action, s0, typed);
      PasswordResubmissionsCons(action, v, typed);
      if |typed| > 1 {
        OverwriteTwice(v, "password", typed[0], typed[|typed| - 1]);
      }
    }
  }

  /**
   Entering `typed` into a wizard that shows the username input: the first
   string becomes the username, the second the email, and every later one is
   submitted as the password together with them.
   */
  lemma FillFromUsername(action: string, v: Values, n: nat, typed: seq<string>)
    requires |typed| >= 2
    ensures Fill(action, State(Some(Username), v, n), typed).effects
         == seq(|typed| - 2, i requires 0 <= i < |typed| - 2 =>
                Submit(action, v["username" := typed[0]]["email" := typed[1]]["password" := typed[i + 2]]))
  {
    var v1 := v["username" := typed[0]];
    var v2 := v1["email" := typed[1]];
    var s0, s1, s2 := State(Some(Username), v, n), State(Some(Email), v1, n), State(Some(Password), v2, n);
    AcceptOne(v, "username", typed[0]);
    AcceptOne(v1, "email", typed[1]);
    assert Apply(action, s0, StepSubmitted(FormEntries(Render(s0.step), typed[0]))) == Transition(s1, []);
    assert Apply(action, s1, StepSubmitted(FormEntries(Render(s1.step), typed[1]))) == Transition(s2, []);
    FillCons(action, s0, typed);
    FillCons(action, s1, typed[1..]);
    assert typed[1..][1..] == typed[2..];
    FillInPassword(action, v2, n, typed[2..]);
  }

  /**
   A full wizard session: mounting, then entering `u`, `e` and `p` into the
   inputs as they are rendered, submits exactly once with exactly those three
   fields.
   */
  lemma SessionSubmitsOnce(action: string, u: string, e: string, p: string)
    ensures Fill(action, Apply(action, Initial, Mount).state, [u, e, p]).effects
         == [Submit(action, map["username" := u, "email" := e, "password" := p])]
  {
    FillFromUsername(action, map[], 0, [u, e, p]);
  }
}
