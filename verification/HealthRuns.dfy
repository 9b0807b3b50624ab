/** Passive trips and active health in every interleaving: the histories are those the steps of a run record. */
module HealthRuns {
  import opened Circuit
  import opened CircuitRuns
  import opened HealthHistory

  // ----- Active health -----

  /** The probe results a run has recorded, in order. */
  function ProbesOf(steps: seq<Step>): seq<bool> {
    if steps == [] then []
    else
      var last := steps[|steps| - 1];
      ProbesOf(steps[..|steps| - 1]) + (if last.ProbeHealth? then [last.success] else [])
  }

  predicate SameHealth(a: Core, b: Core) {
    a.healthy == b.healthy && a.activeFailures == b.activeFailures && a.activeSuccesses == b.activeSuccesses
  }

  /** Only a health probe touches health, and it depends on nothing else. */
  lemma HealthStep(s: State, step: Step, core: Core)
    requires Enabled(s, step) && SameHealth(s.core, core)
    ensures SameHealth(Apply(s, step).core, if step.ProbeHealth? then RecordActive(core, s.policy, step.success) else core)
  {
    hide RecordPassive, AdvanceCooldown;
    match step
    case Advance(now) => CooldownLeavesHealth(s.core, s.policy, now);
    case ProbeBegin(_, now) => CooldownLeavesHealth(s.core, s.policy, now);
    case Record(id) =>
      var op := s.ops[id];
      PassiveLeavesHealth(s.core, s.policy, op.outcome, op.permit, op.at);
    case ProbeEnd(_, success, now) =>
      PassiveLeavesHealth(s.core, s.policy, if success then Success else Failure, true, now);
    case _ =>
  }

  lemma CooldownLeavesHealth(core: Core, policy: Policy, now: int)
    ensures SameHealth(AdvanceCooldown(core, policy, now), core)
  {
  }

  lemma PassiveLeavesHealth(core: Core, policy: Policy, outcome: Outcome, permit: bool, at: int)
    ensures SameHealth(RecordPassive(core, policy, outcome, permit, at), core)
  {
  }

  /** In every state of every run the health fields are those of the probe history, so a backend is healthy exactly
      when every full-threshold run of failed probes was followed by a full-threshold run of successful ones. */
  lemma {:induction false} HealthOfRun(states: seq<State>, steps: seq<Step>, i: nat)
    requires Run(states, steps) && i < |states|
    ensures SameHealth(states[i].core, ReplayProbes(FRESH, states[0].policy, ProbesOf(steps[..i])))
    ensures states[i].core.healthy <==> Recovered(ProbesOf(steps[..i]), states[0].policy)
  {
    HealthIsHistory(states[0].policy, ProbesOf(steps[..i]));
    if i > 0 {
      var before, step := steps[..i - 1], steps[i - 1];
      assert steps[..i][..i - 1] == before;
      HealthOfRun(states, steps, i - 1);
      assert Follows(states[i - 1], step, states[i]);
      RunInvariant(states, steps, i - 1);
      hide Enabled, Apply, RecordActive, Invariant, Recovered;
      HealthStep(states[i - 1], step, ReplayProbes(FRESH, states[0].policy, ProbesOf(before)));
      if step.ProbeHealth? {
        assert (ProbesOf(before) + [step.success])[..|ProbesOf(before)|] == ProbesOf(before);
      } else {
        assert ProbesOf(before) + [] == ProbesOf(before);
      }
    }
  }

  // ----- Passive trips -----

  /** The outcome a step records while the circuit is closed, if any: a reservation's or a circuit probe's. */
  function SampleOf(s: State, step: Step): seq<Sample> {
    match step
    case Record(id) =>
      if id in s.ops && s.ops[id].Released? && s.ops[id].outcome != Neutral
      then [Sample(s.ops[id].outcome == Failure, s.ops[id].at)] else []
    case ProbeEnd(_, success, now) => [Sample(!success, now)]
    case _ => []
  }

  /** What steps i..j record. */
  function SamplesOf(states: seq<State>, steps: seq<Step>, i: nat, j: nat): seq<Sample>
    requires i <= j <= |steps| && |states| == |steps| + 1
    decreases j - i
  {
    if i == j then [] else SamplesOf(states, steps, i, j - 1) + SampleOf(states[j - 1], steps[j - 1])
  }

  predicate SameWindow(a: Core, b: Core) {
    a.circuit == b.circuit && a.passiveFailures == b.passiveFailures && a.windowStart == b.windowStart
  }

  /** While the circuit is closed only recorded outcomes touch the window, and they depend on nothing else. */
  lemma WindowStep(s: State, step: Step, core: Core)
    requires Enabled(s, step) && s.core.circuit == Closed && SameWindow(s.core, core)
    ensures SampleOf(s, step) == [] ==> SameWindow(Apply(s, step).core, core)
    ensures SampleOf(s, step) != [] ==>
              var sample := SampleOf(s, step)[0];
              SampleOf(s, step) == [sample]
              && SameWindow(Apply(s, step).core, RecordClosed(core, s.policy, OutcomeOf(sample), sample.at))
  {
    hide RecordClosed, RecordHalfOpen, RecordActive;
    match step
    case Record(id) =>
      var op := s.ops[id];
      WindowOnly(ReturnPermit(s.core, op.permit), core, s.policy, op.outcome, op.at);
    case ProbeEnd(_, success, now) =>
      WindowOnly(ReturnPermit(s.core, true), core, s.policy, if success then Success else Failure, now);
    case ProbeHealth(success) => ActiveLeavesWindow(s.core, s.policy, success);
    case _ =>
  }

  /** What an outcome does to the window depends on the window alone. */
  lemma WindowOnly(a: Core, b: Core, policy: Policy, outcome: Outcome, at: int)
    requires SameWindow(a, b)
    ensures SameWindow(RecordClosed(a, policy, outcome, at), RecordClosed(b, policy, outcome, at))
  {
  }

  lemma ActiveLeavesWindow(core: Core, policy: Policy, success: bool)
    ensures SameWindow(RecordActive(core, policy, success), core)
  {
  }

  /** The circuit is closed from state i through state j, and was not closed just before. */
  ghost predicate ClosedSince(states: seq<State>, steps: seq<Step>, i: nat, j: nat)
    requires Run(states, steps)
  {
    && i <= j <= |steps| && (i > 0 ==> states[i - 1].core.circuit != Closed)
    && forall k :: i <= k <= j ==> states[k].core.circuit == Closed
  }

  /** A circuit that has just closed has an empty window. */
  lemma ClosingStep(s: State, step: Step)
    requires Enabled(s, step) && s.core.circuit != Closed && Apply(s, step).core.circuit == Closed
    ensures EmptyWindow(Apply(s, step).core)
  {
  }

  /** One more sample that leaves the circuit closed. */
  lemma QuietMore(core: Core, policy: Policy, history: seq<Sample>, sample: Sample)
    requires Quiet(core, policy, history)
    requires RecordClosed(Replay(core, policy, history), policy, OutcomeOf(sample), sample.at).circuit == Closed
    ensures Quiet(core, policy, history + [sample])
  {
    hide RecordClosed;
    var whole := history + [sample];
    ReplaySnoc(core, policy, history, sample);
    forall n | 0 <= n <= |whole| ensures Replay(core, policy, whole[..n]).circuit == Closed {
      if n <= |history| { assert whole[..n] == history[..n]; } else { assert whole[..n] == whole; }
    }
  }

  lemma ReplaySnoc(core: Core, policy: Policy, history: seq<Sample>, sample: Sample)
    ensures Replay(core, policy, history + [sample])
         == RecordClosed(Replay(core, policy, history), policy, OutcomeOf(sample), sample.at)
  {
    hide RecordClosed;
    assert (history + [sample])[..|history|] == history;
  }

  /** The window of a closed circuit is the replay of what was recorded since it closed. */
  lemma {:induction false} WindowOfRun(states: seq<State>, steps: seq<Step>, j: nat) returns (i: nat)
    requires Run(states, steps) && j < |states| && states[j].core.circuit == Closed
    ensures ClosedSince(states, steps, i, j) && EmptyWindow(states[i].core)
    ensures Quiet(states[i].core, states[0].policy, SamplesOf(states, steps, i, j))
    ensures SameWindow(states[j].core, Replay(states[i].core, states[0].policy, SamplesOf(states, steps, i, j)))
    decreases j
  {
    i := j;
    if j > 0 {
      var s, step := states[j - 1], steps[j - 1];
      assert Follows(s, step, states[j]);
      if s.core.circuit == Closed {
        i := WindowOfRun(states, steps, j - 1);
        RunInvariant(states, steps, j - 1);
        var core, policy, history := states[i].core, states[0].policy, SamplesOf(states, steps, i, j - 1);
        hide Enabled, Apply, RecordClosed, Invariant, Quiet, SampleOf, Replay;
        WindowStep(s, step, Replay(core, policy, history));
        if SampleOf(s, step) == [] {
          assert history + [] == history;
        } else {
          ReplaySnoc(core, policy, history, SampleOf(s, step)[0]);
          QuietMore(core, policy, history, SampleOf(s, step)[0]);
        }
      } else {
        ClosingStep(s, step);
      }
    }
  }

  predicate RecordsFailure(s: State, step: Step) { SampleOf(s, step) != [] && SampleOf(s, step)[0].failed }

  /** In every run, a step opens a closed circuit exactly when it records a failure that brings the failures of the
      current window to the threshold; with timestamps that never go back those failures span less than one
      interval. */
  lemma TripOfRun(states: seq<State>, steps: seq<Step>, j: nat) returns (i: nat, m: nat)
    requires Run(states, steps) && j < |steps| && states[j].core.circuit == Closed
    ensures ClosedSince(states, steps, i, j) && EmptyWindow(states[i].core)
    ensures var policy, first, history := states[0].policy, states[i].core.windowStart, SamplesOf(states, steps, i, j + 1);
            && m <= |history| && CountedFrom(first, policy.passiveInterval, history, m)
            && (states[j + 1].core.circuit == Open <==>
                  RecordsFailure(states[j], steps[j]) && |history| - m >= policy.passiveThreshold)
            && (states[j + 1].core.circuit == Closed <==> states[j + 1].core.circuit != Open)
            && (NonDecreasing(first, history) ==>
                  forall k :: m <= k < |history| ==> history[k].at - history[m].at < policy.passiveInterval)
  {
    hide Enabled, Apply, RecordClosed, Quiet, Replay, CountedFrom, SampleOf, NonDecreasing, TokensConserved,
         PermitsCovered, SinglePermit, WindowStart;
    var s, step := states[j], steps[j];
    i := WindowOfRun(states, steps, j);
    RunInvariant(states, steps, j);
    assert Follows(s, step, states[j + 1]);
    AllowedTransitions(states, steps, j);
    var policy, core, history := states[0].policy, states[i].core, SamplesOf(states, steps, i, j);
    var whole := SamplesOf(states, steps, i, j + 1);
    hide Run;
    WindowStep(s, step, Replay(core, policy, history));
    if SampleOf(s, step) == [] {
      assert whole == history;
      m := CounterIsHistory(core, policy, history);
    } else {
      var sample := SampleOf(s, step)[0];
      m := PassiveTrip(core, policy, history, sample);
      ReplaySnoc(core, policy, history, sample);
    }
    if NonDecreasing(core.windowStart, whole) {
      forall k | m <= k < |whole| ensures whole[k].at - whole[m].at < policy.passiveInterval {
        WindowIsShort(core.windowStart, policy.passiveInterval, whole, m, k);
      }
    }
  }

  /** A circuit that closes starts an empty window at the clock of the step that closes it. */
  lemma ClosingStartsWindow(states: seq<State>, steps: seq<Step>, j: nat)
    requires Run(states, steps) && j < |steps|
    requires states[j].core.circuit != Closed && states[j + 1].core.circuit == Closed
    ensures Enabled(states[j], steps[j]) && Clock(states[j], steps[j]).At?
    ensures states[j + 1].core.windowStart == Clock(states[j], steps[j]) && states[j + 1].core.passiveFailures == 0
  {
    assert Follows(states[j], steps[j], states[j + 1]);
    hide Run;
  }

  // ----- Who is let through -----

  /** In every run a new request is let through exactly when the probe history has recovered, the circuit is not open
      and a half-open circuit has a permit left. */
  lemma LetThrough(states: seq<State>, steps: seq<Step>, i: nat, id: nat)
    requires Run(states, steps) && i < |states| && id !in states[i].ops
    ensures var s := states[i];
            Enabled(s, ClaimSlot(id)) <==>
              && Recovered(ProbesOf(steps[..i]), states[0].policy) && s.core.circuit != Open
              && (s.core.circuit == HalfOpen ==> s.core.halfOpenInFlight < states[0].policy.halfOpenMax)
  {
    HealthOfRun(states, steps, i);
    RunInvariant(states, steps, i);
    hide Run, Recovered, TokensConserved, PermitsCovered, SinglePermit;
  }

  /** So no request is let through to a backend whose last full run of probes failed, or whose circuit is open. */
  lemma NoneLetThrough(states: seq<State>, steps: seq<Step>, j: nat)
    requires Run(states, steps) && j < |steps| && steps[j].ClaimSlot?
    ensures Recovered(ProbesOf(steps[..j]), states[0].policy) && states[j].core.circuit != Open
    ensures states[j].core.circuit == HalfOpen ==> states[j].core.halfOpenInFlight < states[0].policy.halfOpenMax
    ensures steps[j].id in states[j + 1].ops && states[j + 1].ops[steps[j].id] == Claimed(states[j].core.circuit == HalfOpen)
  {
    assert Follows(states[j], steps[j], states[j + 1]);
    LetThrough(states, steps, j, steps[j].id);
    hide Run, Recovered;
  }

  /** A probe of the circuit is granted exactly when the circuit is half-open, or open with its cooldown over, and
      has a permit left; entering half-open leaves all of them. */
  lemma ProbeLetThrough(states: seq<State>, steps: seq<Step>, j: nat)
    requires Run(states, steps) && j < |steps| && steps[j].ProbeBegin?
    ensures var s, t, now := states[j], states[j + 1], steps[j].now;
            && steps[j].id in t.ops
            && (t.ops[steps[j].id] == Probing <==>
                  || (s.core.circuit == HalfOpen && s.core.halfOpenInFlight < states[0].policy.halfOpenMax)
                  || (s.core.circuit == Open
                      && (s.core.openedAt.Never? || now - s.core.openedAt.t >= states[0].policy.cooldown)))
  {
    assert Follows(states[j], steps[j], states[j + 1]);
    RunInvariant(states, steps, j);
    PolicyIsValid(states, steps);
    hide Run, TokensConserved, PermitsCovered, SinglePermit;
  }

  lemma PolicyIsValid(states: seq<State>, steps: seq<Step>)
    requires Run(states, steps)
    ensures states[0].policy.Valid()
  {
  }
}
