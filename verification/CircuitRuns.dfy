/** Every interleaving of reservations, completions and probes on one backend.

    Each lock section, atomic operation and channel operation is one step. */
module CircuitRuns {
  import opened Circuit
  import opened Counting

  // ----- State -----

  /** Where one operation stands between two atomic actions. */
  datatype Op =
    | Claimed(permit: bool)      // passed the state lock, admission not yet tried
    | Tokened(permit: bool)      // owns an admission token
    | Held(permit: bool)         // counted in flight; the caller owns the reservation
    | Released(permit: bool, outcome: Outcome, at: int)   // Complete won the compare-and-swap
    | Recorded                   // outcome recorded, still counted in flight
    | Uncounted                  // no longer in flight, token not yet returned
    | Undoing                    // rejected by admission, permit not yet given back
    | Probing                    // an active probe with a permit
    | Finished

  datatype State = State(policy: Policy, core: Core, tokens: int, inFlight: int, ops: map<nat, Op>)

  function Initial(policy: Policy): State {
    State(policy, FRESH, 0, 0, map[])
  }

  // ----- Steps -----

  datatype Step =
    | Advance(now: int)                              // first section of tryReserve
    | ClaimSlot(id: nat)                             // second section of tryReserve, granted
    | Admit(id: nat)                                 // channel send succeeds
    | CountIn(id: nat)                               // inFlight.Add(1)
    | Reject(id: nat)                                // channel full
    | Undo(id: nat)                                  // permit given back under the lock
    | Complete(id: nat, outcome: Outcome, at: int)   // Complete or Release, any number of times
    | Record(id: nat)                                // recordPassive
    | CountOut(id: nat)                              // inFlight.Add(-1)
    | FreeToken(id: nat)                             // channel receive
    | ProbeBegin(id: nat, now: int)                  // beginCircuitProbe, granted or not
    | ProbeHealth(success: bool)                     // recordActive
    | ProbeEnd(id: nat, success: bool, now: int)     // completeCircuitProbe

  predicate Enabled(s: State, step: Step) {
    match step
    case Advance(_) => true
    case ClaimSlot(id) => id !in s.ops && Eligible(s.core, s.policy)
    case Admit(id) => id in s.ops && s.ops[id].Claimed? && s.tokens < s.policy.maxInFlight
    case CountIn(id) => id in s.ops && s.ops[id].Tokened?
    case Reject(id) => id in s.ops && s.ops[id].Claimed? && s.tokens >= s.policy.maxInFlight
    case Undo(id) => id in s.ops && s.ops[id].Undoing?
    case Complete(id, _, _) => id in s.ops && Reserved(s.ops[id])
    case Record(id) => id in s.ops && s.ops[id].Released?
    case CountOut(id) => id in s.ops && s.ops[id].Recorded?
    case FreeToken(id) => id in s.ops && s.ops[id].Uncounted? && s.tokens > 0
    case ProbeBegin(id, _) => id !in s.ops
    case ProbeHealth(_) => true
    case ProbeEnd(id, _, _) => id in s.ops && s.ops[id].Probing?
  }

  /** The caller may hold (or have held) a reservation object. */
  predicate Reserved(op: Op) {
    op.Held? || op.Released? || op.Recorded? || op.Uncounted? || op.Finished?
  }

  function ProbeOutcome(success: bool): Outcome { if success then Success else Failure }

  function Apply(s: State, step: Step): State
    requires Enabled(s, step)
  {
    match step
    case Advance(now) => s.(core := AdvanceCooldown(s.core, s.policy, now))
    case ClaimSlot(id) => s.(core := Claim(s.core), ops := s.ops[id := Claimed(s.core.circuit == HalfOpen)])
    case Admit(id) => s.(tokens := s.tokens + 1, ops := s.ops[id := Tokened(s.ops[id].permit)])
    case CountIn(id) => s.(inFlight := s.inFlight + 1, ops := s.ops[id := Held(s.ops[id].permit)])
    case Reject(id) => s.(ops := s.ops[id := if s.ops[id].permit then Undoing else Finished])
    case Undo(id) => s.(core := UndoClaim(s.core), ops := s.ops[id := Finished])
    case Complete(id, outcome, at) =>
      if s.ops[id].Held? then s.(ops := s.ops[id := Released(s.ops[id].permit, outcome, at)]) else s
    case Record(id) =>
      var op := s.ops[id];
      s.(core := RecordPassive(s.core, s.policy, op.outcome, op.permit, op.at), ops := s.ops[id := Recorded])
    case CountOut(id) => s.(inFlight := s.inFlight - 1, ops := s.ops[id := Uncounted])
    case FreeToken(id) => s.(tokens := s.tokens - 1, ops := s.ops[id := Finished])
    case ProbeBegin(id, now) =>
      s.(core := BeginProbe(s.core, s.policy, now),
         ops := s.ops[id := if ProbePermitted(s.core, s.policy, now) then Probing else Finished])
    case ProbeHealth(success) => s.(core := RecordActive(s.core, s.policy, success))
    case ProbeEnd(id, success, now) =>
      s.(core := EndProbe(s.core, s.policy, success, now), ops := s.ops[id := Finished])
  }

  ghost predicate Follows(s: State, step: Step, t: State) {
    Enabled(s, step) && t == Apply(s, step)
  }

  ghost predicate Run(states: seq<State>, steps: seq<Step>) {
    && |states| == |steps| + 1
    && states[0].policy.Valid() && states[0] == Initial(states[0].policy)
    && forall i :: 0 <= i < |steps| ==> Follows(states[i], steps[i], states[i + 1])
  }

  // ----- Roles of an operation -----

  predicate HoldsToken(op: Op) {
    op.Tokened? || op.Held? || op.Released? || op.Recorded? || op.Uncounted?
  }

  predicate IsInFlight(op: Op) {
    op.Held? || op.Released? || op.Recorded?
  }

  /** A half-open permit is really outstanding: held by a reservation, a probe or a claim awaiting admission. */
  predicate HasPermit(op: Op) {
    match op
    case Claimed(permit) => permit
    case Tokened(permit) => permit
    case Held(permit) => permit
    case Released(permit, _, _) => permit
    case Undoing => true
    case Probing => true
    case _ => false
  }

  // ----- Admission tokens -----

  ghost predicate TokensConserved(s: State) {
    && s.tokens == Count(s.ops, HoldsToken) && s.inFlight == Count(s.ops, IsInFlight)
    && s.tokens <= s.policy.maxInFlight
  }

  lemma TokensKept(s: State, step: Step)
    requires TokensConserved(s) && Enabled(s, step)
    ensures TokensConserved(Apply(s, step))
  {
    hide Count, AdvanceCooldown, RecordPassive, RecordActive, BeginProbe, ProbePermitted, Claim, Eligible;
    if !step.Advance? && !step.ProbeHealth? {
      var t := Apply(s, step);
      if step.id in t.ops {
        CountUpdate(s.ops, step.id, t.ops[step.id], HoldsToken);
        CountUpdate(s.ops, step.id, t.ops[step.id], IsInFlight);
        assert s.ops[step.id := t.ops[step.id]] == t.ops;
      }
    }
  }

  lemma FewerInFlight(ops: map<nat, Op>)
    ensures Count(ops, IsInFlight) <= Count(ops, HoldsToken)
  {
    CountSubset(ops, IsInFlight, HoldsToken);
  }

  // ----- Half-open permits -----

  ghost predicate PermitsCovered(s: State) {
    && s.core.halfOpenInFlight <= s.policy.halfOpenMax
    && s.core.halfOpenInFlight <= Count(s.ops, HasPermit)
  }

  ghost predicate Configured(s: State) { s.policy.Valid() }

  /** What a step does to the permit counter, relative to the permits outstanding. */
  lemma PermitsKept(s: State, step: Step)
    requires Configured(s) && PermitsCovered(s) && Enabled(s, step)
    ensures PermitsCovered(Apply(s, step))
  {
    hide Count;
    var t := Apply(s, step);
    if !step.Advance? && !step.ProbeHealth? && step.id in t.ops {
      CountUpdate(s.ops, step.id, t.ops[step.id], HasPermit);
      assert s.ops[step.id := t.ops[step.id]] == t.ops;
      if step.id in s.ops && HasPermit(s.ops[step.id]) { CountIsPositive(s.ops, step.id, HasPermit); }
    }
  }

  /** With a limit of one permit, the counter is exact: at most one permit is ever outstanding, and only while
      the circuit is half-open. */
  ghost predicate SinglePermit(s: State) {
    && s.core.halfOpenInFlight == Count(s.ops, HasPermit) <= 1
    && (Count(s.ops, HasPermit) == 1 ==> s.core.circuit == HalfOpen)
  }

  lemma SinglePermitKept(s: State, step: Step)
    requires Configured(s) && s.policy.halfOpenMax == 1 && SinglePermit(s) && Enabled(s, step)
    ensures SinglePermit(Apply(s, step))
  {
    hide Count;
    var t := Apply(s, step);
    if !step.Advance? && !step.ProbeHealth? && step.id in t.ops {
      CountUpdate(s.ops, step.id, t.ops[step.id], HasPermit);
      assert s.ops[step.id := t.ops[step.id]] == t.ops;
      if step.id in s.ops && HasPermit(s.ops[step.id]) { CountIsPositive(s.ops, step.id, HasPermit); }
    }
  }

  // ----- Invariants of every run -----

  ghost predicate Invariant(s: State) {
    && Configured(s) && TokensConserved(s) && PermitsCovered(s)
    && (s.policy.halfOpenMax == 1 ==> SinglePermit(s))
  }

  lemma InitialInvariant(policy: Policy)
    requires policy.Valid()
    ensures Invariant(Initial(policy))
  {
    assert Those(map[], HoldsToken) == {} && Those(map[], IsInFlight) == {} && Those(map[], HasPermit) == {};
  }

  lemma PolicyFixed(s: State, step: Step)
    requires Enabled(s, step)
    ensures Apply(s, step).policy == s.policy
  {
  }

  lemma {:induction false} RunInvariant(states: seq<State>, steps: seq<Step>, i: nat)
    requires Run(states, steps) && i < |states|
    ensures Invariant(states[i]) && states[i].policy == states[0].policy
  {
    hide Apply, Enabled, TokensConserved, PermitsCovered, SinglePermit, Initial;
    if i == 0 {
      InitialInvariant(states[0].policy);
    } else {
      RunInvariant(states, steps, i - 1);
      assert Follows(states[i - 1], steps[i - 1], states[i]);
      PolicyFixed(states[i - 1], steps[i - 1]);
      TokensKept(states[i - 1], steps[i - 1]);
      PermitsKept(states[i - 1], steps[i - 1]);
      if states[0].policy.halfOpenMax == 1 { SinglePermitKept(states[i - 1], steps[i - 1]); }
    }
  }

  /** Semaphore conservation: in every state of every run the in-flight count is within the tokens and the
      tokens within the limit, and an operation about to return its token never blocks. */
  lemma SemaphoreConservation(states: seq<State>, steps: seq<Step>, i: nat)
    requires Run(states, steps) && i < |states|
    ensures var s := states[i];
            && 0 <= s.inFlight <= s.tokens <= s.policy.maxInFlight
            && forall id :: id in s.ops && s.ops[id].Uncounted? ==> Enabled(s, FreeToken(id))
  {
    hide Run, Count, PermitsCovered, SinglePermit;
    var s := states[i];
    RunInvariant(states, steps, i);
    FewerInFlight(s.ops);
    forall id | id in s.ops && s.ops[id].Uncounted? ensures Enabled(s, FreeToken(id)) {
      CountIsPositive(s.ops, id, HoldsToken);
    }
  }

  lemma {:induction false} FinishedStays(states: seq<State>, steps: seq<Step>, i: nat, j: nat, id: nat)
    requires Run(states, steps) && i <= j < |states|
    requires id in states[i].ops && states[i].ops[id].Finished?
    ensures id in states[j].ops && states[j].ops[id].Finished?
    decreases j - i
  {
    if i < j {
      FinishedStays(states, steps, i, j - 1, id);
      assert Follows(states[j - 1], steps[j - 1], states[j]);
    }
  }

  /** A claim is rejected only when every token is taken and admitted only with a free one, and one of the two can
      always happen. */
  lemma ClaimsAreDecided(states: seq<State>, steps: seq<Step>, i: nat)
    requires Run(states, steps) && i < |states|
    ensures i < |steps| && steps[i].Reject? ==> states[i].tokens == states[i].policy.maxInFlight
    ensures i < |steps| && steps[i].Admit? ==> states[i].tokens < states[i].policy.maxInFlight
    ensures forall id :: id in states[i].ops && states[i].ops[id].Claimed? ==>
              if states[i].tokens == states[i].policy.maxInFlight then Enabled(states[i], Reject(id))
              else Enabled(states[i], Admit(id))
  {
    RunInvariant(states, steps, i);
    if i < |steps| { assert Follows(states[i], steps[i], states[i + 1]); }
    hide Run, Count, PermitsCovered, SinglePermit, Apply;
  }

  /** However often Complete or Release is called, a reservation returns its token at most once. */
  lemma TokenReturnedOnce(states: seq<State>, steps: seq<Step>, i: nat, j: nat, id: nat)
    requires Run(states, steps) && i < j < |steps| && steps[i] == FreeToken(id)
    ensures steps[j] != FreeToken(id)
  {
    assert Follows(states[i], steps[i], states[i + 1]) && Follows(states[j], steps[j], states[j + 1]);
    FinishedStays(states, steps, i + 1, j, id);
  }

  /** Half-open permits: the counter never exceeds the limit nor the permits really outstanding, so no leaked
      permit can wedge a half-open circuit; with a limit of one it is exact. */
  lemma HalfOpenPermits(states: seq<State>, steps: seq<Step>, i: nat)
    requires Run(states, steps) && i < |states|
    ensures var s := states[i];
            && s.core.halfOpenInFlight <= s.policy.halfOpenMax
            && s.core.halfOpenInFlight <= Count(s.ops, HasPermit)
            && (s.policy.halfOpenMax == 1 ==> s.core.halfOpenInFlight == Count(s.ops, HasPermit) <= 1)
            && (s.core.circuit == HalfOpen && Count(s.ops, HasPermit) == 0 ==>
                  s.core.halfOpenInFlight < s.policy.halfOpenMax)
  {
    hide Run, Count;
    RunInvariant(states, steps, i);
  }

  // ----- Larger limits can be exceeded -----

  lemma Extend(states: seq<State>, steps: seq<Step>, step: Step) returns (states': seq<State>, steps': seq<Step>)
    requires Run(states, steps) && Enabled(states[|steps|], step)
    ensures Run(states', steps') && states'[0] == states[0] && |states'| == |steps'| + 1
    ensures states'[|steps'|] == Apply(states[|steps|], step)
  {
    hide Enabled, Apply;
    states', steps' := states + [Apply(states[|steps|], step)], steps + [step];
    forall i | 0 <= i < |steps'| ensures Follows(states'[i], steps'[i], states'[i + 1]) {
      if i < |steps| { assert Follows(states[i], steps[i], states[i + 1]); }
    }
  }

  /** A reservation runs from admission to its recorded outcome. */
  lemma Serve(states: seq<State>, steps: seq<Step>, id: nat, outcome: Outcome, at: int)
    returns (states': seq<State>, steps': seq<Step>)
    requires Run(states, steps)
    requires var s := states[|steps|]; id in s.ops && s.ops[id].Claimed? && s.tokens < s.policy.maxInFlight
    ensures Run(states', steps') && states'[0] == states[0] && |states'| == |steps'| + 1
    ensures var s, t := states[|steps|], states'[|steps'|];
            t == s.(core := RecordPassive(s.core, s.policy, outcome, s.ops[id].permit, at), tokens := s.tokens + 1,
                    inFlight := s.inFlight + 1, ops := s.ops[id := Recorded])
  {
    var s := states[|steps|];
    hide Run, RecordPassive;
    states', steps' := Extend(states, steps, Admit(id));
    states', steps' := Extend(states', steps', CountIn(id));
    states', steps' := Extend(states', steps', Complete(id, outcome, at));
    states', steps' := Extend(states', steps', Record(id));
    assert states'[|steps'|].ops == s.ops[id := Recorded];
  }

  /** And then to the return of its token. */
  lemma Finish(states: seq<State>, steps: seq<Step>, id: nat, outcome: Outcome, at: int)
    returns (states': seq<State>, steps': seq<Step>)
    requires Run(states, steps)
    requires var s := states[|steps|]; id in s.ops && s.ops[id].Claimed? && 0 <= s.tokens < s.policy.maxInFlight
    ensures Run(states', steps') && states'[0] == states[0] && |states'| == |steps'| + 1
    ensures var s, t := states[|steps|], states'[|steps'|];
            t == s.(core := RecordPassive(s.core, s.policy, outcome, s.ops[id].permit, at), ops := s.ops[id := Finished])
  {
    var s := states[|steps|];
    hide Run, RecordPassive;
    states', steps' := Serve(states, steps, id, outcome, at);
    states', steps' := Extend(states', steps', CountOut(id));
    states', steps' := Extend(states', steps', FreeToken(id));
    assert states'[|steps'|].ops == s.ops[id := Finished];
  }

  /** A healthy circuit with every token free that has used no id from `from` on. */
  ghost predicate Resting(s: State, from: nat) {
    s.policy.Valid() && s.core.healthy && s.tokens == 0 && forall id :: id >= from ==> id !in s.ops
  }

  /** Failures at time 0 open a closed circuit, whatever the threshold. */
  lemma {:induction false} Trip(states: seq<State>, steps: seq<Step>, from: nat)
    returns (states': seq<State>, steps': seq<Step>, from': nat)
    requires Run(states, steps)
    requires var s := states[|steps|];
             && Resting(s, from) && s.core.circuit == Closed && s.core.passiveFailures < s.policy.passiveThreshold
             && (s.core.windowStart == At(0) || (s.core.windowStart == Never && s.core.passiveFailures == 0))
    ensures Run(states', steps') && states'[0] == states[0] && |states'| == |steps'| + 1
    ensures var t := states'[|steps'|];
            && t.policy == states[|steps|].policy && Resting(t, from') && t.core.circuit == Open && t.core.openedAt == At(0)
    decreases states[|steps|].policy.passiveThreshold - states[|steps|].core.passiveFailures
  {
    hide Run;
    states', steps' := Extend(states, steps, ClaimSlot(from));
    states', steps' := Finish(states', steps', from, Failure, 0);
    from' := from + 1;
    if states'[|steps'|].core.circuit == Closed {
      states', steps', from' := Trip(states', steps', from');
    }
  }

  /** Fills a half-open circuit up to its limit. */
  lemma {:induction false} FillPermits(states: seq<State>, steps: seq<Step>, from: nat)
    returns (states': seq<State>, steps': seq<Step>)
    requires Run(states, steps)
    requires var s := states[|steps|];
             && s.core.circuit == HalfOpen && s.core.healthy
             && 0 <= s.core.halfOpenInFlight <= s.policy.halfOpenMax
             && forall id :: id >= from ==> id !in s.ops
    ensures Run(states', steps') && states'[0] == states[0] && |states'| == |steps'| + 1
    ensures var s, t := states[|steps|], states'[|steps'|];
            Count(t.ops, HasPermit) == Count(s.ops, HasPermit) + s.policy.halfOpenMax - s.core.halfOpenInFlight
    decreases states[|steps|].policy.halfOpenMax - states[|steps|].core.halfOpenInFlight
  {
    var s := states[|steps|];
    assert |states| == |steps| + 1;
    hide Run, Count;
    states', steps' := states, steps;
    if s.core.halfOpenInFlight < s.policy.halfOpenMax {
      states', steps' := Extend(states, steps, ClaimSlot(from));
      CountUpdate(s.ops, from, Claimed(true), HasPermit);
      states', steps' := FillPermits(states', steps', from + 1);
    }
  }

  /** Under every valid policy with a limit of at least two some run has more permits outstanding than the limit:
      a transition forgets the permits of its period, and a new period then grants the full limit again. */
  lemma PermitsCanExceed(policy: Policy) returns (states: seq<State>, steps: seq<Step>)
    requires policy.Valid() && policy.halfOpenMax >= 2
    ensures Run(states, steps) && states[0] == Initial(policy)
    ensures Count(states[|steps|].ops, HasPermit) > policy.halfOpenMax
  {
    hide Run, Count;
    states, steps := [Initial(policy)], [];
    assert Run(states, steps) by { StartOfRun(policy); }
    var id;
    states, steps, id := Trip(states, steps, 0);
    states, steps := Extend(states, steps, Advance(policy.cooldown));
    states, steps := Extend(states, steps, ClaimSlot(id));
    states, steps := Extend(states, steps, ClaimSlot(id + 1));
    states, steps := Finish(states, steps, id, Failure, policy.cooldown);
    states, steps := Extend(states, steps, Advance(2 * policy.cooldown));
    var s := states[|steps|];
    assert s.core.circuit == HalfOpen && s.core.halfOpenInFlight == 0 && s.ops[id + 1] == Claimed(true);
    CountIsPositive(s.ops, id + 1, HasPermit);
    states, steps := FillPermits(states, steps, id + 2);
  }

  lemma StartOfRun(policy: Policy)
    requires policy.Valid()
    ensures Run([Initial(policy)], [])
  {
  }

  /** Whatever the other settings: all runs under a policy stay within its limit exactly when the limit is one. */
  lemma LimitHoldsOnlyForOne(policy: Policy)
    requires policy.Valid()
    ensures policy.halfOpenMax == 1 <==>
              forall states: seq<State>, steps: seq<Step> :: Run(states, steps) && states[0] == Initial(policy) ==>
                Count(states[|steps|].ops, HasPermit) <= policy.halfOpenMax
  {
    hide Count, Invariant, Follows;
    if policy.halfOpenMax == 1 {
      forall states: seq<State>, steps: seq<Step> | Run(states, steps) && states[0] == Initial(policy)
        ensures Count(states[|steps|].ops, HasPermit) <= policy.halfOpenMax
      {
        HalfOpenPermits(states, steps, |steps|);
        RunInvariant(states, steps, |steps|);
      }
    } else {
      var states, steps := PermitsCanExceed(policy);
    }
  }

  // ----- No permit outlives its period -----

  /** When this step moves the circuit, no permit of the old period stays outstanding. */
  predicate Settled(s: State, step: Step)
    requires Enabled(s, step)
  {
    var t := Apply(s, step);
    s.core.circuit != t.core.circuit ==>
      forall id :: id in s.ops && HasPermit(s.ops[id]) ==> id in t.ops && !HasPermit(t.ops[id])
  }

  lemma NoneLeft(s: State, step: Step)
    requires Enabled(s, step) && Settled(s, step) && s.core.circuit != Apply(s, step).core.circuit
    ensures step.ProbeBegin? ==> Count(s.ops, HasPermit) == 0
    ensures !step.ProbeBegin? ==> Count(Apply(s, step).ops, HasPermit) == 0
  {
    hide Count;
    var t := Apply(s, step);
    if step.ProbeBegin? {
      assert forall id :: id in s.ops ==> id != step.id && id in t.ops && t.ops[id] == s.ops[id];
      CountNone(s.ops, HasPermit);
    } else {
      assert forall id :: id in t.ops ==> id in s.ops && (t.ops[id] == s.ops[id] || !HasPermit(t.ops[id]));
      CountNone(t.ops, HasPermit);
    }
  }

  lemma ExactKept(s: State, step: Step)
    requires s.core.halfOpenInFlight == Count(s.ops, HasPermit) && Enabled(s, step) && Settled(s, step)
    ensures Apply(s, step).core.halfOpenInFlight == Count(Apply(s, step).ops, HasPermit)
  {
    hide Count, Settled, RecordActive;
    var t := Apply(s, step);
    if step.ProbeHealth? { ActiveLeavesCircuit(s.core, s.policy, step.success); }
    if s.core.circuit != t.core.circuit { NoneLeft(s, step); }
    if !step.Advance? && !step.ProbeHealth? && step.id in t.ops {
      CountUpdate(s.ops, step.id, t.ops[step.id], HasPermit);
      assert s.ops[step.id := t.ops[step.id]] == t.ops;
      if step.id in s.ops && HasPermit(s.ops[step.id]) { CountIsPositive(s.ops, step.id, HasPermit); }
    }
  }

  /** For every limit: while no permit outlives its period, the counter is exactly the number of permits
      outstanding, which therefore stays within the limit. */
  lemma {:induction false} SettledRunsAreExact(states: seq<State>, steps: seq<Step>, i: nat)
    requires Run(states, steps) && i < |states|
    requires forall k :: 0 <= k < i ==> Enabled(states[k], steps[k]) && Settled(states[k], steps[k])
    ensures states[i].core.halfOpenInFlight == Count(states[i].ops, HasPermit) <= states[i].policy.halfOpenMax
  {
    hide Count, Enabled, Settled, Apply;
    HalfOpenPermits(states, steps, i);
    if i == 0 {
      CountNone(states[0].ops, HasPermit);
    } else {
      SettledRunsAreExact(states, steps, i - 1);
      assert Follows(states[i - 1], steps[i - 1], states[i]);
      ExactKept(states[i - 1], steps[i - 1]);
    }
  }

  // ----- Circuit safety over whole runs -----

  /** The circuit moves only along closed-open, open-half-open, half-open-open and half-open-closed. */
  lemma AllowedTransitions(states: seq<State>, steps: seq<Step>, i: nat)
    requires Run(states, steps) && i < |steps|
    ensures var from, to := states[i].core.circuit, states[i + 1].core.circuit;
            || from == to || (from == Closed && to == Open) || (from == Open && to == HalfOpen)
            || (from == HalfOpen && to != HalfOpen)
  {
    assert Follows(states[i], steps[i], states[i + 1]);
  }

  /** The clock a step reads under the state lock. */
  function Clock(s: State, step: Step): Moment
    requires Enabled(s, step)
  {
    match step
    case Advance(now) => At(now)
    case Record(id) => At(s.ops[id].at)
    case ProbeBegin(_, now) => At(now)
    case ProbeEnd(_, _, now) => At(now)
    case _ => Never
  }

  predicate Grants(s: State, step: Step) {
    step.ClaimSlot? || (step.ProbeBegin? && ProbePermitted(s.core, s.policy, step.now))
  }

  ghost predicate CooledAt(states: seq<State>, steps: seq<Step>, k: nat, t: int)
    requires Run(states, steps) && k < |steps|
  {
    && Follows(states[k], steps[k], states[k + 1])
    && Clock(states[k], steps[k]).At? && Clock(states[k], steps[k]).t >= t + states[0].policy.cooldown
  }

  /** While no step has read a clock past the cooldown, an open circuit stays open since the same time. */
  lemma {:induction false} StaysOpen(states: seq<State>, steps: seq<Step>, i: nat, j: nat, t: int)
    requires Run(states, steps) && i <= j <= |steps|
    requires states[i].core.circuit == Open && states[i].core.openedAt == At(t)
    requires forall k :: i <= k < j ==> !CooledAt(states, steps, k, t)
    ensures states[j].core.circuit == Open && states[j].core.openedAt == At(t)
    decreases j - i
  {
    if i < j {
      StaysOpen(states, steps, i, j - 1, t);
      RunInvariant(states, steps, j - 1);
      assert Follows(states[j - 1], steps[j - 1], states[j]);
      assert !CooledAt(states, steps, j - 1, t);
      hide Run, Invariant;
    }
  }

  /** After the circuit opens at time t, nothing is granted before a step whose clock is at least t plus the
      cooldown; that step may be the granting probe itself. */
  lemma NoGrantDuringCooldown(states: seq<State>, steps: seq<Step>, i: nat, j: nat, t: int)
    requires Run(states, steps) && i <= j < |steps|
    requires states[i].core.circuit == Open && states[i].core.openedAt == At(t)
    requires Grants(states[j], steps[j])
    ensures exists k :: i <= k <= j && CooledAt(states, steps, k, t)
  {
    if forall k :: i <= k < j ==> !CooledAt(states, steps, k, t) {
      StaysOpen(states, steps, i, j, t);
      RunInvariant(states, steps, j);
      assert Follows(states[j], steps[j], states[j + 1]);
      hide Run, Invariant;
      assert CooledAt(states, steps, j, t);
    }
  }

  /** A step that carries a permit and reports this outcome. */
  predicate PermitOutcome(s: State, step: Step, outcome: Outcome)
    requires Enabled(s, step)
  {
    || (step.Record? && s.ops[step.id].permit && s.ops[step.id].outcome == outcome)
    || (step.ProbeEnd? && ProbeOutcome(step.success) == outcome)
  }

  /** How many permit-carried successes steps i..j recorded. */
  ghost function PermitSuccesses(states: seq<State>, steps: seq<Step>, i: nat, j: nat): nat
    requires Run(states, steps) && i <= j <= |steps|
    decreases j - i
  {
    if i == j then 0
    else
      assert Follows(states[j - 1], steps[j - 1], states[j]);
      PermitSuccesses(states, steps, i, j - 1) + if PermitOutcome(states[j - 1], steps[j - 1], Success) then 1 else 0
  }

  /** The circuit entered half-open just before state i and has stayed half-open through state j. */
  ghost predicate HalfOpenSince(states: seq<State>, steps: seq<Step>, i: nat, j: nat)
    requires Run(states, steps)
  {
    && 1 <= i <= j <= |steps| && states[i - 1].core.circuit == Open
    && forall k :: i <= k <= j ==> states[k].core.circuit == HalfOpen
  }

  /** What one step does to the success counter of a half-open circuit. */
  lemma SuccessStep(s: State, step: Step)
    requires Enabled(s, step) && Apply(s, step).core.circuit == HalfOpen
    ensures s.core.circuit == HalfOpen ==>
              Apply(s, step).core.halfOpenSuccesses
              == s.core.halfOpenSuccesses + if PermitOutcome(s, step, Success) then 1 else 0
    ensures s.core.circuit != HalfOpen ==> s.core.circuit == Open && Apply(s, step).core.halfOpenSuccesses == 0
  {
    hide RecordActive;
    if step.ProbeHealth? { ActiveLeavesCircuit(s.core, s.policy, step.success); }
  }

  lemma ActiveLeavesCircuit(core: Core, policy: Policy, success: bool)
    ensures var after := RecordActive(core, policy, success);
            && after.circuit == core.circuit && after.halfOpenSuccesses == core.halfOpenSuccesses
            && after.halfOpenInFlight == core.halfOpenInFlight
  {
  }

  /** In a half-open state, the success counter equals the permit-carried successes since the last entry. */
  lemma {:induction false} SuccessesCounted(states: seq<State>, steps: seq<Step>, j: nat) returns (i: nat)
    requires Run(states, steps) && j <= |steps| && states[j].core.circuit == HalfOpen
    ensures HalfOpenSince(states, steps, i, j)
    ensures states[j].core.halfOpenSuccesses == PermitSuccesses(states, steps, i, j)
    decreases j
  {
    assert j > 0;
    assert Follows(states[j - 1], steps[j - 1], states[j]);
    SuccessStep(states[j - 1], steps[j - 1]);
    hide Apply, Enabled, PermitOutcome;
    if states[j - 1].core.circuit == HalfOpen {
      i := SuccessesCounted(states, steps, j - 1);
    } else {
      i := j;
    }
  }

  /** Closing takes exactly `halfOpenSuccesses` permit-carried successes since the last half-open entry, the
      closing one included, and no permit-carried failure in between. */
  lemma ClosingNeedsSuccesses(states: seq<State>, steps: seq<Step>, j: nat) returns (i: nat)
    requires Run(states, steps) && j < |steps|
    requires states[j].core.circuit == HalfOpen && states[j + 1].core.circuit == Closed
    ensures HalfOpenSince(states, steps, i, j)
    ensures PermitSuccesses(states, steps, i, j + 1) == states[0].policy.halfOpenSuccesses
    ensures forall k :: i <= k <= j ==>
              Enabled(states[k], steps[k]) && !PermitOutcome(states[k], steps[k], Failure)
  {
    i := SuccessesCounted(states, steps, j);
    RunInvariant(states, steps, j);
    assert Follows(states[j], steps[j], states[j + 1]);
    CounterBelowGoal(states, steps, j);
    forall k | i <= k <= j
      ensures Enabled(states[k], steps[k]) && !PermitOutcome(states[k], steps[k], Failure)
    {
      assert Follows(states[k], steps[k], states[k + 1]);
      assert states[k].core.circuit == HalfOpen && states[k + 1].core.circuit != Open;
    }
  }

  lemma GoalStep(s: State, step: Step)
    requires s.policy.Valid() && Enabled(s, step) && s.core.halfOpenSuccesses < s.policy.halfOpenSuccesses
    ensures Apply(s, step).core.halfOpenSuccesses < s.policy.halfOpenSuccesses
  {
    hide RecordActive;
    if step.ProbeHealth? { ActiveLeavesCircuit(s.core, s.policy, step.success); }
  }

  /** Below the goal a half-open circuit has not collected enough successes yet. */
  lemma {:induction false} CounterBelowGoal(states: seq<State>, steps: seq<Step>, j: nat)
    requires Run(states, steps) && j <= |steps|
    ensures states[j].core.halfOpenSuccesses < states[0].policy.halfOpenSuccesses
  {
    if j > 0 {
      CounterBelowGoal(states, steps, j - 1);
      RunInvariant(states, steps, j - 1);
      assert Follows(states[j - 1], steps[j - 1], states[j]);
      GoalStep(states[j - 1], steps[j - 1]);
    }
  }

  // ----- Every move of the circuit -----

  /** How a permit-carried or other outcome moves a circuit that is not closed. In the half-open state a permit-carried
      failure opens it, and a permit-carried success closes it exactly when it is the last one needed; outcomes
      without a permit, and every outcome while it is open, leave the circuit alone. */
  lemma OutcomesMove(states: seq<State>, steps: seq<Step>, j: nat)
    requires Run(states, steps) && j < |steps| && states[j].core.circuit != Closed
    requires steps[j].Record? || steps[j].ProbeEnd?
    ensures Enabled(states[j], steps[j])
    ensures var s, t := states[j].core, states[j + 1].core;
            if s.circuit == HalfOpen && PermitOutcome(states[j], steps[j], Failure) then t.circuit == Open
            else if s.circuit == HalfOpen && PermitOutcome(states[j], steps[j], Success) then
              t.circuit == if s.halfOpenSuccesses + 1 == states[0].policy.halfOpenSuccesses then Closed else HalfOpen
            else t.circuit == s.circuit && t.openedAt == s.openedAt && t.halfOpenSuccesses == s.halfOpenSuccesses
  {
    assert Follows(states[j], steps[j], states[j + 1]);
    CounterBelowGoal(states, steps, j);
    RunInvariant(states, steps, j);
    hide Run, TokensConserved, PermitsCovered, SinglePermit;
  }

  /** Whatever else a step does to the circuit: a clock past the cooldown makes an open one half-open, and steps
      that read no clock leave it alone. */
  lemma OthersMove(states: seq<State>, steps: seq<Step>, j: nat)
    requires Run(states, steps) && j < |steps| && !steps[j].Record? && !steps[j].ProbeEnd?
    ensures Enabled(states[j], steps[j])
    ensures var s, t, clock := states[j].core, states[j + 1].core, Clock(states[j], steps[j]);
            t.circuit == if s.circuit == Open && clock.At?
                            && (s.openedAt.Never? || clock.t - s.openedAt.t >= states[0].policy.cooldown)
                         then HalfOpen else s.circuit
  {
    assert Follows(states[j], steps[j], states[j + 1]);
    RunInvariant(states, steps, j);
    hide Run, TokensConserved, PermitsCovered, SinglePermit;
  }

  /** A circuit that opens is stamped with the clock of the step that opens it, and an open one always has a stamp. */
  lemma OpeningIsStamped(states: seq<State>, steps: seq<Step>, j: nat)
    requires Run(states, steps) && j < |steps| && states[j + 1].core.circuit == Open
    ensures Enabled(states[j], steps[j])
    ensures states[j].core.circuit != Open ==>
              Clock(states[j], steps[j]).At? && states[j + 1].core.openedAt == Clock(states[j], steps[j])
    ensures states[j].core.circuit == Open ==> states[j + 1].core.openedAt == states[j].core.openedAt
  {
    assert Follows(states[j], steps[j], states[j + 1]);
    hide Run;
  }
}
