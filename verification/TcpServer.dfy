/** Connection admission and shutdown of the TCP server, in every interleaving of the accept loop with the
    connection workers. */
module TcpServer {
  import opened Counting

  /** What has been done for an accepted connection, in the order of `admit` and of the deferred calls of
      `runConnection`. */
  datatype Stage =
    | Tokened      // owns an admission token
    | Listed       // in the active map
    | Admitted     // admitted counter incremented
    | Active       // activeCount incremented
    | Working      // registered with the wait group, handler running
    | Unlisted     // removed from the active map
    | Inactive     // activeCount decremented
    | Completed    // completed counter incremented
    | Freed        // token returned
    | Gone         // wait group released

  datatype Lifecycle = New | Serving | Draining | Closed

  datatype State = State(
    maximum: nat,
    lifecycle: Lifecycle,
    accepting: bool,         // the accept loop still runs
    undecided: int,          // connections accepted but neither admitted nor rejected yet: zero or one
    tokens: int,
    active: set<nat>,
    activeCount: int,
    workers: int,
    accepted: int,
    admitted: int,
    rejected: int,
    completed: int,
    stages: map<nat, Stage>)

  function Initial(maximum: nat): State {
    State(maximum, New, false, 0, 0, {}, 0, 0, 0, 0, 0, 0, map[])
  }

  datatype Step =
    | Serve                  // New to Serving, the accept loop begins
    | Accept                 // listener.Accept returns a connection
    | Reject                 // not serving, or no token
    | TakeToken(id: nat)
    | List(id: nat)
    | CountAdmitted(id: nat)
    | CountActive(id: nat)
    | Spawn(id: nat)
    | Unlist(id: nat)        // the handler returned
    | CountInactive(id: nat)
    | CountCompleted(id: nat)
    | FreeToken(id: nat)
    | Done(id: nat)
    | BeginShutdown
    | StopAccepting          // Accept failed: the loop ends
    | Finish                 // after the drain

  predicate At(s: State, id: nat, stage: Stage) { id in s.stages && s.stages[id] == stage }

  /** The accept loop is inside admit for some connection. */
  predicate Admitting(stage: Stage) { stage.Tokened? || stage.Listed? || stage.Admitted? || stage.Active? }

  predicate BusyAdmitting(s: State) { exists id :: id in s.stages && Admitting(s.stages[id]) }

  predicate Enabled(s: State, step: Step) {
    match step
    case Serve => s.lifecycle == New
    case Accept => s.accepting && s.undecided == 0 && !BusyAdmitting(s)
    case Reject => s.undecided == 1 && (s.lifecycle != Serving || s.tokens >= s.maximum)
    case TakeToken(id) => s.undecided == 1 && id !in s.stages && s.tokens < s.maximum
    case List(id) => At(s, id, Tokened)
    case CountAdmitted(id) => At(s, id, Listed)
    case CountActive(id) => At(s, id, Admitted)
    case Spawn(id) => At(s, id, Active)
    case Unlist(id) => At(s, id, Working)
    case CountInactive(id) => At(s, id, Unlisted)
    case CountCompleted(id) => At(s, id, Inactive)
    case FreeToken(id) => At(s, id, Completed) && s.tokens > 0
    case Done(id) => At(s, id, Freed)
    case BeginShutdown => s.lifecycle == Serving
    case StopAccepting => s.accepting && s.undecided == 0 && !BusyAdmitting(s)
    case Finish => !s.accepting && s.lifecycle != New
  }

  function Apply(s: State, step: Step): State
    requires Enabled(s, step)
  {
    match step
    case Serve => s.(lifecycle := Serving, accepting := true)
    case Accept => s.(accepted := s.accepted + 1, undecided := 1)
    case Reject => s.(rejected := s.rejected + 1, undecided := 0)
    case TakeToken(id) => s.(tokens := s.tokens + 1, undecided := 0, stages := s.stages[id := Tokened])
    case List(id) => s.(active := s.active + {id}, stages := s.stages[id := Listed])
    case CountAdmitted(id) => s.(admitted := s.admitted + 1, stages := s.stages[id := Admitted])
    case CountActive(id) => s.(activeCount := s.activeCount + 1, stages := s.stages[id := Active])
    case Spawn(id) => s.(workers := s.workers + 1, stages := s.stages[id := Working])
    case Unlist(id) => s.(active := s.active - {id}, stages := s.stages[id := Unlisted])
    case CountInactive(id) => s.(activeCount := s.activeCount - 1, stages := s.stages[id := Inactive])
    case CountCompleted(id) => s.(completed := s.completed + 1, stages := s.stages[id := Completed])
    case FreeToken(id) => s.(tokens := s.tokens - 1, stages := s.stages[id := Freed])
    case Done(id) => s.(workers := s.workers - 1, stages := s.stages[id := Gone])
    case BeginShutdown => s.(lifecycle := Draining)
    case StopAccepting => s.(lifecycle := if s.lifecycle == Serving then Draining else s.lifecycle, accepting := false)
    case Finish => s.(lifecycle := Closed)
  }

  ghost predicate Follows(s: State, step: Step, t: State) {
    Enabled(s, step) && t == Apply(s, step)
  }

  ghost predicate Run(states: seq<State>, steps: seq<Step>) {
    && |states| == |steps| + 1
    && states[0] == Initial(states[0].maximum)
    && forall i :: 0 <= i < |steps| ==> Follows(states[i], steps[i], states[i + 1])
  }

  // ----- Conservation -----

  predicate HoldsToken(stage: Stage) { !stage.Freed? && !stage.Gone? }

  predicate IsListed(stage: Stage) { stage.Listed? || stage.Admitted? || stage.Active? || stage.Working? }

  predicate IsActive(stage: Stage) { stage.Active? || stage.Working? || stage.Unlisted? }

  predicate HasWorker(stage: Stage) {
    stage.Working? || stage.Unlisted? || stage.Inactive? || stage.Completed? || stage.Freed?
  }

  predicate WasAdmitted(stage: Stage) { !stage.Tokened? && !stage.Listed? }

  predicate WasCompleted(stage: Stage) { stage.Completed? || stage.Freed? || stage.Gone? }

  predicate Any(stage: Stage) { true }

  ghost predicate Conserved(s: State) {
    && s.tokens == Count(s.stages, HoldsToken) && s.tokens <= s.maximum
    && s.activeCount == Count(s.stages, IsActive)
    && s.workers == Count(s.stages, HasWorker)
    && s.admitted == Count(s.stages, WasAdmitted) && s.completed == Count(s.stages, WasCompleted)
    && s.accepted == s.rejected + Count(s.stages, Any) + s.undecided && 0 <= s.undecided <= 1
  }

  /** The active map holds exactly the connections that are listed and not yet unlisted. */
  ghost predicate ListedExactly(s: State) {
    s.active == Those(s.stages, IsListed)
  }

  /** Once the accept loop has ended, no connection is inside admit. */
  ghost predicate AdmissionOver(s: State) {
    && (s.undecided == 1 ==> s.accepting && !BusyAdmitting(s))
    && (!s.accepting ==> s.undecided == 0 && forall id :: id in s.stages ==> !Admitting(s.stages[id]))
    && (forall id, other :: id in s.stages && other in s.stages && id != other && Admitting(s.stages[id]) ==>
          !Admitting(s.stages[other]))
    && (s.lifecycle == New ==> s.stages == map[] && !s.accepting)
  }

  predicate Moves(step: Step) {
    !step.Serve? && !step.Accept? && !step.Reject? && !step.BeginShutdown? && !step.StopAccepting? && !step.Finish?
  }

  /** A step that moves a connection changes each count by that one connection. */
  lemma CountMoved(s: State, step: Step, f: Stage -> bool)
    requires Enabled(s, step) && Moves(step)
    ensures var t := Apply(s, step);
            && step.id in t.stages
            && Count(t.stages, f)
               == Count(s.stages, f) - One(step.id in s.stages && f(s.stages[step.id])) + One(f(t.stages[step.id]))
  {
    hide Count, BusyAdmitting;
    var t := Apply(s, step);
    CountUpdate(s.stages, step.id, t.stages[step.id], f);
    assert s.stages[step.id := t.stages[step.id]] == t.stages;
  }

  lemma TokensKept(s: State, step: Step)
    requires Conserved(s) && Enabled(s, step)
    ensures var t := Apply(s, step); t.tokens == Count(t.stages, HoldsToken) && t.tokens <= t.maximum
  {
    hide Count, BusyAdmitting;
    if Moves(step) { CountMoved(s, step, HoldsToken); }
  }

  lemma ActiveKept(s: State, step: Step)
    requires Conserved(s) && Enabled(s, step)
    ensures var t := Apply(s, step); t.activeCount == Count(t.stages, IsActive) && t.workers == Count(t.stages, HasWorker)
  {
    hide Count, BusyAdmitting;
    if Moves(step) {
      CountMoved(s, step, IsActive);
      CountMoved(s, step, HasWorker);
    }
  }

  lemma TotalsKept(s: State, step: Step)
    requires Conserved(s) && Enabled(s, step)
    ensures var t := Apply(s, step);
            && t.admitted == Count(t.stages, WasAdmitted) && t.completed == Count(t.stages, WasCompleted)
  {
    hide Count, BusyAdmitting;
    if Moves(step) {
      CountMoved(s, step, WasAdmitted);
      CountMoved(s, step, WasCompleted);
    }
  }

  lemma AcceptedKept(s: State, step: Step)
    requires Conserved(s) && Enabled(s, step)
    ensures var t := Apply(s, step);
            t.accepted == t.rejected + Count(t.stages, Any) + t.undecided && 0 <= t.undecided <= 1
  {
    hide Count, BusyAdmitting;
    if Moves(step) { CountMoved(s, step, Any); }
  }

  lemma ConservedKept(s: State, step: Step)
    requires Conserved(s) && Enabled(s, step)
    ensures Conserved(Apply(s, step))
  {
    TokensKept(s, step);
    ActiveKept(s, step);
    TotalsKept(s, step);
    AcceptedKept(s, step);
    hide Count, Apply, Enabled;
  }

  lemma ListedKept(s: State, step: Step)
    requires ListedExactly(s) && Enabled(s, step)
    ensures ListedExactly(Apply(s, step))
  {
    var t := Apply(s, step);
    assert Moves(step) && step.id in s.stages && IsListed(s.stages[step.id]) ==> step.id in s.active;
    assert Moves(step) && step.id in s.stages && !IsListed(s.stages[step.id]) ==> step.id !in s.active;
    assert Moves(step) && step.id !in s.stages ==> step.id !in s.active;
    hide Those, BusyAdmitting;
    if Moves(step) {
      ThoseUpdate(s.stages, step.id, t.stages[step.id], IsListed);
      assert s.stages[step.id := t.stages[step.id]] == t.stages;
      assert step.id in s.active ==> s.active + {step.id} == s.active;
      assert step.id !in s.active ==> s.active - {step.id} == s.active;
    }
  }

  lemma AdmissionKept(s: State, step: Step)
    requires AdmissionOver(s) && Enabled(s, step)
    ensures AdmissionOver(Apply(s, step))
  {
    var t := Apply(s, step);
    if BusyAdmitting(t) {
      var id :| id in t.stages && Admitting(t.stages[id]);
      assert (id in s.stages && Admitting(s.stages[id])) || step == TakeToken(id);
    }
  }

  lemma {:induction false} RunInvariant(states: seq<State>, steps: seq<Step>, i: nat)
    requires Run(states, steps) && i < |states|
    ensures Conserved(states[i]) && ListedExactly(states[i]) && AdmissionOver(states[i])
  {
    if i == 0 {
      InitialInvariant(states[0].maximum);
    } else {
      hide Conserved, ListedExactly, AdmissionOver, Apply, Enabled;
      RunInvariant(states, steps, i - 1);
      assert Follows(states[i - 1], steps[i - 1], states[i]);
      ConservedKept(states[i - 1], steps[i - 1]);
      ListedKept(states[i - 1], steps[i - 1]);
      AdmissionKept(states[i - 1], steps[i - 1]);
    }
  }

  lemma InitialInvariant(maximum: nat)
    ensures Conserved(Initial(maximum)) && ListedExactly(Initial(maximum)) && AdmissionOver(Initial(maximum))
  {
    var none: map<nat, Stage> := map[];
    CountNone(none, HoldsToken);
    CountNone(none, IsActive);
    CountNone(none, HasWorker);
    CountNone(none, WasAdmitted);
    CountNone(none, WasCompleted);
    CountNone(none, Any);
    assert Those(none, IsListed) == {};
  }

  /** In every state of every run: active connections are within the tokens and the tokens within the limit,
      every accepted connection is admitted, rejected or being decided, and a worker returning its token
      never blocks. */
  lemma AdmissionConservation(states: seq<State>, steps: seq<Step>, i: nat)
    requires Run(states, steps) && i < |states|
    ensures var s := states[i];
            && 0 <= s.activeCount <= s.tokens <= s.maximum
            && s.completed <= s.admitted
            && s.accepted == s.rejected + |s.stages.Keys| + s.undecided
            && forall id :: At(s, id, Completed) ==> Enabled(s, FreeToken(id))
  {
    var s := states[i];
    RunInvariant(states, steps, i);
    hide Run;
    CountSubset(s.stages, IsActive, HoldsToken);
    CountSubset(s.stages, WasCompleted, WasAdmitted);
    assert Those(s.stages, Any) == s.stages.Keys;
    forall id | At(s, id, Completed) ensures Enabled(s, FreeToken(id)) {
      CountIsPositive(s.stages, id, HoldsToken);
    }
  }

  /** An accepted connection is rejected only when the server is not serving or every token is taken, and admitted
      only with a free token; while it is undecided one of the two can happen. */
  lemma DecidedByTokens(states: seq<State>, steps: seq<Step>, i: nat)
    requires Run(states, steps) && i < |states|
    ensures i < |steps| && steps[i].Reject? ==> states[i].lifecycle != Serving || states[i].tokens == states[i].maximum
    ensures i < |steps| && steps[i].TakeToken? ==> states[i].tokens < states[i].maximum
    ensures states[i].undecided == 1 ==>
              if states[i].tokens == states[i].maximum then Enabled(states[i], Reject)
              else forall id :: id !in states[i].stages ==> Enabled(states[i], TakeToken(id))
  {
    RunInvariant(states, steps, i);
    if i < |steps| { assert Follows(states[i], steps[i], states[i + 1]); }
    hide Run, Count;
  }

  /** A clean drain: once the accept loop has ended and the wait group is empty, everything admitted has
      completed, nothing is active or listed, and every token is back. */
  lemma CleanDrain(states: seq<State>, steps: seq<Step>, i: nat)
    requires Run(states, steps) && i < |states|
    requires !states[i].accepting && states[i].workers == 0
    ensures var s := states[i];
            s.admitted == s.completed && s.activeCount == 0 && s.active == {} && s.tokens == 0
            && s.accepted == s.rejected + s.admitted
  {
    var s := states[i];
    RunInvariant(states, steps, i);
    hide Run;
    forall id | id in s.stages ensures s.stages[id] == Gone {
      if HasWorker(s.stages[id]) { CountIsPositive(s.stages, id, HasWorker); }
    }
    CountNone(s.stages, IsActive);
    CountNone(s.stages, HoldsToken);
    assert Those(s.stages, WasAdmitted) == s.stages.Keys && Those(s.stages, WasCompleted) == s.stages.Keys;
    assert Those(s.stages, Any) == s.stages.Keys && Those(s.stages, IsListed) == {};
  }

  /** After the accept loop has ended nothing is admitted any more. */
  lemma NoAdmissionAfterAccept(states: seq<State>, steps: seq<Step>, i: nat)
    requires Run(states, steps) && i < |steps| && !states[i].accepting && states[i].lifecycle != New
    ensures !states[i + 1].accepting && states[i + 1].lifecycle != New
    ensures states[i + 1].admitted == states[i].admitted && states[i + 1].accepted == states[i].accepted
  {
    RunInvariant(states, steps, i);
    assert Follows(states[i], steps[i], states[i + 1]);
  }
}
