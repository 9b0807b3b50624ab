/** The proxy's attempt loop: which backends it uses, what it records, and what it finally answers.

    Selection, admission and completion are those of the pool's own backends; dialing, the backend's answer and the
    clock are a script, one entry per attempt. */
module ProxyAttempts {
  import opened Octets
  import opened Options
  import opened Circuit
  import opened Selectors

  datatype FailureKind =
    | NoBackendLeft | Overloaded | DialFailure | DialTimeout | WriteFailure | WriteTimeout
    | UpstreamTimeout | UpstreamProtocol | UpstreamIncomplete | Canceled

  datatype Attempt = Failed(kind: FailureKind) | Answered(status: int)

  /** What attempt n meets: the clock at reservation, start and finish, and how each backend would answer. */
  datatype Circumstance = Circumstance(reserveAt: int, startedAt: int, finishedAt: int, dial: nat -> Attempt)

  datatype Config = Config(maxAttempts: nat, deadline: int, retryStatuses: set<int>, slowThreshold: int, verb: string)

  /** One pass of the loop: no reservation, or an attempt on a backend. */
  datatype Round =
    | Refused(kind: FailureKind)
    | Ran(backend: nat, attempt: Attempt, startedAt: int, finishedAt: int)

  datatype EventKind = RequestStarted | BackendSelected | AttemptFailed | RetryScheduled | RequestCompleted

  datatype Action = Publish(kind: EventKind) | Reserve(backend: nat) | Complete(backend: nat, outcome: Outcome)

  datatype Reply = Gateway(kind: FailureKind) | Upstream(status: int)

  // ----- One pass -----

  predicate CanRetry(config: Config, number: nat, now: int) {
    number < config.maxAttempts && now < config.deadline && Safe(config.verb)
  }

  predicate Safe(verb: string) { verb == "GET" || verb == "HEAD" }

  predicate RetryStatus(config: Config, attempt: Attempt) {
    attempt.Answered? && attempt.status in config.retryStatuses
  }

  /** Attempt `number` is followed by another. */
  predicate Retried(config: Config, round: Round, number: nat) {
    round.Ran? && (round.attempt.Failed? || RetryStatus(config, round.attempt))
    && CanRetry(config, number, round.finishedAt)
  }

  function OutcomeOf(config: Config, round: Round): Outcome
    requires round.Ran?
  {
    match round.attempt
    case Failed(kind) => if kind == Canceled then Neutral else Failure
    case Answered(_) =>
      if RetryStatus(config, round.attempt)
         || (config.slowThreshold > 0 && round.finishedAt - round.startedAt >= config.slowThreshold)
      then Failure else Success
  }

  /** Everything one attempt records. */
  function ActionsOf(config: Config, round: Round, retried: bool): seq<Action>
    requires round.Ran?
  {
    [Reserve(round.backend), Publish(BackendSelected), Complete(round.backend, OutcomeOf(config, round))]
    + (if round.attempt.Failed? || retried then [Publish(AttemptFailed)] else [])
    + (if retried then [Publish(RetryScheduled)] else [])
  }

  // ----- Whole histories -----

  /** A history of the loop: every pass but the last was retried, and the last was not. */
  ghost predicate Legal(config: Config, rounds: seq<Round>) {
    && rounds != [] && AllRetried(config, rounds[..|rounds| - 1])
    && !Retried(config, rounds[|rounds| - 1], |rounds|)
  }

  ghost predicate AllRetried(config: Config, rounds: seq<Round>) {
    forall i :: 0 <= i < |rounds| ==> Retried(config, rounds[i], i + 1)
  }

  function RetriedActions(config: Config, rounds: seq<Round>): seq<Action>
    requires forall i :: 0 <= i < |rounds| ==> rounds[i].Ran?
    decreases |rounds|
  {
    if rounds == [] then []
    else RetriedActions(config, rounds[..|rounds| - 1]) + ActionsOf(config, rounds[|rounds| - 1], true)
  }

  function LastActions(config: Config, round: Round): seq<Action> {
    if round.Refused? then [Publish(AttemptFailed)] else ActionsOf(config, round, false)
  }

  function Actions(config: Config, rounds: seq<Round>): seq<Action>
    requires rounds != [] && forall i :: 0 <= i < |rounds| - 1 ==> rounds[i].Ran?
  {
    RetriedActions(config, rounds[..|rounds| - 1]) + LastActions(config, rounds[|rounds| - 1])
  }

  // ----- What is recorded -----

  function Backends(actions: seq<Action>): seq<nat> {
    if actions == [] then []
    else (if actions[0].Reserve? then [actions[0].backend] else []) + Backends(actions[1..])
  }

  function Events(actions: seq<Action>): nat {
    if actions == [] then 0 else (if actions[0].Publish? then 1 else 0) + Events(actions[1..])
  }

  /** Every reservation is completed exactly once before the next one begins or the loop returns. */
  predicate Bracketed(actions: seq<Action>, held: Option<nat>) {
    if actions == [] then held.None?
    else match actions[0]
      case Reserve(backend) => held.None? && Bracketed(actions[1..], Some(backend))
      case Complete(backend, _) => held == Some(backend) && Bracketed(actions[1..], None)
      case Publish(_) => Bracketed(actions[1..], held)
  }

  lemma {:induction false} BackendsConcat(a: seq<Action>, b: seq<Action>)
    ensures Backends(a + b) == Backends(a) + Backends(b)
  {
    if a == [] {
      assert a + b == b;
    } else {
      assert (a + b)[1..] == a[1..] + b;
      BackendsConcat(a[1..], b);
      var first := if a[0].Reserve? then [a[0].backend] else [];
      assert first + (Backends(a[1..]) + Backends(b)) == (first + Backends(a[1..])) + Backends(b);
    }
  }

  lemma {:induction false} EventsConcat(a: seq<Action>, b: seq<Action>)
    ensures Events(a + b) == Events(a) + Events(b)
  {
    if a == [] {
      assert a + b == b;
    } else {
      assert (a + b)[1..] == a[1..] + b;
      EventsConcat(a[1..], b);
    }
  }

  lemma {:induction false} BracketedConcat(a: seq<Action>, b: seq<Action>, held: Option<nat>)
    requires Bracketed(a, held) && Bracketed(b, None)
    ensures Bracketed(a + b, held)
  {
    if a == [] {
      assert a + b == b;
    } else {
      assert (a + b)[1..] == a[1..] + b;
      match a[0]
      case Reserve(backend) => BracketedConcat(a[1..], b, Some(backend));
      case Complete(_, _) => BracketedConcat(a[1..], b, None);
      case Publish(_) => BracketedConcat(a[1..], b, held);
    }
  }

  lemma ActionsOfRound(config: Config, round: Round, retried: bool)
    requires round.Ran?
    ensures var actions := ActionsOf(config, round, retried);
            && Backends(actions) == [round.backend] && Bracketed(actions, None)
            && Events(actions) == 1 + (if round.attempt.Failed? || retried then 1 else 0) + (if retried then 1 else 0)
  {
    hide OutcomeOf;
    var complete := Complete(round.backend, OutcomeOf(config, round));
    var again := if retried then [Publish(RetryScheduled)] else [];
    var tail := (if round.attempt.Failed? || retried then [Publish(AttemptFailed)] else []) + again;
    Prepend(Publish(RetryScheduled), [], None);
    assert [Publish(RetryScheduled)] + [] == [Publish(RetryScheduled)] && [] + again == again;
    Prepend(Publish(AttemptFailed), again, None);
    Prepend(complete, tail, Some(round.backend));
    Prepend(Publish(BackendSelected), [complete] + tail, Some(round.backend));
    Prepend(Reserve(round.backend), [Publish(BackendSelected)] + ([complete] + tail), None);
    assert ActionsOf(config, round, retried)
        == [Reserve(round.backend)] + ([Publish(BackendSelected)] + ([complete] + tail));
  }

  lemma Prepend(action: Action, actions: seq<Action>, held: Option<nat>)
    ensures Backends([action] + actions) == (if action.Reserve? then [action.backend] else []) + Backends(actions)
    ensures Events([action] + actions) == (if action.Publish? then 1 else 0) + Events(actions)
    ensures Bracketed([action] + actions, held) ==
              (if action.Reserve? then held.None? && Bracketed(actions, Some(action.backend))
               else if action.Complete? then held == Some(action.backend) && Bracketed(actions, None)
               else Bracketed(actions, held))
  {
    assert ([action] + actions)[1..] == actions;
  }

  /** The backends of the passes that ran, in order. */
  function Used(rounds: seq<Round>): seq<nat> {
    if rounds == [] then []
    else
      var last := rounds[|rounds| - 1];
      Used(rounds[..|rounds| - 1]) + (if last.Ran? then [last.backend] else [])
  }

  lemma {:induction false} RetriedFacts(config: Config, rounds: seq<Round>)
    requires forall i :: 0 <= i < |rounds| ==> rounds[i].Ran?
    ensures var actions := RetriedActions(config, rounds);
            Backends(actions) == Used(rounds) && Events(actions) == 3 * |rounds| && Bracketed(actions, None)
    ensures |Used(rounds)| == |rounds|
  {
    hide Backends, Events, Bracketed, ActionsOf;
    if rounds == [] {
      NoActions();
    } else {
      var before, last := rounds[..|rounds| - 1], rounds[|rounds| - 1];
      RetriedFacts(config, before);
      ActionsOfRound(config, last, true);
      BackendsConcat(RetriedActions(config, before), ActionsOf(config, last, true));
      EventsConcat(RetriedActions(config, before), ActionsOf(config, last, true));
      BracketedConcat(RetriedActions(config, before), ActionsOf(config, last, true), None);
    }
  }

  lemma NoActions()
    ensures Backends([]) == [] && Events([]) == 0 && Bracketed([], None)
  {
  }

  /** The pass ran, failed or got a status that asks for a retry, was not the last allowed, ended before the deadline
      and belongs to a GET or HEAD request. */
  ghost predicate GoesOn(config: Config, round: Round, number: nat) {
    && round.Ran?
    && (round.attempt.Failed? || round.attempt.status in config.retryStatuses)
    && number < config.maxAttempts && round.finishedAt < config.deadline
    && (config.verb == "GET" || config.verb == "HEAD")
  }

  /** A history is legal exactly when it goes on after every pass but the last. */
  lemma LegalMeans(config: Config, rounds: seq<Round>)
    ensures Legal(config, rounds) <==>
              && rounds != [] && !GoesOn(config, rounds[|rounds| - 1], |rounds|)
              && forall i :: 0 <= i < |rounds| - 1 ==> GoesOn(config, rounds[i], i + 1)
  {
    if rounds != [] {
      var before := rounds[..|rounds| - 1];
      assert forall i :: 0 <= i < |before| ==> before[i] == rounds[i];
      forall i | 0 <= i < |rounds| ensures Retried(config, rounds[i], i + 1) <==> GoesOn(config, rounds[i], i + 1) { }
      hide Retried, GoesOn;
      if Legal(config, rounds) {
        forall i | 0 <= i < |rounds| - 1 ensures GoesOn(config, rounds[i], i + 1) {
          assert Retried(config, before[i], i + 1);
        }
      }
    }
  }

  /** What an attempt reports to its backend, by its cause: a cancelled one nothing; a transport failure, a status
      that asks for a retry or an answer as slow as the threshold, if there is one, a failure; any other a success. */
  lemma OutcomeMeans(config: Config, round: Round)
    requires round.Ran?
    ensures OutcomeOf(config, round) == Neutral <==> round.attempt == Failed(Canceled)
    ensures OutcomeOf(config, round) == Success <==>
              && round.attempt.Answered? && round.attempt.status !in config.retryStatuses
              && !(config.slowThreshold > 0 && round.finishedAt - round.startedAt >= config.slowThreshold)
    ensures OutcomeOf(config, round) == Failure <==>
              || (round.attempt.Failed? && round.attempt.kind != Canceled)
              || (round.attempt.Answered?
                  && (round.attempt.status in config.retryStatuses
                      || (config.slowThreshold > 0 && round.finishedAt - round.startedAt >= config.slowThreshold)))
  {
  }

  /** What a history records: the backends of its passes, every reservation completed before the next, and at most
      3 * maxAttempts - 1 events. */
  lemma LegalFacts(config: Config, rounds: seq<Round>)
    requires Legal(config, rounds) && config.maxAttempts >= 1
    ensures |rounds| <= config.maxAttempts && (!Safe(config.verb) ==> |rounds| == 1)
    ensures var actions := Actions(config, rounds);
            && Backends(actions) == Used(rounds) && |Used(rounds)| <= |rounds| && Bracketed(actions, None)
            && Events(actions) <= 3 * config.maxAttempts - 1
  {
    var before, last := rounds[..|rounds| - 1], rounds[|rounds| - 1];
    if before != [] { assert Retried(config, before[|before| - 1], |before|); }
    hide Backends, Events, Bracketed, ActionsOf;
    RetriedFacts(config, before);
    if last.Ran? { ActionsOfRound(config, last, false); } else { RefusalActions(); }
    BackendsConcat(RetriedActions(config, before), LastActions(config, last));
    EventsConcat(RetriedActions(config, before), LastActions(config, last));
    BracketedConcat(RetriedActions(config, before), LastActions(config, last), None);
  }

  lemma RefusalActions()
    ensures var actions := [Publish(AttemptFailed)];
            Backends(actions) == [] && Events(actions) == 1 && Bracketed(actions, None)
  {
    assert [Publish(AttemptFailed)][1..] == [];
  }

  /** Distinct numbers below n are at most n. */
  lemma {:induction false} DistinctFits(s: seq<nat>, pool: set<nat>)
    requires Distinct(s) && forall i :: 0 <= i < |s| ==> s[i] in pool
    ensures |s| <= |pool|
    decreases |s|
  {
    if s != [] {
      var last, before := s[|s| - 1], s[..|s| - 1];
      forall i | 0 <= i < |before| ensures before[i] in pool - {last} {
        assert before[i] == s[i] && s[i] != s[|s| - 1];
      }
      DistinctFits(before, pool - {last});
    }
  }

  function Below(n: nat): (s: set<nat>)
    ensures forall k: nat :: k < n ==> k in s
    ensures |s| == n && forall k :: k in s ==> k < n
  {
    if n == 0 then {} else Below(n - 1) + {n - 1}
  }

  // ----- Distinct backends -----

  /** Every pass that ran used a backend of the pool, and no alias twice whatever its spelling. */
  ghost predicate DistinctAliases(backends: seq<ProxyBackend>, rounds: seq<Round>) {
    && (forall i :: 0 <= i < |rounds| && rounds[i].Ran? ==> rounds[i].backend < |backends|)
    && (forall i, j :: 0 <= i < j < |rounds| && rounds[i].Ran? && rounds[j].Ran? ==>
          ToLower(backends[rounds[i].backend].alias) != ToLower(backends[rounds[j].backend].alias))
  }

  /** Which pass used the k-th backend. */
  lemma {:induction false} PassOf(rounds: seq<Round>, k: nat) returns (i: nat)
    requires k < |Used(rounds)|
    ensures i < |rounds| && rounds[i].Ran? && rounds[i].backend == Used(rounds)[k]
    decreases |rounds|
  {
    var before := rounds[..|rounds| - 1];
    if k < |Used(before)| {
      i := PassOf(before, k);
      assert rounds[i] == before[i];
    } else {
      i := |rounds| - 1;
    }
  }

  lemma AliasesBefore(backends: seq<ProxyBackend>, rounds: seq<Round>)
    requires DistinctAliases(backends, rounds) && rounds != []
    ensures DistinctAliases(backends, rounds[..|rounds| - 1])
  {
    hide ToLower;
    var before := rounds[..|rounds| - 1];
    assert forall i :: 0 <= i < |before| ==> before[i] == rounds[i];
  }

  lemma {:induction false} UsedIsDistinct(backends: seq<ProxyBackend>, rounds: seq<Round>)
    requires DistinctAliases(backends, rounds)
    ensures Distinct(Used(rounds))
    ensures forall k :: 0 <= k < |Used(rounds)| ==> Used(rounds)[k] < |backends|
  {
    hide ToLower;
    if rounds != [] {
      var before, last := rounds[..|rounds| - 1], rounds[|rounds| - 1];
      AliasesBefore(backends, rounds);
      UsedIsDistinct(backends, before);
      if last.Ran? {
        forall k | 0 <= k < |Used(before)| ensures Used(before)[k] != last.backend {
          var i := PassOf(before, k);
          assert rounds[i] == before[i];
        }
      }
    }
  }

  /** The attempt loop uses pairwise distinct backends, at most min(maxAttempts, pool size) of them and at most one
      unless the request is GET or HEAD, completes every reservation before the next or the return, and leaves at
      most 1 + 3 * maxAttempts events with the two that frame it, within the ledger budget of 2 + 3 * maxAttempts. */
  lemma AttemptLoopIsBounded(backends: seq<ProxyBackend>, config: Config, rounds: seq<Round>)
    requires Legal(config, rounds) && config.maxAttempts >= 1 && DistinctAliases(backends, rounds)
    ensures Bounded(|backends|, config, Whole(config, rounds))
  {
    hide Backends, Events, Bracketed, Actions, DistinctAliases, Retried;
    LegalFacts(config, rounds);
    UsedIsDistinct(backends, rounds);
    DistinctFits(Used(rounds), Below(|backends|));
    EarlierRan(config, rounds);
    Framed(Actions(config, rounds));
  }

  lemma EarlierRan(config: Config, rounds: seq<Round>)
    requires Legal(config, rounds)
    ensures forall i :: 0 <= i < |rounds| - 1 ==> rounds[i].Ran?
  {
    var before := rounds[..|rounds| - 1];
    forall i | 0 <= i < |rounds| - 1 ensures rounds[i].Ran? { assert Retried(config, before[i], i + 1); }
  }

  /** The loop's actions between the two events that frame every request. */
  ghost function Whole(config: Config, rounds: seq<Round>): seq<Action>
    requires Legal(config, rounds)
  {
    EarlierRan(config, rounds);
    [Publish(RequestStarted)] + Actions(config, rounds) + [Publish(RequestCompleted)]
  }

  ghost predicate Bounded(pool: nat, config: Config, actions: seq<Action>) {
    && Distinct(Backends(actions)) && |Backends(actions)| <= config.maxAttempts && |Backends(actions)| <= pool
    && (config.verb != "GET" && config.verb != "HEAD" ==> |Backends(actions)| <= 1)
    && Bracketed(actions, None)
    && Events(actions) <= 1 + 3 * config.maxAttempts
  }

  lemma Framed(actions: seq<Action>)
    requires Bracketed(actions, None)
    ensures var whole := [Publish(RequestStarted)] + actions + [Publish(RequestCompleted)];
            Backends(whole) == Backends(actions) && Events(whole) == Events(actions) + 2 && Bracketed(whole, None)
  {
    hide Backends, Events, Bracketed;
    var end := [Publish(RequestCompleted)];
    NoActions();
    Prepend(Publish(RequestCompleted), [], None);
    assert end + [] == end;
    BackendsConcat(actions, end);
    EventsConcat(actions, end);
    BracketedConcat(actions, end, None);
    Prepend(Publish(RequestStarted), actions + end, None);
    assert [Publish(RequestStarted)] + actions + end == [Publish(RequestStarted)] + (actions + end);
  }

  // ----- What is answered -----

  predicate AnsweredRound(round: Round) { round.Ran? && round.attempt.Answered? }

  /** The status of the latest answered pass. */
  function LatestAnswer(rounds: seq<Round>): Option<int> {
    if rounds == [] then None
    else
      var last := rounds[|rounds| - 1];
      if AnsweredRound(last) then Some(last.attempt.status) else LatestAnswer(rounds[..|rounds| - 1])
  }

  /** The failure of the latest pass that ran and failed. */
  function LatestFailure(rounds: seq<Round>): Option<FailureKind> {
    if rounds == [] then None
    else
      var last := rounds[|rounds| - 1];
      if last.Ran? && last.attempt.Failed? then Some(last.attempt.kind) else LatestFailure(rounds[..|rounds| - 1])
  }

  /** The last attempt's own result; or, when the last pass could not reserve a backend, the latest answer, else
      the latest failure, else the refusal. */
  function ReplyOf(rounds: seq<Round>): Reply
    requires rounds != []
  {
    var last := rounds[|rounds| - 1];
    if AnsweredRound(last) then Upstream(last.attempt.status)
    else if last.Ran? then Gateway(last.attempt.kind)
    else if LatestAnswer(rounds).Some? then Upstream(LatestAnswer(rounds).value)
    else if LatestFailure(rounds).Some? then Gateway(LatestFailure(rounds).value)
    else Gateway(last.kind)
  }

  /** The answer is that of the last pass that answered. */
  lemma {:induction false} LatestAnswerMeans(rounds: seq<Round>)
    ensures LatestAnswer(rounds).None? <==> forall i :: 0 <= i < |rounds| ==> !AnsweredRound(rounds[i])
    ensures LatestAnswer(rounds).Some? ==>
              exists i :: 0 <= i < |rounds| && AnsweredRound(rounds[i])
                          && LatestAnswer(rounds) == Some(rounds[i].attempt.status)
                          && forall j :: i < j < |rounds| ==> !AnsweredRound(rounds[j])
  {
    if rounds != [] {
      var before := rounds[..|rounds| - 1];
      LatestAnswerMeans(before);
      assert forall i :: 0 <= i < |before| ==> before[i] == rounds[i];
      if AnsweredRound(rounds[|rounds| - 1]) {
        assert LatestAnswer(rounds) == Some(rounds[|rounds| - 1].attempt.status);
      } else if LatestAnswer(before).Some? {
        var i :| 0 <= i < |before| && AnsweredRound(before[i]) && LatestAnswer(before) == Some(before[i].attempt.status)
                 && forall j :: i < j < |before| ==> !AnsweredRound(before[j]);
        assert rounds[i] == before[i];
      }
    }
  }

  predicate FailedRound(round: Round) { round.Ran? && round.attempt.Failed? }

  /** The failure is that of the last pass that ran and failed. */
  lemma {:induction false} LatestFailureMeans(rounds: seq<Round>)
    ensures LatestFailure(rounds).None? <==> forall i :: 0 <= i < |rounds| ==> !FailedRound(rounds[i])
    ensures LatestFailure(rounds).Some? ==>
              exists i :: 0 <= i < |rounds| && FailedRound(rounds[i])
                          && LatestFailure(rounds) == Some(rounds[i].attempt.kind)
                          && forall j :: i < j < |rounds| ==> !FailedRound(rounds[j])
  {
    if rounds != [] {
      var before := rounds[..|rounds| - 1];
      LatestFailureMeans(before);
      assert forall i :: 0 <= i < |before| ==> before[i] == rounds[i];
      if FailedRound(rounds[|rounds| - 1]) {
        assert LatestFailure(rounds) == Some(rounds[|rounds| - 1].attempt.kind);
      } else if LatestFailure(before).Some? {
        var i :| 0 <= i < |before| && FailedRound(before[i]) && LatestFailure(before) == Some(before[i].attempt.kind)
                 && forall j :: i < j < |before| ==> !FailedRound(before[j]);
        assert rounds[i] == before[i];
      }
    }
  }

  /** The client gets an upstream response exactly when the last pass answered, or was refused after an
      earlier pass had answered; a transport failure in the last pass discards a buffered response. It is the last
      pass's own answer or failure, and after a refusal that of the last pass that answered, or else failed. */
  lemma ReplyMeans(rounds: seq<Round>)
    requires rounds != []
    ensures var last := rounds[|rounds| - 1];
            && (ReplyOf(rounds).Upstream? <==>
                  AnsweredRound(last)
                  || (last.Refused? && exists i :: 0 <= i < |rounds| && AnsweredRound(rounds[i])))
            && (AnsweredRound(last) ==> ReplyOf(rounds) == Upstream(last.attempt.status))
            && (FailedRound(last) ==> ReplyOf(rounds) == Gateway(last.attempt.kind))
            && (last.Refused? && ReplyOf(rounds).Upstream? ==>
                  exists i :: 0 <= i < |rounds| && AnsweredRound(rounds[i])
                              && ReplyOf(rounds) == Upstream(rounds[i].attempt.status)
                              && forall j :: i < j < |rounds| ==> !AnsweredRound(rounds[j]))
            && (last.Refused? && ReplyOf(rounds).Gateway? ==>
                  || (ReplyOf(rounds) == Gateway(last.kind) && forall i :: 0 <= i < |rounds| ==> !FailedRound(rounds[i]))
                  || exists i :: 0 <= i < |rounds| && FailedRound(rounds[i])
                                 && ReplyOf(rounds) == Gateway(rounds[i].attempt.kind)
                                 && forall j :: i < j < |rounds| ==> !FailedRound(rounds[j]))
  {
    hide LatestAnswer, LatestFailure;
    LatestAnswerMeans(rounds);
    LatestFailureMeans(rounds);
  }

  /** A buffered 503 followed by a refused dial is answered with a gateway failure. */
  lemma BufferedResponseCanBeLost()
    ensures var config := Config(2, 10, {503}, 0, "GET");
            var rounds := [Ran(0, Answered(503), 0, 1), Ran(1, Failed(DialFailure), 1, 2)];
            Legal(config, rounds) && ReplyOf(rounds) == Gateway(DialFailure)
  {
    var rounds := [Ran(0, Answered(503), 0, 1), Ran(1, Failed(DialFailure), 1, 2)];
    assert rounds[..1] == [rounds[0]];
  }

  // ----- The loop itself -----

  /** The pass met what the script says. */
  ghost predicate Scripted(round: Round, c: Circumstance) {
    if round.Ran? then round == Ran(round.backend, c.dial(round.backend), c.startedAt, c.finishedAt)
    else round.kind == NoBackendLeft || round.kind == Overloaded
  }

  /** Completes the reservation of one attempt: the outcome is recorded on its backend, and only there. */
  method CompleteAttempt(backend: ProxyBackend, permit: bool, outcome: Outcome, at: int)
    requires backend.tokens > 0 && backend.inFlight > 0
    modifies backend
    ensures backend.Locked() == RecordPassive(old(backend.Locked()), backend.policy, outcome, permit, at)
    ensures backend.tokens == old(backend.tokens) - 1 && backend.inFlight == old(backend.inFlight) - 1
  {
    var reservation := new BackendReservation(backend, permit);
    reservation.Complete(outcome, at);
  }

  /** One pass on the pool: refused exactly when no backend that is not excluded can be reserved; otherwise the
      first one in selector order is reserved, dialed and completed, which records the outcome on it alone. */
  method RunPass(pool: BackendPool, config: Config, c: Circumstance, attempted: set<string>) returns (round: Round)
    requires FoldedDistinct(pool.backends)
    modifies pool`sequence, set b | b in pool.backends
    ensures Scripted(round, c)
    ensures round.Refused? <==> old(Reservable(pool.backends, attempted, c.reserveAt)) == {}
    ensures round.Refused? ==>
              (round.kind == Overloaded <==> old(Permitted(pool.backends, attempted, c.reserveAt)) != {})
    ensures round.Ran? ==>
              && round.backend < |pool.backends| && ToLower(pool.backends[round.backend].alias) !in attempted
              && exists order ::
                   && InSelectorOrder(order, pool.leastInFlight, old(Loads(pool.backends)),
                                      old(pool.sequence) % |pool.backends|)
                   && FirstIn(order, old(Reservable(pool.backends, attempted, c.reserveAt)), round.backend)
    ensures round.Ran? ==>
              var b := pool.backends[round.backend];
              var advanced := AdvanceCooldown(old(b.Locked()), b.policy, c.reserveAt);
              b.Locked() == RecordPassive(Claim(advanced), b.policy, OutcomeOf(config, round),
                                          advanced.circuit == HalfOpen, c.finishedAt)
    ensures forall k :: 0 <= k < |pool.backends| ==>
              && pool.backends[k].tokens == old(pool.backends[k].tokens)
              && pool.backends[k].inFlight == old(pool.backends[k].inFlight)
              && ((round.Ran? && round.backend == k)
                  || AtMostAdvanced(old(pool.backends[k].Locked()), pool.backends[k].Locked(),
                                    pool.backends[k].policy, c.reserveAt))
  {
    hide ToLower, OutcomeOf, Reservable, Permitted, FirstIn, InSelectorOrder, AtMostAdvanced, Claim, AdvanceCooldown,
         RecordPassive;
    FoldedIsDistinct(pool.backends);
    var choice, order := pool.ReserveNextExcluding(attempted, c.reserveAt);
    if !choice.Chosen? {
      return Refused(if choice.AdmissionRejected? then Overloaded else NoBackendLeft);
    }
    round := Ran(choice.index, c.dial(choice.index), c.startedAt, c.finishedAt);
    CompleteAttempt(pool.backends[choice.index], choice.permit, OutcomeOf(config, round), c.finishedAt);
  }

  lemma NotRetried(config: Config, round: Round, number: nat)
    requires round.Refused?
    ensures !Retried(config, round, number)
  {
  }

  ghost predicate Remembers(backends: seq<ProxyBackend>, rounds: seq<Round>, attempted: set<string>) {
    && (forall i :: 0 <= i < |rounds| ==> rounds[i].Ran? && rounds[i].backend < |backends|)
    && attempted == set i | 0 <= i < |rounds| :: ToLower(backends[rounds[i].backend].alias)
  }

  /** The loop on a real pool. Its history is legal and follows the script; its actions and reply are those of the
      history; no alias is used twice; and every backend's tokens and in-flight count are back on return. */
  method ExecuteProxyRequest(pool: BackendPool, config: Config, script: nat -> Circumstance)
    returns (ghost rounds: seq<Round>, actions: seq<Action>, reply: Reply)
    requires FoldedDistinct(pool.backends) && config.maxAttempts >= 1
    modifies pool`sequence, set b | b in pool.backends
    ensures Legal(config, rounds) && actions == Whole(config, rounds) && reply == ReplyOf(rounds)
    ensures forall i :: 0 <= i < |rounds| ==> Scripted(rounds[i], script(i + 1))
    ensures DistinctAliases(pool.backends, rounds) && Bounded(|pool.backends|, config, actions)
    ensures forall k :: 0 <= k < |pool.backends| ==>
              && pool.backends[k].tokens == old(pool.backends[k].tokens)
              && pool.backends[k].inFlight == old(pool.backends[k].inFlight)
  {
    hide ToLower, OutcomeOf, Retried, Reservable, Permitted, FirstIn, InSelectorOrder, Half, AtMostAdvanced,
         Scripted, ActionsOf, LatestAnswer, LatestFailure, RetriedActions, Bounded, AllRetried, DistinctAliases,
         Legal, ReplyOf, Whole;
    rounds, actions := [], [];
    var attempted: set<string> := {};
    var lastFailure: Option<FailureKind>, buffered: Option<int> := None, None;
    var number := 1;
    NothingYet(config, pool.backends);
    while true   // the attempt counter never passes the maximum: the last attempt cannot be retried
      invariant number == |rounds| + 1 && 1 <= number <= config.maxAttempts
      invariant AllRetried(config, rounds) && Remembers(pool.backends, rounds, attempted)
      invariant DistinctAliases(pool.backends, rounds)
      invariant actions == RetriedActions(config, rounds)
      invariant lastFailure == LatestFailure(rounds) && buffered == LatestAnswer(rounds)
      invariant forall i :: 0 <= i < |rounds| ==> Scripted(rounds[i], script(i + 1))
      invariant forall k :: 0 <= k < |pool.backends| ==>
                  && pool.backends[k].tokens == old(pool.backends[k].tokens)
                  && pool.backends[k].inFlight == old(pool.backends[k].inFlight)
      decreases config.maxAttempts - number
    {
      var round := RunPass(pool, config, script(number), attempted);
      if round.Refused? {
        NotRetried(config, round, number);
        Ends(config, pool.backends, rounds, round, attempted);
        reply := ReplyWithout(buffered, lastFailure, round.kind);
        actions := Frame(actions + [Publish(AttemptFailed)]);
        rounds := rounds + [round];
        break;
      }
      var alias := ToLower(pool.backends[round.backend].alias);
      var retried := Retried(config, round, number);
      actions := actions + ActionsOf(config, round, retried);
      if !retried {
        Ends(config, pool.backends, rounds, round, attempted);
        reply := FinalReply(round.attempt);
        actions := Frame(actions);
        rounds := rounds + [round];
        break;
      }
      Continues(config, pool.backends, rounds, round, attempted);
      match round.attempt {
        case Failed(kind) => lastFailure := Some(kind);
        case Answered(status) => buffered := Some(status);
      }
      attempted := attempted + {alias};
      rounds := rounds + [round];
      number := number + 1;
    }
    AttemptLoopIsBounded(pool.backends, config, rounds);
  }

  function Frame(actions: seq<Action>): seq<Action> {
    [Publish(RequestStarted)] + actions + [Publish(RequestCompleted)]
  }

  /** The answer when no backend can be reserved. */
  function ReplyWithout(buffered: Option<int>, lastFailure: Option<FailureKind>, kind: FailureKind): Reply {
    if buffered.Some? then Upstream(buffered.value)
    else if lastFailure.Some? then Gateway(lastFailure.value)
    else Gateway(kind)
  }

  function FinalReply(attempt: Attempt): Reply {
    match attempt
    case Failed(kind) => Gateway(kind)
    case Answered(status) => Upstream(status)
  }

  lemma NothingYet(config: Config, backends: seq<ProxyBackend>)
    ensures RetriedActions(config, []) == [] && LatestFailure([]) == None && LatestAnswer([]) == None
    ensures AllRetried(config, []) && Remembers(backends, [], {}) && DistinctAliases(backends, [])
  {
  }

  /** A pass that is not excluded keeps the aliases distinct. */
  lemma AliasesKept(backends: seq<ProxyBackend>, rounds: seq<Round>, round: Round, attempted: set<string>)
    requires Remembers(backends, rounds, attempted) && DistinctAliases(backends, rounds)
    requires round.Ran? ==> round.backend < |backends| && ToLower(backends[round.backend].alias) !in attempted
    ensures DistinctAliases(backends, rounds + [round])
  {
    hide ToLower;
    var all := rounds + [round];
    forall i, j | 0 <= i < j < |all| && all[i].Ran? && all[j].Ran?
      ensures ToLower(backends[all[i].backend].alias) != ToLower(backends[all[j].backend].alias)
    {
      if j == |rounds| { assert ToLower(backends[rounds[i].backend].alias) in attempted; }
    }
  }

  /** The last pass completes a legal history. */
  lemma Ends(config: Config, backends: seq<ProxyBackend>, rounds: seq<Round>, round: Round, attempted: set<string>)
    requires AllRetried(config, rounds) && !Retried(config, round, |rounds| + 1)
    requires Remembers(backends, rounds, attempted) && DistinctAliases(backends, rounds)
    requires round.Ran? ==> round.backend < |backends| && ToLower(backends[round.backend].alias) !in attempted
    ensures var all := rounds + [round];
            && Legal(config, all) && DistinctAliases(backends, all)
            && Whole(config, all) == Frame(RetriedActions(config, rounds) + LastActions(config, round))
            && ReplyOf(all) == if round.Ran? then FinalReply(round.attempt)
                               else ReplyWithout(LatestAnswer(rounds), LatestFailure(rounds), round.kind)
  {
    hide ToLower, Retried, ActionsOf, RetriedActions;
    var all := rounds + [round];
    assert all[..|all| - 1] == rounds;
    AliasesKept(backends, rounds, round, attempted);
    hide DistinctAliases, Remembers;
  }

  /** A retried pass keeps what the loop remembers. */
  lemma Continues(config: Config, backends: seq<ProxyBackend>, rounds: seq<Round>, round: Round, attempted: set<string>)
    requires AllRetried(config, rounds) && Retried(config, round, |rounds| + 1)
    requires Remembers(backends, rounds, attempted) && DistinctAliases(backends, rounds)
    requires round.backend < |backends| && ToLower(backends[round.backend].alias) !in attempted
    ensures var all := rounds + [round];
            && AllRetried(config, all) && DistinctAliases(backends, all) && |all| < config.maxAttempts
            && Remembers(backends, all, attempted + {ToLower(backends[round.backend].alias)})
            && RetriedActions(config, all) == RetriedActions(config, rounds) + ActionsOf(config, round, true)
            && LatestAnswer(all) == (if round.attempt.Answered? then Some(round.attempt.status) else LatestAnswer(rounds))
            && LatestFailure(all) == (if round.attempt.Failed? then Some(round.attempt.kind) else LatestFailure(rounds))
  {
    var all := rounds + [round];
    assert |all| < config.maxAttempts;
    hide ToLower, ActionsOf, Retried;
    assert all[..|all| - 1] == rounds;
    AliasesKept(backends, rounds, round, attempted);
    RememberedMore(backends, rounds, round, attempted);
    hide DistinctAliases, Remembers;
  }

  lemma RememberedMore(backends: seq<ProxyBackend>, rounds: seq<Round>, round: Round, attempted: set<string>)
    requires Remembers(backends, rounds, attempted) && round.Ran? && round.backend < |backends|
    ensures Remembers(backends, rounds + [round], attempted + {ToLower(backends[round.backend].alias)})
  {
    hide ToLower;
    var all, alias := rounds + [round], ToLower(backends[round.backend].alias);
    var more := set i | 0 <= i < |all| :: ToLower(backends[all[i].backend].alias);
    forall x | x in attempted + {alias} ensures x in more {
      if x in attempted {
        var i :| 0 <= i < |rounds| && ToLower(backends[rounds[i].backend].alias) == x;
        assert all[i] == rounds[i];
      } else {
        assert all[|rounds|] == round;
      }
    }
  }
}
