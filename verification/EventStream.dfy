/** Live delivery: concurrent publishers take turns in sequence order while an SSE subscriber registers,
    replays a ledger snapshot and then follows its queue.

    Each lock section, channel operation or send is one step; a run is any interleaving of enabled steps. */
module EventStream {
  import opened EventLedger

  // ----- State -----

  /** A publisher after its ledger append: waiting for its turn, in fan-out before or after the subscriber
      registry was copied, or past the subscriber's queue. */
  datatype Publisher =
    | Waiting(event: Event)
    | Entered(event: Event)
    | Copied(event: Event, targeted: bool)
    | Served(event: Event)

  datatype Phase = Unregistered | Registered | Replaying(pending: seq<Event>) | Live

  /** The subscriber under observation. `since`, `taken` and `seen` only record history: how many events had
      passed fan-out at registration, how many were received, and the log length at the snapshot. */
  datatype Subscriber = Subscriber(
    phase: Phase,
    cursor: nat,
    queue: seq<Event>,
    dropped: bool,
    lastSent: nat,
    sent: seq<Event>,
    since: nat,
    taken: nat,
    seen: nat)

  datatype State = State(
    capacity: nat,
    queueCapacity: nat,
    log: seq<Event>,
    nextDelivery: nat,
    publishers: map<nat, Publisher>,
    asleep: set<nat>,
    fanned: seq<Event>,
    sub: Subscriber)

  function Initial(capacity: nat, queueCapacity: nat): State {
    State(capacity, queueCapacity, [], 1, map[], {}, [], Subscriber(Unregistered, 0, [], false, 0, [], 0, 0, 0))
  }

  // ----- Steps -----

  datatype Step =
    | Append(pid: nat, elapsed: nat, detail: string)   // ledger.append
    | Sleep(pid: nat)                                  // the turn test fails: wait on the condition variable
    | Enter(pid: nat)                                  // the turn test succeeds
    | Copy(pid: nat)                                   // hub.publish copies the registry
    | Deliver(pid: nat)                                // non-blocking send to the subscriber, or no send
    | Finish(pid: nat)                                 // nextDelivery++ and broadcast, which wakes everyone
    | Subscribe(cursor: nat)
    | TakeSnapshot
    | SendReplay
    | Receive

  predicate Awake(s: State, pid: nat) { pid in s.publishers && pid !in s.asleep }

  predicate Enabled(s: State, step: Step) {
    match step
    case Append(pid, _, _) => pid !in s.publishers
    case Sleep(pid) =>
      Awake(s, pid) && s.publishers[pid].Waiting? && s.publishers[pid].event.sequence != s.nextDelivery
    case Enter(pid) =>
      Awake(s, pid) && s.publishers[pid].Waiting? && s.publishers[pid].event.sequence == s.nextDelivery
    case Copy(pid) => pid in s.publishers && s.publishers[pid].Entered?
    case Deliver(pid) => pid in s.publishers && s.publishers[pid].Copied?
    case Finish(pid) => pid in s.publishers && s.publishers[pid].Served?
    case Subscribe(_) => s.sub.phase.Unregistered?
    case TakeSnapshot => s.sub.phase.Registered?
    case SendReplay => s.sub.phase.Replaying?
    case Receive => s.sub.phase.Live? && s.sub.queue != []
  }

  /** Events with nothing left to do for the subscriber: finished ones and a current one that is past its queue. */
  function Handled(s: State): nat
  {
    if s.nextDelivery == 0 then 0
    else if exists pid :: pid in s.publishers && PastQueue(s.publishers[pid]) then s.nextDelivery
    else s.nextDelivery - 1
  }

  predicate PastQueue(p: Publisher) {
    p.Served? || (p.Copied? && !p.targeted)
  }

  /** The cursor the stream starts from once the snapshot is taken. */
  function StartCursor(snapshot: Snapshot, cursor: nat): nat {
    if snapshot.gap && cursor > snapshot.latest && snapshot.oldest > 0 then snapshot.oldest - 1 else cursor
  }

  function Offer(sub: Subscriber, event: Event, queueCapacity: nat): Subscriber {
    if |sub.queue| < queueCapacity then sub.(queue := sub.queue + [event]) else sub.(dropped := true)
  }

  /** Sends an event unless it was already sent or skipped. */
  function Emit(sub: Subscriber, event: Event): Subscriber {
    if event.sequence <= sub.lastSent then sub
    else sub.(sent := sub.sent + [event], lastSent := event.sequence)
  }

  function Apply(s: State, step: Step): State
    requires Enabled(s, step)
  {
    match step
    case Append(pid, elapsed, detail) =>
      var event := Event(|s.log| + 1, elapsed, detail);
      s.(log := s.log + [event], publishers := s.publishers[pid := Waiting(event)])
    case Sleep(pid) => s.(asleep := s.asleep + {pid})
    case Enter(pid) =>
      var event := s.publishers[pid].event;
      s.(publishers := s.publishers[pid := Entered(event)], fanned := s.fanned + [event])
    case Copy(pid) =>
      s.(publishers := s.publishers[pid := Copied(s.publishers[pid].event, !s.sub.phase.Unregistered?)])
    case Deliver(pid) =>
      var p := s.publishers[pid];
      s.(publishers := s.publishers[pid := Served(p.event)],
         sub := if p.targeted then Offer(s.sub, p.event, s.queueCapacity) else s.sub)
    case Finish(pid) =>
      s.(publishers := s.publishers - {pid}, nextDelivery := s.nextDelivery + 1, asleep := {})
    case Subscribe(cursor) =>
      s.(sub := s.sub.(phase := Registered, cursor := cursor, since := Handled(s)))
    case TakeSnapshot =>
      var snapshot := SnapshotOf(s.log, s.capacity, s.sub.cursor);
      s.(sub := s.sub.(phase := Replaying(snapshot.events), lastSent := StartCursor(snapshot, s.sub.cursor),
                       seen := |s.log|))
    case SendReplay =>
      var pending := s.sub.phase.pending;
      if pending == [] then s.(sub := s.sub.(phase := Live))
      else s.(sub := Emit(s.sub, pending[0]).(phase := Replaying(pending[1..])))
    case Receive =>
      s.(sub := Emit(s.sub, s.sub.queue[0]).(queue := s.sub.queue[1..], taken := s.sub.taken + 1))
  }

  // ----- Runs -----

  /** A run: consecutive states are related by enabled steps. */
  ghost predicate Run(states: seq<State>, steps: seq<Step>) {
    && |states| == |steps| + 1
    && states[0].capacity > 0 && states[0] == Initial(states[0].capacity, states[0].queueCapacity)
    && forall i :: 0 <= i < |steps| ==> Follows(states[i], steps[i], states[i + 1])
  }

  ghost predicate Follows(s: State, step: Step, t: State) {
    Enabled(s, step) && t == Apply(s, step)
  }

  // ----- Delivery turns -----

  ghost predicate Holder(s: State, k: nat, pid: nat) {
    pid in s.publishers && s.publishers[pid].event.sequence == k
  }

  /** Every outstanding publisher holds its own logged event, between the next turn and the end of the log. */
  ghost predicate Outstanding(s: State) {
    forall pid :: pid in s.publishers ==> HoldsLogged(s, s.publishers[pid].event)
  }

  ghost predicate HoldsLogged(s: State, event: Event) {
    1 <= s.nextDelivery <= event.sequence <= |s.log| && event == s.log[event.sequence - 1]
  }

  ghost predicate OneHolderEach(s: State) {
    forall p, q :: p in s.publishers && q in s.publishers && p != q ==>
      s.publishers[p].event.sequence != s.publishers[q].event.sequence
  }

  /** No sequence number between the next turn and the end of the log is orphaned. */
  ghost predicate NoneLost(s: State) {
    forall k: nat :: s.nextDelivery <= k <= |s.log| ==> HasHolder(s, k)
  }

  ghost predicate HasHolder(s: State, k: nat) {
    exists pid :: Holder(s, k, pid)
  }

  /** Only the holder of the turn is in fan-out. */
  ghost predicate TurnsKept(s: State) {
    forall pid :: pid in s.publishers && !s.publishers[pid].Waiting? ==>
      s.publishers[pid].event.sequence == s.nextDelivery
  }

  ghost predicate InFanOut(s: State) {
    exists pid :: pid in s.publishers && !s.publishers[pid].Waiting?
  }

  /** Fan-out has happened in strict log order. */
  ghost predicate FannedInOrder(s: State) {
    var n := if InFanOut(s) then s.nextDelivery else s.nextDelivery - 1;
    0 <= n <= |s.log| && s.fanned == s.log[..n]
  }

  /** Whoever sleeps waits for a turn that has not come. */
  ghost predicate SleepersWait(s: State) {
    forall pid :: pid in s.asleep ==> pid in s.publishers && SleepsWell(s, s.publishers[pid])
  }

  ghost predicate SleepsWell(s: State, p: Publisher) { p.Waiting? && p.event.sequence != s.nextDelivery }

  ghost predicate TurnInvariant(s: State) {
    && s.capacity > 0 && s.nextDelivery >= 1 && Numbered(s.log)
    && Outstanding(s) && OneHolderEach(s) && NoneLost(s) && TurnsKept(s) && FannedInOrder(s) && SleepersWait(s)
  }

  /** No wake-up is lost: the broadcast that starts a turn wakes its holder, and nobody falls asleep in their own
      turn. */
  lemma SleepersKept(s: State, step: Step)
    requires TurnInvariant(s) && Enabled(s, step)
    ensures SleepersWait(Apply(s, step))
  {
    hide NoneLost, FannedInOrder, SnapshotOf, Offer, Emit, Handled, StartCursor, Outstanding, OneHolderEach, TurnsKept;
    var t := Apply(s, step);
    forall pid | pid in t.asleep ensures pid in t.publishers && SleepsWell(t, t.publishers[pid]) {
      if pid in s.asleep { assert SleepsWell(s, s.publishers[pid]); }
    }
  }

  /** What a step does to the log, the turn and the publishers. */
  lemma TurnEffect(s: State, step: Step)
    requires Enabled(s, step)
    ensures var t := Apply(s, step);
            && t.nextDelivery == s.nextDelivery + (if step.Finish? then 1 else 0)
            && t.log == s.log + (if step.Append? then [Event(|s.log| + 1, step.elapsed, step.detail)] else [])
            && (step.Append? ==>
                  t.publishers == s.publishers[step.pid := Waiting(Event(|s.log| + 1, step.elapsed, step.detail))])
            && (step.Enter? || step.Copy? || step.Deliver? ==>
                  && step.pid in t.publishers && t.publishers == s.publishers[step.pid := t.publishers[step.pid]]
                  && t.publishers[step.pid].event == s.publishers[step.pid].event)
            && (step.Finish? ==> t.publishers == s.publishers - {step.pid})
            && (step.Sleep? || step.Subscribe? || step.TakeSnapshot? || step.SendReplay? || step.Receive? ==>
                  t.publishers == s.publishers)
            && (step.Enter? || step.Copy? || step.Deliver? || step.Finish? ==> step.pid in s.publishers)
            && (step.Append? ==> step.pid !in s.publishers)
  {
    hide SnapshotOf, Offer, Emit, Handled, StartCursor;
  }

  lemma OutstandingKept(s: State, step: Step)
    requires TurnInvariant(s) && Enabled(s, step)
    ensures Outstanding(Apply(s, step))
  {
    NextWithinLog(s);
    TurnEffect(s, step);
    if step.Finish? { HolderHasTurn(s, step.pid, step); }
    hide NoneLost, FannedInOrder, Apply, Enabled, SleepersWait, TurnsKept;
    var t := Apply(s, step);
    forall pid | pid in t.publishers ensures HoldsLogged(t, t.publishers[pid].event) {
      if pid in s.publishers { assert HoldsLogged(s, s.publishers[pid].event); }
      if step.Finish? {
        assert s.publishers[pid].event.sequence != s.publishers[step.pid].event.sequence;
      }
    }
  }

  lemma OneHolderKept(s: State, step: Step)
    requires TurnInvariant(s) && Enabled(s, step)
    ensures OneHolderEach(Apply(s, step))
  {
    hide NoneLost, FannedInOrder, SnapshotOf, Offer, Emit, Handled, StartCursor, TurnsKept;
    var t := Apply(s, step);
    assert forall pid :: pid in s.publishers ==> HoldsLogged(s, s.publishers[pid].event);
  }

  lemma NoneLostKept(s: State, step: Step)
    requires TurnInvariant(s) && Enabled(s, step)
    ensures NoneLost(Apply(s, step))
  {
    hide FannedInOrder, SnapshotOf, Offer, Emit, Handled, StartCursor;
    var t := Apply(s, step);
    forall k: nat | t.nextDelivery <= k <= |t.log| ensures HasHolder(t, k) {
      if k <= |s.log| {
        assert HasHolder(s, k);
        var p :| Holder(s, k, p);
        assert Holder(t, k, p);
      } else {
        assert Holder(t, k, step.pid);
      }
    }
  }

  lemma TurnsKeptKept(s: State, step: Step)
    requires TurnInvariant(s) && Enabled(s, step)
    ensures TurnsKept(Apply(s, step))
  {
    hide NoneLost, FannedInOrder, SnapshotOf, Offer, Emit, Handled, StartCursor;
  }

  /** Nobody else is in fan-out when a publisher's turn begins or ends. */
  lemma TurnIsExclusive(s: State, pid: nat)
    requires TurnInvariant(s) && pid in s.publishers && s.publishers[pid].event.sequence == s.nextDelivery
    ensures InFanOut(s) <==> !s.publishers[pid].Waiting?
    ensures forall q :: q in s.publishers && q != pid ==> s.publishers[q].Waiting?
  {
  }

  lemma FannedKept(s: State, step: Step)
    requires TurnInvariant(s) && Enabled(s, step)
    ensures FannedInOrder(Apply(s, step))
  {
    hide NoneLost, SnapshotOf, Offer, Emit, Handled, StartCursor;
    var t := Apply(s, step);
    if step.Enter? || step.Copy? || step.Deliver? || step.Finish? {
      TurnIsExclusive(s, step.pid);
      assert HoldsLogged(s, s.publishers[step.pid].event);
      if !step.Finish? { assert step.pid in t.publishers && !t.publishers[step.pid].Waiting?; }
    } else if step.Append? {
      assert InFanOut(t) == InFanOut(s) by {
        if InFanOut(s) {
          var q :| q in s.publishers && !s.publishers[q].Waiting?;
          assert q in t.publishers && !t.publishers[q].Waiting?;
        }
      }
    } else {
      assert InFanOut(t) == InFanOut(s);
    }
  }

  lemma TurnInvariantKept(s: State, step: Step)
    requires TurnInvariant(s) && Enabled(s, step)
    ensures TurnInvariant(Apply(s, step))
  {
    OutstandingKept(s, step);
    OneHolderKept(s, step);
    NoneLostKept(s, step);
    TurnsKeptKept(s, step);
    FannedKept(s, step);
    SleepersKept(s, step);
  }

  // ----- The stream -----

  /** The log index of the first event a stream shows, given the log length at its snapshot: after the cursor
      or from the oldest retained event, whichever is later, and from the oldest retained event when the
      cursor lies in the future of a non-empty ledger. */
  function First(n: nat, capacity: nat, cursor: nat): nat {
    if n == 0 then cursor
    else if cursor > n then OldestRetained(n, capacity) - 1
    else Max(cursor, OldestRetained(n, capacity) - 1)
  }

  function Begin(n: nat, capacity: nat, cursor: nat): nat {
    if n > 0 && cursor > n then OldestRetained(n, capacity) - 1 else cursor
  }

  lemma SnapshotBegins(log: seq<Event>, capacity: nat, cursor: nat)
    requires capacity > 0
    ensures var snapshot, first := SnapshotOf(log, capacity, cursor), First(|log|, capacity, cursor);
            && StartCursor(snapshot, cursor) == Begin(|log|, capacity, cursor) <= first
            && (log == [] ==> snapshot.events == [])
            && (log != [] ==> first <= |log| && snapshot.events == log[first..]
                              && (first == |log| ==> Begin(|log|, capacity, cursor) == |log|))
  {
  }

  ghost predicate TargetsRegistered(s: State) {
    forall pid :: pid in s.publishers && s.publishers[pid].Copied? && s.publishers[pid].targeted ==>
      !s.sub.phase.Unregistered?
  }

  /** The queue holds exactly the logged events between the last one received and the last one delivered. */
  ghost predicate QueueContiguous(s: State) {
    var from := s.sub.since + s.sub.taken;
    from <= Handled(s) <= |s.log| && s.sub.queue == s.log[from..Handled(s)]
  }

  ghost predicate ReplayContiguous(s: State)
    requires s.sub.phase.Replaying? && s.sub.seen <= |s.log|
  {
    var first := First(s.sub.seen, s.capacity, s.sub.cursor);
    var begin := Begin(s.sub.seen, s.capacity, s.sub.cursor);
    var pending := s.sub.phase.pending;
    if s.sub.seen == 0 then pending == [] && s.sub.sent == [] && s.sub.lastSent == s.sub.cursor
    else
      && first + |pending| <= s.sub.seen
      && var p := s.sub.seen - |pending|;
         && pending == s.log[p..s.sub.seen]
         && s.sub.sent == s.log[first..p]
         && s.sub.lastSent == if p > first then p else begin
  }

  /** Everything sent so far is one contiguous piece of the log. */
  ghost predicate LiveContiguous(s: State) {
    var first := First(s.sub.seen, s.capacity, s.sub.cursor);
    var end := Max(s.sub.seen, s.sub.since + s.sub.taken);
    end <= |s.log| && s.sub.lastSent == Max(first, end)
    && s.sub.sent == if end <= first then [] else s.log[first..end]
  }

  ghost predicate Increasing(events: seq<Event>) {
    forall i, j :: 0 <= i < j < |events| ==> events[i].sequence < events[j].sequence
  }

  ghost predicate SentIncreasing(sub: Subscriber) {
    Increasing(sub.sent) && forall i :: 0 <= i < |sub.sent| ==> sub.sent[i].sequence <= sub.lastSent
  }

  ghost predicate StreamInvariant(s: State) {
    && TargetsRegistered(s) && SentIncreasing(s.sub)
    && (s.sub.phase.Unregistered? || s.sub.phase.Registered? ==> s.sub.sent == [] && s.sub.taken == 0)
    && (s.sub.phase.Unregistered? ==> s.sub.queue == [])
    && (!s.sub.phase.Unregistered? ==> s.sub.since <= Handled(s))
    && (!s.sub.phase.Unregistered? && !s.sub.dropped ==> QueueContiguous(s))
    && (s.sub.phase.Replaying? || s.sub.phase.Live? ==> s.sub.since <= s.sub.seen <= |s.log|)
    && (s.sub.phase.Replaying? ==> s.sub.taken == 0 && ReplayContiguous(s))
    && (s.sub.phase.Live? && !s.sub.dropped ==> LiveContiguous(s))
  }

  lemma HandledBounds(s: State)
    requires TurnInvariant(s)
    ensures s.nextDelivery - 1 <= Handled(s) <= |s.log|
    ensures forall pid :: pid in s.publishers && !s.publishers[pid].Waiting? ==>
              Handled(s) == if PastQueue(s.publishers[pid]) then s.nextDelivery else s.nextDelivery - 1
  {
    hide NoneLost, FannedInOrder;
    forall pid | pid in s.publishers && !s.publishers[pid].Waiting?
      ensures s.nextDelivery <= |s.log|
      ensures Handled(s) == if PastQueue(s.publishers[pid]) then s.nextDelivery else s.nextDelivery - 1
    {
      TurnIsExclusive(s, pid);
      assert HoldsLogged(s, s.publishers[pid].event);
    }
    if !InFanOut(s) { NextWithinLog(s); }
  }

  lemma NextWithinLog(s: State)
    requires TurnInvariant(s)
    ensures s.nextDelivery <= |s.log| + 1
  {
  }

  /** A step completes the current event for the subscriber exactly when it delivers it, or copies a registry
      without the subscriber. */
  predicate Completes(s: State, step: Step)
    requires Enabled(s, step)
  {
    (step.Copy? && s.sub.phase.Unregistered?) || (step.Deliver? && s.publishers[step.pid].targeted)
  }

  lemma HandledAfter(s: State, step: Step)
    requires TurnInvariant(s) && Enabled(s, step)
    ensures Handled(Apply(s, step)) == Handled(s) + if Completes(s, step) then 1 else 0
  {
    hide NoneLost, FannedInOrder, SnapshotOf, Offer, Emit, StartCursor, TurnInvariant;
    var t := Apply(s, step);
    TurnInvariantKept(s, step);
    HandledBounds(s);
    HandledBounds(t);
    if step.Enter? || step.Copy? || step.Deliver? || step.Finish? {
      assert Turn(s, step.pid) by { HolderHasTurn(s, step.pid, step); }
      TurnIsExclusive(s, step.pid);
      assert !step.Finish? ==> step.pid in t.publishers && !t.publishers[step.pid].Waiting?;
      if step.Finish? {
        AllWaiting(t);
      } else if step.Enter? {
        AllWaiting(s);
      }
    } else if step.Append? {
      assert forall pid :: pid in s.publishers ==> t.publishers[pid] == s.publishers[pid];
    }
  }

  lemma AllWaiting(s: State)
    requires s.nextDelivery >= 1 && forall pid :: pid in s.publishers ==> s.publishers[pid].Waiting?
    ensures Handled(s) == s.nextDelivery - 1
  {
  }

  ghost predicate Turn(s: State, pid: nat) {
    pid in s.publishers && s.publishers[pid].event.sequence == s.nextDelivery
  }

  lemma HolderHasTurn(s: State, pid: nat, step: Step)
    requires TurnInvariant(s) && Enabled(s, step)
    requires (step.Enter? || step.Copy? || step.Deliver? || step.Finish?) && pid == step.pid
    ensures Turn(s, pid)
  {
  }

  // ----- Keeping the stream invariant -----

  lemma EmitKeepsIncreasing(sub: Subscriber, event: Event)
    requires SentIncreasing(sub)
    ensures SentIncreasing(Emit(sub, event))
  {
  }

  lemma IncreasingKept(s: State, step: Step)
    requires StreamInvariant(s) && Enabled(s, step)
    ensures SentIncreasing(Apply(s, step).sub)
  {
    hide QueueContiguous, ReplayContiguous, LiveContiguous, SnapshotOf, Handled, StartCursor, TargetsRegistered;
    match step
    case SendReplay =>
      if s.sub.phase.pending != [] { EmitKeepsIncreasing(s.sub, s.sub.phase.pending[0]); }
    case Receive => EmitKeepsIncreasing(s.sub, s.sub.queue[0]);
    case _ =>
  }

  lemma TargetsKept(s: State, step: Step)
    requires TurnInvariant(s) && StreamInvariant(s) && Enabled(s, step)
    ensures TargetsRegistered(Apply(s, step))
  {
    hide QueueContiguous, ReplayContiguous, LiveContiguous, SnapshotOf, Handled, StartCursor, TurnInvariant,
         SentIncreasing;
  }

  lemma SliceAppend(log: seq<Event>, event: Event, from: nat, to: nat)
    requires from <= to <= |log|
    ensures (log + [event])[from..to] == log[from..to]
  {
  }

  /** The event a publisher offers is the next one of the log. */
  lemma OfferedIsNext(s: State, pid: nat)
    requires TurnInvariant(s) && pid in s.publishers && s.publishers[pid].Copied? && s.publishers[pid].targeted
    ensures Handled(s) < |s.log| && s.publishers[pid].event == s.log[Handled(s)]
  {
    HandledBounds(s);
    assert HoldsLogged(s, s.publishers[pid].event);
  }

  /** What a step does to the log and to the subscriber. */
  lemma StepEffect(s: State, step: Step)
    requires Enabled(s, step)
    ensures var t := Apply(s, step);
            && t.capacity == s.capacity && t.queueCapacity == s.queueCapacity
            && (step.Append? ==> t.sub == s.sub && t.log == s.log + [Event(|s.log| + 1, step.elapsed, step.detail)])
            && (!step.Append? ==> t.log == s.log)
            && (step.Sleep? || step.Enter? || step.Copy? || step.Finish? ==> t.sub == s.sub)
            && (step.Deliver? && !s.publishers[step.pid].targeted ==> t.sub == s.sub)
            && (step.Deliver? && s.publishers[step.pid].targeted ==>
                  t.sub == Offer(s.sub, s.publishers[step.pid].event, s.queueCapacity))
            && (step.Subscribe? ==> t.sub == s.sub.(phase := Registered, cursor := step.cursor, since := Handled(s)))
  {
    hide SnapshotOf, Handled, StartCursor, Emit;
  }

  ghost predicate QueueKeepsUp(s: State) {
    && (!s.sub.phase.Unregistered? ==> s.sub.since <= Handled(s))
    && (!s.sub.phase.Unregistered? && !s.sub.dropped ==> QueueContiguous(s))
  }

  lemma QueueKept(s: State, step: Step)
    requires TurnInvariant(s) && StreamInvariant(s) && Enabled(s, step)
    ensures QueueKeepsUp(Apply(s, step))
  {
    if step.TakeSnapshot? || step.SendReplay? || step.Receive? {
      QueueKeptByStream(s, step);
      hide QueueContiguous, Handled, Apply;
    } else {
      QueueKeptByPublisher(s, step);
    }
  }

  lemma QueueKeptByPublisher(s: State, step: Step)
    requires TurnInvariant(s) && StreamInvariant(s) && Enabled(s, step)
    requires !step.TakeSnapshot? && !step.SendReplay? && !step.Receive?
    ensures QueueKeepsUp(Apply(s, step))
  {
    hide ReplayContiguous, LiveContiguous, Handled, TurnInvariant, SentIncreasing, TargetsRegistered,
         QueueContiguous, Apply;
    var t := Apply(s, step);
    HandledAfter(s, step);
    HandledBounds(s);
    StepEffect(s, step);
    if step.Deliver? && s.publishers[step.pid].targeted {
      QueueKeptByOffer(s, step.pid);
      QueueReaches(t);
    } else if step.Append? {
      QueueKeptByAppend(s, t, Event(|s.log| + 1, step.elapsed, step.detail));
    } else if step.Subscribe? {
      assert s.log[Handled(s)..Handled(s)] == [];
      QueueReaches(t);
    } else {
      SameQueue(s, t);
    }
  }

  lemma QueueReaches(t: State)
    requires var from := t.sub.since + t.sub.taken;
             t.sub.since <= Handled(t) <= |t.log|
             && (!t.sub.dropped ==> from <= Handled(t) && t.sub.queue == t.log[from..Handled(t)])
    ensures QueueKeepsUp(t)
  {
    hide Handled;
  }

  lemma SameQueue(s: State, t: State)
    requires QueueKeepsUp(s) && t.sub == s.sub && t.log == s.log
    requires s.sub.phase.Unregistered? || Handled(t) == Handled(s)
    ensures QueueKeepsUp(t)
  {
    hide Handled;
  }

  lemma QueueKeptByAppend(s: State, t: State, event: Event)
    requires QueueKeepsUp(s) && t.sub == s.sub && t.log == s.log + [event] && Handled(t) == Handled(s) <= |s.log|
    ensures QueueKeepsUp(t)
  {
    hide Handled;
    if s.sub.since + s.sub.taken <= Handled(s) {
      SliceAppend(s.log, event, s.sub.since + s.sub.taken, Handled(s));
    }
  }

  lemma QueueKeptByStream(s: State, step: Step)
    requires TurnInvariant(s) && StreamInvariant(s) && Enabled(s, step)
    requires step.TakeSnapshot? || step.SendReplay? || step.Receive?
    ensures var t := Apply(s, step);
            && t.sub.since <= Handled(t) && t.sub.since == s.sub.since && t.sub.dropped == s.sub.dropped
            && (!t.sub.dropped ==> QueueContiguous(t))
  {
    hide ReplayContiguous, LiveContiguous, SnapshotOf, Handled, StartCursor, TurnInvariant, SentIncreasing,
         TargetsRegistered;
    HandledAfter(s, step);
    DropFirst(s);
  }

  lemma QueueKeptByOffer(s: State, pid: nat)
    requires TurnInvariant(s) && StreamInvariant(s)
    requires pid in s.publishers && s.publishers[pid].Copied? && s.publishers[pid].targeted
    ensures var sub := Offer(s.sub, s.publishers[pid].event, s.queueCapacity);
            && !s.sub.phase.Unregistered? && Handled(s) < |s.log| && sub.since == s.sub.since
            && (!sub.dropped ==> s.sub.since + s.sub.taken <= Handled(s)
                                 && sub.queue == s.log[s.sub.since + s.sub.taken..Handled(s) + 1])
  {
    hide ReplayContiguous, LiveContiguous, Handled, TurnInvariant, SentIncreasing;
    OfferedIsNext(s, pid);
    TargetRegistered(s, pid);
    if s.sub.since + s.sub.taken <= Handled(s) {
      assert s.log[s.sub.since + s.sub.taken..Handled(s)] + [s.log[Handled(s)]]
          == s.log[s.sub.since + s.sub.taken..Handled(s) + 1];
    }
  }

  lemma TargetRegistered(s: State, pid: nat)
    requires TargetsRegistered(s) && pid in s.publishers && s.publishers[pid].Copied? && s.publishers[pid].targeted
    ensures !s.sub.phase.Unregistered?
  {
  }

  lemma DropFirst(s: State)
    ensures QueueContiguous(s) && s.sub.queue != [] ==>
              && s.sub.queue[0] == s.log[s.sub.since + s.sub.taken]
              && s.sub.queue[1..] == s.log[s.sub.since + s.sub.taken + 1..Handled(s)]
  {
    hide Handled;
  }

  lemma ReplayKept(s: State, step: Step)
    requires TurnInvariant(s) && StreamInvariant(s) && Enabled(s, step)
    ensures var t := Apply(s, step);
            && (t.sub.phase.Replaying? || t.sub.phase.Live? ==> t.sub.since <= t.sub.seen <= |t.log|)
            && (t.sub.phase.Replaying? ==> t.sub.taken == 0 && ReplayContiguous(t))
  {
    hide QueueContiguous, LiveContiguous, ReplayContiguous, SnapshotOf, Handled, StartCursor, SentIncreasing,
         TargetsRegistered, Outstanding, OneHolderEach, NoneLost, TurnsKept, FannedInOrder, First, Begin;
    if step.TakeSnapshot? {
      ReplayBegins(s);
    } else if step.SendReplay? {
      if s.sub.phase.pending != [] { ReplayStep(s); }
    } else if !step.Receive? {
      ReplayKeptElsewhere(s, step);
    }
  }

  lemma ReplayKeptElsewhere(s: State, step: Step)
    requires StreamInvariant(s) && Enabled(s, step)
    requires !step.TakeSnapshot? && !step.SendReplay? && !step.Receive?
    ensures var t := Apply(s, step);
            && (t.sub.phase.Replaying? || t.sub.phase.Live? ==> t.sub.since <= t.sub.seen <= |t.log|)
            && (t.sub.phase.Replaying? ==> t.sub.taken == 0 && ReplayContiguous(t))
  {
    hide QueueContiguous, LiveContiguous, ReplayContiguous, Handled, SentIncreasing, TargetsRegistered, Apply;
    var t := Apply(s, step);
    StepEffect(s, step);
    if t.sub.phase.Replaying? {
      if step.Append? {
        ReplayKeptByAppend(s, Event(|s.log| + 1, step.elapsed, step.detail), t);
      } else {
        SameReplay(s, t);
      }
    }
  }

  lemma SameReplay(s: State, t: State)
    requires s.sub.phase.Replaying? && s.sub.seen <= |s.log| && ReplayContiguous(s)
    requires t.log == s.log && t.capacity == s.capacity && t.sub.phase == s.sub.phase && t.sub.seen == s.sub.seen
    requires t.sub.cursor == s.sub.cursor && t.sub.sent == s.sub.sent && t.sub.lastSent == s.sub.lastSent
    ensures ReplayContiguous(t)
  {
  }

  lemma ReplayKeptByAppend(s: State, event: Event, t: State)
    requires s.sub.phase.Replaying? && s.sub.seen <= |s.log| && ReplayContiguous(s)
    requires t.sub == s.sub && t.log == s.log + [event] && t.capacity == s.capacity
    ensures ReplayContiguous(t)
  {
    if s.sub.seen > 0 {
      var p := s.sub.seen - |s.sub.phase.pending|;
      SliceAppend(s.log, event, p, s.sub.seen);
      SliceAppend(s.log, event, First(s.sub.seen, s.capacity, s.sub.cursor), p);
    }
  }

  lemma ReplayBegins(s: State)
    requires TurnInvariant(s) && StreamInvariant(s) && s.sub.phase.Registered?
    ensures var t := Apply(s, TakeSnapshot);
            t.sub.since <= t.sub.seen <= |t.log| && t.sub.taken == 0 && ReplayContiguous(t)
  {
    hide QueueContiguous, LiveContiguous, SnapshotOf, Handled, StartCursor, SentIncreasing, TargetsRegistered,
         TurnInvariant;
    HandledBounds(s);
    assert s.capacity > 0 by { CapacityIsPositive(s); }
    SnapshotBegins(s.log, s.capacity, s.sub.cursor);
    if s.log != [] {
      var first := First(|s.log|, s.capacity, s.sub.cursor);
      assert s.log[first..|s.log|] == s.log[first..] && s.log[first..first] == [];
    }
  }

  lemma CapacityIsPositive(s: State)
    requires TurnInvariant(s)
    ensures s.capacity > 0
  {
  }

  lemma ReplayStep(s: State)
    requires Numbered(s.log) && s.sub.phase.Replaying? && s.sub.seen <= |s.log| && ReplayContiguous(s)
    requires s.sub.phase.pending != []
    ensures ReplayContiguous(Apply(s, SendReplay))
  {
    var pending, first := s.sub.phase.pending, First(s.sub.seen, s.capacity, s.sub.cursor);
    var p := s.sub.seen - |pending|;
    assert pending[0] == s.log[p] && pending[0].sequence == p + 1;
    assert pending[1..] == s.log[p + 1..s.sub.seen];
    assert s.log[first..p] + [s.log[p]] == s.log[first..p + 1];
  }

  lemma LiveKept(s: State, step: Step)
    requires TurnInvariant(s) && StreamInvariant(s) && Enabled(s, step)
    ensures var t := Apply(s, step);
            t.sub.phase.Live? && !t.sub.dropped ==> LiveContiguous(t)
  {
    hide SnapshotOf, Handled, StartCursor, SentIncreasing, TargetsRegistered, Outstanding, OneHolderEach,
         NoneLost, TurnsKept, FannedInOrder, QueueContiguous, ReplayContiguous;
    StepEffect(s, step);
    if step.SendReplay? {
      if s.sub.phase.pending == [] { ReplayEnds(s); }
    } else if step.Receive? {
      if !s.sub.dropped { ReceiveStep(s); }
    } else if step.TakeSnapshot? {
    } else {
      hide Apply;
      if step.Append? && s.sub.phase.Live? && !s.sub.dropped {
        var first := First(s.sub.seen, s.capacity, s.sub.cursor);
        var end := Max(s.sub.seen, s.sub.since + s.sub.taken);
        if first < end { SliceAppend(s.log, Event(|s.log| + 1, step.elapsed, step.detail), first, end); }
      }
    }
  }

  lemma ReplayEnds(s: State)
    requires s.capacity > 0 && s.sub.phase.Replaying? && s.sub.since <= s.sub.seen <= |s.log| && s.sub.taken == 0
    requires ReplayContiguous(s) && s.sub.phase.pending == []
    ensures LiveContiguous(Apply(s, SendReplay))
  {
    var first := First(s.sub.seen, s.capacity, s.sub.cursor);
    if s.sub.seen > 0 { assert first <= s.sub.seen; }
  }

  /** The piece of the log sent from `first` up to `end`. */
  function SentUpTo(log: seq<Event>, first: nat, end: nat): seq<Event>
    requires end <= |log|
  {
    if end <= first then [] else log[first..end]
  }

  /** Emitting event k moves the end of the piece to k + 1 unless it is already there. */
  lemma PieceGrows(log: seq<Event>, first: nat, seen: nat, k: nat, sub: Subscriber)
    requires Numbered(log) && seen <= |log| && k < |log|
    requires sub.lastSent == Max(first, Max(seen, k)) && sub.sent == SentUpTo(log, first, Max(seen, k))
    ensures var next := Emit(sub, log[k]);
            next.lastSent == Max(first, Max(seen, k + 1)) && next.sent == SentUpTo(log, first, Max(seen, k + 1))
  {
    assert log[k].sequence == k + 1;
    hide Numbered;
    if seen <= k && first <= k { assert log[first..k] + [log[k]] == log[first..k + 1]; }
  }

  lemma ReceiveStep(s: State)
    requires Numbered(s.log) && s.capacity > 0 && s.sub.phase.Live? && s.sub.queue != []
    requires s.sub.since <= s.sub.seen <= |s.log| && QueueContiguous(s) && LiveContiguous(s)
    ensures LiveContiguous(Apply(s, Receive))
  {
    hide Handled, First, Numbered, Emit;
    DropFirst(s);
    PieceGrows(s.log, First(s.sub.seen, s.capacity, s.sub.cursor), s.sub.seen, s.sub.since + s.sub.taken, s.sub);
    EmitOnlySends(s.sub, s.sub.queue[0]);
  }

  lemma EmitOnlySends(sub: Subscriber, event: Event)
    ensures Emit(sub, event) == sub.(sent := Emit(sub, event).sent, lastSent := Emit(sub, event).lastSent)
  {
  }

  lemma StreamInvariantKept(s: State, step: Step)
    requires TurnInvariant(s) && StreamInvariant(s) && Enabled(s, step)
    ensures StreamInvariant(Apply(s, step))
  {
    hide QueueContiguous, ReplayContiguous, LiveContiguous, SnapshotOf, Handled, StartCursor, SentIncreasing,
         TargetsRegistered, TurnInvariant;
    IncreasingKept(s, step);
    TargetsKept(s, step);
    QueueKept(s, step);
    ReplayKept(s, step);
    LiveKept(s, step);
    QuietKept(s, step);
  }

  lemma QuietKept(s: State, step: Step)
    requires StreamInvariant(s) && Enabled(s, step)
    ensures var t := Apply(s, step);
            && (t.sub.phase.Unregistered? || t.sub.phase.Registered? ==> t.sub.sent == [] && t.sub.taken == 0)
            && (t.sub.phase.Unregistered? ==> t.sub.queue == [])
  {
    hide QueueContiguous, ReplayContiguous, LiveContiguous, SnapshotOf, Handled, StartCursor, SentIncreasing;
  }

  // ----- Theorems over all runs -----

  /** Every state of every run satisfies both invariants. */
  lemma {:induction false} RunInvariant(states: seq<State>, steps: seq<Step>, i: nat)
    requires Run(states, steps) && i < |states|
    ensures TurnInvariant(states[i]) && StreamInvariant(states[i])
  {
    if i == 0 {
      InitialInvariant(states[0].capacity, states[0].queueCapacity);
    } else {
      hide TurnInvariant, StreamInvariant, Apply, Enabled, Initial;
      RunInvariant(states, steps, i - 1);
      assert Follows(states[i - 1], steps[i - 1], states[i]);
      TurnInvariantKept(states[i - 1], steps[i - 1]);
      StreamInvariantKept(states[i - 1], steps[i - 1]);
    }
  }

  lemma InitialInvariant(capacity: nat, queueCapacity: nat)
    requires capacity > 0
    ensures TurnInvariant(Initial(capacity, queueCapacity)) && StreamInvariant(Initial(capacity, queueCapacity))
  {
  }

  /** Delivery turns: the outstanding sequence numbers are exactly nextDelivery..sequence, each held by one
      publisher; at most one publisher is in fan-out; fan-out follows the log; and whenever something is
      outstanding the holder of the turn can move. */
  lemma DeliveryTurns(states: seq<State>, steps: seq<Step>, i: nat)
    requires Run(states, steps) && i < |states|
    ensures var s := states[i];
            && (forall k: nat :: HasHolder(s, k) <==> s.nextDelivery <= k <= |s.log|)
            && OneHolderEach(s)
            && (forall p, q :: p in s.publishers && q in s.publishers && p != q ==>
                  s.publishers[p].Waiting? || s.publishers[q].Waiting?)
            && s.fanned <= s.log
            && (s.publishers != map[] ==> exists pid :: Turn(s, pid) && CanMove(s, pid))
            && (forall pid :: Turn(s, pid) ==> pid !in s.asleep)
  {
    var s := states[i];
    RunInvariant(states, steps, i);
    hide StreamInvariant, Run;
    forall k: nat ensures HasHolder(s, k) <==> s.nextDelivery <= k <= |s.log| {
      if HasHolder(s, k) {
        var pid :| Holder(s, k, pid);
        assert HoldsLogged(s, s.publishers[pid].event);
      }
    }
    if s.publishers != map[] { SomeoneCanMove(s); }
  }

  predicate CanMove(s: State, pid: nat) {
    Enabled(s, Enter(pid)) || Enabled(s, Copy(pid)) || Enabled(s, Deliver(pid)) || Enabled(s, Finish(pid))
  }

  lemma SomeoneCanMove(s: State)
    requires TurnInvariant(s) && s.publishers != map[]
    ensures exists pid :: Turn(s, pid) && CanMove(s, pid)
  {
    var p :| p in s.publishers;
    assert HoldsLogged(s, s.publishers[p].event);
    assert HasHolder(s, s.nextDelivery);
    var pid :| Holder(s, s.nextDelivery, pid);
    assert Turn(s, pid) && CanMove(s, pid);
  }

  // ----- Overflow -----

  /** Whenever an event was offered to the subscriber, its queue had room. */
  ghost predicate NoOverflow(states: seq<State>, steps: seq<Step>, i: nat)
    requires Run(states, steps) && i < |states|
  {
    forall k :: 0 <= k < i && Offers(states[k], steps[k]) ==> |states[k].sub.queue| < states[0].queueCapacity
  }

  predicate Offers(s: State, step: Step) {
    step.Deliver? && step.pid in s.publishers && s.publishers[step.pid].Copied? && s.publishers[step.pid].targeted
  }

  /** An event offered to a queue with room is enqueued behind the others and nothing is marked as dropped; one
      offered to a full queue is dropped and leaves the queue as it was. */
  lemma OfferedIsQueued(states: seq<State>, steps: seq<Step>, i: nat)
    requires Run(states, steps) && i < |steps| && Offers(states[i], steps[i])
    ensures var sub, next := states[i].sub, states[i + 1].sub;
            var event := states[i].publishers[steps[i].pid].event;
            && (|sub.queue| < states[0].queueCapacity ==>
                  next.queue == sub.queue + [event] && next.dropped == sub.dropped)
            && (|sub.queue| >= states[0].queueCapacity ==> next.queue == sub.queue && next.dropped)
            && next.phase == sub.phase && next.sent == sub.sent && next.lastSent == sub.lastSent
            && next.cursor == sub.cursor
  {
    assert Follows(states[i], steps[i], states[i + 1]);
    CapacityFixed(states, steps, i);
    hide Run;
  }

  lemma {:induction false} CapacityFixed(states: seq<State>, steps: seq<Step>, i: nat)
    requires Run(states, steps) && i < |states|
    ensures states[i].queueCapacity == states[0].queueCapacity
  {
    if i > 0 {
      CapacityFixed(states, steps, i - 1);
      assert Follows(states[i - 1], steps[i - 1], states[i]);
      StepEffect(states[i - 1], steps[i - 1]);
    }
  }

  lemma DroppedStep(s: State, step: Step)
    requires Enabled(s, step) && !Offers(s, step)
    ensures Apply(s, step).sub.dropped == s.sub.dropped && |Apply(s, step).sub.queue| <= |s.sub.queue|
  {
    hide SnapshotOf, Handled, StartCursor;
  }

  /** Events are dropped only when the queue is full: the stream has lost none exactly when every offer met room,
      and otherwise the queue was full at some earlier state. */
  lemma {:induction false} DroppedMeansFull(states: seq<State>, steps: seq<Step>, i: nat)
    requires Run(states, steps) && i < |states|
    ensures states[i].sub.dropped <==> !NoOverflow(states, steps, i)
    ensures |states[i].sub.queue| <= states[0].queueCapacity
    ensures states[i].sub.dropped ==> exists k :: 0 <= k < i && |states[k].sub.queue| == states[0].queueCapacity
  {
    if i > 0 {
      var s, step := states[i - 1], steps[i - 1];
      DroppedMeansFull(states, steps, i - 1);
      assert Follows(s, step, states[i]);
      if Offers(s, step) {
        OfferedIsQueued(states, steps, i - 1);
        assert |s.sub.queue| >= states[0].queueCapacity ==> |states[i - 1].sub.queue| == states[0].queueCapacity;
      } else {
        DroppedStep(s, step);
      }
      hide Run, Apply, Enabled;
    }
  }

  // ----- What is sent -----

  /** What a subscriber is sent is strictly increasing in every run, even when its queue overflows. */
  lemma SentIsIncreasing(states: seq<State>, steps: seq<Step>, i: nat)
    requires Run(states, steps) && i < |states|
    ensures Increasing(states[i].sub.sent)
  {
    RunInvariant(states, steps, i);
  }

  /** If every offer met room in the queue, the live stream is one contiguous piece of the log, from the first event
      due to this cursor onwards: nothing is lost between registration, replay and live delivery, and nothing
      repeats. */
  lemma SentIsContiguous(states: seq<State>, steps: seq<Step>, i: nat)
    requires Run(states, steps) && i < |states|
    requires states[i].sub.phase.Live? && NoOverflow(states, steps, i)
    ensures var s := states[i];
            var first := First(s.sub.seen, s.capacity, s.sub.cursor);
            && Min(first, |s.log|) + |s.sub.sent| <= |s.log|
            && s.sub.sent == s.log[Min(first, |s.log|)..Min(first, |s.log|) + |s.sub.sent|]
  {
    DroppedMeansFull(states, steps, i);
    RunInvariant(states, steps, i);
    hide TurnInvariant, Run, NoOverflow;
    var s := states[i];
    var first := First(s.sub.seen, s.capacity, s.sub.cursor);
    assert LiveContiguous(s);
    if s.sub.sent == [] { assert s.log[Min(first, |s.log|)..Min(first, |s.log|)] == []; }
  }

  lemma NothingOutstanding(s: State)
    requires TurnInvariant(s) && s.publishers == map[]
    ensures s.nextDelivery > |s.log|
  {
    assert !HasHolder(s, s.nextDelivery);
  }

  /** A live stream whose every offer met room, with nothing in transit any more. */
  ghost predicate AtRest(states: seq<State>, steps: seq<Step>, i: nat)
    requires Run(states, steps) && i < |states|
  {
    && states[i].sub.phase.Live? && NoOverflow(states, steps, i)
    && states[i].sub.queue == [] && states[i].publishers == map[]
  }

  /** At rest the stream has sent every event from its first one on: after the cursor or from the oldest retained
      event, whichever is later, from the oldest retained event for a cursor in the future; but after the cursor if
      the ledger was empty at the snapshot. */
  lemma SentIsComplete(states: seq<State>, steps: seq<Step>, i: nat)
    requires Run(states, steps) && i < |states| && AtRest(states, steps, i)
    ensures var s := states[i];
            s.sub.sent == s.log[Min(First(s.sub.seen, s.capacity, s.sub.cursor), |s.log|)..]
  {
    var s := states[i];
    DroppedMeansFull(states, steps, i);
    RunInvariant(states, steps, i);
    hide Run, NoOverflow;
    assert QueueContiguous(s) && LiveContiguous(s);
    assert Handled(s) == |s.log| by {
      AllWaiting(s);
      HandledBounds(s);
      NothingOutstanding(s);
    }
    if First(s.sub.seen, s.capacity, s.sub.cursor) >= |s.log| { assert s.log[|s.log|..] == []; }
  }

  /** At rest the stream has sent every event logged after its snapshot exactly when the ledger was not empty at the
      snapshot, or the cursor was 0, or nothing was logged at all. */
  lemma NothingMissed(states: seq<State>, steps: seq<Step>, i: nat)
    requires Run(states, steps) && i < |states| && AtRest(states, steps, i)
    ensures var s := states[i];
            (forall k :: s.sub.seen <= k < |s.log| ==> s.log[k] in s.sub.sent)
            <==> s.sub.seen > 0 || s.sub.cursor == 0 || s.log == []
  {
    var s := states[i];
    SentIsComplete(states, steps, i);
    RunInvariant(states, steps, i);
    SeenWithinLog(s);
    hide Run, TurnInvariant, StreamInvariant, First, Numbered, NoOverflow;
    MissedMeans(s.log, s.capacity, s.sub.cursor, s.sub.seen);
  }

  lemma SeenWithinLog(s: State)
    requires TurnInvariant(s) && StreamInvariant(s) && s.sub.phase.Live?
    ensures Numbered(s.log) && s.capacity > 0 && s.sub.seen <= |s.log|
  {
  }

  lemma MissedMeans(log: seq<Event>, capacity: nat, cursor: nat, seen: nat)
    requires Numbered(log) && capacity > 0 && seen <= |log|
    ensures var sent := log[Min(First(seen, capacity, cursor), |log|)..];
            (forall k :: seen <= k < |log| ==> log[k] in sent) <==> seen > 0 || cursor == 0 || log == []
  {
    var first := Min(First(seen, capacity, cursor), |log|);
    var sent := log[first..];
    if seen > 0 || cursor == 0 || log == [] {
      assert first <= seen;
      forall k | seen <= k < |log| ensures log[k] in sent { assert sent[k - first] == log[k]; }
    } else {
      assert log[0] !in sent by {
        assert log[0].sequence == 1 && first >= 1;
        assert forall k :: 0 <= k < |sent| ==> sent[k] == log[first + k] && log[first + k].sequence == first + k + 1;
      }
    }
  }

  /** A queue that was never full never overflowed. */
  lemma NeverFull(states: seq<State>, steps: seq<Step>, i: nat)
    requires Run(states, steps) && i < |states|
    requires forall k :: 0 <= k < i ==> |states[k].sub.queue| < states[0].queueCapacity
    ensures NoOverflow(states, steps, i) && !states[i].sub.dropped
  {
    DroppedMeansFull(states, steps, i);
  }

  lemma Extend(states: seq<State>, steps: seq<Step>, step: Step) returns (states': seq<State>, steps': seq<Step>)
    requires Run(states, steps) && Enabled(states[|steps|], step)
    ensures Run(states', steps') && states'[0] == states[0] && steps' == steps + [step]
    ensures |states'| == |steps'| + 1 && states'[|steps'|] == Apply(states[|steps|], step)
  {
    hide Enabled, Apply, Initial;
    states', steps' := states + [Apply(states[|steps|], step)], steps + [step];
    forall i | 0 <= i < |steps'| ensures Follows(states'[i], steps'[i], states'[i + 1]) {
      if i < |steps| { assert Follows(states[i], steps[i], states[i + 1]); }
    }
  }

  /** A subscriber that comes to an empty ledger with a cursor is live at once. */
  lemma EarlySubscriber(capacity: nat, queueCapacity: nat, cursor: nat) returns (states: seq<State>, steps: seq<Step>)
    requires capacity > 0
    ensures Run(states, steps) && states[0] == Initial(capacity, queueCapacity)
    ensures states[|steps|] == Initial(capacity, queueCapacity).(
                                 sub := Subscriber(Live, cursor, [], false, cursor, [], 0, 0, 0))
  {
    states, steps := [Initial(capacity, queueCapacity)], [];
    assert Run(states, steps);
    hide Run;
    states, steps := Extend(states, steps, Subscribe(cursor));
    states, steps := Extend(states, steps, TakeSnapshot);
    states, steps := Extend(states, steps, SendReplay);
  }

  /** For every configuration and every cursor ahead of an empty ledger some run delivers an event to the subscriber
      that is never sent, although nothing overflowed and nothing is in transit any more. */
  lemma EventCanBeLost(capacity: nat, queueCapacity: nat, cursor: nat) returns (states: seq<State>, steps: seq<Step>)
    requires capacity > 0 && queueCapacity > 0 && cursor > 0
    ensures Run(states, steps) && states[0] == Initial(capacity, queueCapacity)
    ensures var s := states[|steps|];
            && AtRest(states, steps, |steps|) && s.sub.cursor == cursor && |s.log| == 1 && s.sub.sent == []
  {
    hide Run, Handled, SnapshotOf, StartCursor;
    states, steps := EarlySubscriber(capacity, queueCapacity, cursor);
    states, steps := Extend(states, steps, Append(0, 0, ""));
    states, steps := Extend(states, steps, Enter(0));
    states, steps := Extend(states, steps, Copy(0));
    states, steps := Extend(states, steps, Deliver(0));
    states, steps := Extend(states, steps, Finish(0));
    assert states[|steps|].publishers == map[];
    states, steps := Extend(states, steps, Receive);
    DroppedMeansFull(states, steps, |steps|);
  }
}
