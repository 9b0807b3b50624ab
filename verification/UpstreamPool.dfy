/** Idle upstream connections: the bounded stack of one backend, and who owns each connection in every
    interleaving of attempts over all backends. */
module UpstreamPool {

  datatype Entry = Entry(connection: nat, since: int)

  predicate Expired(entry: Entry, timeout: int, now: int) { now - entry.since >= timeout }

  // ----- One stack -----

  datatype Acquired = PoolClosed | MustDial | Reused(connection: nat)

  class IdleStack {
    const maximum: nat
    const timeout: int
    var idle: seq<Entry>
    var poolClosed: bool

    constructor (maximum: nat, timeout: int)
      ensures this.maximum == maximum && this.timeout == timeout && idle == [] && !poolClosed && Valid()
    {
      this.maximum, this.timeout, idle, poolClosed := maximum, timeout, [], false;
    }

    ghost predicate Valid()
      reads this
    {
      |idle| <= maximum && (poolClosed ==> idle == [])
    }

    /** Pops entries from the top until one has not expired; the expired ones are closed. */
    method AcquireConnection(now: int) returns (r: Acquired, closed: seq<Entry>)
      requires Valid()
      modifies this`idle
      ensures Valid() && idle <= old(idle)
      ensures old(poolClosed) <==> r.PoolClosed?
      ensures r.MustDial? ==> idle == []
      ensures r.Reused? ==> && |idle| < |old(idle)| && now - old(idle)[|idle|].since < timeout
                            && r.connection == old(idle)[|idle|].connection
      ensures var kept := |idle| + (if r.Reused? then 1 else 0);
              && kept + |closed| == |old(idle)|
              && forall k :: 0 <= k < |closed| ==>
                   closed[k] == old(idle)[|old(idle)| - 1 - k] && now - closed[k].since >= timeout
    {
      closed := [];
      while true
        invariant Valid() && idle <= old(idle) && |idle| + |closed| == |old(idle)|
        invariant forall k :: 0 <= k < |closed| ==>
                    closed[k] == old(idle)[|old(idle)| - 1 - k] && Expired(closed[k], timeout, now)
        decreases |idle|
      {
        if poolClosed { return PoolClosed, closed; }
        if idle == [] { return MustDial, closed; }
        var last := |idle| - 1;
        var entry := idle[last];
        idle := idle[..last];
        if !Expired(entry, timeout, now) { return Reused(entry.connection), closed; }
        closed := closed + [entry];
      }
    }

    /** Stores a connection unless the pool is closed or full; otherwise the caller's connection is closed. */
    method RecycleConnection(connection: nat, now: int) returns (stored: bool)
      requires Valid()
      modifies this`idle
      ensures Valid()
      ensures stored == (!poolClosed && |old(idle)| < maximum)
      ensures idle == if stored then old(idle) + [Entry(connection, now)] else old(idle)
    {
      if poolClosed || |idle| >= maximum { return false; }
      idle := idle + [Entry(connection, now)];
      return true;
    }

    method CloseIdleConnections() returns (closed: seq<Entry>)
      requires Valid()
      modifies this`idle, this`poolClosed
      ensures Valid() && poolClosed && idle == [] && closed == old(idle)
    {
      poolClosed := true;
      closed := idle;
      idle := [];
    }
  }

  // ----- All stacks, all attempts -----

  datatype Stack = Stack(idle: seq<Entry>, closed: bool)

  /** Where a connection is. */
  datatype Place = InStack(backend: nat, index: nat) | WithAttempt(attempt: nat) | Leaving | Closed

  datatype Held = Held(backend: nat, connection: nat)

  /** `place` is the book-keeping that the invariant ties to the stacks and attempts. `watch` holds the connection
      each attempt's cancellation closer still watches, and `shut` the connections such a closer has closed. */
  datatype State = State(
    maximum: nat,
    timeout: int,
    stacks: seq<Stack>,
    held: map<nat, Held>,
    place: map<nat, Place>,
    watch: map<nat, nat>,
    shut: set<nat>)

  function Initial(maximum: nat, timeout: int, backends: nat): State {
    State(maximum, timeout, seq(backends, _ => Stack([], false)), map[], map[], map[], {})
  }

  datatype Step =
    | Pop(attempt: nat, backend: nat, now: int)                    // one turn of the acquire loop
    | Dial(attempt: nat, backend: nat, connection: nat)            // a dial completes, with a new connection
    | Recycle(attempt: nat, now: int)                              // after a complete persistent response
    | StopWatch(attempt: nat)                                      // the closer is stopped, after any recycling
    | CloserFires(attempt: nat)                                    // the attempt's context ended while watched
    | Abandon(attempt: nat)                                        // the deferred close, after the closer stopped
    | ClosePool(backend: nat)
    | CloseOne(connection: nat)                                    // closing what a closed pool held

  /** The attempt has no connection and no closer. */
  predicate Idle(s: State, a: nat) { a !in s.held && a !in s.watch }

  predicate Enabled(s: State, step: Step) {
    match step
    case Pop(a, b, _) => Idle(s, a) && b < |s.stacks| && !s.stacks[b].closed && s.stacks[b].idle != []
    case Dial(a, b, c) => Idle(s, a) && b < |s.stacks| && c !in s.place
    case Recycle(a, _) => a in s.held && a in s.watch && s.held[a].backend < |s.stacks|
    case StopWatch(a) => a in s.watch
    case CloserFires(a) => a in s.watch
    case Abandon(a) => a in s.held && a !in s.watch
    case ClosePool(b) => b < |s.stacks|
    case CloseOne(c) => c in s.place && s.place[c].Leaving?
  }

  function WithIdle(s: State, b: nat, idle: seq<Entry>): seq<Stack>
    requires b < |s.stacks|
  {
    s.stacks[b := s.stacks[b].(idle := idle)]
  }

  function Apply(s: State, step: Step): State
    requires Enabled(s, step)
  {
    match step
    case Pop(a, b, now) =>
      var last := |s.stacks[b].idle| - 1;
      var entry := s.stacks[b].idle[last];
      var popped := s.(stacks := WithIdle(s, b, s.stacks[b].idle[..last]));
      if Expired(entry, s.timeout, now) then popped.(place := s.place[entry.connection := Closed])
      else popped.(held := s.held[a := Held(b, entry.connection)], place := s.place[entry.connection := WithAttempt(a)],
                   watch := s.watch[a := entry.connection])
    case Dial(a, b, c) =>
      s.(held := s.held[a := Held(b, c)], place := s.place[c := WithAttempt(a)], watch := s.watch[a := c])
    case Recycle(a, now) =>
      var Held(b, c) := s.held[a];
      var stack := s.stacks[b];
      if stack.closed || |stack.idle| >= s.maximum then s.(held := s.held - {a}, place := s.place[c := Closed])
      else s.(held := s.held - {a}, stacks := WithIdle(s, b, stack.idle + [Entry(c, now)]),
              place := s.place[c := InStack(b, |stack.idle|)])
    case StopWatch(a) => s.(watch := s.watch - {a})
    case CloserFires(a) => s.(shut := s.shut + {s.watch[a]})
    case Abandon(a) => s.(held := s.held - {a}, place := s.place[s.held[a].connection := Closed])
    case ClosePool(b) =>
      s.(stacks := s.stacks[b := Stack([], true)],
         place := map c | c in s.place :: if s.place[c].InStack? && s.place[c].backend == b then Leaving else s.place[c])
    case CloseOne(c) => s.(place := s.place[c := Closed])
  }

  ghost predicate Follows(s: State, step: Step, t: State) {
    Enabled(s, step) && t == Apply(s, step)
  }

  ghost predicate Run(states: seq<State>, steps: seq<Step>) {
    && |states| == |steps| + 1
    && states[0] == Initial(states[0].maximum, states[0].timeout, |states[0].stacks|)
    && forall i :: 0 <= i < |steps| ==> Follows(states[i], steps[i], states[i + 1])
  }

  // ----- Ownership -----

  ghost predicate StackFits(s: State, b: nat)
    requires b < |s.stacks|
  {
    && |s.stacks[b].idle| <= s.maximum && (s.stacks[b].closed ==> s.stacks[b].idle == [])
    && forall i :: 0 <= i < |s.stacks[b].idle| ==> EntryFits(s, b, i)
  }

  ghost predicate EntryFits(s: State, b: nat, i: nat)
    requires b < |s.stacks| && i < |s.stacks[b].idle|
  {
    var c := s.stacks[b].idle[i].connection;
    c in s.place && s.place[c] == InStack(b, i)
  }

  ghost predicate HeldFits(s: State, a: nat)
    requires a in s.held
  {
    s.held[a].backend < |s.stacks| && s.held[a].connection in s.place && s.place[s.held[a].connection] == WithAttempt(a)
  }

  ghost predicate PlaceFits(s: State, c: nat)
    requires c in s.place
  {
    match s.place[c]
    case InStack(b, i) => b < |s.stacks| && i < |s.stacks[b].idle| && s.stacks[b].idle[i].connection == c
    case WithAttempt(a) => a in s.held && s.held[a].connection == c
    case _ => true
  }

  /** Every connection is in exactly one place: at one position of one stack, with one attempt, being closed
      by a closed pool, or closed. */
  ghost predicate Owned(s: State) {
    && (forall b {:trigger StackFits(s, b)} :: 0 <= b < |s.stacks| ==> StackFits(s, b))
    && (forall a {:trigger HeldFits(s, a)} :: a in s.held ==> HeldFits(s, a))
    && (forall c {:trigger PlaceFits(s, c)} :: c in s.place ==> PlaceFits(s, c))
  }

  lemma StacksKept(s: State, step: Step, b: nat)
    requires Owned(s) && Enabled(s, step) && b < |s.stacks|
    ensures |Apply(s, step).stacks| == |s.stacks| && StackFits(Apply(s, step), b)
  {
    var t := Apply(s, step);
    assert StackFits(s, b);
    if step.Pop? {
      assert StackFits(s, step.backend);
      assert EntryFits(s, step.backend, |s.stacks[step.backend].idle| - 1);
    }
    if step.Recycle? || step.Abandon? { assert HeldFits(s, step.attempt); }
    forall i | 0 <= i < |t.stacks[b].idle| ensures EntryFits(t, b, i) {
      if i < |s.stacks[b].idle| { assert EntryFits(s, b, i); }
    }
  }

  lemma HeldKept(s: State, step: Step, a: nat)
    requires Owned(s) && Enabled(s, step) && a in Apply(s, step).held
    ensures HeldFits(Apply(s, step), a)
  {
    if a in s.held { assert HeldFits(s, a); }
    if step.Pop? {
      assert StackFits(s, step.backend);
      assert EntryFits(s, step.backend, |s.stacks[step.backend].idle| - 1);
    }
    if step.Recycle? || step.Abandon? { assert HeldFits(s, step.attempt); }
  }

  lemma PlaceKept(s: State, step: Step, c: nat)
    requires Owned(s) && Enabled(s, step) && c in Apply(s, step).place
    ensures PlaceFits(Apply(s, step), c)
  {
    if c in s.place { assert PlaceFits(s, c); }
    if step.Pop? {
      assert StackFits(s, step.backend);
      assert EntryFits(s, step.backend, |s.stacks[step.backend].idle| - 1);
    }
    if step.Recycle? || step.Abandon? { assert HeldFits(s, step.attempt); }
  }

  lemma OwnedKept(s: State, step: Step)
    requires Owned(s) && Enabled(s, step)
    ensures Owned(Apply(s, step))
  {
    hide StackFits, HeldFits, PlaceFits, Apply, Enabled;
    var t := Apply(s, step);
    assert |t.stacks| == |s.stacks| by { SameStacks(s, step); }
    forall b | 0 <= b < |t.stacks| ensures StackFits(t, b) { StacksKept(s, step, b); }
    forall a | a in t.held ensures HeldFits(t, a) { HeldKept(s, step, a); }
    forall c | c in t.place ensures PlaceFits(t, c) { PlaceKept(s, step, c); }
  }

  lemma SameStacks(s: State, step: Step)
    requires Enabled(s, step)
    ensures |Apply(s, step).stacks| == |s.stacks|
  {
  }

  lemma {:induction false} RunOwned(states: seq<State>, steps: seq<Step>, i: nat)
    requires Run(states, steps) && i < |states|
    ensures Owned(states[i])
  {
    if i > 0 {
      RunOwned(states, steps, i - 1);
      assert Follows(states[i - 1], steps[i - 1], states[i]);
      OwnedKept(states[i - 1], steps[i - 1]);
    }
  }

  ghost predicate IdleAt(s: State, c: nat, b: nat, i: nat) {
    b < |s.stacks| && i < |s.stacks[b].idle| && s.stacks[b].idle[i].connection == c
  }

  /** Exclusive ownership in every run: no connection is in two stacks, twice in one, with two attempts, or
      idle while an attempt uses it; stacks stay within their bound and empty once their pool is closed. */
  lemma ExclusiveOwnership(states: seq<State>, steps: seq<Step>, i: nat)
    requires Run(states, steps) && i < |states|
    ensures var s := states[i];
            && (forall c, b, k, b', k' :: IdleAt(s, c, b, k) && IdleAt(s, c, b', k') ==> b == b' && k == k')
            && (forall a, a' :: a in s.held && a' in s.held && s.held[a].connection == s.held[a'].connection ==> a == a')
            && (forall a, b, k :: a in s.held ==> !IdleAt(s, s.held[a].connection, b, k))
            && (forall b :: 0 <= b < |s.stacks| ==>
                  |s.stacks[b].idle| <= s.maximum && (s.stacks[b].closed ==> s.stacks[b].idle == []))
  {
    var s := states[i];
    RunOwned(states, steps, i);
    hide Run;
    forall c, b, k | IdleAt(s, c, b, k) ensures c in s.place && s.place[c] == InStack(b, k) {
      assert StackFits(s, b) && EntryFits(s, b, k);
    }
    forall a | a in s.held
      ensures s.held[a].connection in s.place && s.place[s.held[a].connection] == WithAttempt(a)
    {
      assert HeldFits(s, a);
    }
    forall b: nat | b < |s.stacks|
      ensures |s.stacks[b].idle| <= s.maximum && (s.stacks[b].closed ==> s.stacks[b].idle == [])
    {
      assert StackFits(s, b);
    }
  }

  /** A connection handed out from a stack was idle there, had not expired and came from an open pool. */
  lemma ReusedIsFresh(states: seq<State>, steps: seq<Step>, i: nat)
    requires Run(states, steps) && i < |steps| && steps[i].Pop? && steps[i].attempt in states[i + 1].held
    ensures var s, Pop(a, b, now) := states[i], steps[i];
            && b < |s.stacks| && !s.stacks[b].closed && s.stacks[b].idle != []
            && var entry := s.stacks[b].idle[|s.stacks[b].idle| - 1];
               states[i + 1].held[a] == Held(b, entry.connection) && now - entry.since < s.timeout
  {
    assert Follows(states[i], steps[i], states[i + 1]);
  }

  /** A recycled connection goes on top of its backend's stack exactly when the pool is open and below its bound;
      otherwise the stack stays as it is and the connection is closed. */
  lemma RecycledIsStored(states: seq<State>, steps: seq<Step>, i: nat)
    requires Run(states, steps) && i < |steps| && steps[i].Recycle? && steps[i].attempt in states[i].held
    ensures var s, t := states[i], states[i + 1];
            var Held(b, c) := s.held[steps[i].attempt];
            && b < |s.stacks| && b < |t.stacks| && c in t.place
            && (if !s.stacks[b].closed && |s.stacks[b].idle| < s.maximum
                then t.stacks[b].idle == s.stacks[b].idle + [Entry(c, steps[i].now)]
                else t.stacks[b].idle == s.stacks[b].idle && t.place[c] == Closed)
  {
    assert Follows(states[i], steps[i], states[i + 1]);
  }

  /** When an attempt gives its connection up it ends idle in its own backend's stack or closed. */
  lemma AttemptEndsCleanly(states: seq<State>, steps: seq<Step>, i: nat, a: nat)
    requires Run(states, steps) && i < |steps| && a in states[i].held && a !in states[i + 1].held
    ensures var c := states[i].held[a].connection;
            && c in states[i + 1].place
            && (states[i + 1].place[c] == Closed
                || (states[i + 1].place[c].InStack? && states[i + 1].place[c].backend == states[i].held[a].backend))
  {
    assert Follows(states[i], steps[i], states[i + 1]);
  }

  /** Closed connections stay closed, and a closed pool stays closed. */
  lemma ClosedStays(states: seq<State>, steps: seq<Step>, i: nat, c: nat, b: nat)
    requires Run(states, steps) && i < |steps|
    ensures c in states[i].place && states[i].place[c] == Closed ==>
              c in states[i + 1].place && states[i + 1].place[c] == Closed
    ensures c in states[i].shut ==> c in states[i + 1].shut
    ensures b < |states[i].stacks| && states[i].stacks[b].closed ==>
              b < |states[i + 1].stacks| && states[i + 1].stacks[b].closed
  {
    RunOwned(states, steps, i);
    var s, step := states[i], steps[i];
    assert Follows(s, step, states[i + 1]);
    hide Run;
    if step.Pop? {
      assert StackFits(s, step.backend);
      assert EntryFits(s, step.backend, |s.stacks[step.backend].idle| - 1);
    }
    if step.Recycle? || step.Abandon? { assert HeldFits(s, step.attempt); }
  }

  // ----- Connections closed under their owner -----

  ghost predicate OwnedNow(s: State, c: nat) {
    (exists b, k :: IdleAt(s, c, b, k)) || (exists a :: a in s.held && s.held[a].connection == c)
  }

  /** The attempt takes the connection, and its closer starts to watch it. */
  predicate Acquires(s: State, step: Step, a: nat, c: nat)
    requires Enabled(s, step)
  {
    (step.Pop? || step.Dial?) && step.attempt == a && a in Apply(s, step).held && Apply(s, step).held[a].connection == c
  }

  predicate Fires(s: State, step: Step, c: nat) {
    step.CloserFires? && step.attempt in s.watch && s.watch[step.attempt] == c
  }

  /** The step calls Close on the connection. */
  predicate Closes(s: State, step: Step, c: nat)
    requires Enabled(s, step)
  {
    match step
    case Pop(_, b, now) =>
      var entry := s.stacks[b].idle[|s.stacks[b].idle| - 1];
      entry.connection == c && Expired(entry, s.timeout, now)
    case Recycle(a, _) =>
      var stack := s.stacks[s.held[a].backend];
      s.held[a].connection == c && (stack.closed || |stack.idle| >= s.maximum)
    case Abandon(a) => s.held[a].connection == c
    case CloseOne(d) => d == c
    case CloserFires(_) => Fires(s, step, c)
    case _ => false
  }

  ghost predicate ClosedAt(states: seq<State>, steps: seq<Step>, j: nat, c: nat)
    requires Run(states, steps) && j < |steps|
  {
    Follows(states[j], steps[j], states[j + 1]) && Closes(states[j], steps[j], c)
  }

  /** An attempt took the connection at step k, and its closer fired at step j before it was stopped. */
  ghost predicate CloserWon(states: seq<State>, steps: seq<Step>, k: nat, j: nat, c: nat)
    requires Run(states, steps)
  {
    && k < j < |steps| && steps[j].CloserFires?
    && Enabled(states[k], steps[k]) && Acquires(states[k], steps[k], steps[j].attempt, c)
    && forall m :: k < m < j ==> steps[m] != StopWatch(steps[j].attempt)
  }

  /** A closer that still watches has watched since its attempt took the connection. */
  lemma {:induction false} WatchedSince(states: seq<State>, steps: seq<Step>, j: nat, a: nat) returns (k: nat)
    requires Run(states, steps) && j <= |steps| && a in states[j].watch
    ensures k < j && Enabled(states[k], steps[k]) && Acquires(states[k], steps[k], a, states[j].watch[a])
    ensures forall m :: k < m < j ==> steps[m] != StopWatch(a)
  {
    assert j > 0;
    var s, step := states[j - 1], steps[j - 1];
    assert Follows(s, step, states[j]);
    if a in s.watch {
      k := WatchedSince(states, steps, j - 1, a);
    } else {
      k := j - 1;
    }
  }

  /** Conversely, until it is stopped the closer keeps watching. */
  lemma {:induction false} WatchLasts(states: seq<State>, steps: seq<Step>, k: nat, j: nat, a: nat, c: nat)
    requires Run(states, steps) && k < j <= |steps|
    requires Enabled(states[k], steps[k]) && Acquires(states[k], steps[k], a, c)
    requires forall m :: k < m < j ==> steps[m] != StopWatch(a)
    ensures a in states[j].watch && states[j].watch[a] == c
    decreases j - k
  {
    assert Follows(states[j - 1], steps[j - 1], states[j]);
    if j > k + 1 { WatchLasts(states, steps, k, j - 1, a, c); }
  }

  lemma {:induction false} ShutByCloser(states: seq<State>, steps: seq<Step>, i: nat, c: nat)
    requires Run(states, steps) && i < |states|
    ensures c in states[i].shut <==> exists j :: 0 <= j < i && Fires(states[j], steps[j], c)
  {
    if i > 0 {
      ShutByCloser(states, steps, i - 1, c);
      assert Follows(states[i - 1], steps[i - 1], states[i]);
      assert c in states[i].shut <==> c in states[i - 1].shut || Fires(states[i - 1], steps[i - 1], c);
    }
  }

  lemma {:induction false} ClosedForGood(states: seq<State>, steps: seq<Step>, j: nat, i: nat, c: nat)
    requires Run(states, steps) && j <= i < |states| && c in states[j].place && states[j].place[c] == Closed
    ensures c in states[i].place && states[i].place[c] == Closed
    decreases i - j
  {
    hide Run;
    RunLength(states, steps);
    if j < i {
      ClosedForGood(states, steps, j, i - 1, c);
      ClosedStays(states, steps, i - 1, c, 0);
    }
  }

  lemma RunLength(states: seq<State>, steps: seq<Step>)
    requires Run(states, steps)
    ensures |states| == |steps| + 1
  {
  }

  lemma OwnedIsPlaced(s: State, c: nat)
    requires Owned(s) && OwnedNow(s, c)
    ensures c in s.place && s.place[c] != Closed
  {
    if b, k :| IdleAt(s, c, b, k) {
      assert StackFits(s, b) && EntryFits(s, b, k);
    } else {
      var a :| a in s.held && s.held[a].connection == c;
      assert HeldFits(s, a);
    }
  }

  /** Every close but a cancellation closer's ends the ownership for good. */
  lemma OnlyCloserClosesOwned(states: seq<State>, steps: seq<Step>, j: nat, i: nat, c: nat)
    requires Run(states, steps) && j < i < |states| && ClosedAt(states, steps, j, c) && OwnedNow(states[i], c)
    ensures Fires(states[j], steps[j], c)
  {
    if !Fires(states[j], steps[j], c) {
      RunOwned(states, steps, j);
      RunOwned(states, steps, i);
      OwnedIsPlaced(states[i], c);
      assert c in states[j + 1].place && states[j + 1].place[c] == Closed;
      ClosedForGood(states, steps, j + 1, i, c);
    }
  }

  /** Exactly when a connection that is idle or in use has been closed: when a closer of an attempt that took it
      fired before that attempt stopped it. No other close ever reaches an owned connection. */
  lemma ClosedWhileOwned(states: seq<State>, steps: seq<Step>, i: nat, c: nat)
    requires Run(states, steps) && i < |states| && OwnedNow(states[i], c)
    ensures (exists j :: 0 <= j < i && ClosedAt(states, steps, j, c)) <==> c in states[i].shut
    ensures c in states[i].shut <==> exists k, j :: 0 <= k < j < i && CloserWon(states, steps, k, j, c)
  {
    ShutByCloser(states, steps, i, c);
    hide OwnedNow, Apply, Enabled;
    if j :| 0 <= j < i && ClosedAt(states, steps, j, c) {
      OnlyCloserClosesOwned(states, steps, j, i, c);
    }
    if c in states[i].shut {
      var j :| 0 <= j < i && Fires(states[j], steps[j], c);
      assert Follows(states[j], steps[j], states[j + 1]);
      assert ClosedAt(states, steps, j, c);
      var k := WatchedSince(states, steps, j, steps[j].attempt);
      assert CloserWon(states, steps, k, j, c);
    }
    if k, j :| 0 <= k < j < i && CloserWon(states, steps, k, j, c) {
      WatchLasts(states, steps, k, j, steps[j].attempt, c);
      assert Fires(states[j], steps[j], c);
    }
  }

  // ----- It happens -----

  lemma Extend(states: seq<State>, steps: seq<Step>, step: Step) returns (states': seq<State>, steps': seq<Step>)
    requires Run(states, steps) && Enabled(states[|steps|], step)
    ensures Run(states', steps') && states'[0] == states[0] && steps' == steps + [step]
    ensures |states'| == |steps'| + 1 && states'[|steps'|] == Apply(states[|steps|], step)
  {
    hide Enabled, Apply;
    states', steps' := states + [Apply(states[|steps|], step)], steps + [step];
    forall i | 0 <= i < |steps'| ensures Follows(states'[i], steps'[i], states'[i + 1]) {
      if i < |steps| { assert Follows(states[i], steps[i], states[i + 1]); }
    }
  }

  /** One attempt dials and recycles; its closer has not been stopped yet. */
  lemma RecycledRun(maximum: nat, timeout: int) returns (states: seq<State>, steps: seq<Step>)
    requires maximum > 0
    ensures Run(states, steps) && states[0] == Initial(maximum, timeout, 1) && steps == [Dial(0, 0, 0), Recycle(0, 0)]
    ensures states[|steps|] == State(maximum, timeout, [Stack([Entry(0, 0)], false)], map[], map[0 := InStack(0, 0)],
                                     map[0 := 0], {})
  {
    states, steps := [Initial(maximum, timeout, 1)], [];
    states, steps := Extend(states, steps, Dial(0, 0, 0));
    assert states[1].stacks == [Stack([], false)] && states[1].watch == map[0 := 0];
    states, steps := Extend(states, steps, Recycle(0, 0));
    var s := states[2];
    assert [] + [Entry(0, 0)] == [Entry(0, 0)];
    assert s.stacks[0] == Stack([Entry(0, 0)], false);
    assert s.held == map[] && s.place == map[0 := InStack(0, 0)] && s.stacks == [Stack([Entry(0, 0)], false)];
  }

  /** A connection can sit closed in the idle stack, under every configuration that keeps idle connections. */
  lemma IdleCanBeShut(maximum: nat, timeout: int) returns (states: seq<State>, steps: seq<Step>)
    requires maximum > 0
    ensures Run(states, steps) && states[0] == Initial(maximum, timeout, 1)
    ensures IdleAt(states[|steps|], 0, 0, 0) && 0 in states[|steps|].shut
  {
    hide Run;
    states, steps := RecycledRun(maximum, timeout);
    states, steps := Extend(states, steps, CloserFires(0));
  }

  /** The closer of an earlier attempt can close a connection under the attempt that reuses it. */
  lemma ReusedCanBeShut(maximum: nat, timeout: int) returns (states: seq<State>, steps: seq<Step>)
    requires maximum > 0 && timeout > 0
    ensures Run(states, steps) && states[0] == Initial(maximum, timeout, 1)
    ensures var s := states[|steps|]; 1 in s.held && s.held[1].connection == 0 && 0 in s.shut
    ensures forall j :: 0 <= j < |steps| ==> steps[j] != CloserFires(1)
  {
    hide Run;
    states, steps := RecycledRun(maximum, timeout);
    states, steps := Extend(states, steps, Pop(1, 0, 0));
    states, steps := Extend(states, steps, CloserFires(0));
  }
}
