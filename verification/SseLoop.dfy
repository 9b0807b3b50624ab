/** The sending loops of one SSE request: replay of the snapshot, then the events received live. */
module SseLoop {
  import opened EventLedger
  import opened EventStream

  /** Emits each event in turn. */
  function EmitAll(sub: Subscriber, events: seq<Event>): Subscriber
    decreases |events|
  {
    if events == [] then sub else EmitAll(Emit(sub, events[0]), events[1..])
  }

  lemma {:induction false} EmitAllSnoc(sub: Subscriber, events: seq<Event>, event: Event)
    ensures EmitAll(sub, events + [event]) == Emit(EmitAll(sub, events), event)
    decreases |events|
  {
    hide Emit;
    if events != [] {
      assert (events + [event])[0] == events[0] && (events + [event])[1..] == events[1..] + [event];
      EmitAllSnoc(Emit(sub, events[0]), events[1..], event);
    } else {
      assert ([event])[1..] == [];
    }
  }

  /** A piece of the log is sent from the last sent event on: nothing is repeated and nothing is skipped. */
  lemma {:induction false} EmitPiece(log: seq<Event>, a: nat, b: nat, sub: Subscriber)
    requires Numbered(log) && a <= b <= |log|
    ensures var r := EmitAll(sub, log[a..b]);
            && r.sent == sub.sent + (if Max(a, sub.lastSent) < b then log[Max(a, sub.lastSent)..b] else [])
            && r.lastSent == (if a < b then Max(b, sub.lastSent) else sub.lastSent)
    decreases b
  {
    hide EmitAll, Numbered;
    if a < b {
      var from := Max(a, sub.lastSent);
      PieceSnoc(log, a, b);
      EmitAllSnoc(sub, log[a..b - 1], log[b - 1]);
      EmitPiece(log, a, b - 1, sub);
      if from < b { PieceSnoc(log, from, b); }
    } else {
      EmitNothing(log, a, sub);
    }
  }

  lemma PieceSnoc(log: seq<Event>, a: nat, b: nat)
    requires Numbered(log) && a < b <= |log|
    ensures log[a..b] == log[a..b - 1] + [log[b - 1]] && log[b - 1].sequence == b
    ensures a == b - 1 ==> log[a..b - 1] == []
  {
  }

  lemma EmitNothing(log: seq<Event>, a: nat, sub: Subscriber)
    requires a <= |log|
    ensures EmitAll(sub, log[a..a]) == sub && sub.sent + [] == sub.sent
  {
    assert log[a..a] == [];
  }

  function StartOf(snapshot: Snapshot, after: nat): Subscriber {
    Subscriber(Live, after, [], false, StartCursor(snapshot, after), [], 0, 0, 0)
  }

  lemma Join(log: seq<Event>, a: nat, b: nat, c: nat)
    requires a <= b <= c <= |log|
    ensures log[a..b] + log[b..c] == log[a..c]
  {
  }

  /** Registration precedes the snapshot (`since <= seen`), so a snapshot taken when the log had `seen` events
      followed by the queued events `since..end` sends one gap-free piece of the log. */
  lemma ReplayThenLive(log: seq<Event>, capacity: nat, after: nat, since: nat, seen: nat, end: nat)
    requires Numbered(log) && capacity > 0 && since <= seen <= |log| && since <= end <= |log|
    ensures var snapshot := SnapshotOf(log[..seen], capacity, after);
            var r := EmitAll(EmitAll(StartOf(snapshot, after), snapshot.events), log[since..end]);
            var first, last := First(seen, capacity, after), Max(seen, end);
            r.sent == if first < last then log[first..last] else []
  {
    hide EmitAll, SnapshotOf, StartCursor, Numbered;
    var snapshot := SnapshotOf(log[..seen], capacity, after);
    var start, first := StartOf(snapshot, after), First(seen, capacity, after);
    SnapshotBegins(log[..seen], capacity, after);
    if seen > 0 {
      assert log[..seen][first..] == log[first..seen];
      EmitPiece(log, first, seen, start);
    } else {
      EmitPiece(log, 0, 0, start);
      assert log[0..0] == [];
    }
    var middle := EmitAll(start, snapshot.events);
    EmitPiece(log, since, end, middle);
    if first < seen && seen < end { Join(log, first, seen, end); }
  }

  /** The two loops of the stream; the events sent do not depend on how replay and live events overlap. */
  method ServeEvents(snapshot: Snapshot, after: nat, live: seq<Event>) returns (sent: seq<Event>, lastSent: nat)
    ensures var r := EmitAll(EmitAll(StartOf(snapshot, after), snapshot.events), live);
            sent == r.sent && lastSent == r.lastSent
  {
    sent, lastSent := [], after;
    if snapshot.gap && after > snapshot.latest && snapshot.oldest > 0 {
      lastSent := snapshot.oldest - 1;
    }
    ghost var start := StartOf(snapshot, after);
    for i := 0 to |snapshot.events|
      invariant var r := EmitAll(start, snapshot.events[..i]); sent == r.sent && lastSent == r.lastSent
    {
      var event := snapshot.events[i];
      assert snapshot.events[..i + 1] == snapshot.events[..i] + [event];
      EmitAllSnoc(start, snapshot.events[..i], event);
      if event.sequence <= lastSent { continue; }
      sent := sent + [event];
      lastSent := event.sequence;
    }
    assert snapshot.events[..|snapshot.events|] == snapshot.events;
    ghost var middle := EmitAll(start, snapshot.events);
    for i := 0 to |live|
      invariant var r := EmitAll(middle, live[..i]); sent == r.sent && lastSent == r.lastSent
    {
      var event := live[i];
      assert live[..i + 1] == live[..i] + [event];
      EmitAllSnoc(middle, live[..i], event);
      if event.sequence <= lastSent { continue; }
      sent := sent + [event];
      lastSent := event.sequence;
    }
    assert live[..|live|] == live;
  }
}
