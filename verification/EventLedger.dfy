/** The causal ledger: a fixed ring of events that refines an unbounded log. */
module EventLedger {

  datatype Event = Event(sequence: nat, elapsedMicros: nat, detail: string)

  function Min(a: int, b: int): int { if a <= b then a else b }

  function Max(a: int, b: int): int { if a >= b then a else b }

  // ----- The log the ring stands for -----

  /** Sequence numbers count from one without holes. */
  ghost predicate Numbered(log: seq<Event>) {
    forall k :: 0 <= k < |log| ==> log[k].sequence == k + 1
  }

  datatype Snapshot = Snapshot(capacity: nat, count: nat, oldest: nat, latest: nat, gap: bool, events: seq<Event>)

  /** How many events a ring of this capacity retains of a log of length `n`. */
  function Retained(n: nat, capacity: nat): nat { Min(n, capacity) }

  function OldestRetained(n: nat, capacity: nat): nat { n - Retained(n, capacity) + 1 }

  /** What a reader with cursor `after` is shown of the log. */
  function SnapshotOf(log: seq<Event>, capacity: nat, after: nat): Snapshot {
    var n := |log|;
    var count := Retained(n, capacity);
    if count == 0 then Snapshot(capacity, 0, 0, 0, false, [])
    else
      var oldest := OldestRetained(n, capacity);
      var from := if after > n then oldest - 1 else Max(after, oldest - 1);
      Snapshot(capacity, count, oldest, n, after > n || (after != 0 && after < oldest - 1), log[from..])
  }

  /** A snapshot tells how many events are retained and the first and last of their sequence numbers. */
  lemma SnapshotTells(log: seq<Event>, capacity: nat, after: nat)
    requires Numbered(log) && capacity > 0
    ensures var snapshot := SnapshotOf(log, capacity, after);
            && snapshot.capacity == capacity
            && snapshot.count == (if |log| < capacity then |log| else capacity)
            && (log != [] ==> snapshot.latest == log[|log| - 1].sequence
                              && snapshot.oldest == log[|log| - snapshot.count].sequence)
  {
  }

  /** Exactly the retained events after the cursor are shown, all of them for a cursor in the future. */
  lemma SnapshotShows(log: seq<Event>, capacity: nat, after: nat, event: Event)
    requires Numbered(log) && capacity > 0 && log != []
    ensures event in SnapshotOf(log, capacity, after).events <==>
              && event in log
              && event.sequence >= OldestRetained(|log|, capacity)
              && (event.sequence > after || after > |log|)
  {
    var events := SnapshotOf(log, capacity, after).events;
    if event in log {
      var k :| 0 <= k < |log| && log[k] == event;
      var from := |log| - |events|;
      if k >= from { assert events[k - from] == event; }
    }
    if event in events {
      var j :| 0 <= j < |events| && events[j] == event;
      assert log[|log| - |events| + j] == event;
    }
  }

  /** For a non-zero cursor a gap is reported exactly when the cursor lies in the future of a non-empty
      ledger or some event after it was already evicted. */
  lemma GapMeans(log: seq<Event>, capacity: nat, after: nat)
    requires Numbered(log) && capacity > 0 && after > 0
    ensures SnapshotOf(log, capacity, after).gap <==>
              log != [] && (after > |log|
                            || exists k :: 0 <= k < |log| && log[k].sequence > after
                                           && log[k].sequence < OldestRetained(|log|, capacity))
  {
    if log != [] && after + 1 < OldestRetained(|log|, capacity) {
      assert log[after].sequence == after + 1;
    }
  }

  /** On an empty ledger a future cursor reports no gap, although it points past every event. */
  lemma EmptyLedgerHidesGap(capacity: nat, after: nat)
    ensures !SnapshotOf([], capacity, after).gap && SnapshotOf([], capacity, after).events == []
  {
  }

  // ----- The ring -----

  function Slot(start: nat, offset: nat, length: nat): (slot: nat)
    requires length > 0
  {
    (start + offset) % length
  }

  lemma SlotIs(start: nat, offset: nat, length: nat)
    requires start < length && offset <= length
    ensures Slot(start, offset, length) == if start + offset < length then start + offset else start + offset - length
  {
  }

  /** The i-th retained event of a ring, oldest first. */
  function RingAt(ring: seq<Event>, start: nat, i: nat): Event
    requires start < |ring| && i < |ring|
  {
    if start + i < |ring| then ring[start + i] else ring[start + i - |ring|]
  }

  /** The ring holds exactly the last min(|log|, capacity) events of the log. */
  ghost predicate Holds(ring: seq<Event>, start: nat, count: nat, log: seq<Event>) {
    && start < |ring| && count == Retained(|log|, |ring|) && (count < |ring| ==> start == 0)
    && forall i :: 0 <= i < count ==> RingAt(ring, start, i) == log[|log| - count + i]
  }

  lemma HoldsWithRoom(ring: seq<Event>, start: nat, count: nat, log: seq<Event>, event: Event)
    requires Holds(ring, start, count, log) && count < |ring|
    ensures Holds(ring[count := event], start, count + 1, log + [event])
  {
    var ring', log' := ring[count := event], log + [event];
    forall i | 0 <= i < count + 1
      ensures RingAt(ring', start, i) == log'[|log'| - (count + 1) + i]
    {
      if i < count { assert RingAt(ring', start, i) == RingAt(ring, start, i); }
    }
  }

  lemma HoldsWhenFull(ring: seq<Event>, start: nat, count: nat, log: seq<Event>, event: Event)
    requires Holds(ring, start, count, log) && count == |ring|
    ensures Holds(ring[start := event], if start + 1 < |ring| then start + 1 else 0, count, log + [event])
  {
    var next := if start + 1 < |ring| then start + 1 else 0;
    var ring', log' := ring[start := event], log + [event];
    forall i | 0 <= i < count
      ensures RingAt(ring', next, i) == log'[|log'| - count + i]
    {
      if i < count - 1 { assert RingAt(ring', next, i) == RingAt(ring, start, i + 1); }
    }
    assert Holds(ring', next, count, log');
  }

  class Ledger {
    var entries: array<Event>
    var start: nat
    var count: nat
    var sequence: nat
    ghost var log: seq<Event>   // every event ever appended

    constructor (capacity: nat)
      requires capacity > 0
      ensures Valid() && fresh(entries) && entries.Length == capacity && log == []
    {
      entries := new Event[capacity](_ => Event(0, 0, ""));
      start, count, sequence, log := 0, 0, 0, [];
    }

    ghost predicate Valid()
      reads this, entries
    {
      && sequence == |log| && Numbered(log)
      && Holds(entries[..], start, count, log)
    }

    method Append(detail: string, elapsedMicros: int) returns (event: Event)
      requires Valid()
      modifies this`start, this`count, this`sequence, this`log, entries
      ensures Valid()
      ensures event == Event(|old(log)| + 1, Max(elapsedMicros, 0), detail)
      ensures log == old(log) + [event]
      ensures count == if |log| < entries.Length then |log| else entries.Length
    {
      sequence := sequence + 1;
      event := Event(sequence, Max(elapsedMicros, 0), detail);
      if count < entries.Length {
        var index := Slot(start, count, entries.Length);
        SlotIs(start, count, entries.Length);
        HoldsWithRoom(entries[..], start, count, log, event);
        entries[index] := event;
        count := count + 1;
      } else {
        HoldsWhenFull(entries[..], start, count, log, event);
        SlotIs(start, 1, entries.Length);
        entries[start] := event;
        start := Slot(start, 1, entries.Length);
      }
      hide Holds;
      log := log + [event];
    }

    method SnapshotSince(after: nat) returns (snapshot: Snapshot)
      requires Valid()
      ensures snapshot == SnapshotOf(log, entries.Length, after)
    {
      if count == 0 { return Snapshot(entries.Length, 0, 0, 0, false, []); }
      var first := Entry(0);
      var last := Entry(count - 1);
      var future := after > last.sequence;
      var gap := future || (after != 0 && first.sequence > 1 && after < first.sequence - 1);
      var effective := if future then first.sequence - 1 else after;
      var events := EventsAfter(effective);
      return Snapshot(entries.Length, count, first.sequence, last.sequence, gap, events);
    }

    method Entry(offset: nat) returns (event: Event)
      requires Valid() && offset < count
      ensures event == log[|log| - count + offset]
    {
      SlotIs(start, offset, entries.Length);
      event := entries[Slot(start, offset, entries.Length)];
      assert event == RingAt(entries[..], start, offset);
    }

    method EventsAfter(effective: nat) returns (events: seq<Event>)
      requires Valid() && effective <= |log|
      ensures events == log[Max(effective, |log| - count)..]
    {
      events := [];
      ghost var first := |log| - count;
      ghost var from := Max(effective, first);
      for offset := 0 to count
        invariant events == if first + offset <= from then [] else log[from..first + offset]
      {
        var event := Entry(offset);
        if event.sequence > effective { events := events + [event]; }
      }
      assert log[from..|log|] == log[from..];
    }
  }
}
