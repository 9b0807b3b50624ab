/** Passive trips and active health as properties of the recorded history, not of the counters. */
module HealthHistory {
  import opened Circuit

  // ----- Passive outcomes while the circuit is closed -----

  datatype Sample = Sample(failed: bool, at: int)

  function OutcomeOf(sample: Sample): Outcome { if sample.failed then Failure else Success }

  /** The state after recording `history` one by one while the circuit is closed. */
  function Replay(core: Core, policy: Policy, history: seq<Sample>): Core {
    if history == [] then core
    else
      var last := history[|history| - 1];
      RecordClosed(Replay(core, policy, history[..|history| - 1]), policy, OutcomeOf(last), last.at)
  }

  /** No prefix of the history trips the circuit. */
  ghost predicate Quiet(core: Core, policy: Policy, history: seq<Sample>) {
    forall n :: 0 <= n <= |history| ==> Replay(core, policy, history[..n]).circuit == Closed
  }

  /** A window that has counted nothing yet. */
  predicate EmptyWindow(core: Core) { core.circuit == Closed && core.passiveFailures == 0 }

  /** When the current window started, from the history alone: at the last success, or at the first failure
      that came a full interval after the previous start. */
  function WindowStart(first: Moment, interval: int, history: seq<Sample>): Moment {
    if history == [] then first
    else
      var last, before := history[|history| - 1], WindowStart(first, interval, history[..|history| - 1]);
      if !last.failed || Expires(before, interval, last.at) then At(last.at) else before
  }

  predicate Expires(start: Moment, interval: int, at: int) {
    start.Never? || at - start.t >= interval
  }

  /** Sample k starts a new window: it is a success, or the previous window had expired. */
  predicate ResetsAt(first: Moment, interval: int, history: seq<Sample>, k: nat)
    requires k < |history|
  {
    !history[k].failed || Expires(WindowStart(first, interval, history[..k]), interval, history[k].at)
  }

  /** Samples from m on are exactly the failures counted in the current window. */
  ghost predicate CountedFrom(first: Moment, interval: int, history: seq<Sample>, m: nat)
    requires m <= |history|
  {
    && (forall k :: m <= k < |history| ==> history[k].failed)
    && (forall k :: m < k < |history| ==> !ResetsAt(first, interval, history, k))
    && (m == 0 || !history[m - 1].failed || (m < |history| && ResetsAt(first, interval, history, m)))
  }

  lemma ResetsInPrefix(first: Moment, interval: int, history: seq<Sample>, n: nat, k: nat)
    requires k < n <= |history|
    ensures ResetsAt(first, interval, history[..n], k) == ResetsAt(first, interval, history, k)
  {
    assert history[..n][..k] == history[..k];
  }

  /** What one sample does to the window of a circuit that stays closed. */
  lemma SampleInWindow(core: Core, policy: Policy, sample: Sample)
    requires core.circuit == Closed && RecordClosed(core, policy, OutcomeOf(sample), sample.at).circuit == Closed
    ensures var after := RecordClosed(core, policy, OutcomeOf(sample), sample.at);
            var expires := Expires(core.windowStart, policy.passiveInterval, sample.at);
            && after.windowStart == (if !sample.failed || expires then At(sample.at) else core.windowStart)
            && after.passiveFailures == (if !sample.failed then 0 else if expires then 1 else core.passiveFailures + 1)
  {
  }

  /** Where the counted failures begin once one more sample is in. */
  function NextCounted(first: Moment, interval: int, history: seq<Sample>, sample: Sample, m: nat): nat {
    if !sample.failed then |history| + 1
    else if Expires(WindowStart(first, interval, history), interval, sample.at) then |history|
    else m
  }

  lemma CountedAfter(first: Moment, interval: int, history: seq<Sample>, sample: Sample, m: nat)
    requires m <= |history| && CountedFrom(first, interval, history, m)
    ensures NextCounted(first, interval, history, sample, m) <= |history| + 1
    ensures CountedFrom(first, interval, history + [sample], NextCounted(first, interval, history, sample, m))
  {
    hide WindowStart, Expires;
    var whole := history + [sample];
    assert whole[..|history|] == history;
    forall k: nat | k < |history|
      ensures ResetsAt(first, interval, whole, k) == ResetsAt(first, interval, history, k)
    {
      ResetsInPrefix(first, interval, whole, |history|, k);
    }
  }

  /** The failure counter is the number of failures since the last success, expiry or transition. */
  lemma {:induction false} CounterIsHistory(core: Core, policy: Policy, history: seq<Sample>) returns (m: nat)
    requires EmptyWindow(core) && Quiet(core, policy, history)
    ensures m <= |history| && CountedFrom(core.windowStart, policy.passiveInterval, history, m)
    ensures Replay(core, policy, history).passiveFailures == |history| - m
    ensures Replay(core, policy, history).windowStart == WindowStart(core.windowStart, policy.passiveInterval, history)
  {
    var n := |history|;
    if n == 0 { return 0; }
    var before, last := history[..n - 1], history[n - 1];
    assert history[..n] == history && before[..n - 1] == before && history == before + [last];
    QuietPrefix(core, policy, history, n - 1);
    assert Replay(core, policy, history[..n]).circuit == Closed && Replay(core, policy, before[..n - 1]).circuit == Closed;
    SampleInWindow(Replay(core, policy, before), policy, last);
    var m0 := CounterIsHistory(core, policy, before);
    hide RecordClosed, Quiet, Expires, CountedFrom;
    CountedAfter(core.windowStart, policy.passiveInterval, before, last, m0);
    m := NextCounted(core.windowStart, policy.passiveInterval, before, last, m0);
  }

  lemma QuietPrefix(core: Core, policy: Policy, history: seq<Sample>, n: nat)
    requires Quiet(core, policy, history) && n <= |history|
    ensures Quiet(core, policy, history[..n])
  {
    forall k | 0 <= k <= n ensures Replay(core, policy, history[..n][..k]).circuit == Closed {
      assert history[..n][..k] == history[..k];
    }
  }

  /** Timestamps never go back, starting from the window's own start. */
  ghost predicate NonDecreasing(first: Moment, history: seq<Sample>) {
    && (forall i, j :: 0 <= i <= j < |history| ==> history[i].at <= history[j].at)
    && (first.At? ==> forall i :: 0 <= i < |history| ==> first.t <= history[i].at)
  }

  /** With non-decreasing timestamps, the counted failures span less than one interval. */
  lemma {:induction false} WindowIsShort(first: Moment, interval: int, history: seq<Sample>, m: nat, i: nat)
    requires interval > 0 && NonDecreasing(first, history) && m <= i < |history|
    requires CountedFrom(first, interval, history, m)
    ensures history[i].at - history[m].at < interval
    ensures var start := WindowStart(first, interval, history[..i + 1]);
            start.At? && start.t <= history[m].at && history[i].at - start.t < interval
    decreases i
  {
    assert history[..i + 1][..i] == history[..i];
    if i > m {
      assert !ResetsAt(first, interval, history, i);
      WindowIsShort(first, interval, history, m, i - 1);
      assert history[..i - 1 + 1] == history[..i];
    } else if m > 0 && !history[m - 1].failed {
      assert history[..m][..m - 1] == history[..m - 1];
      assert WindowStart(first, interval, history[..m]) == At(history[m - 1].at);
    }
  }

  /** A closed circuit opens exactly when the failures of the current window reach the threshold. */
  lemma PassiveTrip(core: Core, policy: Policy, history: seq<Sample>, sample: Sample) returns (m: nat)
    requires policy.Valid() && EmptyWindow(core) && Quiet(core, policy, history)
    ensures var whole := history + [sample];
            && m <= |whole| && CountedFrom(core.windowStart, policy.passiveInterval, whole, m)
            && (Replay(core, policy, whole).circuit == Open <==>
                  sample.failed && |whole| - m >= policy.passiveThreshold)
  {
    var whole := history + [sample];
    var m0 := CounterIsHistory(core, policy, history);
    assert whole[..|history|] == history && history[..|history|] == history;
    CountedAfter(core.windowStart, policy.passiveInterval, history, sample, m0);
    m := NextCounted(core.windowStart, policy.passiveInterval, history, sample, m0);
    assert Replay(core, policy, history[..|history|]).circuit == Closed;
    hide CountedFrom, Quiet;
  }

  /** The window is fixed, not sliding: enough failures close together need not trip the circuit when an
      expiry falls between them. */
  lemma WindowDoesNotSlide()
    ensures var policy := Policy(2, 10, 1, 1, 1, 1, 1, 1);
            var history := [Sample(false, 0), Sample(true, 9), Sample(true, 10)];
            policy.Valid() && Replay(FRESH, policy, history).circuit == Closed
            && history[2].at - history[1].at < policy.passiveInterval && history[1].failed && history[2].failed
  {
    var policy := Policy(2, 10, 1, 1, 1, 1, 1, 1);
    var a, b, c := Sample(false, 0), Sample(true, 9), Sample(true, 10);
    assert [a, b, c][..2] == [a, b] && [a, b][..1] == [a] && [a][..0] == [];
    assert Replay(FRESH, policy, [a]).windowStart == At(0);
    assert Replay(FRESH, policy, [a, b]).passiveFailures == 1;
  }

  // ----- Active probes -----

  function ReplayProbes(core: Core, policy: Policy, probes: seq<bool>): Core {
    if probes == [] then core
    else RecordActive(ReplayProbes(core, policy, probes[..|probes| - 1]), policy, probes[|probes| - 1])
  }

  /** The length of the run of equal results at the end. */
  function TrailingRun(probes: seq<bool>, result: bool): nat {
    if probes == [] || probes[|probes| - 1] != result then 0 else 1 + TrailingRun(probes[..|probes| - 1], result)
  }

  /** The `length` probes before position k all had this result. */
  predicate FullRun(probes: seq<bool>, k: nat, length: int, result: bool) {
    0 < length <= k <= |probes| && forall i :: k - length <= i < k ==> probes[i] == result
  }

  /** Every full run of failures was followed by a full run of successes. */
  ghost predicate Recovered(probes: seq<bool>, policy: Policy) {
    forall k: nat :: FullRun(probes, k, policy.activeFailureThreshold, false) ==> RecoveredAfter(probes, policy, k)
  }

  ghost predicate RecoveredAfter(probes: seq<bool>, policy: Policy, k: nat) {
    exists j: nat :: j > k && FullRun(probes, j, policy.activeSuccessThreshold, true)
  }

  lemma {:induction false} TrailingRunIsFull(probes: seq<bool>, result: bool, length: int)
    requires length > 0
    ensures TrailingRun(probes, result) >= length <==> FullRun(probes, |probes|, length, result)
    ensures TrailingRun(probes, result) <= |probes|
    decreases |probes|
  {
    if probes != [] {
      var before := probes[..|probes| - 1];
      if length > 1 {
        TrailingRunIsFull(before, result, length - 1);
        assert forall i :: 0 <= i < |before| ==> before[i] == probes[i];
      } else {
        TrailingRunIsFull(before, result, 1);
      }
    }
  }

  lemma FullRunInPrefix(probes: seq<bool>, n: nat, k: nat, length: int, result: bool)
    requires k <= n <= |probes|
    ensures FullRun(probes[..n], k, length, result) == FullRun(probes, k, length, result)
  {
    assert forall i :: 0 <= i < n ==> probes[..n][i] == probes[i];
  }

  /** The counters are the trailing runs of the probe history. */
  lemma {:induction false} ProbeCounters(policy: Policy, probes: seq<bool>)
    ensures ReplayProbes(FRESH, policy, probes).activeFailures == TrailingRun(probes, false)
    ensures ReplayProbes(FRESH, policy, probes).activeSuccesses == TrailingRun(probes, true)
  {
    if probes != [] { ProbeCounters(policy, probes[..|probes| - 1]); }
  }

  /** A backend is healthy exactly when every full-threshold run of failed probes was followed by a
      full-threshold run of successful ones; shorter runs never flip it. */
  lemma {:induction false} HealthIsHistory(policy: Policy, probes: seq<bool>)
    requires policy.Valid()
    ensures ReplayProbes(FRESH, policy, probes).healthy <==> Recovered(probes, policy)
  {
    var n := |probes|;
    if n > 0 {
      var before := probes[..n - 1];
      HealthIsHistory(policy, before);
      ProbeCounters(policy, before);
      ProbeCounters(policy, probes);
      TrailingRunIsFull(probes, true, policy.activeSuccessThreshold);
      TrailingRunIsFull(probes, false, policy.activeFailureThreshold);
      hide TrailingRun;
      if probes[n - 1] {
        RecoveryBySuccess(policy, probes);
      } else {
        RecoveryByFailure(policy, probes);
      }
    }
  }

  lemma RecoveryBySuccess(policy: Policy, probes: seq<bool>)
    requires policy.Valid() && probes != [] && probes[|probes| - 1]
    ensures Recovered(probes, policy) <==>
              Recovered(probes[..|probes| - 1], policy) || FullRun(probes, |probes|, policy.activeSuccessThreshold, true)
  {
    var n := |probes|;
    var before := probes[..n - 1];
    forall k: nat, length: int, result: bool | k <= n - 1
      ensures FullRun(before, k, length, result) == FullRun(probes, k, length, result)
    {
      FullRunInPrefix(probes, n - 1, k, length, result);
    }
    if Recovered(before, policy) {
      forall k: nat | FullRun(probes, k, policy.activeFailureThreshold, false) ensures RecoveredAfter(probes, policy, k) {
        assert k <= n - 1;
        assert RecoveredAfter(before, policy, k);
      }
    }
    if FullRun(probes, n, policy.activeSuccessThreshold, true) {
      forall k: nat | FullRun(probes, k, policy.activeFailureThreshold, false) ensures RecoveredAfter(probes, policy, k) {
        assert k < n;
      }
    } else if Recovered(probes, policy) {
      forall k: nat | FullRun(before, k, policy.activeFailureThreshold, false) ensures RecoveredAfter(before, policy, k) {
        assert RecoveredAfter(probes, policy, k);
        var j: nat :| j > k && FullRun(probes, j, policy.activeSuccessThreshold, true);
        assert FullRun(before, j, policy.activeSuccessThreshold, true);
      }
    }
  }

  lemma RecoveryByFailure(policy: Policy, probes: seq<bool>)
    requires policy.Valid() && probes != [] && !probes[|probes| - 1]
    ensures Recovered(probes, policy) <==>
              Recovered(probes[..|probes| - 1], policy)
              && !FullRun(probes, |probes|, policy.activeFailureThreshold, false)
  {
    var n := |probes|;
    var before := probes[..n - 1];
    forall k: nat, length: int, result: bool | k <= n - 1
      ensures FullRun(before, k, length, result) == FullRun(probes, k, length, result)
    {
      FullRunInPrefix(probes, n - 1, k, length, result);
    }
    assert !FullRun(probes, n, policy.activeSuccessThreshold, true);
    if Recovered(probes, policy) {
      assert !RecoveredAfter(probes, policy, n);
      forall k: nat | FullRun(before, k, policy.activeFailureThreshold, false) ensures RecoveredAfter(before, policy, k) {
        assert RecoveredAfter(probes, policy, k);
        var j: nat :| j > k && FullRun(probes, j, policy.activeSuccessThreshold, true);
        assert FullRun(before, j, policy.activeSuccessThreshold, true);
      }
    }
    if Recovered(before, policy) && !FullRun(probes, n, policy.activeFailureThreshold, false) {
      forall k: nat | FullRun(probes, k, policy.activeFailureThreshold, false) ensures RecoveredAfter(probes, policy, k) {
        assert RecoveredAfter(before, policy, k);
        var j: nat :| j > k && FullRun(before, j, policy.activeSuccessThreshold, true);
        assert FullRun(probes, j, policy.activeSuccessThreshold, true);
      }
    }
  }
}
