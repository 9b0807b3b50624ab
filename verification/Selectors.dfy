/** Candidate orders and the reservation that walks them. */
module Selectors {
  import opened Octets
  import opened Circuit

  // ----- Orders -----

  /** Round robin: all backends from `start` on, wrapping around. */
  function Rotated(n: nat, start: nat): (order: seq<nat>)
    requires start < n
    ensures |order| == n
  {
    seq(n, k requires 0 <= k < n => (start + k) % n)
  }

  /** The position of backend `b` in the rotated order. */
  function Rank(b: nat, n: nat, start: nat): int {
    if b >= start then b - start else b + n - start
  }

  lemma WrapsOnce(n: nat, x: nat)
    requires x < 2 * n
    ensures x % n == if x < n then x else x - n
  {
  }

  lemma RankOfRotated(n: nat, start: nat, k: nat)
    requires start < n && k < n
    ensures Rotated(n, start)[k] < n && Rank(Rotated(n, start)[k], n, start) == k
  {
    WrapsOnce(n, start + k);
  }

  ghost predicate Distinct<T>(s: seq<T>) {
    forall i, j :: 0 <= i < j < |s| ==> s[i] != s[j]
  }

  lemma RotatedIsDistinct(n: nat, start: nat)
    requires start < n
    ensures Distinct(Rotated(n, start)) && forall k :: 0 <= k < n ==> Rotated(n, start)[k] < n
  {
    forall k: nat | k < n ensures Rotated(n, start)[k] < n && Rank(Rotated(n, start)[k], n, start) == k {
      RankOfRotated(n, start, k);
    }
  }

  /** Element i moved down to position p, the elements between them shifted up. */
  function Moved(s: seq<nat>, p: nat, i: nat): (t: seq<nat>)
    requires p <= i < |s|
  {
    s[..p] + [s[i]] + s[p..i] + s[i + 1..]
  }

  lemma MovedPermutes(s: seq<nat>, p: nat, i: nat)
    requires p <= i < |s|
    ensures multiset(Moved(s, p, i)) == multiset(s) && |Moved(s, p, i)| == |s|
  {
    assert s == s[..p] + s[p..i] + [s[i]] + s[i + 1..];
  }

  /** A permutation of a distinct sequence below n is again one. */
  lemma PermutationKeeps(s: seq<nat>, t: seq<nat>, n: nat)
    requires multiset(s) == multiset(t) && Distinct(s) && forall k :: 0 <= k < |s| ==> s[k] < n
    ensures |t| == |s| && Distinct(t) && forall k :: 0 <= k < |t| ==> t[k] < n
  {
    assert |multiset(s)| == |s| && |multiset(t)| == |t|;
    forall k | 0 <= k < |t| ensures t[k] < n {
      assert t[k] in multiset(t);
      assert t[k] in s;
    }
    forall i, j | 0 <= i < j < |t| ensures t[i] != t[j] {
      if t[i] == t[j] {
        assert t == t[..i] + [t[i]] + t[i + 1..j] + [t[j]] + t[j + 1..];
        assert multiset(t)[t[i]] >= 2;
        OnceEach(s, t[i]);
      }
    }
  }

  lemma {:induction false} OnceEach(s: seq<nat>, x: nat)
    requires Distinct(s)
    ensures multiset(s)[x] <= 1
  {
    if s != [] {
      var before, last := s[..|s| - 1], s[|s| - 1];
      assert s == before + [last];
      OnceEach(before, x);
      if x == last {
        assert x !in before;
      }
    }
  }

  // ----- Least in flight -----

  /** In order by load and, for equal loads, by position in the rotation: sorted and stable. */
  predicate Before(load: nat -> int, n: nat, start: nat, a: nat, b: nat) {
    load(a) < load(b) || (load(a) == load(b) && Rank(a, n, start) < Rank(b, n, start))
  }

  ghost predicate SortedStable(s: seq<nat>, load: nat -> int, n: nat, start: nat) {
    forall i, j :: 0 <= i < j < |s| ==> Before(load, n, start, s[i], s[j])
  }

  /** Every read of every load returns the same value. */
  ghost predicate Steady(probe: (nat, nat) -> int, load: nat -> int) {
    forall r: nat, b: nat :: probe(r, b) == load(b)
  }

  /** One insertion: the value at position i moves down past the entries read as heavier. */
  method Insert(order: array<nat>, i: nat, probe: (nat, nat) -> int, clock: nat) returns (p: nat, clock': nat)
    requires 0 < i < order.Length
    modifies order
    ensures p <= i && order[..] == Moved(old(order[..]), p, i)
    ensures forall load: nat -> int :: Steady(probe, load) ==>
              && (forall k :: p <= k < i ==> load(old(order[k])) > load(old(order[i])))
              && (p > 0 ==> load(old(order[p - 1])) <= load(old(order[i])))
  {
    ghost var was := order[..];
    var value := order[i];
    var valueLoad := probe(clock, value);
    clock' := clock + 1;
    var j := i - 1;
    var heavier := true;
    while j >= 0 && heavier
      invariant -1 <= j < i
      invariant forall k :: 0 <= k <= j || i < k < order.Length ==> order[k] == was[k]
      invariant forall k :: j + 1 < k <= i ==> order[k] == was[k - 1]
      invariant heavier ==> j < 0 || order[j] == was[j]
      invariant forall load: nat -> int :: Steady(probe, load) ==>
                  && (forall k :: j < k < i ==> load(was[k]) > load(value))
                  && (!heavier && j >= 0 ==> load(was[j]) <= load(value))
      decreases j + 1, heavier
    {
      var readLoad := probe(clock', order[j]);
      clock' := clock' + 1;
      if readLoad > valueLoad {
        order[j + 1] := order[j];
        j := j - 1;
      } else {
        heavier := false;
      }
    }
    order[j + 1] := value;
    p := j + 1;
    ShiftIsMoved(was, order[..], p, i);
  }

  lemma ShiftIsMoved(s: seq<nat>, t: seq<nat>, p: nat, i: nat)
    requires p <= i < |s| == |t|
    requires forall k :: 0 <= k < p || i < k < |s| ==> t[k] == s[k]
    requires t[p] == s[i] && forall k :: p < k <= i ==> t[k] == s[k - 1]
    ensures t == Moved(s, p, i)
  {
  }

  /** A heavier-than-nothing prefix stays sorted and stable when the next rotated entry is inserted. */
  lemma InsertKeepsSorted(s: seq<nat>, p: nat, i: nat, load: nat -> int, n: nat, start: nat)
    requires p <= i < |s| && SortedStable(s[..i], load, n, start)
    requires forall k :: 0 <= k < i ==> Rank(s[k], n, start) < Rank(s[i], n, start)
    requires forall k :: p <= k < i ==> load(s[k]) > load(s[i])
    requires p > 0 ==> load(s[p - 1]) <= load(s[i])
    ensures SortedStable(Moved(s, p, i)[..i + 1], load, n, start)
  {
    hide Rank;
    var t := Moved(s, p, i)[..i + 1];
    assert forall k :: 0 <= k < p ==> t[k] == s[k];
    assert t[p] == s[i];
    assert forall k :: p < k <= i ==> t[k] == s[k - 1];
    assert forall a, b :: 0 <= a < b < i ==> s[..i][a] == s[a] && s[..i][b] == s[b];
    forall k | 0 <= k < p ensures load(s[k]) <= load(s[i]) {
      if k < p - 1 { assert Before(load, n, start, s[..i][k], s[..i][p - 1]); }
    }
    forall a, b | 0 <= a < b < |t| ensures Before(load, n, start, t[a], t[b]) {
      if a != p && b != p {
        var a', b' := if a < p then a else a - 1, if b < p then b else b - 1;
        assert Before(load, n, start, s[..i][a'], s[..i][b']);
      }
    }
  }

  ghost predicate Ranked(order: seq<nat>, i: nat, n: nat, start: nat) {
    && (forall k :: i <= k < |order| ==> Rank(order[k], n, start) == k)
    && (forall k :: 0 <= k < i && k < |order| ==> Rank(order[k], n, start) < i)
  }

  lemma MoveKeepsRanked(s: seq<nat>, p: nat, i: nat, n: nat, start: nat)
    requires p <= i < |s| && Ranked(s, i, n, start)
    ensures Ranked(Moved(s, p, i), i + 1, n, start)
  {
    hide Rank;
    var t := Moved(s, p, i);
    assert forall k :: 0 <= k < p || i < k < |s| ==> t[k] == s[k];
    assert t[p] == s[i];
    assert forall k :: p < k <= i ==> t[k] == s[k - 1];
  }

  /** Insertion sort in place by loads that other goroutines may change between any two reads. */
  method SortByLoad(order: array<nat>, n: nat, start: nat, probe: (nat, nat) -> int)
    requires order.Length == n > 0 && Ranked(order[..], 0, n, start)
    modifies order
    ensures multiset(order[..]) == multiset(old(order[..]))
    ensures forall load: nat -> int :: Steady(probe, load) ==> SortedStable(order[..], load, n, start)
  {
    hide Moved, Rank, Steady;
    var clock := 0;
    for i := 1 to n
      invariant multiset(order[..]) == multiset(old(order[..]))
      invariant Ranked(order[..], i, n, start)
      invariant forall load: nat -> int :: Steady(probe, load) ==> SortedStable(order[..i], load, n, start)
    {
      ghost var was := order[..];
      assert order[..i] == was[..i];
      var p;
      p, clock := Insert(order, i, probe, clock);
      MovedPermutes(was, p, i);
      MoveKeepsRanked(was, p, i, n, start);
      forall load: nat -> int | Steady(probe, load) ensures SortedStable(order[..i + 1], load, n, start) {
        InsertKeepsSorted(was, p, i, load, n, start);
        assert order[..i + 1] == Moved(was, p, i)[..i + 1];
      }
    }
    assert order[..n] == order[..];
  }

  /** The candidate order: always a permutation of the rotation; for least-in-flight with loads that hold
      still, sorted by load and stable over the rotation. */
  method CandidateOrder(n: nat, start: nat, leastInFlight: bool, probe: (nat, nat) -> int)
    returns (order: array<nat>)
    requires start < n
    ensures fresh(order) && order.Length == n
    ensures multiset(order[..]) == multiset(Rotated(n, start))
    ensures Distinct(order[..]) && forall k :: 0 <= k < n ==> order[k] < n
    ensures !leastInFlight ==> order[..] == Rotated(n, start)
    ensures leastInFlight ==>
              forall load: nat -> int :: Steady(probe, load) ==> SortedStable(order[..], load, n, start)
  {
    order := new nat[n](k requires 0 <= k < n => (start + k) % n);
    assert order[..] == Rotated(n, start);
    hide Rotated;
    RotatedIsDistinct(n, start);
    if leastInFlight {
      assert Ranked(order[..], 0, n, start) by {
        forall k: nat | k < n ensures Rank(order[k], n, start) == k { RankOfRotated(n, start, k); }
      }
      SortByLoad(order, n, start, probe);
      PermutationKeeps(Rotated(n, start), order[..], n);
    }
  }

  // ----- Reservation -----

  datatype Choice = Chosen(index: nat, permit: bool) | AdmissionRejected | NoBackend

  ghost predicate Excluded(b: ProxyBackend, excluded: set<string>) { ToLower(b.alias) in excluded }

  /** The state lock would let a request through now. */
  ghost predicate StateEligible(b: ProxyBackend, now: int)
    reads b
  {
    var advanced := AdvanceCooldown(b.Locked(), b.policy, now);
    && advanced.healthy && advanced.circuit != Open
    && (advanced.circuit == HalfOpen ==> advanced.halfOpenInFlight < b.policy.halfOpenMax)
  }

  ghost predicate Admissible(b: ProxyBackend, now: int)
    reads b
  {
    StateEligible(b, now) && b.tokens < b.policy.maxInFlight
  }

  /** A request let through now would take a half-open permit. */
  ghost predicate Half(b: ProxyBackend, now: int)
    reads b
  {
    AdvanceCooldown(b.Locked(), b.policy, now).circuit == HalfOpen
  }

  /** Looking at a backend does no more to its locked state than to advance its cooldown. */
  ghost predicate AtMostAdvanced(before: Core, after: Core, policy: Policy, now: int) {
    after == before || after == AdvanceCooldown(before, policy, now)
  }

  lemma AdvancedAtMost(core: Core, policy: Policy, now: int)
    ensures AtMostAdvanced(core, core, policy, now)
    ensures AtMostAdvanced(core, AdvanceCooldown(core, policy, now), policy, now)
  {
  }

  /** Takes the first candidate in order that is not excluded and admissible, and reports admission as the
      reason exactly when some candidate was eligible but full and none could be reserved. */
  method ReserveInOrder(backends: seq<ProxyBackend>, order: seq<nat>, excluded: set<string>, now: int)
    returns (choice: Choice)
    requires Distinct(backends) && Distinct(order) && |order| == |backends|
    requires forall k :: 0 <= k < |order| ==> order[k] < |backends|
    modifies set b | b in backends
    ensures choice.Chosen? ==>
              (exists k ::
                 (&& 0 <= k < |order| && order[k] == choice.index
                  && !Excluded(backends[order[k]], excluded) && old(Admissible(backends[order[k]], now))
                  && forall j :: 0 <= j < k ==>
                       Excluded(backends[order[j]], excluded) || !old(Admissible(backends[order[j]], now))))
    ensures choice.Chosen? ==>
              (&& choice.index < |backends|
               && backends[choice.index].tokens == old(backends[choice.index].tokens) + 1
               && backends[choice.index].inFlight == old(backends[choice.index].inFlight) + 1
               && (choice.permit <==> old(Half(backends[choice.index], now))))
    ensures choice.Chosen? ==>
              backends[choice.index].Locked()
              == Claim(AdvanceCooldown(old(backends[choice.index].Locked()), backends[choice.index].policy, now))
    ensures forall k :: 0 <= k < |backends| && !(choice.Chosen? && choice.index == k) ==>
              && backends[k].tokens == old(backends[k].tokens) && backends[k].inFlight == old(backends[k].inFlight)
              && AtMostAdvanced(old(backends[k].Locked()), backends[k].Locked(), backends[k].policy, now)
    ensures !choice.Chosen? ==>
              forall k :: 0 <= k < |order| ==>
                Excluded(backends[order[k]], excluded) || !old(Admissible(backends[order[k]], now))
    ensures choice == AdmissionRejected ==>
              (exists k :: (&& 0 <= k < |order| && !Excluded(backends[order[k]], excluded)
                            && old(StateEligible(backends[order[k]], now))))
    ensures choice == NoBackend ==>
              forall k :: 0 <= k < |order| ==>
                Excluded(backends[order[k]], excluded) || !old(StateEligible(backends[order[k]], now))
  {
    hide AdvanceCooldown, ToLower, Claim, AtMostAdvanced;
    forall k | 0 <= k < |backends|
      ensures AtMostAdvanced(backends[k].Locked(), backends[k].Locked(), backends[k].policy, now)
    {
      AdvancedAtMost(backends[k].Locked(), backends[k].policy, now);
    }
    var eligible := false;
    for offset := 0 to |order|
      invariant forall k :: offset <= k < |order| ==> unchanged(backends[order[k]])
      invariant forall k :: 0 <= k < |backends| ==>
                  && backends[k].tokens == old(backends[k].tokens) && backends[k].inFlight == old(backends[k].inFlight)
                  && AtMostAdvanced(old(backends[k].Locked()), backends[k].Locked(), backends[k].policy, now)
      invariant forall k :: 0 <= k < offset ==>
                  Excluded(backends[order[k]], excluded) || !old(Admissible(backends[order[k]], now))
      invariant eligible <==>
                  (exists k :: (&& 0 <= k < offset && !Excluded(backends[order[k]], excluded)
                                && old(StateEligible(backends[order[k]], now))))
    {
      var backend := backends[order[offset]];
      assert forall k :: offset < k < |order| ==> backends[order[k]] != backend;
      if ToLower(backend.alias) in excluded { continue; }
      AdvancedAtMost(backend.Locked(), backend.policy, now);
      var r, stateEligible := backend.TryReserve(now);
      eligible := eligible || stateEligible;
      if r.Reserved? { return Chosen(order[offset], r.permit); }
    }
    return if eligible then AdmissionRejected else NoBackend;
  }

  /** The same, told by the sets of backends that qualify, for an order that visits all of them. */
  method ReserveFrom(backends: seq<ProxyBackend>, order: seq<nat>, excluded: set<string>, now: int)
    returns (choice: Choice)
    requires Distinct(backends) && Distinct(order) && |order| == |backends|
    requires forall k :: 0 <= k < |order| ==> order[k] < |backends|
    requires forall b: nat :: b < |backends| ==> b in order
    modifies set b | b in backends
    ensures choice.Chosen? <==> old(Reservable(backends, excluded, now)) != {}
    ensures choice.Chosen? ==> FirstIn(order, old(Reservable(backends, excluded, now)), choice.index)
    ensures choice == AdmissionRejected <==> !choice.Chosen? && old(Permitted(backends, excluded, now)) != {}
    ensures choice.Chosen? ==>
              && choice.index < |backends| && !Excluded(backends[choice.index], excluded)
              && (choice.permit <==> old(Half(backends[choice.index], now)))
              && backends[choice.index].tokens == old(backends[choice.index].tokens) + 1
              && backends[choice.index].inFlight == old(backends[choice.index].inFlight) + 1
              && backends[choice.index].Locked()
                 == Claim(AdvanceCooldown(old(backends[choice.index].Locked()), backends[choice.index].policy, now))
    ensures forall k :: 0 <= k < |backends| && !(choice.Chosen? && choice.index == k) ==>
              && backends[k].tokens == old(backends[k].tokens) && backends[k].inFlight == old(backends[k].inFlight)
              && AtMostAdvanced(old(backends[k].Locked()), backends[k].Locked(), backends[k].policy, now)
  {
    hide AtMostAdvanced, Half, Admissible, StateEligible, Excluded;
    ghost var reservable := Reservable(backends, excluded, now);
    ghost var permitted := Permitted(backends, excluded, now);
    choice := ReserveInOrder(backends, order, excluded, now);
    if choice.Chosen? {
      ghost var k :| 0 <= k < |order| && order[k] == choice.index && choice.index in reservable
                     && forall j :: 0 <= j < k ==> order[j] !in reservable;
      assert FirstIn(order, reservable, choice.index);
    } else {
      NoneInOrder(order, |backends|, reservable);
      if choice.NoBackend? {
        NoneInOrder(order, |backends|, permitted);
      } else {
        ghost var k :| 0 <= k < |order| && order[k] in permitted;
      }
    }
  }

  lemma NoneInOrder(order: seq<nat>, n: nat, candidates: set<nat>)
    requires forall b: nat :: b < n ==> b in order
    requires forall k :: 0 <= k < |order| ==> order[k] !in candidates
    requires forall c :: c in candidates ==> c < n
    ensures candidates == {}
  {
    forall c | c in candidates ensures c in order {
    }
  }

  // ----- The pool -----

  /** No two backends share an alias, whatever its spelling. */
  ghost predicate FoldedDistinct(backends: seq<ProxyBackend>) {
    forall i, j :: 0 <= i < j < |backends| ==> ToLower(backends[i].alias) != ToLower(backends[j].alias)
  }

  lemma FoldedIsDistinct(backends: seq<ProxyBackend>)
    requires FoldedDistinct(backends)
    ensures Distinct(backends)
  {
  }

  /** A permutation of the rotation visits every backend. */
  lemma OrderCovers(order: seq<nat>, n: nat, start: nat, b: nat)
    requires start < n && b < n && multiset(order) == multiset(Rotated(n, start))
    ensures exists k :: 0 <= k < |order| && order[k] == b
  {
    var k := Rank(b, n, start);
    assert Rotated(n, start)[k] == b by { WrapsOnce(n, start + k); }
    assert b in multiset(Rotated(n, start));
    assert b in multiset(order);
  }

  class BackendPool {
    const backends: seq<ProxyBackend>
    const leastInFlight: bool
    var sequence: nat

    constructor (backends: seq<ProxyBackend>, leastInFlight: bool)
      requires FoldedDistinct(backends)
      ensures this.backends == backends && this.leastInFlight == leastInFlight && sequence == 0
    {
      this.backends, this.leastInFlight, this.sequence := backends, leastInFlight, 0;
    }

    /** Reserves the next backend that is not excluded. `order` is the order in which the backends were tried:
        the rotation or, for least-in-flight, sorted by the loads at the time and stable over the rotation. One is
        reserved exactly when some backend is admissible, and then the first of those in that order. */
    method ReserveNextExcluding(excluded: set<string>, now: int) returns (choice: Choice, ghost order: seq<nat>)
      requires FoldedDistinct(backends)
      modifies this`sequence, set b | b in backends
      ensures choice.Chosen? <==> old(Reservable(backends, excluded, now)) != {}
      ensures choice.Chosen? ==> FirstIn(order, old(Reservable(backends, excluded, now)), choice.index)
      ensures choice == AdmissionRejected <==>
                !choice.Chosen? && old(Permitted(backends, excluded, now)) != {}
      ensures choice.Chosen? ==>
                && choice.index < |backends| && !Excluded(backends[choice.index], excluded)
                && (choice.permit <==> old(Half(backends[choice.index], now)))
                && backends[choice.index].tokens == old(backends[choice.index].tokens) + 1
                && backends[choice.index].inFlight == old(backends[choice.index].inFlight) + 1
                && backends[choice.index].Locked()
                   == Claim(AdvanceCooldown(old(backends[choice.index].Locked()), backends[choice.index].policy, now))
      ensures forall k :: 0 <= k < |backends| && !(choice.Chosen? && choice.index == k) ==>
                && backends[k].tokens == old(backends[k].tokens) && backends[k].inFlight == old(backends[k].inFlight)
                && AtMostAdvanced(old(backends[k].Locked()), backends[k].Locked(), backends[k].policy, now)
      ensures backends != [] ==>
                && sequence == old(sequence) + 1
                && InSelectorOrder(order, leastInFlight, old(Loads(backends)), old(sequence) % |backends|)
    {
      hide Rotated, SortedStable, AtMostAdvanced, Before, Half, Admissible, StateEligible, Excluded;
      order := [];
      FoldedIsDistinct(backends);
      if |backends| == 0 {
        assert Reservable(backends, excluded, now) == {} && Permitted(backends, excluded, now) == {};
        return NoBackend, order;
      }
      var n, start := |backends|, sequence % |backends|;
      sequence := sequence + 1;
      var loads := Loads(backends);
      var candidates := CandidateOrder(n, start, leastInFlight, ProbeOf(loads));
      order := candidates[..];
      SteadyLoads(loads);
      Covers(order, n, start);
      choice := ReserveFrom(backends, candidates[..], excluded, now);
    }
  }

  /** The backends that could be reserved now. */
  ghost function Reservable(backends: seq<ProxyBackend>, excluded: set<string>, now: int): set<nat>
    reads set b | b in backends
  {
    set k: nat | k < |backends| && !Excluded(backends[k], excluded) && Admissible(backends[k], now)
  }

  /** The backends whose state would let a request through, full or not. */
  ghost function Permitted(backends: seq<ProxyBackend>, excluded: set<string>, now: int): set<nat>
    reads set b | b in backends
  {
    set k: nat | k < |backends| && !Excluded(backends[k], excluded) && StateEligible(backends[k], now)
  }

  ghost predicate FirstIn(order: seq<nat>, candidates: set<nat>, index: nat) {
    exists k :: 0 <= k < |order| && order[k] == index && index in candidates
                && forall j :: 0 <= j < k ==> order[j] !in candidates
  }

  /** The rotation from `start` or, for least-in-flight, that rotation sorted stably by load. */
  ghost predicate InSelectorOrder(order: seq<nat>, leastInFlight: bool, loads: seq<int>, start: nat) {
    && start < |loads| && multiset(order) == multiset(Rotated(|loads|, start))
    && (if leastInFlight then SortedStable(order, LoadOf(loads), |loads|, start) else order == Rotated(|loads|, start))
  }

  function Loads(backends: seq<ProxyBackend>): (loads: seq<int>)
    reads set b | b in backends
    ensures |loads| == |backends| && forall k :: 0 <= k < |loads| ==> loads[k] == backends[k].inFlight
  {
    if backends == [] then []
    else Loads(backends[..|backends| - 1]) + [backends[|backends| - 1].inFlight]
  }

  function LoadOf(loads: seq<int>): nat -> int { (b: nat) => if b < |loads| then loads[b] else 0 }

  function ProbeOf(loads: seq<int>): (nat, nat) -> int { (r: nat, b: nat) => if b < |loads| then loads[b] else 0 }

  lemma SteadyLoads(loads: seq<int>)
    ensures Steady(ProbeOf(loads), LoadOf(loads))
  {
  }

  lemma Covers(order: seq<nat>, n: nat, start: nat)
    requires start < n && multiset(order) == multiset(Rotated(n, start))
    ensures forall b: nat :: b < n ==> b in order
  {
    hide Rotated;
    forall b: nat | b < n ensures b in order { OrderCovers(order, n, start, b); }
  }
}
