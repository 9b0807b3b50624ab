/** One backend's resilience state: circuit, half-open permits, passive window, active health and admission.

    The functions say what each section under the state lock computes; the class performs them in place. */
module Circuit {

  datatype CircuitState = Closed | Open | HalfOpen

  datatype Policy = Policy(
    passiveThreshold: int,
    passiveInterval: int,
    cooldown: int,
    halfOpenMax: int,
    halfOpenSuccesses: int,
    activeFailureThreshold: int,
    activeSuccessThreshold: int,
    maxInFlight: int)
  {
    predicate Valid() {
      && passiveThreshold > 0 && passiveInterval > 0 && cooldown > 0
      && 0 < halfOpenSuccesses <= halfOpenMax
      && activeFailureThreshold > 0 && activeSuccessThreshold > 0
      && maxInFlight > 0
    }
  }

  datatype Outcome = Neutral | Success | Failure

  /** A time, or the zero time of a window or opening that has not begun. */
  datatype Moment = Never | At(t: int)

  /** Everything the state lock protects. */
  datatype Core = Core(
    healthy: bool,
    activeFailures: nat,
    activeSuccesses: nat,
    circuit: CircuitState,
    passiveFailures: nat,
    windowStart: Moment,
    openedAt: Moment,
    halfOpenInFlight: int,
    halfOpenSuccesses: nat)

  const FRESH := Core(true, 0, 0, Closed, 0, Never, Never, 0, 0)

  // ----- Sections under the state lock -----

  function Transition(core: Core, to: CircuitState, at: int): Core {
    if core.circuit == to && to != Open then core
    else core.(circuit := to, passiveFailures := 0, windowStart := At(at), halfOpenInFlight := 0,
               halfOpenSuccesses := 0,
               openedAt := if to == Open then At(at) else if to == Closed then Never else core.openedAt)
  }

  /** Time since the circuit opened; since the zero time when it never did. */
  predicate CooledDown(core: Core, policy: Policy, now: int) {
    core.openedAt.Never? || now - core.openedAt.t >= policy.cooldown
  }

  function AdvanceCooldown(core: Core, policy: Policy, now: int): Core {
    if core.circuit != Open || !CooledDown(core, policy, now) then core else Transition(core, HalfOpen, now)
  }

  predicate Eligible(core: Core, policy: Policy) {
    core.healthy && core.circuit != Open && (core.circuit == HalfOpen ==> core.halfOpenInFlight < policy.halfOpenMax)
  }

  /** The state-lock section that lets a request through, taking a permit in the half-open state. */
  function Claim(core: Core): Core {
    if core.circuit == HalfOpen then core.(halfOpenInFlight := core.halfOpenInFlight + 1) else core
  }

  function UndoClaim(core: Core): Core {
    core.(halfOpenInFlight := core.halfOpenInFlight - 1)
  }

  function ReturnPermit(core: Core, permit: bool): Core {
    if permit && core.halfOpenInFlight > 0 then core.(halfOpenInFlight := core.halfOpenInFlight - 1) else core
  }

  predicate WindowExpired(core: Core, policy: Policy, now: int) {
    core.windowStart.Never? || now - core.windowStart.t >= policy.passiveInterval
  }

  /** A request outcome while the circuit is closed. */
  function RecordClosed(core: Core, policy: Policy, outcome: Outcome, now: int): Core {
    var window := if WindowExpired(core, policy, now) then core.(windowStart := At(now), passiveFailures := 0) else core;
    if outcome == Success then window.(passiveFailures := 0, windowStart := At(now))
    else
      var counted := window.(passiveFailures := window.passiveFailures + 1);
      if counted.passiveFailures >= policy.passiveThreshold then Transition(counted, Open, now) else counted
  }

  /** A permit-carried outcome while the circuit is half-open. */
  function RecordHalfOpen(core: Core, policy: Policy, outcome: Outcome, now: int): Core {
    if outcome == Failure then Transition(core, Open, now)
    else
      var counted := core.(halfOpenSuccesses := core.halfOpenSuccesses + 1);
      if counted.halfOpenSuccesses >= policy.halfOpenSuccesses then Transition(counted, Closed, now) else counted
  }

  function RecordPassive(core: Core, policy: Policy, outcome: Outcome, permit: bool, now: int): Core {
    var returned := ReturnPermit(core, permit);
    if outcome == Neutral then returned
    else if core.circuit == HalfOpen && permit then RecordHalfOpen(returned, policy, outcome, now)
    else if core.circuit != Closed then returned
    else RecordClosed(returned, policy, outcome, now)
  }

  function RecordActive(core: Core, policy: Policy, success: bool): Core {
    if success then
      var n := core.activeSuccesses + 1;
      core.(activeFailures := 0, activeSuccesses := n,
            healthy := core.healthy || n >= policy.activeSuccessThreshold)
    else
      var n := core.activeFailures + 1;
      core.(activeSuccesses := 0, activeFailures := n,
            healthy := core.healthy && n < policy.activeFailureThreshold)
  }

  predicate ProbePermitted(core: Core, policy: Policy, now: int) {
    var advanced := AdvanceCooldown(core, policy, now);
    advanced.circuit == HalfOpen && advanced.halfOpenInFlight < policy.halfOpenMax
  }

  function BeginProbe(core: Core, policy: Policy, now: int): Core {
    var advanced := AdvanceCooldown(core, policy, now);
    if ProbePermitted(core, policy, now) then advanced.(halfOpenInFlight := advanced.halfOpenInFlight + 1)
    else advanced
  }

  function EndProbe(core: Core, policy: Policy, success: bool, now: int): Core {
    RecordPassive(core, policy, if success then Success else Failure, true, now)
  }

  // ----- The backend -----

  datatype Reservation = NotReserved | Reserved(permit: bool)

  class ProxyBackend {
    const alias: string
    const policy: Policy
    var healthy: bool
    var activeFailures: nat
    var activeSuccesses: nat
    var circuit: CircuitState
    var passiveFailures: nat
    var windowStart: Moment
    var openedAt: Moment
    var halfOpenInFlight: int
    var halfOpenSuccesses: nat
    var tokens: nat      // occupancy of the admission channel
    var inFlight: nat

    ghost function Locked(): Core
      reads this
    {
      Core(healthy, activeFailures, activeSuccesses, circuit, passiveFailures, windowStart, openedAt,
           halfOpenInFlight, halfOpenSuccesses)
    }

    constructor (alias: string, policy: Policy)
      requires policy.Valid()
      ensures this.alias == alias && this.policy == policy && Locked() == FRESH && tokens == 0 && inFlight == 0
    {
      this.alias, this.policy := alias, policy;
      healthy, activeFailures, activeSuccesses, circuit := true, 0, 0, Closed;
      passiveFailures, windowStart, openedAt, halfOpenInFlight, halfOpenSuccesses := 0, Never, Never, 0, 0;
      tokens, inFlight := 0, 0;
    }

    method TransitionLocked(to: CircuitState, at: int)
      modifies this
      ensures Locked() == Transition(old(Locked()), to, at) && tokens == old(tokens) && inFlight == old(inFlight)
    {
      if circuit == to && to != Open { return; }
      circuit, passiveFailures, windowStart := to, 0, At(at);
      halfOpenInFlight, halfOpenSuccesses := 0, 0;
      if to == Open { openedAt := At(at); } else if to == Closed { openedAt := Never; }
    }

    method AdvanceCooldownAt(now: int)
      modifies this
      ensures Locked() == AdvanceCooldown(old(Locked()), policy, now)
      ensures tokens == old(tokens) && inFlight == old(inFlight)
    {
      if circuit != Open || (openedAt.At? && now - openedAt.t < policy.cooldown) { return; }
      TransitionLocked(HalfOpen, now);
    }

    /** Advances the cooldown, claims permission under the lock, then claims an admission token; a permit is
        given back when the channel is full. Second result: whether the state allowed the request. */
    method TryReserve(now: int) returns (r: Reservation, eligible: bool)
      modifies this
      ensures var advanced := AdvanceCooldown(old(Locked()), policy, now);
              && eligible == (&& advanced.healthy && advanced.circuit != Open
                              && (advanced.circuit == HalfOpen ==> advanced.halfOpenInFlight < policy.halfOpenMax))
              && r.Reserved? == (eligible && old(tokens) < policy.maxInFlight)
              && (r.Reserved? ==> && r.permit == (advanced.circuit == HalfOpen) && Locked() == Claim(advanced)
                                  && tokens == old(tokens) + 1 && inFlight == old(inFlight) + 1)
              && (!r.Reserved? ==> Locked() == advanced && tokens == old(tokens) && inFlight == old(inFlight))
    {
      AdvanceCooldownAt(now);
      if !healthy || circuit == Open || (circuit == HalfOpen && halfOpenInFlight >= policy.halfOpenMax) {
        return NotReserved, false;
      }
      var permit := circuit == HalfOpen;
      if permit { halfOpenInFlight := halfOpenInFlight + 1; }
      if tokens < policy.maxInFlight {
        tokens := tokens + 1;
        inFlight := inFlight + 1;
        return Reserved(permit), true;
      }
      if permit { halfOpenInFlight := halfOpenInFlight - 1; }
      return NotReserved, true;
    }

    method RecordPassiveAt(outcome: Outcome, permit: bool, now: int)
      modifies this
      ensures Locked() == RecordPassive(old(Locked()), policy, outcome, permit, now)
      ensures tokens == old(tokens) && inFlight == old(inFlight)
    {
      if permit && halfOpenInFlight > 0 { halfOpenInFlight := halfOpenInFlight - 1; }
      if outcome == Neutral { return; }
      if circuit == HalfOpen && permit {
        if outcome == Failure {
          TransitionLocked(Open, now);
          return;
        }
        halfOpenSuccesses := halfOpenSuccesses + 1;
        if halfOpenSuccesses >= policy.halfOpenSuccesses { TransitionLocked(Closed, now); }
        return;
      }
      if circuit != Closed { return; }
      if windowStart.Never? || now - windowStart.t >= policy.passiveInterval {
        windowStart, passiveFailures := At(now), 0;
      }
      if outcome == Success {
        passiveFailures, windowStart := 0, At(now);
        return;
      }
      passiveFailures := passiveFailures + 1;
      if passiveFailures >= policy.passiveThreshold { TransitionLocked(Open, now); }
    }

    method RecordActiveProbe(success: bool)
      modifies this
      ensures Locked() == RecordActive(old(Locked()), policy, success)
      ensures tokens == old(tokens) && inFlight == old(inFlight)
    {
      if success {
        activeFailures := 0;
        activeSuccesses := activeSuccesses + 1;
        if activeSuccesses >= policy.activeSuccessThreshold { healthy := true; }
      } else {
        activeSuccesses := 0;
        activeFailures := activeFailures + 1;
        if activeFailures >= policy.activeFailureThreshold { healthy := false; }
      }
    }

    method BeginCircuitProbe(now: int) returns (permitted: bool)
      modifies this
      ensures permitted == ProbePermitted(old(Locked()), policy, now)
      ensures Locked() == BeginProbe(old(Locked()), policy, now) && tokens == old(tokens) && inFlight == old(inFlight)
    {
      AdvanceCooldownAt(now);
      if circuit != HalfOpen || halfOpenInFlight >= policy.halfOpenMax { return false; }
      halfOpenInFlight := halfOpenInFlight + 1;
      return true;
    }

    method CompleteCircuitProbe(success: bool, permitted: bool, now: int)
      modifies this
      ensures Locked() == if permitted then EndProbe(old(Locked()), policy, success, now) else old(Locked())
      ensures tokens == old(tokens) && inFlight == old(inFlight)
    {
      if !permitted { return; }
      RecordPassiveAt(if success then Success else Failure, true, now);
    }

    /** One health probe: it asks for a circuit permit at `begun` and reports at `ended`. */
    method RunProbe(begun: int, success: bool, ended: int)
      modifies this
      ensures tokens == old(tokens) && inFlight == old(inFlight)
      ensures var probing := RecordActive(BeginProbe(old(Locked()), policy, begun), policy, success);
              Locked() == if ProbePermitted(old(Locked()), policy, begun)
                          then EndProbe(probing, policy, success, ended) else probing
    {
      var permitted := BeginCircuitProbe(begun);
      RecordActiveProbe(success);
      CompleteCircuitProbe(success, permitted, ended);
    }
  }

  /** What a caller holds after a successful reservation. */
  class BackendReservation {
    const backend: ProxyBackend
    const halfOpen: bool
    var released: bool

    constructor (backend: ProxyBackend, halfOpen: bool)
      ensures this.backend == backend && this.halfOpen == halfOpen && !released
    {
      this.backend, this.halfOpen, this.released := backend, halfOpen, false;
    }

    /** Records the outcome and gives the token back, the first time only. An unreleased reservation is counted
        in flight and owns a token, so the receive from the channel cannot block. */
    method Complete(outcome: Outcome, at: int)
      requires !released ==> backend.tokens > 0 && backend.inFlight > 0
      modifies this`released, backend
      ensures released
      ensures old(released) ==> backend.Locked() == old(backend.Locked())
                                && backend.tokens == old(backend.tokens) && backend.inFlight == old(backend.inFlight)
      ensures !old(released) ==>
                && backend.Locked() == RecordPassive(old(backend.Locked()), backend.policy, outcome, halfOpen, at)
                && backend.tokens == old(backend.tokens) - 1 && backend.inFlight == old(backend.inFlight) - 1
    {
      if released { return; }
      released := true;
      backend.RecordPassiveAt(outcome, halfOpen, at);
      backend.inFlight := backend.inFlight - 1;
      backend.tokens := backend.tokens - 1;
    }

    method Release(now: int)
      requires !released ==> backend.tokens > 0 && backend.inFlight > 0
      modifies this`released, backend
      ensures released
      ensures backend.Locked() == if old(released) then old(backend.Locked())
                                  else ReturnPermit(old(backend.Locked()), halfOpen)
      ensures backend.tokens == old(backend.tokens) - (if old(released) then 0 else 1)
      ensures backend.inFlight == old(backend.inFlight) - (if old(released) then 0 else 1)
    {
      Complete(Neutral, now);
    }
  }
}
