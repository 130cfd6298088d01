/** The breaker of src/utils/circuit_breaker.h, one call at a time.  `BreakerProtocol` interleaves
    the atomic steps of several calls. */
module CircuitBreaker {
  import opened Common

  datatype Circuit = Closed | Open | HalfOpen

  /** Two's complement wrap-around of the 32-bit failure counter. */
  function Wrap32(n: int): (w: int)
    ensures -0x8000_0000 <= w <= INT_MAX
    ensures 0 <= n <= INT_MAX ==> w == n
    ensures (n - w) % 0x1_0000_0000 == 0
  {
    (n + 0x8000_0000) % 0x1_0000_0000 - 0x8000_0000
  }

  lemma WrapStep(n: int)
    ensures Wrap32(Wrap32(n) + 1) == Wrap32(n + 1)
  {
  }

  lemma WrapTwo(n: int)
    ensures Wrap32(Wrap32(n) + 2) == Wrap32(n + 2)
  {
  }

  datatype Breaker = Breaker(circuit: Circuit, failures: int, openTime: int)

  /** A completed call, with the clock readings it makes. */
  datatype Op = Allow(now: int) | Success | Failure(now: int)

  /** Whether a call of `allow_request` at time `now` lets the request through. */
  predicate Admits(b: Breaker, recovery: int, now: int) {
    b.circuit == Closed || (b.circuit == Open && now - b.openTime >= recovery)
  }

  /** Whether a failure report trips a closed breaker. */
  predicate Trips(b: Breaker, threshold: int) {
    b.circuit == Closed && Wrap32(b.failures + 1) >= threshold
  }

  function Apply(b: Breaker, threshold: int, recovery: int, op: Op): Breaker {
    match op
    case Allow(now) =>
      if b.circuit == Open && Admits(b, recovery, now) then b.(circuit := HalfOpen) else b
    case Success =>
      if b.circuit == HalfOpen then b.(circuit := Closed) else b
    case Failure(now) =>
      var counted := b.(failures := Wrap32(b.failures + 2));
      if Trips(b, threshold) then counted.(circuit := Open, openTime := now)
      else if b.circuit == HalfOpen then counted.(circuit := Open)
      else counted
  }

  class CircuitBreaker {
    const threshold: int
    const recovery: int
    var failureCount: int
    var circuit: Circuit
    var openTime: int

    ghost function Model(): Breaker
      reads this
    {
      Breaker(circuit, failureCount, openTime)
    }

    constructor (threshold: int, recovery: int)
      ensures this.threshold == threshold && this.recovery == recovery
      ensures circuit == Closed && failureCount == 0
    {
      this.threshold := threshold;
      this.recovery := recovery;
      failureCount := 0;
      circuit := Closed;
    }

    /** The compare-and-swap on `state_`. */
    method CompareExchange(expected: Circuit, desired: Circuit) returns (ok: bool)
      modifies this`circuit
      ensures ok <==> old(circuit) == expected
      ensures circuit == if ok then desired else old(circuit)
    {
      ok := circuit == expected;
      if ok { circuit := desired; }
    }

    method AllowRequest(now: int) returns (ok: bool)
      modifies this`circuit
      ensures old(circuit) == Closed ==> ok && circuit == Closed
      ensures old(circuit) == HalfOpen ==> !ok && circuit == HalfOpen
      ensures old(circuit) == Open ==>
                (ok <==> now - openTime >= recovery) && circuit == if ok then HalfOpen else Open
      ensures ok <==> Admits(old(Model()), recovery, now)
      ensures Model() == Apply(old(Model()), threshold, recovery, Allow(now))
    {
      match circuit {
        case Closed => return true;
        case Open =>
          if now - openTime >= recovery {
            var swapped := CompareExchange(Open, HalfOpen);
            if swapped { return true; }
          }
        case HalfOpen =>
      }
      return false;
    }

    method RecordSuccess()
      modifies this`circuit
      ensures circuit == if old(circuit) == HalfOpen then Closed else old(circuit)
      ensures Model() == Apply(old(Model()), threshold, recovery, Success)
    {
      var _ := CompareExchange(HalfOpen, Closed);
    }

    method RecordFailure(now: int)
      modifies this
      ensures failureCount == Wrap32(old(failureCount) + 2)
      ensures old(circuit) == Closed && Wrap32(old(failureCount) + 1) >= threshold ==>
                circuit == Open && openTime == now
      ensures old(circuit) == Closed && Wrap32(old(failureCount) + 1) < threshold ==> circuit == Closed
      ensures old(circuit) != Closed ==> circuit == Open
      ensures old(circuit) == circuit || old(circuit) == HalfOpen ==> openTime == old(openTime)
      ensures Model() == Apply(old(Model()), threshold, recovery, Failure(now))
    {
      WrapStep(failureCount + 1);
      var prev := failureCount;
      failureCount := Wrap32(failureCount + 1);
      if Wrap32(prev + 1) >= threshold && circuit == Closed {
        var _ := CompareExchange(Closed, Open);
        openTime := now;
      } else if circuit == HalfOpen {
        var _ := CompareExchange(HalfOpen, Open);
      }
      failureCount := Wrap32(failureCount + 1);
    }
  }

  // ---------------------------------------------------------------------------------------------
  // Histories of completed calls
  // ---------------------------------------------------------------------------------------------

  /** The breaker after the first `n` calls of a history. */
  function After(b: Breaker, threshold: int, recovery: int, ops: seq<Op>, n: nat): Breaker
    requires n <= |ops|
  {
    if n == 0 then b else Apply(After(b, threshold, recovery, ops, n - 1), threshold, recovery, ops[n - 1])
  }

  ghost predicate AdmittedAt(b: Breaker, threshold: int, recovery: int, ops: seq<Op>, j: nat)
    requires j < |ops|
  {
    ops[j].Allow? && Admits(After(b, threshold, recovery, ops, j), recovery, ops[j].now)
  }

  ghost predicate TrippedAt(b: Breaker, threshold: int, recovery: int, ops: seq<Op>, i: nat)
    requires i < |ops|
  {
    ops[i].Failure? && Trips(After(b, threshold, recovery, ops, i), threshold)
  }

  /** As long as the breaker has not closed again after a trip, the trip's time is the one that
      counts: also after a failed trial, which reopens the breaker without a new time. */
  lemma {:induction false} TripTimeStands(b: Breaker, threshold: int, recovery: int, ops: seq<Op>, i: nat, j: nat)
    requires i < j <= |ops| && TrippedAt(b, threshold, recovery, ops, i)
    requires forall k :: i < k <= j ==> After(b, threshold, recovery, ops, k).circuit != Closed
    ensures After(b, threshold, recovery, ops, j).openTime == ops[i].now
  {
    if i + 1 < j { TripTimeStands(b, threshold, recovery, ops, i, j - 1); }
  }

  /** Until the breaker closes again, a request after a trip is admitted exactly when it finds the breaker
      open and comes at the recovery time after the trip, or later: also after failed trials.  It is the
      one trial that turns the breaker half open. */
  lemma AdmissionsAfterTrip(b: Breaker, threshold: int, recovery: int, ops: seq<Op>, i: nat, j: nat)
    requires i < j < |ops| && TrippedAt(b, threshold, recovery, ops, i)
    requires forall k :: i < k <= j ==> After(b, threshold, recovery, ops, k).circuit != Closed
    requires ops[j].Allow?
    ensures AdmittedAt(b, threshold, recovery, ops, j)
            <==> After(b, threshold, recovery, ops, j).circuit == Open && ops[j].now - ops[i].now >= recovery
    ensures AdmittedAt(b, threshold, recovery, ops, j) ==> After(b, threshold, recovery, ops, j + 1).circuit == HalfOpen
  {
    TripTimeStands(b, threshold, recovery, ops, i, j);
  }

  ghost predicate MonotoneClock(ops: seq<Op>) {
    forall i, j :: 0 <= i < j < |ops| && !ops[i].Success? && !ops[j].Success? ==> ops[i].now <= ops[j].now
  }

  /** From a trip on, and while the clock has not reached the recovery time, the breaker stays open. */
  lemma {:induction false} StaysOpen(b: Breaker, threshold: int, recovery: int, ops: seq<Op>, i: nat, j: nat)
    requires i < j <= |ops| && TrippedAt(b, threshold, recovery, ops, i)
    requires forall k :: i < k < j && !ops[k].Success? ==> ops[k].now < ops[i].now + recovery
    ensures After(b, threshold, recovery, ops, j).circuit == Open
    ensures After(b, threshold, recovery, ops, j).openTime == ops[i].now
  {
    if i + 1 < j { StaysOpen(b, threshold, recovery, ops, i, j - 1); }
  }

  /** With a clock that does not run backwards nothing is admitted between a trip and the recovery
      time after it, whatever else is called meanwhile. */
  lemma QuietAfterTrip(b: Breaker, threshold: int, recovery: int, ops: seq<Op>, i: nat, j: nat)
    requires i < j < |ops| && TrippedAt(b, threshold, recovery, ops, i) && MonotoneClock(ops)
    requires ops[j].Allow? && ops[j].now < ops[i].now + recovery
    ensures !AdmittedAt(b, threshold, recovery, ops, j)
  {
    StaysOpen(b, threshold, recovery, ops, i, j);
  }

  // ---------------------------------------------------------------------------------------------
  // Where the code departs from its specification
  // ---------------------------------------------------------------------------------------------

  /** How many of the first `n` calls report a failure. */
  function Failures(ops: seq<Op>, n: nat): nat
    requires n <= |ops|
  {
    if n == 0 then 0 else Failures(ops, n - 1) + if ops[n - 1].Failure? then 1 else 0
  }

  ghost predicate Tripped(b: Breaker, threshold: int, recovery: int, ops: seq<Op>, n: nat)
    requires n <= |ops|
  {
    exists i: nat :: i < n && TrippedAt(b, threshold, recovery, ops, i)
  }

  /** When a new breaker trips, whatever requests, successes and clock readings come in between: each
      report counts twice and nothing lowers the count, so about half the threshold is enough, and
      necessary. */
  lemma {:induction false} FailuresToOpen(b: Breaker, threshold: int, recovery: int, ops: seq<Op>, n: nat)
    requires b.circuit == Closed && b.failures == 0
    requires 1 <= threshold && n <= |ops| && 2 * Failures(ops, n) <= INT_MAX
    ensures After(b, threshold, recovery, ops, n).failures == 2 * Failures(ops, n)
    ensures Tripped(b, threshold, recovery, ops, n) <==> Failures(ops, n) >= threshold / 2 + 1
    ensures Failures(ops, n) < threshold / 2 + 1 ==> After(b, threshold, recovery, ops, n).circuit == Closed
  {
    if n != 0 {
      FailuresToOpen(b, threshold, recovery, ops, n - 1);
      if Tripped(b, threshold, recovery, ops, n - 1) {
        var i: nat :| i < n - 1 && TrippedAt(b, threshold, recovery, ops, i);
        assert i < n && TrippedAt(b, threshold, recovery, ops, i);
      } else {
        assert TrippedAt(b, threshold, recovery, ops, n - 1) <==> Failures(ops, n) >= threshold / 2 + 1;
      }
    }
  }

  /** The count over any history, with its wrap-around. */
  lemma {:induction false} CountIsDoubled(b: Breaker, threshold: int, recovery: int, ops: seq<Op>, n: nat)
    requires b.failures == 0 && n <= |ops|
    ensures After(b, threshold, recovery, ops, n).failures == Wrap32(2 * Failures(ops, n))
  {
    if n != 0 {
      CountIsDoubled(b, threshold, recovery, ops, n - 1);
      WrapTwo(2 * Failures(ops, n - 1));
    }
  }

  /** A breaker that has tripped before and closed again is tripped by the very next failure. */
  lemma NextFailureTripsAgain(b: Breaker, threshold: int, recovery: int, ops: seq<Op>, n: nat)
    requires b.circuit == Closed && b.failures == 0
    requires 1 <= threshold && n < |ops| && 2 * Failures(ops, n) < INT_MAX
    requires Tripped(b, threshold, recovery, ops, n)
    requires After(b, threshold, recovery, ops, n).circuit == Closed && ops[n].Failure?
    ensures TrippedAt(b, threshold, recovery, ops, n)
    ensures After(b, threshold, recovery, ops, n + 1).circuit == Open
  {
    FailuresToOpen(b, threshold, recovery, ops, n);
  }

  /** However often a trial fails, the recovery time is not waited for again: as long as a breaker that
      once was open has not closed, a request is let through exactly when it finds it open and comes at
      the recovery time after the old opening time, or later. */
  lemma {:induction false} ReopeningDoesNotWait(b: Breaker, threshold: int, recovery: int, ops: seq<Op>, n: nat)
    requires n <= |ops|
    requires forall k :: 0 <= k <= n ==> After(b, threshold, recovery, ops, k).circuit != Closed
    ensures After(b, threshold, recovery, ops, n).openTime == b.openTime
    ensures n < |ops| && ops[n].Allow? ==>
              (AdmittedAt(b, threshold, recovery, ops, n)
               <==> After(b, threshold, recovery, ops, n).circuit == Open && ops[n].now - b.openTime >= recovery)
  {
    if n != 0 {
      ReopeningDoesNotWait(b, threshold, recovery, ops, n - 1);
      assert After(b, threshold, recovery, ops, n - 1).circuit != Closed;
    }
  }
}
