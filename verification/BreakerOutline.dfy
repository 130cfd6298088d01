/** The breaker that the outline in src/utils/circuit_breaker.cpp and the tests describe, and exactly when
    the code behaves like it. */
module BreakerOutline {
  import opened Common
  import opened CircuitBreaker

  /** One call, as outlined: a failure counts once and only while closed, a success resets the count, and
      every opening records its time. */
  function Outline(o: Breaker, threshold: int, recovery: int, op: Op): Breaker {
    match op
    case Allow(now) =>
      if o.circuit == Open && now - o.openTime >= recovery then o.(circuit := HalfOpen) else o
    case Success =>
      Breaker(if o.circuit == HalfOpen then Closed else o.circuit, 0, o.openTime)
    case Failure(now) =>
      match o.circuit
      case HalfOpen => o.(circuit := Open, openTime := now)
      case Open => o
      case Closed =>
        if o.failures + 1 >= threshold then Breaker(Open, o.failures + 1, now) else o.(failures := o.failures + 1)
  }

  function OutlineAfter(b: Breaker, threshold: int, recovery: int, ops: seq<Op>, n: nat): Breaker
    requires n <= |ops|
  {
    if n == 0 then b else Outline(OutlineAfter(b, threshold, recovery, ops, n - 1), threshold, recovery, ops[n - 1])
  }

  /** How many failures the first `n` calls report since the last success among them. */
  function Streak(ops: seq<Op>, n: nat): nat
    requires n <= |ops|
  {
    if n == 0 then 0
    else match ops[n - 1]
         case Allow(_) => Streak(ops, n - 1)
         case Success => 0
         case Failure(_) => Streak(ops, n - 1) + 1
  }

  /** What a closed breaker of the outline counts: it closed with a success. */
  lemma {:induction false} OutlineCounts(b: Breaker, threshold: int, recovery: int, ops: seq<Op>, n: nat)
    requires b.circuit == Closed && b.failures == 0 && n <= |ops|
    ensures var o := OutlineAfter(b, threshold, recovery, ops, n); o.circuit == Closed ==> o.failures == Streak(ops, n)
  {
    if n != 0 { OutlineCounts(b, threshold, recovery, ops, n - 1); }
  }

  /** Whether the next call meets the code and the outline with guards that agree.  A failure that finds
      the breaker closed: twice all failures so far and one, against those since the last success and
      one.  A request that finds it open: the time since the last trip, against the time since the
      last opening. */
  predicate GuardsAgree(b: Breaker, threshold: int, recovery: int, ops: seq<Op>, k: nat)
    requires k < |ops|
  {
    var o := OutlineAfter(b, threshold, recovery, ops, k);
    match ops[k]
    case Allow(now) =>
      o.circuit == Open ==>
        (now - After(b, threshold, recovery, ops, k).openTime >= recovery <==> now - o.openTime >= recovery)
    case Success => true
    case Failure(_) =>
      o.circuit == Closed ==> (Wrap32(2 * Failures(ops, k) + 1) >= threshold <==> Streak(ops, k) + 1 >= threshold)
  }

  predicate SameCircuit(b: Breaker, threshold: int, recovery: int, ops: seq<Op>, k: nat)
    requires k <= |ops|
  {
    After(b, threshold, recovery, ops, k).circuit == OutlineAfter(b, threshold, recovery, ops, k).circuit
  }

  /** From a state on which code and outline agree, they agree after the next call exactly when its
      guards do. */
  lemma StepAgrees(b: Breaker, threshold: int, recovery: int, ops: seq<Op>, k: nat)
    requires b.circuit == Closed && b.failures == 0 && k < |ops|
    requires SameCircuit(b, threshold, recovery, ops, k)
    ensures SameCircuit(b, threshold, recovery, ops, k + 1) <==> GuardsAgree(b, threshold, recovery, ops, k)
  {
    CountIsDoubled(b, threshold, recovery, ops, k);
    WrapStep(2 * Failures(ops, k));
    OutlineCounts(b, threshold, recovery, ops, k);
  }

  /** Over any history of calls, a new breaker goes through the states of the outline, trips, trials and
      closings included, if and only if the guards agree at every call. */
  lemma {:induction false} OutlineMetIff(b: Breaker, threshold: int, recovery: int, ops: seq<Op>, n: nat)
    requires b.circuit == Closed && b.failures == 0 && n <= |ops|
    ensures (forall k :: 0 <= k <= n ==> SameCircuit(b, threshold, recovery, ops, k))
            <==> (forall k :: 0 <= k < n ==> GuardsAgree(b, threshold, recovery, ops, k))
  {
    if n == 0 {
      assert SameCircuit(b, threshold, recovery, ops, 0);
    } else {
      OutlineMetIff(b, threshold, recovery, ops, n - 1);
      if SameCircuit(b, threshold, recovery, ops, n - 1) { StepAgrees(b, threshold, recovery, ops, n - 1); }
    }
  }

  /** Every opening of the outline records its time, that of a failed trial too. */
  lemma OutlineStamps(b: Breaker, threshold: int, recovery: int, ops: seq<Op>, n: nat)
    requires n < |ops|
    requires OutlineAfter(b, threshold, recovery, ops, n).circuit != Open
    requires OutlineAfter(b, threshold, recovery, ops, n + 1).circuit == Open
    ensures ops[n].Failure? && OutlineAfter(b, threshold, recovery, ops, n + 1).openTime == ops[n].now
  {
  }

  lemma {:induction false} StreakBound(ops: seq<Op>, n: nat)
    requires n <= |ops|
    ensures Streak(ops, n) <= Failures(ops, n)
  {
    if n != 0 { StreakBound(ops, n - 1); }
  }

  /** The code never trips later than the outline: by the time the outline has opened, it has tripped. */
  lemma {:induction false} NeverTripsLate(b: Breaker, threshold: int, recovery: int, ops: seq<Op>, n: nat)
    requires b.circuit == Closed && b.failures == 0
    requires 1 <= threshold && n <= |ops| && 2 * Failures(ops, n) <= INT_MAX
    requires OutlineAfter(b, threshold, recovery, ops, n).circuit != Closed
    ensures Tripped(b, threshold, recovery, ops, n)
  {
    if OutlineAfter(b, threshold, recovery, ops, n - 1).circuit == Closed {
      OutlineCounts(b, threshold, recovery, ops, n - 1);
      StreakBound(ops, n - 1);
    } else {
      NeverTripsLate(b, threshold, recovery, ops, n - 1);
    }
    FailuresToOpen(b, threshold, recovery, ops, n);
    FailuresToOpen(b, threshold, recovery, ops, n - 1);
  }

  const FRESH := Breaker(Closed, 0, 0)

  /** The histories of the tests, with a threshold of 3 and at any times: two failures open the breaker
      already, and after two failures, a success and two failures it is open, where the outline and the
      tests have it closed. */
  lemma TestsNotMet(recovery: int, t: seq<int>)
    requires |t| == 4
    ensures var ops := [Failure(t[0]), Failure(t[1]), Success, Failure(t[2]), Failure(t[3])];
            && After(FRESH, 3, recovery, ops, 2).circuit == After(FRESH, 3, recovery, ops, 5).circuit == Open
            && OutlineAfter(FRESH, 3, recovery, ops, 2).circuit == Closed
            && OutlineAfter(FRESH, 3, recovery, ops, 5).circuit == Closed
  {
    var ops := [Failure(t[0]), Failure(t[1]), Success, Failure(t[2]), Failure(t[3])];
    assert After(FRESH, 3, recovery, ops, 1) == Breaker(Closed, 2, 0);
    assert After(FRESH, 3, recovery, ops, 2) == Breaker(Open, 4, t[1]);
    assert After(FRESH, 3, recovery, ops, 3) == Breaker(Open, 4, t[1]);
    assert After(FRESH, 3, recovery, ops, 4) == Breaker(Open, 6, t[1]);
    assert OutlineAfter(FRESH, 3, recovery, ops, 1) == Breaker(Closed, 1, 0);
    assert OutlineAfter(FRESH, 3, recovery, ops, 2) == Breaker(Closed, 2, 0);
    assert OutlineAfter(FRESH, 3, recovery, ops, 3) == Breaker(Closed, 0, 0);
    assert OutlineAfter(FRESH, 3, recovery, ops, 4) == Breaker(Closed, 1, 0);
  }

  /** A history on which the first trip comes when the outline says: two failures, a trial after the
      recovery time, its success.  One failure later the code is open and the outline closed. */
  lemma RecoveryNotMet(recovery: int, t: seq<int>)
    requires |t| == 4 && t[2] - t[1] >= recovery
    ensures var ops := [Failure(t[0]), Failure(t[1]), Allow(t[2]), Success, Failure(t[3])];
            && (forall k :: 0 <= k <= 4 ==> SameCircuit(FRESH, 2, recovery, ops, k))
            && After(FRESH, 2, recovery, ops, 5).circuit == Open
            && OutlineAfter(FRESH, 2, recovery, ops, 5).circuit == Closed
  {
    var ops := [Failure(t[0]), Failure(t[1]), Allow(t[2]), Success, Failure(t[3])];
    assert After(FRESH, 2, recovery, ops, 1) == Breaker(Closed, 2, 0);
    assert After(FRESH, 2, recovery, ops, 2) == Breaker(Open, 4, t[1]);
    assert After(FRESH, 2, recovery, ops, 3) == Breaker(HalfOpen, 4, t[1]);
    assert After(FRESH, 2, recovery, ops, 4) == Breaker(Closed, 4, t[1]);
    assert OutlineAfter(FRESH, 2, recovery, ops, 1) == Breaker(Closed, 1, 0);
    assert OutlineAfter(FRESH, 2, recovery, ops, 2) == Breaker(Open, 2, t[1]);
    assert OutlineAfter(FRESH, 2, recovery, ops, 3) == Breaker(HalfOpen, 2, t[1]);
    assert OutlineAfter(FRESH, 2, recovery, ops, 4) == Breaker(Closed, 0, t[1]);
  }
}
