/** Any number of threads run the message handler of src/main.cpp against one breaker.  Every load,
    fetch-and-add and compare-and-swap is a step of its own, and the outcome of the call to the model
    server and of the timeout test are the environment's choice. */
module BreakerProtocol {
  import opened Common
  import opened CircuitBreaker

  /** Where a caller stands.  `epoch` is 0 for a request admitted by a closed breaker, and otherwise
      the number of the half-open epoch that this caller's own swap opened.  `prev` is what its
      fetch-and-add returned. */
  datatype Pc =
    | Idle
    | Loading
    | TestTimeout
    | SwapToHalfOpen
    | Calling(epoch: nat)
    | SwapToClosed(epoch: nat)
    | CountFailure(epoch: nat)
    | LoadForTrip(epoch: nat, prev: int)
    | SwapToOpen(epoch: nat, prev: int)
    | StampTime(epoch: nat, prev: int)
    | LoadForReopen(epoch: nat, prev: int)
    | SwapToReopen(epoch: nat, prev: int)
    | CountAgain(epoch: nat, prev: int)

  /** The atomics, and a record of what happened: increments of the counter, failure reports begun
      (and those among them that read a count below the threshold) and completed, and how often the
      breaker tripped, reopened, became half open and closed again. */
  datatype Shared = Shared(
    threshold: int, circuit: Circuit, failures: int,
    adds: nat, begun: nat, low: nat, completed: nat,
    trips: nat, reopens: nat, entries: nat, closes: nat)

  /** `holder` is the caller whose swap opened the latest half-open epoch. */
  datatype State = State(sh: Shared, callers: seq<Pc>, holder: nat)

  /** The caller that moves, and the environment's choice where the code asks it: has the recovery
      time elapsed, did the call succeed. */
  datatype Step = Step(caller: nat, choice: bool)

  datatype Moved = Moved(sh: Shared, pc: Pc)

  predicate AtThreshold(sh: Shared, prev: int) {
    Wrap32(prev + 1) >= sh.threshold
  }

  /** One atomic step of one caller. */
  function Move(sh: Shared, pc: Pc, choice: bool): Moved {
    match pc
    case Idle => Moved(sh, Loading)
    // allow_request
    case Loading =>
      Moved(sh, match sh.circuit case Closed => Calling(0) case Open => TestTimeout case HalfOpen => Idle)
    case TestTimeout => Moved(sh, if choice then SwapToHalfOpen else Idle)
    case SwapToHalfOpen =>
      if sh.circuit == Open then
        Moved(sh.(circuit := HalfOpen, entries := sh.entries + 1), Calling(sh.entries + 1))
      else Moved(sh, Idle)
    // the call to the model server returns
    case Calling(epoch) => Moved(sh, if choice then SwapToClosed(epoch) else CountFailure(epoch))
    // record_success
    case SwapToClosed(_) =>
      Moved(if sh.circuit == HalfOpen then sh.(circuit := Closed, closes := sh.closes + 1) else sh, Idle)
    // record_failure
    case CountFailure(epoch) =>
      var counted := sh.(failures := Wrap32(sh.failures + 1), adds := sh.adds + 1, begun := sh.begun + 1);
      if AtThreshold(sh, sh.failures) then Moved(counted, LoadForTrip(epoch, sh.failures))
      else Moved(counted.(low := sh.low + 1), LoadForReopen(epoch, sh.failures))
    case LoadForTrip(epoch, prev) =>
      Moved(sh, if sh.circuit == Closed then SwapToOpen(epoch, prev) else LoadForReopen(epoch, prev))
    case SwapToOpen(epoch, prev) =>
      Moved(if sh.circuit == Closed then sh.(circuit := Open, trips := sh.trips + 1) else sh, StampTime(epoch, prev))
    case StampTime(epoch, prev) => Moved(sh, CountAgain(epoch, prev))
    case LoadForReopen(epoch, prev) =>
      Moved(sh, if sh.circuit == HalfOpen then SwapToReopen(epoch, prev) else CountAgain(epoch, prev))
    case SwapToReopen(epoch, prev) =>
      Moved(if sh.circuit == HalfOpen then sh.(circuit := Open, reopens := sh.reopens + 1) else sh,
            CountAgain(epoch, prev))
    case CountAgain(_, _) =>
      Moved(sh.(failures := Wrap32(sh.failures + 1), adds := sh.adds + 1, completed := sh.completed + 1), Idle)
  }

  predicate Enabled(s: State, step: Step) {
    step.caller < |s.callers|
  }

  function Next(s: State, step: Step): State
    requires Enabled(s, step)
  {
    var moved := Move(s.sh, s.callers[step.caller], step.choice);
    State(moved.sh, s.callers[step.caller := moved.pc],
          if moved.sh.entries > s.sh.entries then step.caller else s.holder)
  }

  ghost predicate Init(s: State) {
    && s.sh == Shared(s.sh.threshold, Closed, 0, 0, 0, 0, 0, 0, 0, 0, 0)
    && forall i :: 0 <= i < |s.callers| ==> s.callers[i] == Idle
  }

  ghost predicate Run(states: seq<State>, steps: seq<Step>) {
    && |states| == |steps| + 1
    && forall i :: 0 <= i < |steps| ==> Enabled(states[i], steps[i]) && states[i + 1] == Next(states[i], steps[i])
  }

  // ---------------------------------------------------------------------------------------------
  // The invariant
  // ---------------------------------------------------------------------------------------------

  /** The number of the half-open epoch that a caller opened and is still working on. */
  function EpochOf(pc: Pc): nat {
    if pc.Idle? || pc.Loading? || pc.TestTimeout? || pc.SwapToHalfOpen? then 0 else pc.epoch
  }

  /** The caller is in its call, or in its report at a point from which, were the breaker still half
      open, it could only go on to swap it out of that state. */
  predicate MustLeaveHalfOpen(pc: Pc) {
    pc.Calling? || pc.SwapToClosed? || pc.CountFailure? || pc.LoadForTrip? || pc.LoadForReopen? || pc.SwapToReopen?
  }

  predicate HasPrev(pc: Pc) {
    pc.LoadForTrip? || pc.SwapToOpen? || pc.StampTime? || pc.LoadForReopen? || pc.SwapToReopen? || pc.CountAgain?
  }

  /** Whether a caller is inside a failure report. */
  function Reporting(pc: Pc): int {
    if HasPrev(pc) then 1 else 0
  }

  /** Whether a caller is inside a failure report that read a count below the threshold. */
  function ReportingLow(threshold: int): Pc -> int {
    (pc: Pc) => if HasPrev(pc) && Wrap32(pc.prev + 1) < threshold then 1 else 0
  }

  /** Every circuit that opened was opened by a trip or a failed trial and left by a trial; every
      trial ended by closing or reopening, except the one under way. */
  ghost predicate FlowConserved(sh: Shared) {
    && sh.trips + sh.reopens == sh.entries + (if sh.circuit == Open then 1 else 0)
    && sh.entries == sh.closes + sh.reopens + (if sh.circuit == HalfOpen then 1 else 0)
  }

  /** The counter, and what is known of it while it has not wrapped around. */
  ghost predicate Counters(sh: Shared) {
    && sh.failures == Wrap32(sh.adds)
    && sh.adds == sh.begun + sh.completed
    && (sh.trips == 0 ==> sh.circuit == Closed)
    && (sh.adds <= INT_MAX && 0 < sh.trips ==> sh.threshold <= 2 * sh.begun - 1)
    && (sh.adds <= INT_MAX ==> sh.low <= sh.begun && (sh.low == 0 || sh.low < sh.threshold))
  }

  /** What a caller's position says about the shared state. */
  ghost predicate PcOk(sh: Shared, pc: Pc) {
    && EpochOf(pc) <= sh.entries
    && (HasPrev(pc) && sh.adds <= INT_MAX ==> 0 <= pc.prev <= 2 * sh.begun - 2)
    && (pc.SwapToOpen? || pc.LoadForTrip? ==> AtThreshold(sh, pc.prev))
    // A report that reached the threshold has tripped the breaker by the time it is past its swap.
    && (HasPrev(pc) && AtThreshold(sh, pc.prev) && sh.trips == 0 ==> pc.LoadForTrip? || pc.SwapToOpen?)
  }

  ghost predicate Totals(s: State) {
    && s.sh.begun == s.sh.completed + Sum(s.callers, Reporting)
    && (s.sh.trips == 0 ==> s.sh.low == s.sh.completed + Sum(s.callers, ReportingLow(s.sh.threshold)))
  }

  ghost predicate TrialUnderWay(s: State) {
    && s.holder < |s.callers|
    && EpochOf(s.callers[s.holder]) == s.sh.entries
    && MustLeaveHalfOpen(s.callers[s.holder])
  }

  /** An epoch number is carried by the one caller that opened the epoch. */
  ghost predicate EpochsDistinct(s: State) {
    forall i, j :: 0 <= i < j < |s.callers| && 0 < EpochOf(s.callers[i]) ==>
      EpochOf(s.callers[i]) != EpochOf(s.callers[j])
  }

  ghost predicate Inv(s: State) {
    && FlowConserved(s.sh)
    && Counters(s.sh)
    && (forall i :: 0 <= i < |s.callers| ==> PcOk(s.sh, s.callers[i]))
    && Totals(s)
    && EpochsDistinct(s)
    && (s.sh.circuit == HalfOpen ==> TrialUnderWay(s))
  }

  lemma InitInv(s: State)
    requires Init(s)
    ensures Inv(s)
  {
    SumZero(s.callers, Reporting);
    SumZero(s.callers, ReportingLow(s.sh.threshold));
  }

  lemma MoveFlow(sh: Shared, pc: Pc, choice: bool)
    requires FlowConserved(sh)
    ensures FlowConserved(Move(sh, pc, choice).sh)
  {
  }

  lemma MoveCounters(sh: Shared, pc: Pc, choice: bool)
    requires Counters(sh) && PcOk(sh, pc) && sh.completed <= sh.begun
    ensures Counters(Move(sh, pc, choice).sh)
  {
    WrapStep(sh.adds);
  }

  lemma MovePc(sh: Shared, pc: Pc, choice: bool)
    requires Counters(sh) && PcOk(sh, pc) && sh.completed <= sh.begun
    ensures PcOk(Move(sh, pc, choice).sh, Move(sh, pc, choice).pc)
  {
  }

  /** No step of one caller spoils what is known about another. */
  lemma MoveOthers(sh: Shared, pc: Pc, choice: bool, other: Pc)
    requires PcOk(sh, other)
    ensures PcOk(Move(sh, pc, choice).sh, other)
  {
  }

  lemma MoveTotals(sh: Shared, pc: Pc, choice: bool)
    requires PcOk(sh, pc)
    ensures var m := Move(sh, pc, choice);
            && m.sh.begun - sh.begun == m.sh.completed - sh.completed + Reporting(m.pc) - Reporting(pc)
            && (m.sh.trips == 0 ==>
                  m.sh.low - sh.low == m.sh.completed - sh.completed
                    + ReportingLow(sh.threshold)(m.pc) - ReportingLow(sh.threshold)(pc))
            && m.sh.threshold == sh.threshold && sh.trips <= m.sh.trips
  {
  }

  lemma MoveEpoch(sh: Shared, pc: Pc, choice: bool)
    ensures var m := Move(sh, pc, choice);
            && sh.entries <= m.sh.entries
            && (EpochOf(m.pc) == 0 || EpochOf(m.pc) == EpochOf(pc) || EpochOf(m.pc) == m.sh.entries == sh.entries + 1)
            // Only the swap from open to half open makes the breaker half open.
            && (m.sh.circuit == HalfOpen ==>
                  if m.sh.entries > sh.entries then m.pc == Calling(m.sh.entries) else sh.circuit == HalfOpen)
            // A caller that stands before the exit of a breaker that stays half open keeps standing there.
            && (m.sh.circuit == HalfOpen && MustLeaveHalfOpen(pc) ==>
                  MustLeaveHalfOpen(m.pc) && EpochOf(m.pc) == EpochOf(pc) && m.sh.entries == sh.entries)
  {
  }

  lemma StepInv(s: State, step: Step)
    requires Inv(s) && Enabled(s, step)
    ensures Inv(Next(s, step))
  {
    var s', i := Next(s, step), step.caller;
    SumBounds(s.callers, Reporting);
    MoveFlow(s.sh, s.callers[i], step.choice);
    MoveCounters(s.sh, s.callers[i], step.choice);
    forall j | 0 <= j < |s'.callers| ensures PcOk(s'.sh, s'.callers[j]) {
      if j == i { MovePc(s.sh, s.callers[i], step.choice); }
      else { MoveOthers(s.sh, s.callers[i], step.choice, s.callers[j]); }
    }
    StepTotals(s, step);
    StepEpochs(s, step);
  }

  lemma StepTotals(s: State, step: Step)
    requires Totals(s) && Enabled(s, step) && PcOk(s.sh, s.callers[step.caller])
    ensures Totals(Next(s, step))
  {
    var pc' := Next(s, step).callers[step.caller];
    MoveTotals(s.sh, s.callers[step.caller], step.choice);
    SumUpdate(s.callers, Reporting, step.caller, pc');
    SumUpdate(s.callers, ReportingLow(s.sh.threshold), step.caller, pc');
  }

  lemma StepEpochs(s: State, step: Step)
    requires Inv(s) && Enabled(s, step)
    ensures EpochsDistinct(Next(s, step))
    ensures Next(s, step).sh.circuit == HalfOpen ==> TrialUnderWay(Next(s, step))
  {
    MoveEpoch(s.sh, s.callers[step.caller], step.choice);
  }

  lemma {:induction false} RunInv(states: seq<State>, steps: seq<Step>, k: nat)
    requires Run(states, steps) && Init(states[0]) && k < |states|
    ensures Inv(states[k]) && states[k].sh.threshold == states[0].sh.threshold
  {
    if k == 0 {
      InitInv(states[0]);
    } else {
      RunInv(states, steps, k - 1);
      StepInv(states[k - 1], steps[k - 1]);
      MoveTotals(states[k - 1].sh, states[k - 1].callers[steps[k - 1].caller], steps[k - 1].choice);
    }
  }

  // ---------------------------------------------------------------------------------------------
  // What holds over every run
  // ---------------------------------------------------------------------------------------------

  /** Half open never wedges: exactly one caller opened the current epoch, and it is still in its call
      or on its way to swap the breaker out of that state. */
  lemma HalfOpenNeverWedges(states: seq<State>, steps: seq<Step>, k: nat)
    requires Run(states, steps) && Init(states[0]) && k < |states|
    requires states[k].sh.circuit == HalfOpen
    ensures var s := states[k];
            exists i :: 0 <= i < |s.callers| && EpochOf(s.callers[i]) == s.sh.entries && MustLeaveHalfOpen(s.callers[i])
              && forall j :: 0 <= j < |s.callers| && j != i ==> EpochOf(s.callers[j]) != s.sh.entries
  {
    RunInv(states, steps, k);
    var s := states[k];
    assert 0 < s.sh.entries;
    assert EpochOf(s.callers[s.holder]) == s.sh.entries && MustLeaveHalfOpen(s.callers[s.holder]);
  }

  /** With no admitted request under way the breaker is closed or open. */
  lemma QuiescentIsNotHalfOpen(states: seq<State>, steps: seq<Step>, k: nat)
    requires Run(states, steps) && Init(states[0]) && k < |states|
    requires forall i :: 0 <= i < |states[k].callers| ==> !MustLeaveHalfOpen(states[k].callers[i])
    ensures states[k].sh.circuit == Closed || states[k].sh.circuit == Open
  {
    RunInv(states, steps, k);
  }

  /** How many steps of its own the caller of a trial needs at most to end the half-open state. */
  function LeaveRank(pc: Pc): nat {
    match pc
    case Calling(_) => 5
    case CountFailure(_) => 4
    case LoadForTrip(_, _) => 3
    case LoadForReopen(_, _) => 2
    case SwapToReopen(_, _) => 1
    case SwapToClosed(_) => 1
    case _ => 0
  }

  /** Each step of the trial's caller brings the end of the half-open state nearer, and nobody else's
      step moves it away. */
  lemma TrialMakesProgress(s: State, step: Step)
    requires Inv(s) && Enabled(s, step) && s.sh.circuit == HalfOpen
    ensures var s' := Next(s, step);
            s'.sh.circuit != HalfOpen
            || (s'.holder == s.holder && s'.sh.entries == s.sh.entries
                && LeaveRank(s'.callers[s.holder])
                   <= LeaveRank(s.callers[s.holder]) - if step.caller == s.holder then 1 else 0)
    ensures 1 <= LeaveRank(s.callers[s.holder]) <= 5
  {
  }

  /** How many of the steps a caller takes. */
  function StepsOf(steps: seq<Step>, caller: nat): nat {
    if steps == [] then 0
    else StepsOf(steps[..|steps| - 1], caller) + if steps[|steps| - 1].caller == caller then 1 else 0
  }

  /** However the steps of the others interleave, the breaker does not stay half open while the caller of
      the trial takes five steps. */
  lemma {:induction false} TrialEnds(states: seq<State>, steps: seq<Step>)
    requires Run(states, steps) && Inv(states[0])
    requires forall k :: 0 <= k < |states| ==> states[k].sh.circuit == HalfOpen
    ensures Inv(states[|steps|]) && states[|steps|].holder == states[0].holder
    ensures StepsOf(steps, states[0].holder)
         <= LeaveRank(states[0].callers[states[0].holder]) - LeaveRank(states[|steps|].callers[states[0].holder])
    ensures StepsOf(steps, states[0].holder) < 5
  {
    if steps != [] {
      var n := |steps| - 1;
      TrialEnds(states[..n + 1], steps[..n]);
      StepInv(states[n], steps[n]);
      TrialMakesProgress(states[n], steps[n]);
    }
  }

  /** A step with which a caller is admitted, and one that admits it after it found the breaker open. */
  predicate Admission(s: State, step: Step) {
    Enabled(s, step) && !s.callers[step.caller].Calling? && Next(s, step).callers[step.caller].Calling?
  }

  predicate Trial(s: State, step: Step) {
    Admission(s, step) && !s.callers[step.caller].Loading?
  }

  /** How many trials the first `k` steps of a run admit. */
  function Trials(states: seq<State>, steps: seq<Step>, k: nat): nat
    requires k <= |steps| < |states|
  {
    if k == 0 then 0 else Trials(states, steps, k - 1) + if Trial(states[k - 1], steps[k - 1]) then 1 else 0
  }

  lemma StepTrial(s: State, step: Step)
    requires Enabled(s, step)
    ensures Next(s, step).sh.entries == s.sh.entries + if Trial(s, step) then 1 else 0
    ensures Admission(s, step) && s.sh.circuit != Closed ==>
              Trial(s, step) && s.sh.circuit == Open && Next(s, step).sh.circuit == HalfOpen
  {
  }

  /** A breaker that is not closed admits only trials, one for each half-open epoch: there are no more of
      them than openings, so no open episode lets two through. */
  lemma {:induction false} OneTrialEach(states: seq<State>, steps: seq<Step>, k: nat)
    requires Run(states, steps) && Init(states[0]) && k < |states|
    ensures Trials(states, steps, k) == states[k].sh.entries <= states[k].sh.trips + states[k].sh.reopens
    ensures forall j :: 0 <= j < k && Admission(states[j], steps[j]) && states[j].sh.circuit != Closed ==>
              Trial(states[j], steps[j]) && states[j].sh.circuit == Open && states[j + 1].sh.circuit == HalfOpen
  {
    RunInv(states, steps, k);
    if k != 0 {
      OneTrialEach(states, steps, k - 1);
      StepTrial(states[k - 1], steps[k - 1]);
    }
  }

  /** The books of the breaker balance. */
  lemma FlowOverRuns(states: seq<State>, steps: seq<Step>, k: nat)
    requires Run(states, steps) && Init(states[0]) && k < |states|
    ensures var s := states[k];
            && s.sh.trips + s.sh.reopens == s.sh.entries + (if s.sh.circuit == Open then 1 else 0)
            && s.sh.entries == s.sh.closes + s.sh.reopens + (if s.sh.circuit == HalfOpen then 1 else 0)
  {
    RunInv(states, steps, k);
  }

  /** The trip bound from below: because every report counts twice, about half the threshold can
      suffice, but fewer than half never open the breaker. */
  lemma NeverTripsEarly(states: seq<State>, steps: seq<Step>, k: nat)
    requires Run(states, steps) && Init(states[0]) && k < |states|
    requires states[0].sh.threshold >= 1 && states[k].sh.adds <= INT_MAX
    requires states[k].sh.circuit != Closed || states[k].sh.trips > 0
    ensures states[k].sh.begun >= states[0].sh.threshold / 2 + 1
  {
    RunInv(states, steps, k);
  }

  /** The trip bound from above: once as many reports have completed as the threshold says, the
      breaker has opened at least once, whatever successes came in between. */
  lemma TripsInTime(states: seq<State>, steps: seq<Step>, k: nat)
    requires Run(states, steps) && Init(states[0]) && k < |states|
    requires states[0].sh.threshold >= 1 && states[k].sh.adds <= INT_MAX
    requires states[k].sh.completed >= states[0].sh.threshold
    ensures states[k].sh.trips > 0
  {
    RunInv(states, steps, k);
    SumBounds(states[k].callers, ReportingLow(states[k].sh.threshold));
  }

  // ---------------------------------------------------------------------------------------------
  // Calls that nobody interrupts
  // ---------------------------------------------------------------------------------------------

  function Remaining(pc: Pc): nat {
    match pc
    case Idle => 0
    case Calling(_) => 0
    case Loading => 3
    case TestTimeout => 2
    case SwapToHalfOpen => 1
    case SwapToClosed(_) => 1
    case CountFailure(_) => 6
    case LoadForTrip(_, _) => 5
    case SwapToOpen(_, _) => 4
    case StampTime(_, _) => 3
    case LoadForReopen(_, _) => 4
    case SwapToReopen(_, _) => 3
    case CountAgain(_, _) => 1
  }

  /** What a caller reaches that runs to the end of the breaker's method it is in, nobody else moving. */
  function Alone(sh: Shared, pc: Pc, choice: bool): Moved
    decreases Remaining(pc)
  {
    if pc.Idle? || pc.Calling? then Moved(sh, pc)
    else
      var m := Move(sh, pc, choice);
      Alone(m.sh, m.pc, choice)
  }

  /** An uninterrupted caller ends in its call or idle, and keeps the threshold. */
  lemma {:induction false} AloneStops(sh: Shared, pc: Pc, choice: bool)
    ensures var m := Alone(sh, pc, choice); (m.pc.Idle? || m.pc.Calling?) && m.sh.threshold == sh.threshold
    decreases Remaining(pc)
  {
    if !pc.Idle? && !pc.Calling? { AloneStops(Move(sh, pc, choice).sh, Move(sh, pc, choice).pc, choice); }
  }

  /** Run without interruption, the atomic steps of `allow_request` are that method. */
  lemma AllowAlone(sh: Shared, openTime: int, recovery: int, now: int)
    ensures var b := Breaker(sh.circuit, sh.failures, openTime);
            var m := Alone(sh, Loading, now - openTime >= recovery);
            && (m.pc.Calling? <==> Admits(b, recovery, now))
            && m.sh.circuit == Apply(b, sh.threshold, recovery, Allow(now)).circuit
            && m.sh.failures == sh.failures
  {
    var elapsed := now - openTime >= recovery;
    if sh.circuit == Open {
      assert Alone(sh, Loading, elapsed) == Alone(sh, TestTimeout, elapsed);
      if elapsed {
        assert Alone(sh, TestTimeout, elapsed) == Alone(sh, SwapToHalfOpen, elapsed);
        var m := Move(sh, SwapToHalfOpen, elapsed);
        assert Alone(sh, SwapToHalfOpen, elapsed) == Alone(m.sh, m.pc, elapsed);
      }
    }
  }

  /** The second half of a report: the last increment alone, and with the reopening swap before it. */
  lemma ReopenAlone(sh: Shared, epoch: nat, prev: int, choice: bool)
    ensures var m, m' := Alone(sh, CountAgain(epoch, prev), choice), Alone(sh, LoadForReopen(epoch, prev), choice);
            && m.pc == Idle && m.sh == Move(sh, CountAgain(epoch, prev), choice).sh
            && m'.pc == Idle && m'.sh.completed == sh.completed + 1 && m'.sh.failures == Wrap32(sh.failures + 1)
            && m'.sh.circuit == if sh.circuit == HalfOpen then Open else sh.circuit
  {
    var again := Move(sh, CountAgain(epoch, prev), choice);
    assert Alone(sh, CountAgain(epoch, prev), choice) == Alone(again.sh, again.pc, choice);
    if sh.circuit == HalfOpen {
      var reopened := Move(sh, SwapToReopen(epoch, prev), choice);
      var done := Move(reopened.sh, CountAgain(epoch, prev), choice);
      assert Alone(sh, LoadForReopen(epoch, prev), choice) == Alone(sh, SwapToReopen(epoch, prev), choice)
          == Alone(reopened.sh, CountAgain(epoch, prev), choice) == Alone(done.sh, done.pc, choice);
    } else {
      assert Alone(sh, LoadForReopen(epoch, prev), choice) == Alone(sh, CountAgain(epoch, prev), choice);
    }
  }

  lemma TripAlone(sh: Shared, epoch: nat, prev: int, choice: bool)
    requires sh.circuit == Closed
    ensures var m := Alone(sh, LoadForTrip(epoch, prev), choice);
            && m.pc == Idle && m.sh.completed == sh.completed + 1 && m.sh.failures == Wrap32(sh.failures + 1)
            && m.sh.circuit == Open
  {
    var tripped := Move(sh, SwapToOpen(epoch, prev), choice);
    ReopenAlone(tripped.sh, epoch, prev, choice);
    assert Alone(sh, LoadForTrip(epoch, prev), choice) == Alone(sh, SwapToOpen(epoch, prev), choice)
        == Alone(tripped.sh, StampTime(epoch, prev), choice) == Alone(tripped.sh, CountAgain(epoch, prev), choice);
  }

  /** The same for `record_failure`, whose two increments and one or two swaps make one report. */
  lemma FailureAlone(sh: Shared, epoch: nat, choice: bool, openTime: int, recovery: int, now: int)
    ensures var b' := Apply(Breaker(sh.circuit, sh.failures, openTime), sh.threshold, recovery, Failure(now));
            var m := Alone(sh, CountFailure(epoch), choice);
            && m.pc == Idle && m.sh.completed == sh.completed + 1
            && m.sh.circuit == b'.circuit && m.sh.failures == b'.failures
  {
    WrapStep(sh.failures + 1);
    var counted := Move(sh, CountFailure(epoch), choice);
    assert Alone(sh, CountFailure(epoch), choice) == Alone(counted.sh, counted.pc, choice);
    ReopenAlone(counted.sh, epoch, sh.failures, choice);
    if counted.pc.LoadForTrip? {
      if sh.circuit == Closed {
        TripAlone(counted.sh, epoch, sh.failures, choice);
      } else {
        assert Alone(counted.sh, counted.pc, choice) == Alone(counted.sh, LoadForReopen(epoch, sh.failures), choice);
      }
    }
  }

  lemma SuccessAlone(sh: Shared, epoch: nat, choice: bool, openTime: int, recovery: int)
    ensures var b' := Apply(Breaker(sh.circuit, sh.failures, openTime), sh.threshold, recovery, Success);
            var m := Alone(sh, SwapToClosed(epoch), choice);
            m.pc == Idle && m.sh.circuit == b'.circuit && m.sh.failures == b'.failures
  {
    var m := Move(sh, SwapToClosed(epoch), choice);
    assert Alone(sh, SwapToClosed(epoch), choice) == Alone(m.sh, m.pc, choice);
  }
}
