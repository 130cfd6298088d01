/** What the pool guarantees over every run: first in first out, no lost wakeup, a drained queue when
    the destructor returns, and that the destructor does return. */
module PoolTheorems {
  import opened Common
  import opened ThreadPool
  import opened PoolProtocol

  // ---------------------------------------------------------------------------------------------
  // Safety
  // ---------------------------------------------------------------------------------------------

  /** Under every interleaving the tasks start in the order in which they were accepted, the backlog
      stays within its bound, no worker leaves before shutdown (also when tasks throw), and a worker
      never takes from an empty queue. */
  lemma FifoOverRuns(states: seq<State>, steps: seq<Step>, k: nat)
    requires Run(states, steps) && Init(states[0]) && k < |states|
    ensures states[k].sh.accepted == states[k].sh.started + states[k].sh.queue
    ensures |states[k].sh.queue| <= states[k].sh.max
    ensures forall i :: 0 <= i < |states[k].threads| && states[k].threads[i] == Worker(Exited) ==> states[k].sh.shutdown
    ensures forall i: nat :: WorkerAt(states[k], i) && Enabled(states[k], Decide(i)) ==>
              states[k].sh.queue != [] || states[k].sh.shutdown
  {
    RunInv(states, steps, k);
  }

  /** No lost wakeup: while a worker sleeps, every queued task is covered by a notification that is
      still to be sent or by a worker that was notified and is on its way to the queue. */
  lemma NoLostWakeup(states: seq<State>, steps: seq<Step>, k: nat)
    requires Run(states, steps) && Init(states[0]) && k < |states|
    requires !states[k].sh.shutdown && !NobodyBlocked(states[k])
    ensures |states[k].sh.queue| <= Sum(states[k].threads, Credit)
  {
    RunInv(states, steps, k);
  }

  /** Shutdown leaves nobody asleep: a worker found waiting after the flag was set is one that
      `notify_all` has still to wake, and no worker can fall asleep any more. */
  lemma NobodySleepsThroughShutdown(s: State, step: Step)
    requires Inv(s) && s.sh.shutdown && Enabled(s, step)
    ensures !NobodyBlocked(s) ==> s.dtor == MustNotify
    ensures Next(s, step).sh.shutdown
    ensures forall i :: IsBlocked(Next(s, step), i) ==> IsBlocked(s, i)
  {
  }

  /** After shutdown began no call of `enqueue` is accepted, from a client or from a task. */
  lemma LateCallsAreRejected(s: State, step: Step)
    requires Inv(s) && s.sh.shutdown && Enabled(s, step)
    ensures Next(s, step).sh.accepted == s.sh.accepted
    ensures step.EnqueueBody? ==>
              && Next(s, step).sh.rejected == s.sh.rejected + [CallOf(s.threads[step.i]).job]
              && CallOf(Next(s, step).threads[step.i]) == NoCall
  {
  }

  /** Each call of `enqueue` has one fate at most: accepted once, or rejected once. */
  lemma OneFate(s: State, job: Job)
    requires Inv(s)
    ensures Count(s.sh.accepted, job) + Count(s.sh.rejected, job) <= 1
  {
    assert Balanced(s, job);
    DistinctOccurOnce(s.submitted, job);
    SumBounds(s.threads, InCall(job));
  }

  /** What never happens to a call is that it is rejected and run all the same. */
  lemma RejectedNeverRuns(states: seq<State>, steps: seq<Step>, k: nat, job: Job)
    requires Run(states, steps) && Init(states[0]) && k < |states|
    requires job in states[k].sh.rejected
    ensures job !in states[k].sh.started && job !in states[k].sh.queue && job !in states[k].finished
    ensures forall i: nat :: WorkerAt(states[k], i) && states[k].threads[i].pc.Running? ==>
              states[k].threads[i].pc.job != job
  {
    var s := states[k];
    RunInv(states, steps, k);
    OneFate(s, job);
    CountPositive(s.sh.rejected, job);
    CountConcat(s.sh.started, s.sh.queue, job);
    CountPositive(s.sh.started, job);
    CountPositive(s.sh.queue, job);
    CountPositive(s.finished, job);
    assert Balanced(s, job);
    SumBounds(s.threads, InRun(job));
    forall i: nat | WorkerAt(s, i) && s.threads[i].pc.Running? ensures s.threads[i].pc.job != job {
      assert InRun(job)(s.threads[i]) <= Sum(s.threads, InRun(job));
    }
  }

  /** When the destructor returns the queue is empty, every accepted task was started, in order, and
      each finished exactly once, whether it returned or threw. */
  lemma DrainedWhenDestroyed(states: seq<State>, steps: seq<Step>, k: nat, job: Job)
    requires Run(states, steps) && Init(states[0]) && k < |states|
    requires states[k].dtor == Destroyed
    ensures states[k].sh.queue == [] && states[k].sh.started == states[k].sh.accepted
    ensures Count(states[k].finished, job) == if job in states[k].sh.accepted then 1 else 0
  {
    var s := states[k];
    RunInv(states, steps, k);
    assert s.threads[0] == Worker(Exited);
    assert s.sh.started + [] == s.sh.started;
    assert Balanced(s, job);
    OneFate(s, job);
    CountPositive(s.sh.accepted, job);
    SumZero(s.threads, InRun(job));
  }

  // ---------------------------------------------------------------------------------------------
  // Termination of the destructor
  // ---------------------------------------------------------------------------------------------

  function CallWeight(call: Call): int {
    match call
    case NoCall => 0
    case Entering(_) => 2
    case Holding(_) => 1
    case Notifying => 1
  }

  /** How many steps a thread can still take before it has to take a task from the queue. */
  function Weight(t: Thread): int {
    match t
    case Client(call) => CallWeight(call)
    case Worker(Blocked) => 6
    case Worker(Starting) => 5
    case Worker(Woken(_)) => 5
    case Worker(Checking(_)) => 4
    case Worker(Deciding(_)) => 3
    case Worker(Running(_, rest, call)) => 6 + 3 * |rest| + CallWeight(call)
    case Worker(Exited) => 0
  }

  /** What taking a task costs: the worker that takes it walks its loop once more. */
  function JobWeight(job: Job): int {
    4 + 3 * |job.task.spawns|
  }

  function DestructorWeight(s: State): int {
    match s.dtor
    case MustNotify => s.workers + 2
    case Joining(next) => s.workers + 1 - next
    case _ => 0
  }

  ghost function Measure(s: State): int {
    Sum(s.sh.queue, JobWeight) + Sum(s.threads, Weight) + DestructorWeight(s)
  }

  lemma MeasureIsNatural(s: State)
    requires Shape(s)
    ensures 0 <= Measure(s)
  {
    SumBounds(s.sh.queue, JobWeight);
    SumBounds(s.threads, Weight);
  }

  /** The worker or client that takes a step pays for it, and for what it takes from the queue. */
  lemma ActorPays(s: State, step: Step, i: nat)
    requires Inv(s) && s.sh.shutdown && Enabled(s, step) && Actor(step) == Some(i)
    ensures Sum(Next(s, step).sh.queue, JobWeight) + Weight(Next(s, step).threads[i])
         <= Sum(s.sh.queue, JobWeight) + Weight(s.threads[i]) + if step.ClientCall? then 2 else -1
    ensures Next(s, step).dtor == s.dtor && Next(s, step).workers == s.workers
  {
  }

  /** Once the flag is set every step makes the measure smaller, whoever takes it; only a client that
      starts a further call makes it larger, by two. */
  lemma MeasureDecreases(s: State, step: Step)
    requires Inv(s) && s.sh.shutdown && Enabled(s, step)
    ensures Measure(Next(s, step)) <= Measure(s) + if step.ClientCall? then 2 else -1
  {
    if step.NotifyAll? {
      SumPointwise(s.threads, WakeAll(s.threads), Weight);
    } else {
      StepSum(s, step, Weight);
      if Actor(step).Some? { ActorPays(s, step, Actor(step).value); }
    }
  }

  /** How many calls clients start along a run. */
  ghost function ClientCalls(steps: seq<Step>): nat {
    if steps == [] then 0
    else (if steps[|steps| - 1].ClientCall? then 1 else 0) + ClientCalls(steps[..|steps| - 1])
  }

  /** A run that starts after the flag was set is no longer than the measure of its first state and
      three steps for every call a client starts meanwhile: shutdown cannot go on for ever. */
  lemma {:induction false} ShutdownIsBounded(states: seq<State>, steps: seq<Step>)
    requires Run(states, steps) && Inv(states[0]) && states[0].sh.shutdown
    ensures Inv(states[|steps|]) && states[|steps|].sh.shutdown
    ensures |steps| + Measure(states[|steps|]) <= Measure(states[0]) + 3 * ClientCalls(steps)
  {
    if steps != [] {
      var n := |steps| - 1;
      ShutdownIsBounded(states[..n + 1], steps[..n]);
      assert Enabled(states[n], steps[n]) && states[n + 1] == Next(states[n], steps[n]);
      StepInv(states[n], steps[n]);
      MeasureDecreases(states[n], steps[n]);
    }
  }

  /** A step that neither the environment nor the scheduler's whim has to provide. */
  predicate OwnStep(step: Step) {
    !step.ClientCall? && !step.Spurious? && !step.DestructorEnter?
  }

  /** The step a running task, or a call of `enqueue`, takes next. */
  lemma CallProgress(s: State, i: nat) returns (step: Step)
    requires At(s, i) && s.owner == Free && !CallOf(s.threads[i]).Holding?
    requires CallOf(s.threads[i]) != NoCall || (s.threads[i].Worker? && s.threads[i].pc.Running?)
    ensures Enabled(s, step) && OwnStep(step)
  {
    match CallOf(s.threads[i])
    case Entering(_) => step := EnqueueLock(i);
    case Notifying =>
      step := NotifyOne(i, 0);
      if !NobodyBlocked(s) {
        var w :| 0 <= w < |s.threads| && s.threads[w] == Worker(Blocked);
        step := NotifyOne(i, w);
      }
    case NoCall =>
      if s.threads[i].pc.rest != [] { step := SpawnCall(i); } else { step := Finish(i); }
  }

  /** While a thread is inside a critical section that thread can move. */
  lemma HolderProgress(s: State) returns (step: Step)
    requires Inv(s) && s.owner != Free
    ensures Enabled(s, step) && OwnStep(step)
  {
    match s.owner
    case HeldByDestructor => step := SetShutdown;
    case HeldBy(i) =>
      assert Holds(s.threads[i]);
      if CallOf(s.threads[i]).Holding? { step := EnqueueBody(i); }
      else if s.threads[i].pc.Checking? { step := CheckPredicate(i); }
      else { step := Decide(i); }
  }

  /** A worker that is neither asleep nor gone can move when the mutex is free. */
  lemma WorkerProgress(s: State, i: nat) returns (step: Step)
    requires Inv(s) && s.owner == Free && WorkerAt(s, i)
    requires s.threads[i] != Worker(Blocked) && s.threads[i] != Worker(Exited)
    ensures Enabled(s, step) && OwnStep(step)
  {
    assert !Holds(s.threads[i]);
    if s.threads[i].pc.Running? {
      step := CallProgress(s, i);
    } else {
      step := WorkerLock(i);
    }
  }

  /** No deadlock: while a task is queued, or the destructor has begun and not returned, some thread
      can take a step of its own.  In particular no task is stranded behind sleeping workers, and
      `join` does not wait for a worker that will never wake. */
  lemma Progress(s: State) returns (step: Step)
    requires Inv(s)
    requires s.sh.queue != [] || (s.dtor != Alive && s.dtor != Destroyed)
    ensures Enabled(s, step) && OwnStep(step)
  {
    if s.owner != Free {
      step := HolderProgress(s);
    } else if s.dtor == MustNotify {
      step := NotifyAll;
    } else if s.dtor == Entered {
      step := DestructorLock;
    } else if s.dtor.Joining? {
      if s.dtor.next == s.workers || s.threads[s.dtor.next] == Worker(Exited) {
        step := Join;
      } else {
        step := WorkerProgress(s, s.dtor.next);
      }
    } else {
      step := QueueProgress(s);
    }
  }

  /** The worker with index 0 may sleep on a nonempty queue, but then somebody owes it a signal. */
  lemma QueueProgress(s: State) returns (step: Step)
    requires Inv(s) && s.owner == Free && s.sh.queue != []
    requires s.dtor == Alive || s.dtor == Destroyed
    ensures Enabled(s, step) && OwnStep(step)
  {
    if s.threads[0] == Worker(Blocked) {
      assert !NobodyBlocked(s);
      var i := SumWitness(s.threads, Credit);
      assert !Holds(s.threads[i]);
      if CallOf(s.threads[i]) == Notifying {
        step := CallProgress(s, i);
      } else {
        step := WorkerLock(i);
      }
    } else {
      assert s.threads[0] != Worker(Exited);
      step := WorkerProgress(s, 0);
    }
  }

  /** The destructor returns: a run after shutdown in which clients start no further call is finite,
      and when no thread can take another step of its own the destructor has returned. */
  lemma ShutdownCompletes(states: seq<State>, steps: seq<Step>)
    requires Run(states, steps) && Inv(states[0]) && states[0].sh.shutdown
    requires ClientCalls(steps) == 0
    ensures |steps| <= Measure(states[0])
    ensures (forall step | OwnStep(step) :: !Enabled(states[|steps|], step)) ==> states[|steps|].dtor == Destroyed
  {
    ShutdownIsBounded(states, steps);
    var last := states[|steps|];
    MeasureIsNatural(last);
    if last.dtor != Destroyed {
      var step := Progress(last);
    }
  }
}
