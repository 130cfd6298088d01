/** A pool that nobody shuts down: whatever its tasks enqueue, the workers get to the end of it. */
module PoolLiveness {
  import opened Common
  import opened ThreadPool
  import opened PoolProtocol
  import opened PoolTheorems

  function CallCost(call: Call): int {
    match call
    case NoCall => 0
    case Entering(job) => 6 + TreeWeight(job)
    case Holding(job) => 5 + TreeWeight(job)
    case Notifying => 4
  }

  /** How many steps a thread can still take, with those of the worker it wakes and of every task it
      enqueues, before it waits or has to take a task from the queue. */
  function Cost(t: Thread): int {
    match t
    case Client(call) => CallCost(call)
    case Worker(Blocked) => 0
    case Worker(Starting) => 3
    case Worker(Woken(_)) => 3
    case Worker(Checking(_)) => 2
    case Worker(Deciding(_)) => 1
    case Worker(Running(_, rest, call)) => 4 + SpawnWeight(rest) + CallCost(call)
    case Worker(Exited) => 0
  }

  function DestructorCost(d: Destructor): int {
    if d == Alive then 2 else if d == Entered then 1 else 0
  }

  ghost function Work(s: State): int {
    Sum(s.sh.queue, TreeWeight) + Sum(s.threads, Cost) + DestructorCost(s.dtor)
  }

  /** The work that a step brings in from outside: a client's call, with the whole tree of its task, or a
      spurious wakeup. */
  function Budget(step: Step): nat {
    match step
    case ClientCall(_, task) => 7 + TaskWeight(task)
    case Spurious(_) => 4
    case _ => 0
  }

  function Budgets(steps: seq<Step>): nat {
    if steps == [] then 0 else Budgets(steps[..|steps| - 1]) + Budget(steps[|steps| - 1])
  }

  lemma WorkIsNatural(s: State)
    ensures 0 <= Work(s)
  {
    SumBounds(s.sh.queue, TreeWeight);
    SumBounds(s.threads, Cost);
  }

  /** What the queue gains and loses. */
  lemma QueueWork(s: State, step: Step)
    requires Enabled(s, step)
    ensures Sum(Next(s, step).sh.queue, TreeWeight) - Sum(s.sh.queue, TreeWeight)
         == if step.EnqueueBody? && |Next(s, step).sh.queue| > |s.sh.queue|
            then TreeWeight(CallOf(s.threads[step.i]).job)
            else if step.Decide? && s.sh.queue != [] then -TreeWeight(s.sh.queue[0])
            else 0
  {
    if step.EnqueueBody? { SumAppend(s.sh.queue, TreeWeight, CallOf(s.threads[step.i]).job); }
  }

  /** What the thread that takes a step gains and loses. */
  lemma ActorWork(s: State, step: Step, i: nat)
    requires Inv(s) && Enabled(s, step) && !s.sh.shutdown && Actor(step) == Some(i)
    ensures Cost(Next(s, step).threads[i]) - Cost(s.threads[i]) + 1
         <= (if step.EnqueueBody? && |Next(s, step).sh.queue| > |s.sh.queue| then -TreeWeight(CallOf(s.threads[i]).job)
             else if step.Decide? && s.sh.queue != [] then TreeWeight(s.sh.queue[0])
             else 0)
            + Budget(step) - if step.NotifyOne? then 3 else 0
    ensures Next(s, step).dtor == s.dtor
  {
  }

  /** While the flag is unset every step lowers the work by one, apart from what it brings in. */
  lemma StepWork(s: State, step: Step)
    requires Inv(s) && Enabled(s, step) && !s.sh.shutdown && !Next(s, step).sh.shutdown
    ensures Work(Next(s, step)) + 1 <= Work(s) + Budget(step)
  {
    QueueWork(s, step);
    StepSum(s, step, Cost);
    if Actor(step).Some? { ActorWork(s, step, Actor(step).value); }
  }

  /** A run with the flag unset is no longer than the work of its first state and what came in from
      outside: with no further calls of clients and finitely many spurious wakeups it is finite. */
  lemma {:induction false} WorkIsBounded(states: seq<State>, steps: seq<Step>)
    requires Run(states, steps) && Inv(states[0])
    requires forall k :: 0 <= k < |states| ==> !states[k].sh.shutdown
    ensures Inv(states[|steps|])
    ensures |steps| + Work(states[|steps|]) <= Work(states[0]) + Budgets(steps)
  {
    if steps != [] {
      var n := |steps| - 1;
      WorkIsBounded(states[..n + 1], steps[..n]);
      assert Enabled(states[n], steps[n]) && states[n + 1] == Next(states[n], steps[n]);
      StepInv(states[n], steps[n]);
      StepWork(states[n], steps[n]);
    }
  }

  /** Every accepted task has run, and every worker waits for the next. */
  ghost predicate Idle(s: State) {
    && s.sh.queue == [] && s.sh.started == s.sh.accepted
    && (forall job :: Count(s.finished, job) == Count(s.sh.accepted, job))
    && (forall i :: 0 <= i < |s.threads| ==> s.threads[i] == Worker(Blocked) || s.threads[i] == Client(NoCall))
  }

  /** A pool that is not shutting down comes to rest only when it has done all its work. */
  lemma RestIsIdle(s: State)
    requires Inv(s) && !s.sh.shutdown
    requires forall step | OwnStep(step) :: !Enabled(s, step)
    ensures Idle(s)
  {
    if s.sh.queue != [] || s.dtor != Alive { var step := Progress(s); }
    assert s.sh.started + [] == s.sh.started;
    if s.owner != Free { var step := HolderProgress(s); }
    forall i: nat | i < |s.threads|
      ensures s.threads[i] == Worker(Blocked) || s.threads[i] == Client(NoCall)
    {
      assert !Holds(s.threads[i]);
      if s.threads[i].Client? {
        if s.threads[i].call != NoCall { var step := CallProgress(s, i); }
      } else if s.threads[i] != Worker(Blocked) {
        var step := WorkerProgress(s, i);
      }
    }
    forall job ensures Count(s.finished, job) == Count(s.sh.accepted, job) {
      assert Balanced(s, job);
      SumZero(s.threads, InRun(job));
    }
  }

  /** Everything accepted gets done: a run with the flag unset is finite as far as it depends on the
      pool, and where it can only end, every accepted task has finished, with all that it enqueued. */
  lemma AllWorkGetsDone(states: seq<State>, steps: seq<Step>)
    requires Run(states, steps) && Inv(states[0])
    requires forall k :: 0 <= k < |states| ==> !states[k].sh.shutdown
    ensures |steps| <= Work(states[0]) + Budgets(steps)
    ensures (forall step | OwnStep(step) :: !Enabled(states[|steps|], step)) ==> Idle(states[|steps|])
  {
    WorkIsBounded(states, steps);
    WorkIsNatural(states[|steps|]);
    if forall step | OwnStep(step) :: !Enabled(states[|steps|], step) { RestIsIdle(states[|steps|]); }
  }
}
