/** Every interleaving of the threads of a pool: workers, clients that enqueue, and the destructor.
    A step is one indivisible action of one thread: taking the mutex, one critical section together
    with its unlock, one notification, the end of a task, a join. */
module PoolProtocol {
  import opened Common
  import opened ThreadPool

  /** Where a thread stands in a call of `enqueue`; `Notifying` is after the unlock and before
      `notify_one`. */
  datatype Call = NoCall | Entering(job: Job) | Holding(job: Job) | Notifying

  /** Where a worker stands in `worker_loop`.  `signalled` marks a worker that a `notify_one` or
      `notify_all` woke and that has not acted on it yet. */
  datatype Pc =
    | Starting
    | Checking(signalled: bool)
    | Blocked
    | Woken(signalled: bool)
    | Deciding(signalled: bool)
    | Running(job: Job, rest: seq<Task>, call: Call)
    | Exited

  datatype Thread = Worker(pc: Pc) | Client(call: Call)

  datatype Owner = Free | HeldBy(thread: nat) | HeldByDestructor

  datatype Destructor = Alive | Entered | HasLock | MustNotify | Joining(next: nat) | Destroyed

  datatype State = State(
    sh: Shared, owner: Owner, workers: nat, threads: seq<Thread>, dtor: Destructor,
    submitted: seq<Job>, finished: seq<Job>)

  datatype Step =
    | ClientCall(i: nat, task: Task)
    | SpawnCall(i: nat)
    | EnqueueLock(i: nat)
    | EnqueueBody(i: nat)
    | NotifyOne(i: nat, woken: nat)
    | WorkerLock(i: nat)
    | CheckPredicate(i: nat)
    | Spurious(i: nat)
    | Decide(i: nat)
    | Finish(i: nat)
    | DestructorEnter
    | DestructorLock
    | SetShutdown
    | NotifyAll
    | Join

  function CallOf(t: Thread): Call {
    match t
    case Client(call) => call
    case Worker(Running(_, _, call)) => call
    case _ => NoCall
  }

  function WithCall(t: Thread, call: Call): Thread
    requires t.Worker? ==> t.pc.Running?
  {
    match t
    case Client(_) => Client(call)
    case Worker(pc) => Worker(pc.(call := call))
  }

  predicate Holds(t: Thread) {
    CallOf(t).Holding? || (t.Worker? && (t.pc.Checking? || t.pc.Deciding?))
  }

  predicate IsBlocked(s: State, i: nat) {
    i < |s.threads| && s.threads[i] == Worker(Blocked)
  }

  predicate NobodyBlocked(s: State) {
    forall i :: 0 <= i < |s.threads| ==> s.threads[i] != Worker(Blocked)
  }

  function Wake(t: Thread): Thread {
    if t == Worker(Blocked) then Worker(Woken(true)) else t
  }

  function WakeAll(ts: seq<Thread>): seq<Thread> {
    seq(|ts|, i requires 0 <= i < |ts| => Wake(ts[i]))
  }

  predicate At(s: State, i: nat) {
    i < |s.threads|
  }

  predicate WorkerAt(s: State, i: nat) {
    i < |s.threads| && s.threads[i].Worker?
  }

  predicate Enabled(s: State, step: Step) {
    match step
    case ClientCall(i, _) => At(s, i) && s.threads[i] == Client(NoCall)
    case SpawnCall(i) =>
      WorkerAt(s, i) && s.threads[i].pc.Running? && s.threads[i].pc.call == NoCall && s.threads[i].pc.rest != []
    case EnqueueLock(i) => At(s, i) && CallOf(s.threads[i]).Entering? && s.owner == Free
    case EnqueueBody(i) => At(s, i) && CallOf(s.threads[i]).Holding?
    case NotifyOne(i, w) =>
      At(s, i) && CallOf(s.threads[i]) == Notifying && (IsBlocked(s, w) || NobodyBlocked(s))
    case WorkerLock(i) => WorkerAt(s, i) && (s.threads[i].pc.Starting? || s.threads[i].pc.Woken?) && s.owner == Free
    case CheckPredicate(i) => WorkerAt(s, i) && s.threads[i].pc.Checking?
    case Spurious(i) => IsBlocked(s, i)
    case Decide(i) => WorkerAt(s, i) && s.threads[i].pc.Deciding?
    case Finish(i) =>
      WorkerAt(s, i) && s.threads[i].pc.Running? && s.threads[i].pc.call == NoCall &&
      (s.threads[i].pc.rest == [] || s.threads[i].pc.job.task.throws)
    case DestructorEnter => s.dtor == Alive
    case DestructorLock => s.dtor == Entered && s.owner == Free
    case SetShutdown => s.dtor == HasLock
    case NotifyAll => s.dtor == MustNotify
    case Join =>
      s.dtor.Joining? &&
      (s.dtor.next < s.workers ==> At(s, s.dtor.next) && s.threads[s.dtor.next] == Worker(Exited))
  }

  function Put(s: State, i: nat, t: Thread): State
    requires i < |s.threads|
  {
    s.(threads := s.threads[i := t])
  }

  function Next(s: State, step: Step): State
    requires Enabled(s, step)
  {
    match step
    case ClientCall(i, task) =>
      var job := Job(|s.submitted|, task);
      Put(s, i, Client(Entering(job))).(submitted := s.submitted + [job])
    case SpawnCall(i) =>
      var pc := s.threads[i].pc;
      var job := Job(|s.submitted|, pc.rest[0]);
      Put(s, i, Worker(Running(pc.job, pc.rest[1..], Entering(job)))).(submitted := s.submitted + [job])
    case EnqueueLock(i) =>
      Put(s, i, WithCall(s.threads[i], Holding(CallOf(s.threads[i]).job))).(owner := HeldBy(i))
    case EnqueueBody(i) =>
      var job := CallOf(s.threads[i]).job;
      var sh := Admit(s.sh, job);
      var call := if |sh.accepted| > |s.sh.accepted| then Notifying else NoCall;
      Put(s, i, WithCall(s.threads[i], call)).(owner := Free, sh := sh)
    case NotifyOne(i, w) =>
      var s' := Put(s, i, WithCall(s.threads[i], NoCall));
      if IsBlocked(s, w) then Put(s', w, Worker(Woken(true))) else s'
    case WorkerLock(i) =>
      var pc := s.threads[i].pc;
      Put(s, i, Worker(Checking(pc.Woken? && pc.signalled))).(owner := HeldBy(i))
    case CheckPredicate(i) =>
      if Ready(s.sh) then Put(s, i, Worker(Deciding(s.threads[i].pc.signalled)))
      else Put(s, i, Worker(Blocked)).(owner := Free)
    case Spurious(i) => Put(s, i, Worker(Woken(false)))
    case Decide(i) =>
      if s.sh.queue == [] then
        // Only under shutdown: a worker never takes from an empty queue (`FifoOverRuns`).
        Put(s, i, Worker(Exited)).(owner := Free)
      else
        var job := s.sh.queue[0];
        Put(s, i, Worker(Running(job, job.task.spawns, NoCall))).(owner := Free, sh := Take(s.sh))
    case Finish(i) =>
      Put(s, i, Worker(Starting)).(finished := s.finished + [s.threads[i].pc.job])
    case DestructorEnter => s.(dtor := Entered)
    case DestructorLock => s.(dtor := HasLock, owner := HeldByDestructor)
    case SetShutdown => s.(dtor := MustNotify, owner := Free, sh := s.sh.(shutdown := true))
    case NotifyAll => s.(dtor := Joining(0), threads := WakeAll(s.threads))
    case Join => s.(dtor := if s.dtor.next < s.workers then Joining(s.dtor.next + 1) else Destroyed)
  }

  /** A freshly constructed pool: workers first, then any number of clients. */
  ghost predicate Init(s: State) {
    && 1 <= s.workers <= |s.threads|
    && (forall i :: 0 <= i < |s.threads| ==>
          s.threads[i] == if i < s.workers then Worker(Starting) else Client(NoCall))
    && s.owner == Free && s.dtor == Alive && s.submitted == [] && s.finished == []
    && s.sh == Shared([], false, s.sh.max, [], [], [])
  }

  /** A run: consecutive states related by enabled steps. */
  ghost predicate Run(states: seq<State>, steps: seq<Step>) {
    && |states| == |steps| + 1
    && forall i :: 0 <= i < |steps| ==> Enabled(states[i], steps[i]) && states[i + 1] == Next(states[i], steps[i])
  }

  // ---------------------------------------------------------------------------------------------
  // The invariant, in independent parts.
  // ---------------------------------------------------------------------------------------------

  ghost predicate Shape(s: State) {
    && 1 <= s.workers <= |s.threads|
    && (forall i :: 0 <= i < |s.threads| ==> (s.threads[i].Worker? <==> i < s.workers))
    && (s.dtor.Joining? ==> s.dtor.next <= s.workers)
  }

  /** The mutex is held exactly by the thread that stands inside a critical section. */
  ghost predicate MutualExclusion(s: State) {
    && (forall i :: 0 <= i < |s.threads| ==> (Holds(s.threads[i]) <==> s.owner == HeldBy(i)))
    && (s.dtor == HasLock <==> s.owner == HeldByDestructor)
    && (s.owner.HeldBy? ==> s.owner.thread < |s.threads|)
  }

  ghost predicate Joined(s: State, k: nat) {
    forall i :: 0 <= i < k && i < |s.threads| ==> s.threads[i] == Worker(Exited)
  }

  /** The flag is set exactly from the destructor's critical section on, and what was joined is gone. */
  ghost predicate DestructorPhase(s: State) {
    && (s.sh.shutdown <==> s.dtor == MustNotify || s.dtor.Joining? || s.dtor == Destroyed)
    && (s.dtor.Joining? ==> Joined(s, s.dtor.next))
    && (s.dtor == Destroyed ==> Joined(s, s.workers))
  }

  /** A worker past the wait found what it waited for; a worker that left saw the flag and an empty
      queue; a worker asleep under the flag is one `notify_all` has still to wake. */
  ghost predicate WorkerPhase(s: State) {
    && (forall i :: 0 <= i < |s.threads| && s.threads[i].Worker? && s.threads[i].pc.Deciding? ==> Ready(s.sh))
    && (forall i :: 0 <= i < |s.threads| && s.threads[i] == Worker(Exited) ==> s.sh.shutdown && s.sh.queue == [])
    && (forall i :: 0 <= i < |s.threads| && s.threads[i] == Worker(Blocked) && s.sh.shutdown ==> s.dtor == MustNotify)
  }

  ghost predicate ShutdownPhase(s: State) {
    DestructorPhase(s) && WorkerPhase(s)
  }

  /** What a thread still owes the sleepers: a notification it is about to send, or one it received
      and has not used. */
  function Credit(t: Thread): int {
    match t
    case Worker(Checking(signalled)) => if signalled then 1 else 0
    case Worker(Woken(signalled)) => if signalled then 1 else 0
    case Worker(Deciding(signalled)) => if signalled then 1 else 0
    case _ => if CallOf(t) == Notifying then 1 else 0
  }

  ghost predicate WakeupsCovered(s: State) {
    !s.sh.shutdown && !NobodyBlocked(s) ==> |s.sh.queue| <= Sum(s.threads, Credit)
  }

  /** Whether a thread is inside a call of `enqueue` for `job`, undecided yet. */
  function InCall(job: Job): Thread -> int {
    (t: Thread) => if CallOf(t) == Entering(job) || CallOf(t) == Holding(job) then 1 else 0
  }

  /** Whether a worker is running `job`. */
  function InRun(job: Job): Thread -> int {
    (t: Thread) => if t.Worker? && t.pc.Running? && t.pc.job == job then 1 else 0
  }

  /** Every call of `enqueue` for `job` was accepted, was rejected, or is still undecided. */
  ghost predicate CallsBalanced(s: State, job: Job) {
    Count(s.submitted, job) == Count(s.sh.accepted, job) + Count(s.sh.rejected, job) + Sum(s.threads, InCall(job))
  }

  /** Every start of `job` has finished or is still running. */
  ghost predicate RunsBalanced(s: State, job: Job) {
    Count(s.sh.started, job) == Count(s.finished, job) + Sum(s.threads, InRun(job))
  }

  ghost predicate Balanced(s: State, job: Job) {
    CallsBalanced(s, job) && RunsBalanced(s, job)
  }

  ghost predicate Conserved(s: State) {
    && (forall k :: 0 <= k < |s.submitted| ==> s.submitted[k].ticket == k)
    && (forall job :: Balanced(s, job))
  }

  ghost predicate Inv(s: State) {
    && Shape(s)
    && MutualExclusion(s)
    && Fifo(s.sh)
    && ShutdownPhase(s)
    && WakeupsCovered(s)
    && Conserved(s)
  }

  lemma InitInv(s: State)
    requires Init(s)
    ensures Inv(s)
  {
    forall job ensures Balanced(s, job) {
      SumZero(s.threads, InCall(job));
      SumZero(s.threads, InRun(job));
    }
  }

  lemma StepShape(s: State, step: Step)
    requires Shape(s) && Enabled(s, step)
    ensures Shape(Next(s, step)) && |Next(s, step).threads| == |s.threads|
  {
  }

  lemma StepHolder(s: State, step: Step, i: nat)
    requires Shape(s) && MutualExclusion(s) && Enabled(s, step) && i < |s.threads|
    ensures |Next(s, step).threads| == |s.threads|
    ensures Holds(Next(s, step).threads[i]) <==> Next(s, step).owner == HeldBy(i)
  {
    assert Holds(s.threads[i]) <==> s.owner == HeldBy(i);
  }

  lemma StepOwner(s: State, step: Step)
    requires Shape(s) && MutualExclusion(s) && Enabled(s, step)
    ensures Next(s, step).dtor == HasLock <==> Next(s, step).owner == HeldByDestructor
    ensures Next(s, step).owner.HeldBy? ==> Next(s, step).owner.thread < |s.threads|
  {
  }

  lemma StepMutualExclusion(s: State, step: Step)
    requires Shape(s) && MutualExclusion(s) && Enabled(s, step)
    ensures MutualExclusion(Next(s, step))
  {
    var s' := Next(s, step);
    StepShape(s, step);
    StepOwner(s, step);
    forall i | 0 <= i < |s'.threads| ensures Holds(s'.threads[i]) <==> s'.owner == HeldBy(i) {
      StepHolder(s, step, i);
    }
  }

  lemma StepFifo(s: State, step: Step)
    requires Fifo(s.sh) && Enabled(s, step)
    ensures Fifo(Next(s, step).sh)
  {
    match step
    case EnqueueBody(i) => AdmitKeepsFifo(s.sh, CallOf(s.threads[i]).job);
    case Decide(i) => if s.sh.queue != [] { TakeKeepsFifo(s.sh); }
    case _ =>
  }

  lemma ExitedStays(s: State, step: Step, i: nat)
    requires Enabled(s, step) && i < |s.threads| && s.threads[i] == Worker(Exited)
    ensures i < |Next(s, step).threads| && Next(s, step).threads[i] == Worker(Exited)
  {
  }

  lemma JoinedStays(s: State, step: Step, k: nat)
    requires Shape(s) && Enabled(s, step) && Joined(s, k)
    ensures Joined(Next(s, step), k)
  {
    var s' := Next(s, step);
    StepShape(s, step);
    forall i | 0 <= i < k && i < |s'.threads| ensures s'.threads[i] == Worker(Exited) { ExitedStays(s, step, i); }
  }

  lemma StepDestructorPhase(s: State, step: Step)
    requires Shape(s) && MutualExclusion(s) && DestructorPhase(s) && Enabled(s, step)
    ensures DestructorPhase(Next(s, step))
  {
    if s.dtor.Joining? { JoinedStays(s, step, s.dtor.next); }
    if s.dtor == Destroyed { JoinedStays(s, step, s.workers); }
  }

  /** Nobody else touches the queue or the flag while a worker holds the mutex. */
  lemma HolderSeesNoChange(s: State, step: Step, i: nat)
    requires MutualExclusion(s) && Enabled(s, step)
    requires WorkerAt(Next(s, step), i) && Next(s, step).threads[i].pc.Deciding?
    ensures Next(s, step).sh == s.sh
    ensures WorkerAt(s, i) && (s.threads[i].pc.Deciding? || step == CheckPredicate(i))
  {
  }

  lemma ExitedSawEmpty(s: State, step: Step, i: nat)
    requires Shape(s) && ShutdownPhase(s) && Enabled(s, step)
    requires i < |Next(s, step).threads| && Next(s, step).threads[i] == Worker(Exited)
    ensures Next(s, step).sh.shutdown && Next(s, step).sh.queue == []
  {
  }

  lemma SleeperIsOwedNotifyAll(s: State, step: Step, i: nat)
    requires Shape(s) && ShutdownPhase(s) && Enabled(s, step)
    requires i < |Next(s, step).threads| && Next(s, step).threads[i] == Worker(Blocked)
    requires Next(s, step).sh.shutdown
    ensures Next(s, step).dtor == MustNotify
  {
  }

  lemma StepWorkerPhase(s: State, step: Step)
    requires Shape(s) && MutualExclusion(s) && ShutdownPhase(s) && Enabled(s, step)
    ensures WorkerPhase(Next(s, step))
  {
    var s' := Next(s, step);
    StepShape(s, step);
    forall i | 0 <= i < |s'.threads| && s'.threads[i].Worker? && s'.threads[i].pc.Deciding? ensures Ready(s'.sh) {
      HolderSeesNoChange(s, step, i);
    }
    forall i | 0 <= i < |s'.threads| && s'.threads[i] == Worker(Exited) ensures s'.sh.shutdown && s'.sh.queue == [] {
      ExitedSawEmpty(s, step, i);
    }
    forall i | 0 <= i < |s'.threads| && s'.threads[i] == Worker(Blocked) && s'.sh.shutdown
      ensures s'.dtor == MustNotify
    {
      SleeperIsOwedNotifyAll(s, step, i);
    }
  }

  lemma StepShutdownPhase(s: State, step: Step)
    requires Shape(s) && MutualExclusion(s) && ShutdownPhase(s) && Enabled(s, step)
    ensures ShutdownPhase(Next(s, step))
  {
    StepDestructorPhase(s, step);
    StepWorkerPhase(s, step);
  }

  /** The thread, other than the destructor, that takes a step. */
  function Actor(step: Step): Option<nat> {
    match step
    case ClientCall(i, _) => Some(i)
    case SpawnCall(i) => Some(i)
    case EnqueueLock(i) => Some(i)
    case EnqueueBody(i) => Some(i)
    case NotifyOne(i, _) => Some(i)
    case WorkerLock(i) => Some(i)
    case CheckPredicate(i) => Some(i)
    case Spurious(i) => Some(i)
    case Decide(i) => Some(i)
    case Finish(i) => Some(i)
    case _ => None
  }

  /** The threads after a step: the actor moves and, for a notification, the woken worker does. */
  function Moved(s: State, step: Step): seq<Thread>
    requires Enabled(s, step)
  {
    match Actor(step)
    case Some(i) => s.threads[i := Next(s, step).threads[i]]
    case None => s.threads
  }

  lemma ThreadsAfter(s: State, step: Step)
    requires Enabled(s, step)
    ensures Next(s, step).threads ==
            if step.NotifyOne? && IsBlocked(s, step.woken) then Moved(s, step)[step.woken := Worker(Woken(true))]
            else if step.NotifyAll? then WakeAll(s.threads)
            else Moved(s, step)
  {
  }

  /** How a step changes a sum over the threads. */
  lemma StepSum(s: State, step: Step, f: Thread -> int)
    requires Enabled(s, step) && !step.NotifyAll?
    ensures Sum(Next(s, step).threads, f) == Sum(s.threads, f)
      + (match Actor(step)
         case Some(i) => f(Next(s, step).threads[i]) - f(s.threads[i])
         case None => 0)
      + if step.NotifyOne? && IsBlocked(s, step.woken) then f(Worker(Woken(true))) - f(Worker(Blocked)) else 0
  {
    ThreadsAfter(s, step);
    match Actor(step)
    case Some(i) =>
      SumUpdate(s.threads, f, i, Next(s, step).threads[i]);
      if step.NotifyOne? && IsBlocked(s, step.woken) {
        SumUpdate(Moved(s, step), f, step.woken, Worker(Woken(true)));
      }
    case None =>
  }

  /** Taking a task spends at most one credit; only a dropped notification and a worker going to
      sleep lose one without taking a task. */
  lemma CreditChange(s: State, step: Step, i: nat)
    requires Enabled(s, step) && Actor(step) == Some(i) && !step.CheckPredicate?
    ensures Credit(Next(s, step).threads[i]) - Credit(s.threads[i])
         >= |Next(s, step).sh.queue| - |s.sh.queue|
            - (if step.NotifyOne? || (step.Decide? && s.sh.queue == []) then 1 else 0)
  {
  }

  lemma StepWakeupsCovered(s: State, step: Step)
    requires WakeupsCovered(s) && Enabled(s, step)
    ensures WakeupsCovered(Next(s, step))
  {
    var s' := Next(s, step);
    if !s'.sh.shutdown && !NobodyBlocked(s') {
      if step.CheckPredicate? {
        // Only a worker that saw the queue empty goes to sleep.
        CheckKeepsCovered(s, step.i);
      } else {
        var b :| 0 <= b < |s'.threads| && s'.threads[b] == Worker(Blocked);
        StaysBlocked(s, step, b);
        SumBounds(s'.threads, Credit);
        OtherKeepsCovered(s, step);
      }
    }
  }

  lemma OtherKeepsCovered(s: State, step: Step)
    requires Enabled(s, step) && !step.CheckPredicate? && !step.NotifyAll?
    requires step.NotifyOne? ==> IsBlocked(s, step.woken)
    requires |s.sh.queue| <= Sum(s.threads, Credit) && 0 <= Sum(Next(s, step).threads, Credit)
    ensures |Next(s, step).sh.queue| <= Sum(Next(s, step).threads, Credit)
  {
    StepSum(s, step, Credit);
    if Actor(step).Some? { CreditChange(s, step, Actor(step).value); }
  }

  lemma CheckKeepsCovered(s: State, i: nat)
    requires WakeupsCovered(s) && Enabled(s, CheckPredicate(i)) && !s.sh.shutdown
    ensures WakeupsCovered(Next(s, CheckPredicate(i)))
  {
    var s' := Next(s, CheckPredicate(i));
    SumBounds(s'.threads, Credit);
    if Ready(s.sh) {
      StepSum(s, CheckPredicate(i), Credit);
      if !NobodyBlocked(s') {
        var b :| 0 <= b < |s'.threads| && s'.threads[b] == Worker(Blocked);
        assert s.threads[b] == Worker(Blocked);
      }
    }
  }

  lemma StaysBlocked(s: State, step: Step, b: nat)
    requires Enabled(s, step) && !step.CheckPredicate?
    requires b < |Next(s, step).threads| && Next(s, step).threads[b] == Worker(Blocked)
    ensures b < |s.threads| && s.threads[b] == Worker(Blocked) && !step.NotifyAll?
    ensures step.NotifyOne? ==> IsBlocked(s, step.woken)
  {
  }

  /** A sum over the threads moves with the actor alone when waking a worker does not matter to it. */
  lemma StepCount(s: State, step: Step, f: Thread -> int)
    requires Enabled(s, step)
    requires f(Worker(Woken(true))) == f(Worker(Blocked))
    ensures match Actor(step)
            case Some(i) =>
              Sum(Next(s, step).threads, f) == Sum(s.threads, f) + f(Next(s, step).threads[i]) - f(s.threads[i])
            case None => Sum(Next(s, step).threads, f) == Sum(s.threads, f)
  {
    if step.NotifyAll? {
      SumSame(s.threads, WakeAll(s.threads), f);
    } else {
      StepSum(s, step, f);
    }
  }

  /** Deciding a call moves it to the accepted or to the rejected ones. */
  lemma DecisionBalanced(s: State, i: nat, job: Job)
    requires Balanced(s, job) && Enabled(s, EnqueueBody(i))
    ensures CallsBalanced(Next(s, EnqueueBody(i)), job)
  {
    var s' := Next(s, EnqueueBody(i));
    var decided := CallOf(s.threads[i]).job;
    SumUpdate(s.threads, InCall(job), i, s'.threads[i]);
    CountAppend(s.sh.accepted, decided, job);
    CountAppend(s.sh.rejected, decided, job);
    assert InCall(job)(s'.threads[i]) == 0;
    assert InCall(job)(s.threads[i]) == if decided == job then 1 else 0;
  }

  lemma SubmissionBalanced(s: State, step: Step, job: Job)
    requires Balanced(s, job) && Enabled(s, step) && (step.ClientCall? || step.SpawnCall?)
    ensures CallsBalanced(Next(s, step), job)
  {
    var s', i := Next(s, step), step.i;
    var submitted := CallOf(s'.threads[i]).job;
    SumUpdate(s.threads, InCall(job), i, s'.threads[i]);
    CountAppend(s.submitted, submitted, job);
    assert InCall(job)(s.threads[i]) == 0;
    assert InCall(job)(s'.threads[i]) == if submitted == job then 1 else 0;
  }

  /** No other step changes who is inside a call, or which calls were decided. */
  lemma CallsUnchanged(s: State, step: Step, job: Job)
    requires Enabled(s, step) && !step.EnqueueBody? && !step.ClientCall? && !step.SpawnCall?
    ensures var s' := Next(s, step);
            && s'.submitted == s.submitted && s'.sh.accepted == s.sh.accepted && s'.sh.rejected == s.sh.rejected
            && |s'.threads| == |s.threads|
            && forall i :: 0 <= i < |s.threads| ==> InCall(job)(s'.threads[i]) == InCall(job)(s.threads[i])
  {
  }

  lemma StepCallsBalanced(s: State, step: Step, job: Job)
    requires Balanced(s, job) && Enabled(s, step)
    ensures CallsBalanced(Next(s, step), job)
  {
    if step.EnqueueBody? {
      DecisionBalanced(s, step.i, job);
    } else if step.ClientCall? || step.SpawnCall? {
      SubmissionBalanced(s, step, job);
    } else {
      CallsUnchanged(s, step, job);
      SumSame(s.threads, Next(s, step).threads, InCall(job));
    }
  }

  lemma StepRunsBalanced(s: State, step: Step, job: Job)
    requires Balanced(s, job) && Enabled(s, step)
    ensures RunsBalanced(Next(s, step), job)
  {
    StepCount(s, step, InRun(job));
    match step
    case Decide(i) => if s.sh.queue != [] { CountAppend(s.sh.started, s.sh.queue[0], job); }
    case Finish(i) => CountAppend(s.finished, s.threads[i].pc.job, job);
    case _ =>
  }

  lemma StepConserved(s: State, step: Step)
    requires Conserved(s) && Enabled(s, step)
    ensures Conserved(Next(s, step))
  {
    forall job ensures Balanced(Next(s, step), job) {
      StepCallsBalanced(s, step, job);
      StepRunsBalanced(s, step, job);
    }
  }

  lemma StepInv(s: State, step: Step)
    requires Inv(s) && Enabled(s, step)
    ensures Inv(Next(s, step))
  {
    StepShape(s, step);
    StepMutualExclusion(s, step);
    StepFifo(s, step);
    StepShutdownPhase(s, step);
    StepWakeupsCovered(s, step);
    StepConserved(s, step);
  }

  /** The invariant holds in every state of every run of a new pool. */
  lemma {:induction false} RunInv(states: seq<State>, steps: seq<Step>, k: nat)
    requires Run(states, steps) && Init(states[0]) && k < |states|
    ensures Inv(states[k])
  {
    if k == 0 {
      InitInv(states[0]);
    } else {
      RunInv(states, steps, k - 1);
      StepInv(states[k - 1], steps[k - 1]);
    }
  }
}
