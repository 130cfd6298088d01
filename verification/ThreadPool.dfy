/** The pool of src/utils/thread_pool.cpp: the state its mutex protects, and the critical sections
    of `enqueue`, `worker_loop` and the destructor as methods over that state.  How several threads
    interleave those sections is the business of `PoolProtocol`, which uses the same functions. */
module ThreadPool {
  import opened Common

  /** What a caller hands to `enqueue`: a callable that may itself enqueue other tasks, one after
      the other, and may throw between any two of those calls when `throws` is set. */
  datatype Task = Task(id: int, spawns: seq<Task>, throws: bool)

  /** One call of `enqueue`.  The ticket tells two calls with equal tasks apart. */
  datatype Job = Job(ticket: nat, task: Task)

  /** What `queue_mutex_` protects, with the history of every decision taken under it. */
  datatype Shared = Shared(
    queue: seq<Job>, shutdown: bool, max: nat,
    accepted: seq<Job>, rejected: seq<Job>, started: seq<Job>)

  /** `enqueue`, lines 51 to 63: reject after shutdown, reject when full, otherwise append. */
  function Admit(sh: Shared, job: Job): Shared {
    if sh.shutdown || sh.max <= |sh.queue| then
      sh.(rejected := sh.rejected + [job])
    else
      sh.(queue := sh.queue + [job], accepted := sh.accepted + [job])
  }

  /** `worker_loop`, lines 93 and 94: take the front of the queue. */
  function Take(sh: Shared): Shared
    requires sh.queue != []
  {
    sh.(queue := sh.queue[1..], started := sh.started + [sh.queue[0]])
  }

  /** `worker_loop`, lines 82 to 85: what a worker waits for. */
  predicate Ready(sh: Shared) {
    sh.shutdown || sh.queue != []
  }

  /** First in, first out, within the bound: what was accepted is what was started followed by what
      is still queued. */
  ghost predicate Fifo(sh: Shared) {
    && sh.accepted == sh.started + sh.queue
    && |sh.queue| <= sh.max
  }

  lemma AdmitKeepsFifo(sh: Shared, job: Job)
    requires Fifo(sh)
    ensures Fifo(Admit(sh, job))
  {
    assert sh.started + (sh.queue + [job]) == (sh.started + sh.queue) + [job];
  }

  lemma TakeKeepsFifo(sh: Shared)
    requires Fifo(sh) && sh.queue != []
    ensures Fifo(Take(sh))
  {
    assert sh.started + sh.queue == (sh.started + [sh.queue[0]]) + sh.queue[1..];
  }

  /** A bound on the steps that running a task takes, with everything that it enqueues and that those
      tasks enqueue in turn. */
  function TaskWeight(task: Task): nat
    decreases task
  {
    4 + SpawnWeight(task.spawns)
  }

  function SpawnWeight(tasks: seq<Task>): nat
    decreases tasks
  {
    if tasks == [] then 0 else 7 + TaskWeight(tasks[0]) + SpawnWeight(tasks[1..])
  }

  function TreeWeight(job: Job): int {
    TaskWeight(job.task)
  }

  /** The calls of `enqueue` for some tasks, one after the other, with consecutive tickets. */
  function AdmitAll(sh: Shared, ticket: nat, tasks: seq<Task>): Shared
    decreases |tasks|
  {
    if tasks == [] then sh else AdmitAll(Admit(sh, Job(ticket, tasks[0])), ticket + 1, tasks[1..])
  }

  lemma {:induction false} AdmitAllAppend(sh: Shared, ticket: nat, tasks: seq<Task>, task: Task)
    ensures AdmitAll(sh, ticket, tasks + [task]) == Admit(AdmitAll(sh, ticket, tasks), Job(ticket + |tasks|, task))
    decreases |tasks|
  {
    if tasks == [] {
      assert [task][1..] == [];
    } else {
      assert (tasks + [task])[1..] == tasks[1..] + [task];
      AdmitAllAppend(Admit(sh, Job(ticket, tasks[0])), ticket + 1, tasks[1..], task);
    }
  }

  /** What a task enqueues weighs less than the task, however much of it is accepted. */
  lemma {:induction false} AdmitAllWeight(sh: Shared, ticket: nat, tasks: seq<Task>)
    ensures Sum(AdmitAll(sh, ticket, tasks).queue, TreeWeight) <= Sum(sh.queue, TreeWeight) + SpawnWeight(tasks)
    decreases |tasks|
  {
    if tasks != [] {
      var job := Job(ticket, tasks[0]);
      SumAppend(sh.queue, TreeWeight, job);
      AdmitAllWeight(Admit(sh, job), ticket + 1, tasks[1..]);
    }
  }

  lemma {:induction false} PrefixWeight(tasks: seq<Task>, n: nat)
    requires n <= |tasks|
    ensures SpawnWeight(tasks[..n]) <= SpawnWeight(tasks)
    decreases |tasks|
  {
    if n != 0 {
      assert tasks[..n][1..] == tasks[1..][..n - 1];
      PrefixWeight(tasks[1..], n - 1);
    }
  }

  /** They only add to the back of the queue. */
  lemma {:induction false} AdmitAllGrows(sh: Shared, ticket: nat, tasks: seq<Task>)
    ensures var sh' := AdmitAll(sh, ticket, tasks);
            && sh.queue <= sh'.queue && sh.accepted <= sh'.accepted
            && sh'.shutdown == sh.shutdown && sh'.started == sh.started && sh'.max == sh.max
    decreases |tasks|
  {
    if tasks != [] { AdmitAllGrows(Admit(sh, Job(ticket, tasks[0])), ticket + 1, tasks[1..]); }
  }

  /** Once the pool is shutting down every one of those calls is turned away. */
  lemma {:induction false} AdmitNoneAfterShutdown(sh: Shared, ticket: nat, tasks: seq<Task>)
    requires sh.shutdown
    ensures var sh' := AdmitAll(sh, ticket, tasks);
            && sh' == sh.(rejected := sh'.rejected)
            && sh'.rejected == sh.rejected + seq(|tasks|, k requires 0 <= k < |tasks| => Job(ticket + k, tasks[k]))
    decreases |tasks|
  {
    if tasks != [] {
      AdmitNoneAfterShutdown(Admit(sh, Job(ticket, tasks[0])), ticket + 1, tasks[1..]);
    }
  }

  /** The queue after a task ran: lighter than with the task in it, and longer only at the back. */
  lemma AfterTask(sh: Shared, ticket: nat, job: Job, calls: nat)
    requires calls <= |job.task.spawns|
    ensures var sh' := AdmitAll(sh, ticket, job.task.spawns[..calls]);
            && Sum(sh'.queue, TreeWeight) < Sum([job] + sh.queue, TreeWeight)
            && sh.queue <= sh'.queue && sh.accepted <= sh'.accepted
            && sh'.shutdown == sh.shutdown && sh'.started == sh.started
            && (sh.shutdown ==> sh'.queue == sh.queue && sh'.accepted == sh.accepted)
  {
    var tasks := job.task.spawns[..calls];
    AdmitAllWeight(sh, ticket, tasks);
    PrefixWeight(job.task.spawns, calls);
    AdmitAllGrows(sh, ticket, tasks);
    if sh.shutdown { AdmitNoneAfterShutdown(sh, ticket, tasks); }
    assert ([job] + sh.queue)[1..] == sh.queue;
  }

  /** With an empty queue, what was queued at first is what was started first since. */
  lemma RanAll(before: seq<Job>, queued: seq<Job>, ran: seq<Job>, started: seq<Job>, accepted: seq<Job>)
    requires started == before + ran && accepted == started + []
    requires before + queued <= accepted
    ensures started == accepted && queued <= ran && (accepted == before + queued ==> ran == queued)
  {
    assert accepted[|before|..] == ran && (before + queued)[|before|..] == queued;
  }

  class Pool {
    const maxQueueSize: nat
    const workers: nat
    var taskQueue: seq<Job>
    var shutdown: bool
    var tickets: nat
    ghost var accepted: seq<Job>
    ghost var rejected: seq<Job>
    ghost var started: seq<Job>

    ghost function Snapshot(): Shared
      reads this
    {
      Shared(taskQueue, shutdown, maxQueueSize, accepted, rejected, started)
    }

    /** A pool of zero threads is never what a caller wants: it gets one. */
    constructor (nThreads: nat, maxQueueSize: nat)
      ensures Snapshot() == Shared([], false, maxQueueSize, [], [], [])
      ensures Fifo(Snapshot()) && tickets == 0
      ensures workers == if nThreads == 0 then 1 else nThreads
    {
      var n := nThreads;
      if n == 0 { n := 1; }
      this.workers := n;
      this.maxQueueSize := maxQueueSize;
      taskQueue, shutdown, tickets := [], false, 0;
      accepted, rejected, started := [], [], [];
    }

    method Enqueue(task: Task) returns (ok: bool)
      requires Fifo(Snapshot())
      modifies this
      ensures Fifo(Snapshot()) && tickets == old(tickets) + 1
      ensures Snapshot() == Admit(old(Snapshot()), Job(old(tickets), task))
      ensures ok <==> !old(shutdown) && |old(taskQueue)| < maxQueueSize
      ensures taskQueue == if ok then old(taskQueue) + [Job(old(tickets), task)] else old(taskQueue)
    {
      AdmitKeepsFifo(Snapshot(), Job(tickets, task));
      var job := Job(tickets, task);
      tickets := tickets + 1;
      if shutdown {
        rejected := rejected + [job];
        return false;
      }
      if |taskQueue| >= maxQueueSize {
        rejected := rejected + [job];
        return false;
      }
      taskQueue := taskQueue + [job];
      accepted := accepted + [job];
      return true;
    }

    method QueueSize() returns (size: nat)
      requires Fifo(Snapshot())
      ensures size + |started| == |accepted| && size <= maxQueueSize
    {
      size := |taskQueue|;
    }

    /** One round of `worker_loop` under the lock, once the awaited predicate holds: nothing is
        returned exactly when the worker has to exit. */
    method TakeOrExit() returns (exit: bool, job: Job)
      requires Fifo(Snapshot()) && Ready(Snapshot())
      modifies this
      ensures Fifo(Snapshot()) && tickets == old(tickets)
      ensures exit <==> old(shutdown) && old(taskQueue) == []
      ensures exit ==> Snapshot() == old(Snapshot())
      ensures !exit ==> old(taskQueue) == [job] + taskQueue && Snapshot() == Take(old(Snapshot()))
    {
      if shutdown && taskQueue == [] {
        return true, Job(0, Task(0, [], false));
      }
      TakeKeepsFifo(Snapshot());
      job := taskQueue[0];
      taskQueue := taskQueue[1..];
      started := started + [job];
      return false, job;
    }

    method BeginShutdown()
      requires Fifo(Snapshot())
      modifies this`shutdown
      ensures Fifo(Snapshot()) && Snapshot() == old(Snapshot()).(shutdown := true)
    {
      shutdown := true;
    }

    /** Runs a task, which calls `enqueue` for its spawns in order, up to where it throws; the worker
        swallows the exception. */
    method RunTask(job: Job) returns (calls: nat)
      requires Fifo(Snapshot())
      modifies this
      ensures Fifo(Snapshot())
      ensures calls <= |job.task.spawns| && (!job.task.throws ==> calls == |job.task.spawns|)
      ensures Snapshot() == AdmitAll(old(Snapshot()), old(tickets), job.task.spawns[..calls])
      ensures tickets == old(tickets) + calls
      ensures Sum(taskQueue, TreeWeight) < Sum([job] + old(taskQueue), TreeWeight)
      ensures old(taskQueue) <= taskQueue && old(accepted) <= accepted
      ensures shutdown == old(shutdown) && started == old(started)
      ensures shutdown ==> taskQueue == old(taskQueue) && accepted == old(accepted)
    {
      calls := |job.task.spawns|;
      if job.task.throws { calls :| 0 <= calls <= |job.task.spawns|; }
      for k := 0 to calls
        invariant Fifo(Snapshot()) && tickets == old(tickets) + k
        invariant Snapshot() == AdmitAll(old(Snapshot()), old(tickets), job.task.spawns[..k])
      {
        AdmitAllAppend(old(Snapshot()), old(tickets), job.task.spawns[..k], job.task.spawns[k]);
        assert job.task.spawns[..k + 1] == job.task.spawns[..k] + [job.task.spawns[k]];
        var ok := Enqueue(job.task.spawns[k]);
      }
      AfterTask(old(Snapshot()), old(tickets), job, calls);
    }

    /** `worker_loop` run by the only worker, with no client about: it takes the tasks in the order in
        which they were accepted, those included that its tasks enqueue, until none is left.  Then it
        returns if the pool is shutting down, and would wait otherwise.  After shutdown it runs
        exactly what was queued. */
    method WorkerLoop() returns (exited: bool, finished: seq<Job>)
      requires Fifo(Snapshot())
      modifies this
      ensures Fifo(Snapshot()) && taskQueue == [] && started == accepted
      ensures started == old(started) + finished && old(taskQueue) <= finished
      ensures shutdown == old(shutdown) && (exited <==> shutdown)
      ensures shutdown ==> finished == old(taskQueue) && accepted == old(accepted)
    {
      finished := [];
      assert old(accepted) == old(started) + old(taskQueue);
      while true
        invariant Fifo(Snapshot()) && shutdown == old(shutdown)
        invariant started == old(started) + finished
        invariant old(accepted) <= accepted && (shutdown ==> accepted == old(accepted))
        decreases Sum(taskQueue, TreeWeight)
      {
        SumBounds(taskQueue, TreeWeight);
        if !shutdown && taskQueue == [] {
          RanAll(old(started), old(taskQueue), finished, started, accepted);
          return false, finished;
        }
        var exit, job := TakeOrExit();
        if exit {
          RanAll(old(started), old(taskQueue), finished, started, accepted);
          return true, finished;
        }
        var calls := RunTask(job);
        finished := finished + [job];
      }
    }
  }
}
