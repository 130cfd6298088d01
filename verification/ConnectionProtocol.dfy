/** Any number of threads look up features at the same time.  Taking a connection from the pool,
    sending one command, reading one reply, and giving the connection back are single steps. */
module ConnectionProtocol {
  import opened Common
  import opened Wire
  import opened Replies
  import opened FeatureStore

  datatype Ctx = Ctx(outstanding: seq<Bytes>, broken: bool)

  /** A thread in a lookup: it holds a context, has sent the first `sent` commands and read the replies
      in `results`.  A single lookup is a batch of one that throws where a batch fills up with misses. */
  datatype Thread =
    | Idle
    | Working(ctx: nat, ids: seq<Bytes>, sent: nat, results: seq<Features>, single: bool)
    | Done(ids: seq<Bytes>, answered: nat, results: seq<Features>, thrown: bool)

  datatype State = State(pool: seq<nat>, contexts: seq<Ctx>, threads: seq<Thread>, discarded: seq<nat>)

  datatype Step =
    | Begin(i: nat, ids: seq<Bytes>, single: bool)
    | Send(i: nat)
    | Receive(i: nat, fails: bool)
    | Release(i: nat)
    | Leave(i: nat)

  predicate Enabled(s: State, step: Step) {
    && step.i < |s.threads|
    && var t := s.threads[step.i];
       match step
       case Begin(_, ids, single) => t.Idle? && (single ==> |ids| == 1)
       case Send(_) => t.Working? && t.sent < |t.ids| && t.ctx < |s.contexts|
       case Receive(_, _) =>
         && t.Working? && t.sent == |t.ids| && |t.results| < |t.ids|
         && t.ctx < |s.contexts| && s.contexts[t.ctx].outstanding != []
       case Release(_) => t.Working? && t.sent == |t.ids| && |t.results| == |t.ids|
       case Leave(_) => t.Done?
  }

  function Misses(n: nat): seq<Features> {
    seq(n, _ => CACHE_MISS)
  }

  function Put(s: State, i: nat, t: Thread): State
    requires i < |s.threads|
  {
    s.(threads := s.threads[i := t])
  }

  function Next(w: World, s: State, step: Step): State
    requires Enabled(s, step)
  {
    var i := step.i;
    var t := s.threads[i];
    match step
    case Begin(_, ids, single) =>
      if s.pool == [] then Put(s, i, Done(ids, 0, Misses(|ids|), false))
      else Put(s, i, Working(s.pool[|s.pool| - 1], ids, 0, [], single)).(pool := s.pool[..|s.pool| - 1])
    case Send(_) =>
      var ctx := s.contexts[t.ctx];
      Put(s, i, t.(sent := t.sent + 1))
        .(contexts := s.contexts[t.ctx := ctx.(outstanding := ctx.outstanding + [t.ids[t.sent]])])
    case Receive(_, fails) =>
      var ctx := s.contexts[t.ctx];
      if fails then
        Put(s, i, Done(t.ids, |t.results|, t.results + Misses(|t.ids| - |t.results|), t.single))
          .(contexts := s.contexts[t.ctx := ctx.(broken := true)], discarded := s.discarded + [t.ctx])
      else
        // The reply answers the oldest command on this connection, whoever sent it.
        Put(s, i, Working(t.ctx, t.ids, t.sent, t.results + [Lookup(w, ctx.outstanding[0])], t.single))
          .(contexts := s.contexts[t.ctx := ctx.(outstanding := ctx.outstanding[1..])])
    case Release(_) =>
      Put(s, i, Done(t.ids, |t.ids|, t.results, false)).(pool := s.pool + [t.ctx])
    case Leave(_) => Put(s, i, Idle)
  }

  /** A pool of new connections, and nobody in a lookup. */
  ghost predicate Init(s: State) {
    && s.discarded == []
    && s.pool == Identity(|s.contexts|)
    && (forall c :: 0 <= c < |s.contexts| ==> s.contexts[c] == Ctx([], false))
    && (forall i :: 0 <= i < |s.threads| ==> s.threads[i] == Idle)
  }

  ghost predicate Run(w: World, states: seq<State>, steps: seq<Step>) {
    && |states| == |steps| + 1
    && forall i :: 0 <= i < |steps| ==> Enabled(states[i], steps[i]) && states[i + 1] == Next(w, states[i], steps[i])
  }

  // ---------------------------------------------------------------------------------------------
  // The invariant
  // ---------------------------------------------------------------------------------------------

  /** Whether a thread holds a given context. */
  function Holds(c: nat): Thread -> int {
    (t: Thread) => if t.Working? && t.ctx == c then 1 else 0
  }

  /** Every context is in exactly one place: pooled once, held by one thread, or discarded once. */
  ghost predicate OnePlace(s: State, c: nat) {
    Count(s.pool, c) + Count(s.discarded, c) + Sum(s.threads, Holds(c)) == if c < |s.contexts| then 1 else 0
  }

  /** What a thread holds is unbroken, and its unread replies are those to its own commands. */
  ghost predicate ThreadOk(w: World, s: State, t: Thread) {
    match t
    case Idle => true
    case Working(ctx, ids, sent, results, _) =>
      && ctx < |s.contexts|
      && |results| <= sent <= |ids|
      && (sent < |ids| ==> results == [])
      && s.contexts[ctx] == Ctx(ids[|results|..sent], false)
      && forall k :: 0 <= k < |results| ==> results[k] == Lookup(w, ids[k])
    case Done(ids, answered, results, _) =>
      && answered <= |ids| == |results|
      && forall k :: 0 <= k < |ids| ==> results[k] == if k < answered then Lookup(w, ids[k]) else CACHE_MISS
  }

  ghost predicate Inv(w: World, s: State) {
    && (forall c: nat :: OnePlace(s, c))
    && (forall k :: 0 <= k < |s.pool| ==> s.pool[k] < |s.contexts| && s.contexts[s.pool[k]] == Ctx([], false))
    && (forall i :: 0 <= i < |s.threads| ==> ThreadOk(w, s, s.threads[i]))
  }

  lemma InitInv(w: World, s: State)
    requires Init(s)
    ensures Inv(w, s)
  {
    forall c: nat ensures OnePlace(s, c) {
      CountIdentity(|s.contexts|, c);
      SumZero(s.threads, Holds(c));
    }
  }

  /** No context is held by two threads, and what is held is neither pooled nor discarded. */
  lemma HeldByOne(w: World, s: State, i: nat)
    requires Inv(w, s) && i < |s.threads| && s.threads[i].Working?
    ensures s.threads[i].ctx !in s.pool && s.threads[i].ctx !in s.discarded
    ensures forall j :: 0 <= j < |s.threads| && j != i && s.threads[j].Working? ==> s.threads[j].ctx != s.threads[i].ctx
  {
    var c := s.threads[i].ctx;
    assert OnePlace(s, c);
    SumBounds(s.threads, Holds(c));
    assert 1 <= Holds(c)(s.threads[i]) <= Sum(s.threads, Holds(c));
    CountPositive(s.pool, c);
    CountPositive(s.discarded, c);
    forall j | 0 <= j < |s.threads| && j != i && s.threads[j].Working? ensures s.threads[j].ctx != c {
      if s.threads[j].ctx == c {
        if i < j { SumTwo(s.threads, Holds(c), i, j); } else { SumTwo(s.threads, Holds(c), j, i); }
      }
    }
  }

  /** How a step moves a context between the three places. */
  lemma StepPlaces(w: World, s: State, step: Step, c: nat)
    requires Enabled(s, step)
    ensures var s', t, t' := Next(w, s, step), s.threads[step.i], Next(w, s, step).threads[step.i];
            && Count(s'.pool, c) + Count(s'.discarded, c) + Holds(c)(t')
                 == Count(s.pool, c) + Count(s.discarded, c) + Holds(c)(t)
            && |s'.contexts| == |s.contexts|
  {
    var t := s.threads[step.i];
    match step
    case Begin(_, _, _) =>
      if s.pool != [] {
        var last := |s.pool| - 1;
        assert s.pool == s.pool[..last] + [s.pool[last]];
        CountAppend(s.pool[..last], s.pool[last], c);
      }
    case Receive(_, fails) => CountAppend(s.discarded, t.ctx, c);
    case Release(_) => CountAppend(s.pool, t.ctx, c);
    case _ =>
  }

  lemma StepOnePlace(w: World, s: State, step: Step, c: nat)
    requires OnePlace(s, c) && Enabled(s, step)
    ensures OnePlace(Next(w, s, step), c)
  {
    var t' := Next(w, s, step).threads[step.i];
    StepPlaces(w, s, step, c);
    assert Next(w, s, step).threads == s.threads[step.i := t'];
    SumUpdate(s.threads, Holds(c), step.i, t');
  }

  /** The thread that moves keeps its books. */
  lemma SendActor(w: World, s: State, step: Step)
    requires Inv(w, s) && Enabled(s, step) && step.Send?
    ensures ThreadOk(w, Next(w, s, step), Next(w, s, step).threads[step.i])
  {
    var t := s.threads[step.i];
    assert ThreadOk(w, s, t);
    assert t.ids[0..t.sent] + [t.ids[t.sent]] == t.ids[0..t.sent + 1];
  }

  lemma ReceiveActor(w: World, s: State, step: Step)
    requires Inv(w, s) && Enabled(s, step) && step.Receive?
    ensures ThreadOk(w, Next(w, s, step), Next(w, s, step).threads[step.i])
  {
    var t := s.threads[step.i];
    assert ThreadOk(w, s, t);
    assert s.contexts[t.ctx].outstanding[0] == t.ids[|t.results|];
    assert t.ids[|t.results|..t.sent][1..] == t.ids[|t.results| + 1..t.sent];
  }

  lemma StepActor(w: World, s: State, step: Step)
    requires Inv(w, s) && Enabled(s, step)
    ensures ThreadOk(w, Next(w, s, step), Next(w, s, step).threads[step.i])
  {
    if step.Send? { SendActor(w, s, step); }
    else if step.Receive? { ReceiveActor(w, s, step); }
    else { assert ThreadOk(w, s, s.threads[step.i]); }
  }

  /** A step touches no context but the one its thread holds. */
  lemma StepContexts(w: World, s: State, step: Step)
    requires Enabled(s, step)
    ensures var s', t := Next(w, s, step), s.threads[step.i];
            && |s'.contexts| == |s.contexts| && |s'.threads| == |s.threads|
            && (forall c :: 0 <= c < |s.contexts| && !(t.Working? && t.ctx == c) ==> s'.contexts[c] == s.contexts[c])
            && (forall j :: 0 <= j < |s.threads| && j != step.i ==> s'.threads[j] == s.threads[j])
  {
  }

  lemma StepPool(w: World, s: State, step: Step)
    requires Inv(w, s) && Enabled(s, step)
    ensures var s' := Next(w, s, step);
            forall k :: 0 <= k < |s'.pool| ==> s'.pool[k] < |s'.contexts| && s'.contexts[s'.pool[k]] == Ctx([], false)
  {
    StepContexts(w, s, step);
    var t := s.threads[step.i];
    if t.Working? {
      HeldByOne(w, s, step.i);
      assert ThreadOk(w, s, t);
      if step.Release? { assert t.ids[|t.results|..t.sent] == []; }
    }
  }

  lemma StepInv(w: World, s: State, step: Step)
    requires Inv(w, s) && Enabled(s, step)
    ensures Inv(w, Next(w, s, step))
  {
    var s' := Next(w, s, step);
    forall c: nat ensures OnePlace(s', c) { StepOnePlace(w, s, step, c); }
    StepPool(w, s, step);
    StepContexts(w, s, step);
    StepActor(w, s, step);
    if s.threads[step.i].Working? { HeldByOne(w, s, step.i); }
    forall j | 0 <= j < |s'.threads| ensures ThreadOk(w, s', s'.threads[j]) {
      if j != step.i { assert ThreadOk(w, s, s.threads[j]); }
    }
  }

  lemma {:induction false} RunInv(w: World, states: seq<State>, steps: seq<Step>, k: nat)
    requires Run(w, states, steps) && Init(states[0]) && k < |states|
    ensures Inv(w, states[k])
  {
    if k == 0 {
      InitInv(w, states[0]);
    } else {
      RunInv(w, states, steps, k - 1);
      StepInv(w, states[k - 1], steps[k - 1]);
    }
  }

  // ---------------------------------------------------------------------------------------------
  // What holds over every run
  // ---------------------------------------------------------------------------------------------

  /** Reply attribution: whatever failed or threw before, every pooled connection is without unread
      replies, and the k-th result a lookup hands out, whether it ended well or not, is the stored
      record of its k-th user or, from the failure on, a miss. */
  lemma RepliesAnswerTheirUsers(w: World, states: seq<State>, steps: seq<Step>, n: nat)
    requires Run(w, states, steps) && Init(states[0]) && n < |states|
    ensures var s := states[n];
            && (forall k :: 0 <= k < |s.pool| ==> s.pool[k] < |s.contexts| && s.contexts[s.pool[k]] == Ctx([], false))
            && (forall i :: 0 <= i < |s.threads| && s.threads[i].Done? ==>
                  var t := s.threads[i];
                  && |t.results| == |t.ids|
                  && forall k :: 0 <= k < |t.ids| ==>
                       t.results[k] == if k < t.answered then Lookup(w, t.ids[k]) else CACHE_MISS)
            && (forall i :: 0 <= i < |s.threads| && s.threads[i].Working? ==>
                  forall k :: 0 <= k < |s.threads[i].results| ==>
                    k < |s.threads[i].ids| && s.threads[i].results[k] == Lookup(w, s.threads[i].ids[k]))
  {
    RunInv(w, states, steps, n);
    forall i | 0 <= i < |states[n].threads| ensures ThreadOk(w, states[n], states[n].threads[i]) {}
  }

  /** Whether a thread holds a context at all. */
  function HoldsAny(t: Thread): int {
    if t.Working? then 1 else 0
  }

  lemma {:induction false} ConnectionsConserved(w: World, states: seq<State>, steps: seq<Step>, n: nat)
    requires Run(w, states, steps) && Init(states[0]) && n < |states|
    ensures |states[n].pool| + |states[n].discarded| + Sum(states[n].threads, HoldsAny) == |states[0].contexts|
    ensures |states[n].contexts| == |states[0].contexts|
  {
    if n == 0 {
      SumZero(states[0].threads, HoldsAny);
    } else {
      ConnectionsConserved(w, states, steps, n - 1);
      var s, step := states[n - 1], steps[n - 1];
      SumUpdate(s.threads, HoldsAny, step.i, states[n].threads[step.i]);
      StepContexts(w, s, step);
    }
  }

  /** Each context is pooled, held or discarded, exactly one of them and by one holder: in every
      reachable state the three counts of a context add up to one. */
  lemma EachInOnePlace(w: World, states: seq<State>, steps: seq<Step>, n: nat, c: nat)
    requires Run(w, states, steps) && Init(states[0]) && n < |states| && c < |states[0].contexts|
    ensures Count(states[n].pool, c) + Count(states[n].discarded, c) + Sum(states[n].threads, Holds(c)) == 1
  {
    RunInv(w, states, steps, n);
    ConnectionsConserved(w, states, steps, n);
    assert OnePlace(states[n], c);
  }

  // ---------------------------------------------------------------------------------------------
  // Lookups that nobody interrupts
  // ---------------------------------------------------------------------------------------------

  /** How many steps a thread has left in its lookup. */
  function Left(t: Thread): nat {
    if t.Working? then (if t.sent < |t.ids| then |t.ids| - t.sent else 0)
                       + (if |t.results| < |t.ids| then |t.ids| - |t.results| else 0) + 1
    else 0
  }

  /** The next step of a thread in a lookup, on a connection that breaks at reply `failAt`. */
  function NextOf(t: Thread, i: nat, failAt: Option<nat>): Step
    requires t.Working?
  {
    if t.sent < |t.ids| then Send(i)
    else if |t.results| < |t.ids| then Receive(i, failAt == Some(|t.results|))
    else Release(i)
  }

  /** What a thread in a lookup reaches, nobody else moving. */
  function Alone(w: World, s: State, i: nat, failAt: Option<nat>): (s': State)
    requires i < |s.threads|
    ensures |s'.threads| == |s.threads|
    decreases Left(s.threads[i])
  {
    if s.threads[i].Working? && Enabled(s, NextOf(s.threads[i], i, failAt)) then
      Alone(w, Next(w, s, NextOf(s.threads[i], i, failAt)), i, failAt)
    else s
  }

  lemma StepAlone(w: World, s: State, i: nat, failAt: Option<nat>)
    requires Inv(w, s) && i < |s.threads| && s.threads[i].Working?
    ensures var t, step := s.threads[i], NextOf(s.threads[i], i, failAt);
            && Enabled(s, step) && Inv(w, Next(w, s, step))
            && var s' := Next(w, s, step);
               && s'.threads == s.threads[i := s'.threads[i]]
               && (step.Release? ==> s'.pool == s.pool + [t.ctx] && s'.discarded == s.discarded)
               && (step.Receive? && step.fails ==> s'.pool == s.pool && s'.discarded == s.discarded + [t.ctx])
               && (s'.threads[i].Working? ==>
                     && s'.pool == s.pool && s'.discarded == s.discarded && s'.threads[i].ctx == t.ctx
                     && s'.threads[i].ids == t.ids && s'.threads[i].single == t.single
                     && Left(s'.threads[i]) < Left(t))
  {
    assert ThreadOk(w, s, s.threads[i]);
    StepInv(w, s, NextOf(s.threads[i], i, failAt));
  }

  /** What a lookup has come to when its last step is taken. */
  lemma LastStepAlone(w: World, s: State, i: nat, failAt: Option<nat>)
    requires Inv(w, s) && i < |s.threads| && s.threads[i].Working?
    requires failAt.Some? && failAt.value < |s.threads[i].ids| ==> |s.threads[i].results| <= failAt.value
    requires Enabled(s, NextOf(s.threads[i], i, failAt))
    ensures var t, t' := s.threads[i], Next(w, s, NextOf(s.threads[i], i, failAt)).threads[i];
            var arrived := Arrived(|t.ids|, failAt);
            if t'.Working? then
              failAt.Some? && failAt.value < |t.ids| ==> |t'.results| <= failAt.value
            else
              && t' == Done(t.ids, arrived, Answers(w, t.ids, arrived), t.single && arrived < |t.ids|)
              && (NextOf(t, i, failAt).Release? <==> arrived == |t.ids|)
  {
    var t, t' := s.threads[i], Next(w, s, NextOf(s.threads[i], i, failAt)).threads[i];
    assert ThreadOk(w, s, t);
    if !t'.Working? {
      assert t'.results == Answers(w, t.ids, Arrived(|t.ids|, failAt));
    }
  }

  /** A thread that is on its way through a lookup gets to the end of it: its results are those of
      `GetFeaturesPipelined`, and the pool is as that method leaves it. */
  lemma {:induction false} WorkingAlone(w: World, s: State, i: nat, failAt: Option<nat>)
    requires Inv(w, s) && i < |s.threads| && s.threads[i].Working?
    requires failAt.Some? && failAt.value < |s.threads[i].ids| ==> |s.threads[i].results| <= failAt.value
    ensures var t, s' := s.threads[i], Alone(w, s, i, failAt);
            var arrived := Arrived(|t.ids|, failAt);
            var done := Done(t.ids, arrived, Answers(w, t.ids, arrived), t.single && arrived < |t.ids|);
            && s'.threads == s.threads[i := done]
            && s'.pool == (if arrived < |t.ids| then s.pool else s.pool + [t.ctx])
            && s'.discarded == (if arrived < |t.ids| then s.discarded + [t.ctx] else s.discarded)
    decreases Left(s.threads[i])
  {
    var t := s.threads[i];
    var step := NextOf(t, i, failAt);
    StepAlone(w, s, i, failAt);
    LastStepAlone(w, s, i, failAt);
    var s1 := Next(w, s, step);
    if s1.threads[i].Working? { WorkingAlone(w, s1, i, failAt); }
  }

  lemma BeginAlone(w: World, s: State, i: nat, ids: seq<Bytes>, single: bool)
    requires Inv(w, s) && Enabled(s, Begin(i, ids, single))
    ensures var s' := Next(w, s, Begin(i, ids, single));
            && Inv(w, s') && |s'.threads| == |s.threads|
            && (s.pool == [] ==> s'.threads[i] == Done(ids, 0, Answers(w, ids, 0), false) && s'.pool == [])
            && (s.pool != [] ==>
                  var ctx := s.pool[|s.pool| - 1];
                  && s'.threads[i] == Working(ctx, ids, 0, [], single)
                  && s'.pool == s.pool[..|s.pool| - 1] && s'.pool + [ctx] == s.pool)
  {
    StepInv(w, s, Begin(i, ids, single));
    assert Misses(|ids|) == Answers(w, ids, 0);
  }

  /** Run without interruption, the steps of one lookup are the method: single or batch, on an empty pool
      or not, with a failure at any reply or none. */
  lemma LookupAlone(w: World, s: State, i: nat, ids: seq<Bytes>, single: bool, failAt: Option<nat>)
    requires Inv(w, s) && Enabled(s, Begin(i, ids, single))
    ensures var s' := Alone(w, Next(w, s, Begin(i, ids, single)), i, failAt);
            var answered := if s.pool == [] then 0 else Arrived(|ids|, failAt);
            var thrown := single && s.pool != [] && answered < |ids|;
            && s'.threads[i] == Done(ids, answered, Answers(w, ids, answered), thrown)
            && s'.pool == PoolAfter(s.pool, |ids|, failAt)
  {
    BeginAlone(w, s, i, ids, single);
    if s.pool != [] { WorkingAlone(w, Next(w, s, Begin(i, ids, single)), i, failAt); }
  }
}
