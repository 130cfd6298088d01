/** Consumers of src/consumer/kafka_consumer.cpp over the partitions of a topic: polling, handling,
    committing, rebalancing, throwing callbacks, restarts, crashes.  Offsets are counted from the offset that a
    partition had committed at the start. */
module ConsumerProtocol {
  import opened Common
  import opened Wire

  /** The payloads of each partition, and which of them the parser accepts; the consumer skips the
      others without a commit. */
  datatype Topic = Topic(logs: seq<seq<Bytes>>, accepts: Bytes -> bool)

  predicate Exists(t: Topic, p: nat, o: nat) {
    p < |t.logs| && o < |t.logs[p]|
  }

  predicate Parseable(t: Topic, p: nat, o: nat)
    requires Exists(t, p, o)
  {
    t.accepts(t.logs[p][o])
  }

  /** The message between poll and commit: not handled yet, or handled and not committed yet, or left
      behind by a callback that threw out of the loop. */
  datatype Inflight = Nothing | Polled(p: nat, o: nat) | Handled(p: nat, o: nat) | Thrown(p: nat, o: nat)

  datatype Consumer = Consumer(positions: map<nat, nat>, inflight: Inflight)

  /** `done` are the messages handled at least once, `handlings` counts every return of the callback,
      `lost` are the messages whose commit was lost in a crash and that were not handled again since, and
      `skipped` are those whose callback threw and whose consumer was started again behind them. */
  datatype State = State(
    committed: seq<nat>, consumers: seq<Consumer>,
    done: set<(nat, nat)>, handlings: nat, crashes: nat, lost: set<(nat, nat)>, skipped: set<(nat, nat)>)

  datatype Step =
    | Assign(c: nat, p: nat)
    | Revoke(c: nat, p: nat, commit: Option<nat>)
    | Poll(c: nat, p: nat)
    | Handle(c: nat)
    | Throw(c: nat)
    | Restart(c: nat)
    | Close(c: nat)
    | Commit(c: nat, ok: bool)
    | Crash(c: nat)

  const GONE := Consumer(map[], Nothing)

  predicate Enabled(t: Topic, s: State, step: Step) {
    && step.c < |s.consumers|
    && var k := s.consumers[step.c];
       match step
       // A rebalance runs inside a poll, when no message is under way.
       case Assign(_, p) => k.inflight == Nothing && p < |s.committed|
       case Revoke(_, p, commit) =>
         && k.inflight == Nothing && p in k.positions && p < |s.committed|
         && (commit.Some? ==> commit.value <= k.positions[p])
       case Poll(_, p) => k.inflight == Nothing && p in k.positions && Exists(t, p, k.positions[p])
       case Handle(_) => k.inflight.Polled?
       case Throw(_) => k.inflight.Polled?
       case Restart(_) => k.inflight.Thrown?
       case Close(_) => k.inflight == Nothing || k.inflight.Thrown?
       case Commit(_, _) => k.inflight.Handled? && k.inflight.p < |s.committed|
       case Crash(_) => true
  }

  function Put(s: State, c: nat, k: Consumer): State
    requires c < |s.consumers|
  {
    s.(consumers := s.consumers[c := k])
  }

  function Next(t: Topic, s: State, step: Step): State
    requires Enabled(t, s, step)
  {
    var c := step.c;
    var k := s.consumers[c];
    match step
    case Assign(_, p) => Put(s, c, k.(positions := k.positions[p := s.committed[p]]))
    case Revoke(_, p, commit) =>
      Put(s, c, k.(positions := k.positions - {p}))
        .(committed := if commit.Some? then s.committed[p := commit.value] else s.committed)
    case Poll(_, p) =>
      var o := k.positions[p];
      Put(s, c, Consumer(k.positions[p := o + 1], if Parseable(t, p, o) then Polled(p, o) else Nothing))
    case Handle(_) =>
      Put(s, c, k.(inflight := Handled(k.inflight.p, k.inflight.o)))
        .(done := s.done + {(k.inflight.p, k.inflight.o)}, handlings := s.handlings + 1,
          lost := s.lost - {(k.inflight.p, k.inflight.o)})
    // The exception leaves the loop; the position stays behind the message.
    case Throw(_) => Put(s, c, k.(inflight := Thrown(k.inflight.p, k.inflight.o)))
    // `start` on the same consumer: it goes on at its position.
    case Restart(_) => Put(s, c, k.(inflight := Nothing)).(skipped := s.skipped + {(k.inflight.p, k.inflight.o)})
    case Close(_) => Put(s, c, GONE)
    case Commit(_, ok) =>
      Put(s, c, k.(inflight := Nothing))
        .(committed := if ok then s.committed[k.inflight.p := k.inflight.o + 1] else s.committed)
    case Crash(_) =>
      Put(s, c, GONE)
        .(crashes := s.crashes + 1,
          lost := if k.inflight.Handled? then s.lost + {(k.inflight.p, k.inflight.o)} else s.lost)
  }

  ghost predicate Init(t: Topic, s: State) {
    && |s.committed| == |t.logs|
    && (forall p :: 0 <= p < |t.logs| ==> s.committed[p] == 0)
    && (forall c :: 0 <= c < |s.consumers| ==> s.consumers[c] == GONE)
    && s.done == {} && s.handlings == 0 && s.crashes == 0 && s.lost == {} && s.skipped == {}
  }

  ghost predicate Run(t: Topic, states: seq<State>, steps: seq<Step>) {
    && |states| == |steps| + 1
    && forall i :: 0 <= i < |steps| ==> Enabled(t, states[i], steps[i]) && states[i + 1] == Next(t, states[i], steps[i])
  }

  // ---------------------------------------------------------------------------------------------
  // At least once
  // ---------------------------------------------------------------------------------------------

  /** A message was handled, or the parser rejects it. */
  ghost predicate Settled(t: Topic, done: set<(nat, nat)>, p: nat, o: nat) {
    (p, o) in done || (Exists(t, p, o) && !Parseable(t, p, o))
  }

  /** Every message of a partition below an offset is settled. */
  ghost predicate SettledBelow(t: Topic, done: set<(nat, nat)>, p: nat, n: nat) {
    forall o :: 0 <= o < n ==> Settled(t, done, p, o)
  }

  /** How far a consumer has got with a partition, not counting a message it has only polled. */
  function Reached(k: Consumer, p: nat): nat
    requires p in k.positions
  {
    if (k.inflight.Polled? || k.inflight.Thrown?) && k.inflight.p == p then k.inflight.o else k.positions[p]
  }

  /** The messages that need not be handled any more, or never will be by the consumer that read them. */
  function Accounted(s: State): set<(nat, nat)> {
    s.done + s.skipped
  }

  ghost predicate ConsumerOk(t: Topic, s: State, k: Consumer) {
    && (forall p :: p in k.positions ==> SettledBelow(t, Accounted(s), p, Reached(k, p)))
    && (k.inflight != Nothing ==>
          && k.inflight.p in k.positions && k.positions[k.inflight.p] == k.inflight.o + 1
          && Exists(t, k.inflight.p, k.inflight.o) && Parseable(t, k.inflight.p, k.inflight.o)
          && (k.inflight.Handled? ==> (k.inflight.p, k.inflight.o) in s.done))
  }

  ghost predicate Safe(t: Topic, s: State) {
    && |s.committed| == |t.logs|
    && (forall p: nat :: p < |s.committed| ==> SettledBelow(t, Accounted(s), p, s.committed[p]))
    && (forall c :: 0 <= c < |s.consumers| ==> ConsumerOk(t, s, s.consumers[c]))
    && (forall p: nat, o: nat :: (p, o) in s.done || (p, o) in s.skipped ==> Exists(t, p, o) && Parseable(t, p, o))
  }

  /** What is settled stays settled, and one more settled message moves the bound by one. */
  lemma SettledGrows(t: Topic, done: set<(nat, nat)>, done': set<(nat, nat)>, p: nat, n: nat, n': nat)
    requires SettledBelow(t, done, p, n) && done <= done'
    requires n' <= n || (n' == n + 1 && Settled(t, done', p, n))
    ensures SettledBelow(t, done', p, n')
  {
    forall o | 0 <= o < n' ensures Settled(t, done', p, o) {
      assert o < n ==> Settled(t, done, p, o);
    }
  }

  lemma StepConsumer(t: Topic, s: State, step: Step)
    requires Safe(t, s) && Enabled(t, s, step)
    ensures ConsumerOk(t, Next(t, s, step), Next(t, s, step).consumers[step.c])
  {
    var s', k := Next(t, s, step), s.consumers[step.c];
    var k' := s'.consumers[step.c];
    assert ConsumerOk(t, s, k);
    forall p | p in k'.positions ensures SettledBelow(t, Accounted(s'), p, Reached(k', p)) {
      if step.Assign? && p == step.p {
        SettledGrows(t, Accounted(s), Accounted(s'), p, s.committed[p], s.committed[p]);
      } else {
        SettledGrows(t, Accounted(s), Accounted(s'), p, Reached(k, p), Reached(k', p));
      }
    }
  }

  lemma StepOthers(t: Topic, s: State, step: Step, c: nat)
    requires Safe(t, s) && Enabled(t, s, step) && c < |s.consumers| && c != step.c
    ensures ConsumerOk(t, Next(t, s, step), Next(t, s, step).consumers[c])
  {
    var s', k := Next(t, s, step), s.consumers[c];
    assert ConsumerOk(t, s, k);
    forall p | p in k.positions ensures SettledBelow(t, Accounted(s'), p, Reached(k, p)) {
      SettledGrows(t, Accounted(s), Accounted(s'), p, Reached(k, p), Reached(k, p));
    }
  }

  lemma StepSafe(t: Topic, s: State, step: Step)
    requires Safe(t, s) && Enabled(t, s, step)
    ensures Safe(t, Next(t, s, step))
  {
    var s', k := Next(t, s, step), s.consumers[step.c];
    assert ConsumerOk(t, s, k);
    forall c | 0 <= c < |s'.consumers| ensures ConsumerOk(t, s', s'.consumers[c]) {
      if c == step.c { StepConsumer(t, s, step); } else { StepOthers(t, s, step, c); }
    }
    forall p: nat | p < |s'.committed| ensures SettledBelow(t, Accounted(s'), p, s'.committed[p]) {
      if s'.committed[p] == s.committed[p] {
        SettledGrows(t, Accounted(s), Accounted(s'), p, s.committed[p], s.committed[p]);
      } else {
        // A commit, alone or on revocation, covers what its consumer has reached.
        SettledGrows(t, Accounted(s), Accounted(s'), p, Reached(k, p), s'.committed[p]);
      }
    }
  }

  lemma {:induction false} RunSafe(t: Topic, states: seq<State>, steps: seq<Step>, n: nat)
    requires Run(t, states, steps) && Init(t, states[0]) && n < |states|
    ensures Safe(t, states[n])
    ensures (forall i :: 0 <= i < n ==> !steps[i].Restart?) ==> states[n].skipped == {}
  {
    if n != 0 {
      RunSafe(t, states, steps, n - 1);
      StepSafe(t, states[n - 1], steps[n - 1]);
    }
  }

  /** At least once, over any sequence of crashes, reassignments, failed commits and throwing callbacks,
      and for any number of consumers, even two that believe they own the same partition: every offset
      below the committed one was handled, or cannot be parsed, or was skipped when a consumer was
      started again after its callback threw; where no consumer is, nothing is skipped. */
  lemma AtLeastOnce(t: Topic, states: seq<State>, steps: seq<Step>, n: nat, p: nat, o: nat)
    requires Run(t, states, steps) && Init(t, states[0]) && n < |states|
    requires p < |t.logs|
    ensures |states[n].committed| == |t.logs|
    ensures o < states[n].committed[p] ==>
              (p, o) in states[n].done || (Exists(t, p, o) && !Parseable(t, p, o)) || (p, o) in states[n].skipped
    ensures (p, o) in states[n].skipped ==> exists i :: 0 <= i < n && steps[i].Restart?
  {
    RunSafe(t, states, steps, n);
    assert SettledBelow(t, Accounted(states[n]), p, states[n].committed[p]);
    if o < states[n].committed[p] { assert Settled(t, Accounted(states[n]), p, o); }
  }

  // ---------------------------------------------------------------------------------------------
  // Starting a consumer again after its callback threw
  // ---------------------------------------------------------------------------------------------

  /** The promise of the consumer: what is committed was handled, or cannot be parsed. */
  ghost predicate Promised(t: Topic, s: State) {
    forall p: nat :: p < |s.committed| ==> SettledBelow(t, s.done, p, s.committed[p])
  }

  /** The partition and the offset that a step commits. */
  function CommitOf(s: State, step: Step): Option<(nat, nat)>
    requires step.c < |s.consumers|
  {
    var inflight := s.consumers[step.c].inflight;
    match step
    case Commit(_, ok) => if ok && inflight.Handled? then Some((inflight.p, inflight.o + 1)) else None
    case Revoke(_, p, Some(n)) => Some((p, n))
    case _ => None
  }

  /** A step commits past a message that was skipped and that nobody has handled since. */
  ghost predicate LeavesBehind(s: State, step: Step)
    requires step.c < |s.consumers|
  {
    match CommitOf(s, step)
    case None => false
    case Some((p, n)) => exists o: nat :: o < n && (p, o) in s.skipped && (p, o) !in s.done
  }

  /** While the promise holds, a step breaks it exactly when it commits past such a message. */
  lemma StepPromised(t: Topic, s: State, step: Step)
    requires Safe(t, s) && Promised(t, s) && Enabled(t, s, step)
    ensures Promised(t, Next(t, s, step)) <==> !LeavesBehind(s, step)
  {
    var s' := Next(t, s, step);
    if LeavesBehind(s, step) {
      var p, n := CommitOf(s, step).value.0, CommitOf(s, step).value.1;
      var o: nat :| o < n && (p, o) in s.skipped && (p, o) !in s.done;
      assert s'.committed[p] == n && !Settled(t, s'.done, p, o);
      assert !SettledBelow(t, s'.done, p, s'.committed[p]);
    } else {
      forall p: nat | p < |s'.committed| ensures SettledBelow(t, s'.done, p, s'.committed[p]) {
        PartitionPromised(t, s, step, p);
      }
    }
  }

  lemma PartitionPromised(t: Topic, s: State, step: Step, p: nat)
    requires Safe(t, s) && Promised(t, s) && Enabled(t, s, step) && !LeavesBehind(s, step) && p < |s.committed|
    ensures SettledBelow(t, Next(t, s, step).done, p, Next(t, s, step).committed[p])
  {
    var s' := Next(t, s, step);
    assert SettledBelow(t, s.done, p, s.committed[p]);
    if s'.committed[p] == s.committed[p] {
      SettledGrows(t, s.done, s'.done, p, s.committed[p], s.committed[p]);
    } else {
      StepSafe(t, s, step);
      assert CommitOf(s, step) == Some((p, s'.committed[p])) && s'.skipped == s.skipped && s'.done == s.done;
      forall o | 0 <= o < s'.committed[p] ensures Settled(t, s'.done, p, o) {
        assert Settled(t, Accounted(s'), p, o);
      }
    }
  }

  lemma LastPromised(t: Topic, states: seq<State>, steps: seq<Step>, n: nat)
    requires Run(t, states, steps) && Init(t, states[0]) && 0 < n < |states|
    ensures Promised(t, states[n - 1]) ==> (Promised(t, states[n]) <==> !LeavesBehind(states[n - 1], steps[n - 1]))
  {
    RunSafe(t, states, steps, n - 1);
    if Promised(t, states[n - 1]) { StepPromised(t, states[n - 1], steps[n - 1]); }
  }

  lemma PromisedSplit(t: Topic, states: seq<State>, steps: seq<Step>, n: nat)
    requires Run(t, states, steps) && 0 < n < |states|
    ensures (forall i :: 0 <= i <= n ==> Promised(t, states[i]))
            <==> (forall i :: 0 <= i <= n - 1 ==> Promised(t, states[i])) && Promised(t, states[n])
    ensures (forall i :: 0 <= i < n ==> !LeavesBehind(states[i], steps[i]))
            <==> (forall i :: 0 <= i < n - 1 ==> !LeavesBehind(states[i], steps[i]))
                 && !LeavesBehind(states[n - 1], steps[n - 1])
  {
  }

  /** Exactly when a run with restarts keeps the promise in all its states: when no commit in it passes a
      message that a restart skipped and that nobody has handled since. */
  lemma {:induction false} PromiseKeptIff(t: Topic, states: seq<State>, steps: seq<Step>, n: nat)
    requires Run(t, states, steps) && Init(t, states[0]) && n < |states|
    ensures (forall i :: 0 <= i <= n ==> Promised(t, states[i]))
            <==> (forall i :: 0 <= i < n ==> !LeavesBehind(states[i], steps[i]))
  {
    if n == 0 {
      assert Promised(t, states[0]);
    } else {
      PromiseKeptIff(t, states, steps, n - 1);
      LastPromised(t, states, steps, n);
      PromisedSplit(t, states, steps, n);
    }
  }

  /** A consumer about to read a message that parses. */
  ghost predicate ReadyAt(t: Topic, s: State, c: nat, p: nat, o: nat) {
    && c < |s.consumers| && s.consumers[c].inflight == Nothing && p in s.consumers[c].positions
    && s.consumers[c].positions[p] == o && p < |s.committed| && Exists(t, p, o) && Parseable(t, p, o)
  }

  lemma SkipOne(t: Topic, s: State, c: nat, p: nat, o: nat) returns (states: seq<State>)
    requires ReadyAt(t, s, c, p, o)
    ensures Run(t, states, [Poll(c, p), Throw(c), Restart(c)]) && states[0] == s
    ensures var k := Consumer(s.consumers[c].positions[p := o + 1], Nothing);
            states[3] == Put(s, c, k).(skipped := s.skipped + {(p, o)})
  {
    var s1 := Next(t, s, Poll(c, p));
    var s2 := Next(t, s1, Throw(c));
    states := [s, s1, s2, Next(t, s2, Restart(c))];
    assert states[3].consumers == s.consumers[c := Consumer(s.consumers[c].positions[p := o + 1], Nothing)];
  }

  lemma CommitOne(t: Topic, s: State, c: nat, p: nat, o: nat) returns (states: seq<State>)
    requires ReadyAt(t, s, c, p, o)
    ensures Run(t, states, [Poll(c, p), Handle(c), Commit(c, true)]) && states[0] == s
    ensures states[3].committed == s.committed[p := o + 1] && states[3].done == s.done + {(p, o)}
  {
    var s1 := Next(t, s, Poll(c, p));
    var s2 := Next(t, s1, Handle(c));
    states := [s, s1, s2, Next(t, s2, Commit(c, true))];
  }

  /** And it can fail: a callback throws, its consumer is started again, and the next message is handled
      and committed. */
  lemma RestartLosesMessage(t: Topic, s: State, c: nat, p: nat, o: nat) returns (states: seq<State>, steps: seq<Step>)
    requires ReadyAt(t, s, c, p, o) && (p, o) !in s.done
    requires Exists(t, p, o + 1) && Parseable(t, p, o + 1)
    ensures Run(t, states, steps) && states[0] == s
    ensures var last := states[|steps|];
            |last.committed| == |s.committed| && last.committed[p] == o + 2 && !Settled(t, last.done, p, o)
  {
    var skip := SkipOne(t, s, c, p, o);
    var commit := CommitOne(t, skip[3], c, p, o + 1);
    steps := [Poll(c, p), Throw(c), Restart(c)] + [Poll(c, p), Handle(c), Commit(c, true)];
    states := skip + commit[1..];
    assert states[3] == commit[0];
    assert forall k :: 0 <= k < 4 ==> states[k] == skip[k] && states[3 + k] == commit[k];
  }

  // ---------------------------------------------------------------------------------------------
  // Bounded duplication
  // ---------------------------------------------------------------------------------------------

  /** An orderly group: a partition is assigned to a consumer only while nobody holds it, commits
      succeed, and a revocation does not move a commit back. */
  predicate Orderly(s: State, step: Step) {
    match step
    case Assign(_, p) => forall c :: 0 <= c < |s.consumers| ==> p !in s.consumers[c].positions
    case Revoke(_, p, commit) => commit.Some? && p < |s.committed| ==> s.committed[p] <= commit.value
    case Commit(_, ok) => ok
    case _ => true
  }

  ghost predicate Exclusive(s: State) {
    forall c, d, p :: 0 <= c < d < |s.consumers| && p in s.consumers[c].positions ==> p !in s.consumers[d].positions
  }

  predicate UnderWay(k: Consumer, p: nat, o: nat) {
    k.inflight != Nothing && k.inflight.p == p && k.inflight.o == o
  }

  /** What a consumer has read and not committed was rejected, is under way, or was skipped. */
  ghost predicate Explained(t: Topic, s: State, k: Consumer, p: nat, o: nat) {
    (Exists(t, p, o) && !Parseable(t, p, o)) || UnderWay(k, p, o) || (p, o) in s.skipped
  }

  ghost predicate BehindAt(t: Topic, s: State, k: Consumer, p: nat)
    requires p in k.positions
  {
    && p < |s.committed| && s.committed[p] <= k.positions[p]
    && (k.inflight != Nothing && k.inflight.p == p ==> s.committed[p] <= k.inflight.o)
    && forall o: nat :: s.committed[p] <= o < k.positions[p] ==> Explained(t, s, k, p, o)
  }

  /** The same on every partition of a consumer, which has one message under way altogether. */
  ghost predicate Behind(t: Topic, s: State, k: Consumer) {
    forall p :: p in k.positions ==> BehindAt(t, s, k, p)
  }

  /** Somebody has handled a message and is about to commit it. */
  ghost predicate Committing(s: State, p: nat, o: nat) {
    exists c :: 0 <= c < |s.consumers| && s.consumers[c].inflight == Handled(p, o)
  }

  /** A handled message at or above the commit is about to be committed, or its commit was lost. */
  ghost predicate Uncommitted(s: State, p: nat, o: nat) {
    p < |s.committed| && s.committed[p] <= o ==> (p, o) in s.lost || Committing(s, p, o)
  }

  ghost predicate Tidy(t: Topic, s: State) {
    && Exclusive(s)
    && (forall c :: 0 <= c < |s.consumers| ==> Behind(t, s, s.consumers[c]))
    && (forall p: nat, o: nat :: (p, o) in s.done ==> Uncommitted(s, p, o))
    && s.lost <= s.done
    && s.handlings + |s.lost| <= |s.done| + s.crashes
  }

  /** A message about to be handled has been handled before exactly when its commit was lost in a crash. */
  lemma RepeatIffLost(t: Topic, s: State, c: nat)
    requires Safe(t, s) && Tidy(t, s) && c < |s.consumers| && s.consumers[c].inflight.Polled?
    ensures var k := s.consumers[c]; (k.inflight.p, k.inflight.o) in s.lost <==> (k.inflight.p, k.inflight.o) in s.done
  {
    var k := s.consumers[c];
    var p, o := k.inflight.p, k.inflight.o;
    assert ConsumerOk(t, s, k) && Behind(t, s, k) && BehindAt(t, s, k, p);
    forall d | 0 <= d < |s.consumers| ensures s.consumers[d].inflight != Handled(p, o) {
      assert ConsumerOk(t, s, s.consumers[d]);
    }
    if (p, o) in s.done { assert Uncommitted(s, p, o); }
  }

  lemma StepExclusive(t: Topic, s: State, step: Step)
    requires Exclusive(s) && Enabled(t, s, step) && Orderly(s, step)
    ensures Exclusive(Next(t, s, step))
  {
  }

  /** Only the holder of a partition moves its commit, and never back. */
  lemma CommitMoves(t: Topic, s: State, step: Step, p: nat)
    requires Safe(t, s) && Tidy(t, s) && Enabled(t, s, step) && Orderly(s, step) && p < |s.committed|
    ensures var s' := Next(t, s, step);
            && |s'.committed| == |s.committed| && s.committed[p] <= s'.committed[p]
            && (s'.committed[p] != s.committed[p] ==>
                  p in s.consumers[step.c].positions && s'.committed[p] <= s.consumers[step.c].positions[p])
  {
    var k := s.consumers[step.c];
    assert ConsumerOk(t, s, k) && Behind(t, s, k);
    if step.Commit? { assert BehindAt(t, s, k, k.inflight.p); }
  }

  lemma StepBehindOthers(t: Topic, s: State, step: Step, c: nat, p: nat)
    requires Safe(t, s) && Tidy(t, s) && Enabled(t, s, step) && Orderly(s, step) && c < |s.consumers| && c != step.c
    requires p in s.consumers[c].positions
    ensures Next(t, s, step).consumers[c] == s.consumers[c]
    ensures BehindAt(t, Next(t, s, step), s.consumers[c], p)
  {
    var s', k := Next(t, s, step), s.consumers[c];
    assert Behind(t, s, k) && BehindAt(t, s, k, p);
    CommitMoves(t, s, step, p);
    forall o: nat | s'.committed[p] <= o < k.positions[p] ensures Explained(t, s', k, p, o) {
      assert Explained(t, s, k, p, o);
    }
  }

  lemma StepBehindActor(t: Topic, s: State, step: Step, p: nat)
    requires Safe(t, s) && Tidy(t, s) && Enabled(t, s, step) && Orderly(s, step)
    requires p in Next(t, s, step).consumers[step.c].positions
    ensures BehindAt(t, Next(t, s, step), Next(t, s, step).consumers[step.c], p)
  {
    var s', k := Next(t, s, step), s.consumers[step.c];
    var k' := s'.consumers[step.c];
    assert ConsumerOk(t, s, k) && Behind(t, s, k);
    if p in k.positions {
      assert BehindAt(t, s, k, p);
      CommitMoves(t, s, step, p);
      forall o: nat | s'.committed[p] <= o < k'.positions[p] ensures Explained(t, s', k', p, o) {
        assert o < k.positions[p] ==> Explained(t, s, k, p, o);
      }
    }
  }

  lemma StepBehind(t: Topic, s: State, step: Step, c: nat)
    requires Safe(t, s) && Tidy(t, s) && Enabled(t, s, step) && Orderly(s, step) && c < |s.consumers|
    ensures Behind(t, Next(t, s, step), Next(t, s, step).consumers[c])
  {
    var s' := Next(t, s, step);
    forall p | p in s'.consumers[c].positions ensures BehindAt(t, s', s'.consumers[c], p) {
      if c == step.c { StepBehindActor(t, s, step, p); } else { StepBehindOthers(t, s, step, c, p); }
    }
  }

  lemma StaysCommitting(t: Topic, s: State, step: Step, p: nat, o: nat)
    requires Enabled(t, s, step) && Orderly(s, step) && Committing(s, p, o)
    requires p < |s.committed| == |Next(t, s, step).committed| && Next(t, s, step).committed[p] <= o
    ensures (p, o) in Next(t, s, step).lost || Committing(Next(t, s, step), p, o)
  {
    var s' := Next(t, s, step);
    var d :| 0 <= d < |s.consumers| && s.consumers[d].inflight == Handled(p, o);
    if d != step.c { assert s'.consumers[d] == s.consumers[d]; }
  }

  lemma StepUncommitted(t: Topic, s: State, step: Step, p: nat, o: nat)
    requires Safe(t, s) && Tidy(t, s) && Enabled(t, s, step) && Orderly(s, step)
    requires (p, o) in Next(t, s, step).done
    ensures Uncommitted(Next(t, s, step), p, o)
  {
    var s', c := Next(t, s, step), step.c;
    if p < |s.committed| && s'.committed[p] <= o {
      CommitMoves(t, s, step, p);
      if step.Handle? && s'.consumers[c].inflight == Handled(p, o) {
        assert Committing(s', p, o);
      } else {
        assert Uncommitted(s, p, o);
        if (p, o) !in s.lost { StaysCommitting(t, s, step, p, o); }
      }
    }
  }

  lemma StepCount(t: Topic, s: State, step: Step)
    requires Safe(t, s) && Tidy(t, s) && Enabled(t, s, step)
    ensures var s' := Next(t, s, step);
            s'.lost <= s'.done && s'.handlings + |s'.lost| <= |s'.done| + s'.crashes
  {
    var k := s.consumers[step.c];
    if step.Handle? {
      RepeatIffLost(t, s, step.c);
      CardAdd(s.done, (k.inflight.p, k.inflight.o));
      CardRemove(s.lost, (k.inflight.p, k.inflight.o));
    } else if step.Crash? && k.inflight.Handled? {
      assert ConsumerOk(t, s, k);
      CardAdd(s.lost, (k.inflight.p, k.inflight.o));
    }
  }

  lemma StepTidy(t: Topic, s: State, step: Step)
    requires Safe(t, s) && Tidy(t, s) && Enabled(t, s, step) && Orderly(s, step)
    ensures Tidy(t, Next(t, s, step))
  {
    var s' := Next(t, s, step);
    StepExclusive(t, s, step);
    forall c | 0 <= c < |s'.consumers| ensures Behind(t, s', s'.consumers[c]) { StepBehind(t, s, step, c); }
    forall p: nat, o: nat | (p, o) in s'.done ensures Uncommitted(s', p, o) { StepUncommitted(t, s, step, p, o); }
    StepCount(t, s, step);
  }

  lemma {:induction false} RunTidy(t: Topic, states: seq<State>, steps: seq<Step>, n: nat)
    requires Run(t, states, steps) && Init(t, states[0]) && n < |states|
    requires forall i :: 0 <= i < |steps| ==> Orderly(states[i], steps[i])
    ensures Safe(t, states[n]) && Tidy(t, states[n])
  {
    RunSafe(t, states, steps, n);
    if n != 0 {
      RunTidy(t, states, steps, n - 1);
      StepTidy(t, states[n - 1], steps[n - 1]);
    }
  }

  /** Bounded duplication in an orderly group, also when consumers are started again after their callback
      threw: the callback returns at most once for each message and once more for each crash. */
  lemma BoundedDuplication(t: Topic, states: seq<State>, steps: seq<Step>, n: nat)
    requires Run(t, states, steps) && Init(t, states[0]) && n < |states|
    requires forall i :: 0 <= i < |steps| ==> Orderly(states[i], steps[i])
    ensures states[n].handlings <= |states[n].done| + states[n].crashes
    ensures forall p: nat, o: nat :: (p, o) in states[n].done ==> Exists(t, p, o) && Parseable(t, p, o)
  {
    RunTidy(t, states, steps, n);
  }

  /** And what a consumer would read again after a crash is, on all its partitions together, at most
      the one message it has under way, besides messages that cannot be parsed and messages that a
      restart skipped. */
  lemma OneMessageAtStake(t: Topic, states: seq<State>, steps: seq<Step>, n: nat, c: nat, p: nat, o: nat)
    requires Run(t, states, steps) && Init(t, states[0]) && n < |states|
    requires forall i :: 0 <= i < |steps| ==> Orderly(states[i], steps[i])
    requires c < |states[n].consumers| && p in states[n].consumers[c].positions && p < |states[n].committed|
    requires states[n].committed[p] <= o < states[n].consumers[c].positions[p]
    ensures (Exists(t, p, o) && !Parseable(t, p, o)) || UnderWay(states[n].consumers[c], p, o)
            || (p, o) in states[n].skipped
    ensures (p, o) in states[n].skipped ==> exists i :: 0 <= i < n && steps[i].Restart?
  {
    RunTidy(t, states, steps, n);
    RunSafe(t, states, steps, n);
    assert Behind(t, states[n], states[n].consumers[c]) && BehindAt(t, states[n], states[n].consumers[c], p);
    assert Explained(t, states[n], states[n].consumers[c], p, o);
  }
}
