/** The poll loop of `KafkaConsumer::start`, for one consumer whose polls and callback outcomes are
    given, as a run of `ConsumerProtocol`. */
module KafkaConsumer {
  import opened Wire
  import opened Messages
  import opened MessageObjects
  import opened ConsumerProtocol
  import FraudSchemas

  /** What becomes of a message that parses: the callback throws, or returns and the commit succeeds or
      does not. */
  datatype Outcome = Throws | Returns(commits: bool)

  /** What one iteration meets: a poll that times out, a message of a partition, or a call of `stop` from
      elsewhere before the loop tests its flag. */
  datatype Event = Timeout | Delivery(p: nat, outcome: Outcome) | StopRequest

  /** The parser of the loop: `ParseFromArray` into a fresh transaction. */
  function TopicOf(logs: seq<seq<Bytes>>): Topic {
    var schema := FraudSchemas.TRANSACTION;
    Topic(logs, (payload: Bytes) => Parse(schema, Empty(schema), payload).Some?)
  }

  /** One consumer, between two iterations. */
  predicate Between(t: Topic, s: State) {
    && |s.committed| == |t.logs|
    && |s.consumers| == 1
    && s.consumers[0].inflight == Nothing
  }

  /** What `start` finds: a consumer that was left by an exception goes on where it stands. */
  ghost function Started(t: Topic, s: State): State
    requires |s.consumers| == 1
  {
    if s.consumers[0].inflight.Thrown? then Next(t, s, Restart(0)) else s
  }

  /** The protocol steps of one iteration: poll, and for a message that parses handle and commit. */
  ghost function Deliver(t: Topic, s: State, p: nat, outcome: Outcome): State
    requires Between(t, s)
  {
    if !Enabled(t, s, Poll(0, p)) then s
    else
      var polled := Next(t, s, Poll(0, p));
      if polled.consumers[0].inflight == Nothing then polled
      else match outcome
           case Throws => Next(t, polled, Throw(0))
           case Returns(commits) => Next(t, Next(t, polled, Handle(0)), Commit(0, commits))
  }

  /** Whether an iteration ends in an exception of the callback. */
  predicate Raises(t: Topic, s: State, p: nat, outcome: Outcome)
    requires |s.consumers| == 1
  {
    outcome == Throws && Enabled(t, s, Poll(0, p)) && Parseable(t, p, s.consumers[0].positions[p])
  }

  lemma DeliverBetween(t: Topic, s: State, p: nat, outcome: Outcome)
    requires Between(t, s) && !Raises(t, s, p, outcome)
    ensures Between(t, Deliver(t, s, p, outcome))
  {
    DeliverEffect(t, s, p, outcome);
  }

  /** The loop: one event after the other, until it is stopped or the callback throws. */
  ghost function DeliverAll(t: Topic, s: State, feed: seq<Event>): (r: (State, bool))
    requires Between(t, s)
    decreases |feed|
  {
    if feed == [] then (s, false)
    else match feed[0]
         case Timeout => DeliverAll(t, s, feed[1..])
         case StopRequest => (s, false)
         case Delivery(p, outcome) =>
           if Raises(t, s, p, outcome) then (Deliver(t, s, p, outcome), true)
           else
             DeliverBetween(t, s, p, outcome);
             DeliverAll(t, Deliver(t, s, p, outcome), feed[1..])
  }

  /** An iteration in the terms of the broker: a rejected message only moves the position, a handled
      one moves the position and, if the broker takes it, the commit; a callback that throws leaves the
      position behind the message. */
  function Delivered(t: Topic, s: State, p: nat, outcome: Outcome): State
    requires Between(t, s)
  {
    var k := s.consumers[0];
    if p !in k.positions || !Exists(t, p, k.positions[p]) then s
    else
      var o := k.positions[p];
      var moved := k.positions[p := o + 1];
      if !Parseable(t, p, o) then s.(consumers := [Consumer(moved, Nothing)])
      else match outcome
           case Throws => s.(consumers := [Consumer(moved, Thrown(p, o))])
           case Returns(commits) =>
             State(if commits then s.committed[p := o + 1] else s.committed, [Consumer(moved, Nothing)],
                   s.done + {(p, o)}, s.handlings + 1, s.crashes, s.lost - {(p, o)}, s.skipped)
  }

  /** The protocol steps of an iteration have that effect. */
  lemma DeliverEffect(t: Topic, s: State, p: nat, outcome: Outcome)
    requires Between(t, s)
    ensures Deliver(t, s, p, outcome) == Delivered(t, s, p, outcome)
  {
    var s' := Deliver(t, s, p, outcome);
    assert |s'.consumers| == 1 && s'.consumers == [s'.consumers[0]];
  }

  /** Every iteration keeps what makes the protocol safe and, as long as commits succeed, what makes it
      tidy. */
  lemma DeliverKeeps(t: Topic, s: State, p: nat, outcome: Outcome)
    requires Between(t, s) && Safe(t, s)
    ensures Safe(t, Deliver(t, s, p, outcome))
    ensures Tidy(t, s) && outcome != Returns(false) ==> Tidy(t, Deliver(t, s, p, outcome))
  {
    if Enabled(t, s, Poll(0, p)) {
      Keeps(t, s, Poll(0, p));
      var polled := Next(t, s, Poll(0, p));
      if polled.consumers[0].inflight != Nothing {
        match outcome
        case Throws => Keeps(t, polled, Throw(0));
        case Returns(commits) =>
          Keeps(t, polled, Handle(0));
          Keeps(t, Next(t, polled, Handle(0)), Commit(0, commits));
      }
    }
  }

  lemma Keeps(t: Topic, s: State, step: Step)
    requires Safe(t, s) && Enabled(t, s, step)
    ensures Safe(t, Next(t, s, step))
    ensures Tidy(t, s) && Orderly(s, step) ==> Tidy(t, Next(t, s, step))
  {
    StepSafe(t, s, step);
    if Tidy(t, s) && Orderly(s, step) { StepTidy(t, s, step); }
  }

  // ---------------------------------------------------------------------------------------------
  // What a run of the loop reads, in terms of its events
  // ---------------------------------------------------------------------------------------------

  /** How many of the first `n` events deliver a message of a partition. */
  function Deliveries(feed: seq<Event>, n: nat, p: nat): nat
    requires n <= |feed|
  {
    if n == 0 then 0
    else Deliveries(feed, n - 1, p) + if feed[n - 1].Delivery? && feed[n - 1].p == p then 1 else 0
  }

  /** Where a partition is read next after `count` deliveries: one offset further with each, up to the end
      of the log. */
  function ReadUpTo(t: Topic, from: nat, p: nat, count: nat): nat
    requires p < |t.logs|
  {
    if from + count <= |t.logs[p]| then from + count else |t.logs[p]|
  }

  /** A message that was read between two states of the consumer, and that the parser accepts. */
  predicate Accepted(t: Topic, s: State, s': State, p: nat, o: nat)
    requires |s.consumers| == |s'.consumers| == 1
  {
    && p in s.consumers[0].positions && p in s'.consumers[0].positions && Exists(t, p, o) && Parseable(t, p, o)
    && s.consumers[0].positions[p] <= o < s'.consumers[0].positions[p]
  }

  /** Each delivery of an assigned partition advances it by one message, and nothing else moves it. */
  ghost predicate Advanced(t: Topic, s: State, s': State, feed: seq<Event>, n: nat)
    requires |s.consumers| == |s'.consumers| == 1 && n <= |feed|
  {
    var before, after := s.consumers[0].positions, s'.consumers[0].positions;
    && after.Keys == before.Keys
    && forall p :: p in before && p < |t.logs| ==>
         before[p] <= |t.logs[p]| && after[p] == ReadUpTo(t, before[p], p, Deliveries(feed, n, p))
  }

  /** What was read and parses is handled, except the one message that threw, and nothing else is. */
  ghost predicate HandledRead(t: Topic, s: State, s': State)
    requires |s.consumers| == |s'.consumers| == 1
  {
    && (forall p: nat, o: nat :: Accepted(t, s, s', p, o) ==>
          (p, o) in s'.done || s'.consumers[0].inflight == Thrown(p, o))
    && s.done <= s'.done
    && forall p: nat, o: nat :: (p, o) in s'.done && (p, o) !in s.done ==> Accepted(t, s, s', p, o)
  }

  /** A delivery whose callback throws, at a message that parses, is the last, and there is no other way
      to be left by an exception. */
  ghost predicate ThrownRead(t: Topic, s: State, s': State, feed: seq<Event>, n: nat)
    requires |s.consumers| == |s'.consumers| == 1 && n <= |feed|
  {
    var before, left := s.consumers[0].positions, s'.consumers[0].inflight;
    && (left == Nothing || left.Thrown?)
    && (forall i, p, o: nat :: 0 <= i < n && feed[i] == Delivery(p, Throws)
          && p in before && Exists(t, p, o) && Parseable(t, p, o) && o == before[p] + Deliveries(feed, i, p)
          ==> i == n - 1 && left == Thrown(p, o))
    && (left.Thrown? ==>
          && 0 < n && feed[n - 1] == Delivery(left.p, Throws) && left.p in before
          && left.o == before[left.p] + Deliveries(feed, n - 1, left.p)
          && Exists(t, left.p, left.o) && Parseable(t, left.p, left.o))
  }

  /** The commit of a partition is one above the last of its messages that was handled, or where it was. */
  ghost predicate CommittedRead(t: Topic, s: State, s': State, p: nat)
    requires |s.consumers| == |s'.consumers| == 1 && p < |s.committed| == |s'.committed|
  {
    var left := s'.consumers[0].inflight;
    || (s'.committed[p] == s.committed[p]
        && forall o: nat :: Accepted(t, s, s', p, o) ==> left == Thrown(p, o))
    || (exists o: nat ::
          && Accepted(t, s, s', p, o) && left != Thrown(p, o) && s'.committed[p] == o + 1
          && forall x: nat :: o < x && Accepted(t, s, s', p, x) ==> left == Thrown(p, x))
  }

  ghost predicate CommitsSucceed(feed: seq<Event>, n: nat)
    requires n <= |feed|
  {
    forall i :: 0 <= i < n && feed[i].Delivery? ==> feed[i].outcome != Returns(false)
  }

  /** All of it, over the first `n` events. */
  ghost predicate HasRead(t: Topic, s: State, s': State, feed: seq<Event>, n: nat) {
    && |s.consumers| == |s'.consumers| == 1 && n <= |feed| && |s.committed| == |s'.committed| == |t.logs|
    && Advanced(t, s, s', feed, n)
    && HandledRead(t, s, s')
    && ThrownRead(t, s, s', feed, n)
    && (CommitsSucceed(feed, n) ==> forall p: nat :: p < |s.committed| ==> CommittedRead(t, s, s', p))
  }

  /** A consumer has not read past the end of a log. */
  lemma WithinLogs(t: Topic, s: State, p: nat)
    requires Safe(t, s) && Between(t, s) && p in s.consumers[0].positions && p < |t.logs|
    ensures s.consumers[0].positions[p] <= |t.logs[p]|
  {
    var n := s.consumers[0].positions[p];
    assert ConsumerOk(t, s, s.consumers[0]);
    assert SettledBelow(t, Accounted(s), p, Reached(s.consumers[0], p));
    if 0 < n {
      assert Settled(t, Accounted(s), p, n - 1);
    }
  }

  lemma NothingRead(t: Topic, s: State, feed: seq<Event>)
    requires Safe(t, s) && Between(t, s)
    ensures HasRead(t, s, s, feed, 0)
  {
    forall p | p in s.consumers[0].positions && p < |t.logs|
      ensures s.consumers[0].positions[p] <= |t.logs[p]|
    {
      WithinLogs(t, s, p);
    }
  }

  lemma PausedRead(t: Topic, s: State, mid: State, feed: seq<Event>, n: nat)
    requires n < |feed| && feed[n] == Timeout && HasRead(t, s, mid, feed, n)
    requires mid.consumers[0].inflight == Nothing
    ensures HasRead(t, s, mid, feed, n + 1)
  {
  }

  /** One delivery more. */
  lemma DeliveredRead(
      t: Topic, s: State, mid: State, feed: seq<Event>, n: nat, p: nat, outcome: Outcome, s': State)
    requires n < |feed| && feed[n] == Delivery(p, outcome) && HasRead(t, s, mid, feed, n) && Between(t, mid)
    requires s' == Delivered(t, mid, p, outcome)
    ensures HasRead(t, s, s', feed, n + 1)
  {
    AdvancedOne(t, s, mid, feed, n, p, outcome);
    HandledOne(t, s, mid, feed, n, p, outcome);
    ThrownOne(t, s, mid, feed, n, p, outcome);
    if CommitsSucceed(feed, n + 1) {
      assert CommitsSucceed(feed, n);
      forall q: nat | q < |s.committed| ensures CommittedRead(t, s, s', q) {
        CommittedOne(t, s, mid, feed, n, p, outcome, q);
      }
    }
  }

  lemma AdvancedOne(t: Topic, s: State, mid: State, feed: seq<Event>, n: nat, p: nat, outcome: Outcome)
    requires n < |feed| && feed[n] == Delivery(p, outcome) && HasRead(t, s, mid, feed, n) && Between(t, mid)
    ensures Advanced(t, s, Delivered(t, mid, p, outcome), feed, n + 1)
  {
  }

  lemma HandledOne(t: Topic, s: State, mid: State, feed: seq<Event>, n: nat, p: nat, outcome: Outcome)
    requires n < |feed| && feed[n] == Delivery(p, outcome) && HasRead(t, s, mid, feed, n) && Between(t, mid)
    ensures HandledRead(t, s, Delivered(t, mid, p, outcome))
  {
    var s' := Delivered(t, mid, p, outcome);
    forall q: nat, o: nat | Accepted(t, s, s', q, o)
      ensures (q, o) in s'.done || s'.consumers[0].inflight == Thrown(q, o)
    {
      if q != p || o != mid.consumers[0].positions[p] { assert Accepted(t, s, mid, q, o); }
    }
    forall q: nat, o: nat | (q, o) in s'.done && (q, o) !in s.done ensures Accepted(t, s, s', q, o) {
      if (q, o) in mid.done { assert Accepted(t, s, mid, q, o); }
    }
  }

  lemma ThrownOne(t: Topic, s: State, mid: State, feed: seq<Event>, n: nat, p: nat, outcome: Outcome)
    requires n < |feed| && feed[n] == Delivery(p, outcome) && HasRead(t, s, mid, feed, n) && Between(t, mid)
    ensures ThrownRead(t, s, Delivered(t, mid, p, outcome), feed, n + 1)
  {
    var s', before := Delivered(t, mid, p, outcome), s.consumers[0].positions;
    forall i, q, o: nat | 0 <= i < n + 1 && feed[i] == Delivery(q, Throws) && q in before && Exists(t, q, o)
        && Parseable(t, q, o) && o == before[q] + Deliveries(feed, i, q)
      ensures i == n && s'.consumers[0].inflight == Thrown(q, o)
    {
      if i == n { assert mid.consumers[0].positions[q] == ReadUpTo(t, before[q], q, Deliveries(feed, n, q)); }
    }
  }

  lemma CommittedOne(
      t: Topic, s: State, mid: State, feed: seq<Event>, n: nat, p: nat, outcome: Outcome, q: nat)
    requires n < |feed| && feed[n] == Delivery(p, outcome) && HasRead(t, s, mid, feed, n) && Between(t, mid)
    requires outcome != Returns(false) && q < |s.committed| && CommittedRead(t, s, mid, q)
    ensures CommittedRead(t, s, Delivered(t, mid, p, outcome), q)
  {
    var s' := Delivered(t, mid, p, outcome);
    if q != p || p !in mid.consumers[0].positions || !Exists(t, p, mid.consumers[0].positions[p])
      || !Parseable(t, p, mid.consumers[0].positions[p])
    {
      assert forall o: nat :: Accepted(t, s, s', q, o) <==> Accepted(t, s, mid, q, o);
    } else if outcome == Throws {
      var at := mid.consumers[0].positions[p];
      assert forall o: nat :: Accepted(t, s, s', q, o) <==> o == at || Accepted(t, s, mid, q, o);
    } else {
      assert Accepted(t, s, s', q, mid.consumers[0].positions[p]);
    }
  }

  function AfterEvent(t: Topic, s: State, event: Event): State
    requires Between(t, s)
  {
    if event.Delivery? then Delivered(t, s, event.p, event.outcome) else s
  }

  lemma EventRead(t: Topic, s: State, mid: State, feed: seq<Event>, n: nat, s': State)
    requires n < |feed| && feed[n] != StopRequest && HasRead(t, s, mid, feed, n) && Between(t, mid)
    requires s' == AfterEvent(t, mid, feed[n])
    ensures HasRead(t, s, s', feed, n + 1)
  {
    if feed[n].Delivery? { DeliveredRead(t, s, mid, feed, n, feed[n].p, feed[n].outcome, s'); }
    else { PausedRead(t, s, mid, feed, n); }
  }

  /** One event of the loop, and what is left of it. */
  lemma Unrolled(t: Topic, mid: State, feed: seq<Event>, n: nat)
    requires n < |feed| && Between(t, mid)
    ensures var all, next := DeliverAll(t, mid, feed[n..]), AfterEvent(t, mid, feed[n]);
            if feed[n] == StopRequest then all == (mid, false)
            else if Between(t, next) then all == DeliverAll(t, next, feed[n + 1..])
            else all == (next, true)
  {
    assert feed[n..][0] == feed[n] && feed[n..][1..] == feed[n + 1..];
    if feed[n].Delivery? {
      DeliverEffect(t, mid, feed[n].p, feed[n].outcome);
      if !Raises(t, mid, feed[n].p, feed[n].outcome) { DeliverBetween(t, mid, feed[n].p, feed[n].outcome); }
    }
  }

  /** The loop reads up to the first request to stop, or up to the callback that throws. */
  lemma {:induction false} ReadAll(t: Topic, s: State, mid: State, feed: seq<Event>, n: nat, last: (State, bool))
    returns (seen: nat)
    requires HasRead(t, s, mid, feed, n) && Between(t, mid) && forall i :: 0 <= i < n ==> feed[i] != StopRequest
    requires last == DeliverAll(t, mid, feed[n..])
    ensures seen <= |feed| && forall i :: 0 <= i < seen ==> feed[i] != StopRequest
    ensures last.1 || seen == |feed| || feed[seen] == StopRequest
    ensures HasRead(t, s, last.0, feed, seen)
    decreases |feed| - n
  {
    seen := n;
    if n < |feed| {
      Unrolled(t, mid, feed, n);
      if feed[n] != StopRequest {
        var next := AfterEvent(t, mid, feed[n]);
        EventRead(t, s, mid, feed, n, next);
        seen := n + 1;
        if Between(t, next) { seen := ReadAll(t, s, next, feed, n + 1, last); }
      }
    }
  }

  /** What was read does not depend on how an earlier call of `start` ended. */
  lemma SameStart(t: Topic, first: State, s: State, s': State, feed: seq<Event>, n: nat)
    requires HasRead(t, first, s', feed, n) && |s.consumers| == 1
    requires s.consumers[0].positions == first.consumers[0].positions
    requires s.done == first.done && s.committed == first.committed
    ensures HasRead(t, s, s', feed, n)
  {
    assert forall p: nat, o: nat :: Accepted(t, s, s', p, o) <==> Accepted(t, first, s', p, o);
    forall p: nat | p < |s.committed| && CommittedRead(t, first, s', p) ensures CommittedRead(t, s, s', p) {}
  }

  /** A whole call of `start`, which begins at `first` when it finds `s`. */
  lemma ReadSince(t: Topic, s: State, first: State, feed: seq<Event>, last: State, thrown: bool) returns (seen: nat)
    requires Safe(t, first) && Between(t, first) && (last, thrown) == DeliverAll(t, first, feed)
    requires |s.consumers| == 1 && s.consumers[0].positions == first.consumers[0].positions
    requires s.done == first.done && s.committed == first.committed
    ensures seen <= |feed| && forall i :: 0 <= i < seen ==> feed[i] != StopRequest
    ensures thrown || seen == |feed| || feed[seen] == StopRequest
    ensures HasRead(t, s, last, feed, seen)
  {
    NothingRead(t, first, feed);
    assert feed[0..] == feed;
    seen := ReadAll(t, first, first, feed, 0, (last, thrown));
    SameStart(t, first, s, last, feed, seen);
  }

  class SingleConsumer {
    const logs: seq<seq<Bytes>>
    var running: bool
    var committed: seq<nat>
    var positions: map<nat, nat>
    ghost var left: Inflight
    ghost var done: set<(nat, nat)>
    ghost var handlings: nat
    ghost var skipped: set<(nat, nat)>
    /** Every commit has succeeded so far. */
    ghost var orderly: bool

    ghost function Model(): State
      reads this
    {
      State(committed, [Consumer(positions, left)], done, handlings, 0, {}, skipped)
    }

    ghost predicate Valid()
      reads this
    {
      && |committed| == |logs|
      && (left == Nothing || left.Thrown?)
      && Safe(TopicOf(logs), Model())
      && (orderly ==> Tidy(TopicOf(logs), Model()))
    }

    constructor (logs: seq<seq<Bytes>>)
      ensures this.logs == logs && Valid() && orderly && left == Nothing
      ensures done == {} && skipped == {} && positions == map[]
    {
      this.logs := logs;
      running := false;
      committed := seq(|logs|, _ => 0);
      positions := map[];
      left, done, handlings, skipped, orderly := Nothing, {}, 0, {}, true;
    }

    /** The assignment branch of `rebalance_cb`: start at the committed offset. */
    method AssignPartition(p: nat)
      requires Valid() && left == Nothing && p < |logs| && p !in positions
      modifies this`positions
      ensures Valid() && positions == old(positions)[p := committed[p]]
    {
      Keeps(TopicOf(logs), Model(), Assign(0, p));
      ghost var after := Next(TopicOf(logs), Model(), Assign(0, p));
      positions := positions[p := committed[p]];
      assert after == Model();
    }

    /** `start`: runs until it is stopped, the feed of events ends, or the callback throws, in which
        case the exception leaves the loop with the position behind the message; a later call goes on
        from there and so skips it.  What is committed then was handled, could not be parsed, or was
        skipped.  While commits succeed, what was read and is not committed could not be parsed, threw or
        was skipped, and no message was handled twice. */
    method Start(feed: seq<Event>) returns (thrown: bool, ghost seen: nat)
      requires Valid()
      modifies this
      ensures Valid()
      ensures seen <= |feed| && (forall i :: 0 <= i < seen ==> feed[i] != StopRequest)
      ensures thrown || seen == |feed| || feed[seen] == StopRequest
      ensures HasRead(TopicOf(logs), old(Model()), Model(), feed, seen)
      ensures (Model(), thrown) == DeliverAll(TopicOf(logs), Started(TopicOf(logs), old(Model())), feed)
      ensures thrown <==> left.Thrown?
      ensures skipped == old(skipped) + if old(left).Thrown? then {(old(left).p, old(left).o)} else {}
      ensures forall p: nat, o: nat :: p < |committed| && o < committed[p] ==>
                Settled(TopicOf(logs), done, p, o) || (p, o) in skipped
      ensures old(orderly) && CommitsSucceed(feed, |feed|) ==> orderly
      ensures orderly ==>
                forall p: nat, o: nat :: p in positions && p < |committed| && committed[p] <= o < positions[p] ==>
                  (Exists(TopicOf(logs), p, o) && !Parseable(TopicOf(logs), p, o))
                  || left == Thrown(p, o) || (p, o) in skipped
      ensures orderly ==> handlings <= |done|
    {
      Resume();
      ghost var first := Model();
      thrown := Loop(feed);
      seen := ReadSince(TopicOf(logs), old(Model()), first, feed, Model(), thrown);
      CommittedAndRead();
    }

    method Loop(feed: seq<Event>) returns (thrown: bool)
      requires Valid() && left == Nothing
      modifies this`running
      modifies this`committed, this`positions, this`left, this`done, this`handlings, this`orderly
      ensures Valid() && (thrown <==> left.Thrown?)
      ensures (Model(), thrown) == DeliverAll(TopicOf(logs), old(Model()), feed)
      ensures old(orderly) && CommitsSucceed(feed, |feed|) ==> orderly
    {
      running := true;
      thrown := false;
      var i := 0;
      while running && !thrown && i < |feed|
        invariant Valid() && i <= |feed| && (thrown <==> left.Thrown?)
        invariant DeliverAll(TopicOf(logs), old(Model()), feed)
               == if running && !thrown then DeliverAll(TopicOf(logs), Model(), feed[i..]) else (Model(), thrown)
        invariant old(orderly) && CommitsSucceed(feed, |feed|) ==> orderly
        decreases |feed| - i
      {
        assert feed[i..][0] == feed[i] && feed[i..][1..] == feed[i + 1..];
        match feed[i] {
          case Timeout =>
          case StopRequest => running := false;
          case Delivery(p, outcome) => thrown := HandleDelivery(p, outcome);
        }
        i := i + 1;
      }
    }

    /** What a consumer that an exception left has skipped when it is started again. */
    ghost method Resume()
      requires Valid()
      modifies this`left, this`skipped
      ensures Valid() && left == Nothing
      ensures Model() == Started(TopicOf(logs), old(Model()))
    {
      if left.Thrown? {
        Keeps(TopicOf(logs), Model(), Restart(0));
        ghost var restarted := Next(TopicOf(logs), Model(), Restart(0));
        left, skipped := Nothing, skipped + {(left.p, left.o)};
        assert restarted == Model();
      }
    }

    lemma CommittedAndRead()
      requires Valid()
      ensures forall p: nat, o: nat :: p < |committed| && o < committed[p] ==>
                Settled(TopicOf(logs), done, p, o) || (p, o) in skipped
      ensures orderly ==>
                forall p: nat, o: nat :: p in positions && p < |committed| && committed[p] <= o < positions[p] ==>
                  (Exists(TopicOf(logs), p, o) && !Parseable(TopicOf(logs), p, o))
                  || left == Thrown(p, o) || (p, o) in skipped
    {
      forall p: nat, o: nat | p < |committed| && o < committed[p]
        ensures Settled(TopicOf(logs), done, p, o) || (p, o) in skipped
      {
        assert SettledBelow(TopicOf(logs), Accounted(Model()), p, committed[p]);
        assert Settled(TopicOf(logs), Accounted(Model()), p, o);
      }
      if orderly {
        assert Behind(TopicOf(logs), Model(), Model().consumers[0]);
        forall p: nat, o: nat | p in positions && p < |committed| && committed[p] <= o < positions[p]
          ensures (Exists(TopicOf(logs), p, o) && !Parseable(TopicOf(logs), p, o))
                  || left == Thrown(p, o) || (p, o) in skipped
        {
          assert BehindAt(TopicOf(logs), Model(), Model().consumers[0], p);
          assert Explained(TopicOf(logs), Model(), Model().consumers[0], p, o);
        }
      }
    }

    /** Parses a payload into a fresh transaction. */
    method Accepts(payload: Bytes) returns (ok: bool)
      ensures ok <==> TopicOf(logs).accepts(payload)
    {
      var tx := new MessageObject(FraudSchemas.TRANSACTION);
      ok := tx.ParseFromString(payload);
    }

    /** The body of the loop once a message arrived. */
    method HandleDelivery(p: nat, outcome: Outcome) returns (thrown: bool)
      requires Valid() && left == Nothing
      modifies this`committed, this`positions, this`left, this`done, this`handlings, this`orderly
      ensures Valid()
      ensures Model() == Deliver(TopicOf(logs), old(Model()), p, outcome)
      ensures thrown <==> Raises(TopicOf(logs), old(Model()), p, outcome)
      ensures thrown <==> left.Thrown?
      ensures old(orderly) && outcome != Returns(false) ==> orderly
    {
      DeliverKeeps(TopicOf(logs), Model(), p, outcome);
      DeliverEffect(TopicOf(logs), Model(), p, outcome);
      thrown := Dispatch(p, outcome);
    }

    method Dispatch(p: nat, outcome: Outcome) returns (thrown: bool)
      requires |committed| == |logs| && left == Nothing
      modifies this`committed, this`positions, this`left, this`done, this`handlings, this`orderly
      ensures Model() == Delivered(TopicOf(logs), old(Model()), p, outcome)
      ensures thrown <==> Raises(TopicOf(logs), old(Model()), p, outcome)
      ensures (thrown <==> left.Thrown?) && (left == Nothing || left.Thrown?)
      ensures orderly == (old(orderly) && outcome != Returns(false))
    {
      orderly := orderly && outcome != Returns(false);
      if p !in positions || p >= |logs| || positions[p] >= |logs[p]| { return false; }
      var parsed := Accepts(logs[p][positions[p]]);
      thrown := Conclude(TopicOf(logs), p, parsed, outcome);
    }

    /** The rest of the body: the callback and, when it returns, the commit. */
    method Conclude(ghost t: Topic, p: nat, parsed: bool, outcome: Outcome) returns (thrown: bool)
      requires |committed| == |t.logs| && left == Nothing
      requires p in positions && Exists(t, p, positions[p]) && (parsed <==> Parseable(t, p, positions[p]))
      modifies this`committed, this`positions, this`left, this`done, this`handlings
      ensures Model() == Delivered(t, old(Model()), p, outcome)
      ensures thrown <==> parsed && outcome == Throws
      ensures left == if thrown then Thrown(p, old(positions[p])) else Nothing
    {
      var o := positions[p];
      positions := positions[p := o + 1];
      if !parsed { return false; }
      if outcome == Throws {
        left := Thrown(p, o);
        return true;
      }
      done, handlings := done + {(p, o)}, handlings + 1;
      if outcome.commits { committed := committed[p := o + 1]; }
      return false;
    }
  }
}
