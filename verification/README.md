# Fraud scoring pipeline: a verified model

The pipeline consumes transactions from Kafka, enriches them with features from Redis, scores them
with a model server behind a circuit breaker (or with local rules when the breaker says no), and
routes each one to a clean topic or to a dead letter queue. This project models the stateful cores of
that program in Dafny and proves what they promise over every input, every interleaving and every
crash.

Code that updates fields in place is modelled as classes whose methods have the loops and branches of
the original (`ThreadPool.Pool`, `CircuitBreaker.CircuitBreaker`, `MessageObjects.MessageObject`,
`FeatureStore.Store` and `FeatureStore.Context`, `KafkaConsumer.SingleConsumer`,
`Pipeline.Processor`). Each method is proved against a function on values. Where several threads or
processes share state, a second module interleaves the indivisible steps (`PoolProtocol`,
`BreakerProtocol`, `ConnectionProtocol`, `ConsumerProtocol`), an invariant is proved for every step of
every thread, and the results speak of every state of every run, for any number of threads.

| component | files | main results |
|---|---|---|
| thread pool | `ThreadPool`, `PoolProtocol`, `PoolTheorems`, `PoolLiveness` | no lost wakeup; FIFO and bound; a pool that is not shut down does all its work, with everything its tasks enqueue, in finitely many steps; every accepted task finishes exactly once before the destructor returns; shutdown is finite and does not deadlock |
| circuit breaker | `CircuitBreaker`, `BreakerOutline`, `BreakerProtocol` | half open never wedges and ends within five steps of its caller; trips, reopenings, trials and closings balance; exactly which histories trip it, and for which it goes through the states of the outline; uninterrupted atomic steps are the methods |
| message codec | `Wire`, `WireFormat`, `Messages`, `FraudFormat`, `CodecTheorems`, `MergeTheorems`, `ParseTheorems`, `InputTheorems`, `SizeTheorems`, `MessageObjects`, `FraudSchemas` | parsing a serialization is merging, with nested messages and unknown fields; round trip; concatenation is merging; for arbitrary input exactly when parsing is merging; the size pass is exact and its caches are right; the bytes of the four messages, tag by tag |
| feature store | `Replies`, `FeatureStore`, `ConnectionProtocol` | each feature is the last readable value under its name; replies answer their own user after any failure; a batch is as many single lookups; connections are conserved; uninterrupted steps are the methods |
| consumer | `KafkaConsumer`, `ConsumerProtocol` | at least once over crashes and reassignments, and exactly when it survives starting a consumer again after its callback threw; bounded duplication, restarts included; what a run of the loop reads, handles and commits, event by event |
| rules and routing | `Csv`, `RuleEngine`, `Pipeline` | what each rule adds; what the degraded mode decides, end to end; substring search is membership; monotone scores |

`Common` holds sums and counts over sequences.

## Where code and documentation disagree

The model follows the code.

- A failure report counts twice (src/utils/circuit_breaker.h:66 and :75), and a success does not reset the
  count (src/utils/circuit_breaker.h:57-60). The outline (src/utils/circuit_breaker.cpp:13-19) and
  tests/test_circuit_breaker.cpp:29-52 count a failure once and let a success reset the count. Over any
  history of calls a new breaker trips at failure `threshold / 2 + 1` and not before, whatever requests and
  successes come in between (`CircuitBreaker.FailuresToOpen`); under concurrency it trips between that
  report and report `threshold` (`NeverTripsEarly`, `TripsInTime`). Once it has tripped and closed
  again, the very next failure trips it (`CircuitBreaker.NextFailureTripsAgain`).
- A failed trial reopens the breaker without a new opening time (src/utils/circuit_breaker.h:71-74),
  although the outline asks for one (src/utils/circuit_breaker.cpp:18), so the next request is measured
  against the old one (`CircuitBreaker.ReopeningDoesNotWait`).
- `BreakerOutline` is the outline as a machine. Over a history of calls the code goes through the same
  states if and only if two guards agree at every call (`BreakerOutline.OutlineMetIff`): at a failure that
  finds the outline closed, twice all failures so far plus one against those since the last success plus
  one; at a request that finds it open, the time since the last trip against the time since the last
  opening. The histories of the tests (`BreakerOutline.TestsNotMet`), and one failure after a first trip and
  its recovery (`BreakerOutline.RecoveryNotMet`), are histories where they do not.
- A callback that throws leaves `start` with the position behind its message
  (src/consumer/kafka_consumer.cpp:64). Starting the same consumer again skips that message, and the next
  commit on its partition covers it (`ConsumerProtocol.RestartLosesMessage`). At-least-once survives exactly
  while no commit passes a message that was skipped and not handled since
  (`ConsumerProtocol.PromiseKeptIff`).
- The project README says that poison messages go to the dead letter queue; the consumer skips them
  without a commit (src/consumer/kafka_consumer.cpp:61-62), which is what `ConsumerProtocol` does.

Parsing arbitrary bytes into a message is not always merging: an explicit zero on the wire overwrites a
field, and a merge leaves it alone. `FraudSchemas.ExplicitZeroOverwrites` is such an input, and
`InputTheorems.ParseIntoIsMergeIff` says for which inputs the two agree.

## Model

| member | source | states |
|---|---|---|
| ThreadPool.Pool.constructor | src/utils/thread_pool.cpp:16-30 | a new pool is empty and running, and zero threads become one |
| ThreadPool.Pool.Enqueue | src/utils/thread_pool.cpp:49-66 | accepted exactly when not shutting down and below the bound; accepted tasks go to the back, rejected ones change nothing; the order of acceptance is kept |
| ThreadPool.Pool.QueueSize | src/utils/thread_pool.cpp:68-71 | the backlog is what was accepted and not started, within the bound |
| ThreadPool.Pool.TakeOrExit | src/utils/thread_pool.cpp:82-95 | a worker exits exactly when the pool is shutting down and empty, otherwise it takes the oldest task |
| ThreadPool.Pool.BeginShutdown | src/utils/thread_pool.cpp:37-40 | the flag is set and nothing else changes |
| ThreadPool.Pool.WorkerLoop | src/utils/thread_pool.cpp:73-108 | the only worker runs what is queued in order, then what those tasks enqueued, until nothing is left; it exits under the flag and would wait otherwise; under the flag it runs exactly what was queued |
| ThreadPool.Pool.RunTask | src/utils/thread_pool.cpp:97-106 | the calls a task makes, all of them or up to where it throws, are decided in order, each by its own state of the pool |
| ThreadPool.AdmitNoneAfterShutdown | src/utils/thread_pool.cpp:53-57 | under the flag every call of a task is rejected, in order, and the queue stays as it was |
| ThreadPool.AdmitAllWeight | src/utils/thread_pool.cpp:59-62 | the queue never gains more work than the whole tree of tasks that a task enqueues |
| ThreadPool.AdmitKeepsFifo | src/utils/thread_pool.cpp:49-66 | admitting keeps accepted = started ++ queue and the bound |
| ThreadPool.TakeKeepsFifo | src/utils/thread_pool.cpp:93-94 | taking keeps accepted = started ++ queue and the bound |
| PoolProtocol.StepMutualExclusion | src/utils/thread_pool.cpp:49-95 | only the thread that holds the mutex stands in a critical section |
| PoolProtocol.StepWakeupsCovered | src/utils/thread_pool.cpp:62-95 | each step keeps every queued task covered by a notification on its way or a woken worker, though `notify_one` comes after the unlock |
| PoolProtocol.StepShutdownPhase | src/utils/thread_pool.cpp:32-47 | each step keeps the order of flag, notification and joins, and what exited and sleeping workers say about the queue |
| PoolProtocol.StepConserved | src/utils/thread_pool.cpp:49-108 | each call is pending, accepted or rejected, and each start running or finished, with multiplicity |
| PoolProtocol.RunInv | src/utils/thread_pool.cpp:16-108 | the whole invariant holds in every state of every run of any number of workers and clients |
| PoolTheorems.FifoOverRuns | src/utils/thread_pool.cpp:49-107 | tasks start in order of acceptance, the bound holds, no worker leaves before shutdown even when tasks throw, nobody takes from an empty queue |
| PoolTheorems.NoLostWakeup | src/utils/thread_pool.cpp:64-85 | while a worker sleeps before shutdown, the backlog is at most the pending notifications plus the notified workers |
| PoolTheorems.NobodySleepsThroughShutdown | src/utils/thread_pool.cpp:37-45 | under the flag a sleeping worker means that `notify_all` is still to come, and nobody falls asleep any more |
| PoolTheorems.LateCallsAreRejected | src/utils/thread_pool.cpp:53-57 | once the flag is set no call is accepted, from a client or from a task |
| PoolTheorems.OneFate | src/utils/thread_pool.cpp:49-66 | a call is accepted once, rejected once, or undecided |
| PoolTheorems.RejectedNeverRuns | src/utils/thread_pool.cpp:57-60 | a rejected task is never queued, started, running or finished |
| PoolTheorems.DrainedWhenDestroyed | src/utils/thread_pool.cpp:87-106 | when the destructor returned, the queue is empty, started = accepted, and every accepted task has finished exactly once |
| PoolTheorems.MeasureDecreases | src/utils/thread_pool.cpp:73-107 | under the flag every step of every thread lowers the measure, apart from further calls of clients |
| PoolTheorems.ShutdownIsBounded | src/utils/thread_pool.cpp:43-45 | a run after shutdown is no longer than its first measure plus three steps for each further client call |
| PoolTheorems.Progress | src/utils/thread_pool.cpp:41-95 | while a task is queued or the destructor waits, some thread can move: no stranded task, no deadlocked join |
| PoolTheorems.ShutdownCompletes | src/utils/thread_pool.cpp:32-47 | without further client calls a run after shutdown is finite and can only end with the destructor's return |
| PoolLiveness.StepWork | src/utils/thread_pool.cpp:49-107 | while the flag is unset every step of every thread lowers the outstanding work, apart from calls of clients and spurious wakeups |
| PoolLiveness.RestIsIdle | src/utils/thread_pool.cpp:82-107 | a pool that is not shutting down comes to rest only with an empty queue, every accepted task finished once and every worker waiting |
| PoolLiveness.AllWorkGetsDone | src/utils/thread_pool.cpp:49-107 | a run with the flag unset is no longer than the work it starts with and gets from clients and spurious wakeups, and can only end at such a rest |
| CircuitBreaker.CircuitBreaker.constructor | src/utils/circuit_breaker.h:81-87 | a new breaker is closed with no failures |
| CircuitBreaker.CircuitBreaker.CompareExchange | src/utils/circuit_breaker.h:48 | swaps exactly when the expected state is there |
| CircuitBreaker.CircuitBreaker.AllowRequest | src/utils/circuit_breaker.h:38-53 | a closed breaker admits, a half open one does not, and an open one does exactly after the recovery time, which makes it half open |
| CircuitBreaker.CircuitBreaker.RecordSuccess | src/utils/circuit_breaker.h:57-60 | closes a half open breaker and changes nothing else |
| CircuitBreaker.CircuitBreaker.RecordFailure | src/utils/circuit_breaker.h:65-76 | counts twice with wrap-around, trips at the threshold and stamps the time, reopens without a stamp |
| CircuitBreaker.TripTimeStands | src/utils/circuit_breaker.h:67-74 | until the breaker closes again, the opening time is that of the trip, whatever fails meanwhile |
| CircuitBreaker.AdmissionsAfterTrip | src/utils/circuit_breaker.h:45-52 | from a trip until the breaker closes again, a request is admitted if and only if it finds it open at trip time plus recovery or later, and is the trial that makes it half open |
| CircuitBreaker.QuietAfterTrip | src/utils/circuit_breaker.h:45-52 | with a monotone clock nothing is admitted between a trip and trip time plus recovery |
| CircuitBreaker.FailuresToOpen | src/utils/circuit_breaker.h:38-76 | over any history of calls, a new breaker has tripped if and only if at least threshold / 2 + 1 failures were reported, and is closed before |
| CircuitBreaker.CountIsDoubled | src/utils/circuit_breaker.h:65-76 | over any history the count is twice the failures reported, wrapped around to 32 bits |
| CircuitBreaker.NextFailureTripsAgain | src/utils/circuit_breaker.h:57-76 | a breaker that tripped before and closed again is tripped by the very next failure |
| BreakerOutline.OutlineMetIff | src/utils/circuit_breaker.cpp:6-19 | over any history the code is in the outline's state after every call if and only if at each failure that finds the outline closed, and each request that finds it open, the code's guard and the outline's agree |
| BreakerOutline.StepAgrees | src/utils/circuit_breaker.h:38-76 | from a common state, code and outline are in a common state after the next call if and only if its guards agree |
| BreakerOutline.OutlineStamps | src/utils/circuit_breaker.cpp:17-19 | every opening of the outline records its time, after a failed trial too |
| BreakerOutline.NeverTripsLate | src/utils/circuit_breaker.cpp:17-19 | by the time the outline has opened, the code has tripped |
| BreakerOutline.TestsNotMet | tests/test_circuit_breaker.cpp:29-52 | the histories of two tests end with an open breaker where the outline, and the test, has a closed one |
| BreakerOutline.RecoveryNotMet | src/utils/circuit_breaker.cpp:13-15 | code and outline agree through a trip, a trial and its success, and one failure later the code is open and the outline closed |
| CircuitBreaker.ReopeningDoesNotWait | src/utils/circuit_breaker.h:71-74 | over any history that does not close the breaker, with any number of failed trials, a request is admitted if and only if it finds it open at the recovery time after the first opening, or later |
| BreakerProtocol.StepInv | src/utils/circuit_breaker.h:38-76 | each atomic step of each caller keeps the books, the counters and the trial's owner |
| BreakerProtocol.RunInv | src/utils/circuit_breaker.h:38-76 | the invariant holds in every state of every interleaving of the message handlers |
| BreakerProtocol.HalfOpenNeverWedges | src/main.cpp:71-77 | half open implies that exactly one caller opened this epoch and is in its call or before a swap that leaves it |
| BreakerProtocol.QuiescentIsNotHalfOpen | src/main.cpp:71-77 | with no admitted request under way the breaker is closed or open |
| BreakerProtocol.TrialMakesProgress | src/utils/circuit_breaker.h:57-76 | each step of the trial's caller brings the end of the half open state nearer, and nobody delays it |
| BreakerProtocol.TrialEnds | src/utils/circuit_breaker.h:57-76 | in a stretch of a run that stays half open, the trial's caller takes fewer than five steps |
| BreakerProtocol.FlowOverRuns | src/utils/circuit_breaker.h:38-76 | trips + reopenings = half open entries + [open], entries = closings + reopenings + [half open] |
| BreakerProtocol.OneTrialEach | src/utils/circuit_breaker.h:45-50 | callers admitted after they found the breaker open are as many as half open entries, and nobody else is admitted by a breaker that is not closed |
| BreakerProtocol.NeverTripsEarly | src/utils/circuit_breaker.h:66-69 | the breaker has not opened before threshold / 2 + 1 reports have begun |
| BreakerProtocol.TripsInTime | src/utils/circuit_breaker.h:57-76 | once threshold reports have completed it has opened, whatever successes came in between |
| BreakerProtocol.AllowAlone | src/utils/circuit_breaker.h:38-53 | uninterrupted, the atomic steps of `allow_request` are the method |
| BreakerProtocol.FailureAlone | src/utils/circuit_breaker.h:65-76 | uninterrupted, the atomic steps of `record_failure` are the method |
| BreakerProtocol.SuccessAlone | src/utils/circuit_breaker.h:57-60 | uninterrupted, the atomic step of `record_success` is the method |
| Wire.VarintRoundTrip | generated/fraud.pb.cc:487-494 | a varint within the byte limit reads back, and leaves the rest |
| Wire.VarintSizeExact | generated/fraud.pb.cc:747-750 | the computed size of a varint is its length |
| Wire.SignedRoundTrip | generated/fraud.pb.cc:623-627 | 64-bit and 32-bit signed integers survive their 64-bit unsigned form |
| Wire.FixedRoundTrip | generated/fraud.pb.cc:593-601 | little-endian words of any width read back |
| Wire.RecordRoundTrip | generated/fraud.pb.cc:1369-1395 | a length-delimited record below 2 GiB reads back, and leaves the rest |
| WireFormat.VarintSpells | generated/fraud.pb.cc:487-494 | a varint within the limit is read as the number its groups of seven bits spell, least significant first |
| WireFormat.VarintFails | generated/fraud.pb.cc:487-494 | input in which no varint ends within the limit is malformed |
| WireFormat.VarintWritten | generated/fraud.pb.cc:623-627 | a number is written as the varint that spells it, with no group too many |
| WireFormat.FixedSpells | generated/fraud.pb.cc:458-466 | a fixed word is read as the number its bytes spell, least significant first |
| WireFormat.FixedWritten | generated/fraud.pb.cc:593-601 | a word is written as the bytes that spell it |
| WireFormat.RecordReads | generated/fraud.pb.cc:1330-1345 | a length and that many bytes are read as those bytes |
| WireFormat.RecordFails | generated/fraud.pb.cc:1330-1345 | a length that announces more than there is, or 2 GiB, is malformed |
| WireFormat.ValidIffText | generated/fraud.pb.cc:423-555 | the test on strings accepts exactly the encodings of sequences of characters (section 3 of RFC 3629) |
| FraudFormat.Tables | generated/fraud.pb.cc:423-1652 | the literal tag of every field of the four messages and what may follow it |
| FraudFormat.StartsEmpty | generated/fraud.pb.cc:326-347 | a field that was never set is empty, zero or missing |
| FraudFormat.TransactionReads | generated/fraud.pb.cc:423-555 | each literal tag with a payload sets that one field of a transaction to what the payload spells |
| FraudFormat.UserFeaturesReads | generated/fraud.pb.cc:967-1044 | the same for the features |
| FraudFormat.ScoreRequestReads | generated/fraud.pb.cc:1324-1367 | tags 10 and 18 with a record parse it into the transaction and into the features that are there |
| FraudFormat.ScoreResponseReads | generated/fraud.pb.cc:1559-1612 | the same as for a transaction, for the response |
| FraudFormat.BadTagFails | generated/fraud.pb.cc:537-548 | field number zero and the wire types 4, 6 and 7 are malformed |
| FraudFormat.NoTagFails | generated/fraud.pb.cc:426-428 | input in which no tag ends is malformed |
| FraudFormat.BadTextFails | generated/fraud.pb.cc:430-437 | a string field whose bytes are not UTF-8 is malformed |
| FraudFormat.FieldWritten | generated/fraud.pb.cc:557-672 | a field that is not zero is written as its literal tag and a payload that spells it, a zero field not at all |
| FraudFormat.WrittenWhole | generated/fraud.pb.cc:557-672 | the fields are written in the order of the table, then the unknown ones |
| FraudFormat.UserIdOnWire | src/main.cpp:69 | the user id that is looked up is the text after tag 18 |
| FraudFormat.CountryOnWire | src/scoring/rule_engine.cpp:37 | the country of the rules is the text after tag 50 |
| FraudFormat.TimestampOnWire | src/scoring/rule_engine.cpp:46-47 | the time of the rules is the signed number after tag 56 |
| FraudFormat.AmountOnWire | src/scoring/rule_engine.cpp:22 | the amount of the rules is what the eight bytes after tag 33 denote |
| CodecTheorems.PayloadRoundTrip | generated/fraud.pb.cc:1324-1395 | reading a written payload merges the value into the one that is there, nested messages included |
| CodecTheorems.FieldRoundTrip | generated/fraud.pb.cc:423-570 | reading a written field merges that field and nothing else; a zero field is not written |
| CodecTheorems.UnknownRoundTrip | generated/fraud.pb.cc:537-672 | unknown fields are read back as they were, in order, behind those already there |
| CodecTheorems.ParseOfSerialized | generated/fraud.pb.cc:423-814 | with more input behind a serialization, parsing goes on from the merge |
| MergeTheorems.MergeTyped | generated/fraud.pb.cc:768-814 | merging keeps messages well-typed, with valid strings |
| MergeTheorems.MergeIntoEmpty | generated/fraud.pb.cc:816-821 | clearing and merging is copying |
| MergeTheorems.MergeAssociative | generated/fraud.pb.cc:1429-1446 | merging is associative, through missing and present nested messages |
| MergeTheorems.ParseIntoIsMerge | generated/fraud.pb.cc:423-814 | parsing the serialization of b into a yields a merged with b |
| MergeTheorems.RoundTrip | generated/fraud.pb.cc:423-672 | parsing after serializing is the identity |
| MergeTheorems.SerializeInjective | generated/fraud.pb.cc:557-672 | different messages have different serializations |
| MergeTheorems.ConcatenationIsMerge | generated/fraud.pb.cc:423-814 | the concatenation of two serializations parses as their merge |
| ParseTheorems.ParseKeepsTyped | generated/fraud.pb.cc:423-555 | whatever the parser accepts has values of its C++ types, valid UTF-8, and only undeclared tags among the unknown fields |
| ParseTheorems.ReparseIsIdentity | src/main.cpp:72-79 | a consumed message, serialized and parsed again, is the same message |
| InputTheorems.ParseGoesOn | generated/fraud.pb.cc:1324-1367 | input that parses may be followed by more, and parsing goes on from the message it made |
| InputTheorems.ParsesIffWellFormed | generated/fraud.pb.cc:423-555 | whether input parses does not depend on the message it is parsed into |
| InputTheorems.ScalarAfter | generated/fraud.pb.cc:967-1044 | a scalar field holds the last value the input gives it, or what it held |
| InputTheorems.NestedAfter | generated/fraud.pb.cc:1324-1367 | a nested message is what all its bodies, as one input, make of the one that was there |
| InputTheorems.ParseIntoIsMergeIff | generated/fraud.pb.cc:423-814 | for any input, parsing into a message is merging if and only if no field the input leaves at zero was set, at any depth |
| SizeTheorems.SizeIsExact | generated/fraud.pb.cc:674-759 | the size pass, which visits fields in another order, counts the bytes the serializer writes |
| SizeTheorems.CachedSizesAreRight | generated/fraud.pb.cc:1369-1420 | after the size pass, a serializer that trusts the cached sizes writes the true length prefixes |
| FraudSchemas.FraudMessages | generated/fraud.pb.cc:403-1722 | all of this for the four messages: parse is merge, round trip, concatenation, exact size, right caches |
| FraudSchemas.FraudSchemaOk | generated/fraud.pb.cc:423-1702 | in all four messages tags take one byte and are distinct, and the size pass visits each field once |
| FraudSchemas.ExplicitZeroOverwrites | generated/fraud.pb.cc:967-980 | an explicit zero on the wire clears a field that a merge would keep |
| FraudSchemas.NegativeTakesTenBytes | generated/fraud.pb.cc:1046-1058 | negative integers and enumerators take ten bytes |
| MessageObjects.MessageObject.constructor | generated/fraud.pb.cc:326-347 | a new message is empty |
| MessageObjects.MessageObject.Clear | generated/fraud.pb.cc:403-421 | every field is zero and no unknown field is left |
| MessageObjects.MessageObject.InternalParse | generated/fraud.pb.cc:423-555 | the parse loop returns what the parser on values says, for every input, and on success leaves what it says |
| MessageObjects.MessageObject.ParseField | generated/fraud.pb.cc:1330-1345 | one case of the loop replaces a scalar, or creates a missing nested message and parses into it |
| MessageObjects.MessageObject.ParseFromString | src/scoring/rule_engine.cpp:11-15 | what was there before is gone, also for input without any field |
| MessageObjects.MessageObject.ByteSizeLong | generated/fraud.pb.cc:1397-1420 | the total is the serialized size, and every cache on the way holds its message's size |
| MessageObjects.MessageObject.InternalSerialize | generated/fraud.pb.cc:1369-1395 | what is written takes each nested length from the cache, right or wrong |
| MessageObjects.MessageObject.SerializeAsString | src/main.cpp:72-79 | size pass and serializer together write the serialization |
| MessageObjects.MessageObject.MergeFrom | generated/fraud.pb.cc:768-814 | the loop over the fields in its own order yields the merge, and leaves its source alone |
| MessageObjects.MessageObject.CopyFrom | generated/fraud.pb.cc:816-821 | the target becomes equal to the source, also when they are the same object |
| FeatureStore.Store.constructor | src/enrichment/redis_feature_store.cpp:26-39 | the pool holds as many fresh, distinct, clean connections as asked for |
| FeatureStore.Store.AcquireConnection | src/enrichment/redis_feature_store.cpp:49-55 | hands out the last pooled connection, clean and no longer pooled, or none when there is none |
| FeatureStore.Store.ReleaseConnection | src/enrichment/redis_feature_store.cpp:57-60 | puts back a clean connection behind the others |
| FeatureStore.Store.ParseReply | src/enrichment/redis_feature_store.cpp:66-84 | each of the five features is what the last pair under its name, byte by byte, reads as, or its initial value; pairs under other names leave it alone |
| FeatureStore.Store.GetFeatures | src/enrichment/redis_feature_store.cpp:90-117 | the features read from the stored record; a bare miss when there is none or the pool is empty; when the connection breaks the call throws and the pool has lost that connection |
| FeatureStore.Store.GetFeaturesPipelined | src/enrichment/redis_feature_store.cpp:123-159 | one result for each user, equal to a single lookup up to the failure and misses from there on; a broken connection does not go back |
| FeatureStore.Store.MissFrom | src/enrichment/redis_feature_store.cpp:141-143 | the results from the failure on are misses, those before it stay |
| Replies.MissIsDefaults | src/enrichment/redis_feature_store.cpp:94-116 | a miss carries only zeros and empty text, and a user is a miss exactly when the reply is not a nonempty array |
| Replies.FieldsRead | src/enrichment/redis_feature_store.cpp:66-84 | applying the pairs in order leaves in each feature the last value under its name that reads |
| Replies.LookupIsAnswer | src/enrichment/redis_feature_store.cpp:108-116 | a lookup reads the fields of a nonempty array into a fresh struct, and returns the bare miss for any other reply |
| Replies.DecimalReadsBack | src/enrichment/redis_feature_store.cpp:72-79 | an integer is read back from its decimal text, negative ones included, exactly when it is in the range of its type |
| Replies.NoDigitNoNumber | src/enrichment/redis_feature_store.cpp:72-79 | text that does not begin with a digit, or a minus sign and a digit, is not read |
| ConnectionProtocol.StepInv | src/enrichment/redis_feature_store.cpp:11-20 | each step keeps every context in one place and every thread's replies its own |
| ConnectionProtocol.RunInv | src/enrichment/redis_feature_store.cpp:90-159 | the same in every state of every run of any number of threads |
| ConnectionProtocol.RepliesAnswerTheirUsers | src/enrichment/redis_feature_store.cpp:90-159 | pooled connections have no unread reply, and the k-th result is the record of the k-th user or, from the failure on, a miss, whatever failed before |
| ConnectionProtocol.ConnectionsConserved | src/enrichment/redis_feature_store.cpp:11-20 | pooled + held + discarded is the initial number of connections |
| ConnectionProtocol.EachInOnePlace | src/enrichment/redis_feature_store.cpp:11-20 | each connection is pooled, held by one guard, or discarded, exactly one of them |
| ConnectionProtocol.LookupAlone | src/enrichment/redis_feature_store.cpp:90-159 | uninterrupted, the steps of one lookup give the results, the exception and the pool of the method |
| ConsumerProtocol.StepSafe | src/consumer/kafka_consumer.cpp:48-95 | each poll, callback, commit, restart, rebalance or crash keeps everything below a commit handled, rejected or skipped |
| ConsumerProtocol.AtLeastOnce | src/consumer/kafka_consumer.cpp:48-68 | over any run with crashes, reassignments, failed commits and throwing callbacks, each offset below the committed one was handled or cannot be parsed, or was skipped by a restart after a throw |
| ConsumerProtocol.StepPromised | src/consumer/kafka_consumer.cpp:64-66 | a step breaks the at-least-once promise if and only if it commits past a message that was skipped and not handled since |
| ConsumerProtocol.PromiseKeptIff | src/consumer/kafka_consumer.cpp:48-68 | a run keeps the promise in all its states if and only if no step of it commits past such a message |
| ConsumerProtocol.RestartLosesMessage | src/consumer/kafka_consumer.cpp:64-66 | from wherever two parseable messages follow one another, a throw, a restart and one commit lose the first |
| ConsumerProtocol.RepeatIffLost | src/consumer/kafka_consumer.cpp:64-66 | a message about to be handled was handled before exactly when its commit was lost in a crash |
| ConsumerProtocol.StepTidy | src/consumer/kafka_consumer.cpp:50-95 | with exclusive assignment and successful commits, each step, also a restart after a throw, keeps at most one message under way and pays for each repetition with a crash |
| ConsumerProtocol.BoundedDuplication | src/consumer/kafka_consumer.cpp:50-67 | then, over any run with crashes, throws and restarts, the callback returns at most once for each message and once more for each crash |
| ConsumerProtocol.OneMessageAtStake | src/consumer/kafka_consumer.cpp:50-67 | then all offsets between commit and position are unparseable, skipped by a restart, or the one message under way over all partitions |
| KafkaConsumer.DeliverEffect | src/consumer/kafka_consumer.cpp:51-66 | the poll, callback and commit of one iteration move the position and the commit, or only the position, or leave the loop |
| KafkaConsumer.DeliverKeeps | src/consumer/kafka_consumer.cpp:51-66 | one iteration keeps the safety invariant, and the duplication invariant when its commit succeeds |
| KafkaConsumer.SingleConsumer.AssignPartition | src/consumer/kafka_consumer.cpp:79-82 | reading starts at the committed offset |
| KafkaConsumer.SingleConsumer.Accepts | src/consumer/kafka_consumer.cpp:60-62 | a payload is accepted exactly when it parses into a fresh transaction |
| KafkaConsumer.SingleConsumer.HandleDelivery | src/consumer/kafka_consumer.cpp:51-66 | the body of the loop is one poll, handle and commit of the protocol |
| KafkaConsumer.ReadAll | src/consumer/kafka_consumer.cpp:50-67 | a poll that times out changes nothing and does not end the loop; only a stop or a throw does |
| KafkaConsumer.SingleConsumer.Start | src/consumer/kafka_consumer.cpp:48-68 | up to the first stop or throw, each delivery advances its partition by one message up to the end of the log; exactly the parseable ones passed are handled, but for the one that threw; if no commit failed, each commit is one above the last message handled, or where it was; called any number of times, also after a throw, what is committed was handled, rejected or skipped by that call, and while commits succeed nothing is handled twice |
| Csv.Search | src/scoring/rule_engine.cpp:39 | the first occurrence, or none |
| Csv.SplitJoin | ml_server/server.py:109 | splitting a joined list of comma-free texts gives the list back |
| Csv.CountIsLength | ml_server/server.py:109 | the count in the feature vector is the number of codes, zero for none |
| Csv.CountCountsCommas | ml_server/server.py:109 | the count is one more than the number of commas in a nonempty text |
| Csv.OccursIffListed | src/scoring/rule_engine.cpp:37-42 | a two-letter code is a substring of the joined codes if and only if it is one of them |
| RuleEngine.Score | src/scoring/rule_engine.cpp:10-60 | a transaction that does not parse scores 0.9, any other the capped sum of its penalties; the score is in [0, 1] |
| RuleEngine.Rules | src/scoring/rule_engine.cpp:17-57 | the total is the sum of five penalties, each under its condition on amounts, texts and times |
| RuleEngine.RatioRuleAdds | src/scoring/rule_engine.cpp:22-30 | everything else equal, a ratio above 5 adds 0.3, one in (2, 5] adds 0.1, any other nothing |
| RuleEngine.AmountRuleAdds | src/scoring/rule_engine.cpp:31-33 | an amount above 5000 adds 0.2, any other nothing |
| RuleEngine.CountryRuleAdds | src/scoring/rule_engine.cpp:37-42 | a country that stands nowhere in a known history adds 0.25, any other nothing |
| RuleEngine.VelocityRuleAdds | src/scoring/rule_engine.cpp:46-51 | two known times in order and less than 60000 apart add 0.15, any others nothing |
| RuleEngine.MissRuleAdds | src/scoring/rule_engine.cpp:55-57 | a miss adds 0.15 |
| RuleEngine.NothingElseAdds | src/scoring/rule_engine.cpp:17-57 | the score is the sum of what the five rules add, and zero without them |
| RuleEngine.ScoreBounds | src/scoring/rule_engine.cpp:17-59 | at most 0.35 on a miss and 0.9 on a hit, so that the cap at 1 is never reached |
| RuleEngine.ExceedsIffAllFour | src/scoring/rule_engine.cpp:17-59 | a threshold in [0.75, 0.9) is exceeded if and only if all four strong rules apply |
| RuleEngine.ThresholdRangeIsSharp | src/scoring/rule_engine.cpp:17-59 | from 0.9 on nothing exceeds the threshold, and below 0.75 three rules can |
| RuleEngine.MonotoneInAmount | src/scoring/rule_engine.cpp:19-33 | a larger amount never lowers the score |
| RuleEngine.CountryRuleIsMembership | src/scoring/rule_engine.cpp:37-42 | for joined two-letter codes the country rule fires exactly when there are codes and the country is not among them |
| Pipeline.Processor.Process | src/main.cpp:68-81 | the whole outcome of a message: it raises exactly when the lookup does, otherwise the breaker moves as it should and the message is a dead letter exactly when the score exceeds the threshold |
| Pipeline.Processor.HandleConsumed | src/main.cpp:68-81 | end to end from the consumed bytes: in degraded mode, for a threshold in [0.75, 0.9), a message that does not raise is a dead letter if and only if all four rules apply to it and to what the store holds, a miss never is, and the payload parses to the consumed transaction |
| Pipeline.Processor.Route | src/main.cpp:78-79 | the payload is the transaction's serialization, and it goes to the dead letters exactly above the threshold |
| Pipeline.Processor.Decide | src/main.cpp:70-77 | the model's answer counts when the breaker admits and the call succeeds, and leaves it closed; a failed trial leaves it open with its old time, a failure of a closed one counts twice and may trip it; a call that is not admitted leaves it alone; no call leaves it half open that did not find it so |
| Pipeline.DecideIsTheHandler | src/main.cpp:71-77 | the breaker protocol of the lambda is the interleaved handler, run from its first load back to idle by one caller alone |
| Pipeline.RuleScoreOfConsumed | src/main.cpp:73-76 | the rules see the same transaction in the re-serialized payload as in the consumed one |
| Pipeline.DegradedDecision | src/scoring/rule_engine.cpp:10-60 | the rule score of a consumed and re-serialized transaction exceeds a threshold in [0.75, 0.9) if and only if all four rules apply, and is at most 0.35 on a miss |
| Pipeline.CountriesAgree | scripts/seed_redis.py:55 | the seeded country list means the same to the country rule and to the feature vector |

## Left out

- Wire.RecordRoundTrip: records of 2 GiB and more, which the parser rejects and for which the serializer's own failure on a too large message is not modelled; `Fits` excludes them in the round trips.
- BreakerProtocol.NeverTripsEarly: bounds the number of increments by the range of the 32-bit counter; the counter itself wraps around in the model.
- BreakerProtocol.TripsInTime: the same bound on the number of increments.
- CircuitBreaker.FailuresToOpen: counts up to the range of the 32-bit counter.
- CircuitBreaker.NextFailureTripsAgain: the same range.
- BreakerOutline.NeverTripsLate: the same range.
- BreakerProtocol.AllowAlone: the non-atomic `open_time_` is not part of the interleaved model, where the timeout test has either outcome; it is in the class and in the histories of completed calls.
- MessageObjects.MessageObject.InternalParse: says nothing about the fields after input that does not parse, because what libprotobuf leaves there (a string that is not UTF-8, a number cut short) is its own business; every caller in the program drops such a message.
- MessageObjects.MessageObject.ParseField: a nested message is loaded into an object, parsed and stored back as a value; that it is held by address, its ownership and aliasing are not modelled.
- ConsumerProtocol.BoundedDuplication: assumes that a partition has one consumer at a time, that synchronous commits succeed, and that the commit on revocation moves no commit back; `AtLeastOnce` needs none of this but that a revocation commits no further than the position.
- ConsumerProtocol.OneMessageAtStake: the same assumptions.
- ConsumerProtocol.StepTidy: the same assumptions.
- PoolTheorems.ShutdownCompletes: assumes that tasks terminate and that no client keeps calling; which thread runs next is the scheduler's choice, and no fairness is assumed or proved.
- ConsumerProtocol.StepSafe: closing a consumer commits nothing by itself; the commit on revocation is a step of its own, taken while no message is under way.
- ThreadPool.Pool.WorkerLoop: one worker alone, with nobody to wait for; several workers, the wait and the wakeups are in `PoolProtocol`.
- PoolLiveness.AllWorkGetsDone: assumes that tasks terminate; spurious wakeups and calls of clients add to the bound.
- RuleEngine.Score: exact reals in place of IEEE doubles and floats, with the value of a double word as a parameter; rounding, infinities and NaN are not modelled.
- RuleEngine.Rules: exact reals in place of IEEE doubles and floats, as in `RuleEngine.Score`.
- FeatureStore.Store.constructor: every connection succeeds; the exception of a connection that fails is not modelled.
- Pipeline.Processor.Process: the model server answers or fails within the call; exceptions between admission and report, the producers and the metrics are not modelled.
- KafkaConsumer.SingleConsumer.Start: messages that carry a broker error in `msg->err`, and rebalances inside the loop, which are steps of `ConsumerProtocol`.
- The codec is written once over tables of fields (`FraudSchemas`) instead of once for each generated message; the four tables hold the field numbers, wire types and visiting orders of the generated code.
- Groups (wire types 3 and 4) among unknown fields are rejected instead of parsed, and the parser's recursion limit is not modelled.
- The primitives of libprotobuf are defined from the Protocol Buffers encoding specification; arenas, swaps, descriptors, reflection and allocation are left out.
- Partitions have a committed offset when a consumer starts, and offsets are counted from it.
- A failing `redisAppendCommand`, and HGETALL replies with an odd number of elements; `std::from_chars` for floats is a parameter.
- Handing consumed messages to the thread pool, which the program only announces in a comment.
- Network, clocks, configuration, logging, metrics, training and deployment.
