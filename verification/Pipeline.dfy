/** The `process` lambda of src/main.cpp: enrich, ask the breaker, score by the model server or by the
    rules, route. */
module Pipeline {
  import opened Common
  import opened Wire
  import opened Messages
  import opened ParseTheorems
  import opened MessageObjects
  import opened Replies
  import opened FeatureStore
  import opened RuleEngine
  import opened CircuitBreaker
  import opened BreakerProtocol
  import opened Csv
  import FraudSchemas

  /** Where a transaction goes; nowhere when the lookup threw. */
  datatype Routing = DeadLetter(payload: Bytes, score: real) | Clean(payload: Bytes, score: real) | Raised

  /** The environment of one call: whether the connection breaks, the clock at the admission and at the
      report, and what the model server answers, if it does. */
  datatype Env = Env(lookupFails: bool, now: int, later: int, modelScore: Option<real>)

  /** The breaker after the call. */
  function BreakerAfter(b: Breaker, threshold: int, recovery: int, env: Env): Breaker {
    var asked := Apply(b, threshold, recovery, Allow(env.now));
    if !Admits(b, recovery, env.now) then asked
    else if env.modelScore.Some? then Apply(asked, threshold, recovery, Success)
    else Apply(asked, threshold, recovery, Failure(env.later))
  }

  /** The breaker is open and the recovery time has passed. */
  predicate TrialDue(b: Breaker, recovery: int, env: Env) {
    b.circuit == Open && env.now - b.openTime >= recovery
  }

  /** Whether the rules decide: the breaker turned the request away, or the model server failed. */
  predicate Degraded(b: Breaker, recovery: int, env: Env) {
    !Admits(b, recovery, env.now) || env.modelScore.None?
  }

  /** The transaction in a consumed payload, if it parses. */
  function Consumed(payload: Bytes): (tx: Option<Message>)
    ensures tx.Some? ==> Typed(FraudSchemas.TRANSACTION, tx.value)
  {
    var schema := FraudSchemas.TRANSACTION;
    ParseKeepsTyped(schema, Empty(schema), payload);
    Parse(schema, Empty(schema), payload)
  }

  /** The features of a transaction's user, when there is a connection to ask for them. */
  function FeaturesFor(w: World, connected: bool, tx: Message): (f: Features)
    requires Typed(FraudSchemas.TRANSACTION, tx)
    ensures connected ==> f == FeaturesOf(w, ReplyFor(w, tx.values[1].bytes))
    ensures !connected ==> f == CACHE_MISS
  {
    if connected then Lookup(w, UserId(tx)) else CACHE_MISS
  }

  class Processor {
    const doubles: Doubles
    const store: Store
    const breaker: CircuitBreaker
    const fraudThreshold: real

    ghost predicate Valid()
      reads this, store, store.pool
    {
      store.Valid()
    }

    constructor (doubles: Doubles, store: Store, breaker: CircuitBreaker, fraudThreshold: real)
      requires store.Valid()
      ensures Valid() && this.doubles == doubles && this.store == store && this.breaker == breaker
      ensures this.fraudThreshold == fraudThreshold
    {
      this.doubles := doubles;
      this.store := store;
      this.breaker := breaker;
      this.fraudThreshold := fraudThreshold;
    }

    method Process(tx: MessageObject, env: Env) returns (r: Routing)
      requires Valid() && tx.schema == FraudSchemas.TRANSACTION && tx.Valid() && Typed(tx.schema, tx.Contents())
      modifies store`pool, store.pool, breaker, tx`cache
      ensures Valid() && tx.Contents() == old(tx.Contents())
      ensures r.Raised? <==> old(store.pool) != [] && env.lookupFails
      ensures r.Raised? ==> breaker.Model() == old(breaker.Model())
      ensures old(breaker.circuit) != HalfOpen ==> breaker.circuit != HalfOpen
      ensures !r.Raised? ==>
                && r.payload == Serialize(tx.schema, tx.Contents())
                && breaker.Model() == BreakerAfter(old(breaker.Model()), breaker.threshold, breaker.recovery, env)
                && (r.DeadLetter? <==> r.score > fraudThreshold)
                && r.score == (if Degraded(old(breaker.Model()), breaker.recovery, env)
                               then RuleScore(doubles, r.payload,
                                              FeaturesFor(store.world, old(store.pool) != [], tx.Contents()))
                               else env.modelScore.value)
    {
      var looked := store.GetFeatures(UserId(tx.Contents()), env.lookupFails);
      if looked.Thrown? { return Raised; }
      r := Route(tx, looked.features, env);
    }

    /** One iteration of the consumer with this handler, end to end: a payload that does not parse changes
        nothing.  In degraded mode, and with a threshold in [0.75, 0.9), a transaction that is not held up
        by a broken connection becomes a dead letter exactly when the amount is above five times the
        user's average and above 5000, the country is new, and the last transaction is less than a minute
        ago.  In particular a user without history is never stopped then. */
    method HandleConsumed(payload: Bytes, env: Env) returns (r: Option<Routing>)
      requires Valid()
      modifies store`pool, store.pool, breaker
      ensures Valid()
      ensures r.None? <==> Consumed(payload).None?
      ensures r.None? ==> breaker.Model() == old(breaker.Model()) && store.pool == old(store.pool)
      ensures r.Some? ==> (r.value.Raised? <==> old(store.pool) != [] && env.lookupFails)
      ensures r.Some? && !r.value.Raised? && 0.75 <= fraudThreshold < 0.9
              && Degraded(old(breaker.Model()), breaker.recovery, env) ==>
                var tx := Consumed(payload).value;
                var f := FeaturesFor(store.world, old(store.pool) != [], tx);
                && (r.value.DeadLetter? <==> AllFour(SignalsOf(doubles, tx, f)))
                && (f.isCacheMiss ==> r.value.Clean?)
                && Consumed(r.value.payload) == Some(tx)
    {
      var tx := new MessageObject(FraudSchemas.TRANSACTION);
      var parsed := tx.ParseFromString(payload);
      if !parsed { return None; }
      var routed := Process(tx, env);
      if 0.75 <= fraudThreshold < 0.9 {
        DegradedDecision(doubles, store.world, old(store.pool) != [], payload, fraudThreshold);
      }
      FraudSchemas.TransactionOk();
      ReparseIsIdentity(FraudSchemas.TRANSACTION, payload);
      return Some(routed);
    }

    /** Scores and routes: `score > FRAUD_THRESHOLD`, a strict comparison. */
    method Route(tx: MessageObject, features: Features, env: Env) returns (r: Routing)
      requires tx.schema == FraudSchemas.TRANSACTION && tx.Valid() && Typed(tx.schema, tx.Contents())
      modifies breaker, tx`cache
      ensures tx.Contents() == old(tx.Contents())
      ensures !r.Raised? && r.payload == Serialize(tx.schema, tx.Contents())
      ensures r.DeadLetter? <==> r.score > fraudThreshold
      ensures old(breaker.circuit) != HalfOpen ==> breaker.circuit != HalfOpen
      ensures breaker.Model() == BreakerAfter(old(breaker.Model()), breaker.threshold, breaker.recovery, env)
      ensures r.score == if Degraded(old(breaker.Model()), breaker.recovery, env)
                         then RuleScore(doubles, r.payload, features)
                         else env.modelScore.value
    {
      var payload := Encoded(tx);
      var score := Decide(payload, features, env);
      if score > fraudThreshold {
        return DeadLetter(payload, score);
      }
      return Clean(payload, score);
    }

    /** The payload of the request and of the produced message. */
    method Encoded(tx: MessageObject) returns (payload: Bytes)
      requires tx.schema == FraudSchemas.TRANSACTION && tx.Valid() && Typed(tx.schema, tx.Contents())
      modifies tx`cache
      ensures tx.Contents() == old(tx.Contents())
      ensures payload == Serialize(tx.schema, tx.Contents())
    {
      FraudSchemas.TransactionOk();
      payload := tx.SerializeAsString();
    }

    /** The breaker protocol of the lambda: ask, call, report, and fall back to the rules.  The call leaves
        no half open breaker behind that it did not find. */
    method Decide(payload: Bytes, features: Features, env: Env) returns (score: real)
      modifies breaker
      ensures old(breaker.circuit) == Closed || TrialDue(old(breaker.Model()), breaker.recovery, env) ==>
                if env.modelScore.Some? then
                  && breaker.circuit == Closed && score == env.modelScore.value
                  && breaker.failureCount == old(breaker.failureCount) && breaker.openTime == old(breaker.openTime)
                else
                  && breaker.failureCount == Wrap32(old(breaker.failureCount) + 2)
                  && score == RuleScore(doubles, payload, features)
      ensures TrialDue(old(breaker.Model()), breaker.recovery, env) && env.modelScore.None? ==>
                breaker.circuit == Open && breaker.openTime == old(breaker.openTime)
      ensures old(breaker.circuit) == Closed && env.modelScore.None? ==>
                if Wrap32(old(breaker.failureCount) + 1) >= breaker.threshold
                then breaker.circuit == Open && breaker.openTime == env.later
                else breaker.circuit == Closed && breaker.openTime == old(breaker.openTime)
      ensures old(breaker.circuit) != Closed && !TrialDue(old(breaker.Model()), breaker.recovery, env) ==>
                && breaker.circuit == old(breaker.circuit) && breaker.failureCount == old(breaker.failureCount)
                && breaker.openTime == old(breaker.openTime) && score == RuleScore(doubles, payload, features)
      ensures old(breaker.circuit) != HalfOpen ==> breaker.circuit != HalfOpen
      ensures breaker.Model() == BreakerAfter(old(breaker.Model()), breaker.threshold, breaker.recovery, env)
      ensures score == if Degraded(old(breaker.Model()), breaker.recovery, env)
                       then RuleScore(doubles, payload, features)
                       else env.modelScore.value
    {
      var admitted := breaker.AllowRequest(env.now);
      if admitted {
        match env.modelScore {
          case Some(answer) =>
            breaker.RecordSuccess();
            return answer;
          case None =>
            breaker.RecordFailure(env.later);
            score := Score(doubles, payload, features);
        }
      } else {
        score := Score(doubles, payload, features);
      }
    }
  }

  // ---------------------------------------------------------------------------------------------
  // The handler as a caller of the interleaved breaker
  // ---------------------------------------------------------------------------------------------

  /** One whole call of the handler in `BreakerProtocol`, nobody else moving: from the first load, over the
      call to the model server, to the end of the report. */
  function HandlerAlone(sh: Shared, elapsed: bool, answered: bool): Moved {
    var asked := Alone(sh, Loading, elapsed);
    if !asked.pc.Calling? then asked
    else
      var called := Move(asked.sh, asked.pc, answered);
      Alone(called.sh, called.pc, answered)
  }

  /** What `Decide` does to the breaker is one such call: it asks, and reports what it was admitted for. */
  lemma DecideIsTheHandler(sh: Shared, openTime: int, recovery: int, env: Env)
    ensures var b := Breaker(sh.circuit, sh.failures, openTime);
            var m := HandlerAlone(sh, env.now - openTime >= recovery, env.modelScore.Some?);
            && m.pc == Idle
            && m.sh.circuit == BreakerAfter(b, sh.threshold, recovery, env).circuit
            && m.sh.failures == BreakerAfter(b, sh.threshold, recovery, env).failures
  {
    var elapsed := env.now - openTime >= recovery;
    AllowAlone(sh, openTime, recovery, env.now);
    var asked := Alone(sh, Loading, elapsed);
    AloneStops(sh, Loading, elapsed);
    if asked.pc.Calling? {
      var called := Move(asked.sh, asked.pc, env.modelScore.Some?);
      if env.modelScore.Some? {
        SuccessAlone(called.sh, asked.pc.epoch, true, openTime, recovery);
      } else {
        FailureAlone(called.sh, asked.pc.epoch, false, openTime, recovery, env.later);
      }
    }
  }

  // ---------------------------------------------------------------------------------------------
  // Degraded mode, end to end
  // ---------------------------------------------------------------------------------------------

  /** What the rules see of a consumed transaction survives its way back to bytes and through the
      parser again. */
  lemma RuleScoreOfConsumed(d: Doubles, consumed: Bytes, f: Features)
    requires Parse(FraudSchemas.TRANSACTION, Empty(FraudSchemas.TRANSACTION), consumed).Some?
    ensures var schema := FraudSchemas.TRANSACTION;
            var tx := Parse(schema, Empty(schema), consumed).value;
            && Typed(schema, tx)
            && RuleScore(d, Serialize(schema, tx), f) == Capped(Penalties(SignalsOf(d, tx, f)))
            && RuleScore(d, consumed, f) == RuleScore(d, Serialize(schema, tx), f)
  {
    FraudSchemas.TransactionOk();
    ReparseIsIdentity(FraudSchemas.TRANSACTION, consumed);
  }

  /** The decision in degraded mode: for a consumed transaction that parses, features from the store and
      a threshold in [0.75, 0.9), the transaction is a dead letter exactly when the amount is above five
      times the user's average and above 5000, the country is new, and the last one is less than a
      minute ago.  In particular a user the store does not know is never stopped. */
  lemma DegradedDecision(d: Doubles, w: World, connected: bool, consumed: Bytes, threshold: real)
    requires Parse(FraudSchemas.TRANSACTION, Empty(FraudSchemas.TRANSACTION), consumed).Some?
    requires 0.75 <= threshold < 0.9
    ensures var schema := FraudSchemas.TRANSACTION;
            var tx := Parse(schema, Empty(schema), consumed).value;
            && Typed(schema, tx)
            && var f := FeaturesFor(w, connected, tx);
            && (RuleScore(d, Serialize(schema, tx), f) > threshold <==> AllFour(SignalsOf(d, tx, f)))
            && (f.isCacheMiss ==> RuleScore(d, Serialize(schema, tx), f) <= 0.35)
  {
    FraudSchemas.TransactionOk();
    ReparseIsIdentity(FraudSchemas.TRANSACTION, consumed);
    var tx := Parse(FraudSchemas.TRANSACTION, Empty(FraudSchemas.TRANSACTION), consumed).value;
    var f := FeaturesFor(w, connected, tx);
    RuleScoreOfConsumed(d, consumed, f);
    MissIsDefaults(w, UserId(tx));
    ExceedsIffAllFour(SignalsOf(d, tx, f), threshold);
    ScoreBounds(SignalsOf(d, tx, f));
  }

  /** The text the seeding script writes is what both readers of it need: the country rule tests
      membership in the list, and the feature vector counts its entries. */
  lemma CountriesAgree(s: Signals, codes: seq<Bytes>)
    requires AreCodes(codes) && IsCode(s.country) && s.features.countries == Join(codes)
    ensures NewCountry(s) <==> codes != [] && s.country !in codes
    ensures CountryCount(s.features.countries) == |codes|
  {
    CountryRuleIsMembership(s, codes);
    CountIsLength(codes);
  }
}
