/** The fallback scorer of src/scoring/rule_engine.cpp, in exact arithmetic. */
module RuleEngine {
  import opened Wire
  import opened Messages
  import opened CodecTheorems
  import opened ParseTheorems
  import opened MessageObjects
  import opened Replies
  import opened FeatureStore
  import opened Csv
  import FraudSchemas

  /** What a double word of the wire denotes. */
  type Doubles = nat -> real

  function Amount(d: Doubles, tx: Message): real
    requires Typed(FraudSchemas.TRANSACTION, tx)
  {
    assert ValueOk(FraudSchemas.TRANSACTION.fields[3].kind, tx.values[3]);
    d(tx.values[3].n)
  }

  function UserId(tx: Message): Bytes
    requires Typed(FraudSchemas.TRANSACTION, tx)
  {
    assert ValueOk(FraudSchemas.TRANSACTION.fields[1].kind, tx.values[1]);
    tx.values[1].bytes
  }

  function Country(tx: Message): Bytes
    requires Typed(FraudSchemas.TRANSACTION, tx)
  {
    assert ValueOk(FraudSchemas.TRANSACTION.fields[5].kind, tx.values[5]);
    tx.values[5].bytes
  }

  function Timestamp(tx: Message): int
    requires Typed(FraudSchemas.TRANSACTION, tx)
  {
    assert ValueOk(FraudSchemas.TRANSACTION.fields[6].kind, tx.values[6]);
    tx.values[6].n
  }

  /** What the rules look at. */
  datatype Signals = Signals(amount: real, country: Bytes, timestamp: int, features: Features)

  function SignalsOf(d: Doubles, tx: Message, f: Features): Signals
    requires Typed(FraudSchemas.TRANSACTION, tx)
  {
    Signals(Amount(d, tx), Country(tx), Timestamp(tx), f)
  }

  predicate RatioAbove(s: Signals, limit: real) {
    s.features.avgAmount > 0.0 && s.amount / s.features.avgAmount > limit
  }

  ghost predicate NewCountry(s: Signals) {
    s.country != [] && s.features.countries != [] && !Occurs(s.features.countries, s.country)
  }

  predicate TooSoon(s: Signals) {
    s.features.lastTxTs > 0 && s.timestamp > 0 && 0 <= s.timestamp - s.features.lastTxTs < 60000
  }

  /** The sum of the penalties of the rules that apply. */
  ghost function Penalties(s: Signals): real {
    (if RatioAbove(s, 5.0) then 0.3 else if RatioAbove(s, 2.0) then 0.1 else 0.0)
    + (if s.amount > 5000.0 then 0.2 else 0.0)
    + (if NewCountry(s) then 0.25 else 0.0)
    + (if TooSoon(s) then 0.15 else 0.0)
    + (if s.features.isCacheMiss then 0.15 else 0.0)
  }

  function Capped(x: real): real {
    if x < 1.0 then x else 1.0
  }

  /** The score of a serialized transaction: one that does not parse is suspicious. */
  ghost function RuleScore(d: Doubles, serialized: Bytes, f: Features): real {
    var schema := FraudSchemas.TRANSACTION;
    EmptyTyped(schema);
    ParseKeepsTyped(schema, Empty(schema), serialized);
    match Parse(schema, Empty(schema), serialized)
    case None => 0.9
    case Some(tx) => Capped(Penalties(SignalsOf(d, tx, f)))
  }

  /** `RuleEngine::score`. */
  method Score(d: Doubles, serialized: Bytes, f: Features) returns (total: real)
    ensures Parse(FraudSchemas.TRANSACTION, Empty(FraudSchemas.TRANSACTION), serialized).None? ==> total == 0.9
    ensures Parse(FraudSchemas.TRANSACTION, Empty(FraudSchemas.TRANSACTION), serialized).Some? ==>
              var tx := Parse(FraudSchemas.TRANSACTION, Empty(FraudSchemas.TRANSACTION), serialized).value;
              && Typed(FraudSchemas.TRANSACTION, tx)
              && var sum := Penalties(SignalsOf(d, tx, f)); total == if sum < 1.0 then sum else 1.0
    ensures total == RuleScore(d, serialized, f)
    ensures 0.0 <= total <= 1.0
  {
    var tx := new MessageObject(FraudSchemas.TRANSACTION);
    var ok := tx.ParseFromString(serialized);
    if !ok { return 0.9; }
    total := Rules(SignalsOf(d, tx.Contents(), f));
    total := Capped(total);
  }

  method Rules(s: Signals) returns (total: real)
    ensures total == Penalties(s)
    ensures var average, gap := s.features.avgAmount, s.timestamp - s.features.lastTxTs;
            var ratio := if average > 0.0 then s.amount / average else 0.0;
            var unseen := s.country != [] && s.features.countries != [] && !Occurs(s.features.countries, s.country);
            var timed := s.features.lastTxTs > 0 && s.timestamp > 0;
            total == (if ratio > 5.0 then 0.3 else if ratio > 2.0 then 0.1 else 0.0)
                     + (if s.amount > 5000.0 then 0.2 else 0.0)
                     + (if unseen then 0.25 else 0.0)
                     + (if timed && 0 <= gap < 60000 then 0.15 else 0.0)
                     + (if s.features.isCacheMiss then 0.15 else 0.0)
    ensures 0.0 <= total <= 1.05
  {
    total := 0.0;
    if s.features.avgAmount > 0.0 {
      var ratio := s.amount / s.features.avgAmount;
      if ratio > 5.0 {
        total := total + 0.3;
      } else if ratio > 2.0 {
        total := total + 0.1;
      }
    }
    if s.amount > 5000.0 {
      total := total + 0.2;
    }
    if s.country != [] && s.features.countries != [] {
      var at := Search(s.features.countries, s.country);
      if at.None? {
        total := total + 0.25;
      }
    }
    if s.features.lastTxTs > 0 && s.timestamp > 0 {
      var gap := s.timestamp - s.features.lastTxTs;
      if gap >= 0 && gap < 60000 {
        total := total + 0.15;
      }
    }
    if s.features.isCacheMiss {
      total := total + 0.15;
    }
  }

  // ---------------------------------------------------------------------------------------------
  // What the score says
  // ---------------------------------------------------------------------------------------------

  /** The signals of a user without an average. */
  function WithoutAverage(s: Signals): Signals {
    s.(features := s.features.(avgAmount := 0.0))
  }

  /** What the rule about the usual amount adds, everything else being equal. */
  lemma RatioRuleAdds(s: Signals)
    ensures var added := Penalties(s) - Penalties(WithoutAverage(s));
            && (s.features.avgAmount <= 0.0 ==> added == 0.0)
            && (s.features.avgAmount > 0.0 ==>
                  var ratio := s.amount / s.features.avgAmount;
                  && (ratio > 5.0 ==> added == 0.3)
                  && (2.0 < ratio <= 5.0 ==> added == 0.1)
                  && (ratio <= 2.0 ==> added == 0.0))
  {
  }

  /** What the rule about large amounts adds for a user without an average. */
  lemma AmountRuleAdds(s: Signals)
    ensures var added := Penalties(WithoutAverage(s)) - Penalties(WithoutAverage(s).(amount := 0.0));
            && (s.amount > 5000.0 ==> added == 0.2)
            && (s.amount <= 5000.0 ==> added == 0.0)
  {
  }

  /** What the country rule adds: only for a country and a history that are there, when the text of the
      country stands nowhere in that of the history. */
  lemma CountryRuleAdds(s: Signals)
    ensures var added := Penalties(s) - Penalties(s.(country := []));
            && (s.country == [] || s.features.countries == [] ==> added == 0.0)
            && (Occurs(s.features.countries, s.country) ==> added == 0.0)
            && (s.country != [] && s.features.countries != [] && !Occurs(s.features.countries, s.country) ==>
                  added == 0.25)
  {
  }

  /** What the velocity rule adds: for two known times, less than a minute apart and in order. */
  lemma VelocityRuleAdds(s: Signals)
    ensures var added, gap := Penalties(s) - Penalties(s.(timestamp := 0)), s.timestamp - s.features.lastTxTs;
            && (s.timestamp <= 0 || s.features.lastTxTs <= 0 ==> added == 0.0)
            && (s.timestamp > 0 && s.features.lastTxTs > 0 && 0 <= gap <= 59999 ==> added == 0.15)
            && (gap < 0 || 60000 <= gap ==> added == 0.0)
  {
  }

  /** What a miss adds. */
  lemma MissRuleAdds(s: Signals)
    ensures Penalties(s) - Penalties(s.(features := s.features.(isCacheMiss := false)))
            == if s.features.isCacheMiss then 0.15 else 0.0
  {
  }

  /** And nothing else adds anything: these five rules removed, the sum is zero. */
  lemma NothingElseAdds(s: Signals)
    ensures var hit := s.features.(isCacheMiss := false, avgAmount := 0.0);
            Penalties(Signals(0.0, [], 0, hit)) == 0.0
    ensures Penalties(s) == (Penalties(s) - Penalties(WithoutAverage(s)))
                            + (Penalties(WithoutAverage(s)) - Penalties(WithoutAverage(s).(amount := 0.0)))
                            + (Penalties(s) - Penalties(s.(country := [])))
                            + (Penalties(s) - Penalties(s.(timestamp := 0)))
                            + (Penalties(s) - Penalties(s.(features := s.features.(isCacheMiss := false))))
  {
  }

  /** Features as the store returns them: with the miss flag set nothing else is. */
  predicate FromStore(f: Features) {
    f.isCacheMiss ==> f == CACHE_MISS
  }

  /** Without history the score is at most 0.35, with history at most 0.9: the cap is never reached. */
  lemma ScoreBounds(s: Signals)
    requires FromStore(s.features)
    ensures s.features.isCacheMiss ==> Penalties(s) == if s.amount > 5000.0 then 0.35 else 0.15
    ensures 0.0 <= Penalties(s) <= 0.9 && Capped(Penalties(s)) == Penalties(s)
  {
  }

  ghost predicate AllFour(s: Signals) {
    RatioAbove(s, 5.0) && s.amount > 5000.0 && NewCountry(s) && TooSoon(s)
  }

  /** A threshold from 0.75 up to, but not including, 0.9 is exceeded exactly when every rule of a known
      user fires at its strongest. */
  lemma ExceedsIffAllFour(s: Signals, threshold: real)
    requires FromStore(s.features) && 0.75 <= threshold < 0.9
    ensures Capped(Penalties(s)) > threshold <==> AllFour(s)
  {
  }

  /** Both ends of that range matter: just below it three rules suffice, and from 0.9 on none do. */
  lemma ThresholdRangeIsSharp(s: Signals, threshold: real)
    requires FromStore(s.features)
    ensures threshold >= 0.9 ==> Capped(Penalties(s)) <= threshold
    ensures (threshold < 0.75 && RatioAbove(s, 5.0) && s.amount > 5000.0 && NewCountry(s) && !TooSoon(s)) ==>
              Capped(Penalties(s)) > threshold
  {
  }

  /** A larger amount never lowers the score. */
  lemma MonotoneInAmount(s: Signals, larger: real)
    requires s.amount <= larger
    ensures Capped(Penalties(s)) <= Capped(Penalties(s.(amount := larger)))
  {
    if s.features.avgAmount > 0.0 {
      QuotientMonotone(s.amount, larger, s.features.avgAmount);
    }
  }

  lemma QuotientMonotone(x: real, y: real, d: real)
    requires x <= y && 0.0 < d
    ensures x / d <= y / d
  {
  }

  /** For a list of two-letter codes the substring search of the country rule is membership. */
  lemma CountryRuleIsMembership(s: Signals, codes: seq<Bytes>)
    requires AreCodes(codes) && IsCode(s.country) && s.features.countries == Join(codes)
    ensures NewCountry(s) <==> codes != [] && s.country !in codes
  {
    OccursIffListed(codes, s.country);
    if codes != [] { JoinLayout(codes, 0); }
  }
}
