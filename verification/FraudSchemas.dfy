/** The four messages of generated/fraud.pb.cc as tables. */
module FraudSchemas {
  import opened Common
  import opened Wire
  import opened Messages
  import opened CodecTheorems
  import opened MergeTheorems
  import opened ParseTheorems
  import opened SizeTheorems

  const TRANSACTION := Schema(
    [ Field(1, StringKind),   // tx_id
      Field(2, StringKind),   // user_id
      Field(3, StringKind),   // merchant_id
      Field(4, DoubleKind),   // amount
      Field(5, StringKind),   // currency
      Field(6, StringKind),   // country
      Field(7, Int64Kind),    // timestamp_ms
      Field(8, StringKind),   // card_bin
      Field(9, StringKind),   // device_id
      Field(10, StringKind),  // ip_address
      Field(11, EnumKind) ],  // method
    [0, 1, 2, 4, 5, 7, 8, 9, 3, 6, 10])

  const USER_FEATURES := Schema(
    [ Field(1, Int32Kind),    // tx_count_30d
      Field(2, DoubleKind),   // avg_amount_30d
      Field(3, StringKind),   // countries_30d
      Field(4, Int64Kind),    // last_tx_ts_ms
      Field(5, DoubleKind),   // risk_score
      Field(6, BoolKind) ],   // is_cache_miss
    [2, 1, 0, 5, 3, 4])

  const SCORE_REQUEST := Schema(
    [ Field(1, MessageKind(TRANSACTION)),
      Field(2, MessageKind(USER_FEATURES)) ],
    [0, 1])

  const SCORE_RESPONSE := Schema(
    [ Field(1, FloatKind),    // fraud_probability
      Field(2, StringKind),   // model_version
      Field(3, Int64Kind) ],  // inference_us
    [1, 2, 0])

  /** `place` is where `order` visits each field: an order with such an inverse is a permutation. */
  lemma Inverse(order: seq<nat>, place: seq<nat>)
    requires |order| == |place|
    requires forall k :: 0 <= k < |order| ==> order[k] < |place| && place[order[k]] == k
    requires forall i :: 0 <= i < |place| ==> place[i] < |order| && order[place[i]] == i
    ensures Permutation(order, |order|)
  {
    forall i | 0 <= i < |place| ensures i in order { assert order[place[i]] == i; }
  }

  lemma TransactionPassOrder()
    ensures Permutation(TRANSACTION.passOrder, |TRANSACTION.fields|)
  {
    Inverse(TRANSACTION.passOrder, [0, 1, 2, 8, 3, 4, 9, 5, 6, 7, 10]);
  }

  lemma OtherPassOrders()
    ensures Permutation(USER_FEATURES.passOrder, |USER_FEATURES.fields|)
    ensures Permutation(SCORE_REQUEST.passOrder, |SCORE_REQUEST.fields|)
    ensures Permutation(SCORE_RESPONSE.passOrder, |SCORE_RESPONSE.fields|)
  {
    Inverse(USER_FEATURES.passOrder, [2, 1, 0, 4, 5, 3]);
    Inverse(SCORE_REQUEST.passOrder, [0, 1]);
    Inverse(SCORE_RESPONSE.passOrder, [2, 0, 1]);
  }

  lemma Numbered(schema: Schema)
    requires |schema.fields| <= 15 && Permutation(schema.passOrder, |schema.fields|)
    requires forall i :: 0 <= i < |schema.fields| ==> schema.fields[i].number == i + 1
    requires forall i :: 0 <= i < |schema.fields| && schema.fields[i].kind.MessageKind? ==>
               SchemaOk(schema.fields[i].kind.schema)
    ensures SchemaOk(schema)
  {
  }

  lemma TransactionOk()
    ensures SchemaOk(TRANSACTION) && Flat(TRANSACTION) && |TRANSACTION.fields| == 11
  {
    TransactionPassOrder();
    Numbered(TRANSACTION);
  }

  lemma UserFeaturesOk()
    ensures SchemaOk(USER_FEATURES) && Flat(USER_FEATURES)
  {
    OtherPassOrders();
    Numbered(USER_FEATURES);
  }

  lemma ScoreResponseOk()
    ensures SchemaOk(SCORE_RESPONSE) && Flat(SCORE_RESPONSE)
  {
    OtherPassOrders();
    Numbered(SCORE_RESPONSE);
  }

  lemma ScoreRequestOk()
    ensures SchemaOk(SCORE_REQUEST)
  {
    TransactionOk();
    UserFeaturesOk();
    OtherPassOrders();
    Numbered(SCORE_REQUEST);
  }

  predicate IsFraudSchema(schema: Schema) {
    schema == TRANSACTION || schema == USER_FEATURES || schema == SCORE_REQUEST || schema == SCORE_RESPONSE
  }

  lemma FraudSchemaOk(schema: Schema)
    requires IsFraudSchema(schema)
    ensures SchemaOk(schema)
  {
    TransactionOk();
    UserFeaturesOk();
    ScoreRequestOk();
    ScoreResponseOk();
  }

  /** For each of the four messages: parsing what was serialized merges it, into an empty message it
      gives it back, two serializations behind one another merge, and the size pass is exact. */
  lemma FraudMessages(schema: Schema, a: Message, b: Message)
    requires IsFraudSchema(schema)
    requires Typed(schema, a) && Typed(schema, b) && Fits(schema, b)
    ensures Parse(schema, a, Serialize(schema, b)) == Some(Merge(schema, a, b))
    ensures Parse(schema, Empty(schema), Serialize(schema, b)) == Some(b)
    ensures Fits(schema, a) ==>
              Parse(schema, Empty(schema), Serialize(schema, a) + Serialize(schema, b)) == Some(Merge(schema, a, b))
    ensures ByteSize(schema, b) == |Serialize(schema, b)|
    ensures CachedBytes(schema, b, CacheOf(schema, b)) == Serialize(schema, b)
  {
    FraudSchemaOk(schema);
    ParseIntoIsMerge(schema, a, b);
    RoundTrip(schema, b);
    if Fits(schema, a) { ConcatenationIsMerge(schema, a, b); }
    SizeIsExact(schema, b);
    CachedSizesAreRight(schema, b);
  }

  /** Input that no serializer writes: an explicit zero.  Parsed into features that have a transaction
      count it clears the count, where merging what the input says would keep it. */
  lemma ExplicitZeroOverwrites(a: Message)
    requires Typed(USER_FEATURES, a) && a.values[0] != Number(0)
    ensures var input := [8, 0];
            && Parse(USER_FEATURES, a, input) == Some(Message(a.values[0 := Number(0)], a.unknown))
            && Parse(USER_FEATURES, Empty(USER_FEATURES), input) == Some(Empty(USER_FEATURES))
            && Parse(USER_FEATURES, a, input).value != Merge(USER_FEATURES, a, Empty(USER_FEATURES))
  {
    var input: Bytes := [8, 0];
    var zero, nothing: Bytes := [0], [];
    assert input[1..] == zero && zero[1..] == nothing;
    assert DecodeVarint(input, 5) == Got(8, zero);
    assert DecodeVarint(zero, 10) == Got(0, nothing);
    assert ReadPayload(Int32Kind, a.values[0], zero) == Got(Number(0), nothing);
    assert ReadPayload(Int32Kind, Number(0), zero) == Got(Number(0), nothing);
    assert Find(USER_FEATURES, 1) == 0;
    assert Empty(USER_FEATURES).values[0 := Number(0)] == Empty(USER_FEATURES).values;
    assert Merge(USER_FEATURES, a, Empty(USER_FEATURES)).values == a.values by { MergeOfEmpty(USER_FEATURES, a); }
    assert a.values[0 := Number(0)][0] == Number(0);
  }

  /** A negative integer or enumerator takes ten bytes, also when it has 32 bits only. */
  lemma NegativeTakesTenBytes(n: int)
    requires -TWO_64 / 2 <= n < 0
    ensures |SignedVarint(n)| == 10
  {
    SignedRoundTrip(n);
    VarintSizeExact(ToUnsigned(n));
    VarintLimits(ToUnsigned(n));
    VarintLowerLimit(ToUnsigned(n));
  }
}
