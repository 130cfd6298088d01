/** The size pass of the generated code is exact, although it visits the fields in another order than
    the serializer, and the sizes it caches are the length prefixes the serializer needs. */
module SizeTheorems {
  import opened Common
  import opened Wire
  import opened Messages
  import opened CodecTheorems

  /** The size of the field at an index. */
  function SizeAt(schema: Schema, m: Message): nat -> int {
    (i: nat) => if i < |schema.fields| && i < |m.values| then FieldSize(schema.fields[i], m.values[i]) else 0
  }

  lemma {:induction false} SizesAreSum(schema: Schema, m: Message, order: seq<nat>, k: nat)
    requires k <= |order|
    ensures SizesFrom(schema, m, order, k) == Sum(order[k..], SizeAt(schema, m))
    decreases |order| - k
  {
    if k < |order| {
      SizesAreSum(schema, m, order, k + 1);
      assert order[k..][1..] == order[k + 1..];
    }
  }

  lemma PermutationMultiset(order: seq<nat>, n: nat)
    requires Permutation(order, n)
    ensures multiset(order) == multiset(Identity(n))
  {
    forall i: nat ensures multiset(order)[i] == multiset(Identity(n))[i] {
      CountIsMultiplicity(order, i);
      CountIsMultiplicity(Identity(n), i);
      DistinctOccurOnce(order, i);
      DistinctOccurOnce(Identity(n), i);
      CountPositive(order, i);
      CountPositive(Identity(n), i);
      assert i < n ==> Identity(n)[i] == i;
    }
  }

  lemma {:induction false} FieldsSize(schema: Schema, m: Message, k: nat)
    requires SchemaOk(schema) && Typed(schema, m) && k <= |schema.fields|
    ensures |FieldsFrom(schema, m, k)| == Sum(Identity(|schema.fields|)[k..], SizeAt(schema, m))
    decreases schema, 1, |schema.fields| - k
  {
    if k < |schema.fields| {
      FieldsSize(schema, m, k + 1);
      FieldSizeExact(schema, m, k);
      assert Identity(|schema.fields|)[k..][1..] == Identity(|schema.fields|)[k + 1..];
    }
  }

  lemma TagSize(f: Field)
    requires 1 <= f.number <= 15
    ensures |EncodeVarint(TagOf(f))| == 1
  {
    TagParts(f);
  }

  lemma {:induction false} FieldSizeExact(schema: Schema, m: Message, i: nat)
    requires SchemaOk(schema) && Typed(schema, m) && i < |schema.fields|
    ensures |FieldBytes(schema.fields[i], m.values[i])| == FieldSize(schema.fields[i], m.values[i])
    decreases schema, 0, 0
  {
    TagSize(schema.fields[i]);
    PayloadSizeExact(schema.fields[i].kind, m.values[i]);
  }

  lemma {:induction false} PayloadSizeExact(kind: Kind, v: Value)
    requires ValueOk(kind, v)
    requires kind.MessageKind? ==> SchemaOk(kind.schema)
    ensures |Payload(kind, v)| == PayloadSize(kind, v)
    decreases kind, 0, 0
  {
    match kind
    case StringKind => VarintSizeExact(|v.bytes|);
    case MessageKind(schema) =>
      if v.msg.Some? {
        SizeIsExact(schema, v.msg.value);
        VarintSizeExact(|Serialize(schema, v.msg.value)|);
      }
    case _ => VarintSizeExact(ToUnsigned(v.n));
  }

  lemma {:induction false} UnknownSizeExact(us: seq<Unknown>)
    ensures |UnknownBytes(us)| == UnknownSize(us)
  {
    if us != [] {
      UnknownSizeExact(us[1..]);
      VarintSizeExact(UnknownTag(us[0]));
      match us[0]
      case UnknownVarint(_, n) => VarintSizeExact(n);
      case UnknownRecord(_, body) => VarintSizeExact(|body|);
      case _ =>
    }
  }

  /** `ByteSizeLong` is the number of bytes the serializer writes. */
  lemma {:induction false} SizeIsExact(schema: Schema, m: Message)
    requires SchemaOk(schema) && Typed(schema, m)
    ensures ByteSize(schema, m) == |Serialize(schema, m)|
    decreases schema, 2, 0
  {
    var n := |schema.fields|;
    SizesAreSum(schema, m, schema.passOrder, 0);
    assert schema.passOrder[0..] == schema.passOrder;
    PermutationMultiset(schema.passOrder, n);
    SumPermutation(schema.passOrder, Identity(n), SizeAt(schema, m));
    FieldsSize(schema, m, 0);
    assert Identity(n)[0..] == Identity(n);
    UnknownSizeExact(m.unknown);
  }

  // ---------------------------------------------------------------------------------------------
  // Cached sizes
  // ---------------------------------------------------------------------------------------------

  /** The `_cached_size_` of a message and of the messages nested in it, field by field. */
  datatype Cache = Cache(size: nat, subs: seq<Cache>)

  /** The cached size of the message nested at an index: 0 until a size pass sets it. */
  function SubCache(cache: Cache, i: nat): Cache {
    if i < |cache.subs| then cache.subs[i] else Cache(0, [])
  }

  /** What `ByteSizeLong` leaves behind. */
  function CacheOf(schema: Schema, m: Message): Cache
    decreases schema, 0
  {
    Cache(ByteSize(schema, m),
          seq(|schema.fields|, i requires 0 <= i < |schema.fields| =>
            if i < |m.values| then ValueCache(schema.fields[i].kind, m.values[i]) else Cache(0, [])))
  }

  function ValueCache(kind: Kind, v: Value): Cache
    decreases kind, 0
  {
    match (kind, v)
    case (MessageKind(schema), Sub(Some(m))) => CacheOf(schema, m)
    case _ => Cache(0, [])
  }

  /** What the serializer writes for a field when it takes the length of a nested message from the
      cache instead of measuring it. */
  function CachedFieldBytes(f: Field, v: Value, cache: Cache): Bytes
    decreases f, 0
  {
    match (f.kind, v)
    case (MessageKind(schema), Sub(Some(m))) =>
      EncodeVarint(TagOf(f)) + (EncodeVarint(cache.size) + CachedBytes(schema, m, cache))
    case _ => FieldBytes(f, v)
  }

  function CachedFieldsFrom(schema: Schema, m: Message, cache: Cache, i: nat): Bytes
    decreases schema, 0, |schema.fields| - i
  {
    if i < |schema.fields| && i < |m.values| then
      CachedFieldBytes(schema.fields[i], m.values[i], SubCache(cache, i)) + CachedFieldsFrom(schema, m, cache, i + 1)
    else []
  }

  /** `_InternalSerialize`. */
  function CachedBytes(schema: Schema, m: Message, cache: Cache): Bytes
    decreases schema, 1
  {
    CachedFieldsFrom(schema, m, cache, 0) + UnknownBytes(m.unknown)
  }

  lemma {:induction false} CachedFields(schema: Schema, m: Message, k: nat)
    requires SchemaOk(schema) && Typed(schema, m) && k <= |schema.fields|
    ensures CachedFieldsFrom(schema, m, CacheOf(schema, m), k) == FieldsFrom(schema, m, k)
    decreases schema, 1, |schema.fields| - k
  {
    if k < |schema.fields| {
      CachedFields(schema, m, k + 1);
      CachedField(schema, m, k);
    }
  }

  lemma {:induction false} CachedField(schema: Schema, m: Message, i: nat)
    requires SchemaOk(schema) && Typed(schema, m) && i < |schema.fields|
    ensures CachedFieldBytes(schema.fields[i], m.values[i], SubCache(CacheOf(schema, m), i))
         == FieldBytes(schema.fields[i], m.values[i])
    decreases schema, 0, 0
  {
    match (schema.fields[i].kind, m.values[i])
    case (MessageKind(inner), Sub(Some(sub))) =>
      CachedSizesAreRight(inner, sub);
      SizeIsExact(inner, sub);
    case _ =>
  }

  /** After the size pass the cached sizes are the lengths the serializer needs: what it writes is the
      serialization with its true length prefixes. */
  lemma {:induction false} CachedSizesAreRight(schema: Schema, m: Message)
    requires SchemaOk(schema) && Typed(schema, m)
    ensures CachedBytes(schema, m, CacheOf(schema, m)) == Serialize(schema, m)
    ensures CacheOf(schema, m).size == |Serialize(schema, m)|
    decreases schema, 2, 0
  {
    CachedFields(schema, m, 0);
    SizeIsExact(schema, m);
  }
}
