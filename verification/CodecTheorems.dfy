/** Parser, serializer, size pass and merge fit together, for every schema whose tags take one byte,
    with nested messages and unknown fields. */
module CodecTheorems {
  import opened Common
  import opened Wire
  import opened Messages

  /** Every length-delimited payload stays below the 2 GiB that a length prefix may announce. */
  ghost predicate Fits(schema: Schema, m: Message)
    decreases schema
  {
    forall i :: 0 <= i < |m.values| && i < |schema.fields| ==> ValueFits(schema.fields[i].kind, m.values[i])
  }

  ghost predicate ValueFits(kind: Kind, v: Value)
    decreases kind
  {
    && (v.Text? ==> |v.bytes| <= INT_MAX)
    && (kind.MessageKind? && v.Sub? && v.msg.Some? ==>
          |Serialize(kind.schema, v.msg.value)| <= INT_MAX && Fits(kind.schema, v.msg.value))
  }

  // ---------------------------------------------------------------------------------------------
  // Parsing what was serialized is merging
  // ---------------------------------------------------------------------------------------------

  lemma EmptyTyped(schema: Schema)
    ensures Typed(schema, Empty(schema))
  {
  }

  lemma NestedTyped(schema: Schema, v: Value)
    requires ValueOk(MessageKind(schema), v)
    ensures Typed(schema, Nested(schema, v))
  {
    EmptyTyped(schema);
  }

  lemma ScalarRoundTrip(kind: Kind, current: Value, v: Value, tail: Bytes)
    requires !kind.MessageKind? && ValueOk(kind, v) && ValueFits(kind, v)
    ensures ReadPayload(kind, current, Payload(kind, v) + tail) == Got(v, tail)
  {
    match kind
    case StringKind => RecordRoundTrip(v.bytes, tail);
    case DoubleKind => PowValues(); FixedRoundTrip(v.n, 8, tail);
    case FloatKind => PowValues(); FixedRoundTrip(v.n, 4, tail);
    case BoolKind => ReadBackVarint(v.n, tail);
    case MessageKind(_) =>
    case _ =>
      SignedRoundTrip(v.n);
      ReadBackVarint(ToUnsigned(v.n), tail);
  }

  /** Reading a payload that was written merges the value into the one that is there. */
  lemma {:induction false} PayloadRoundTrip(kind: Kind, current: Value, v: Value, tail: Bytes)
    requires ValueOk(kind, current) && ValueOk(kind, v) && ValueFits(kind, v) && v != Zero(kind)
    requires kind.MessageKind? ==> SchemaOk(kind.schema)
    ensures ReadPayload(kind, current, Payload(kind, v) + tail) == Got(MergeValue(kind, current, v), tail)
    decreases kind, 0, 0
  {
    if kind.MessageKind? {
      var schema, sub := kind.schema, v.msg.value;
      var body := Serialize(schema, sub);
      RecordRoundTrip(body, tail);
      NestedTyped(schema, current);
      ParseOfSerialized(schema, Nested(schema, current), sub, []);
      assert body + [] == body;
    } else {
      ScalarRoundTrip(kind, current, v, tail);
    }
  }

  lemma FindSelf(schema: Schema, i: nat)
    requires SchemaOk(schema) && i < |schema.fields|
    ensures Find(schema, schema.fields[i].number) == i
  {
  }

  lemma TagParts(f: Field)
    requires 1 <= f.number <= 15
    ensures TagOf(f) < 128 && TagOf(f) / 8 == f.number && TagOf(f) % 256 == TagOf(f)
  {
  }

  /** One field read back: the field is merged, and nothing else changes. */
  lemma {:induction false} FieldRoundTrip(schema: Schema, m: Message, i: nat, v: Value, tail: Bytes)
    requires SchemaOk(schema) && |m.values| == |schema.fields| && i < |schema.fields|
    requires var kind := schema.fields[i].kind; ValueOk(kind, m.values[i]) && ValueOk(kind, v) && ValueFits(kind, v)
    ensures Parse(schema, m, FieldBytes(schema.fields[i], v) + tail)
         == Parse(schema, m.(values := m.values[i := MergeValue(schema.fields[i].kind, m.values[i], v)]), tail)
    decreases schema, 0, 0
  {
    var f := schema.fields[i];
    if v == Zero(f.kind) {
      assert FieldBytes(f, v) + tail == tail;
      assert m.values[i := m.values[i]] == m.values;
    } else {
      var s := FieldBytes(f, v) + tail;
      var rest := Payload(f.kind, v) + tail;
      assert s == EncodeVarint(TagOf(f)) + rest;
      TagParts(f);
      ReadBackTag(TagOf(f), rest);
      FindSelf(schema, i);
      PayloadRoundTrip(f.kind, m.values[i], v, tail);
    }
  }

  /** The target after its first `k` fields were merged. */
  function MergedUpTo(schema: Schema, a: Message, b: Message, k: nat): Message
    requires |a.values| == |b.values| == |schema.fields|
  {
    Message(
      seq(|a.values|, i requires 0 <= i < |a.values| =>
        if i < k then MergeValue(schema.fields[i].kind, a.values[i], b.values[i]) else a.values[i]),
      a.unknown)
  }

  lemma MergedStep(schema: Schema, a: Message, b: Message, k: nat)
    requires |a.values| == |b.values| == |schema.fields| && k < |schema.fields|
    ensures var m := MergedUpTo(schema, a, b, k);
            && m.values[k] == a.values[k]
            && Message(m.values[k := MergeValue(schema.fields[k].kind, a.values[k], b.values[k])], m.unknown)
               == MergedUpTo(schema, a, b, k + 1)
  {
  }

  lemma FieldsSplit(schema: Schema, b: Message, k: nat, tail: Bytes)
    requires k < |schema.fields| == |b.values|
    ensures FieldsFrom(schema, b, k) + tail
         == FieldBytes(schema.fields[k], b.values[k]) + (FieldsFrom(schema, b, k + 1) + tail)
  {
  }

  lemma {:induction false} FieldsRoundTrip(schema: Schema, a: Message, b: Message, k: nat, tail: Bytes)
    requires SchemaOk(schema) && Typed(schema, a) && Typed(schema, b) && Fits(schema, b) && k <= |schema.fields|
    ensures Parse(schema, MergedUpTo(schema, a, b, k), FieldsFrom(schema, b, k) + tail)
         == Parse(schema, MergedUpTo(schema, a, b, |schema.fields|), tail)
    decreases schema, 1, |schema.fields| - k
  {
    if k == |schema.fields| {
      assert FieldsFrom(schema, b, k) + tail == tail;
    } else {
      var m := MergedUpTo(schema, a, b, k);
      var rest := FieldsFrom(schema, b, k + 1) + tail;
      FieldsSplit(schema, b, k, tail);
      FieldRoundTrip(schema, m, k, b.values[k], rest);
      MergedStep(schema, a, b, k);
      FieldsRoundTrip(schema, a, b, k + 1, tail);
    }
  }

  lemma UnknownPayloadRoundTrip(schema: Schema, u: Unknown, tail: Bytes)
    requires UnknownOk(schema, u)
    ensures UnknownTag(u) < TWO_32 && UnknownTag(u) != 0 && UnknownTag(u) % 8 != 4 && UnknownTag(u) / 8 == u.number
    ensures ReadUnknown(UnknownTag(u), UnknownPayload(u) + tail) == Got(u, tail)
  {
    match u
    case UnknownVarint(_, n) => ReadBackVarint(n, tail);
    case UnknownFixed64(_, n) => PowValues(); FixedRoundTrip(n, 8, tail);
    case UnknownRecord(_, body) => RecordRoundTrip(body, tail);
    case UnknownFixed32(_, n) => PowValues(); FixedRoundTrip(n, 4, tail);
  }

  lemma UnknownFieldRoundTrip(schema: Schema, m: Message, u: Unknown, rest: Bytes)
    requires |m.values| == |schema.fields| && UnknownOk(schema, u)
    ensures Parse(schema, m, EncodeVarint(UnknownTag(u)) + (UnknownPayload(u) + rest))
         == Parse(schema, Message(m.values, m.unknown + [u]), rest)
  {
    UnknownPayloadRoundTrip(schema, u, rest);
    ReadBackTag(UnknownTag(u), UnknownPayload(u) + rest);
  }

  lemma UnknownBytesSplit(us: seq<Unknown>, tail: Bytes)
    requires us != []
    ensures UnknownBytes(us) + tail
         == EncodeVarint(UnknownTag(us[0])) + (UnknownPayload(us[0]) + (UnknownBytes(us[1..]) + tail))
  {
  }

  /** Unknown fields are read back as unknown fields and appended, which makes `m` into `m'`. */
  lemma {:induction false} UnknownRoundTrip(schema: Schema, m: Message, us: seq<Unknown>, m': Message, tail: Bytes)
    requires |m.values| == |schema.fields| && UnknownsOk(schema, us)
    requires m' == Message(m.values, m.unknown + us)
    ensures Parse(schema, m, UnknownBytes(us) + tail) == Parse(schema, m', tail)
    decreases |us|
  {
    if us == [] {
      assert UnknownBytes(us) + tail == tail;
      assert m.unknown + us == m.unknown;
    } else {
      var next := Message(m.values, m.unknown + [us[0]]);
      assert m'.unknown == next.unknown + us[1..];
      UnknownBytesSplit(us, tail);
      UnknownFieldRoundTrip(schema, m, us[0], UnknownBytes(us[1..]) + tail);
      UnknownRoundTrip(schema, next, us[1..], m', tail);
    }
  }

  lemma SerializeSplit(schema: Schema, b: Message, tail: Bytes)
    requires Typed(schema, b)
    ensures Serialize(schema, b) + tail == FieldsFrom(schema, b, 0) + (UnknownBytes(b.unknown) + tail)
  {
  }

  lemma MergedEnds(schema: Schema, a: Message, b: Message)
    requires Typed(schema, a) && Typed(schema, b)
    ensures MergedUpTo(schema, a, b, 0) == a
    ensures Merge(schema, a, b) == Message(MergedUpTo(schema, a, b, |schema.fields|).values, a.unknown + b.unknown)
  {
  }

  /** Parsing the serialization of `b` into `a`, with more input behind it, goes on from the merge of
      `b` into `a`. */
  lemma {:induction false} ParseOfSerialized(schema: Schema, a: Message, b: Message, tail: Bytes)
    requires SchemaOk(schema) && Typed(schema, a) && Typed(schema, b) && Fits(schema, b)
    ensures Parse(schema, a, Serialize(schema, b) + tail) == Parse(schema, Merge(schema, a, b), tail)
    decreases schema, 2, 0
  {
    var n := |schema.fields|;
    var rest := UnknownBytes(b.unknown) + tail;
    SerializeSplit(schema, b, tail);
    MergedEnds(schema, a, b);
    FieldsRoundTrip(schema, a, b, 0, rest);
    UnknownRoundTrip(schema, MergedUpTo(schema, a, b, n), b.unknown, Merge(schema, a, b), tail);
  }
}
