/** The algebra of merging, and what it says about parsing: messages form a monoid under merge, and
    parsing is a homomorphism from concatenated serializations to merges. */
module MergeTheorems {
  import opened Common
  import opened Messages
  import opened CodecTheorems

  lemma {:induction false} UnknownsAppend(schema: Schema, us: seq<Unknown>, vs: seq<Unknown>)
    requires UnknownsOk(schema, us) && UnknownsOk(schema, vs)
    ensures UnknownsOk(schema, us + vs)
  {
    if us == [] {
      assert us + vs == vs;
    } else {
      UnknownsAppend(schema, us[1..], vs);
      assert (us + vs)[1..] == us[1..] + vs;
    }
  }

  lemma {:induction false} MergeValueTyped(kind: Kind, x: Value, y: Value)
    requires ValueOk(kind, x) && ValueOk(kind, y)
    ensures ValueOk(kind, MergeValue(kind, x, y))
    decreases kind
  {
    if kind.MessageKind? && y.msg.Some? {
      NestedTyped(kind.schema, x);
      MergeTyped(kind.schema, Nested(kind.schema, x), y.msg.value);
    }
  }

  lemma {:induction false} MergeTyped(schema: Schema, a: Message, b: Message)
    requires Typed(schema, a) && Typed(schema, b)
    ensures Typed(schema, Merge(schema, a, b))
    decreases schema
  {
    UnknownsAppend(schema, a.unknown, b.unknown);
    forall i | 0 <= i < |a.values|
      ensures ValueOk(schema.fields[i].kind, Merge(schema, a, b).values[i])
    {
      MergeValueTyped(schema.fields[i].kind, a.values[i], b.values[i]);
    }
  }

  lemma {:induction false} MergeValueIntoZero(kind: Kind, v: Value)
    requires ValueOk(kind, v)
    ensures MergeValue(kind, Zero(kind), v) == v
    decreases kind
  {
    if kind.MessageKind? && v.msg.Some? {
      MergeIntoEmpty(kind.schema, v.msg.value);
    }
  }

  /** An empty message is neutral on the left: merging into it copies. */
  lemma {:induction false} MergeIntoEmpty(schema: Schema, b: Message)
    requires Typed(schema, b)
    ensures Merge(schema, Empty(schema), b) == b
    decreases schema
  {
    var m := Merge(schema, Empty(schema), b);
    forall i | 0 <= i < |schema.fields| ensures m.values[i] == b.values[i] {
      MergeValueIntoZero(schema.fields[i].kind, b.values[i]);
    }
    assert m.values == b.values;
  }

  /** And neutral on the right: merging it changes nothing. */
  lemma MergeOfEmpty(schema: Schema, a: Message)
    requires Typed(schema, a)
    ensures Merge(schema, a, Empty(schema)) == a
  {
    assert Merge(schema, a, Empty(schema)).values == a.values;
  }

  lemma {:induction false} MergeValueAssociative(kind: Kind, x: Value, y: Value, z: Value)
    requires ValueOk(kind, x) && ValueOk(kind, y) && ValueOk(kind, z)
    ensures MergeValue(kind, MergeValue(kind, x, y), z) == MergeValue(kind, x, MergeValue(kind, y, z))
    decreases kind
  {
    if kind.MessageKind? && z.msg.Some? {
      NestedTyped(kind.schema, x);
      if y.msg.Some? {
        MergeAssociative(kind.schema, Nested(kind.schema, x), y.msg.value, z.msg.value);
      } else {
        MergeIntoEmpty(kind.schema, z.msg.value);
      }
    }
  }

  lemma {:induction false} MergeAssociative(schema: Schema, a: Message, b: Message, c: Message)
    requires Typed(schema, a) && Typed(schema, b) && Typed(schema, c)
    ensures Merge(schema, Merge(schema, a, b), c) == Merge(schema, a, Merge(schema, b, c))
    decreases schema
  {
    var l, r := Merge(schema, Merge(schema, a, b), c), Merge(schema, a, Merge(schema, b, c));
    forall i | 0 <= i < |a.values| ensures l.values[i] == r.values[i] {
      MergeValueAssociative(schema.fields[i].kind, a.values[i], b.values[i], c.values[i]);
    }
    assert l.values == r.values;
    assert (a.unknown + b.unknown) + c.unknown == a.unknown + (b.unknown + c.unknown);
  }

  /** Parsing a serialization into a message is merging. */
  lemma ParseIntoIsMerge(schema: Schema, a: Message, b: Message)
    requires SchemaOk(schema) && Typed(schema, a) && Typed(schema, b) && Fits(schema, b)
    ensures Parse(schema, a, Serialize(schema, b)) == Some(Merge(schema, a, b))
  {
    ParseOfSerialized(schema, a, b, []);
    assert Serialize(schema, b) + [] == Serialize(schema, b);
  }

  /** Parsing after serializing gives the message back. */
  lemma RoundTrip(schema: Schema, b: Message)
    requires SchemaOk(schema) && Typed(schema, b) && Fits(schema, b)
    ensures Parse(schema, Empty(schema), Serialize(schema, b)) == Some(b)
  {
    EmptyTyped(schema);
    ParseIntoIsMerge(schema, Empty(schema), b);
    MergeIntoEmpty(schema, b);
  }

  /** No two messages have the same serialization. */
  lemma SerializeInjective(schema: Schema, b: Message, c: Message)
    requires SchemaOk(schema) && Typed(schema, b) && Fits(schema, b) && Typed(schema, c) && Fits(schema, c)
    requires Serialize(schema, b) == Serialize(schema, c)
    ensures b == c
  {
    RoundTrip(schema, b);
    RoundTrip(schema, c);
  }

  /** Last one wins: the concatenation of two serializations parses as the second merged into the first. */
  lemma ConcatenationIsMerge(schema: Schema, x: Message, y: Message)
    requires SchemaOk(schema)
    requires Typed(schema, x) && Fits(schema, x) && Typed(schema, y) && Fits(schema, y)
    ensures Parse(schema, Empty(schema), Serialize(schema, x) + Serialize(schema, y)) == Some(Merge(schema, x, y))
  {
    EmptyTyped(schema);
    ParseOfSerialized(schema, Empty(schema), x, Serialize(schema, y));
    MergeIntoEmpty(schema, x);
    ParseIntoIsMerge(schema, x, y);
  }
}
