/** What the parser guarantees about any input, not only about what a serializer wrote. */
module ParseTheorems {
  import opened Common
  import opened Wire
  import opened Messages
  import opened CodecTheorems
  import opened MergeTheorems

  lemma {:induction false} ReadPayloadTyped(kind: Kind, current: Value, s: Bytes)
    requires ValueOk(kind, current)
    ensures var r := ReadPayload(kind, current, s); r.Got? ==> ValueOk(kind, r.value)
    decreases kind, 0, 0
  {
    match kind
    case DoubleKind => PowValues();
    case FloatKind => PowValues();
    case MessageKind(schema) =>
      NestedTyped(schema, current);
      var r := ReadRecord(s);
      if r.Got? { ParseKeepsTyped(schema, Nested(schema, current), r.value); }
    case _ =>
  }

  lemma ReadUnknownOk(schema: Schema, m: Message, tag: nat, s: Bytes)
    requires |m.values| == |schema.fields| && tag < TWO_32
    requires !Matches(schema, m, tag, Find(schema, tag / 8))
    ensures var r := ReadUnknown(tag, s); r.Got? ==> UnknownOk(schema, r.value)
  {
    PowValues();
    var r := ReadUnknown(tag, s);
    if r.Got? {
      assert UnknownTag(r.value) == tag;
    }
  }

  /** Whatever the parser accepts is a message of the right types with valid strings, in which only
      unknown fields are kept as unknown: it can be serialized and parsed again. */
  lemma {:induction false} ParseKeepsTyped(schema: Schema, m: Message, s: Bytes)
    requires Typed(schema, m)
    ensures Parse(schema, m, s).Some? ==> Typed(schema, Parse(schema, m, s).value)
    decreases schema, 0, |s|
  {
    if s != [] && ReadTag(s).Got? {
      var tag, rest := ReadTag(s).value, ReadTag(s).rest;
      var i := Find(schema, tag / 8);
      if Matches(schema, m, tag, i) {
        var kind := schema.fields[i].kind;
        ReadPayloadTyped(kind, m.values[i], rest);
        var r := ReadPayload(kind, m.values[i], rest);
        if r.Got? {
          ParseKeepsTyped(schema, m.(values := m.values[i := r.value]), r.rest);
        }
      } else {
        ReadUnknownOk(schema, m, tag, rest);
        var r := ReadUnknown(tag, rest);
        if r.Got? {
          UnknownsAppend(schema, m.unknown, [r.value]);
          ParseKeepsTyped(schema, m.(unknown := m.unknown + [r.value]), r.rest);
        }
      }
    }
  }

  // ---------------------------------------------------------------------------------------------
  // Messages without nested messages
  // ---------------------------------------------------------------------------------------------

  ghost predicate Flat(schema: Schema) {
    forall i :: 0 <= i < |schema.fields| ==> !schema.fields[i].kind.MessageKind?
  }

  /** In a flat message the parser also keeps every payload below the length limit, so that what was
      parsed can be serialized and parsed again without any further condition. */
  lemma {:induction false} ParseKeepsFits(schema: Schema, m: Message, s: Bytes)
    requires Flat(schema) && |m.values| == |schema.fields| && Fits(schema, m)
    ensures Parse(schema, m, s).Some? ==> Fits(schema, Parse(schema, m, s).value)
    decreases |s|
  {
    if s != [] && ReadTag(s).Got? {
      var tag, rest := ReadTag(s).value, ReadTag(s).rest;
      var i := Find(schema, tag / 8);
      if Matches(schema, m, tag, i) {
        var r := ReadPayload(schema.fields[i].kind, m.values[i], rest);
        if r.Got? { ParseKeepsFits(schema, m.(values := m.values[i := r.value]), r.rest); }
      } else {
        var r := ReadUnknown(tag, rest);
        if r.Got? { ParseKeepsFits(schema, m.(unknown := m.unknown + [r.value]), r.rest); }
      }
    }
  }

  /** Parse, serialize, parse: a message survives whatever input it came from, as long as its nested
      messages, which may have been put together from several records, stay below the length limit. */
  lemma ReparseIsIdentity(schema: Schema, s: Bytes)
    requires SchemaOk(schema)
    requires Parse(schema, Empty(schema), s).Some?
    requires Flat(schema) || Fits(schema, Parse(schema, Empty(schema), s).value)
    ensures var m := Parse(schema, Empty(schema), s).value;
            Typed(schema, m) && Parse(schema, Empty(schema), Serialize(schema, m)) == Some(m)
  {
    EmptyTyped(schema);
    ParseKeepsTyped(schema, Empty(schema), s);
    if Flat(schema) { ParseKeepsFits(schema, Empty(schema), s); }
    RoundTrip(schema, Parse(schema, Empty(schema), s).value);
  }
}
