/** Parsing input of any origin into a message that already holds something: what the input alone
    determines, and when parsing into a message is the same as merging. */
module InputTheorems {
  import opened Common
  import opened Wire
  import opened Messages
  import opened CodecTheorems
  import opened MergeTheorems
  import opened ParseTheorems

  // ---------------------------------------------------------------------------------------------
  // The parser, one field of the input at a time
  // ---------------------------------------------------------------------------------------------

  /** One field of the input as it stands there, whatever message it is parsed into: the body of a
      nested message is not parsed yet. */
  datatype Token = Scalar(i: nat, v: Value) | Body(i: nat, body: Bytes) | Unrecognised(u: Unknown)

  function ReadToken(schema: Schema, s: Bytes): (r: Read<Token>)
    ensures r.Got? ==> |r.rest| < |s|
    ensures r.Got? && !r.value.Unrecognised? ==>
              r.value.i < |schema.fields| && (r.value.Body? <==> schema.fields[r.value.i].kind.MessageKind?)
  {
    match ReadTag(s)
    case Fail => Fail
    case Got(tag, rest) =>
      var i := Find(schema, tag / 8);
      if i < |schema.fields| && tag % 256 == TagOf(schema.fields[i]) then
        ReadKnown(i, schema.fields[i].kind, rest)
      else if tag == 0 || tag % 8 == 4 then Fail
      else match ReadUnknown(tag, rest)
           case Fail => Fail
           case Got(u, rest') => Got(Unrecognised(u), rest')
  }

  function ReadKnown(i: nat, kind: Kind, s: Bytes): (r: Read<Token>)
    ensures r.Got? ==> |r.rest| <= |s|
    ensures r.Got? ==> !r.value.Unrecognised? && r.value.i == i && (r.value.Body? <==> kind.MessageKind?)
  {
    if kind.MessageKind? then
      match ReadRecord(s)
      case Fail => Fail
      case Got(body, rest) => Got(Body(i, body), rest)
    else
      match ReadPayload(kind, Zero(kind), s)
      case Fail => Fail
      case Got(v, rest) => Got(Scalar(i, v), rest)
  }

  /** What the parser does with one field. */
  function Store(schema: Schema, m: Message, token: Token): Option<Message>
    requires |m.values| == |schema.fields|
    requires !token.Unrecognised? ==>
               token.i < |schema.fields| && (token.Body? <==> schema.fields[token.i].kind.MessageKind?)
  {
    match token
    case Scalar(i, v) => Some(Message(m.values[i := v], m.unknown))
    case Unrecognised(u) => Some(Message(m.values, m.unknown + [u]))
    case Body(i, body) =>
      var inner := schema.fields[i].kind.schema;
      match Parse(inner, Nested(inner, m.values[i]), body)
      case None => None
      case Some(sub) => Some(Message(m.values[i := Sub(Some(sub))], m.unknown))
  }

  lemma ParseByToken(schema: Schema, m: Message, s: Bytes)
    requires |m.values| == |schema.fields| && s != []
    ensures ReadToken(schema, s).Fail? ==> Parse(schema, m, s) == None
    ensures ReadToken(schema, s).Got? ==>
              var stored := Store(schema, m, ReadToken(schema, s).value);
              Parse(schema, m, s)
                == if stored.None? then None else Parse(schema, stored.value, ReadToken(schema, s).rest)
  {
    if ReadTag(s).Got? {
      var tag, rest := ReadTag(s).value, ReadTag(s).rest;
      var i := Find(schema, tag / 8);
      if Matches(schema, m, tag, i) && !schema.fields[i].kind.MessageKind? {
        ScalarIgnoresCurrent(schema.fields[i].kind, m.values[i], Zero(schema.fields[i].kind), rest);
      }
    }
  }

  lemma ScalarIgnoresCurrent(kind: Kind, x: Value, y: Value, s: Bytes)
    requires !kind.MessageKind?
    ensures ReadPayload(kind, x, s) == ReadPayload(kind, y, s)
  {
  }

  // ---------------------------------------------------------------------------------------------
  // Input that goes on
  // ---------------------------------------------------------------------------------------------

  lemma {:induction false} VarintGoesOn(s: Bytes, max: nat, more: Bytes)
    requires DecodeVarint(s, max).Got?
    ensures DecodeVarint(s + more, max) == Got(DecodeVarint(s, max).value, DecodeVarint(s, max).rest + more)
  {
    assert (s + more)[1..] == s[1..] + more;
    if 128 <= s[0] { VarintGoesOn(s[1..], max - 1, more); }
  }

  lemma {:induction false} FixedGoesOn(s: Bytes, k: nat, more: Bytes)
    requires DecodeFixed(s, k).Got?
    ensures DecodeFixed(s + more, k) == Got(DecodeFixed(s, k).value, DecodeFixed(s, k).rest + more)
  {
    if k != 0 {
      assert (s + more)[1..] == s[1..] + more;
      FixedGoesOn(s[1..], k - 1, more);
    }
  }

  lemma RecordGoesOn(s: Bytes, more: Bytes)
    requires ReadRecord(s).Got?
    ensures ReadRecord(s + more) == Got(ReadRecord(s).value, ReadRecord(s).rest + more)
  {
    VarintGoesOn(s, 5, more);
    var n, rest := DecodeVarint(s, 5).value, DecodeVarint(s, 5).rest;
    assert (rest + more)[..n] == rest[..n] && (rest + more)[n..] == rest[n..] + more;
  }

  lemma ScalarGoesOn(kind: Kind, s: Bytes, more: Bytes)
    requires !kind.MessageKind? && ReadPayload(kind, Zero(kind), s).Got?
    ensures var r := ReadPayload(kind, Zero(kind), s);
            ReadPayload(kind, Zero(kind), s + more) == Got(r.value, r.rest + more)
  {
    match kind
    case StringKind => RecordGoesOn(s, more);
    case DoubleKind => FixedGoesOn(s, 8, more);
    case FloatKind => FixedGoesOn(s, 4, more);
    case MessageKind(_) =>
    case _ => VarintGoesOn(s, 10, more);
  }

  lemma UnknownGoesOn(tag: nat, s: Bytes, more: Bytes)
    requires ReadUnknown(tag, s).Got?
    ensures ReadUnknown(tag, s + more) == Got(ReadUnknown(tag, s).value, ReadUnknown(tag, s).rest + more)
  {
    if tag % 8 == 0 { VarintGoesOn(s, 10, more); }
    else if tag % 8 == 1 { FixedGoesOn(s, 8, more); }
    else if tag % 8 == 2 { RecordGoesOn(s, more); }
    else { FixedGoesOn(s, 4, more); }
  }

  lemma TokenGoesOn(schema: Schema, s: Bytes, more: Bytes)
    requires ReadToken(schema, s).Got?
    ensures ReadToken(schema, s + more) == Got(ReadToken(schema, s).value, ReadToken(schema, s).rest + more)
  {
    VarintGoesOn(s, 5, more);
    var tag, rest := ReadTag(s).value, ReadTag(s).rest;
    var i := Find(schema, tag / 8);
    if i < |schema.fields| && tag % 256 == TagOf(schema.fields[i]) {
      if schema.fields[i].kind.MessageKind? { RecordGoesOn(rest, more); }
      else { ScalarGoesOn(schema.fields[i].kind, rest, more); }
    } else {
      UnknownGoesOn(tag, rest, more);
    }
  }

  /** Input that parses may be followed by more: parsing goes on from the message it made. */
  lemma {:induction false} ParseGoesOn(schema: Schema, m: Message, s: Bytes, more: Bytes)
    requires |m.values| == |schema.fields| && Parse(schema, m, s).Some?
    ensures |Parse(schema, m, s).value.values| == |schema.fields|
    ensures Parse(schema, m, s + more) == Parse(schema, Parse(schema, m, s).value, more)
    decreases |s|
  {
    if s == [] {
      assert s + more == more;
    } else {
      ParseByToken(schema, m, s);
      TokenGoesOn(schema, s, more);
      ParseByToken(schema, m, s + more);
      var r := ReadToken(schema, s);
      ParseGoesOn(schema, Store(schema, m, r.value).value, r.rest, more);
    }
  }

  // ---------------------------------------------------------------------------------------------
  // What the input alone determines
  // ---------------------------------------------------------------------------------------------

  /** Whether the input mentions a field under its declared wire type. */
  predicate Mentions(schema: Schema, s: Bytes, i: nat)
    decreases |s|
  {
    s != [] &&
    match ReadToken(schema, s)
    case Fail => false
    case Got(token, rest) => (!token.Unrecognised? && token.i == i) || Mentions(schema, rest, i)
  }

  /** The last value the input gives to a field, or `v`. */
  function LastValue(schema: Schema, s: Bytes, i: nat, v: Value): Value
    decreases |s|
  {
    if s == [] then v
    else match ReadToken(schema, s)
         case Fail => v
         case Got(token, rest) => LastValue(schema, rest, i, if token.Scalar? && token.i == i then token.v else v)
  }

  /** The bodies that the input gives for a nested message, one behind the other. */
  function Bodies(schema: Schema, s: Bytes, i: nat): Bytes
    decreases |s|
  {
    if s == [] then []
    else match ReadToken(schema, s)
         case Fail => []
         case Got(token, rest) => (if token.Body? && token.i == i then token.body else []) + Bodies(schema, rest, i)
  }

  /** The unknown field that a token is, if it is one. */
  function Own(token: Token): seq<Unknown> {
    if token.Unrecognised? then [token.u] else []
  }

  function Unknowns(schema: Schema, s: Bytes): seq<Unknown>
    decreases |s|
  {
    if s == [] then []
    else match ReadToken(schema, s)
         case Fail => []
         case Got(token, rest) => Own(token) + Unknowns(schema, rest)
  }

  /** Whether the input parses, which has nothing to do with the message it is parsed into. */
  predicate WellFormed(schema: Schema, s: Bytes)
    decreases schema, |s|
  {
    s == [] ||
    match ReadToken(schema, s)
    case Fail => false
    case Got(token, rest) =>
      (token.Body? ==> WellFormed(schema.fields[token.i].kind.schema, token.body)) && WellFormed(schema, rest)
  }

  lemma StoreTyped(schema: Schema, m: Message, s: Bytes)
    requires Typed(schema, m) && ReadToken(schema, s).Got? && Store(schema, m, ReadToken(schema, s).value).Some?
    ensures Typed(schema, Store(schema, m, ReadToken(schema, s).value).value)
  {
    var tag, rest := ReadTag(s).value, ReadTag(s).rest;
    match ReadToken(schema, s).value
    case Scalar(i, _) => ReadPayloadTyped(schema.fields[i].kind, Zero(schema.fields[i].kind), rest);
    case Body(i, body) =>
      var inner := schema.fields[i].kind.schema;
      NestedTyped(inner, m.values[i]);
      ParseKeepsTyped(inner, Nested(inner, m.values[i]), body);
    case Unrecognised(u) =>
      ReadUnknownOk(schema, m, tag, rest);
      UnknownsAppend(schema, m.unknown, [u]);
  }

  /** The same input parses into every message or into none. */
  lemma {:induction false} ParsesIffWellFormed(schema: Schema, m: Message, s: Bytes)
    requires Typed(schema, m)
    ensures Parse(schema, m, s).Some? <==> WellFormed(schema, s)
    decreases schema, |s|
  {
    if s != [] {
      ParseByToken(schema, m, s);
      var r := ReadToken(schema, s);
      if r.Got? {
        if r.value.Body? {
          var inner := schema.fields[r.value.i].kind.schema;
          NestedTyped(inner, m.values[r.value.i]);
          ParsesIffWellFormed(inner, Nested(inner, m.values[r.value.i]), r.value.body);
        }
        if Store(schema, m, r.value).Some? {
          StoreTyped(schema, m, s);
          ParsesIffWellFormed(schema, Store(schema, m, r.value).value, r.rest);
        }
      }
    }
  }

  lemma {:induction false} UnmentionedStays(schema: Schema, s: Bytes, i: nat, v: Value)
    requires !Mentions(schema, s, i)
    ensures LastValue(schema, s, i, v) == v && Bodies(schema, s, i) == []
    decreases |s|
  {
    if s != [] && ReadToken(schema, s).Got? { UnmentionedStays(schema, ReadToken(schema, s).rest, i, v); }
  }

  lemma {:induction false} MentionedIsRead(schema: Schema, s: Bytes, i: nat, v: Value, w: Value)
    requires Mentions(schema, s, i) && i < |schema.fields| && !schema.fields[i].kind.MessageKind?
    ensures LastValue(schema, s, i, v) == LastValue(schema, s, i, w)
    decreases |s|
  {
    var r := ReadToken(schema, s);
    if Mentions(schema, r.rest, i) {
      var given := r.value.Scalar? && r.value.i == i;
      MentionedIsRead(schema, r.rest, i, if given then r.value.v else v, if given then r.value.v else w);
    }
  }

  /** A scalar field holds the last value the input gives it; the unknown fields are appended. */
  lemma {:induction false} ScalarAfter(schema: Schema, m: Message, s: Bytes, i: nat)
    requires |m.values| == |schema.fields| && Parse(schema, m, s).Some?
    requires i < |schema.fields| && !schema.fields[i].kind.MessageKind?
    ensures |Parse(schema, m, s).value.values| == |schema.fields|
    ensures Parse(schema, m, s).value.values[i] == LastValue(schema, s, i, m.values[i])
    decreases |s|
  {
    if s != [] {
      ParseByToken(schema, m, s);
      var r := ReadToken(schema, s);
      ScalarAfter(schema, Store(schema, m, r.value).value, r.rest, i);
    }
  }

  lemma StoreUnknown(schema: Schema, m: Message, s: Bytes)
    requires |m.values| == |schema.fields| && s != [] && ReadToken(schema, s).Got?
    requires Store(schema, m, ReadToken(schema, s).value).Some?
    ensures var r := ReadToken(schema, s);
            var m' := Store(schema, m, r.value).value;
            |m'.values| == |schema.fields| && m.unknown + Unknowns(schema, s) == m'.unknown + Unknowns(schema, r.rest)
  {
    var r := ReadToken(schema, s);
    var m', later := Store(schema, m, r.value).value, Unknowns(schema, r.rest);
    assert m.unknown + (Own(r.value) + later) == (m.unknown + Own(r.value)) + later;
    assert m'.unknown == m.unknown + Own(r.value);
  }

  lemma {:induction false} UnknownsAfter(schema: Schema, m: Message, s: Bytes, all: seq<Unknown>)
    requires |m.values| == |schema.fields| && Parse(schema, m, s).Some?
    requires all == m.unknown + Unknowns(schema, s)
    ensures |Parse(schema, m, s).value.values| == |schema.fields|
    ensures Parse(schema, m, s).value.unknown == all
    decreases |s|
  {
    if s == [] {
      assert all == m.unknown;
    } else {
      ParseByToken(schema, m, s);
      StoreUnknown(schema, m, s);
      UnknownsAfter(schema, Store(schema, m, ReadToken(schema, s).value).value, ReadToken(schema, s).rest, all);
    }
  }

  /** A nested message that the input mentions is what all its bodies together, parsed as one input,
      make of the one that was there. */
  lemma {:induction false} NestedAfter(schema: Schema, m: Message, s: Bytes, i: nat)
    requires |m.values| == |schema.fields| && Parse(schema, m, s).Some?
    requires i < |schema.fields| && schema.fields[i].kind.MessageKind?
    requires var inner := schema.fields[i].kind.schema; |Nested(inner, m.values[i]).values| == |inner.fields|
    ensures |Parse(schema, m, s).value.values| == |schema.fields|
    ensures !Mentions(schema, s, i) ==> Parse(schema, m, s).value.values[i] == m.values[i]
    ensures Mentions(schema, s, i) ==>
              var inner := schema.fields[i].kind.schema;
              var sub := Parse(inner, Nested(inner, m.values[i]), Bodies(schema, s, i));
              sub.Some? && Parse(schema, m, s).value.values[i] == Sub(sub)
    decreases |s|
  {
    if s != [] {
      ParseByToken(schema, m, s);
      var r := ReadToken(schema, s);
      var m' := Store(schema, m, r.value).value;
      var inner := schema.fields[i].kind.schema;
      if r.value.Body? && r.value.i == i {
        ParseGoesOn(inner, Nested(inner, m.values[i]), r.value.body, Bodies(schema, r.rest, i));
        NestedAfter(schema, m', r.rest, i);
        if !Mentions(schema, r.rest, i) { UnmentionedStays(schema, r.rest, i, m.values[i]); }
      } else {
        NestedAfter(schema, m', r.rest, i);
        assert Bodies(schema, s, i) == Bodies(schema, r.rest, i);
      }
    }
  }

  // ---------------------------------------------------------------------------------------------
  // Parsing into a message and merging
  // ---------------------------------------------------------------------------------------------

  /** No scalar field that the input mentions and leaves at zero, here or in a nested message, is set
      in `a`. */
  ghost predicate NoZeroOverwrites(schema: Schema, a: Message, s: Bytes)
    decreases schema
  {
    forall i: nat :: i < |schema.fields| && i < |a.values| && Mentions(schema, s, i) ==>
      NoZeroOverwritesIn(schema.fields[i].kind, a.values[i],
                         LastValue(schema, s, i, Zero(schema.fields[i].kind)), Bodies(schema, s, i))
  }

  /** The same for one field, for which the input has the value `last`, or the bodies `bodies`. */
  ghost predicate NoZeroOverwritesIn(kind: Kind, current: Value, last: Value, bodies: Bytes)
    decreases kind
  {
    if kind.MessageKind? then NoZeroOverwrites(kind.schema, Nested(kind.schema, current), bodies)
    else last == Zero(kind) ==> current == Zero(kind)
  }

  /** The field at an index of `m` is that of `b` merged into `a`. */
  ghost predicate MergesAt(schema: Schema, a: Message, b: Message, m: Message, i: nat)
    requires i < |schema.fields| == |a.values| == |b.values| == |m.values|
  {
    m.values[i] == MergeValue(schema.fields[i].kind, a.values[i], b.values[i])
  }

  /** For input of any origin, parsing into `a` is merging what the input says by itself exactly when
      no field that the input leaves at zero was set in `a`: an explicit zero overwrites, but a merge
      leaves the field alone. */
  lemma {:induction false} ParseIntoIsMergeIff(schema: Schema, a: Message, s: Bytes)
    requires Typed(schema, a) && Parse(schema, Empty(schema), s).Some?
    ensures Parse(schema, a, s).Some?
    ensures Parse(schema, a, s).value == Merge(schema, a, Parse(schema, Empty(schema), s).value)
            <==> NoZeroOverwrites(schema, a, s)
    decreases schema
  {
    ParsesAlike(schema, a, Empty(schema), s);
    var into, alone := Parse(schema, a, s).value, Parse(schema, Empty(schema), s).value;
    UnknownsMerge(schema, a, s);
    forall i: nat | i < |schema.fields|
      ensures MergesAt(schema, a, alone, into, i)
              <==> (Mentions(schema, s, i) ==>
                      NoZeroOverwritesIn(schema.fields[i].kind, a.values[i],
                                         LastValue(schema, s, i, Zero(schema.fields[i].kind)), Bodies(schema, s, i)))
    {
      if schema.fields[i].kind.MessageKind? { NestedMergesIff(schema, a, s, i); }
      else { ScalarMergesIff(schema, a, s, i); }
    }
    SameAsMerge(schema, a, alone, into);
  }

  lemma ParsesAlike(schema: Schema, a: Message, b: Message, s: Bytes)
    requires Typed(schema, a)
    requires Typed(schema, b) || b == Empty(schema)
    ensures Parse(schema, a, s).Some? <==> Parse(schema, b, s).Some?
  {
    EmptyTyped(schema);
    ParsesIffWellFormed(schema, a, s);
    ParsesIffWellFormed(schema, b, s);
  }

  lemma UnknownsMerge(schema: Schema, a: Message, s: Bytes)
    requires |a.values| == |schema.fields| && Parse(schema, Empty(schema), s).Some? && Parse(schema, a, s).Some?
    ensures |Parse(schema, a, s).value.values| == |schema.fields| == |Parse(schema, Empty(schema), s).value.values|
    ensures Parse(schema, a, s).value.unknown == a.unknown + Parse(schema, Empty(schema), s).value.unknown
  {
    var own := Unknowns(schema, s);
    assert own == Empty(schema).unknown + own;
    UnknownsAfter(schema, a, s, a.unknown + own);
    UnknownsAfter(schema, Empty(schema), s, own);
  }

  lemma SameAsMerge(schema: Schema, a: Message, b: Message, m: Message)
    requires |a.values| == |b.values| == |m.values| == |schema.fields| && m.unknown == a.unknown + b.unknown
    ensures m == Merge(schema, a, b)
            <==> forall i: nat :: i < |schema.fields| ==> MergesAt(schema, a, b, m, i)
  {
    var merged := Merge(schema, a, b);
    if forall i: nat :: i < |schema.fields| ==> MergesAt(schema, a, b, m, i) {
      forall i: nat | i < |schema.fields| ensures m.values[i] == merged.values[i] {
        assert MergesAt(schema, a, b, m, i);
      }
      assert m.values == merged.values;
    } else {
      var i: nat :| i < |schema.fields| && !MergesAt(schema, a, b, m, i);
      assert m.values[i] != merged.values[i];
    }
  }

  lemma ScalarMergesIff(schema: Schema, a: Message, s: Bytes, i: nat)
    requires Typed(schema, a) && Parse(schema, Empty(schema), s).Some? && Parse(schema, a, s).Some?
    requires i < |schema.fields| && !schema.fields[i].kind.MessageKind?
    ensures |Parse(schema, a, s).value.values| == |schema.fields| == |Parse(schema, Empty(schema), s).value.values|
    ensures var kind := schema.fields[i].kind;
            MergesAt(schema, a, Parse(schema, Empty(schema), s).value, Parse(schema, a, s).value, i)
            <==> (Mentions(schema, s, i) && LastValue(schema, s, i, Zero(kind)) == Zero(kind) ==>
                    a.values[i] == Zero(kind))
  {
    var kind := schema.fields[i].kind;
    ScalarAfter(schema, a, s, i);
    ScalarAfter(schema, Empty(schema), s, i);
    if Mentions(schema, s, i) { MentionedIsRead(schema, s, i, a.values[i], Zero(kind)); }
    else { UnmentionedStays(schema, s, i, a.values[i]); UnmentionedStays(schema, s, i, Zero(kind)); }
  }

  lemma {:induction false} NestedMergesIff(schema: Schema, a: Message, s: Bytes, i: nat)
    requires Typed(schema, a) && Parse(schema, Empty(schema), s).Some? && Parse(schema, a, s).Some?
    requires i < |schema.fields| && schema.fields[i].kind.MessageKind?
    ensures |Parse(schema, a, s).value.values| == |schema.fields| == |Parse(schema, Empty(schema), s).value.values|
    ensures var kind := schema.fields[i].kind;
            MergesAt(schema, a, Parse(schema, Empty(schema), s).value, Parse(schema, a, s).value, i)
            <==> (Mentions(schema, s, i) ==>
                    NoZeroOverwrites(kind.schema, Nested(kind.schema, a.values[i]), Bodies(schema, s, i)))
    decreases schema, 0
  {
    var inner := schema.fields[i].kind.schema;
    assert ValueOk(schema.fields[i].kind, a.values[i]);
    NestedTyped(inner, a.values[i]);
    NestedAfter(schema, a, s, i);
    NestedAfter(schema, Empty(schema), s, i);
    if Mentions(schema, s, i) {
      ParseIntoIsMergeIff(inner, Nested(inner, a.values[i]), Bodies(schema, s, i));
    }
  }
}
