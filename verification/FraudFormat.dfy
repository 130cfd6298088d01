/** The wire format of the four messages, in bytes: the tags of generated/fraud.pb.cc, and what follows
    each of them. */
module FraudFormat {
  import opened Common
  import opened Wire
  import opened WireFormat
  import opened Messages
  import opened CodecTheorems
  import opened ParseTheorems
  import opened RuleEngine
  import FraudSchemas

  /** What may follow a tag. */
  datatype Format = Utf8 | Int64 | Int32 | Flag | Word64 | Word32 | Record

  /** The tag of each field and what follows it. */
  const TRANSACTION_WIRE: seq<(byte, Format)> :=
    [(10, Utf8), (18, Utf8), (26, Utf8), (33, Word64), (42, Utf8), (50, Utf8), (56, Int64), (66, Utf8),
     (74, Utf8), (82, Utf8), (88, Int32)]
  const USER_FEATURES_WIRE: seq<(byte, Format)> :=
    [(8, Int32), (17, Word64), (26, Utf8), (32, Int64), (41, Word64), (48, Flag)]
  const SCORE_REQUEST_WIRE: seq<(byte, Format)> := [(10, Record), (18, Record)]
  const SCORE_RESPONSE_WIRE: seq<(byte, Format)> := [(13, Word32), (18, Utf8), (24, Int64)]

  function FormatOf(kind: Kind): Format {
    match kind
    case StringKind => Utf8
    case Int64Kind => Int64
    case Int32Kind => Int32
    case EnumKind => Int32
    case BoolKind => Flag
    case DoubleKind => Word64
    case FloatKind => Word32
    case MessageKind(_) => Record
  }

  predicate TableOf(schema: Schema, wire: seq<(byte, Format)>) {
    && |schema.fields| == |wire|
    && forall i :: 0 <= i < |wire| ==>
         TagOf(schema.fields[i]) == wire[i].0 && FormatOf(schema.fields[i].kind) == wire[i].1
  }

  lemma TransactionTable()
    ensures TableOf(FraudSchemas.TRANSACTION, TRANSACTION_WIRE)
  {
  }

  /** These are the tables of the four messages. */
  lemma Tables()
    ensures TableOf(FraudSchemas.TRANSACTION, TRANSACTION_WIRE)
    ensures TableOf(FraudSchemas.USER_FEATURES, USER_FEATURES_WIRE)
    ensures TableOf(FraudSchemas.SCORE_REQUEST, SCORE_REQUEST_WIRE)
    ensures TableOf(FraudSchemas.SCORE_RESPONSE, SCORE_RESPONSE_WIRE)
  {
    TransactionTable();
  }

  /** A field that was never set: an empty text, the number zero, no nested message. */
  lemma StartsEmpty(schema: Schema, wire: seq<(byte, Format)>, i: nat)
    requires TableOf(schema, wire) && i < |wire|
    ensures |Empty(schema).values| == |wire| && Empty(schema).unknown == []
    ensures Empty(schema).values[i]
            == if wire[i].1 == Utf8 then Text([]) else if wire[i].1 == Record then Sub(None) else Number(0)
  {
  }

  // ---------------------------------------------------------------------------------------------
  // Reading
  // ---------------------------------------------------------------------------------------------

  /** The bytes of a text with its length before them. */
  predicate Delimited(payload: Bytes, length: Bytes, body: Bytes) {
    && payload == length + body && OneVarint(length) && |length| <= 5
    && Spell(length, 128) == |body| <= INT_MAX
  }

  /** `n` is the signed number of some width that the low bits of `bits` are in two's complement. */
  predicate SignedIn(n: int, bits: nat, modulus: nat)
    requires modulus != 0
  {
    -(modulus as int) <= 2 * n < modulus && (bits - n) % modulus == 0
  }

  /** A payload spells a value. */
  ghost predicate Spells(f: Format, payload: Bytes, v: Value) {
    match f
    case Utf8 => exists length, body :: Delimited(payload, length, body) && IsText(body) && v == Text(body)
    case Int64 => OneVarint(payload) && |payload| <= 10 && v.Number? && SignedIn(v.n, Spell(payload, 128), TWO_64)
    case Int32 => OneVarint(payload) && |payload| <= 10 && v.Number? && SignedIn(v.n, Spell(payload, 128), TWO_32)
    case Flag =>
      OneVarint(payload) && |payload| <= 10 && v == Number(if Spell(payload, 128) % TWO_64 == 0 then 0 else 1)
    case Word64 => |payload| == 8 && v == Number(Spell(payload, 256))
    case Word32 => |payload| == 4 && v == Number(Spell(payload, 256))
    case Record => false
  }

  lemma SignedReads(n: int, bits: nat)
    ensures SignedIn(n, bits, TWO_64) ==> ToSigned64(bits % TWO_64) == n
    ensures SignedIn(n, bits, TWO_32) ==> ToSigned32(bits % TWO_32) == n && ToSigned32(bits % TWO_64) == n
  {
    LowBits(bits);
    Residue64(bits, n);
    Residue32(bits, n);
  }

  lemma LowBits(bits: nat)
    ensures bits % TWO_64 % TWO_32 == bits % TWO_32
  {
  }

  lemma Residue64(bits: nat, n: int)
    ensures SignedIn(n, bits, TWO_64) ==> bits % TWO_64 == if 0 <= n then n else n + TWO_64
  {
  }

  lemma Residue32(bits: nat, n: int)
    ensures SignedIn(n, bits, TWO_32) ==> bits % TWO_32 == if 0 <= n then n else n + TWO_32
  {
  }

  lemma PayloadReads(kind: Kind, current: Value, payload: Bytes, v: Value, tail: Bytes)
    requires Spells(FormatOf(kind), payload, v)
    ensures ReadPayload(kind, current, payload + tail) == Got(v, tail)
  {
    match kind
    case StringKind =>
      var length, body :| Delimited(payload, length, body) && IsText(body) && v == Text(body);
      RecordReads(length, body, tail);
      ValidIffText(body);
    case DoubleKind => FixedSpells(payload, tail);
    case FloatKind => FixedSpells(payload, tail);
    case BoolKind => VarintSpells(payload, 10, tail);
    case MessageKind(_) =>
    case _ =>
      VarintSpells(payload, 10, tail);
      SignedReads(v.n, Spell(payload, 128));
  }

  lemma TagReads(schema: Schema, wire: seq<(byte, Format)>, i: nat, rest: Bytes)
    requires SchemaOk(schema) && TableOf(schema, wire) && i < |wire|
    ensures ReadTag([wire[i].0] + rest) == Got(wire[i].0 as nat, rest)
    ensures Find(schema, (wire[i].0 as nat) / 8) == i
  {
    TagParts(schema.fields[i]);
    FindSelf(schema, i);
    assert ([wire[i].0] + rest)[1..] == rest;
  }

  /** After the tag of a field its payload decides. */
  lemma KnownField(schema: Schema, wire: seq<(byte, Format)>, m: Message, i: nat, rest: Bytes)
    requires SchemaOk(schema) && TableOf(schema, wire) && |m.values| == |wire| && i < |wire|
    ensures var r := ReadPayload(schema.fields[i].kind, m.values[i], rest);
            Parse(schema, m, [wire[i].0] + rest)
            == if r.Fail? then None else Parse(schema, Message(m.values[i := r.value], m.unknown), r.rest)
  {
    TagReads(schema, wire, i, rest);
    var tag: nat := wire[i].0;
    assert tag % 256 == tag == TagOf(schema.fields[i]);
  }

  /** A tag of the table and a payload that spells a value set that one field to that value, whatever
      the message holds. */
  lemma FieldReads(
      schema: Schema, wire: seq<(byte, Format)>, m: Message, i: nat, payload: Bytes, v: Value, rest: Bytes)
    requires SchemaOk(schema) && TableOf(schema, wire) && |m.values| == |wire| && i < |wire|
    requires Spells(wire[i].1, payload, v)
    ensures Parse(schema, m, [wire[i].0] + (payload + rest))
         == Parse(schema, Message(m.values[i := v], m.unknown), rest)
  {
    KnownField(schema, wire, m, i, payload + rest);
    PayloadReads(schema.fields[i].kind, m.values[i], payload, v, rest);
  }

  lemma TransactionReads(m: Message, i: nat, payload: Bytes, v: Value, rest: Bytes)
    requires |m.values| == 11 && i < 11 && Spells(TRANSACTION_WIRE[i].1, payload, v)
    ensures Parse(FraudSchemas.TRANSACTION, m, [TRANSACTION_WIRE[i].0] + (payload + rest))
         == Parse(FraudSchemas.TRANSACTION, Message(m.values[i := v], m.unknown), rest)
  {
    Tables();
    FraudSchemas.TransactionOk();
    FieldReads(FraudSchemas.TRANSACTION, TRANSACTION_WIRE, m, i, payload, v, rest);
  }

  lemma UserFeaturesReads(m: Message, i: nat, payload: Bytes, v: Value, rest: Bytes)
    requires |m.values| == 6 && i < 6 && Spells(USER_FEATURES_WIRE[i].1, payload, v)
    ensures Parse(FraudSchemas.USER_FEATURES, m, [USER_FEATURES_WIRE[i].0] + (payload + rest))
         == Parse(FraudSchemas.USER_FEATURES, Message(m.values[i := v], m.unknown), rest)
  {
    Tables();
    FraudSchemas.UserFeaturesOk();
    FieldReads(FraudSchemas.USER_FEATURES, USER_FEATURES_WIRE, m, i, payload, v, rest);
  }

  lemma ScoreResponseReads(m: Message, i: nat, payload: Bytes, v: Value, rest: Bytes)
    requires |m.values| == 3 && i < 3 && Spells(SCORE_RESPONSE_WIRE[i].1, payload, v)
    ensures Parse(FraudSchemas.SCORE_RESPONSE, m, [SCORE_RESPONSE_WIRE[i].0] + (payload + rest))
         == Parse(FraudSchemas.SCORE_RESPONSE, Message(m.values[i := v], m.unknown), rest)
  {
    Tables();
    FraudSchemas.ScoreResponseOk();
    FieldReads(FraudSchemas.SCORE_RESPONSE, SCORE_RESPONSE_WIRE, m, i, payload, v, rest);
  }

  lemma NestedPayload(inner: Schema, current: Value, payload: Bytes, length: Bytes, body: Bytes, rest: Bytes)
    requires Delimited(payload, length, body)
    ensures var sub := Parse(inner, Nested(inner, current), body);
            ReadPayload(MessageKind(inner), current, payload + rest)
            == if sub.None? then Fail else Got(Sub(sub), rest)
  {
    RecordReads(length, body, rest);
  }

  lemma NestedReads(
      schema: Schema, wire: seq<(byte, Format)>, m: Message, i: nat, inner: Schema,
      payload: Bytes, length: Bytes, body: Bytes, rest: Bytes)
    requires SchemaOk(schema) && TableOf(schema, wire) && |m.values| == |wire| && i < |wire|
    requires schema.fields[i].kind == MessageKind(inner) && Delimited(payload, length, body)
    ensures var sub := Parse(inner, Nested(inner, m.values[i]), body);
            Parse(schema, m, [wire[i].0] + (payload + rest))
            == if sub.None? then None else Parse(schema, Message(m.values[i := Sub(sub)], m.unknown), rest)
  {
    NestedPayload(inner, m.values[i], payload, length, body, rest);
    KnownField(schema, wire, m, i, payload + rest);
  }

  /** The nested messages of a request: a transaction after tag 10, features after tag 18, each parsed
      into the one that is there. */
  lemma ScoreRequestReads(m: Message, i: nat, payload: Bytes, length: Bytes, body: Bytes, rest: Bytes)
    requires |m.values| == 2 && i < 2 && Delimited(payload, length, body)
    ensures var inner := if i == 0 then FraudSchemas.TRANSACTION else FraudSchemas.USER_FEATURES;
            var sub := Parse(inner, Nested(inner, m.values[i]), body);
            Parse(FraudSchemas.SCORE_REQUEST, m, [if i == 0 then 10 else 18] + (payload + rest))
            == if sub.None? then None
               else Parse(FraudSchemas.SCORE_REQUEST, Message(m.values[i := Sub(sub)], m.unknown), rest)
  {
    Tables();
    FraudSchemas.ScoreRequestOk();
    var inner := if i == 0 then FraudSchemas.TRANSACTION else FraudSchemas.USER_FEATURES;
    NestedReads(FraudSchemas.SCORE_REQUEST, SCORE_REQUEST_WIRE, m, i, inner, payload, length, body, rest);
  }

  // ---------------------------------------------------------------------------------------------
  // Input that is not read
  // ---------------------------------------------------------------------------------------------

  /** Field number zero and the wire types 4, 6 and 7 are malformed wherever a field should begin. */
  lemma BadTagFails(schema: Schema, m: Message, tag: Bytes, rest: Bytes)
    requires |m.values| == |schema.fields|
    requires OneVarint(tag) && |tag| <= 5
    requires var t := Spell(tag, 128) % TWO_32; t / 8 == 0 || t % 8 in {4, 6, 7}
    requires SchemaOk(schema)
    ensures Parse(schema, m, tag + rest) == None
  {
    VarintSpells(tag, 5, rest);
    var t := Spell(tag, 128) % TWO_32;
    BadTagIsUnknown(schema, t);
    assert ReadUnknown(t, rest) == Fail;
    UnknownFails(schema, m, tag + rest, t, rest);
  }

  lemma BadTagIsUnknown(schema: Schema, t: nat)
    requires SchemaOk(schema) && (t / 8 == 0 || t % 8 in {4, 6, 7})
    ensures var i := Find(schema, t / 8); i < |schema.fields| ==> t % 256 != TagOf(schema.fields[i])
  {
    assert t % 256 % 8 == t % 8;
    var i := Find(schema, t / 8);
    if i < |schema.fields| { TagParts(schema.fields[i]); }
  }

  lemma UnknownFails(schema: Schema, m: Message, s: Bytes, tag: nat, rest: Bytes)
    requires s != [] && ReadTag(s) == Got(tag, rest) && ReadUnknown(tag, rest) == Fail
    requires !Matches(schema, m, tag, Find(schema, tag / 8))
    ensures Parse(schema, m, s) == None
  {
  }

  /** So is input in which no tag ends. */
  lemma NoTagFails(schema: Schema, m: Message, s: Bytes)
    requires s != [] && forall j :: 0 <= j < |s| && j < 5 ==> 128 <= s[j]
    ensures Parse(schema, m, s) == None
  {
    VarintFails(s, 5);
  }

  lemma OnlyTextIsUtf8(kind: Kind)
    requires FormatOf(kind) == Utf8
    ensures kind == StringKind
  {
  }

  lemma BadPayloadFails(schema: Schema, wire: seq<(byte, Format)>, m: Message, i: nat, rest: Bytes)
    requires SchemaOk(schema) && TableOf(schema, wire) && |m.values| == |wire| && i < |wire|
    requires ReadPayload(schema.fields[i].kind, m.values[i], rest) == Fail
    ensures Parse(schema, m, [wire[i].0] + rest) == None
  {
    KnownField(schema, wire, m, i, rest);
  }

  lemma BadTextPayload(current: Value, payload: Bytes, length: Bytes, body: Bytes, rest: Bytes)
    requires Delimited(payload, length, body) && !IsText(body)
    ensures ReadPayload(StringKind, current, payload + rest) == Fail
  {
    RecordReads(length, body, rest);
    ValidIffText(body);
  }

  /** And so is a text that is not UTF-8. */
  lemma BadTextFails(
      schema: Schema, wire: seq<(byte, Format)>, m: Message, i: nat,
      payload: Bytes, length: Bytes, body: Bytes, rest: Bytes)
    requires SchemaOk(schema) && TableOf(schema, wire) && |m.values| == |wire| && i < |wire| && wire[i].1 == Utf8
    requires Delimited(payload, length, body) && !IsText(body)
    ensures Parse(schema, m, [wire[i].0] + (payload + rest)) == None
  {
    OnlyTextIsUtf8(schema.fields[i].kind);
    BadTextPayload(m.values[i], payload, length, body, rest);
    BadPayloadFails(schema, wire, m, i, payload + rest);
  }

  // ---------------------------------------------------------------------------------------------
  // Writing
  // ---------------------------------------------------------------------------------------------

  lemma SignedWritten(n: int)
    requires -TWO_64 / 2 <= n < TWO_64 / 2
    ensures var s := SignedVarint(n);
            && OneVarint(s) && |s| <= 10 && SignedIn(n, Spell(s, 128), TWO_64)
            && (-TWO_32 / 2 <= n < TWO_32 / 2 ==> SignedIn(n, Spell(s, 128), TWO_32))
  {
    SignedRoundTrip(n);
    VarintWritten(ToUnsigned(n));
    VarintSizeExact(ToUnsigned(n));
    VarintLimits(ToUnsigned(n));
  }

  /** What is written for a value spells it, with lengths and numbers in as few bytes as they take. */
  lemma PayloadSpells(kind: Kind, v: Value)
    requires ValueOk(kind, v) && ValueFits(kind, v) && !kind.MessageKind?
    ensures Spells(FormatOf(kind), Payload(kind, v), v)
  {
    match kind
    case StringKind =>
      VarintWritten(|v.bytes|);
      VarintSizeExact(|v.bytes|);
      VarintLimits(|v.bytes|);
      ValidIffText(v.bytes);
      assert Delimited(Payload(kind, v), EncodeVarint(|v.bytes|), v.bytes);
    case DoubleKind => PowValues(); FixedWritten(v.n, 8);
    case FloatKind => PowValues(); FixedWritten(v.n, 4);
    case BoolKind => BoolWritten(v.n);
    case MessageKind(_) =>
    case _ => SignedWritten(v.n);
  }

  lemma BoolWritten(n: nat)
    requires n <= 1
    ensures OneVarint([n]) && Spell([n], 128) == n
  {
    SpellFront([n], 128);
    assert [n][1..] == [];
  }

  /** A field of the table is written as its tag and its value, and not at all when it is zero. */
  lemma FieldWritten(schema: Schema, wire: seq<(byte, Format)>, i: nat, v: Value)
    requires SchemaOk(schema) && TableOf(schema, wire) && i < |wire| && wire[i].1 != Record
    requires ValueOk(schema.fields[i].kind, v) && ValueFits(schema.fields[i].kind, v)
    ensures v == Number(0) || v == Text([]) ==> FieldBytes(schema.fields[i], v) == []
    ensures v != Number(0) && v != Text([]) ==>
              var payload := Payload(schema.fields[i].kind, v);
              FieldBytes(schema.fields[i], v) == [wire[i].0] + payload && Spells(wire[i].1, payload, v)
  {
    TagParts(schema.fields[i]);
    PayloadSpells(schema.fields[i].kind, v);
  }

  function Concat(parts: seq<Bytes>): Bytes {
    if parts == [] then [] else Concat(parts[..|parts| - 1]) + parts[|parts| - 1]
  }

  function Parts(schema: Schema, m: Message, n: nat): seq<Bytes>
    requires n <= |schema.fields| == |m.values|
  {
    seq(n, i requires 0 <= i < n => FieldBytes(schema.fields[i], m.values[i]))
  }

  lemma Regroup(a: Bytes, b: Bytes, c: Bytes, d: Bytes)
    ensures a + ((b + c) + d) == (a + b) + (c + d)
  {
  }

  /** The fields are written one after the other, in the order of the table, and the unknown ones last. */
  lemma {:induction false} WrittenInOrder(schema: Schema, m: Message, k: nat)
    requires k <= |schema.fields| == |m.values|
    ensures Serialize(schema, m) == Concat(Parts(schema, m, k)) + (FieldsFrom(schema, m, k) + UnknownBytes(m.unknown))
  {
    if k != 0 {
      WrittenInOrder(schema, m, k - 1);
      assert Parts(schema, m, k)[..k - 1] == Parts(schema, m, k - 1);
      var done, next, rest := Concat(Parts(schema, m, k - 1)), Parts(schema, m, k)[k - 1], FieldsFrom(schema, m, k);
      assert FieldsFrom(schema, m, k - 1) == next + rest;
      Regroup(done, next, rest, UnknownBytes(m.unknown));
      assert Concat(Parts(schema, m, k)) == done + next;
    }
  }

  lemma WrittenWhole(schema: Schema, m: Message)
    requires |schema.fields| == |m.values|
    ensures Serialize(schema, m) == Concat(Parts(schema, m, |schema.fields|)) + UnknownBytes(m.unknown)
  {
    var n := |schema.fields|;
    WrittenInOrder(schema, m, n);
    assert FieldsFrom(schema, m, n) + UnknownBytes(m.unknown) == UnknownBytes(m.unknown);
  }

  // ---------------------------------------------------------------------------------------------
  // What the pipeline reads of a transaction
  // ---------------------------------------------------------------------------------------------

  /** The user id is the text after tag 18. */
  lemma UserIdOnWire(tx: Message, payload: Bytes, v: Value)
    requires Typed(FraudSchemas.TRANSACTION, tx) && Spells(Utf8, payload, v)
    ensures var read := Parse(FraudSchemas.TRANSACTION, tx, [18] + payload);
            read.Some? && Typed(FraudSchemas.TRANSACTION, read.value) && Text(UserId(read.value)) == v
  {
    ReadsAlone(tx, 1, payload, v);
  }

  /** The country is the text after tag 50. */
  lemma CountryOnWire(tx: Message, payload: Bytes, v: Value)
    requires Typed(FraudSchemas.TRANSACTION, tx) && Spells(Utf8, payload, v)
    ensures var read := Parse(FraudSchemas.TRANSACTION, tx, [50] + payload);
            read.Some? && Typed(FraudSchemas.TRANSACTION, read.value) && Text(Country(read.value)) == v
  {
    ReadsAlone(tx, 5, payload, v);
  }

  /** The time is the number after tag 56. */
  lemma TimestampOnWire(tx: Message, payload: Bytes, v: Value)
    requires Typed(FraudSchemas.TRANSACTION, tx) && Spells(Int64, payload, v)
    ensures var read := Parse(FraudSchemas.TRANSACTION, tx, [56] + payload);
            read.Some? && Typed(FraudSchemas.TRANSACTION, read.value) && Number(Timestamp(read.value)) == v
  {
    ReadsAlone(tx, 6, payload, v);
  }

  /** The amount is what the eight bytes after tag 33 denote. */
  lemma AmountOnWire(d: Doubles, tx: Message, payload: Bytes)
    requires Typed(FraudSchemas.TRANSACTION, tx) && |payload| == 8
    ensures var read := Parse(FraudSchemas.TRANSACTION, tx, [33] + payload);
            read.Some? && Typed(FraudSchemas.TRANSACTION, read.value) && Amount(d, read.value) == d(Spell(payload, 256))
  {
    ReadsAlone(tx, 3, payload, Number(Spell(payload, 256)));
  }

  lemma ReadsAlone(tx: Message, i: nat, payload: Bytes, v: Value)
    requires Typed(FraudSchemas.TRANSACTION, tx) && i < 11
    ensures Spells(TRANSACTION_WIRE[i].1, payload, v) ==>
              var read := Parse(FraudSchemas.TRANSACTION, tx, [TRANSACTION_WIRE[i].0] + payload);
              && read == Some(Message(tx.values[i := v], tx.unknown))
              && Typed(FraudSchemas.TRANSACTION, read.value)
  {
    if Spells(TRANSACTION_WIRE[i].1, payload, v) {
      FraudSchemas.TransactionOk();
      TransactionReads(tx, i, payload, v, []);
      assert payload + [] == payload;
      ParseKeepsTyped(FraudSchemas.TRANSACTION, tx, [TRANSACTION_WIRE[i].0] + payload);
    }
  }
}
