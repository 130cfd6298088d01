/** Messages of generated/fraud.pb.cc as values, and what its parser, serializer, size pass and merge
    compute on them.  The generated code repeats one scheme for every field of every message; here
    the scheme is written once, over a table of fields, and `FraudSchemas` holds the four tables. */
module Messages {
  import opened Common
  import opened Wire

  /** Doubles and floats are raw words, since the code compares their bits with zero. */
  datatype Kind =
    | StringKind
    | Int64Kind
    | Int32Kind
    | EnumKind
    | BoolKind
    | DoubleKind
    | FloatKind
    | MessageKind(schema: Schema)

  datatype Field = Field(number: nat, kind: Kind)

  /** The fields in the order of the serializer; `passOrder` is the order in which the size pass and
      the merge visit them. */
  datatype Schema = Schema(fields: seq<Field>, passOrder: seq<nat>)

  datatype Value = Text(bytes: Bytes) | Number(n: int) | Sub(msg: Option<Message>)

  datatype Unknown =
    | UnknownVarint(number: nat, n: nat)
    | UnknownFixed64(number: nat, n: nat)
    | UnknownRecord(number: nat, body: Bytes)
    | UnknownFixed32(number: nat, n: nat)

  /** The fields of a message, one value for each field of its schema, and what was not recognised. */
  datatype Message = Message(values: seq<Value>, unknown: seq<Unknown>)

  // ---------------------------------------------------------------------------------------------
  // Tags and defaults
  // ---------------------------------------------------------------------------------------------

  function WireType(kind: Kind): nat {
    match kind
    case StringKind => 2
    case MessageKind(_) => 2
    case DoubleKind => 1
    case FloatKind => 5
    case _ => 0
  }

  function TagOf(f: Field): nat {
    f.number * 8 + WireType(f.kind)
  }

  function UnknownTag(u: Unknown): nat {
    u.number * 8 + match u
                   case UnknownVarint(_, _) => 0
                   case UnknownFixed64(_, _) => 1
                   case UnknownRecord(_, _) => 2
                   case UnknownFixed32(_, _) => 5
  }

  function Zero(kind: Kind): Value {
    match kind
    case StringKind => Text([])
    case MessageKind(_) => Sub(None)
    case _ => Number(0)
  }

  /** A message as constructed, or after `Clear`. */
  function Empty(schema: Schema): Message {
    Message(seq(|schema.fields|, i requires 0 <= i < |schema.fields| => Zero(schema.fields[i].kind)), [])
  }

  /** The message a nested parse or merge goes into: a new one if there is none yet. */
  function Nested(schema: Schema, v: Value): Message {
    if v.Sub? && v.msg.Some? then v.msg.value else Empty(schema)
  }

  /** The index of the field with a given number, or the number of fields. */
  function Find(schema: Schema, number: nat, from: nat := 0): (i: nat)
    requires from <= |schema.fields|
    ensures from <= i <= |schema.fields|
    ensures i < |schema.fields| ==> schema.fields[i].number == number
    ensures forall j :: from <= j < i ==> schema.fields[j].number != number
    decreases |schema.fields| - from
  {
    if from == |schema.fields| || schema.fields[from].number == number then from
    else Find(schema, number, from + 1)
  }

  // ---------------------------------------------------------------------------------------------
  // Well-formed schemas and messages
  // ---------------------------------------------------------------------------------------------

  ghost predicate Permutation(order: seq<nat>, n: nat) {
    && |order| == n
    && (forall k :: 0 <= k < |order| ==> order[k] < n)
    && (forall i :: 0 <= i < n ==> i in order)
    && (forall j, k :: 0 <= j < k < |order| ==> order[j] != order[k])
  }

  /** Tags take one byte, no number is used twice, and the second order is a permutation. */
  ghost predicate SchemaOk(schema: Schema) {
    && (forall i :: 0 <= i < |schema.fields| ==>
          && 1 <= schema.fields[i].number <= 15
          && (schema.fields[i].kind.MessageKind? ==> SchemaOk(schema.fields[i].kind.schema)))
    && (forall i, j :: 0 <= i < j < |schema.fields| ==> schema.fields[i].number != schema.fields[j].number)
    && Permutation(schema.passOrder, |schema.fields|)
  }

  /** A value of the field's C++ type; strings are valid UTF-8. */
  predicate ValueOk(kind: Kind, v: Value)
    decreases kind
  {
    match kind
    case StringKind => v.Text? && ValidUtf8(v.bytes)
    case Int64Kind => v.Number? && -TWO_64 / 2 <= v.n < TWO_64 / 2
    case Int32Kind => v.Number? && -TWO_32 / 2 <= v.n < TWO_32 / 2
    case EnumKind => v.Number? && -TWO_32 / 2 <= v.n < TWO_32 / 2
    case BoolKind => v.Number? && 0 <= v.n <= 1
    case DoubleKind => v.Number? && 0 <= v.n < TWO_64
    case FloatKind => v.Number? && 0 <= v.n < TWO_32
    case MessageKind(schema) => v.Sub? && (v.msg.Some? ==> Typed(schema, v.msg.value))
  }

  /** An unknown field is one the message does not declare under that number and wire type. */
  predicate UnknownOk(schema: Schema, u: Unknown) {
    && 1 <= u.number < TWO_32 / 8
    && (var i := Find(schema, u.number); i < |schema.fields| ==> TagOf(schema.fields[i]) != UnknownTag(u) % 256)
    && match u
       case UnknownVarint(_, n) => n < TWO_64
       case UnknownFixed64(_, n) => n < TWO_64
       case UnknownRecord(_, body) => |body| <= INT_MAX
       case UnknownFixed32(_, n) => n < TWO_32
  }

  predicate UnknownsOk(schema: Schema, us: seq<Unknown>) {
    us == [] || (UnknownOk(schema, us[0]) && UnknownsOk(schema, us[1..]))
  }

  predicate Typed(schema: Schema, m: Message)
    decreases schema
  {
    && |m.values| == |schema.fields|
    && (forall i :: 0 <= i < |m.values| ==> ValueOk(schema.fields[i].kind, m.values[i]))
    && UnknownsOk(schema, m.unknown)
  }

  // ---------------------------------------------------------------------------------------------
  // Serialization
  // ---------------------------------------------------------------------------------------------

  function Payload(kind: Kind, v: Value): Bytes
    decreases kind, 0
  {
    match (kind, v)
    case (StringKind, Text(s)) => EncodeRecord(s)
    case (Int64Kind, Number(n)) => SignedVarint(n)
    case (Int32Kind, Number(n)) => SignedVarint(n)
    case (EnumKind, Number(n)) => SignedVarint(n)
    case (BoolKind, Number(n)) => [if n == 0 then 0 else 1]
    case (DoubleKind, Number(n)) => if n < 0 then [] else EncodeFixed(n, 8)
    case (FloatKind, Number(n)) => if n < 0 then [] else EncodeFixed(n, 4)
    case (MessageKind(schema), Sub(Some(m))) => EncodeRecord(Serialize(schema, m))
    case _ => []
  }

  function SignedVarint(n: int): Bytes {
    if ToUnsigned(n) < 0 then [] else EncodeVarint(ToUnsigned(n))
  }

  /** A field with its zero value is not written. */
  function FieldBytes(f: Field, v: Value): Bytes
    decreases f, 0
  {
    if v == Zero(f.kind) then [] else EncodeVarint(TagOf(f)) + Payload(f.kind, v)
  }

  function FieldsFrom(schema: Schema, m: Message, i: nat): Bytes
    decreases schema, 0, |schema.fields| - i
  {
    if i < |schema.fields| && i < |m.values| then
      FieldBytes(schema.fields[i], m.values[i]) + FieldsFrom(schema, m, i + 1)
    else []
  }

  function UnknownPayload(u: Unknown): Bytes {
    match u
    case UnknownVarint(_, n) => EncodeVarint(n)
    case UnknownFixed64(_, n) => EncodeFixed(n, 8)
    case UnknownRecord(_, body) => EncodeRecord(body)
    case UnknownFixed32(_, n) => EncodeFixed(n, 4)
  }

  function UnknownBytes(us: seq<Unknown>): Bytes {
    if us == [] then []
    else EncodeVarint(UnknownTag(us[0])) + UnknownPayload(us[0]) + UnknownBytes(us[1..])
  }

  /** The known fields in order, then the unknown ones. */
  function Serialize(schema: Schema, m: Message): Bytes
    decreases schema, 1
  {
    FieldsFrom(schema, m, 0) + UnknownBytes(m.unknown)
  }

  // ---------------------------------------------------------------------------------------------
  // Parsing
  // ---------------------------------------------------------------------------------------------

  /** Reads the payload of a known field whose present value is `current`: a nested message is parsed into
      the one that is there, anything else is replaced. */
  function ReadPayload(kind: Kind, current: Value, s: Bytes): (r: Read<Value>)
    ensures r.Got? ==> |r.rest| <= |s|
    decreases kind, 0, 0
  {
    match kind
    case StringKind =>
      (match ReadRecord(s)
       case Fail => Fail
       case Got(body, rest) => if ValidUtf8(body) then Got(Text(body), rest) else Fail)
    case Int64Kind =>
      (match ReadVarint64(s) case Fail => Fail case Got(n, rest) => Got(Number(ToSigned64(n)), rest))
    case Int32Kind =>
      (match ReadVarint32(s) case Fail => Fail case Got(n, rest) => Got(Number(ToSigned32(n)), rest))
    case EnumKind =>
      (match ReadVarint64(s) case Fail => Fail case Got(n, rest) => Got(Number(ToSigned32(n)), rest))
    case BoolKind =>
      (match ReadVarint64(s) case Fail => Fail case Got(n, rest) => Got(Number(if n == 0 then 0 else 1), rest))
    case DoubleKind =>
      (match DecodeFixed(s, 8) case Fail => Fail case Got(n, rest) => Got(Number(n), rest))
    case FloatKind =>
      (match DecodeFixed(s, 4) case Fail => Fail case Got(n, rest) => Got(Number(n), rest))
    case MessageKind(schema) =>
      (match ReadRecord(s)
       case Fail => Fail
       case Got(body, rest) =>
         match Parse(schema, Nested(schema, current), body)
         case None => Fail
         case Some(m) => Got(Sub(Some(m)), rest))
  }

  /** Reads an unknown field, kept as it is.  Number 0 and wire types other than 0, 1, 2 and 5 are
      malformed (groups, wire types 3 and 4, are not part of this model). */
  function ReadUnknown(tag: nat, s: Bytes): (r: Read<Unknown>)
    ensures r.Got? ==> |r.rest| <= |s|
  {
    var number := tag / 8;
    if number == 0 then Fail
    else match tag % 8
         case 0 => (match ReadVarint64(s) case Fail => Fail case Got(n, rest) => Got(UnknownVarint(number, n), rest))
         case 1 => (match DecodeFixed(s, 8) case Fail => Fail case Got(n, rest) => Got(UnknownFixed64(number, n), rest))
         case 2 =>
           (match ReadRecord(s) case Fail => Fail case Got(body, rest) => Got(UnknownRecord(number, body), rest))
         case 5 => (match DecodeFixed(s, 4) case Fail => Fail case Got(n, rest) => Got(UnknownFixed32(number, n), rest))
         case _ => Fail
  }

  /** Whether a tag is the one under which the message declares the field at index `i`. */
  predicate Matches(schema: Schema, m: Message, tag: nat, i: nat) {
    i < |schema.fields| && i < |m.values| && tag % 256 == TagOf(schema.fields[i])
  }

  /** Parses `s` into the message `m`; nothing is returned when the input is malformed. */
  function Parse(schema: Schema, m: Message, s: Bytes): Option<Message>
    decreases schema, 0, |s|
  {
    if s == [] then Some(m)
    else match ReadTag(s)
         case Fail => None
         case Got(tag, rest) =>
           var i := Find(schema, tag / 8);
           if Matches(schema, m, tag, i) then
             match ReadPayload(schema.fields[i].kind, m.values[i], rest)
             case Fail => None
             case Got(v, rest') => Parse(schema, m.(values := m.values[i := v]), rest')
           else if tag == 0 || tag % 8 == 4 then None
           else match ReadUnknown(tag, rest)
                case Fail => None
                case Got(u, rest') => Parse(schema, m.(unknown := m.unknown + [u]), rest')
  }

  // ---------------------------------------------------------------------------------------------
  // Merging
  // ---------------------------------------------------------------------------------------------

  /** A zero in the source leaves the target alone; a nested message is merged into the one there. */
  function MergeValue(kind: Kind, to: Value, from: Value): Value
    decreases kind, 0
  {
    if from == Zero(kind) then to
    else if kind.MessageKind? && from.Sub? && from.msg.Some? then
      Sub(Some(Merge(kind.schema, Nested(kind.schema, to), from.msg.value)))
    else from
  }

  function Merge(schema: Schema, to: Message, from: Message): Message
    decreases schema, 0
  {
    Message(
      seq(|to.values|, i requires 0 <= i < |to.values| =>
        if i < |schema.fields| && i < |from.values|
        then MergeValue(schema.fields[i].kind, to.values[i], from.values[i])
        else to.values[i]),
      to.unknown + from.unknown)
  }

  // ---------------------------------------------------------------------------------------------
  // Sizes
  // ---------------------------------------------------------------------------------------------

  function RecordSize(n: nat): nat {
    VarintSize(n) + n
  }

  function PayloadSize(kind: Kind, v: Value): nat
    decreases kind, 0
  {
    match (kind, v)
    case (StringKind, Text(s)) => RecordSize(|s|)
    case (Int64Kind, Number(n)) => SignedSize(n)
    case (Int32Kind, Number(n)) => SignedSize(n)
    case (EnumKind, Number(n)) => SignedSize(n)
    case (BoolKind, Number(_)) => 1
    case (DoubleKind, Number(n)) => if n < 0 then 0 else 8
    case (FloatKind, Number(n)) => if n < 0 then 0 else 4
    case (MessageKind(schema), Sub(Some(m))) => RecordSize(ByteSize(schema, m))
    case _ => 0
  }

  function SignedSize(n: int): nat {
    if ToUnsigned(n) < 0 then 0 else VarintSize(ToUnsigned(n))
  }

  function FieldSize(f: Field, v: Value): nat
    decreases f, 0
  {
    if v == Zero(f.kind) then 0 else 1 + PayloadSize(f.kind, v)
  }

  /** The sizes of the fields named by `order`, from its `k`-th entry on. */
  function SizesFrom(schema: Schema, m: Message, order: seq<nat>, k: nat): nat
    decreases schema, 0, |order| - k
  {
    if k < |order| then
      (if order[k] < |schema.fields| && order[k] < |m.values|
       then FieldSize(schema.fields[order[k]], m.values[order[k]]) else 0)
      + SizesFrom(schema, m, order, k + 1)
    else 0
  }

  function UnknownSize(us: seq<Unknown>): nat {
    if us == [] then 0
    else VarintSize(UnknownTag(us[0]))
         + (match us[0]
            case UnknownVarint(_, n) => VarintSize(n)
            case UnknownFixed64(_, _) => 8
            case UnknownRecord(_, body) => RecordSize(|body|)
            case UnknownFixed32(_, _) => 4)
         + UnknownSize(us[1..])
  }

  /** `ByteSizeLong`: the same fields in the order of the size pass. */
  function ByteSize(schema: Schema, m: Message): nat
    decreases schema, 1
  {
    SizesFrom(schema, m, schema.passOrder, 0) + UnknownSize(m.unknown)
  }
}
