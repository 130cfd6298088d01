/** The generated message classes: fields set and cleared in place, a parse loop that advances over
    its input, a serializer that appends to its target, a size pass that adds up and caches. */
module MessageObjects {
  import opened Common
  import opened Wire
  import opened Messages
  import opened CodecTheorems
  import opened MergeTheorems
  import opened ParseTheorems
  import opened SizeTheorems

  class MessageObject {
    const schema: Schema
    var values: seq<Value>
    var unknown: seq<Unknown>
    var cache: Cache

    function Contents(): Message
      reads this
    {
      Message(values, unknown)
    }

    ghost predicate Valid()
      reads this
    {
      |values| == |schema.fields|
    }

    constructor (schema: Schema)
      ensures Valid() && this.schema == schema && Contents() == Empty(schema)
    {
      this.schema := schema;
      values := Empty(schema).values;
      unknown := [];
      cache := Cache(0, []);
    }

    /** A nested message, or a fresh one, as an object of its own. */
    constructor Of(schema: Schema, m: Message)
      requires |m.values| == |schema.fields|
      ensures Valid() && this.schema == schema && Contents() == m
    {
      this.schema := schema;
      values := m.values;
      unknown := m.unknown;
      cache := Cache(0, []);
    }

    method Clear()
      modifies this`values, this`unknown
      ensures Valid() && Contents() == Empty(schema)
    {
      values := Empty(schema).values;
      unknown := [];
    }

    /** `_InternalParse`: on failure what was read so far stays, also in nested messages, and a string that
        is not UTF-8 among it. */
    method InternalParse(input: Bytes) returns (ok: bool)
      requires Valid() && Typed(schema, Contents())
      modifies this`values, this`unknown
      ensures Valid()
      ensures ok <==> Parse(schema, old(Contents()), input).Some?
      ensures ok ==> Some(Contents()) == Parse(schema, old(Contents()), input) && Typed(schema, Contents())
      decreases schema
    {
      ParseKeepsTyped(schema, Contents(), input);
      var ptr := input;
      while ptr != []
        invariant Valid() && Typed(schema, Contents())
        invariant Parse(schema, Contents(), ptr) == Parse(schema, old(Contents()), input)
        decreases |ptr|
      {
        ParseKeepsTyped(schema, Contents(), ptr);
        var read := ReadTag(ptr);
        if read.Fail? { return false; }
        var tag := read.value;
        ptr := read.rest;
        var i := Find(schema, tag / 8);
        if i < |schema.fields| && tag % 256 == TagOf(schema.fields[i]) {
          var parsed, rest := ParseField(i, ptr);
          if !parsed { return false; }
          ptr := rest;
        } else {
          if tag == 0 || tag % 8 == 4 { return false; }
          ReadUnknownOk(schema, Contents(), tag, ptr);
          var u := ReadUnknown(tag, ptr);
          if u.Fail? { return false; }
          UnknownsAppend(schema, unknown, [u.value]);
          unknown := unknown + [u.value];
          ptr := u.rest;
        }
      }
      return true;
    }

    /** The body of one `case`: a nested message is created when it is missing and parsed into. */
    method ParseField(i: nat, s: Bytes) returns (ok: bool, rest: Bytes)
      requires Valid() && Typed(schema, Contents()) && i < |schema.fields|
      modifies this`values
      ensures Valid() && (ok ==> Typed(schema, Contents()))
      ensures var r := ReadPayload(schema.fields[i].kind, old(values[i]), s);
              && (ok <==> r.Got?)
              && (ok ==> values == old(values)[i := r.value] && rest == r.rest && |rest| <= |s|)
              && (!ok ==> values == old(values)[i := values[i]])
      decreases schema, 0
    {
      var kind := schema.fields[i].kind;
      ReadPayloadTyped(kind, values[i], s);
      if kind.MessageKind? {
        NestedTyped(kind.schema, values[i]);
        var nested := new MessageObject.Of(kind.schema, Nested(kind.schema, values[i]));
        var record := ReadRecord(s);
        if record.Fail? {
          values := values[i := Sub(Some(nested.Contents()))];
          return false, s;
        }
        var parsed := nested.InternalParse(record.value);
        values := values[i := Sub(Some(nested.Contents()))];
        return parsed, if parsed then record.rest else s;
      }
      var scalar := ReadPayload(kind, values[i], s);
      if scalar.Fail? {
        if kind.StringKind? && ReadRecord(s).Got? {
          values := values[i := Text(ReadRecord(s).value)];
        }
        return false, s;
      }
      values := values[i := scalar.value];
      return true, scalar.rest;
    }

    /** `ParseFromString`: clear, then parse. */
    method ParseFromString(input: Bytes) returns (ok: bool)
      requires Valid()
      modifies this`values, this`unknown
      ensures Valid()
      ensures ok <==> Parse(schema, Empty(schema), input).Some?
      ensures ok ==> Some(Contents()) == Parse(schema, Empty(schema), input) && Typed(schema, Contents())
    {
      EmptyTyped(schema);
      Clear();
      ok := InternalParse(input);
    }

    /** `ByteSizeLong`: adds up the sizes in the order of the size pass and leaves every size it
        computed in the caches. */
    method ByteSizeLong() returns (total: nat)
      requires Valid() && SchemaOk(schema) && Typed(schema, Contents())
      modifies this`cache
      ensures total == ByteSize(schema, Contents())
      ensures cache == CacheOf(schema, Contents())
      decreases schema, 2
    {
      var subs;
      total, subs := FieldSizes();
      total := total + UnknownSize(unknown);
      cache := Cache(total, subs);
    }

    method FieldSizes() returns (total: nat, subs: seq<Cache>)
      requires Valid() && SchemaOk(schema) && Typed(schema, Contents())
      ensures total == SizesFrom(schema, Contents(), schema.passOrder, 0)
      ensures subs == CacheOf(schema, Contents()).subs
      decreases schema, 1
    {
      total := 0;
      subs := seq(|schema.fields|, _ => Cache(0, []));
      for k := 0 to |schema.passOrder|
        invariant total + SizesFrom(schema, Contents(), schema.passOrder, k)
               == SizesFrom(schema, Contents(), schema.passOrder, 0)
        invariant |subs| == |schema.fields|
        invariant forall j :: 0 <= j < k ==>
                    var i := schema.passOrder[j]; subs[i] == ValueCache(schema.fields[i].kind, values[i])
      {
        var i := schema.passOrder[k];
        var size, sub := FieldByteSize(i);
        total := total + size;
        subs := subs[i := sub];
      }
      forall i: nat | i < |subs| ensures subs[i] == ValueCache(schema.fields[i].kind, values[i]) {
        assert i in schema.passOrder;
      }
    }

    method FieldByteSize(i: nat) returns (size: nat, sub: Cache)
      requires Valid() && SchemaOk(schema) && Typed(schema, Contents()) && i < |schema.fields|
      ensures size == FieldSize(schema.fields[i], values[i])
      ensures sub == ValueCache(schema.fields[i].kind, values[i])
      decreases schema, 0
    {
      var f, v := schema.fields[i], values[i];
      assert ValueOk(f.kind, v);
      if v == Zero(f.kind) { return 0, Cache(0, []); }
      if f.kind.MessageKind? {
        assert Typed(f.kind.schema, v.msg.value);
        var nested := new MessageObject.Of(f.kind.schema, v.msg.value);
        var n := nested.ByteSizeLong();
        return 1 + RecordSize(n), nested.cache;
      }
      return 1 + PayloadSize(f.kind, v), Cache(0, []);
    }

    /** `_InternalSerialize`: appends the fields in order; the length of a nested message is taken from
        its cached size, whatever that is. */
    method InternalSerialize() returns (target: Bytes)
      requires Valid() && Typed(schema, Contents())
      ensures target == CachedBytes(schema, Contents(), cache)
      decreases schema
    {
      target := [];
      for i := 0 to |schema.fields|
        invariant target + CachedFieldsFrom(schema, Contents(), cache, i)
               == CachedFieldsFrom(schema, Contents(), cache, 0)
      {
        var written := WriteField(i);
        ghost var rest := CachedFieldsFrom(schema, Contents(), cache, i + 1);
        assert CachedFieldsFrom(schema, Contents(), cache, i) == written + rest;
        assert target + (written + rest) == (target + written) + rest;
        target := target + written;
      }
      target := target + UnknownBytes(unknown);
    }

    method WriteField(i: nat) returns (written: Bytes)
      requires Valid() && Typed(schema, Contents()) && i < |schema.fields|
      ensures written == CachedFieldBytes(schema.fields[i], values[i], SubCache(cache, i))
      decreases schema, 0
    {
      var f, v := schema.fields[i], values[i];
      assert ValueOk(f.kind, v);
      if v == Zero(f.kind) { return []; }
      if f.kind.MessageKind? {
        assert Typed(f.kind.schema, v.msg.value);
        var nested := new MessageObject.Of(f.kind.schema, v.msg.value);
        nested.cache := SubCache(cache, i);
        var body := nested.InternalSerialize();
        return EncodeVarint(TagOf(f)) + (EncodeVarint(nested.cache.size) + body);
      }
      return EncodeVarint(TagOf(f)) + Payload(f.kind, v);
    }

    /** `SerializeAsString`: the size pass, then the serializer. */
    method SerializeAsString() returns (output: Bytes)
      requires Valid() && SchemaOk(schema) && Typed(schema, Contents())
      modifies this`cache
      ensures output == Serialize(schema, Contents()) && |output| == cache.size
      ensures Fits(schema, Contents()) ==> Parse(schema, Empty(schema), output) == Some(Contents())
    {
      var size := ByteSizeLong();
      output := InternalSerialize();
      CachedSizesAreRight(schema, Contents());
      if Fits(schema, Contents()) { RoundTrip(schema, Contents()); }
    }

    /** `MergeImpl`: visits the fields in the order of the size pass. */
    method MergeFrom(from: MessageObject)
      requires from != this && from.schema == schema && SchemaOk(schema)
      requires Valid() && from.Valid() && Typed(schema, Contents()) && Typed(schema, from.Contents())
      modifies this`values, this`unknown
      ensures Valid() && Typed(schema, Contents())
      ensures Contents() == Merge(schema, old(Contents()), from.Contents())
      decreases schema
    {
      ghost var before := Contents();
      for k := 0 to |schema.passOrder|
        invariant |values| == |schema.fields| && unknown == before.unknown
        invariant forall i :: 0 <= i < |values| ==>
                    values[i] == if i in schema.passOrder[..k]
                                 then MergeValue(schema.fields[i].kind, before.values[i], from.values[i])
                                 else before.values[i]
      {
        var i := schema.passOrder[k];
        assert i !in schema.passOrder[..k];
        var merged := MergedField(i, values[i], from.values[i]);
        values := values[i := merged];
        assert schema.passOrder[..k + 1] == schema.passOrder[..k] + [i];
      }
      assert schema.passOrder[..|schema.passOrder|] == schema.passOrder;
      assert values == Merge(schema, before, from.Contents()).values;
      unknown := unknown + from.unknown;
      MergeTyped(schema, before, from.Contents());
    }

    /** One `if` of the merge: a nested message is created when it is missing and merged into. */
    method MergedField(i: nat, to: Value, from: Value) returns (v: Value)
      requires SchemaOk(schema) && i < |schema.fields|
      requires ValueOk(schema.fields[i].kind, to) && ValueOk(schema.fields[i].kind, from)
      ensures v == MergeValue(schema.fields[i].kind, to, from)
      decreases schema, 0
    {
      var kind := schema.fields[i].kind;
      if from == Zero(kind) { return to; }
      if kind.MessageKind? {
        NestedTyped(kind.schema, to);
        var target := new MessageObject.Of(kind.schema, Nested(kind.schema, to));
        var source := new MessageObject.Of(kind.schema, from.msg.value);
        target.MergeFrom(source);
        return Sub(Some(target.Contents()));
      }
      return from;
    }

    /** `CopyFrom`: nothing to do for the message itself, otherwise clear and merge. */
    method CopyFrom(from: MessageObject)
      requires from.schema == schema && SchemaOk(schema)
      requires Valid() && from.Valid() && Typed(schema, from.Contents())
      modifies this`values, this`unknown
      ensures Valid() && Contents() == old(from.Contents())
    {
      if from == this { return; }
      Clear();
      EmptyTyped(schema);
      MergeIntoEmpty(schema, from.Contents());
      MergeFrom(from);
    }
  }
}
