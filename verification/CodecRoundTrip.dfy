/** Decoding what was encoded. */
module CodecRoundTrip {
  import opened BinaryCodec
  import opened Bytes
  import opened Order
  import opened Schemas
  import opened Wrappers

  // ----- What the codec keeps of a value -----

  function RoundedAll(f: Floats, formats: seq<Format>, components: seq<Num>): seq<Num>
    requires |formats| == |components|
  {
    seq(|formats|, i requires 0 <= i < |formats| => Rounded(f, components[i], formats[i]))
  }

  /** The value with floats rounded to their format and without whatever its schema does not name. */
  function Kept(f: Floats, schema: Schema, value: Value): Value
    decreases schema, 1, 0
  {
    match schema
    case NumberSchema(format, _) =>
      if value.Of? && value.scalar.Number? then Of(Number(Rounded(f, value.scalar.num, format))) else value
    case ArraySchema(item, _, _) =>
      if value.Table? then Table(Pushed(KeptAll(f, schema, ArrayParts(item, value.items))), map[]) else value
    case ObjectSchema(fields) =>
      if !value.Table? then value
      else
        SortedAreKeys(fields);
        var keys := Sorted(fields.Keys);
        Table([], FieldsOf(keys, KeptAll(f, schema, ObjectParts(fields, keys, value))))
    case OptionalSchema(inner) => if value == Undefined then value else Kept(f, inner, value)
    case RecordSchema(item, _) =>
      if !value.Table? then value
      else
        SortedAreKeys(value.fields);
        Table([], Assigned(KeptEntries(f, schema, item, value.fields, Sorted(value.fields.Keys))))
    case TupleSchema(items) =>
      if value.Table? then Table(Pushed(KeptAll(f, schema, TupleParts(items, value.items))), map[]) else value
    case UnionSchema(members, _) =>
      (match FirstMember(members, value)
       case None => value
       case Some(index) => Kept(f, members[index], value))
    case PackedSchema(kind) =>
      if value.Userdata? && |value.components| == |Layout(kind)|
      then Userdata(kind, RoundedAll(f, Layout(kind), value.components)) else value
    case _ => value
  }

  function KeptAll(f: Floats, ghost parent: Schema, parts: seq<Part>): (values: seq<Value>)
    requires forall i :: 0 <= i < |parts| ==> parts[i].schema < parent
    ensures |values| == |parts|
    ensures forall i :: 0 <= i < |parts| ==> values[i] == Kept(f, parts[i].schema, parts[i].value)
    decreases parent, 0, |parts|
  {
    if parts == [] then [] else [Kept(f, parts[0].schema, parts[0].value)] + KeptAll(f, parent, parts[1..])
  }

  function KeptEntries(f: Floats, ghost parent: Schema, item: Schema, fields: map<Text, Value>, keys: seq<Text>):
      (entries: seq<Entry>)
    requires item < parent && forall i :: 0 <= i < |keys| ==> keys[i] in fields
    ensures |entries| == |keys|
    ensures forall i :: 0 <= i < |keys| ==> entries[i] == Entry(keys[i], Kept(f, item, fields[keys[i]]))
    decreases parent, 0, |keys|
  {
    if keys == [] then []
    else [Entry(keys[0], Kept(f, item, fields[keys[0]]))] + KeptEntries(f, parent, item, fields, keys[1..])
  }

  // ----- Reading what was written -----

  lemma TakeWritten(bytes: Text, rest: Text)
    ensures Take(bytes + rest, |bytes|) == Ok(Read(bytes, rest))
  {
    assert (bytes + rest)[..|bytes|] == bytes && (bytes + rest)[|bytes|..] == rest;
  }

  lemma Regroup(a: Text, b: Text, c: Text)
    ensures (a + b) + c == a + (b + c)
  {
  }

  lemma FromNothing<T>(values: seq<T>)
    ensures [] + values == values && values + [] == values
  {
  }

  lemma U32Written(n: nat, rest: Text)
    requires n < SIZE_LIMIT
    ensures ReadU32(U32Bytes(n) + rest) == Ok(Read(n, rest))
  {
    Powers();
    LittleIsExact(n, 4);
    TakeWritten(U32Bytes(n), rest);
  }

  lemma StringWritten(text: Text, rest: Text)
    requires |text| < SIZE_LIMIT
    ensures ReadString(StringBytes(text) + rest) == Ok(Read(text, rest))
  {
    assert StringBytes(text) + rest == U32Bytes(|text|) + (text + rest);
    U32Written(|text|, text + rest);
    TakeWritten(text, rest);
  }

  lemma NumberWritten(f: Floats, num: Num, format: Format, rest: Text)
    requires IsFloats(f) && Admits(format, num)
    ensures ReadNumber(f, format, NumberBytes(f, num, format) + rest) == Ok(Read(Rounded(f, num, format), rest))
  {
    CodeIsExact(f, num, format);
    LittleIsExact(Code(f, num, format), Width(format));
    TakeWritten(NumberBytes(f, num, format), rest);
  }

  lemma {:induction false} ComponentsWritten(f: Floats, formats: seq<Format>, components: seq<Num>, rest: Text,
                                             done: seq<Num>)
    requires IsFloats(f) && HasLayout(formats, components)
    ensures ReadComponents(f, formats, ComponentBytes(f, formats, components) + rest, done)
            == Ok(Read(done + RoundedAll(f, formats, components), rest))
    decreases |formats|
  {
    if formats == [] {
      assert [] + rest == rest && done + RoundedAll(f, formats, components) == done;
    } else {
      var first := NumberBytes(f, components[0], formats[0]);
      var more := ComponentBytes(f, formats[1..], components[1..]);
      Regroup(first, more, rest);
      NumberWritten(f, components[0], formats[0], more + rest);
      var next := done + [Rounded(f, components[0], formats[0])];
      ComponentsWritten(f, formats[1..], components[1..], rest, next);
      assert next + RoundedAll(f, formats[1..], components[1..]) == done + RoundedAll(f, formats, components);
    }
  }

  // ----- The round trip -----

  /** A value of the shape of a schema the codec supports; every value the schema validates is one. */
  ghost predicate Encodable(schema: Schema, value: Value) {
    Supported(schema) && Storable(value) && Fits(schema, value)
  }

  ghost predicate AllEncodable(parts: seq<Part>) {
    forall i :: 0 <= i < |parts| ==> Encodable(parts[i].schema, parts[i].value)
  }

  function SchemasOf(parts: seq<Part>): seq<Schema> {
    seq(|parts|, i requires 0 <= i < |parts| => parts[i].schema)
  }

  lemma SchemasTail(parts: seq<Part>)
    requires parts != []
    ensures SchemasOf(parts)[1..] == SchemasOf(parts[1..])
  {
  }

  lemma SchemasOfArray(item: Schema, items: seq<Value>)
    ensures SchemasOf(ArrayParts(item, items)) == Repeated(item, |items|)
  {
  }

  lemma SchemasOfTuple(schemas: seq<Schema>, items: seq<Value>)
    ensures SchemasOf(TupleParts(schemas, items)) == schemas
  {
  }

  lemma SchemasOfObject(fields: map<Text, Schema>, keys: seq<Text>, value: Value)
    requires value.Table? && forall i :: 0 <= i < |keys| ==> keys[i] in fields
    ensures SchemasOf(ObjectParts(fields, keys, value)) == SchemasFor(fields, keys)
  {
  }

  /** A value of the schema encodes, and its encoding, whatever follows it, decodes to what the codec keeps of it,
      leaving what follows. */
  lemma {:induction false} RoundTrip(f: Floats, schema: Schema, value: Value, rest: Text)
    requires IsFloats(f) && Encodable(schema, value)
    ensures Encode(f, schema, value).Ok?
    ensures Decode(f, schema, Encode(f, schema, value).value + rest) == Ok(Read(Kept(f, schema, value), rest))
    decreases schema, 2, 0
  {
    match schema {
      case StringSchema(_, _, _) => StringWritten(value.scalar.text, rest);
      case NumberSchema(format, _) => NumberWritten(f, value.scalar.num, format, rest);
      case BooleanSchema => TakeWritten([if value.scalar.flag then 1 else 0], rest);
      case LiteralSchema(_) => FromNothing(rest);
      case ArraySchema(item, _, _) => ArrayRoundTrip(f, schema, value, rest);
      case ObjectSchema(fields) => ObjectRoundTrip(f, schema, value, rest);
      case OptionalSchema(inner) =>
        if value == Undefined {
          TakeWritten([0], rest);
        } else {
          RoundTrip(f, inner, value, rest);
          var bytes := Encode(f, inner, value).value;
          Regroup([1], bytes, rest);
          TakeWritten([1], bytes + rest);
        }
      case RecordSchema(item, _) => RecordRoundTrip(f, schema, value, rest);
      case TupleSchema(items) =>
        var parts := TupleParts(items, value.items);
        RoundTripAll(f, schema, parts, rest, []);
        SchemasOfTuple(items, value.items);
        FromNothing(KeptAll(f, schema, parts));
      case EnumSchema(values) => U32Written(IndexOf(values, value).value, rest);
      case UnionSchema(members, _) => UnionRoundTrip(f, schema, value, rest);
      case PackedSchema(kind) =>
        ComponentsWritten(f, Layout(kind), value.components, rest, []);
        FromNothing(RoundedAll(f, Layout(kind), value.components));
    }
  }

  lemma ArrayRoundTrip(f: Floats, schema: Schema, value: Value, rest: Text)
    requires schema.ArraySchema? && IsFloats(f) && Encodable(schema, value)
    ensures Encode(f, schema, value).Ok?
    ensures Decode(f, schema, Encode(f, schema, value).value + rest) == Ok(Read(Kept(f, schema, value), rest))
    decreases schema, 1, 0
  {
    var parts := ArrayParts(schema.item, value.items);
    RoundTripAll(f, schema, parts, rest, []);
    SchemasOfArray(schema.item, value.items);
    var bytes := EncodeAll(f, schema, parts).value;
    Regroup(U32Bytes(|value.items|), bytes, rest);
    U32Written(|value.items|, bytes + rest);
    FromNothing(KeptAll(f, schema, parts));
  }

  lemma ObjectPartsEncodable(schema: Schema, keys: seq<Text>, value: Value)
    requires schema.ObjectSchema? && Encodable(schema, value)
             && forall i :: 0 <= i < |keys| ==> keys[i] in schema.fields
    ensures AllEncodable(ObjectParts(schema.fields, keys, value))
    ensures forall i :: 0 <= i < |keys| ==> ObjectParts(schema.fields, keys, value)[i].schema < schema
  {
    forall i | 0 <= i < |keys| ensures Encodable(schema.fields[keys[i]], Field(value, keys[i])) {
    }
  }

  lemma ObjectCodec(f: Floats, schema: Schema, value: Value, keys: seq<Text>, parts: seq<Part>, bytes: Text, rest: Text)
    requires schema.ObjectSchema? && value.Table? && keys == Sorted(schema.fields.Keys)
    requires (forall i :: 0 <= i < |keys| ==> keys[i] in schema.fields)
             && parts == ObjectParts(schema.fields, keys, value)
    requires forall i :: 0 <= i < |parts| ==> parts[i].schema < schema
    requires EncodeAll(f, schema, parts) == Ok(bytes)
    requires DecodeAll(f, schema, SchemasFor(schema.fields, keys), bytes + rest, [])
             == Ok(Read(KeptAll(f, schema, parts), rest))
    ensures Encode(f, schema, value) == Ok(bytes)
    ensures Decode(f, schema, bytes + rest) == Ok(Read(Kept(f, schema, value), rest))
  {
  }

  lemma ObjectRoundTrip(f: Floats, schema: Schema, value: Value, rest: Text)
    requires schema.ObjectSchema? && IsFloats(f) && Encodable(schema, value)
    ensures Encode(f, schema, value).Ok?
    ensures Decode(f, schema, Encode(f, schema, value).value + rest) == Ok(Read(Kept(f, schema, value), rest))
    decreases schema, 1, 0
  {
    SortedAreKeys(schema.fields);
    var keys := Sorted(schema.fields.Keys);
    var parts := ObjectParts(schema.fields, keys, value);
    ObjectPartsEncodable(schema, keys, value);
    RoundTripAll(f, schema, parts, rest, []);
    SchemasOfObject(schema.fields, keys, value);
    FromNothing(KeptAll(f, schema, parts));
    ObjectCodec(f, schema, value, keys, parts, EncodeAll(f, schema, parts).value, rest);
  }

  lemma RecordCodec(f: Floats, schema: Schema, value: Value, keys: seq<Text>, bytes: Text, kept: seq<Entry>, rest: Text)
    requires schema.RecordSchema? && value.Table? && value.items == [] && keys == Sorted(value.fields.Keys)
             && |keys| < SIZE_LIMIT
    requires forall i :: 0 <= i < |keys| ==> keys[i] in value.fields
    requires EncodeEntries(f, schema, schema.item, value.fields, keys) == Ok(bytes)
    requires DecodeEntries(f, schema, schema.item, |keys|, bytes + rest, []) == Ok(Read(kept, rest))
    ensures Encode(f, schema, value) == Ok(U32Bytes(|keys|) + bytes)
    ensures Decode(f, schema, (U32Bytes(|keys|) + bytes) + rest) == Ok(Read(Table([], Assigned(kept)), rest))
  {
    Regroup(U32Bytes(|keys|), bytes, rest);
    U32Written(|keys|, bytes + rest);
  }

  lemma EntriesOfRecord(schema: Schema, value: Value)
    requires schema.RecordSchema? && Encodable(schema, value)
    ensures EntriesEncodable(schema.item, value.fields)
  {
    forall key | key in value.fields ensures EntryEncodable(schema.item, value.fields, key) {
    }
  }

  lemma EntriesWritten(f: Floats, parent: Schema, item: Schema, fields: map<Text, Value>, keys: seq<Text>, rest: Text)
    requires IsFloats(f) && item < parent && (forall i :: 0 <= i < |keys| ==> keys[i] in fields)
             && EntriesEncodable(item, fields)
    ensures EncodeEntries(f, parent, item, fields, keys).Ok?
    ensures DecodeEntries(f, parent, item, |keys|, EncodeEntries(f, parent, item, fields, keys).value + rest, [])
            == Ok(Read(KeptEntries(f, parent, item, fields, keys), rest))
    decreases parent, 0, |keys| + 1
  {
    RoundTripEntries(f, parent, item, fields, keys, rest, []);
    FromNothing(KeptEntries(f, parent, item, fields, keys));
  }

  lemma RecordRoundTrip(f: Floats, schema: Schema, value: Value, rest: Text)
    requires schema.RecordSchema? && IsFloats(f) && Encodable(schema, value)
    ensures Encode(f, schema, value).Ok?
    ensures Decode(f, schema, Encode(f, schema, value).value + rest) == Ok(Read(Kept(f, schema, value), rest))
    decreases schema, 1, 0
  {
    SortedAreKeys(value.fields);
    SortedSize(value.fields.Keys);
    var keys := Sorted(value.fields.Keys);
    EntriesOfRecord(schema, value);
    EntriesWritten(f, schema, schema.item, value.fields, keys, rest);
    var bytes := EncodeEntries(f, schema, schema.item, value.fields, keys).value;
    RecordCodec(f, schema, value, keys, bytes, KeptEntries(f, schema, schema.item, value.fields, keys), rest);
  }

  lemma {:induction false} SortedSize(s: set<Text>)
    ensures |Sorted(s)| == |s|
    decreases |s|
  {
    if s != {} {
      SortedSize(s - {Least(s)});
    }
  }

  lemma UnionRoundTrip(f: Floats, schema: Schema, value: Value, rest: Text)
    requires schema.UnionSchema? && IsFloats(f) && Encodable(schema, value)
    ensures Encode(f, schema, value).Ok?
    ensures Decode(f, schema, Encode(f, schema, value).value + rest) == Ok(Read(Kept(f, schema, value), rest))
    decreases schema, 1, 0
  {
    var index := FirstMember(schema.members, value).value;
    RoundTrip(f, schema.members[index], value, rest);
    var bytes := Encode(f, schema.members[index], value).value;
    Regroup(U32Bytes(index), bytes, rest);
    U32Written(index, bytes + rest);
  }

  lemma EncodeOne(f: Floats, parent: Schema, parts: seq<Part>, first: Text, more: Text)
    requires (forall i :: 0 <= i < |parts| ==> parts[i].schema < parent) && parts != []
    requires Encode(f, parts[0].schema, parts[0].value) == Ok(first) && EncodeAll(f, parent, parts[1..]) == Ok(more)
    ensures EncodeAll(f, parent, parts) == Ok(first + more)
  {
  }

  lemma KeepOne(f: Floats, parent: Schema, parts: seq<Part>, done: seq<Value>, value: Value)
    requires (forall i :: 0 <= i < |parts| ==> parts[i].schema < parent) && parts != []
    requires value == Kept(f, parts[0].schema, parts[0].value)
    ensures done + KeptAll(f, parent, parts) == (done + [value]) + KeptAll(f, parent, parts[1..])
  {
  }

  lemma {:induction false} RoundTripAll(f: Floats, parent: Schema, parts: seq<Part>, rest: Text, done: seq<Value>)
    requires IsFloats(f) && (forall i :: 0 <= i < |parts| ==> parts[i].schema < parent) && AllEncodable(parts)
    ensures EncodeAll(f, parent, parts).Ok?
    ensures DecodeAll(f, parent, SchemasOf(parts), EncodeAll(f, parent, parts).value + rest, done)
            == Ok(Read(done + KeptAll(f, parent, parts), rest))
    decreases parent, 0, |parts|
  {
    if parts == [] {
      FromNothing(rest);
      FromNothing(done);
    } else {
      var kept := Kept(f, parts[0].schema, parts[0].value);
      RoundTripAll(f, parent, parts[1..], rest, done + [kept]);
      var more := EncodeAll(f, parent, parts[1..]).value;
      RoundTrip(f, parts[0].schema, parts[0].value, more + rest);
      var first := Encode(f, parts[0].schema, parts[0].value).value;
      EncodeOne(f, parent, parts, first, more);
      DecodeFirst(f, parent, SchemasOf(parts), first + (more + rest), done, kept, more + rest);
      KeepOne(f, parent, parts, done, kept);
      Regroup(first, more, rest);
      SchemasTail(parts);
    }
  }

  ghost predicate EntryEncodable(item: Schema, fields: map<Text, Value>, key: Text)
    requires key in fields
  {
    |key| < SIZE_LIMIT && Encodable(item, fields[key])
  }

  ghost predicate EntriesEncodable(item: Schema, fields: map<Text, Value>) {
    forall key {:trigger EntryEncodable(item, fields, key)} :: key in fields ==> EntryEncodable(item, fields, key)
  }

  lemma EncodeFirstEntry(f: Floats, parent: Schema, item: Schema, fields: map<Text, Value>, keys: seq<Text>,
                         first: Text, more: Text)
    requires item < parent && (forall i :: 0 <= i < |keys| ==> keys[i] in fields) && keys != []
    requires EncodeEntry(f, item, keys[0], fields[keys[0]]) == Ok(first)
             && EncodeEntries(f, parent, item, fields, keys[1..]) == Ok(more)
    ensures EncodeEntries(f, parent, item, fields, keys) == Ok(first + more)
  {
  }

  lemma EntryRoundTrip(f: Floats, item: Schema, key: Text, value: Value, rest: Text)
    requires IsFloats(f) && |key| < SIZE_LIMIT && Encodable(item, value)
    ensures EncodeEntry(f, item, key, value).Ok?
    ensures DecodeEntry(f, item, EncodeEntry(f, item, key, value).value + rest)
            == Ok(Read(Entry(key, Kept(f, item, value)), rest))
    decreases item, 3, 0
  {
    RoundTrip(f, item, value, rest);
    var bytes := Encode(f, item, value).value;
    Regroup(StringBytes(key), bytes, rest);
    StringWritten(key, bytes + rest);
  }

  lemma KeepEntry(f: Floats, parent: Schema, item: Schema, fields: map<Text, Value>, keys: seq<Text>, done: seq<Entry>,
                  kept: Entry)
    requires item < parent && (forall i :: 0 <= i < |keys| ==> keys[i] in fields) && keys != []
    requires kept == Entry(keys[0], Kept(f, item, fields[keys[0]]))
    ensures done + KeptEntries(f, parent, item, fields, keys)
            == (done + [kept]) + KeptEntries(f, parent, item, fields, keys[1..])
  {
  }

  lemma {:induction false} RoundTripEntries(f: Floats, parent: Schema, item: Schema, fields: map<Text, Value>,
                                            keys: seq<Text>,
                                            rest: Text, done: seq<Entry>)
    requires IsFloats(f) && item < parent && (forall i :: 0 <= i < |keys| ==> keys[i] in fields)
             && EntriesEncodable(item, fields)
    ensures EncodeEntries(f, parent, item, fields, keys).Ok?
    ensures DecodeEntries(f, parent, item, |keys|, EncodeEntries(f, parent, item, fields, keys).value + rest, done)
            == Ok(Read(done + KeptEntries(f, parent, item, fields, keys), rest))
    decreases parent, 0, |keys|
  {
    if keys == [] {
      FromNothing(rest);
      FromNothing(done);
      NoEntries(f, parent, item, rest, done);
    } else {
      var kept := Entry(keys[0], Kept(f, item, fields[keys[0]]));
      assert EntryEncodable(item, fields, keys[0]);
      RoundTripEntries(f, parent, item, fields, keys[1..], rest, done + [kept]);
      var more := EncodeEntries(f, parent, item, fields, keys[1..]).value;
      EntryRoundTrip(f, item, keys[0], fields[keys[0]], more + rest);
      var first := EncodeEntry(f, item, keys[0], fields[keys[0]]).value;
      EncodeFirstEntry(f, parent, item, fields, keys, first, more);
      EntryFirst(f, parent, item, |keys|, first + (more + rest), done, kept, more + rest);
      KeepEntry(f, parent, item, fields, keys, done, kept);
      Regroup(first, more, rest);
    }
  }
}
