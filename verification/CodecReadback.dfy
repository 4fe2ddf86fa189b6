/** Encoding again what was decoded. */
module CodecReadback {
  import opened BinaryCodec
  import opened Bytes
  import opened CodecExact
  import opened CodecRoundTrip
  import opened Order
  import opened Schemas
  import opened Wrappers

  predicate UnionFree(schema: Schema) {
    match schema
    case ArraySchema(item, _, _) => UnionFree(item)
    case ObjectSchema(fields) => forall key :: key in fields ==> UnionFree(fields[key])
    case OptionalSchema(inner) => UnionFree(inner)
    case RecordSchema(item, _) => UnionFree(item)
    case TupleSchema(items) => forall i :: 0 <= i < |items| ==> UnionFree(items[i])
    case UnionSchema(_, _) => false
    case _ => true
  }

  /** A schema that may decode to nothing. */
  predicate Nullable(schema: Schema) {
    match schema
    case OptionalSchema(_) => true
    case UnionSchema(members, _) => exists i :: 0 <= i < |members| && Nullable(members[i])
    case _ => false
  }

  /** No tuple item may be left out. */
  predicate TuplesFull(schema: Schema) {
    match schema
    case ArraySchema(item, _, _) => TuplesFull(item)
    case ObjectSchema(fields) => forall key :: key in fields ==> TuplesFull(fields[key])
    case OptionalSchema(inner) => TuplesFull(inner)
    case RecordSchema(item, _) => TuplesFull(item)
    case TupleSchema(items) => forall i :: 0 <= i < |items| ==> TuplesFull(items[i]) && !Nullable(items[i])
    case UnionSchema(members, _) => forall i :: 0 <= i < |members| ==> TuplesFull(members[i])
    case _ => true
  }

  /** Of the schema's shape with nothing beyond it, in a union by some member, whichever would validate it. */
  predicate Described(f: Floats, schema: Schema, value: Value) {
    match schema
    case StringSchema(_, _, _) => value.Of? && value.scalar.Str?
    case NumberSchema(format, _) =>
      value.Of? && value.scalar.Number? && Admits(format, value.scalar.num)
        && Rounded(f, value.scalar.num, format) == value.scalar.num
    case BooleanSchema => value.Of? && value.scalar.Boolean?
    case LiteralSchema(literal) => value == Of(literal)
    case ArraySchema(item, _, _) =>
      value.Table? && value.fields == map[] && forall i :: 0 <= i < |value.items| ==> Described(f, item, value.items[i])
    case ObjectSchema(fields) =>
      && value.Table? && value.items == [] && (forall key :: key in value.fields ==> key in fields)
      && forall key :: key in fields ==> Described(f, fields[key], Field(value, key))
    case OptionalSchema(inner) => value == Undefined || Described(f, inner, value)
    case RecordSchema(item, _) =>
      value.Table? && value.items == [] && forall key :: key in value.fields ==> Described(f, item, value.fields[key])
    case TupleSchema(items) =>
      && value.Table? && value.fields == map[] && |value.items| == |items|
      && forall i :: 0 <= i < |items| ==> Described(f, items[i], Item(value.items, i))
    case EnumSchema(values) => value.Of? && value.scalar in values
    case UnionSchema(members, _) => exists i :: 0 <= i < |members| && Described(f, members[i], value)
    case PackedSchema(kind) => value.Userdata? && value.kind == kind && ExactNumbers(f, Layout(kind), value.components)
    case DefaultSchema(_) | InstanceSchema => false
  }

  /** What a schema can decode to. */
  ghost predicate Good(f: Floats, schema: Schema, value: Value) {
    Supported(schema) && Storable(value) && Described(f, schema, value) && (value == Undefined ==> Nullable(schema))
  }

  ghost predicate AllGood(f: Floats, schemas: seq<Schema>, values: seq<Value>) {
    |values| == |schemas| && forall i :: 0 <= i < |schemas| ==> Good(f, schemas[i], values[i])
  }

  ghost predicate EntryGood(f: Floats, item: Schema, entry: Entry) {
    |entry.key| < SIZE_LIMIT && Good(f, item, entry.value)
  }

  ghost predicate EntriesGood(f: Floats, item: Schema, entries: seq<Entry>) {
    forall i {:trigger EntryGood(f, item, entries[i])} :: 0 <= i < |entries| ==> EntryGood(f, item, entries[i])
  }

  lemma OneMoreEntry(f: Floats, item: Schema, entries: seq<Entry>, entry: Entry)
    requires EntriesGood(f, item, entries) && EntryGood(f, item, entry)
    ensures EntriesGood(f, item, entries + [entry])
  {
    var more := entries + [entry];
    forall i | 0 <= i < |more| ensures EntryGood(f, item, more[i]) {
      if i < |entries| {
        assert EntryGood(f, item, entries[i]);
      }
    }
  }

  // ----- Parts of a message -----

  lemma U32IsSmall(bytes: Text)
    requires ReadU32(bytes).Ok?
    ensures ReadU32(bytes).value.value < SIZE_LIMIT
  {
    Powers();
    FromLittleIsSmall(bytes[..4]);
  }

  lemma StringIsShort(bytes: Text)
    requires ReadString(bytes).Ok?
    ensures |ReadString(bytes).value.value| < SIZE_LIMIT
  {
    U32IsSmall(bytes);
  }

  lemma NumberIsAdmitted(f: Floats, format: Format, bytes: Text)
    requires IsFloats(f) && ReadNumber(f, format, bytes).Ok?
    ensures var num := ReadNumber(f, format, bytes).value.value; Admits(format, num) && Rounded(f, num, format) == num
  {
    FromLittleIsSmall(bytes[..Width(format)]);
    FromCodeIsAdmitted(f, FromLittle(bytes[..Width(format)]), format);
  }

  lemma {:induction false} ComponentsAreAdmitted(f: Floats, all: seq<Format>, formats: seq<Format>, bytes: Text,
                                                 done: seq<Num>)
    requires IsFloats(f) && ReadComponents(f, formats, bytes, done).Ok?
    requires |done| + |formats| == |all| && all[|done|..] == formats
    requires HasLayout(all[..|done|], done) && ExactNumbers(f, all[..|done|], done)
    ensures var components := ReadComponents(f, formats, bytes, done).value.value;
            HasLayout(all, components) && ExactNumbers(f, all, components)
    decreases |formats|
  {
    if formats == [] {
      assert all[..|done|] == all;
    } else {
      var first := ReadNumber(f, formats[0], bytes).value;
      NumberIsAdmitted(f, formats[0], bytes);
      var next := done + [first.value];
      assert all[..|next|] == all[..|done|] + [formats[0]];
      assert all[|next|..] == formats[1..];
      ComponentsAreAdmitted(f, all, formats[1..], first.rest, next);
    }
  }

  // ----- Lists and fields -----

  lemma {:induction false} PushedGood(f: Floats, item: Schema, values: seq<Value>)
    requires AllGood(f, Repeated(item, |values|), values)
    ensures |Pushed(values)| <= |values|
    ensures forall i :: 0 <= i < |Pushed(values)| ==> Pushed(values)[i] != Undefined && Good(f, item, Pushed(values)[i])
  {
    if values != [] {
      var last := |values| - 1;
      assert Repeated(item, |values|)[last] == item;
      forall i | 0 <= i < last ensures Good(f, Repeated(item, last)[i], values[..last][i]) {
        assert Good(f, Repeated(item, |values|)[i], values[i]);
      }
      PushedGood(f, item, values[..last]);
      assert Good(f, Repeated(item, |values|)[last], values[last]);
    }
  }

  lemma ArrayGood(f: Floats, schema: Schema, values: seq<Value>)
    requires schema.ArraySchema? && Supported(schema) && |values| < SIZE_LIMIT
             && AllGood(f, Repeated(schema.item, |values|), values)
    ensures Good(f, schema, Table(Pushed(values), map[]))
  {
    PushedGood(f, schema.item, values);
  }

  lemma TupleGood(f: Floats, schema: Schema, values: seq<Value>)
    requires schema.TupleSchema? && Supported(schema) && TuplesFull(schema) && AllGood(f, schema.items, values)
    ensures Good(f, schema, Table(Pushed(values), map[]))
  {
    forall i | 0 <= i < |values| ensures values[i] != Undefined {
      assert Good(f, schema.items[i], values[i]);
    }
    PushedAll(values);
  }

  ghost predicate FieldsGood(f: Floats, schemas: map<Text, Schema>, fields: map<Text, Value>) {
    && (forall key :: key in schemas ==> Good(f, schemas[key], Field(Table([], fields), key)))
    && (forall key :: key in fields ==> key in schemas && fields[key] != Undefined)
  }

  lemma FieldGood(f: Floats, schemas: map<Text, Schema>, keys: seq<Text>, values: seq<Value>, key: Text)
    requires key in schemas && Elements(keys) == schemas.Keys && Ascending(keys)
    requires (forall i :: 0 <= i < |keys| ==> keys[i] in schemas) && AllGood(f, SchemasFor(schemas, keys), values)
    ensures Good(f, schemas[key], Field(Table([], FieldsOf(keys, values)), key))
  {
    assert key in Elements(keys);
    var i :| 0 <= i < |keys| && keys[i] == key;
    FieldsOfAt(keys, values, i);
    assert Good(f, SchemasFor(schemas, keys)[i], values[i]);
  }

  lemma FieldsOfGood(f: Floats, schemas: map<Text, Schema>, keys: seq<Text>, values: seq<Value>)
    requires Elements(keys) == schemas.Keys && Ascending(keys)
    requires (forall i :: 0 <= i < |keys| ==> keys[i] in schemas) && AllGood(f, SchemasFor(schemas, keys), values)
    ensures FieldsGood(f, schemas, FieldsOf(keys, values))
  {
    FieldsOfAll(keys, values);
    forall key | key in schemas
      ensures Good(f, schemas[key], Field(Table([], FieldsOf(keys, values)), key))
    {
      FieldGood(f, schemas, keys, values, key);
    }
    forall key | key in FieldsOf(keys, values)
      ensures key in schemas
    {
      var i :| 0 <= i < |keys| && keys[i] == key;
    }
  }

  lemma ObjectGood(f: Floats, schema: Schema, fields: map<Text, Value>)
    requires schema.ObjectSchema? && Supported(schema) && FieldsGood(f, schema.fields, fields)
    ensures Good(f, schema, Table([], fields))
  {
    FewFields(fields, schema.fields);
    forall key | key in fields
      ensures |key| < SIZE_LIMIT && Storable(fields[key])
    {
      assert Good(f, schema.fields[key], Field(Table([], fields), key));
    }
  }

  lemma FewFields(fields: map<Text, Value>, schemas: map<Text, Schema>)
    requires forall key :: key in fields ==> key in schemas
    ensures |fields| <= |schemas|
  {
    Subset(fields.Keys, schemas.Keys);
  }

  lemma {:induction false} Subset(few: set<Text>, many: set<Text>)
    requires few <= many
    ensures |few| <= |many|
  {
    if few != {} {
      var x :| x in few;
      Subset(few - {x}, many - {x});
    }
  }

  // ----- What is decoded -----

  /** Whatever is decoded is described by its schema and can be stored. */
  lemma {:induction false} DecodedIsGood(f: Floats, schema: Schema, bytes: Text)
    requires IsFloats(f) && Supported(schema) && TuplesFull(schema) && Decode(f, schema, bytes).Ok?
    ensures Good(f, schema, Decode(f, schema, bytes).value.value)
    decreases schema, 2, 0
  {
    match schema {
      case StringSchema(_, _, _) => StringIsShort(bytes);
      case NumberSchema(format, _) => NumberIsAdmitted(f, format, bytes);
      case ArraySchema(item, _, _) =>
        ArrayIsGood(f, schema, bytes);
      case ObjectSchema(fields) =>
        ObjectIsGood(f, schema, bytes);
      case OptionalSchema(inner) =>
        var present := Take(bytes, 1).value;
        if present.value[0] != 0 {
          DecodedIsGood(f, inner, present.rest);
        }
      case RecordSchema(item, _) =>
        RecordIsGood(f, schema, bytes);
      case TupleSchema(items) =>
        DecodedAreGood(f, schema, items, bytes, []);
        TupleGood(f, schema, DecodeAll(f, schema, items, bytes, []).value.value);
      case UnionSchema(members, _) =>
        var index := ReadU32(bytes).value;
        DecodedIsGood(f, members[index.value], index.rest);
      case PackedSchema(kind) => ComponentsAreAdmitted(f, Layout(kind), Layout(kind), bytes, []);
      case _ =>
    }
  }

  lemma ArrayIsGood(f: Floats, schema: Schema, bytes: Text)
    requires schema.ArraySchema? && IsFloats(f) && Supported(schema) && TuplesFull(schema)
             && Decode(f, schema, bytes).Ok?
    ensures Good(f, schema, Decode(f, schema, bytes).value.value)
    decreases schema, 1, 0
  {
    U32IsSmall(bytes);
    var count := ReadU32(bytes).value;
    DecodedAreGood(f, schema, Repeated(schema.item, count.value), count.rest, []);
    ArrayGood(f, schema, DecodeAll(f, schema, Repeated(schema.item, count.value), count.rest, []).value.value);
  }

  lemma ObjectRead(f: Floats, schema: Schema, bytes: Text, keys: seq<Text>) returns (values: seq<Value>)
    requires schema.ObjectSchema? && Decode(f, schema, bytes).Ok? && keys == Sorted(schema.fields.Keys)
    requires forall i :: 0 <= i < |keys| ==> keys[i] in schema.fields
    ensures var read := DecodeAll(f, schema, SchemasFor(schema.fields, keys), bytes, []);
            read.Ok? && values == read.value.value && |values| == |keys|
    ensures Decode(f, schema, bytes).value.value == Table([], FieldsOf(keys, values))
  {
    values := DecodeAll(f, schema, SchemasFor(schema.fields, keys), bytes, []).value.value;
  }

  lemma ObjectIsGood(f: Floats, schema: Schema, bytes: Text)
    requires schema.ObjectSchema? && IsFloats(f) && Supported(schema) && TuplesFull(schema)
             && Decode(f, schema, bytes).Ok?
    ensures Good(f, schema, Decode(f, schema, bytes).value.value)
    decreases schema, 1, 0
  {
    SortedAreKeys(schema.fields);
    var keys := Sorted(schema.fields.Keys);
    var values := ObjectRead(f, schema, bytes, keys);
    DecodedAreGood(f, schema, SchemasFor(schema.fields, keys), bytes, []);
    FieldsOfGood(f, schema.fields, keys, values);
    ObjectGood(f, schema, FieldsOf(keys, values));
  }

  lemma RecordIsGood(f: Floats, schema: Schema, bytes: Text)
    requires schema.RecordSchema? && IsFloats(f) && Supported(schema) && TuplesFull(schema)
             && Decode(f, schema, bytes).Ok?
    ensures Good(f, schema, Decode(f, schema, bytes).value.value)
    decreases schema, 1, 0
  {
    U32IsSmall(bytes);
    var count := ReadU32(bytes).value;
    EntriesAreGood(f, schema, schema.item, count.value, count.rest, []);
    EntriesCount(f, schema, schema.item, count.value, count.rest, []);
    RecordGood(f, schema, DecodeEntries(f, schema, schema.item, count.value, count.rest, []).value.value);
  }

  lemma {:induction false} FieldsOfSome(keys: seq<Text>, values: seq<Value>, key: Text) returns (i: nat)
    requires |keys| == |values| && key in FieldsOf(keys, values)
    ensures i < |keys| && keys[i] == key && FieldsOf(keys, values)[key] == values[i] && values[i] != Undefined
  {
    i := |keys| - 1;
    if keys[i] != key {
      i := FieldsOfSome(keys[..i], values[..i], key);
    }
  }

  lemma {:induction false} FieldsOfFew(keys: seq<Text>, values: seq<Value>)
    requires |keys| == |values|
    ensures |FieldsOf(keys, values)| <= |keys|
  {
    if keys != [] {
      var last := |keys| - 1;
      FieldsOfFew(keys[..last], values[..last]);
      AssignAdds(FieldsOf(keys[..last], values[..last]), keys[last], values[last]);
    }
  }

  lemma AssignedGood(f: Floats, item: Schema, entries: seq<Entry>, key: Text)
    requires EntriesGood(f, item, entries) && key in Assigned(entries)
    ensures |key| < SIZE_LIMIT && Assigned(entries)[key] != Undefined && Good(f, item, Assigned(entries)[key])
  {
    var i := FieldsOfSome(EntryKeys(entries), EntryValues(entries), key);
    assert EntryGood(f, item, entries[i]);
    assert entries[i].key == key && entries[i].value == Assigned(entries)[key];
  }

  lemma RecordGood(f: Floats, schema: Schema, entries: seq<Entry>)
    requires schema.RecordSchema? && Supported(schema) && EntriesGood(f, schema.item, entries) && |entries| < SIZE_LIMIT
    ensures Good(f, schema, Table([], Assigned(entries)))
  {
    FieldsOfFew(EntryKeys(entries), EntryValues(entries));
    forall key | key in Assigned(entries)
      ensures |key| < SIZE_LIMIT && Assigned(entries)[key] != Undefined && Good(f, schema.item, Assigned(entries)[key])
    {
      AssignedGood(f, schema.item, entries, key);
    }
    RecordOf(f, schema, Assigned(entries));
  }

  lemma RecordOf(f: Floats, schema: Schema, fields: map<Text, Value>)
    requires schema.RecordSchema? && Supported(schema) && |fields| < SIZE_LIMIT
    requires forall key ::
               key in fields ==> |key| < SIZE_LIMIT && fields[key] != Undefined && Good(f, schema.item, fields[key])
    ensures Good(f, schema, Table([], fields))
  {
  }

  lemma {:induction false} DecodedAreGood(f: Floats, parent: Schema, schemas: seq<Schema>, bytes: Text,
                                          done: seq<Value>)
    requires IsFloats(f)
             && forall i ::
               0 <= i < |schemas| ==> schemas[i] < parent && Supported(schemas[i]) && TuplesFull(schemas[i])
    requires DecodeAll(f, parent, schemas, bytes, done).Ok?
    ensures var values := DecodeAll(f, parent, schemas, bytes, done).value.value;
            values[..|done|] == done && AllGood(f, schemas, values[|done|..])
    decreases parent, 0, |schemas|
  {
    if schemas != [] {
      var first := Decode(f, schemas[0], bytes).value;
      DecodedIsGood(f, schemas[0], bytes);
      DecodedAreGood(f, parent, schemas[1..], first.rest, done + [first.value]);
      OneMoreGood(f, schemas, DecodeAll(f, parent, schemas, bytes, done).value.value, done, first.value);
    }
  }

  lemma OneMoreGood(f: Floats, schemas: seq<Schema>, values: seq<Value>, done: seq<Value>, value: Value)
    requires schemas != [] && |values| == |done| + |schemas| && values[..|done| + 1] == done + [value]
    requires Good(f, schemas[0], value) && AllGood(f, schemas[1..], values[|done| + 1..])
    ensures values[..|done|] == done && AllGood(f, schemas, values[|done|..])
  {
    assert values[..|done|] == values[..|done| + 1][..|done|];
    assert values[|done|] == values[..|done| + 1][|done|];
    forall i | 0 <= i < |schemas| ensures Good(f, schemas[i], values[|done|..][i]) {
      if i > 0 {
        assert Good(f, schemas[1..][i - 1], values[|done| + 1..][i - 1]);
      }
    }
  }

  lemma {:induction false} EntriesAreGood(f: Floats, parent: Schema, item: Schema, count: nat, bytes: Text,
                                          done: seq<Entry>)
    requires IsFloats(f) && item < parent && Supported(item) && TuplesFull(item) && EntriesGood(f, item, done)
    requires DecodeEntries(f, parent, item, count, bytes, done).Ok?
    ensures EntriesGood(f, item, DecodeEntries(f, parent, item, count, bytes, done).value.value)
    decreases parent, 0, count
  {
    if count == 0 {
      NoEntries(f, parent, item, bytes, done);
    } else {
      var entry, rest := GoodStep(f, parent, item, count, bytes, done);
      OneMoreEntry(f, item, done, entry);
      EntriesAreGood(f, parent, item, count - 1, rest, done + [entry]);
    }
  }

  lemma GoodStep(f: Floats, parent: Schema, item: Schema, count: nat, bytes: Text, done: seq<Entry>)
    returns (entry: Entry, rest: Text)
    requires IsFloats(f) && item < parent && Supported(item) && TuplesFull(item) && count > 0
    requires DecodeEntries(f, parent, item, count, bytes, done).Ok?
    ensures EntryGood(f, item, entry)
    ensures DecodeEntries(f, parent, item, count, bytes, done)
            == DecodeEntries(f, parent, item, count - 1, rest, done + [entry])
    decreases item, 4, 0
  {
    EntryIsGood(f, item, bytes);
    var first := DecodeEntry(f, item, bytes).value;
    EntryFirst(f, parent, item, count, bytes, done, first.value, first.rest);
    entry, rest := first.value, first.rest;
  }

  lemma CountStep(f: Floats, parent: Schema, item: Schema, count: nat, bytes: Text, done: seq<Entry>)
    returns (entry: Entry, rest: Text)
    requires item < parent && count > 0 && DecodeEntries(f, parent, item, count, bytes, done).Ok?
    ensures DecodeEntries(f, parent, item, count, bytes, done)
            == DecodeEntries(f, parent, item, count - 1, rest, done + [entry])
  {
    var first := DecodeEntry(f, item, bytes).value;
    EntryFirst(f, parent, item, count, bytes, done, first.value, first.rest);
    entry, rest := first.value, first.rest;
  }

  lemma {:induction false} EntriesCount(f: Floats, parent: Schema, item: Schema, count: nat, bytes: Text,
                                        done: seq<Entry>)
    requires item < parent && DecodeEntries(f, parent, item, count, bytes, done).Ok?
    ensures |DecodeEntries(f, parent, item, count, bytes, done).value.value| == |done| + count
    decreases count
  {
    if count == 0 {
      NoEntries(f, parent, item, bytes, done);
    } else {
      var entry, rest := CountStep(f, parent, item, count, bytes, done);
      EntriesCount(f, parent, item, count - 1, rest, done + [entry]);
    }
  }

  lemma EntryIsGood(f: Floats, item: Schema, bytes: Text)
    requires IsFloats(f) && Supported(item) && TuplesFull(item) && DecodeEntry(f, item, bytes).Ok?
    ensures EntryGood(f, item, DecodeEntry(f, item, bytes).value.value)
    decreases item, 3, 0
  {
    StringIsShort(bytes);
    DecodedIsGood(f, item, ReadString(bytes).value.rest);
  }

  lemma AssignAdds(done: map<Text, Value>, key: Text, value: Value)
    ensures |Assign(done, key, value)| <= |done| + 1
  {
    if value == Undefined {
      Subset((done - {key}).Keys, done.Keys);
    } else {
      assert done[key := value].Keys == done.Keys + {key};
    }
  }

  // ----- Encoding again -----

  lemma {:induction false} PartsEncode(f: Floats, parent: Schema, parts: seq<Part>, i: nat)
    requires (forall i :: 0 <= i < |parts| ==> parts[i].schema < parent) && i < |parts|
             && EncodeAll(f, parent, parts).Ok?
    ensures Encode(f, parts[i].schema, parts[i].value).Ok?
    decreases |parts|
  {
    if i > 0 {
      PartsEncode(f, parent, parts[1..], i - 1);
    }
  }

  lemma {:induction false} EntriesEncode(f: Floats, parent: Schema, item: Schema, fields: map<Text, Value>,
                                         keys: seq<Text>, i: nat)
    requires item < parent && (forall i :: 0 <= i < |keys| ==> keys[i] in fields) && i < |keys|
    requires EncodeEntries(f, parent, item, fields, keys).Ok?
    ensures Encode(f, item, fields[keys[i]]).Ok?
    decreases |keys|
  {
    if i > 0 {
      EntriesEncode(f, parent, item, fields, keys[1..], i - 1);
    }
  }

  lemma ObjectEncodes(f: Floats, schema: Schema, value: Value, key: Text)
    requires schema.ObjectSchema? && value.Table? && Encode(f, schema, value).Ok? && key in schema.fields
    ensures Encode(f, schema.fields[key], Field(value, key)).Ok?
  {
    SortedAreKeys(schema.fields);
    var keys := Sorted(schema.fields.Keys);
    assert key in Elements(keys);
    var i :| 0 <= i < |keys| && keys[i] == key;
    var parts := ObjectParts(schema.fields, keys, value);
    PartsEncode(f, schema, parts, i);
    assert parts[i] == Part(schema.fields[key], Field(value, key));
  }

  lemma RecordEncodes(f: Floats, schema: Schema, value: Value, key: Text)
    requires schema.RecordSchema? && value.Table? && Encode(f, schema, value).Ok? && key in value.fields
    ensures Encode(f, schema.item, value.fields[key]).Ok?
  {
    SortedAreKeys(value.fields);
    var keys := Sorted(value.fields.Keys);
    assert key in Elements(keys);
    var i :| 0 <= i < |keys| && keys[i] == key;
    EntriesEncode(f, schema, schema.item, value.fields, keys, i);
  }

  /** A described value that encodes fits: each union in it found a member. */
  lemma {:induction false} EncodedFits(f: Floats, schema: Schema, value: Value)
    requires Supported(schema) && Described(f, schema, value) && Encode(f, schema, value).Ok?
    ensures Fits(schema, value)
    decreases schema
  {
    match schema {
      case ArraySchema(item, _, _) =>
        forall i | 0 <= i < |value.items| ensures Fits(item, value.items[i]) {
          PartsEncode(f, schema, ArrayParts(item, value.items), i);
          EncodedFits(f, item, value.items[i]);
        }
      case ObjectSchema(fields) =>
        forall key | key in fields ensures Fits(fields[key], Field(value, key)) {
          ObjectEncodes(f, schema, value, key);
          EncodedFits(f, fields[key], Field(value, key));
        }
      case OptionalSchema(inner) => if value != Undefined { EncodedFits(f, inner, value); }
      case RecordSchema(item, _) =>
        forall key | key in value.fields ensures Fits(item, value.fields[key]) {
          RecordEncodes(f, schema, value, key);
          EncodedFits(f, item, value.fields[key]);
        }
      case TupleSchema(items) =>
        forall i | 0 <= i < |items| ensures Fits(items[i], Item(value.items, i)) {
          PartsEncode(f, schema, TupleParts(items, value.items), i);
          EncodedFits(f, items[i], Item(value.items, i));
        }
      case UnionSchema(members, _) => ValidatesFits(members[FirstMember(members, value).value], value);
      case _ =>
    }
  }

  /** Without unions what is described fits and is exact. */
  lemma {:induction false} UnionFreeIsExact(f: Floats, schema: Schema, value: Value)
    requires UnionFree(schema) && Described(f, schema, value)
    ensures Fits(schema, value) && Exact(f, schema, value)
    decreases schema
  {
    match schema {
      case ArraySchema(item, _, _) =>
        forall i | 0 <= i < |value.items| ensures Fits(item, value.items[i]) && Exact(f, item, value.items[i]) {
          UnionFreeIsExact(f, item, value.items[i]);
        }
      case ObjectSchema(fields) =>
        forall key | key in fields ensures Fits(fields[key], Field(value, key))
            && Exact(f, fields[key], Field(value, key)) {
          UnionFreeIsExact(f, fields[key], Field(value, key));
        }
        assert forall key :: key in value.fields ==> Field(value, key) == value.fields[key];
      case OptionalSchema(inner) => if value != Undefined { UnionFreeIsExact(f, inner, value); }
      case RecordSchema(item, _) =>
        forall key | key in value.fields ensures Fits(item, value.fields[key]) && Exact(f, item, value.fields[key]) {
          UnionFreeIsExact(f, item, value.fields[key]);
        }
      case TupleSchema(items) =>
        forall i | 0 <= i < |items| ensures Fits(items[i], Item(value.items, i))
            && Exact(f, items[i], Item(value.items, i)) {
          UnionFreeIsExact(f, items[i], Item(value.items, i));
        }
      case _ =>
    }
  }

  /** A value that encodes, and decodes back to itself. */
  ghost predicate ComesBack(f: Floats, schema: Schema, value: Value) {
    Encode(f, schema, value).Ok? && Decode(f, schema, Encode(f, schema, value).value) == Ok(Read(value, []))
  }

  /** Whatever is decoded encodes again exactly when it fits, each union in it finding a member that validates;
      and it decodes back to itself exactly when it is besides exact for those members. */
  lemma DecodedReencodes(f: Floats, schema: Schema, bytes: Text)
    requires IsFloats(f) && Supported(schema) && TuplesFull(schema) && Decode(f, schema, bytes).Ok?
    ensures var value := Decode(f, schema, bytes).value.value;
            && (Encode(f, schema, value).Ok? <==> Fits(schema, value))
            && (ComesBack(f, schema, value) <==> Fits(schema, value) && Exact(f, schema, value))
            && (UnionFree(schema) ==> ComesBack(f, schema, value))
  {
    DecodedIsGood(f, schema, bytes);
    var value := Decode(f, schema, bytes).value.value;
    if Encode(f, schema, value).Ok? {
      EncodedFits(f, schema, value);
    }
    if UnionFree(schema) {
      UnionFreeIsExact(f, schema, value);
    }
    if Fits(schema, value) {
      ExactRoundTrip(f, schema, value, []);
      FromNothing(Encode(f, schema, value).value);
    }
  }

  function FloatUnion(): Schema {
    UnionSchema([NumberSchema(F64, _ => true)], None)
  }

  /** A pattern that is no finite number decodes by a union of floats, and no member then encodes it. */
  lemma NonFiniteHasNoMember(f: Floats, pattern: Text, rest: Text)
    requires |pattern| == 8 && f.of64(FromLittle(pattern)).NonFinite?
    ensures var value := Of(Number(f.of64(FromLittle(pattern))));
            && Decode(f, FloatUnion(), U32Bytes(0) + (pattern + rest)) == Ok(Read(value, rest))
            && Encode(f, FloatUnion(), value) == Err(NoUnionMember)
  {
    U32Written(0, pattern + rest);
    TakeWritten(pattern, rest);
  }

  lemma LooseIsNotExact(f: Floats, schema: Schema, loose: Schema, key: Text, value: Value)
    requires schema.UnionSchema? && FirstMember(schema.members, value) == Some(0) && schema.members[0] == loose
    requires loose.ObjectSchema? && value.Table? && key in value.fields && key !in loose.fields
    ensures !Exact(f, schema, value)
  {
  }

  function LooseUnion(key: Text): Schema {
    UnionSchema([ObjectSchema(map[]), ObjectSchema(map[key := BooleanSchema])], None)
  }

  function Flagged(key: Text): Value {
    Table([], map[key := Of(Boolean(true))])
  }

  lemma LooseUnionFits(f: Floats, key: Text)
    requires |key| < SIZE_LIMIT
    ensures Supported(LooseUnion(key)) && Storable(Flagged(key)) && Validates(LooseUnion(key), Flagged(key))
    ensures FirstMember(LooseUnion(key).members, Flagged(key)) == Some(0)
            && Exact(f, LooseUnion(key).members[1], Flagged(key))
  {
    assert Validates(LooseUnion(key).members[0], Flagged(key));
    assert Supported(LooseUnion(key).members[1]);
  }

  /** With a union it need not: a value of a later member may pass an earlier one's looser check, which then
      encodes it without the field only the later one names. */
  lemma LooseMemberLosesField(f: Floats, key: Text)
    requires IsFloats(f) && |key| < SIZE_LIMIT
    ensures var schema, value := LooseUnion(key), Flagged(key);
            && Supported(schema) && Storable(value) && Validates(schema, value) && Exact(f, schema.members[1], value)
            && Encode(f, schema, value).Ok?
            && Decode(f, schema, Encode(f, schema, value).value) != Ok(Read(value, []))
  {
    var schema, value := LooseUnion(key), Flagged(key);
    LooseUnionFits(f, key);
    LooseIsNotExact(f, schema, schema.members[0], key, value);
    NotExactChanges(f, schema, value);
  }

  lemma NotExactChanges(f: Floats, schema: Schema, value: Value)
    requires IsFloats(f) && Supported(schema) && Storable(value) && Validates(schema, value) && !Exact(f, schema, value)
    ensures Encode(f, schema, value).Ok? && Decode(f, schema, Encode(f, schema, value).value) != Ok(Read(value, []))
  {
    ValidatesFits(schema, value);
    ExactRoundTrip(f, schema, value, []);
    FromNothing(Encode(f, schema, value).value);
  }
}
