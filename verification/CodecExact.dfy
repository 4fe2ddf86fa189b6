/** Which values the codec gives back unchanged. */
module CodecExact {
  import opened BinaryCodec
  import opened Bytes
  import opened CodecRoundTrip
  import opened Order
  import opened Schemas
  import opened Wrappers

  // ----- Lists and fields put together -----

  ghost predicate NoneUndefined(values: seq<Value>) {
    forall i :: 0 <= i < |values| ==> values[i] != Undefined
  }

  lemma {:induction false} PushedAll(values: seq<Value>)
    requires NoneUndefined(values)
    ensures Pushed(values) == values
  {
    if values != [] {
      var last := |values| - 1;
      PushedAll(values[..last]);
      assert Pushed(values) == values[..last] + [values[last]];
    }
  }

  lemma Ascends(keys: seq<Text>, i: nat)
    requires Ascending(keys) && i < |keys|
    ensures keys[i] !in keys[..i] && Ascending(keys[..i])
  {
    BeforeIsTotal(keys[i], keys[i]);
  }

  lemma AssignOne(fields: map<Text, Value>, key: Text, value: Value, other: Text)
    ensures Field(Table([], Assign(fields, key, value)), other) == if other == key then value
            else Field(Table([], fields), other)
  {
  }

  /** Distinct keys end up with their values. */
  lemma {:induction false} FieldsOfAt(keys: seq<Text>, values: seq<Value>, i: nat)
    requires |keys| == |values| && Ascending(keys) && i < |keys|
    ensures Field(Table([], FieldsOf(keys, values)), keys[i]) == values[i]
  {
    var last := |keys| - 1;
    Ascends(keys, last);
    AssignOne(FieldsOf(keys[..last], values[..last]), keys[last], values[last], keys[i]);
    if i < last {
      FieldsOfAt(keys[..last], values[..last], i);
      assert keys[i] in keys[..last];
    }
  }

  lemma {:induction false} FieldsOfAll(keys: seq<Text>, values: seq<Value>)
    requires |keys| == |values|
    ensures forall key :: key in FieldsOf(keys, values) ==> key in keys && FieldsOf(keys, values)[key] != Undefined
  {
    if keys != [] {
      var last := |keys| - 1;
      FieldsOfAll(keys[..last], values[..last]);
      assert keys == keys[..last] + [keys[last]];
    }
  }

  function KeptMap(f: Floats, item: Schema, fields: map<Text, Value>, keys: set<Text>): map<Text, Value> {
    map key | key in keys && key in fields :: Kept(f, item, fields[key])
  }

  // ----- Exact values -----

  predicate ExactNumbers(f: Floats, formats: seq<Format>, components: seq<Num>) {
    |formats| == |components|
      && forall i :: 0 <= i < |formats| ==> Rounded(f, components[i], formats[i]) == components[i]
  }

  lemma RoundedIsExact(f: Floats, formats: seq<Format>, components: seq<Num>)
    requires |formats| == |components|
    ensures RoundedAll(f, formats, components) == components <==> ExactNumbers(f, formats, components)
  {
    var rounded := RoundedAll(f, formats, components);
    assert rounded == components <==> forall i :: 0 <= i < |formats| ==> rounded[i] == components[i];
  }

  /** Nothing in the value is beyond its schema: every float fits its format, no table has a part the schema does
      not name, and in a union all this holds for the first member the value validates against. */
  predicate Exact(f: Floats, schema: Schema, value: Value)
    decreases schema
  {
    match schema
    case NumberSchema(format, _) => value.Of? && value.scalar.Number?
      && Rounded(f, value.scalar.num, format) == value.scalar.num
    case ArraySchema(item, _, _) =>
      value.Table? && value.fields == map[] && forall i :: 0 <= i < |value.items| ==> Exact(f, item, value.items[i])
    case ObjectSchema(fields) =>
      value.Table? && value.items == []
        && forall key :: key in value.fields ==> key in fields && Exact(f, fields[key], value.fields[key])
    case OptionalSchema(inner) => value == Undefined || Exact(f, inner, value)
    case RecordSchema(item, _) => value.Table?
      && forall key :: key in value.fields ==> Exact(f, item, value.fields[key])
    case TupleSchema(items) =>
      value.Table? && value.fields == map[] && forall i :: 0 <= i < |items| ==> Exact(f, items[i], Item(value.items, i))
    case UnionSchema(members, _) =>
      (match FirstMember(members, value)
       case None => false
       case Some(index) => Exact(f, members[index], value))
    case PackedSchema(kind) => value.Userdata? && ExactNumbers(f, Layout(kind), value.components)
    case _ => true
  }

  /** The codec gives a value back unchanged exactly when it is exact; and it never drops a value or makes one up. */
  lemma {:induction false} KeptIsExact(f: Floats, schema: Schema, value: Value)
    requires Encodable(schema, value)
    ensures Kept(f, schema, value) == value <==> Exact(f, schema, value)
    ensures Kept(f, schema, value) == Undefined <==> value == Undefined
    decreases schema, 1
  {
    match schema {
      case ArraySchema(item, _, _) => ArrayIsExact(f, schema, value);
      case ObjectSchema(fields) => ObjectIsExact(f, schema, value);
      case OptionalSchema(inner) => if value != Undefined { KeptIsExact(f, inner, value); }
      case RecordSchema(item, _) => RecordIsExact(f, schema, value);
      case TupleSchema(items) => TupleIsExact(f, schema, value);
      case UnionSchema(members, _) =>
        KeptIsExact(f, members[FirstMember(members, value).value], value);
      case PackedSchema(kind) =>
        RoundedIsExact(f, Layout(kind), value.components);
      case _ =>
    }
  }

  lemma SameItems(kept: seq<Value>, items: seq<Value>)
    requires |kept| == |items|
    ensures kept == items <==> forall i :: 0 <= i < |items| ==> kept[i] == items[i]
  {
  }

  lemma ArrayIsExact(f: Floats, schema: Schema, value: Value)
    requires schema.ArraySchema? && Encodable(schema, value)
    ensures Kept(f, schema, value) == value <==> Exact(f, schema, value)
    ensures Kept(f, schema, value) != Undefined && value != Undefined
    decreases schema, 0
  {
    var parts := ArrayParts(schema.item, value.items);
    var kept := KeptAll(f, schema, parts);
    forall i | 0 <= i < |value.items|
      ensures (kept[i] == value.items[i] <==> Exact(f, schema.item, value.items[i])) && kept[i] != Undefined
    {
      KeptIsExact(f, schema.item, value.items[i]);
    }
    PushedAll(kept);
    SameItems(kept, value.items);
  }

  lemma TupleIsExact(f: Floats, schema: Schema, value: Value)
    requires schema.TupleSchema? && Encodable(schema, value)
    ensures Kept(f, schema, value) == value <==> Exact(f, schema, value)
    ensures Kept(f, schema, value) != Undefined && value != Undefined
    decreases schema, 0
  {
    var parts := TupleParts(schema.items, value.items);
    var kept := KeptAll(f, schema, parts);
    forall i | 0 <= i < |value.items|
      ensures kept[i] == value.items[i] <==> Exact(f, schema.items[i], Item(value.items, i))
      ensures kept[i] != Undefined
    {
      assert parts[i] == Part(schema.items[i], value.items[i]);
      KeptIsExact(f, schema.items[i], value.items[i]);
    }
    PushedAll(kept);
    SameItems(kept, value.items);
  }

  lemma KeptField(f: Floats, schema: Schema, value: Value, keys: seq<Text>, key: Text)
    requires schema.ObjectSchema? && value.Table? && key in schema.fields && keys == Sorted(schema.fields.Keys)
    requires forall i :: 0 <= i < |keys| ==> keys[i] in schema.fields
    ensures Field(Table([], FieldsOf(keys, KeptAll(f, schema, ObjectParts(schema.fields, keys, value)))), key)
            == Kept(f, schema.fields[key], Field(value, key))
  {
    var parts := ObjectParts(schema.fields, keys, value);
    assert key in Elements(keys);
    var i :| 0 <= i < |keys| && keys[i] == key;
    FieldsOfAt(keys, KeptAll(f, schema, parts), i);
    assert parts[i] == Part(schema.fields[key], Field(value, key));
  }

  ghost predicate KeepsFields(f: Floats, schemas: map<Text, Schema>, value: Value, kept: Value)
    requires value.Table?
  {
    && kept.Table? && kept.items == []
    && (forall key :: key in schemas ==> Field(kept, key) == Kept(f, schemas[key], Field(value, key)))
    && (forall key :: key in kept.fields ==> key in schemas && kept.fields[key] != Undefined)
  }

  lemma KeptFieldsOf(f: Floats, schema: Schema, value: Value, keys: seq<Text>)
    requires schema.ObjectSchema? && value.Table? && keys == Sorted(schema.fields.Keys)
    requires forall i :: 0 <= i < |keys| ==> keys[i] in schema.fields
    ensures KeepsFields(f, schema.fields, value,
                        Table([], FieldsOf(keys, KeptAll(f, schema, ObjectParts(schema.fields, keys, value)))))
  {
    forall key | key in schema.fields
      ensures Field(Table([], FieldsOf(keys, KeptAll(f, schema, ObjectParts(schema.fields, keys, value)))), key)
              == Kept(f, schema.fields[key], Field(value, key))
    {
      KeptField(f, schema, value, keys, key);
    }
    FieldsOfAll(keys, KeptAll(f, schema, ObjectParts(schema.fields, keys, value)));
  }

  /** What an object keeps: of each field its schema names and the value has. */
  lemma KeptFields(f: Floats, schema: Schema, value: Value)
    requires schema.ObjectSchema? && value.Table?
    ensures KeepsFields(f, schema.fields, value, Kept(f, schema, value))
  {
    SortedAreKeys(schema.fields);
    KeptFieldsOf(f, schema, value, Sorted(schema.fields.Keys));
  }

  lemma ObjectIsExact(f: Floats, schema: Schema, value: Value)
    requires schema.ObjectSchema? && Encodable(schema, value)
    ensures Kept(f, schema, value) == value <==> Exact(f, schema, value)
    ensures Kept(f, schema, value) != Undefined && value != Undefined
    decreases schema, 0
  {
    var kept := Kept(f, schema, value);
    KeptFields(f, schema, value);
    forall key | key in schema.fields
      ensures Field(kept, key) == Field(value, key)
              <==> Field(value, key) == Undefined || Exact(f, schema.fields[key], Field(value, key))
      ensures Field(kept, key) == Undefined <==> Field(value, key) == Undefined
    {
      KeptIsExact(f, schema.fields[key], Field(value, key));
    }
    SameFields(schema, kept, value);
    forall key | key in value.fields && kept == value
      ensures key in schema.fields && Exact(f, schema.fields[key], value.fields[key])
    {
      assert Field(kept, key) == Field(value, key);
    }
  }

  lemma SameFields(schema: Schema, kept: Value, value: Value)
    requires schema.ObjectSchema? && kept.Table? && value.Table? && kept.items == [] && Storable(value)
    requires forall key :: key in kept.fields ==> key in schema.fields && kept.fields[key] != Undefined
    ensures kept == value <==> value.items == [] && (forall key :: key in value.fields ==> key in schema.fields)
                               && (forall key :: key in schema.fields ==> Field(kept, key) == Field(value, key))
  {
    if value.items == [] && (forall key :: key in value.fields ==> key in schema.fields)
       && (forall key :: key in schema.fields ==> Field(kept, key) == Field(value, key)) {
      forall key ensures key in kept.fields <==> key in value.fields {
        if key in schema.fields {
          assert Field(kept, key) == Field(value, key);
        }
      }
      forall key | key in kept.fields ensures kept.fields[key] == value.fields[key] {
        assert Field(kept, key) == Field(value, key);
      }
      assert kept.fields == value.fields;
    }
  }

  lemma RecordKept(f: Floats, schema: Schema, value: Value)
    requires schema.RecordSchema? && value.Table?
    requires forall key :: key in value.fields ==> Kept(f, schema.item, value.fields[key]) != Undefined
    ensures Kept(f, schema, value) == Table([], KeptMap(f, schema.item, value.fields, value.fields.Keys))
  {
    SortedAreKeys(value.fields);
    var keys := Sorted(value.fields.Keys);
    EntriesAt(f, schema, schema.item, value.fields, keys);
  }

  lemma EntryAt(f: Floats, parent: Schema, item: Schema, fields: map<Text, Value>, keys: seq<Text>, key: Text)
    requires item < parent && (forall i :: 0 <= i < |keys| ==> keys[i] in fields) && Ascending(keys) && key in keys
    requires Kept(f, item, fields[key]) != Undefined
    ensures var filled := Assigned(KeptEntries(f, parent, item, fields, keys));
            key in filled && filled[key] == Kept(f, item, fields[key])
  {
    var entries := KeptEntries(f, parent, item, fields, keys);
    assert EntryKeys(entries) == keys;
    var i :| 0 <= i < |keys| && keys[i] == key;
    FieldsOfAt(keys, EntryValues(entries), i);
  }

  lemma AssignedKeys(entries: seq<Entry>, keys: seq<Text>)
    requires EntryKeys(entries) == keys
    ensures forall key :: key in Assigned(entries) ==> key in keys
  {
    FieldsOfAll(keys, EntryValues(entries));
  }

  lemma SameMaps(a: map<Text, Value>, b: map<Text, Value>)
    requires (forall key :: key in b ==> key in a && a[key] == b[key]) && forall key :: key in a ==> key in b
    ensures a == b
  {
  }

  lemma EntriesAt(f: Floats, parent: Schema, item: Schema, fields: map<Text, Value>, keys: seq<Text>)
    requires item < parent && (forall i :: 0 <= i < |keys| ==> keys[i] in fields) && Ascending(keys)
             && Elements(keys) == fields.Keys
    requires forall key :: key in fields ==> Kept(f, item, fields[key]) != Undefined
    ensures Assigned(KeptEntries(f, parent, item, fields, keys)) == KeptMap(f, item, fields, fields.Keys)
  {
    var entries := KeptEntries(f, parent, item, fields, keys);
    assert EntryKeys(entries) == keys;
    AssignedKeys(entries, keys);
    var filled, kept := Assigned(entries), KeptMap(f, item, fields, fields.Keys);
    forall key | key in kept ensures key in filled && filled[key] == kept[key] {
      assert key in Elements(keys);
      EntryAt(f, parent, item, fields, keys, key);
    }
    forall key | key in filled ensures key in kept {
      assert key in Elements(keys);
    }
    SameMaps(filled, kept);
  }

  lemma RecordIsExact(f: Floats, schema: Schema, value: Value)
    requires schema.RecordSchema? && Encodable(schema, value)
    ensures Kept(f, schema, value) == value <==> Exact(f, schema, value)
    ensures Kept(f, schema, value) != Undefined && value != Undefined
    decreases schema, 0
  {
    forall key | key in value.fields
      ensures Kept(f, schema.item, value.fields[key]) == value.fields[key] <==> Exact(f, schema.item, value.fields[key])
      ensures Kept(f, schema.item, value.fields[key]) != Undefined
    {
      KeptIsExact(f, schema.item, value.fields[key]);
    }
    RecordKept(f, schema, value);
    SameEntries(f, schema.item, value.fields);
  }

  lemma SameEntries(f: Floats, item: Schema, fields: map<Text, Value>)
    ensures KeptMap(f, item, fields, fields.Keys) == fields
            <==> forall key :: key in fields ==> Kept(f, item, fields[key]) == fields[key]
  {
    var kept := KeptMap(f, item, fields, fields.Keys);
    if kept == fields {
      forall key | key in fields ensures Kept(f, item, fields[key]) == fields[key] {
        assert kept[key] == Kept(f, item, fields[key]);
      }
    }
  }

  // ----- The codec on exact values -----

  /** A value of the schema comes back as it was exactly when it is exact. */
  lemma ExactRoundTrip(f: Floats, schema: Schema, value: Value, rest: Text)
    requires IsFloats(f) && Encodable(schema, value)
    ensures Encode(f, schema, value).Ok?
    ensures Decode(f, schema, Encode(f, schema, value).value + rest) == Ok(Read(value, rest))
            <==> Exact(f, schema, value)
  {
    RoundTrip(f, schema, value, rest);
    KeptIsExact(f, schema, value);
  }
}
