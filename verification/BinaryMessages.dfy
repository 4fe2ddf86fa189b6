/** Encoding through the writer and decoding through the reader, with the fingerprint in front. */
module BinaryMessages {
  import opened BinaryBuffer
  import opened BinaryCodec
  import opened Bytes
  import opened CodecExact
  import opened CodecRoundTrip
  import opened CodecStream
  import opened Order
  import opened SchemaLayout
  import opened Schemas
  import opened Wrappers

  // ----- Keys -----

  /** The keys of a table, sorted: whatever order the table gives them in, the same list. */
  method SortedKeys(names: set<Text>) returns (keys: seq<Text>)
    ensures keys == Sorted(names) && Elements(keys) == names && PartsInOrder(keys)
  {
    keys := [];
    var left := names;
    while left != {}
      invariant left <= names && Distinct(keys)
      invariant forall key :: key in keys <==> key in names && key !in left
      decreases |left|
    {
      var key :| key in left;
      left := left - {key};
      keys := keys + [key];
    }
    keys := SortKeys(keys);
    AscendingIsUnique(keys, Sorted(names));
    AscendingParts(keys);
  }

  // ----- Encoding -----

  /** What was written is what the codec says, or it failed as the codec says. */
  ghost predicate Wrote(spec: Result<Text, EncodeError>, failed: Option<EncodeError>, before: Text, after: Text) {
    match spec
    case Ok(bytes) => failed.None? && after == before + bytes
    case Err(e) => failed == Some(e)
  }

  function After(written: Text, rest: Result<Text, EncodeError>): Result<Text, EncodeError> {
    match rest
    case Ok(bytes) => Ok(written + bytes)
    case Err(e) => Err(e)
  }

  lemma WroteAfter(spec: Result<Text, EncodeError>, failed: Option<EncodeError>, before: Text, written: Text,
                   after: Text)
    requires Wrote(spec, failed, before + written, after)
    ensures Wrote(After(written, spec), failed, before, after)
  {
    if spec.Ok? {
      assert (before + written) + spec.value == before + (written + spec.value);
    }
  }

  method EncodeValue(f: Floats, schema: Schema, value: Value, writer: BinaryWriter)
    returns (failed: Option<EncodeError>)
    requires writer.Valid()
    modifies writer, writer.buf
    ensures writer.Valid() && (writer.buf == old(writer.buf) || fresh(writer.buf))
    ensures Wrote(Encode(f, schema, value), failed, old(writer.Contents()), writer.Contents())
    decreases schema, 2, 0
  {
    failed := None;
    match schema {
      case StringSchema(_, _, _) =>
        if !value.Of? || !value.scalar.Str? {
          return Some(WrongShape);
        }
        writer.WriteString(value.scalar.text);
      case NumberSchema(format, _) =>
        if !value.Of? || !value.scalar.Number? || !Admits(format, value.scalar.num) {
          return Some(WrongShape);
        }
        writer.WriteNumber(f, value.scalar.num, format);
      case BooleanSchema =>
        if !value.Of? || !value.scalar.Boolean? {
          return Some(WrongShape);
        }
        writer.WriteU8(if value.scalar.flag then 1 else 0);
      case LiteralSchema(_) =>
        assert writer.Contents() + [] == writer.Contents();
      case ArraySchema(item, _, _) =>
        failed := EncodeArray(f, schema, value, writer);
      case ObjectSchema(fields) =>
        if !value.Table? {
          return Some(WrongShape);
        }
        SortedAreKeys(fields);
        var keys := SortedKeys(fields.Keys);
        failed := EncodeParts(f, schema, ObjectParts(fields, keys, value), writer);
      case OptionalSchema(inner) =>
        if value == Undefined {
          writer.WriteU8(0);
        } else {
          ghost var before := writer.Contents();
          writer.WriteU8(1);
          failed := EncodeValue(f, inner, value, writer);
          WroteAfter(Encode(f, inner, value), failed, before, [1], writer.Contents());
        }
      case RecordSchema(item, _) => failed := EncodeRecord(f, schema, value, writer);
      case TupleSchema(items) =>
        if !value.Table? {
          return Some(WrongShape);
        }
        failed := EncodeParts(f, schema, TupleParts(items, value.items), writer);
      case EnumSchema(values) =>
        var index := IndexOf(values, value);
        if index.None? {
          return Some(NotAnEnumMember);
        }
        writer.WriteU32(index.value);
      case UnionSchema(members, _) =>
        failed := EncodeUnion(f, schema, value, writer);
      case PackedSchema(kind) =>
        if !value.Userdata? || value.kind != kind || !HasLayout(Layout(kind), value.components) {
          return Some(WrongShape);
        }
        EncodeComponents(f, Layout(kind), value.components, writer);
      case DefaultSchema(_) => return Some(CannotEncode);
      case InstanceSchema => return Some(CannotEncode);
    }
  }

  method EncodeArray(f: Floats, schema: Schema, value: Value, writer: BinaryWriter)
    returns (failed: Option<EncodeError>)
    requires writer.Valid() && schema.ArraySchema?
    modifies writer, writer.buf
    ensures writer.Valid() && (writer.buf == old(writer.buf) || fresh(writer.buf))
    ensures Wrote(Encode(f, schema, value), failed, old(writer.Contents()), writer.Contents())
    decreases schema, 1, 1
  {
    if !value.Table? {
      return Some(WrongShape);
    }
    ghost var before := writer.Contents();
    writer.WriteU32(|value.items|);
    failed := EncodeParts(f, schema, ArrayParts(schema.item, value.items), writer);
    WroteAfter(EncodeAll(f, schema, ArrayParts(schema.item, value.items)), failed, before, U32Bytes(|value.items|),
               writer.Contents());
  }

  method EncodeUnion(f: Floats, schema: Schema, value: Value, writer: BinaryWriter)
    returns (failed: Option<EncodeError>)
    requires writer.Valid() && schema.UnionSchema?
    modifies writer, writer.buf
    ensures writer.Valid() && (writer.buf == old(writer.buf) || fresh(writer.buf))
    ensures Wrote(Encode(f, schema, value), failed, old(writer.Contents()), writer.Contents())
    decreases schema, 1, 1
  {
    var index := FirstMember(schema.members, value);
    if index.None? {
      return Some(NoUnionMember);
    }
    var member := schema.members[index.value];
    ghost var before := writer.Contents();
    writer.WriteU32(index.value);
    failed := EncodeValue(f, member, value, writer);
    WroteAfter(Encode(f, member, value), failed, before, U32Bytes(index.value), writer.Contents());
  }

  /** One more part written: the whole is what was written, then the rest. */
  lemma PartsStep(f: Floats, parent: Schema, parts: seq<Part>, i: nat, written: Text)
    requires (forall j :: 0 <= j < |parts| ==> parts[j].schema < parent) && i < |parts|
    ensures var first := Encode(f, parts[i].schema, parts[i].value);
            After(written, EncodeAll(f, parent, parts[i..]))
            == match first
               case Ok(bytes) => After(written + bytes, EncodeAll(f, parent, parts[i + 1..]))
               case Err(e) => Err(e)
  {
    assert parts[i..][0] == parts[i] && parts[i..][1..] == parts[i + 1..];
    var first := Encode(f, parts[i].schema, parts[i].value);
    var rest := EncodeAll(f, parent, parts[i + 1..]);
    if first.Ok? && rest.Ok? {
      Regroup(written, first.value, rest.value);
    }
  }

  /** The loops over the items of an array, the fields of an object and the items of a tuple. */
  method EncodeParts(f: Floats, ghost parent: Schema, parts: seq<Part>, writer: BinaryWriter)
    returns (failed: Option<EncodeError>)
    requires writer.Valid() && forall i :: 0 <= i < |parts| ==> parts[i].schema < parent
    modifies writer, writer.buf
    ensures writer.Valid() && (writer.buf == old(writer.buf) || fresh(writer.buf))
    ensures Wrote(EncodeAll(f, parent, parts), failed, old(writer.Contents()), writer.Contents())
    decreases parent, 1, 0
  {
    ghost var written: Text := [];
    FromNothing(writer.Contents());
    WrittenNothing(EncodeAll(f, parent, parts));
    assert parts[0..] == parts;
    for i := 0 to |parts|
      invariant writer.Valid() && (writer.buf == old(writer.buf) || fresh(writer.buf))
      invariant writer.Contents() == old(writer.Contents()) + written
      invariant EncodeAll(f, parent, parts) == After(written, EncodeAll(f, parent, parts[i..]))
    {
      PartsStep(f, parent, parts, i, written);
      failed := EncodeValue(f, parts[i].schema, parts[i].value, writer);
      if failed.Some? {
        return;
      }
      Regroup(old(writer.Contents()), written, Encode(f, parts[i].schema, parts[i].value).value);
      written := written + Encode(f, parts[i].schema, parts[i].value).value;
    }
    assert parts[|parts|..] == [];
    FromNothing(written);
    return None;
  }

  lemma WrittenNothing(spec: Result<Text, EncodeError>)
    ensures After([], spec) == spec
  {
    if spec.Ok? {
      FromNothing(spec.value);
    }
  }

  method EncodeRecord(f: Floats, schema: Schema, value: Value, writer: BinaryWriter)
    returns (failed: Option<EncodeError>)
    requires writer.Valid() && schema.RecordSchema?
    modifies writer, writer.buf
    ensures writer.Valid() && (writer.buf == old(writer.buf) || fresh(writer.buf))
    ensures Wrote(Encode(f, schema, value), failed, old(writer.Contents()), writer.Contents())
    decreases schema, 1, 0
  {
    if !value.Table? || value.items != [] {
      return Some(WrongShape);
    }
    SortedAreKeys(value.fields);
    var keys := SortedKeys(value.fields.Keys);
    ghost var before := writer.Contents();
    writer.WriteU32(|keys|);
    failed := EncodeEntriesOf(f, schema, schema.item, value.fields, keys, writer);
    WroteAfter(EncodeEntries(f, schema, schema.item, value.fields, keys), failed, before, U32Bytes(|keys|),
               writer.Contents());
  }

  lemma AfterParts(written: Text, first: Result<Text, EncodeError>, rest: Result<Text, EncodeError>,
                   whole: Result<Text, EncodeError>)
    requires whole == if first.Err? then first else if rest.Err? then rest else Ok(first.value + rest.value)
    ensures After(written, whole) == if first.Ok? then After(written + first.value, rest) else Err(first.error)
  {
    if first.Ok? && rest.Ok? {
      Regroup(written, first.value, rest.value);
    }
  }

  lemma EntriesParts(f: Floats, parent: Schema, item: Schema, fields: map<Text, Value>, keys: seq<Text>)
    requires item < parent && (forall j :: 0 <= j < |keys| ==> keys[j] in fields) && keys != []
    ensures var first := EncodeEntry(f, item, keys[0], fields[keys[0]]);
            var rest := EncodeEntries(f, parent, item, fields, keys[1..]);
            EncodeEntries(f, parent, item, fields, keys)
            == if first.Err? then first else if rest.Err? then rest else Ok(first.value + rest.value)
  {
  }

  lemma EntriesStep(f: Floats, parent: Schema, item: Schema, fields: map<Text, Value>, keys: seq<Text>, i: nat,
                    written: Text)
    requires item < parent && (forall j :: 0 <= j < |keys| ==> keys[j] in fields) && i < |keys|
    ensures After(written, EncodeEntries(f, parent, item, fields, keys[i..]))
            == match EncodeEntry(f, item, keys[i], fields[keys[i]])
               case Ok(bytes) => After(written + bytes, EncodeEntries(f, parent, item, fields, keys[i + 1..]))
               case Err(e) => Err(e)
  {
    assert keys[i..][0] == keys[i] && keys[i..][1..] == keys[i + 1..];
    EntriesParts(f, parent, item, fields, keys[i..]);
    AfterParts(written, EncodeEntry(f, item, keys[i], fields[keys[i]]),
               EncodeEntries(f, parent, item, fields, keys[i + 1..]),
               EncodeEntries(f, parent, item, fields, keys[i..]));
  }

  method EncodeEntryOf(f: Floats, ghost parent: Schema, item: Schema, key: Text, value: Value, writer: BinaryWriter)
    returns (failed: Option<EncodeError>)
    requires writer.Valid() && item < parent
    modifies writer, writer.buf
    ensures writer.Valid() && (writer.buf == old(writer.buf) || fresh(writer.buf))
    ensures Wrote(EncodeEntry(f, item, key, value), failed, old(writer.Contents()), writer.Contents())
    decreases item, 3, 0
  {
    ghost var before := writer.Contents();
    writer.WriteString(key);
    failed := EncodeValue(f, item, value, writer);
    WroteAfter(Encode(f, item, value), failed, before, StringBytes(key), writer.Contents());
  }

  /** One more entry written: the whole is what was written, then the rest. */
  method EncodeNextEntry(f: Floats, ghost parent: Schema, item: Schema, fields: map<Text, Value>, keys: seq<Text>,
                         i: nat,
                         ghost written: Text, writer: BinaryWriter)
    returns (failed: Option<EncodeError>, ghost entry: Text)
    requires writer.Valid() && item < parent && (forall j :: 0 <= j < |keys| ==> keys[j] in fields) && i < |keys|
    modifies writer, writer.buf
    ensures writer.Valid() && (writer.buf == old(writer.buf) || fresh(writer.buf))
    ensures failed.None? ==> writer.Contents() == old(writer.Contents()) + entry
    ensures After(written, EncodeEntries(f, parent, item, fields, keys[i..]))
            == if failed.Some? then Err(failed.value)
               else After(written + entry, EncodeEntries(f, parent, item, fields, keys[i + 1..]))
    decreases item, 4, 0
  {
    EntriesStep(f, parent, item, fields, keys, i, written);
    failed := EncodeEntryOf(f, parent, item, keys[i], fields[keys[i]], writer);
    ghost var bytes := EncodeEntry(f, item, keys[i], fields[keys[i]]);
    entry := if bytes.Ok? then bytes.value else [];
  }

  method EncodeEntriesOf(f: Floats, ghost parent: Schema, item: Schema, fields: map<Text, Value>, keys: seq<Text>,
                         writer: BinaryWriter)
    returns (failed: Option<EncodeError>)
    requires writer.Valid() && item < parent && forall i :: 0 <= i < |keys| ==> keys[i] in fields
    modifies writer, writer.buf
    ensures writer.Valid() && (writer.buf == old(writer.buf) || fresh(writer.buf))
    ensures Wrote(EncodeEntries(f, parent, item, fields, keys), failed, old(writer.Contents()), writer.Contents())
    decreases parent, 0, 0
  {
    ghost var written: Text := [];
    FromNothing(writer.Contents());
    ghost var spec := EncodeEntries(f, parent, item, fields, keys);
    WrittenNothing(spec);
    assert keys[0..] == keys;
    for i := 0 to |keys|
      invariant writer.Valid() && (writer.buf == old(writer.buf) || fresh(writer.buf))
      invariant writer.Contents() == old(writer.Contents()) + written
      invariant spec == After(written, EncodeEntries(f, parent, item, fields, keys[i..]))
    {
      ghost var entry;
      failed, entry := EncodeNextEntry(f, parent, item, fields, keys, i, written, writer);
      if failed.Some? {
        return;
      }
      Regroup(old(writer.Contents()), written, entry);
      written := written + entry;
    }
    assert keys[|keys|..] == [];
    FromNothing(written);
    return None;
  }

  method EncodeComponents(f: Floats, formats: seq<Format>, components: seq<Num>, writer: BinaryWriter)
    requires writer.Valid() && HasLayout(formats, components)
    modifies writer, writer.buf
    ensures writer.Valid() && (writer.buf == old(writer.buf) || fresh(writer.buf))
    ensures writer.Contents() == old(writer.Contents()) + ComponentBytes(f, formats, components)
  {
    for i := 0 to |formats|
      invariant writer.Valid() && (writer.buf == old(writer.buf) || fresh(writer.buf))
      invariant writer.Contents() + ComponentBytes(f, formats[i..], components[i..])
                == old(writer.Contents()) + ComponentBytes(f, formats, components)
    {
      assert formats[i..][1..] == formats[i + 1..] && components[i..][1..] == components[i + 1..];
      Regroup(writer.Contents(), NumberBytes(f, components[i], formats[i]),
              ComponentBytes(f, formats[i + 1..], components[i + 1..]));
      writer.WriteNumber(f, components[i], formats[i]);
    }
  }

  // ----- Decoding -----

  method DecodeValue(f: Floats, schema: Schema, reader: BinaryReader) returns (r: Result<Value, DecodeError>)
    requires reader.Valid()
    modifies reader`offset
    ensures reader.Has(Decode(f, schema, old(reader.Left())), r)
    decreases schema, 2, 0
  {
    match schema {
      case StringSchema(_, _, _) =>
        var text :- reader.ReadString();
        r := Ok(Of(Str(text)));
      case NumberSchema(format, _) =>
        var num :- reader.ReadNumber(f, format);
        r := Ok(Of(Number(num)));
      case BooleanSchema =>
        var flag :- reader.ReadU8();
        r := Ok(Of(Boolean(flag != 0)));
      case LiteralSchema(literal) => r := Ok(Of(literal));
      case ArraySchema(item, _, _) =>
        var count :- reader.ReadU32();
        var items :- DecodeParts(f, schema, Repeated(item, count), reader);
        r := Ok(Table(Pushed(items), map[]));
      case ObjectSchema(fields) =>
        SortedAreKeys(fields);
        var keys := SortedKeys(fields.Keys);
        var values :- DecodeParts(f, schema, SchemasFor(fields, keys), reader);
        r := Ok(Table([], FieldsOf(keys, values)));
      case OptionalSchema(inner) =>
        var present :- reader.ReadU8();
        if present == 0 {
          return Ok(Undefined);
        }
        r := DecodeValue(f, inner, reader);
      case RecordSchema(item, _) =>
        var count :- reader.ReadU32();
        var entries :- DecodeEntriesOf(f, schema, item, count, reader);
        r := Ok(Table([], Assigned(entries)));
      case TupleSchema(items) =>
        var values :- DecodeParts(f, schema, items, reader);
        r := Ok(Table(Pushed(values), map[]));
      case EnumSchema(values) =>
        var index :- reader.ReadU32();
        if index >= |values| {
          return Err(EnumIndexOutOfRange);
        }
        r := Ok(Of(values[index]));
      case UnionSchema(members, _) =>
        var index :- reader.ReadU32();
        if index >= |members| {
          return Err(UnionIndexOutOfRange);
        }
        r := DecodeValue(f, members[index], reader);
      case PackedSchema(kind) =>
        var components :- DecodeComponents(f, Layout(kind), reader);
        r := Ok(Userdata(kind, components));
      case DefaultSchema(_) => r := Err(CannotDecode);
      case InstanceSchema => r := Err(CannotDecode);
    }
  }

  /** The loops over the items of an array, the fields of an object and the items of a tuple. */
  method DecodeParts(f: Floats, ghost parent: Schema, schemas: seq<Schema>, reader: BinaryReader)
    returns (r: Result<seq<Value>, DecodeError>)
    requires reader.Valid() && forall i :: 0 <= i < |schemas| ==> schemas[i] < parent
    modifies reader`offset
    ensures reader.Has(DecodeAll(f, parent, schemas, old(reader.Left()), []), r)
    decreases parent, 1, 0
  {
    var values: seq<Value> := [];
    ghost var bytes := reader.Left();
    for i := 0 to |schemas|
      invariant reader.Valid()
      invariant DecodeAll(f, parent, schemas, bytes, []) == DecodeAll(f, parent, schemas[i..], reader.Left(), values)
    {
      assert schemas[i..][0] == schemas[i] && schemas[i..][1..] == schemas[i + 1..];
      var value :- DecodeValue(f, schemas[i], reader);
      values := values + [value];
    }
    assert schemas[|schemas|..] == [];
    return Ok(values);
  }

  method DecodeEntryOf(f: Floats, item: Schema, reader: BinaryReader) returns (r: Result<Entry, DecodeError>)
    requires reader.Valid()
    modifies reader`offset
    ensures reader.Has(DecodeEntry(f, item, old(reader.Left())), r)
    decreases item, 3, 0
  {
    var key :- reader.ReadString();
    var value :- DecodeValue(f, item, reader);
    r := Ok(Entry(key, value));
  }

  /** The loop over a record's entries. */
  method DecodeEntriesOf(f: Floats, ghost parent: Schema, item: Schema, count: nat, reader: BinaryReader)
    returns (r: Result<seq<Entry>, DecodeError>)
    requires reader.Valid() && item < parent
    modifies reader`offset
    ensures reader.Has(DecodeEntries(f, parent, item, count, old(reader.Left()), []), r)
    decreases parent, 1, 0
  {
    var entries: seq<Entry> := [];
    ghost var spec := DecodeEntries(f, parent, item, count, reader.Left(), entries);
    for left := count downto 0
      invariant reader.Valid()
      invariant spec == DecodeEntries(f, parent, item, left, reader.Left(), entries)
    {
      ghost var bytes := reader.Left();
      var entry := DecodeEntryOf(f, item, reader);
      if entry.Err? {
        EntryFirstFails(f, parent, item, left + 1, bytes, entries, entry.error);
        return Err(entry.error);
      }
      EntryFirst(f, parent, item, left + 1, bytes, entries, entry.value, reader.Left());
      entries := entries + [entry.value];
    }
    NoEntries(f, parent, item, reader.Left(), entries);
    return Ok(entries);
  }

  method DecodeComponents(f: Floats, formats: seq<Format>, reader: BinaryReader)
    returns (r: Result<seq<Num>, DecodeError>)
    requires reader.Valid()
    modifies reader`offset
    ensures reader.Has(ReadComponents(f, formats, old(reader.Left()), []), r)
  {
    var components: seq<Num> := [];
    ghost var bytes := reader.Left();
    for i := 0 to |formats|
      invariant reader.Valid()
      invariant ReadComponents(f, formats, bytes, []) == ReadComponents(f, formats[i..], reader.Left(), components)
    {
      assert formats[i..][0] == formats[i] && formats[i..][1..] == formats[i + 1..];
      var num :- reader.ReadNumber(f, formats[i]);
      components := components + [num];
    }
    assert formats[|formats|..] == [];
    return Ok(components);
  }

  // ----- Messages -----

  datatype MessageError = NoLayout | CannotWrite(reason: EncodeError) | CannotRead(why: DecodeError)
      | SchemaMismatch(expected: nat, actual: nat)

  method EncodeBinary(f: Floats, show: Show, schema: Schema, value: Value) returns (r: Result<Text, MessageError>)
    ensures if !HasLayoutText(schema) then r == Err(NoLayout)
            else match Encode(f, schema, value)
                 case Ok(bytes) => r == Ok(U32Bytes(Fingerprint(show, schema)) + bytes)
                 case Err(e) => r == Err(CannotWrite(e))
  {
    if !HasLayoutText(schema) {
      return Err(NoLayout);
    }
    var writer := new BinaryWriter(64);
    var fingerprint := SchemaFingerprint(show, schema);
    writer.WriteU32(fingerprint);
    FromNothing(U32Bytes(fingerprint));
    var failed := EncodeValue(f, schema, value, writer);
    if failed.Some? {
      return Err(CannotWrite(failed.value));
    }
    var bytes := writer.Finish();
    return Ok(bytes);
  }

  method DecodeBinary(f: Floats, show: Show, schema: Schema, bytes: Text) returns (r: Result<Value, MessageError>)
    ensures if !HasLayoutText(schema) then r == Err(NoLayout)
            else r == Decoded(f, show, schema, bytes)
  {
    if !HasLayoutText(schema) {
      return Err(NoLayout);
    }
    var reader := new BinaryReader(bytes);
    var expected := SchemaFingerprint(show, schema);
    assert reader.Left() == bytes;
    var actual := reader.ReadU32();
    if actual.Err? {
      return Err(CannotRead(actual.error));
    }
    if actual.value != expected {
      return Err(SchemaMismatch(expected, actual.value));
    }
    var value := DecodeValue(f, schema, reader);
    if value.Err? {
      return Err(CannotRead(value.error));
    }
    return Ok(value.value);
  }

  /** What a message decodes to: nothing unless it carries the schema's fingerprint. */
  function Decoded(f: Floats, show: Show, schema: Schema, bytes: Text): Result<Value, MessageError> {
    match ReadU32(bytes)
    case Err(e) => Err(CannotRead(e))
    case Ok(actual) =>
      if actual.value != Fingerprint(show, schema) then Err(SchemaMismatch(Fingerprint(show, schema), actual.value))
      else
        match Decode(f, schema, actual.rest)
        case Err(e) => Err(CannotRead(e))
        case Ok(read) => Ok(read.value)
  }

  function Message(f: Floats, show: Show, schema: Schema, bytes: Text): Text {
    U32Bytes(Fingerprint(show, schema)) + bytes
  }

  lemma {:induction false} SupportedHasLayout(schema: Schema)
    requires Supported(schema)
    ensures HasLayoutText(schema)
  {
    match schema {
      case ArraySchema(item, _, _) => SupportedHasLayout(item);
      case ObjectSchema(fields) =>
        forall key | key in fields ensures HasLayoutText(fields[key]) {
          SupportedHasLayout(fields[key]);
        }
      case OptionalSchema(inner) => SupportedHasLayout(inner);
      case RecordSchema(item, _) => SupportedHasLayout(item);
      case TupleSchema(items) =>
        forall i | 0 <= i < |items| ensures HasLayoutText(items[i]) {
          SupportedHasLayout(items[i]);
        }
      case UnionSchema(members, _) =>
        forall i | 0 <= i < |members| ensures HasLayoutText(members[i]) {
          SupportedHasLayout(members[i]);
        }
      case _ =>
    }
  }

  lemma FingerprintWritten(f: Floats, show: Show, schema: Schema, bytes: Text)
    ensures ReadU32(Message(f, show, schema, bytes)) == Ok(Read(Fingerprint(show, schema), bytes))
  {
    U32Written(Fingerprint(show, schema), bytes);
  }

  /** A valid value's message decodes, to the value itself exactly when it is exact; anything after it is ignored. */
  lemma MessageRoundTrip(f: Floats, show: Show, schema: Schema, value: Value, more: Text)
    requires IsFloats(f) && Supported(schema) && Storable(value) && Validates(schema, value)
    ensures HasLayoutText(schema) && Encode(f, schema, value).Ok?
    ensures Decoded(f, show, schema, Message(f, show, schema, Encode(f, schema, value).value) + more)
            == Ok(Kept(f, schema, value))
    ensures Kept(f, schema, value) == value <==> Exact(f, schema, value)
  {
    SupportedHasLayout(schema);
    ValidatesFits(schema, value);
    RoundTrip(f, schema, value, more);
    KeptIsExact(f, schema, value);
    var bytes := Encode(f, schema, value).value;
    Regroup(U32Bytes(Fingerprint(show, schema)), bytes, more);
    FingerprintWritten(f, show, schema, bytes + more);
  }

  lemma CutAfterHead(head: Text, bytes: Text, k: nat)
    requires |head| == 4 <= k <= |head| + |bytes|
    ensures (head + bytes)[..k] == head + bytes[..k - 4]
  {
  }

  /** A message cut short anywhere is rejected. */
  lemma TruncatedMessageIsRejected(f: Floats, show: Show, schema: Schema, value: Value, k: nat)
    requires IsFloats(f) && Supported(schema) && Storable(value) && Validates(schema, value)
    ensures Encode(f, schema, value).Ok?
    ensures var message := Message(f, show, schema, Encode(f, schema, value).value);
            k < |message| ==> Decoded(f, show, schema, message[..k]) == Err(CannotRead(PastEnd))
  {
    ValidatesFits(schema, value);
    TruncatedEncodingIsRejected(f, schema, value, if k < 4 then 0 else k - 4);
    var bytes := Encode(f, schema, value).value;
    var message := Message(f, show, schema, bytes);
    if 4 <= k < |message| {
      CutAfterHead(U32Bytes(Fingerprint(show, schema)), bytes, k);
      FingerprintWritten(f, show, schema, bytes[..k - 4]);
    }
  }
}
