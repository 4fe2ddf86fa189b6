/** What the binary codec writes for a value of a schema, and what it reads back. */
module BinaryCodec {
  import opened Bytes
  import opened Order
  import opened Schemas
  import opened Wrappers

  /** `WrongShape` is a value the schema does not describe, which the encoder is never given. */
  datatype EncodeError = NotAnEnumMember | NoUnionMember | CannotEncode | WrongShape

  datatype DecodeError = PastEnd | EnumIndexOutOfRange | UnionIndexOutOfRange | CannotDecode

  // ----- Numbers -----

  /** How the runtime packs floats: as bit patterns of eight and of four bytes. */
  datatype Floats = Floats(to64: Num -> nat, of64: nat -> Num, to32: Num -> nat, of32: nat -> Num)

  /** A bit pattern fits its bytes, and a number read from one is kept by writing it. */
  ghost predicate IsFloats(f: Floats) {
    && (forall x :: f.to64(x) < Power(8)) && (forall x :: f.to32(x) < Power(4))
    && (forall code :: f.of64(f.to64(f.of64(code))) == f.of64(code))
    && (forall code :: f.of32(f.to32(f.of32(code))) == f.of32(code))
  }

  function Code(f: Floats, num: Num, format: Format): nat
    requires Admits(format, num)
  {
    if format.F64? then f.to64(num)
    else if format.F32? then f.to32(num)
    else
      var n := num.value.Floor;
      if n < 0 then n + Span(format) else n
  }

  function FromCode(f: Floats, code: nat, format: Format): Num {
    match format
    case F64 => f.of64(code)
    case F32 => f.of32(code)
    case _ => Finite((if IsSigned(format) && code >= Span(format) / 2 then code - Span(format) else code) as real)
  }

  /** What a format makes of a number: floats are rounded to it, whole numbers in range are kept. */
  function Rounded(f: Floats, num: Num, format: Format): Num {
    match format
    case F64 => f.of64(f.to64(num))
    case F32 => f.of32(f.to32(num))
    case _ => num
  }

  lemma CodeIsExact(f: Floats, num: Num, format: Format)
    requires IsFloats(f) && Admits(format, num)
    ensures Code(f, num, format) < Power(Width(format))
    ensures FromCode(f, Code(f, num, format), format) == Rounded(f, num, format)
  {
    Powers();
  }

  lemma FromCodeIsAdmitted(f: Floats, code: nat, format: Format)
    requires IsFloats(f) && code < Power(Width(format))
    ensures Admits(format, FromCode(f, code, format))
    ensures Rounded(f, FromCode(f, code, format), format) == FromCode(f, code, format)
  {
    Powers();
  }

  function NumberBytes(f: Floats, num: Num, format: Format): Text
    requires Admits(format, num)
  {
    Little(Code(f, num, format), Width(format))
  }

  function U32Bytes(n: nat): Text {
    Little(n, 4)
  }

  function StringBytes(text: Text): Text {
    U32Bytes(|text|) + text
  }

  function ComponentBytes(f: Floats, formats: seq<Format>, components: seq<Num>): Text
    requires HasLayout(formats, components)
  {
    if formats == [] then []
    else NumberBytes(f, components[0], formats[0]) + ComponentBytes(f, formats[1..], components[1..])
  }

  // ----- Encoding -----

  /** A value to be written by a schema. */
  datatype Part = Part(schema: Schema, value: Value)

  function ArrayParts(item: Schema, items: seq<Value>): seq<Part> {
    seq(|items|, i requires 0 <= i < |items| => Part(item, items[i]))
  }

  function TupleParts(schemas: seq<Schema>, items: seq<Value>): seq<Part> {
    seq(|schemas|, i requires 0 <= i < |schemas| => Part(schemas[i], Item(items, i)))
  }

  function ObjectParts(fields: map<Text, Schema>, keys: seq<Text>, value: Value): seq<Part>
    requires value.Table? && forall i :: 0 <= i < |keys| ==> keys[i] in fields
  {
    seq(|keys|, i requires 0 <= i < |keys| => Part(fields[keys[i]], Field(value, keys[i])))
  }

  lemma SortedAreKeys<V>(fields: map<Text, V>)
    ensures forall i :: 0 <= i < |Sorted(fields.Keys)| ==> Sorted(fields.Keys)[i] in fields
  {
    var keys := Sorted(fields.Keys);
    forall i | 0 <= i < |keys| ensures keys[i] in fields {
      assert keys[i] in Elements(keys);
    }
  }

  function IndexOf(values: seq<Scalar>, value: Value, from: nat := 0): (r: Option<nat>)
    requires from <= |values|
    ensures r.Some? ==> from <= r.value < |values| && value == Of(values[r.value])
    ensures r.None? ==> forall i :: from <= i < |values| ==> value != Of(values[i])
    decreases |values| - from
  {
    if from == |values| then None
    else if Of(values[from]) == value then Some(from)
    else IndexOf(values, value, from + 1)
  }

  function Encode(f: Floats, schema: Schema, value: Value): Result<Text, EncodeError>
    decreases schema, 1, 0
  {
    match schema
    case StringSchema(_, _, _) =>
      if value.Of? && value.scalar.Str? then Ok(StringBytes(value.scalar.text)) else Err(WrongShape)
    case NumberSchema(format, _) =>
      if value.Of? && value.scalar.Number? && Admits(format, value.scalar.num) then
        Ok(NumberBytes(f, value.scalar.num, format))
      else Err(WrongShape)
    case BooleanSchema =>
      if value.Of? && value.scalar.Boolean? then Ok([if value.scalar.flag then 1 else 0]) else Err(WrongShape)
    case LiteralSchema(_) => Ok([])
    case ArraySchema(item, _, _) =>
      if !value.Table? then Err(WrongShape)
      else
        var bytes :- EncodeAll(f, schema, ArrayParts(item, value.items));
        Ok(U32Bytes(|value.items|) + bytes)
    case ObjectSchema(fields) =>
      if !value.Table? then Err(WrongShape)
      else
        SortedAreKeys(fields);
        EncodeAll(f, schema, ObjectParts(fields, Sorted(fields.Keys), value))
    case OptionalSchema(inner) =>
      if value == Undefined then Ok([0])
      else
        var bytes :- Encode(f, inner, value);
        Ok([1] + bytes)
    case RecordSchema(item, _) =>
      if !value.Table? || value.items != [] then Err(WrongShape)
      else
        SortedAreKeys(value.fields);
        var bytes :- EncodeEntries(f, schema, item, value.fields, Sorted(value.fields.Keys));
        Ok(U32Bytes(|Sorted(value.fields.Keys)|) + bytes)
    case TupleSchema(items) =>
      if !value.Table? then Err(WrongShape) else EncodeAll(f, schema, TupleParts(items, value.items))
    case EnumSchema(values) =>
      (match IndexOf(values, value)
       case None => Err(NotAnEnumMember)
       case Some(index) => Ok(U32Bytes(index)))
    case UnionSchema(members, _) =>
      (match FirstMember(members, value)
       case None => Err(NoUnionMember)
       case Some(index) =>
         var bytes :- Encode(f, members[index], value);
         Ok(U32Bytes(index) + bytes))
    case PackedSchema(kind) =>
      if value.Userdata? && value.kind == kind && HasLayout(Layout(kind), value.components)
      then Ok(ComponentBytes(f, Layout(kind), value.components)) else Err(WrongShape)
    case DefaultSchema(_) | InstanceSchema => Err(CannotEncode)
  }

  function EncodeAll(f: Floats, ghost parent: Schema, parts: seq<Part>): Result<Text, EncodeError>
    requires forall i :: 0 <= i < |parts| ==> parts[i].schema < parent
    decreases parent, 0, |parts|
  {
    if parts == [] then Ok([])
    else
      var first :- Encode(f, parts[0].schema, parts[0].value);
      var rest :- EncodeAll(f, parent, parts[1..]);
      Ok(first + rest)
  }

  function EncodeEntries(f: Floats, ghost parent: Schema, item: Schema, fields: map<Text, Value>, keys: seq<Text>):
      Result<Text, EncodeError>
    requires item < parent && forall i :: 0 <= i < |keys| ==> keys[i] in fields
    decreases parent, 0, |keys|
  {
    if keys == [] then Ok([])
    else
      var first :- EncodeEntry(f, item, keys[0], fields[keys[0]]);
      var rest :- EncodeEntries(f, parent, item, fields, keys[1..]);
      Ok(first + rest)
  }

  /** A record's entry: its key, then its value. */
  function EncodeEntry(f: Floats, item: Schema, key: Text, value: Value): Result<Text, EncodeError>
    decreases item, 3, 0
  {
    var bytes :- Encode(f, item, value);
    Ok(StringBytes(key) + bytes)
  }

  // ----- Decoding -----

  /** Something read, and the bytes after it. */
  datatype Read<+T> = Read(value: T, rest: Text)

  function Take(bytes: Text, n: nat): Result<Read<Text>, DecodeError> {
    if |bytes| < n then Err(PastEnd) else Ok(Read(bytes[..n], bytes[n..]))
  }

  function ReadU32(bytes: Text): Result<Read<nat>, DecodeError> {
    var word :- Take(bytes, 4);
    Ok(Read(FromLittle(word.value), word.rest))
  }

  function ReadString(bytes: Text): Result<Read<Text>, DecodeError> {
    var length :- ReadU32(bytes);
    Take(length.rest, length.value)
  }

  function ReadNumber(f: Floats, format: Format, bytes: Text): Result<Read<Num>, DecodeError> {
    var word :- Take(bytes, Width(format));
    Ok(Read(FromCode(f, FromLittle(word.value), format), word.rest))
  }

  function ReadComponents(f: Floats, formats: seq<Format>, bytes: Text, done: seq<Num>):
      Result<Read<seq<Num>>, DecodeError>
    decreases |formats|, |bytes|
  {
    if formats == [] then Ok(Read(done, bytes))
    else
      var first :- ReadNumber(f, formats[0], bytes);
      ReadComponents(f, formats[1..], first.rest, done + [first.value])
  }

  /** Pushing an undefined value onto a list leaves the list as it is. */
  function Pushed(values: seq<Value>): seq<Value> {
    if values == [] then []
    else
      var last := |values| - 1;
      if values[last] == Undefined then Pushed(values[..last]) else Pushed(values[..last]) + [values[last]]
  }

  /** Assigning an undefined value to a field removes it. */
  function Assign(fields: map<Text, Value>, key: Text, value: Value): map<Text, Value> {
    if value == Undefined then fields - {key} else fields[key := value]
  }

  function FieldsOf(keys: seq<Text>, values: seq<Value>): map<Text, Value>
    requires |keys| == |values|
  {
    if keys == [] then map[]
    else
      var last := |keys| - 1;
      Assign(FieldsOf(keys[..last], values[..last]), keys[last], values[last])
  }

  /** What a record's loop reads: keys and values in the order they come, a later one for a key replacing it. */
  datatype Entry = Entry(key: Text, value: Value)

  function EntryKeys(entries: seq<Entry>): seq<Text> {
    seq(|entries|, i requires 0 <= i < |entries| => entries[i].key)
  }

  function EntryValues(entries: seq<Entry>): seq<Value> {
    seq(|entries|, i requires 0 <= i < |entries| => entries[i].value)
  }

  function Assigned(entries: seq<Entry>): map<Text, Value> {
    FieldsOf(EntryKeys(entries), EntryValues(entries))
  }

  function SchemasFor(fields: map<Text, Schema>, keys: seq<Text>): seq<Schema>
    requires forall i :: 0 <= i < |keys| ==> keys[i] in fields
  {
    seq(|keys|, i requires 0 <= i < |keys| => fields[keys[i]])
  }

  function Repeated(item: Schema, count: nat): seq<Schema> {
    seq(count, _ => item)
  }

  function Decode(f: Floats, schema: Schema, bytes: Text): Result<Read<Value>, DecodeError>
    decreases schema, 1, 0
  {
    match schema
    case StringSchema(_, _, _) =>
      var text :- ReadString(bytes);
      Ok(Read(Of(Str(text.value)), text.rest))
    case NumberSchema(format, _) =>
      var num :- ReadNumber(f, format, bytes);
      Ok(Read(Of(Number(num.value)), num.rest))
    case BooleanSchema =>
      var flag :- Take(bytes, 1);
      Ok(Read(Of(Boolean(flag.value[0] != 0)), flag.rest))
    case LiteralSchema(literal) => Ok(Read(Of(literal), bytes))
    case ArraySchema(item, _, _) =>
      var count :- ReadU32(bytes);
      var items :- DecodeAll(f, schema, Repeated(item, count.value), count.rest, []);
      Ok(Read(Table(Pushed(items.value), map[]), items.rest))
    case ObjectSchema(fields) =>
      SortedAreKeys(fields);
      var keys := Sorted(fields.Keys);
      var values :- DecodeAll(f, schema, SchemasFor(fields, keys), bytes, []);
      Ok(Read(Table([], FieldsOf(keys, values.value)), values.rest))
    case OptionalSchema(inner) =>
      var present :- Take(bytes, 1);
      if present.value[0] == 0 then Ok(Read(Undefined, present.rest)) else Decode(f, inner, present.rest)
    case RecordSchema(item, _) =>
      var count :- ReadU32(bytes);
      var entries :- DecodeEntries(f, schema, item, count.value, count.rest, []);
      Ok(Read(Table([], Assigned(entries.value)), entries.rest))
    case TupleSchema(items) =>
      var values :- DecodeAll(f, schema, items, bytes, []);
      Ok(Read(Table(Pushed(values.value), map[]), values.rest))
    case EnumSchema(values) =>
      var index :- ReadU32(bytes);
      if index.value >= |values| then Err(EnumIndexOutOfRange) else Ok(Read(Of(values[index.value]), index.rest))
    case UnionSchema(members, _) =>
      var index :- ReadU32(bytes);
      if index.value >= |members| then Err(UnionIndexOutOfRange) else Decode(f, members[index.value], index.rest)
    case PackedSchema(kind) =>
      var components :- ReadComponents(f, Layout(kind), bytes, []);
      Ok(Read(Userdata(kind, components.value), components.rest))
    case DefaultSchema(_) | InstanceSchema => Err(CannotDecode)
  }

  function DecodeAll(f: Floats, ghost parent: Schema, schemas: seq<Schema>, bytes: Text, done: seq<Value>):
    (r: Result<Read<seq<Value>>, DecodeError>)
    requires forall i :: 0 <= i < |schemas| ==> schemas[i] < parent
    ensures r.Ok? ==> |r.value.value| == |done| + |schemas|
    decreases parent, 0, |schemas|
  {
    if schemas == [] then Ok(Read(done, bytes))
    else
      var first :- Decode(f, schemas[0], bytes);
      DecodeAll(f, parent, schemas[1..], first.rest, done + [first.value])
  }

  function DecodeEntries(f: Floats, ghost parent: Schema, item: Schema, count: nat, bytes: Text, done: seq<Entry>):
    Result<Read<seq<Entry>>, DecodeError>
    requires item < parent
    decreases parent, 0, count
  {
    if count == 0 then Ok(Read(done, bytes))
    else
      var first :- DecodeEntry(f, item, bytes);
      DecodeEntries(f, parent, item, count - 1, first.rest, done + [first.value])
  }

  function DecodeEntry(f: Floats, item: Schema, bytes: Text): Result<Read<Entry>, DecodeError>
    decreases item, 3, 0
  {
    var key :- ReadString(bytes);
    var value :- Decode(f, item, key.rest);
    Ok(Read(Entry(key.value, value.value), value.rest))
  }

  // ----- One step of the loops -----

  lemma DecodeFirst(f: Floats, parent: Schema, schemas: seq<Schema>, bytes: Text, done: seq<Value>, value: Value,
                    rest: Text)
    requires (forall i :: 0 <= i < |schemas| ==> schemas[i] < parent) && schemas != []
    requires Decode(f, schemas[0], bytes) == Ok(Read(value, rest))
    ensures DecodeAll(f, parent, schemas, bytes, done) == DecodeAll(f, parent, schemas[1..], rest, done + [value])
  {
  }

  lemma DecodeFirstFails(f: Floats, parent: Schema, schemas: seq<Schema>, bytes: Text, done: seq<Value>, e: DecodeError)
    requires (forall i :: 0 <= i < |schemas| ==> schemas[i] < parent) && schemas != []
    requires Decode(f, schemas[0], bytes) == Err(e)
    ensures DecodeAll(f, parent, schemas, bytes, done) == Err(e)
  {
  }

  lemma DecodeNone(f: Floats, parent: Schema, schemas: seq<Schema>, bytes: Text, done: seq<Value>)
    requires schemas == []
    ensures DecodeAll(f, parent, schemas, bytes, done) == Ok(Read(done, bytes))
  {
  }

  lemma EntryFirst(f: Floats, parent: Schema, item: Schema, count: nat, bytes: Text, done: seq<Entry>, entry: Entry,
                   rest: Text)
    requires item < parent && count > 0 && DecodeEntry(f, item, bytes) == Ok(Read(entry, rest))
    ensures DecodeEntries(f, parent, item, count, bytes, done)
            == DecodeEntries(f, parent, item, count - 1, rest, done + [entry])
  {
  }

  lemma EntryFirstFails(f: Floats, parent: Schema, item: Schema, count: nat, bytes: Text, done: seq<Entry>,
                        e: DecodeError)
    requires item < parent && count > 0 && DecodeEntry(f, item, bytes) == Err(e)
    ensures DecodeEntries(f, parent, item, count, bytes, done) == Err(e)
  {
  }

  lemma NoEntries(f: Floats, parent: Schema, item: Schema, bytes: Text, done: seq<Entry>)
    requires item < parent
    ensures DecodeEntries(f, parent, item, 0, bytes, done) == Ok(Read(done, bytes))
  {
  }
}
