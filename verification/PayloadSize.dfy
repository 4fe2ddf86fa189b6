/** The compiler's bound on a payload's size, and the runtime's estimate of a signal's. */
module PayloadSize {
  import opened BinaryCodec
  import opened BinaryMessages
  import opened Bytes
  import opened CodecRoundTrip
  import opened Order
  import opened SchemaLayout
  import opened Schemas
  import opened Utf8
  import opened Wrappers

  const BINARY_FRAME_HEADER_BYTES: nat := 4
  const WIRE_VALUE_ALLOWANCE_BYTES: nat := 8
  const WIRE_SIGNAL_FRAME_VALUES: nat := 9
  const WIRE_SIGNAL_FRAME_KEY_BYTES: nat := 3
  const WIRE_SIGNAL_FRAME_OVERHEAD_BYTES: nat :=
      WIRE_SIGNAL_FRAME_VALUES * WIRE_VALUE_ALLOWANCE_BYTES + WIRE_SIGNAL_FRAME_KEY_BYTES

  function SignalMessageBytes(signalId: Text, payloadBytes: nat): nat {
    payloadBytes + |signalId| + WIRE_SIGNAL_FRAME_OVERHEAD_BYTES
  }

  // ----- The compile-time bound -----

  function Min(m: nat, n: nat): nat {
    if m <= n then m else n
  }

  function Max(m: nat, n: nat): nat {
    if m <= n then n else m
  }

  function MaxStringBytes(maxLength: Option<nat>, maxChars: Option<nat>): Option<nat> {
    match (maxLength, maxChars)
    case (Some(bytes), Some(chars)) => Some(Min(bytes, chars * 4))
    case (Some(bytes), None) => Some(bytes)
    case (None, Some(chars)) => Some(chars * 4)
    case (None, None) => None
  }

  function Plus(m: Option<nat>, n: Option<nat>): Option<nat> {
    if m.Some? && n.Some? then Some(m.value + n.value) else None
  }

  /** The largest payload a schema's values encode to, without the frame header, if anything bounds it. */
  function MaxEncodedPayloadBytes(schema: Schema): Option<nat>
    decreases schema, 1, 0
  {
    match schema
    case StringSchema(maxLength, maxChars, _) => Plus(Some(4), MaxStringBytes(maxLength, maxChars))
    case NumberSchema(format, _) =>
      (match format
       case U8 | I8 => Some(1)
       case U16 | I16 => Some(2)
       case U32 | I32 | F32 => Some(4)
       case F64 => Some(8))
    case BooleanSchema => Some(1)
    case LiteralSchema(_) => Some(0)
    case EnumSchema(_) => Some(4)
    case ArraySchema(item, maxItems, _) =>
      var bytes := MaxEncodedPayloadBytes(item);
      if maxItems.None? || bytes.None? then None else Some(4 + maxItems.value * bytes.value)
    case ObjectSchema(fields) =>
      SortedAreKeys(fields);
      SumOf(schema, SchemasFor(fields, Sorted(fields.Keys)))
    case TupleSchema(items) => SumOf(schema, items)
    case OptionalSchema(inner) => Plus(Some(1), MaxEncodedPayloadBytes(inner))
    case UnionSchema(members, _) => Plus(Some(4), LargestOf(schema, members))
    case PackedSchema(kind) =>
      (match kind
       case Vector2 => Some(8)
       case Vector3 | Color3 => Some(12)
       case CFrame => Some(48)
       case UDim => Some(8)
       case UDim2 => Some(16)
       case DateTime => Some(8)
       case BrickColor => Some(2))
    case RecordSchema(_, _) | DefaultSchema(_) | InstanceSchema => None
  }

  function SumOf(ghost parent: Schema, schemas: seq<Schema>): Option<nat>
    requires forall i :: 0 <= i < |schemas| ==> schemas[i] < parent
    decreases parent, 0, |schemas|
  {
    if schemas == [] then Some(0) else Plus(MaxEncodedPayloadBytes(schemas[0]), SumOf(parent, schemas[1..]))
  }

  function LargestOf(ghost parent: Schema, schemas: seq<Schema>): Option<nat>
    requires forall i :: 0 <= i < |schemas| ==> schemas[i] < parent
    decreases parent, 0, |schemas|
  {
    if schemas == [] then Some(0)
    else
      var first := MaxEncodedPayloadBytes(schemas[0]);
      var rest := LargestOf(parent, schemas[1..]);
      if first.None? || rest.None? then None else Some(Max(first.value, rest.value))
  }

  // ----- The largest encoding -----

  /** What a list takes: four bytes for its length if it can hold nothing, or only items of no bytes. */
  function ListCeiling(maxItems: Option<nat>, item: Option<nat>): Option<nat> {
    if maxItems == Some(0) || item == Some(0) then Some(4)
    else if maxItems.None? || item.None? then None
    else Some(4 + maxItems.value * item.value)
  }

  /** The most bytes a schema's values encode to, without the frame header. */
  function Ceiling(schema: Schema): Option<nat>
    decreases schema, 1, 0
  {
    match schema
    case ArraySchema(item, maxItems, _) =>
      ListCeiling(maxItems, Ceiling(item))
    case ObjectSchema(fields) =>
      SortedAreKeys(fields);
      SumOfCeilings(schema, SchemasFor(fields, Sorted(fields.Keys)))
    case TupleSchema(items) => SumOfCeilings(schema, items)
    case OptionalSchema(inner) => Plus(Some(1), Ceiling(inner))
    case UnionSchema(members, _) => Plus(Some(4), HighestOf(schema, members))
    case _ => MaxEncodedPayloadBytes(schema)
  }

  function SumOfCeilings(ghost parent: Schema, schemas: seq<Schema>): Option<nat>
    requires forall i :: 0 <= i < |schemas| ==> schemas[i] < parent
    decreases parent, 0, |schemas|
  {
    if schemas == [] then Some(0) else Plus(Ceiling(schemas[0]), SumOfCeilings(parent, schemas[1..]))
  }

  function HighestOf(ghost parent: Schema, schemas: seq<Schema>): Option<nat>
    requires forall i :: 0 <= i < |schemas| ==> schemas[i] < parent
    decreases parent, 0, |schemas|
  {
    if schemas == [] then Some(0)
    else
      var first := Ceiling(schemas[0]);
      var rest := HighestOf(parent, schemas[1..]);
      if first.None? || rest.None? then None else Some(Max(first.value, rest.value))
  }

  /** A bound the compiler finds is the ceiling. */
  lemma {:induction false} BoundIsCeiling(schema: Schema)
    ensures MaxEncodedPayloadBytes(schema).Some? ==> Ceiling(schema) == MaxEncodedPayloadBytes(schema)
    decreases schema, 1, 0
  {
    match schema {
      case ArraySchema(item, _, _) => BoundIsCeiling(item);
      case ObjectSchema(fields) =>
        SortedAreKeys(fields);
        SumsAreCeilings(schema, SchemasFor(fields, Sorted(fields.Keys)));
      case TupleSchema(items) => SumsAreCeilings(schema, items);
      case OptionalSchema(inner) => BoundIsCeiling(inner);
      case UnionSchema(members, _) => LargestIsHighest(schema, members);
      case _ =>
    }
  }

  lemma {:induction false} SumsAreCeilings(parent: Schema, schemas: seq<Schema>)
    requires forall i :: 0 <= i < |schemas| ==> schemas[i] < parent
    ensures SumOf(parent, schemas).Some? ==> SumOfCeilings(parent, schemas) == SumOf(parent, schemas)
    decreases parent, 0, |schemas|
  {
    if schemas != [] {
      BoundIsCeiling(schemas[0]);
      SumsAreCeilings(parent, schemas[1..]);
    }
  }

  lemma {:induction false} LargestIsHighest(parent: Schema, schemas: seq<Schema>)
    requires forall i :: 0 <= i < |schemas| ==> schemas[i] < parent
    ensures LargestOf(parent, schemas).Some? ==> HighestOf(parent, schemas) == LargestOf(parent, schemas)
    decreases parent, 0, |schemas|
  {
    if schemas != [] {
      BoundIsCeiling(schemas[0]);
      LargestIsHighest(parent, schemas[1..]);
    }
  }

  // ----- It bounds every encoding -----

  ghost predicate Within(f: Floats, schema: Schema, value: Value, bound: Option<nat>) {
    Encode(f, schema, value).Ok? && (bound.Some? ==> |Encode(f, schema, value).value| <= bound.value)
  }

  lemma StringIsBounded(schema: Schema, value: Value)
    requires schema.StringSchema? && Validates(schema, value)
    ensures var limit := MaxStringBytes(schema.maxLength, schema.maxChars);
            limit.Some? ==> |value.scalar.text| <= limit.value
  {
    if schema.maxChars.Some? {
      CharsAreShort(value.scalar.text);
    }
  }

  lemma {:induction false} ComponentsTake(f: Floats, formats: seq<Format>, components: seq<Num>)
    requires HasLayout(formats, components)
    ensures |ComponentBytes(f, formats, components)| == WidthOf(formats)
  {
    if formats != [] {
      ComponentsTake(f, formats[1..], components[1..]);
    }
  }

  function WidthOf(formats: seq<Format>): nat {
    if formats == [] then 0 else Width(formats[0]) + WidthOf(formats[1..])
  }

  lemma {:induction false} WidthsAlike(formats: seq<Format>, width: nat)
    requires forall i :: 0 <= i < |formats| ==> Width(formats[i]) == width
    ensures WidthOf(formats) == |formats| * width
  {
    if formats != [] {
      WidthsAlike(formats[1..], width);
      OneMore(|formats|, width);
    }
  }

  lemma OneMore(count: nat, k: nat)
    requires count > 0
    ensures k + (count - 1) * k == count * k
  {
  }

  lemma PackedTakes(kind: Packed)
    ensures MaxEncodedPayloadBytes(PackedSchema(kind)) == Some(WidthOf(Layout(kind)))
  {
    WidthsAlike(Layout(kind), Width(Layout(kind)[0]));
  }

  ghost predicate Valid(schema: Schema, value: Value) {
    Supported(schema) && Storable(value) && Validates(schema, value)
  }

  lemma ValidEncodes(f: Floats, schema: Schema, value: Value)
    requires IsFloats(f) && Valid(schema, value)
    ensures Encode(f, schema, value).Ok?
  {
    ValidatesFits(schema, value);
    RoundTrip(f, schema, value, []);
  }

  /** No valid value encodes to more than its schema's ceiling. */
  lemma {:induction false} CeilingBounds(f: Floats, schema: Schema, value: Value)
    requires IsFloats(f) && Valid(schema, value)
    ensures Within(f, schema, value, Ceiling(schema))
    decreases schema, 2, 0
  {
    ValidEncodes(f, schema, value);
    match schema {
      case StringSchema(_, _, _) => StringIsBounded(schema, value);
      case ArraySchema(_, _, _) => ArrayIsBounded(f, schema, value);
      case ObjectSchema(_) => ObjectIsBounded(f, schema, value);
      case TupleSchema(items) => TupleIsBounded(f, schema, value);
      case OptionalSchema(inner) => if value != Undefined { CeilingBounds(f, inner, value); }
      case UnionSchema(_, _) => UnionIsBounded(f, schema, value);
      case PackedSchema(kind) =>
        PackedTakes(kind);
        ComponentsTake(f, Layout(kind), value.components);
      case _ =>
    }
  }

  lemma UnionIsBounded(f: Floats, schema: Schema, value: Value)
    requires schema.UnionSchema? && IsFloats(f) && Valid(schema, value)
    ensures Within(f, schema, value, Ceiling(schema))
    decreases schema, 1, 0
  {
    UnionHasMember(schema, value);
    var index := FirstMember(schema.members, value).value;
    CeilingBounds(f, schema.members[index], value);
    if HighestOf(schema, schema.members).Some? {
      HighestIsHighest(schema, schema.members, index);
    }
  }

  lemma {:induction false} HighestIsHighest(parent: Schema, schemas: seq<Schema>, i: nat)
    requires (forall i :: 0 <= i < |schemas| ==> schemas[i] < parent) && i < |schemas|
             && HighestOf(parent, schemas).Some?
    ensures Ceiling(schemas[i]).Some?
            && Ceiling(schemas[i]).value <= HighestOf(parent, schemas).value
    decreases |schemas|
  {
    if i > 0 {
      HighestIsHighest(parent, schemas[1..], i - 1);
    }
  }

  ghost predicate AllValid(parts: seq<Part>) {
    forall i :: 0 <= i < |parts| ==> Valid(parts[i].schema, parts[i].value)
  }

  lemma {:induction false} PartsAreBounded(f: Floats, parent: Schema, parts: seq<Part>)
    requires IsFloats(f) && (forall i :: 0 <= i < |parts| ==> parts[i].schema < parent) && AllValid(parts)
    ensures EncodeAll(f, parent, parts).Ok?
    ensures var sum := SumOfCeilings(parent, SchemasOf(parts));
            sum.Some? ==> |EncodeAll(f, parent, parts).value| <= sum.value
    decreases parent, 0, |parts|
  {
    if parts != [] {
      CeilingBounds(f, parts[0].schema, parts[0].value);
      PartsAreBounded(f, parent, parts[1..]);
      SchemasTail(parts);
    }
  }

  lemma TupleIsBounded(f: Floats, schema: Schema, value: Value)
    requires schema.TupleSchema? && IsFloats(f) && Valid(schema, value)
    ensures Within(f, schema, value, Ceiling(schema))
    decreases schema, 1, 0
  {
    PartsAreBounded(f, schema, TupleParts(schema.items, value.items));
    SchemasOfTuple(schema.items, value.items);
  }

  lemma ObjectIsBounded(f: Floats, schema: Schema, value: Value)
    requires schema.ObjectSchema? && IsFloats(f) && Valid(schema, value)
    ensures Within(f, schema, value, Ceiling(schema))
    decreases schema, 1, 0
  {
    SortedAreKeys(schema.fields);
    var keys := Sorted(schema.fields.Keys);
    ObjectPartsValid(schema, keys, value);
    PartsAreBounded(f, schema, ObjectParts(schema.fields, keys, value));
    SchemasOfObject(schema.fields, keys, value);
  }

  lemma ObjectPartsValid(schema: Schema, keys: seq<Text>, value: Value)
    requires schema.ObjectSchema? && Valid(schema, value) && forall i :: 0 <= i < |keys| ==> keys[i] in schema.fields
    ensures AllValid(ObjectParts(schema.fields, keys, value))
    ensures forall i :: 0 <= i < |keys| ==> ObjectParts(schema.fields, keys, value)[i].schema < schema
  {
    forall i | 0 <= i < |keys| ensures Valid(schema.fields[keys[i]], Field(value, keys[i])) {
    }
  }

  lemma ArrayIsBounded(f: Floats, schema: Schema, value: Value)
    requires schema.ArraySchema? && IsFloats(f) && Valid(schema, value)
    ensures Within(f, schema, value, Ceiling(schema))
    decreases schema, 1, 0
  {
    var parts := ArrayParts(schema.item, value.items);
    PartsAreBounded(f, schema, parts);
    SchemasOfArray(schema.item, value.items);
    if Ceiling(schema.item).Some? {
      SumOfRepeated(schema, schema.item, |value.items|);
      ListIsBounded(|value.items|, schema.maxItems, Ceiling(schema.item).value);
    }
  }

  lemma ListIsBounded(count: nat, maxItems: Option<nat>, item: nat)
    requires AtMost(count, maxItems)
    ensures var bound := ListCeiling(maxItems, Some(item)); bound.Some? ==> 4 + count * item <= bound.value
  {
    if maxItems.Some? {
      Grows(count, maxItems.value, item);
    }
  }

  lemma Grows(m: nat, n: nat, k: nat)
    requires m <= n
    ensures m * k <= n * k
  {
  }

  lemma {:induction false} SumOfRepeated(parent: Schema, item: Schema, count: nat)
    requires item < parent && Ceiling(item).Some?
    ensures SumOfCeilings(parent, Repeated(item, count)) == Some(count * Ceiling(item).value)
    decreases count
  {
    if count > 0 {
      assert Repeated(item, count)[1..] == Repeated(item, count - 1);
      SumOfRepeated(parent, item, count - 1);
      OneMore(count, Ceiling(item).value);
    }
  }

  /** No valid value encodes to more than the bound the compiler finds for its schema. */
  lemma EncodingIsBounded(f: Floats, schema: Schema, value: Value)
    requires IsFloats(f) && Valid(schema, value)
    ensures Within(f, schema, value, MaxEncodedPayloadBytes(schema))
  {
    CeilingBounds(f, schema, value);
    BoundIsCeiling(schema);
  }

  // ----- The runtime's estimate -----

  /** A value on the wire; a table's entries beside its list and its named fields have keys of other kinds. */
  datatype WireValue =
    | Nil
    | WireString(text: Text)
    | WireBuffer(bytes: Text)
    | WireTable(items: seq<WireValue>, fields: map<Text, WireValue>, others: seq<WireValue>)
    | WireVector3 | WireColor3 | WireCFrame
    | WireOther

  function EstimateWireBytes(value: WireValue): nat
    decreases value, 1, 0
  {
    match value
    case Nil => 0
    case WireString(text) => 8 + |text|
    case WireBuffer(bytes) => 8 + |bytes|
    case WireTable(items, fields, others) =>
      SortedAreFields(fields);
      8 + EstimateAll(value, items) + EstimateFields(value, fields, Sorted(fields.Keys)) + 8 * |others|
        + EstimateAll(value, others)
    case WireVector3 | WireColor3 => 8 + 12
    case WireCFrame => 8 + 48
    case WireOther => 8
  }

  function EstimateAll(ghost parent: WireValue, values: seq<WireValue>): nat
    requires forall i :: 0 <= i < |values| ==> values[i] < parent
    decreases parent, 0, |values|
  {
    if values == [] then 0 else EstimateWireBytes(values[0]) + EstimateAll(parent, values[1..])
  }

  function EstimateFields(ghost parent: WireValue, fields: map<Text, WireValue>, keys: seq<Text>): nat
    requires forall key :: key in fields ==> fields[key] < parent
    requires forall i :: 0 <= i < |keys| ==> keys[i] in fields
    decreases parent, 0, |keys|
  {
    if keys == [] then 0
    else 8 + |keys[0]| + EstimateWireBytes(fields[keys[0]]) + EstimateFields(parent, fields, keys[1..])
  }

  lemma SortedAreFields(fields: map<Text, WireValue>)
    ensures forall i :: 0 <= i < |Sorted(fields.Keys)| ==> Sorted(fields.Keys)[i] in fields
  {
    SortedAreKeys(fields);
  }

  /** t, s and d */
  const KIND_KEY: Text := [116]
  const SIGNAL_KEY: Text := [115]
  const PAYLOAD_KEY: Text := [100]

  /** The frame an unreliable signal goes out in: `[1, { t = 3, s = signalId, d = payload }]`. */
  function SignalFrame(signalId: Text, payload: Text): WireValue {
    WireTable([WireOther, SignalItem(signalId, payload)], map[], [])
  }

  function SignalItem(signalId: Text, payload: Text): WireValue {
    WireTable([], map[KIND_KEY := WireOther, SIGNAL_KEY := WireString(signalId), PAYLOAD_KEY := WireBuffer(payload)],
              [])
  }

  lemma ItemKeys(signalId: Text, payload: Text)
    ensures Sorted(SignalItem(signalId, payload).fields.Keys) == [PAYLOAD_KEY] + ([SIGNAL_KEY] + [KIND_KEY])
  {
    var keys := [PAYLOAD_KEY, SIGNAL_KEY, KIND_KEY];
    assert Before(PAYLOAD_KEY, SIGNAL_KEY) && Before(SIGNAL_KEY, KIND_KEY) && Before(PAYLOAD_KEY, KIND_KEY);
    assert Elements(keys) == {PAYLOAD_KEY, SIGNAL_KEY, KIND_KEY};
    assert SignalItem(signalId, payload).fields.Keys == {PAYLOAD_KEY, SIGNAL_KEY, KIND_KEY};
    AscendingIsUnique(keys, Sorted(SignalItem(signalId, payload).fields.Keys));
  }

  lemma FieldAndRest(parent: WireValue, fields: map<Text, WireValue>, key: Text, rest: seq<Text>)
    requires (forall key :: key in fields ==> fields[key] < parent) && key in fields
             && forall i :: 0 <= i < |rest| ==> rest[i] in fields
    ensures EstimateFields(parent, fields, [key] + rest)
            == 8 + |key| + EstimateWireBytes(fields[key]) + EstimateFields(parent, fields, rest)
  {
    assert ([key] + rest)[1..] == rest;
  }

  lemma ItemEstimate(signalId: Text, payload: Text)
    ensures EstimateWireBytes(SignalItem(signalId, payload))
            == 8 + (8 + 1 + 8) + (8 + 1 + 8 + |signalId|) + (8 + 1 + 8 + |payload|)
  {
    var item := SignalItem(signalId, payload);
    SortedAreFields(item.fields);
    ItemKeys(signalId, payload);
    FieldAndRest(item, item.fields, PAYLOAD_KEY, [SIGNAL_KEY] + [KIND_KEY]);
    FieldAndRest(item, item.fields, SIGNAL_KEY, [KIND_KEY]);
    FieldAndRest(item, item.fields, KIND_KEY, []);
    assert [KIND_KEY] + [] == [KIND_KEY];
  }

  lemma NoFields(parent: WireValue, fields: map<Text, WireValue>)
    requires fields == map[]
    ensures Sorted(fields.Keys) == [] && EstimateFields(parent, fields, []) == 0
  {
  }

  /** The runtime's estimate of a signal's frame is the compiler's count. */
  lemma EstimateIsSignalBytes(signalId: Text, payload: Text)
    ensures EstimateWireBytes(SignalFrame(signalId, payload)) == SignalMessageBytes(signalId, |payload|)
  {
    ItemEstimate(signalId, payload);
    ListEstimate(SignalFrame(signalId, payload), WireOther, SignalItem(signalId, payload));
  }

  lemma ListEstimate(list: WireValue, a: WireValue, b: WireValue)
    requires list == WireTable([a, b], map[], [])
    ensures EstimateWireBytes(list) == 8 + EstimateWireBytes(a) + EstimateWireBytes(b)
  {
    NoFields(list, list.fields);
    assert list.items[0] == a && list.items[1] == b;
    assert list.items == [a] + [b];
    EstimateTwo(list, a, b);
  }

  lemma EstimateTwo(parent: WireValue, a: WireValue, b: WireValue)
    requires a < parent && b < parent
    ensures EstimateAll(parent, [a] + [b]) == EstimateWireBytes(a) + EstimateWireBytes(b)
  {
    assert ([a] + [b])[1..] == [b] && [b][1..] == [];
    assert EstimateAll(parent, [b]) == EstimateWireBytes(b);
  }

  /** A signal the compiler lets through by its schema's bound never goes over what it counted. */
  lemma BoundDominatesEstimate(f: Floats, show: Show, signalId: Text, schema: Schema, value: Value, bytes: Text,
                               limit: nat)
    requires IsFloats(f) && Valid(schema, value) && Encode(f, schema, value) == Ok(bytes)
    requires MaxEncodedPayloadBytes(schema) == Some(limit)
    ensures EstimateWireBytes(SignalFrame(signalId, Message(f, show, schema, bytes)))
            <= SignalMessageBytes(signalId, limit + BINARY_FRAME_HEADER_BYTES)
  {
    EncodingIsBounded(f, schema, value);
    EstimateIsSignalBytes(signalId, Message(f, show, schema, bytes));
  }
}
