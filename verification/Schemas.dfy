/** Schemas, the values they describe, and what validating a value checks. */
module Schemas {
  import opened Bytes
  import opened Utf8
  import opened Wrappers

  // ----- Values -----

  /** A number of the runtime; how the ones that are not finite look is left open. */
  datatype Num = Finite(value: real) | NonFinite(code: nat)

  datatype Scalar = Str(text: Text) | Number(num: Num) | Boolean(flag: bool)

  /** What each engine type is packed as. */
  datatype Packed = Vector2 | Vector3 | Color3 | CFrame | UDim | UDim2 | DateTime | BrickColor

  /** A table has a list part and fields with string keys; an absent field is undefined. */
  datatype Value =
    | Undefined
    | Of(scalar: Scalar)
    | Table(items: seq<Value>, fields: map<Text, Value>)
    | Userdata(kind: Packed, components: seq<Num>)

  function Field(value: Value, key: Text): Value
    requires value.Table?
  {
    if key in value.fields then value.fields[key] else Undefined
  }

  function Item(items: seq<Value>, i: nat): Value {
    if i < |items| then items[i] else Undefined
  }

  // ----- Schemas -----

  datatype Format = F64 | F32 | U8 | U16 | U32 | I8 | I16 | I32

  /** `refine` is every refinement beside the bounds given. */
  datatype Schema =
    | StringSchema(maxLength: Option<nat>, maxChars: Option<nat>, refine: Value -> bool)
    | NumberSchema(format: Format, refine: Value -> bool)
    | BooleanSchema
    | LiteralSchema(value: Scalar)
    | ArraySchema(item: Schema, maxItems: Option<nat>, refine: Value -> bool)
    | ObjectSchema(fields: map<Text, Schema>)
    | OptionalSchema(inner: Schema)
    | RecordSchema(item: Schema, refine: Value -> bool)
    | TupleSchema(items: seq<Schema>)
    | EnumSchema(values: seq<Scalar>)
    | UnionSchema(members: seq<Schema>, discriminant: Option<Text>)
    | PackedSchema(kind: Packed)
    | DefaultSchema(inner: Schema)
    | InstanceSchema

  function Width(format: Format): nat {
    match format
    case F64 => 8
    case F32 | U32 | I32 => 4
    case U16 | I16 => 2
    case U8 | I8 => 1
  }

  predicate IsInteger(format: Format) {
    !format.F64? && !format.F32?
  }

  predicate IsSigned(format: Format) {
    format.I8? || format.I16? || format.I32?
  }

  /** The first value past an integer format's unsigned range. */
  function Span(format: Format): nat {
    match Width(format)
    case 1 => 0x100
    case 2 => 0x1_0000
    case _ => 0x1_0000_0000
  }

  predicate InRange(n: int, format: Format) {
    if IsSigned(format) then -(Span(format) / 2) <= n < Span(format) / 2 else 0 <= n < Span(format)
  }

  /** A number an integer format admits is whole and in its range; the float formats admit all. */
  predicate Admits(format: Format, num: Num) {
    IsInteger(format) ==> num.Finite? && num.value.Floor as real == num.value && InRange(num.value.Floor, format)
  }

  /** The components of each engine type, in the order they are packed. */
  function Layout(kind: Packed): seq<Format> {
    match kind
    case Vector2 => [F32, F32]
    case Vector3 => [F32, F32, F32]
    case Color3 => [F32, F32, F32]
    case CFrame => [F32, F32, F32, F32, F32, F32, F32, F32, F32, F32, F32, F32]
    case UDim => [F32, I32]
    case UDim2 => [F32, I32, F32, I32]
    case DateTime => [F64]
    case BrickColor => [U16]
  }

  predicate HasLayout(formats: seq<Format>, components: seq<Num>) {
    |components| == |formats| && forall i :: 0 <= i < |formats| ==> Admits(formats[i], components[i])
  }

  predicate AllFinite(components: seq<Num>) {
    forall i :: 0 <= i < |components| ==> components[i].Finite?
  }

  // ----- Validation -----

  predicate AtMost(n: nat, limit: Option<nat>) {
    limit.Some? ==> n <= limit.value
  }

  predicate FitsBounds(schema: Schema, text: Text)
    requires schema.StringSchema?
  {
    && AtMost(|text|, schema.maxLength)
    && (schema.maxChars.Some? ==> CharCount(text).Some? && CharCount(text).value <= schema.maxChars.value)
  }

  /** The member a discriminated union dispatches on: the first with the value's tag. */
  predicate HasTag(member: Schema, discriminant: Text, tag: Value) {
    && member.ObjectSchema? && discriminant in member.fields
    && member.fields[discriminant].LiteralSchema? && tag == Of(member.fields[discriminant].value)
  }

  predicate Validates(schema: Schema, value: Value)
    decreases schema, 1, 0
  {
    match schema
    case StringSchema(_, _, refine) => value.Of? && value.scalar.Str? && FitsBounds(schema, value.scalar.text)
      && refine(value)
    case NumberSchema(format, refine) =>
      value.Of? && value.scalar.Number? && value.scalar.num.Finite? && Admits(format, value.scalar.num) && refine(value)
    case BooleanSchema => value.Of? && value.scalar.Boolean?
    case LiteralSchema(literal) => value == Of(literal)
    case ArraySchema(item, maxItems, refine) =>
      && value.Table? && AtMost(|value.items|, maxItems) && refine(value)
      && forall i :: 0 <= i < |value.items| ==> Validates(item, value.items[i])
    case ObjectSchema(fields) => value.Table?
      && forall key :: key in fields ==> Validates(fields[key], Field(value, key))
    case OptionalSchema(inner) => value == Undefined || Validates(inner, value)
    case RecordSchema(item, refine) =>
      && value.Table? && value.items == [] && refine(value)
      && forall key :: key in value.fields ==> Validates(item, value.fields[key])
    case TupleSchema(items) =>
      && value.Table? && |value.items| == |items|
      && forall i :: 0 <= i < |items| ==> Validates(items[i], Item(value.items, i))
    case EnumSchema(values) => value.Of? && value.scalar in values
    case UnionSchema(members, None) => exists i :: 0 <= i < |members| && Validates(members[i], value)
    case UnionSchema(members, Some(discriminant)) =>
      value.Table? && ValidatesTagged(schema, discriminant, value, 0)
    case PackedSchema(kind) =>
      value.Userdata? && value.kind == kind && (kind.DateTime? || kind.BrickColor? || AllFinite(value.components))
    case DefaultSchema(inner) => value == Undefined || Validates(inner, value)
    case InstanceSchema => false
  }

  predicate ValidatesTagged(schema: Schema, discriminant: Text, value: Value, from: nat)
    requires schema.UnionSchema? && value.Table? && from <= |schema.members|
    decreases schema, 0, |schema.members| - from
  {
    from < |schema.members| &&
    if HasTag(schema.members[from], discriminant, Field(value, discriminant)) then
      Validates(schema.members[from], value)
    else ValidatesTagged(schema, discriminant, value, from + 1)
  }

  /** The member a union encodes with: the first the value validates against. */
  function FirstMember(members: seq<Schema>, value: Value, from: nat := 0): (r: Option<nat>)
    requires from <= |members|
    ensures r.Some? ==> from <= r.value < |members| && Validates(members[r.value], value)
    ensures forall i :: from <= i < |members| && (r.Some? ==> i < r.value) ==> !Validates(members[i], value)
    decreases |members| - from
  {
    if from == |members| then None
    else if Validates(members[from], value) then Some(from)
    else FirstMember(members, value, from + 1)
  }

  lemma {:induction false} TaggedMember(schema: Schema, discriminant: Text, value: Value, from: nat)
    requires schema.UnionSchema? && value.Table? && from <= |schema.members|
             && ValidatesTagged(schema, discriminant, value, from)
    ensures exists i :: from <= i < |schema.members| && Validates(schema.members[i], value)
    decreases |schema.members| - from
  {
    if !HasTag(schema.members[from], discriminant, Field(value, discriminant)) {
      TaggedMember(schema, discriminant, value, from + 1);
    }
  }

  ghost predicate FirstTagged(members: seq<Schema>, discriminant: Text, tag: Value, i: int) {
    && 0 <= i < |members| && HasTag(members[i], discriminant, tag)
    && forall j :: 0 <= j < i ==> !HasTag(members[j], discriminant, tag)
  }

  /** A discriminated union checks a value by the first member with its tag, and by no other. */
  lemma {:induction false} FirstTagDecides(schema: Schema, discriminant: Text, value: Value, from: nat)
    requires schema.UnionSchema? && value.Table? && from <= |schema.members|
    requires forall j :: 0 <= j < from ==> !HasTag(schema.members[j], discriminant, Field(value, discriminant))
    ensures ValidatesTagged(schema, discriminant, value, from)
            <==> exists i :: FirstTagged(schema.members, discriminant, Field(value, discriminant), i)
                             && Validates(schema.members[i], value)
    decreases |schema.members| - from
  {
    if from < |schema.members| {
      var tag := Field(value, discriminant);
      if HasTag(schema.members[from], discriminant, tag) {
        assert FirstTagged(schema.members, discriminant, tag, from);
      } else {
        FirstTagDecides(schema, discriminant, value, from + 1);
      }
    }
  }

  /** So does validation. */
  lemma TagsDispatch(schema: Schema, discriminant: Text, value: Value)
    requires schema.UnionSchema? && schema.discriminant == Some(discriminant)
    ensures Validates(schema, value)
            <==> value.Table? && exists i :: FirstTagged(schema.members, discriminant, Field(value, discriminant), i)
                                             && Validates(schema.members[i], value)
  {
    if value.Table? {
      FirstTagDecides(schema, discriminant, value, 0);
    }
  }

  lemma UnionHasMember(schema: Schema, value: Value)
    requires schema.UnionSchema? && Validates(schema, value)
    ensures FirstMember(schema.members, value).Some?
  {
    if schema.discriminant.Some? {
      TaggedMember(schema, schema.discriminant.value, value, 0);
    }
  }

  /** A value of the schema's shape, its refinements and the finiteness of its numbers aside; for a union, of the
      shape of the first member it validates against. */
  predicate Fits(schema: Schema, value: Value)
    decreases schema
  {
    match schema
    case StringSchema(_, _, _) => value.Of? && value.scalar.Str?
    case NumberSchema(format, _) => value.Of? && value.scalar.Number? && Admits(format, value.scalar.num)
    case BooleanSchema => value.Of? && value.scalar.Boolean?
    case LiteralSchema(literal) => value == Of(literal)
    case ArraySchema(item, _, _) => value.Table? && forall i :: 0 <= i < |value.items| ==> Fits(item, value.items[i])
    case ObjectSchema(fields) => value.Table? && forall key :: key in fields ==> Fits(fields[key], Field(value, key))
    case OptionalSchema(inner) => value == Undefined || Fits(inner, value)
    case RecordSchema(item, _) =>
      value.Table? && value.items == [] && forall key :: key in value.fields ==> Fits(item, value.fields[key])
    case TupleSchema(items) =>
      value.Table? && |value.items| == |items| && forall i :: 0 <= i < |items| ==> Fits(items[i], Item(value.items, i))
    case EnumSchema(values) => value.Of? && value.scalar in values
    case UnionSchema(members, _) =>
      (match FirstMember(members, value)
       case None => false
       case Some(index) => Fits(members[index], value))
    case PackedSchema(kind) => value.Userdata? && value.kind == kind
    case DefaultSchema(_) | InstanceSchema => false
  }

  lemma {:induction false} ValidatesFits(schema: Schema, value: Value)
    requires Supported(schema) && Validates(schema, value)
    ensures Fits(schema, value)
    decreases schema
  {
    match schema {
      case ArraySchema(item, _, _) =>
        forall i | 0 <= i < |value.items| ensures Fits(item, value.items[i]) {
          ValidatesFits(item, value.items[i]);
        }
      case ObjectSchema(fields) =>
        forall key | key in fields ensures Fits(fields[key], Field(value, key)) {
          ValidatesFits(fields[key], Field(value, key));
        }
      case OptionalSchema(inner) => if value != Undefined { ValidatesFits(inner, value); }
      case RecordSchema(item, _) =>
        forall key | key in value.fields ensures Fits(item, value.fields[key]) {
          ValidatesFits(item, value.fields[key]);
        }
      case TupleSchema(items) =>
        forall i | 0 <= i < |items| ensures Fits(items[i], Item(value.items, i)) {
          ValidatesFits(items[i], Item(value.items, i));
        }
      case UnionSchema(members, _) =>
        UnionHasMember(schema, value);
        ValidatesFits(members[FirstMember(members, value).value], value);
      case _ =>
    }
  }

  // ----- What can be stored -----

  const SIZE_LIMIT: nat := 0x1_0000_0000

  /** A value the runtime can hold: nothing in a table is undefined, no part is too large to count in 32 bits,
      and an engine value has its components. */
  predicate Storable(value: Value) {
    match value
    case Undefined => true
    case Of(scalar) => ShortScalar(scalar)
    case Table(items, fields) =>
      && |items| < SIZE_LIMIT && |fields| < SIZE_LIMIT
      && (forall i :: 0 <= i < |items| ==> items[i] != Undefined && Storable(items[i]))
      && (forall key :: key in fields ==> |key| < SIZE_LIMIT && fields[key] != Undefined && Storable(fields[key]))
    case Userdata(kind, components) => HasLayout(Layout(kind), components)
  }

  predicate ShortScalar(scalar: Scalar) {
    scalar.Str? ==> |scalar.text| < SIZE_LIMIT
  }

  /** A schema the binary codec supports, with no part too large to count in 32 bits. */
  predicate Supported(schema: Schema) {
    match schema
    case LiteralSchema(literal) => ShortScalar(literal)
    case ArraySchema(item, _, _) => Supported(item)
    case ObjectSchema(fields) =>
      |fields| < SIZE_LIMIT && forall key :: key in fields ==> |key| < SIZE_LIMIT && Supported(fields[key])
    case OptionalSchema(inner) => Supported(inner)
    case RecordSchema(item, _) => Supported(item)
    case TupleSchema(items) => |items| < SIZE_LIMIT && forall i :: 0 <= i < |items| ==> Supported(items[i])
    case EnumSchema(values) => |values| < SIZE_LIMIT && forall i :: 0 <= i < |values| ==> ShortScalar(values[i])
    case UnionSchema(members, _) => |members| < SIZE_LIMIT && forall i :: 0 <= i < |members| ==> Supported(members[i])
    case DefaultSchema(_) | InstanceSchema => false
    case _ => true
  }
}
