/** The canonical layout text of a schema, and the fingerprint frames carry of it. */
module SchemaLayout {
  import opened BinaryCodec
  import opened Bytes
  import opened Order
  import opened Schemas

  // ----- Letters and words -----

  const OPEN: byte := 40
  const CLOSE: byte := 41
  const COMMA: byte := 44
  const COLON: byte := 58
  const BAR: byte := 124

  predicate IsDelimiter(b: byte) {
    b == OPEN || b == CLOSE || b == COMMA || b == COLON || b == BAR
  }

  predicate IsWord(text: Text) {
    forall i :: 0 <= i < |text| ==> !IsDelimiter(text[i])
  }

  /** f64, f32, u8, u16, u32, i8, i16, i32 */
  function FormatName(format: Format): Text {
    match format
    case F64 => [102, 54, 52]
    case F32 => [102, 51, 50]
    case U8 => [117, 56]
    case U16 => [117, 49, 54]
    case U32 => [117, 51, 50]
    case I8 => [105, 56]
    case I16 => [105, 49, 54]
    case I32 => [105, 51, 50]
  }

  /** v2, v3, c3, cf, ud, ud2, dt, bc */
  function PackedName(kind: Packed): Text {
    match kind
    case Vector2 => [118, 50]
    case Vector3 => [118, 51]
    case Color3 => [99, 51]
    case CFrame => [99, 102]
    case UDim => [117, 100]
    case UDim2 => [117, 100, 50]
    case DateTime => [100, 116]
    case BrickColor => [98, 99]
  }

  /** string, number, boolean */
  function TypeName(scalar: Scalar): Text {
    match scalar
    case Str(_) => [115, 116, 114, 105, 110, 103]
    case Number(_) => [110, 117, 109, 98, 101, 114]
    case Boolean(_) => [98, 111, 111, 108, 101, 97, 110]
  }

  /** How the runtime writes a number. */
  type Show = Num -> Text

  /** As `tostring` does it; true and false. */
  function Shown(show: Show, scalar: Scalar): Text {
    match scalar
    case Str(text) => text
    case Number(num) => show(num)
    case Boolean(flag) => if flag then [116, 114, 117, 101] else [102, 97, 108, 115, 101]
  }

  function LiteralTag(show: Show, scalar: Scalar): Text {
    TypeName(scalar) + [COLON] + Shown(show, scalar)
  }

  /** The word a schema's layout starts with: s n b l a o ? r t e u, a packed type's name, or in. */
  function Head(schema: Schema): Text {
    match schema
    case StringSchema(_, _, _) => [115]
    case NumberSchema(_, _) => [110]
    case BooleanSchema => [98]
    case LiteralSchema(_) => [108]
    case ArraySchema(_, _, _) => [97]
    case ObjectSchema(_) => [111]
    case OptionalSchema(_) => [63]
    case RecordSchema(_, _) => [114]
    case TupleSchema(_) => [116]
    case EnumSchema(_) => [101]
    case UnionSchema(_, _) => [117]
    case PackedSchema(kind) => PackedName(kind)
    case InstanceSchema => [105, 110]
    case DefaultSchema(_) => []
  }

  // ----- The layout -----

  /** A schema with no `default` in it: that kind has no layout. */
  predicate HasLayoutText(schema: Schema) {
    match schema
    case ArraySchema(item, _, _) => HasLayoutText(item)
    case ObjectSchema(fields) => forall key :: key in fields ==> HasLayoutText(fields[key])
    case OptionalSchema(inner) => HasLayoutText(inner)
    case RecordSchema(item, _) => HasLayoutText(item)
    case TupleSchema(items) => forall i :: 0 <= i < |items| ==> HasLayoutText(items[i])
    case UnionSchema(members, _) => forall i :: 0 <= i < |members| ==> HasLayoutText(members[i])
    case DefaultSchema(_) => false
    case _ => true
  }

  function LayoutText(show: Show, schema: Schema): Text
    decreases schema, 2, 0
  {
    Head(schema) + Body(show, schema)
  }

  function Body(show: Show, schema: Schema): Text
    decreases schema, 1, 0
  {
    match schema
    case NumberSchema(format, _) => [COLON] + FormatName(format)
    case LiteralSchema(value) => [COLON] + LiteralTag(show, value)
    case ArraySchema(item, _, _) => [OPEN] + LayoutText(show, item) + [CLOSE]
    case ObjectSchema(fields) =>
      SortedAreKeys(fields);
      [OPEN] + JoinedFields(show, schema, fields, Sorted(fields.Keys)) + [CLOSE]
    case OptionalSchema(inner) => [OPEN] + LayoutText(show, inner) + [CLOSE]
    case RecordSchema(item, _) => [OPEN] + LayoutText(show, item) + [CLOSE]
    case TupleSchema(items) => [OPEN] + Joined(show, schema, items, COMMA) + [CLOSE]
    case EnumSchema(values) => [OPEN] + JoinedValues(show, values) + [CLOSE]
    case UnionSchema(members, _) => [OPEN] + Joined(show, schema, members, BAR) + [CLOSE]
    case _ => []
  }

  function Joined(show: Show, ghost parent: Schema, parts: seq<Schema>, separator: byte): Text
    requires forall i :: 0 <= i < |parts| ==> parts[i] < parent
    decreases parent, 0, |parts|
  {
    if parts == [] then []
    else if |parts| == 1 then LayoutText(show, parts[0])
    else LayoutText(show, parts[0]) + [separator] + Joined(show, parent, parts[1..], separator)
  }

  function JoinedFields(show: Show, ghost parent: Schema, fields: map<Text, Schema>, keys: seq<Text>): Text
    requires forall key :: key in fields ==> fields[key] < parent
    requires forall i :: 0 <= i < |keys| ==> keys[i] in fields
    decreases parent, 0, |keys|
  {
    if keys == [] then []
    else if |keys| == 1 then keys[0] + [COLON] + LayoutText(show, fields[keys[0]])
    else keys[0] + [COLON] + LayoutText(show, fields[keys[0]]) + [COMMA] + JoinedFields(show, parent, fields, keys[1..])
  }

  function JoinedValues(show: Show, values: seq<Scalar>): Text {
    if values == [] then []
    else if |values| == 1 then Shown(show, values[0])
    else Shown(show, values[0]) + [BAR] + JoinedValues(show, values[1..])
  }

  // ----- The fingerprint -----

  const MODULUS: nat := 0x1_0000_0000

  /** The hash without its reductions: base-33 digits after 5381. */
  function Polynomial(text: Text): nat {
    if text == [] then 5381 else Polynomial(text[..|text| - 1]) * 33 + text[|text| - 1] as nat
  }

  lemma ReduceAgain(p: nat, h: nat, code: nat)
    requires h == p % MODULUS
    ensures (h * 33 + code) % MODULUS == (p * 33 + code) % MODULUS
  {
    var k := p / MODULUS;
    assert p == k * MODULUS + h;
    assert p * 33 + code == (h * 33 + code) + (33 * k) * MODULUS;
    AddMultiple(h * 33 + code, 33 * k);
  }

  lemma {:induction false} AddMultiple(n: nat, k: nat)
    ensures (n + k * MODULUS) % MODULUS == n % MODULUS
    decreases k
  {
    if k > 0 {
      AddMultiple(n, k - 1);
      assert n + k * MODULUS == (n + (k - 1) * MODULUS) + MODULUS;
    }
  }

  function Fingerprint(show: Show, schema: Schema): nat {
    Polynomial(LayoutText(show, schema)) % MODULUS
  }

  /** The hash loop, reduced at every letter: the polynomial's remainder, and no step leaves the whole numbers a
      double holds exactly. */
  method SchemaFingerprint(show: Show, schema: Schema) returns (hash: nat)
    ensures hash == Fingerprint(show, schema)
    ensures hash < MODULUS
  {
    var layout := LayoutText(show, schema);
    hash := 5381;
    for index := 0 to |layout|
      invariant hash == Polynomial(layout[..index]) % MODULUS
    {
      var code := layout[index] as nat;
      var step := hash * 33 + code;
      assert step < 0x20_0000_0000_0000;
      assert layout[..index + 1][..index] == layout[..index];
      ReduceAgain(Polynomial(layout[..index]), hash, code);
      hash := step % MODULUS;
    }
    assert layout[..|layout|] == layout;
  }
}
