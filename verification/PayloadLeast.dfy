/** The payload bound is the least one: some value takes exactly that many bytes. */
module PayloadLeast {
  import opened BinaryCodec
  import opened Bytes
  import opened CodecRoundTrip
  import opened Order
  import opened PayloadSize
  import opened Schemas
  import opened Utf8
  import opened Wrappers

  // ----- Texts of a given length -----

  /** One character of one to four bytes. */
  function Char(width: nat): (text: Text)
    requires 1 <= width <= 4
    ensures |text| == width
  {
    match width
    case 1 => [0x41]
    case 2 => [0xC2, 0x80]
    case 3 => [0xE1, 0x80, 0x80]
    case _ => [0xF0, 0x90, 0x80, 0x80]
  }

  /** A text of so many bytes in as few characters as there can be. */
  function TextOf(bytes: nat): (text: Text)
    ensures |text| == bytes
  {
    if bytes == 0 then [] else if bytes <= 4 then Char(bytes) else Char(4) + TextOf(bytes - 4)
  }

  lemma OneChar(width: nat, rest: Text)
    requires 1 <= width <= 4 && CharCount(rest).Some?
    ensures CharCount(Char(width) + rest) == Some(1 + CharCount(rest).value)
  {
    var text := Char(width) + rest;
    assert text[1..width] == Char(width)[1..];
    assert FirstWidth(text) == Some(width);
    assert text[width..] == rest;
  }

  lemma {:induction false} TextIsShort(bytes: nat)
    ensures CharCount(TextOf(bytes)).Some? && 4 * CharCount(TextOf(bytes)).value < bytes + 4
  {
    if 0 < bytes <= 4 {
      OneChar(bytes, []);
      assert Char(bytes) + [] == Char(bytes);
    } else if bytes > 4 {
      TextIsShort(bytes - 4);
      OneChar(4, TextOf(bytes - 4));
    }
  }

  /** The length of the longest text, or any length if there is no longest. */
  function LengthOf(schema: Schema, n: nat): nat
    requires schema.StringSchema?
  {
    var limit := MaxStringBytes(schema.maxLength, schema.maxChars);
    if limit.Some? then limit.value else n
  }

  /** Where texts are limited, some text has exactly the most bytes there may be; where they are not, some text has
      any number of bytes. */
  lemma TextsReachLimit(schema: Schema, n: nat)
    requires schema.StringSchema?
    ensures var limit := MaxStringBytes(schema.maxLength, schema.maxChars);
            exists text :: FitsBounds(schema, text) && |text| == if limit.Some? then limit.value else n
  {
    TextFits(schema, n);
  }

  lemma TextFits(schema: Schema, n: nat)
    requires schema.StringSchema?
    ensures FitsBounds(schema, TextOf(LengthOf(schema, n)))
  {
    TextIsShort(LengthOf(schema, n));
  }

  // ----- Schemas in which nothing else narrows the values -----

  ghost predicate AcceptsAll(refine: Value -> bool) {
    forall value :: refine(value)
  }

  ghost predicate Short(n: Option<nat>) {
    n.Some? ==> n.value < SIZE_LIMIT
  }

  /** No value is one of two members. */
  ghost predicate Apart(members: seq<Schema>) {
    forall i, j, value :: 0 <= i < j < |members| && Validates(members[i], value) ==> !Validates(members[j], value)
  }

  /** Each member is an object with its own literal under the discriminant. */
  predicate OwnTags(members: seq<Schema>, discriminant: Text) {
    && (forall i :: 0 <= i < |members| ==>
          members[i].ObjectSchema? && discriminant in members[i].fields
          && members[i].fields[discriminant].LiteralSchema?)
    && forall i, j :: 0 <= i < j < |members| ==>
         members[i].fields[discriminant].value != members[j].fields[discriminant].value
  }

  /** Refinements accept everything, enums and unions have members, those of a union are told apart, and limits can
      be counted in 32 bits. */
  ghost predicate Plain(schema: Schema) {
    match schema
    case StringSchema(maxLength, maxChars, refine) => AcceptsAll(refine) && Short(MaxStringBytes(maxLength, maxChars))
    case NumberSchema(_, refine) => AcceptsAll(refine)
    case ArraySchema(item, maxItems, refine) => Plain(item) && Short(maxItems) && AcceptsAll(refine)
    case ObjectSchema(fields) => forall key :: key in fields ==> Plain(fields[key])
    case OptionalSchema(inner) => Plain(inner)
    case RecordSchema(item, refine) => Plain(item) && AcceptsAll(refine)
    case TupleSchema(items) => forall i :: 0 <= i < |items| ==> Plain(items[i])
    case EnumSchema(values) => values != []
    case UnionSchema(members, discriminant) =>
      && members != [] && (forall i :: 0 <= i < |members| ==> Plain(members[i]))
      && (match discriminant case None => Apart(members) case Some(key) => OwnTags(members, key))
    case _ => true
  }

  // ----- The largest value -----

  /** The member with the highest ceiling; one without a ceiling if there is one. */
  function HighestAt(ghost parent: Schema, schemas: seq<Schema>): (r: nat)
    requires schemas != [] && forall i :: 0 <= i < |schemas| ==> schemas[i] < parent
    ensures r < |schemas| && Ceiling(schemas[r]) == HighestOf(parent, schemas)
    decreases |schemas|
  {
    var first := Ceiling(schemas[0]);
    if |schemas| == 1 then 0
    else
      var rest := 1 + HighestAt(parent, schemas[1..]);
      if first.None? || (Ceiling(schemas[rest]).Some? && Ceiling(schemas[rest]).value <= first.value) then 0 else rest
  }

  /** A value that takes as many bytes as the ceiling, or more than n where there is none. */
  function Largest(schema: Schema, n: nat): Value
    decreases schema
  {
    match schema
    case StringSchema(_, _, _) => Of(Str(TextOf(LengthOf(schema, n))))
    case NumberSchema(_, _) => Of(Number(Finite(0.0)))
    case BooleanSchema => Of(Boolean(true))
    case LiteralSchema(literal) => Of(literal)
    case ArraySchema(item, maxItems, _) =>
      var largest := Largest(item, n);
      Table(seq(if maxItems.Some? then maxItems.value else n, _ => largest), map[])
    case ObjectSchema(fields) => Table([], map key | key in fields :: Largest(fields[key], n))
    case OptionalSchema(inner) => Largest(inner, n)
    case RecordSchema(item, _) => Table([], map[TextOf(n) := Largest(item, n)])
    case TupleSchema(items) =>
      Table(seq(|items|, i requires 0 <= i < |items| => Largest(items[i], n)), map[])
    case EnumSchema(values) => if values == [] then Undefined else Of(values[0])
    case UnionSchema(members, _) =>
      if members == [] then Undefined else Largest(members[HighestAt(schema, members)], n)
    case PackedSchema(kind) => Userdata(kind, seq(|Layout(kind)|, _ => Finite(0.0)))
    case DefaultSchema(_) | InstanceSchema => Undefined
  }

  /** A defined, valid value that takes as many bytes as the bound, or more than n without one. */
  ghost predicate Reaches(f: Floats, schema: Schema, n: nat, value: Value) {
    && value != Undefined && Valid(schema, value) && Encode(f, schema, value).Ok?
    && Takes(|Encode(f, schema, value).value|, Ceiling(schema), n)
  }

  predicate Takes(bytes: nat, bound: Option<nat>, n: nat) {
    if bound.Some? then bytes == bound.value else bytes > n
  }

  /** The largest value takes as many bytes as the ceiling. */
  lemma {:induction false} LargestReaches(f: Floats, schema: Schema, n: nat)
    requires IsFloats(f) && Supported(schema) && Plain(schema) && n < SIZE_LIMIT
    ensures Reaches(f, schema, n, Largest(schema, n))
    decreases schema
  {
    match schema {
      case ArraySchema(item, _, _) =>
        LargestReaches(f, item, n);
        ListReaches(f, schema, n);
      case ObjectSchema(fields) =>
        forall key | key in fields
          ensures FieldReaches(f, fields, Largest(schema, n), key, n)
        {
          LargestReaches(f, fields[key], n);
        }
        ObjectReaches(f, schema, Largest(schema, n), n);
      case OptionalSchema(inner) => LargestReaches(f, inner, n);
      case RecordSchema(item, _) =>
        LargestReaches(f, item, n);
        RecordReaches(f, schema, n);
      case TupleSchema(items) =>
        forall i | 0 <= i < |items|
          ensures Reaches(f, items[i], n, Largest(items[i], n))
        {
          LargestReaches(f, items[i], n);
        }
        TupleReaches(f, schema, n);
      case UnionSchema(members, _) =>
        LargestReaches(f, members[HighestAt(schema, members)], n);
        UnionReaches(f, schema, n);
      case PackedSchema(kind) => PackedReaches(f, kind, n);
      case _ => ScalarReaches(f, schema, n);
    }
  }

  lemma ScalarReaches(f: Floats, schema: Schema, n: nat)
    requires schema.StringSchema? || schema.NumberSchema? || schema.BooleanSchema? || schema.LiteralSchema?
             || schema.EnumSchema?
    requires IsFloats(f) && Supported(schema) && Plain(schema) && n < SIZE_LIMIT
    ensures Reaches(f, schema, n, Largest(schema, n))
  {
    if schema.StringSchema? {
      TextFits(schema, n);
    }
  }

  lemma ZerosFit(kind: Packed, zeros: seq<Num>)
    requires |zeros| == |Layout(kind)| && forall i :: 0 <= i < |zeros| ==> zeros[i] == Finite(0.0)
    ensures HasLayout(Layout(kind), zeros) && AllFinite(zeros)
  {
  }

  lemma PackedReaches(f: Floats, kind: Packed, n: nat)
    requires IsFloats(f)
    ensures Reaches(f, PackedSchema(kind), n, Largest(PackedSchema(kind), n))
  {
    var zeros := Largest(PackedSchema(kind), n).components;
    ZerosFit(kind, zeros);
    PackedTakes(kind);
    ComponentsTake(f, Layout(kind), zeros);
  }

  ghost predicate AllReach(f: Floats, parts: seq<Part>, n: nat) {
    forall i :: 0 <= i < |parts| ==> Reaches(f, parts[i].schema, n, parts[i].value)
  }

  lemma {:induction false} PartsReach(f: Floats, parent: Schema, parts: seq<Part>, n: nat)
    requires IsFloats(f) && (forall i :: 0 <= i < |parts| ==> parts[i].schema < parent) && AllReach(f, parts, n)
    ensures EncodeAll(f, parent, parts).Ok?
    ensures Takes(|EncodeAll(f, parent, parts).value|, SumOfCeilings(parent, SchemasOf(parts)), n)
    decreases |parts|
  {
    if parts != [] {
      PartsReach(f, parent, parts[1..], n);
      SchemasTail(parts);
    }
  }

  lemma TupleReaches(f: Floats, schema: Schema, n: nat)
    requires IsFloats(f) && schema.TupleSchema? && Supported(schema)
    requires forall i :: 0 <= i < |schema.items| ==> Reaches(f, schema.items[i], n, Largest(schema.items[i], n))
    ensures Reaches(f, schema, n, Largest(schema, n))
  {
    var value := Largest(schema, n);
    var parts := TupleParts(schema.items, value.items);
    forall i | 0 <= i < |parts|
      ensures Reaches(f, parts[i].schema, n, parts[i].value)
    {
      assert parts[i] == Part(schema.items[i], Largest(schema.items[i], n));
    }
    PartsReach(f, schema, parts, n);
    SchemasOfTuple(schema.items, value.items);
  }

  /** Each field of the object has its largest value. */
  ghost predicate FieldsReach(f: Floats, fields: map<Text, Schema>, value: Value, n: nat) {
    && value.Table? && value.items == [] && value.fields.Keys == fields.Keys
    && forall key :: key in fields ==> FieldReaches(f, fields, value, key, n)
  }

  ghost predicate FieldReaches(f: Floats, fields: map<Text, Schema>, value: Value, key: Text, n: nat) {
    key in fields && value.Table? && key in value.fields && Reaches(f, fields[key], n, value.fields[key])
  }

  lemma ObjectIsValid(f: Floats, schema: Schema, value: Value, n: nat)
    requires schema.ObjectSchema? && Supported(schema) && FieldsReach(f, schema.fields, value, n)
    ensures Valid(schema, value)
  {
    assert |value.fields| == |value.fields.Keys| && |schema.fields| == |schema.fields.Keys|;
    forall key | key in schema.fields
      ensures Validates(schema.fields[key], Field(value, key)) && Storable(value.fields[key])
    {
      assert FieldReaches(f, schema.fields, value, key, n);
    }
    assert Validates(schema, value);
  }

  lemma FieldsTake(f: Floats, schema: Schema, keys: seq<Text>, value: Value, n: nat)
    requires IsFloats(f) && schema.ObjectSchema? && FieldsReach(f, schema.fields, value, n)
    requires forall i :: 0 <= i < |keys| ==> keys[i] in schema.fields
    ensures AllReach(f, ObjectParts(schema.fields, keys, value), n)
    ensures forall i :: 0 <= i < |keys| ==> ObjectParts(schema.fields, keys, value)[i].schema < schema
  {
    forall i | 0 <= i < |keys|
      ensures Reaches(f, schema.fields[keys[i]], n, Field(value, keys[i]))
    {
      assert FieldReaches(f, schema.fields, value, keys[i], n);
    }
  }

  lemma ObjectReaches(f: Floats, schema: Schema, value: Value, n: nat)
    requires IsFloats(f) && schema.ObjectSchema? && Supported(schema) && FieldsReach(f, schema.fields, value, n)
    ensures Reaches(f, schema, n, value)
  {
    ObjectIsValid(f, schema, value, n);
    SortedAreKeys(schema.fields);
    var keys := Sorted(schema.fields.Keys);
    FieldsTake(f, schema, keys, value, n);
    PartsReach(f, schema, ObjectParts(schema.fields, keys, value), n);
    SchemasOfObject(schema.fields, keys, value);
  }

  lemma {:induction false} SumWithoutCeiling(parent: Schema, item: Schema, count: nat)
    requires item < parent && Ceiling(item).None? && count > 0
    ensures SumOfCeilings(parent, Repeated(item, count)).None?
  {
    assert Repeated(item, count)[0] == item;
  }

  lemma ListTakes(count: nat, maxItems: Option<nat>, item: Option<nat>, bytes: nat, n: nat)
    requires count == if maxItems.Some? then maxItems.value else n
    requires Takes(bytes, if item.Some? then Some(count * item.value) else if count == 0 then Some(0) else None, n)
    ensures Takes(4 + bytes, ListCeiling(maxItems, item), n)
  {
    if item.Some? && item.value > 0 {
      Grows(1, item.value, count);
    }
  }

  lemma ListReaches(f: Floats, schema: Schema, n: nat)
    requires IsFloats(f) && schema.ArraySchema? && Supported(schema) && Plain(schema) && n < SIZE_LIMIT
    requires Reaches(f, schema.item, n, Largest(schema.item, n))
    ensures Reaches(f, schema, n, Largest(schema, n))
  {
    var value, item := Largest(schema, n), Ceiling(schema.item);
    var parts := ArrayParts(schema.item, value.items);
    PartsReach(f, schema, parts, n);
    SchemasOfArray(schema.item, value.items);
    var count := |value.items|;
    if item.Some? {
      SumOfRepeated(schema, schema.item, count);
    } else if count > 0 {
      SumWithoutCeiling(schema, schema.item, count);
    }
    ListTakes(count, schema.maxItems, item, |EncodeAll(f, schema, parts).value|, n);
  }

  lemma OneKey<V>(key: Text, value: V)
    ensures Sorted(map[key := value].Keys) == [key]
  {
    assert Elements([key]) == {key} && map[key := value].Keys == {key};
    AscendingIsUnique([key], Sorted({key}));
  }

  lemma RecordReaches(f: Floats, schema: Schema, n: nat)
    requires IsFloats(f) && schema.RecordSchema? && Supported(schema) && Plain(schema) && n < SIZE_LIMIT
    requires Reaches(f, schema.item, n, Largest(schema.item, n))
    ensures Reaches(f, schema, n, Largest(schema, n))
  {
    var value, key, entry := Largest(schema, n), TextOf(n), Largest(schema.item, n);
    assert value.fields == map[key := entry] && |value.fields| == 1;
    OneKey(key, entry);
    SortedAreKeys(value.fields);
    assert EncodeEntry(f, schema.item, key, entry).Ok? && |EncodeEntry(f, schema.item, key, entry).value| >= 4 + n;
    assert [key][1..] == [];
    assert EncodeEntries(f, schema, schema.item, value.fields, [key]).Ok?;
  }

  // ----- Unions -----

  /** The discriminant of a value of the i-th member leads to that member. */
  lemma {:induction false} TagLeads(schema: Schema, key: Text, value: Value, i: nat, from: nat)
    requires schema.UnionSchema? && OwnTags(schema.members, key) && from <= i < |schema.members| && value.Table?
    requires Validates(schema.members[i], value)
    ensures ValidatesTagged(schema, key, value, from)
    decreases i - from
  {
    var members := schema.members;
    assert Validates(members[i].fields[key], Field(value, key));
    if from < i {
      assert !HasTag(members[from], key, Field(value, key));
      TagLeads(schema, key, value, i, from + 1);
    }
  }

  lemma TagIsOwn(member: Schema, key: Text, value: Value)
    requires member.ObjectSchema? && key in member.fields && member.fields[key].LiteralSchema?
    ensures Validates(member, value) ==> value.Table? && Field(value, key) == Of(member.fields[key].value)
  {
    if Validates(member, value) {
      assert Validates(member.fields[key], Field(value, key));
    }
  }

  lemma TagsKeepApart(members: seq<Schema>, key: Text)
    requires OwnTags(members, key)
    ensures Apart(members)
  {
    forall i, j, value | 0 <= i < j < |members| && Validates(members[i], value)
      ensures !Validates(members[j], value)
    {
      TagIsOwn(members[i], key, value);
      TagIsOwn(members[j], key, value);
    }
  }

  /** A union takes a member's value by that member if no earlier one validates it; if the member is the largest
      and the value its largest, the union's bound is reached. */
  lemma UnionReachedBy(f: Floats, schema: Schema, i: nat, n: nat, value: Value)
    requires IsFloats(f) && schema.UnionSchema? && Supported(schema) && i < |schema.members|
    requires Reaches(f, schema.members[i], n, value) && Ceiling(schema.members[i]) == HighestOf(schema, schema.members)
    requires Validates(schema, value) && forall j :: 0 <= j < i ==> !Validates(schema.members[j], value)
    ensures Reaches(f, schema, n, value)
  {
    UnionHasMember(schema, value);
    assert FirstMember(schema.members, value) == Some(i);
  }

  ghost predicate TakesExactly(f: Floats, schema: Schema, value: Value, bytes: nat) {
    Valid(schema, value) && Encode(f, schema, value).Ok? && |Encode(f, schema, value).value| == bytes
  }

  /** The value is one a member takes, no earlier one having taken it, and it is as large as any member's may be. */
  ghost predicate LargestOfMember(f: Floats, schema: Schema, i: int, value: Value)
    requires schema.UnionSchema?
  {
    && 0 <= i < |schema.members| && Valid(schema, value) && Validates(schema.members[i], value)
    && (forall j :: 0 <= j < i ==> !Validates(schema.members[j], value))
    && Encode(f, schema.members[i], value).Ok?
    && Some(|Encode(f, schema.members[i], value).value|) == HighestOf(schema, schema.members)
  }

  /** Any union's bound is reached if and only if some member has such a value. */
  lemma UnionReachedExactly(f: Floats, schema: Schema)
    requires IsFloats(f) && schema.UnionSchema? && Ceiling(schema).Some?
    ensures (exists value :: TakesExactly(f, schema, value, Ceiling(schema).value))
            <==> exists i, value :: LargestOfMember(f, schema, i, value)
  {
    if value :| TakesExactly(f, schema, value, Ceiling(schema).value) {
      UnionHasMember(schema, value);
      assert LargestOfMember(f, schema, FirstMember(schema.members, value).value, value);
    }
    if i, value :| LargestOfMember(f, schema, i, value) {
      assert FirstMember(schema.members, value) == Some(i);
      assert TakesExactly(f, schema, value, Ceiling(schema).value);
    }
  }

  lemma UnionReaches(f: Floats, schema: Schema, n: nat)
    requires IsFloats(f) && schema.UnionSchema? && Supported(schema) && Plain(schema)
    requires var largest := schema.members[HighestAt(schema, schema.members)];
             Reaches(f, largest, n, Largest(largest, n))
    ensures Reaches(f, schema, n, Largest(schema, n))
  {
    var i := HighestAt(schema, schema.members);
    var value := Largest(schema.members[i], n);
    if schema.discriminant.Some? {
      TagLeads(schema, schema.discriminant.value, value, i, 0);
      TagsKeepApart(schema.members, schema.discriminant.value);
    }
    UnionReachedBy(f, schema, i, n, value);
  }

  // ----- The bound is the maximum -----

  /** The most bytes a valid value takes; without a bound, values take more than any size that can be counted. */
  ghost predicate IsMaximum(f: Floats, schema: Schema, bound: Option<nat>) {
    && (forall value :: Valid(schema, value) ==> Within(f, schema, value, bound))
    && if bound.Some? then exists value :: TakesExactly(f, schema, value, bound.value)
       else forall n :: 0 <= n < SIZE_LIMIT ==> SomeTakeMore(f, schema, n)
  }

  ghost predicate TakesMore(f: Floats, schema: Schema, value: Value, bytes: nat) {
    Valid(schema, value) && Encode(f, schema, value).Ok? && |Encode(f, schema, value).value| > bytes
  }

  ghost predicate SomeTakeMore(f: Floats, schema: Schema, bytes: nat) {
    exists value :: TakesMore(f, schema, value, bytes)
  }

  lemma CeilingIsMaximum(f: Floats, schema: Schema)
    requires IsFloats(f) && Supported(schema) && Plain(schema)
    ensures IsMaximum(f, schema, Ceiling(schema))
  {
    forall value | Valid(schema, value)
      ensures Within(f, schema, value, Ceiling(schema))
    {
      CeilingBounds(f, schema, value);
    }
    if Ceiling(schema).Some? {
      LargestReaches(f, schema, 0);
      assert TakesExactly(f, schema, Largest(schema, 0), Ceiling(schema).value);
    } else {
      forall n | 0 <= n < SIZE_LIMIT
        ensures SomeTakeMore(f, schema, n)
      {
        LargestReaches(f, schema, n);
        assert TakesMore(f, schema, Largest(schema, n), n);
      }
    }
  }

  /** The bound the compiler finds is the most bytes a valid value takes, and where it finds none there is none,
      but for schemas with a ceiling it does not see: their values take at most that, and some exactly that. */
  lemma BoundIsMaximum(f: Floats, schema: Schema)
    requires IsFloats(f) && Supported(schema) && Plain(schema)
    ensures MaxEncodedPayloadBytes(schema).Some? || Ceiling(schema).None? ==>
              IsMaximum(f, schema, MaxEncodedPayloadBytes(schema))
    ensures MaxEncodedPayloadBytes(schema).None? && Ceiling(schema).Some? ==> IsMaximum(f, schema, Ceiling(schema))
  {
    CeilingIsMaximum(f, schema);
    BoundIsCeiling(schema);
  }

  /** A list of texts of any length that may hold none, and a list of any number of literals, take four bytes; for
      the compiler nothing bounds them. */
  lemma CeilingsNotSeen(f: Floats)
    requires IsFloats(f)
    ensures var texts := ArraySchema(StringSchema(None, None, _ => true), Some(0), _ => true);
            MaxEncodedPayloadBytes(texts).None? && IsMaximum(f, texts, Some(4))
    ensures var literals := ArraySchema(LiteralSchema(Boolean(true)), None, _ => true);
            MaxEncodedPayloadBytes(literals).None? && IsMaximum(f, literals, Some(4))
  {
    var texts := ArraySchema(StringSchema(None, None, _ => true), Some(0), _ => true);
    assert MaxEncodedPayloadBytes(texts.item).None?;
    assert Supported(texts.item) && Plain(texts.item);
    BoundIsMaximum(f, texts);
    var literals := ArraySchema(LiteralSchema(Boolean(true)), None, _ => true);
    assert Supported(literals.item) && Ceiling(literals.item) == Some(0);
    BoundIsMaximum(f, literals);
  }

  /** Objects of no named fields, or else of an eight-byte number x. */
  function LooseUnion(): Schema {
    UnionSchema([ObjectSchema(map[]), ObjectSchema(map[[120] := NumberSchema(F64, _ => true)])], None)
  }

  lemma LooseUnionBound(schema: Schema)
    requires schema == LooseUnion()
    ensures MaxEncodedPayloadBytes(schema) == Some(12)
  {
    var key: Text := [120];
    var members := schema.members;
    SortedAreKeys(members[0].fields);
    SortedAreKeys(members[1].fields);
    OneKey(key, members[1].fields[key]);
    assert SchemasFor(members[1].fields, [key]) == [members[1].fields[key]];
    assert MaxEncodedPayloadBytes(members[0]) == Some(0) && MaxEncodedPayloadBytes(members[1]) == Some(8);
  }

  lemma NoFieldsEncode(f: Floats, value: Value)
    requires value.Table?
    ensures Encode(f, ObjectSchema(map[]), value) == Ok([])
  {
    SortedAreKeys(ObjectSchema(map[]).fields);
  }

  lemma LooseUnionTakesFour(f: Floats, value: Value)
    requires IsFloats(f) && Valid(LooseUnion(), value)
    ensures Encode(f, LooseUnion(), value).Ok? && |Encode(f, LooseUnion(), value).value| == 4
  {
    UnionHasMember(LooseUnion(), value);
    NoFieldsEncode(f, value);
    assert Validates(LooseUnion().members[0], value);
  }

  lemma EmptyIsLoose(schema: Schema)
    requires schema == LooseUnion()
    ensures Valid(schema, Table([], map[]))
  {
    assert Validates(schema.members[0], Table([], map[]));
  }

  ghost predicate TakeFour(f: Floats, schema: Schema) {
    forall value :: Valid(schema, value) ==> TakesExactly(f, schema, value, 4)
  }

  lemma AllTakeFour(f: Floats)
    requires IsFloats(f)
    ensures TakeFour(f, LooseUnion())
  {
    forall value | Valid(LooseUnion(), value)
      ensures TakesExactly(f, LooseUnion(), value, 4)
    {
      LooseUnionTakesFour(f, value);
    }
  }

  lemma FourIsMaximum(f: Floats, schema: Schema, value: Value)
    requires TakeFour(f, schema) && Valid(schema, value)
    ensures IsMaximum(f, schema, Some(4))
  {
    assert TakesExactly(f, schema, value, 4);
  }

  /** When an earlier member takes all the values of the largest, the bound is not reached: it is twelve bytes, and
      the values of this union take four. */
  lemma LooseUnionStaysBelow(f: Floats)
    requires IsFloats(f)
    ensures MaxEncodedPayloadBytes(LooseUnion()) == Some(12) && IsMaximum(f, LooseUnion(), Some(4))
  {
    LooseUnionBound(LooseUnion());
    AllTakeFour(f);
    EmptyIsLoose(LooseUnion());
    FourIsMaximum(f, LooseUnion(), Table([], map[]));
  }
}
