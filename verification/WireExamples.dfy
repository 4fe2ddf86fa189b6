/** Encodings, layouts and a fingerprint written out. */
module WireExamples {
  import opened BinaryCodec
  import opened Bytes
  import opened Order
  import opened SchemaLayout
  import opened Schemas
  import opened Wrappers

  // ----- Names of formats -----

  /** A decimal numeral. */
  function Decimal(digits: Text): int {
    if digits == [] then 0 else Decimal(digits[..|digits| - 1]) * 10 + digits[|digits| - 1] as int - 48
  }

  /** The name of a format is f for a float, u for an unsigned and i for a signed whole number, and its width in
      bits. */
  lemma NameTellsFormat(format: Format)
    ensures var name := FormatName(format);
            && name != []
            && name[0] == (if !IsInteger(format) then 102 else if IsSigned(format) then 105 else 117)
            && Decimal(name[1..]) == 8 * Width(format)
  {
    var digits := FormatName(format)[1..];
    assert digits[..|digits| - 1] == if |digits| == 1 then [] else [digits[0]];
    assert Decimal([digits[0]][..0]) == 0;
  }

  // ----- A fingerprint -----

  /** hp, name, pos and tags */
  const HP: Text := [104, 112]
  const NAME: Text := [110, 97, 109, 101]
  const POS: Text := [112, 111, 115]
  const TAGS: Text := [116, 97, 103, 115]

  function PlainText(): Schema {
    StringSchema(None, None, _ => true)
  }

  function U8Schema(): Schema {
    NumberSchema(U8, _ => true)
  }

  /** `{ hp: u16, name: string, tags: array of string, pos: vector3 }` */
  function Player(): Schema {
    ObjectSchema(map[HP := NumberSchema(U16, _ => true), NAME := PlainText(),
                     TAGS := ArraySchema(PlainText(), None, _ => true), POS := PackedSchema(Vector3)])
  }

  lemma PlayerKeysAscend()
    ensures Ascending([HP, NAME, POS, TAGS])
  {
    assert Before(HP, NAME) && Before(HP, POS) && Before(HP, TAGS);
    assert Before(NAME, POS) && Before(NAME, TAGS) && Before(POS, TAGS);
  }

  lemma PlayerKeys()
    ensures Sorted(Player().fields.Keys) == [HP, NAME, POS, TAGS]
  {
    PlayerKeysAscend();
    assert Elements([HP, NAME, POS, TAGS]) == Player().fields.Keys;
    AscendingIsUnique([HP, NAME, POS, TAGS], Sorted(Player().fields.Keys));
  }

  lemma FourFields(show: Show, parent: Schema, fields: map<Text, Schema>, k: Text, l: Text, m: Text, n: Text)
    requires forall key :: key in fields ==> fields[key] < parent
    requires k in fields && l in fields && m in fields && n in fields
    ensures JoinedFields(show, parent, fields, [k, l, m, n])
            == k + [58] + LayoutText(show, fields[k]) + [44]
               + (l + [58] + LayoutText(show, fields[l]) + [44]
                  + (m + [58] + LayoutText(show, fields[m]) + [44] + (n + [58] + LayoutText(show, fields[n]))))
  {
    assert [k, l, m, n][1..] == [l, m, n] && [l, m, n][1..] == [m, n] && [m, n][1..] == [n];
    assert JoinedFields(show, parent, fields, [n]) == n + [58] + LayoutText(show, fields[n]);
    assert JoinedFields(show, parent, fields, [m, n])
        == m + [58] + LayoutText(show, fields[m]) + [44] + JoinedFields(show, parent, fields, [n]);
    assert JoinedFields(show, parent, fields, [l, m, n])
        == l + [58] + LayoutText(show, fields[l]) + [44] + JoinedFields(show, parent, fields, [m, n]);
  }

  lemma PlayerFields(show: Show)
    ensures var fields := Player().fields;
            && LayoutText(show, fields[HP]) == [110, 58, 117, 49, 54]
            && LayoutText(show, fields[NAME]) == [115] && LayoutText(show, fields[POS]) == [118, 51]
            && LayoutText(show, fields[TAGS]) == [97, 40, 115, 41]
  {
    var tags := Player().fields[TAGS];
    assert LayoutText(show, tags.item) == [115] && LayoutText(show, tags) == [97] + ([40] + [115] + [41]);
  }

  lemma PlayerJoined(show: Show, schema: Schema)
    requires schema == Player()
    ensures JoinedFields(show, schema, schema.fields, [HP, NAME, POS, TAGS])
            == HP + [58] + [110, 58, 117, 49, 54] + [44]
               + (NAME + [58] + [115] + [44] + (POS + [58] + [118, 51] + [44] + (TAGS + [58] + [97, 40, 115, 41])))
  {
    PlayerFields(show);
    FourFields(show, schema, schema.fields, HP, NAME, POS, TAGS);
  }

  lemma ObjectBody(show: Show, schema: Schema, keys: seq<Text>, joined: Text)
    requires schema.ObjectSchema? && Sorted(schema.fields.Keys) == keys
    requires (forall i :: 0 <= i < |keys| ==> keys[i] in schema.fields)
             && JoinedFields(show, schema, schema.fields, keys) == joined
    ensures Body(show, schema) == [40] + joined + [41]
  {
  }

  lemma PlayerBody(show: Show, schema: Schema)
    requires schema == Player()
    ensures Body(show, schema)
            == [40] + (HP + [58] + [110, 58, 117, 49, 54] + [44]
               + (NAME + [58] + [115] + [44] + (POS + [58] + [118, 51] + [44] + (TAGS + [58] + [97, 40, 115, 41]))))
               + [41]
  {
    PlayerKeys();
    PlayerJoined(show, schema);
    ObjectBody(show, schema, [HP, NAME, POS, TAGS],
               HP + [58] + [110, 58, 117, 49, 54] + [44]
               + (NAME + [58] + [115] + [44] + (POS + [58] + [118, 51] + [44] + (TAGS + [58] + [97, 40, 115, 41]))));
  }

  /** `o(hp:n:u16,name:s,pos:v3,tags:a(s))` */
  lemma PlayerLayout(show: Show)
    ensures LayoutText(show, Player())
            == [111, 40, 104, 112, 58] + [110, 58, 117, 49, 54] + [44, 110, 97, 109, 101] + [58, 115, 44, 112, 111]
               + [115, 58, 118, 51, 44] + [116, 97, 103, 115, 58] + [97, 40, 115, 41, 41]
  {
    PlayerBody(show, Player());
    Letters();
  }

  lemma Letters()
    ensures [111] + ([40] + (HP + [58] + [110, 58, 117, 49, 54] + [44]
               + (NAME + [58] + [115] + [44] + (POS + [58] + [118, 51] + [44] + (TAGS + [58] + [97, 40, 115, 41]))))
               + [41])
            == [111, 40, 104, 112, 58] + [110, 58, 117, 49, 54] + [44, 110, 97, 109, 101] + [58, 115, 44, 112, 111]
               + [115, 58, 118, 51, 44] + [116, 97, 103, 115, 58] + [97, 40, 115, 41, 41]
  {
  }

  /** Five letters more, in one step. */
  lemma FiveLetters(text: Text, h: nat, a: byte, b: byte, c: byte, d: byte, e: byte, k: nat, r: nat)
    requires Polynomial(text) % 0x1_0000_0000 == h
    requires h * 39135393 + a as nat * 1185921 + b as nat * 35937 + c as nat * 1089 + d as nat * 33 + e as nat
             == k * 0x1_0000_0000 + r
    requires r < 0x1_0000_0000
    ensures Polynomial(text + [a, b, c, d, e]) % 0x1_0000_0000 == r
  {
    var p := Polynomial(text);
    LetterAdds(text, a);
    LetterAdds(text + [a], b);
    LetterAdds(text + [a] + [b], c);
    LetterAdds(text + [a] + [b] + [c], d);
    LetterAdds(text + [a] + [b] + [c] + [d], e);
    assert text + [a, b, c, d, e] == text + [a] + [b] + [c] + [d] + [e];
    var q := p / 0x1_0000_0000;
    assert p == q * 0x1_0000_0000 + h;
    AddMultiple(r, q * 39135393 + k);
  }

  lemma LetterAdds(text: Text, letter: byte)
    ensures Polynomial(text + [letter]) == Polynomial(text) * 33 + letter as nat
  {
    assert (text + [letter])[..|text|] == text;
  }

  lemma PlayerHash()
    ensures Polynomial([111, 40, 104, 112, 58] + [110, 58, 117, 49, 54] + [44, 110, 97, 109, 101]
                       + [58, 115, 44, 112, 111] + [115, 58, 118, 51, 44] + [116, 97, 103, 115, 58]
                       + [97, 40, 115, 41, 41]) % 0x1_0000_0000 == 2935581200
  {
    var t1: Text := [111, 40, 104, 112, 58];
    var t2 := t1 + [110, 58, 117, 49, 54];
    var t3 := t2 + [44, 110, 97, 109, 101];
    var t4 := t3 + [58, 115, 44, 112, 111];
    var t5 := t4 + [115, 58, 118, 51, 44];
    var t6 := t5 + [116, 97, 103, 115, 58];
    assert [] + t1 == t1;
    FiveLetters([], 5381, 111, 40, 104, 112, 58, 49, 267343950);
    FiveLetters(t1, 267343950, 110, 58, 117, 49, 54, 2436016, 1629554354);
    FiveLetters(t2, 1629554354, 44, 110, 97, 109, 101, 14848366, 3745855711);
    FiveLetters(t3, 3745855711, 58, 115, 44, 112, 111, 34131932, 3754951447);
    FiveLetters(t4, 3754951447, 115, 58, 118, 51, 44, 34214812, 2134070809);
    FiveLetters(t5, 2134070809, 116, 97, 103, 115, 58, 19445479, 3581156898);
    FiveLetters(t6, 3581156898, 97, 40, 115, 41, 41, 32631210, 2935581200);
  }

  /** The fingerprint the runtime's tests pin. */
  lemma PlayerFingerprint(show: Show)
    ensures Fingerprint(show, Player()) == 2935581200
  {
    PlayerLayout(show);
    PlayerHash();
  }

  /** `?(n:u8)`, `r(s)`, `e(hp|pos)` and `l:string:hp` */
  lemma LayoutsWrittenOut(show: Show)
    ensures LayoutText(show, OptionalSchema(U8Schema())) == [63, 40, 110, 58, 117, 56, 41]
    ensures LayoutText(show, RecordSchema(PlainText(), _ => true)) == [114, 40, 115, 41]
    ensures LayoutText(show, EnumSchema([Str(HP), Str(POS)])) == [101, 40, 104, 112, 124, 112, 111, 115, 41]
    ensures LayoutText(show, LiteralSchema(Str(HP))) == [108, 58, 115, 116, 114, 105, 110, 103, 58, 104, 112]
  {
    assert LayoutText(show, U8Schema()) == [110] + [58] + [117, 56];
    var values := [Str(HP), Str(POS)];
    assert JoinedValues(show, values[1..]) == POS;
  }

  lemma TwoJoined(show: Show, parent: Schema, parts: seq<Schema>, separator: byte)
    requires parts == [PlainText(), BooleanSchema] && forall i :: 0 <= i < |parts| ==> parts[i] < parent
    ensures Joined(show, parent, parts, separator) == [115, separator, 98]
  {
    assert parts[1..] == [BooleanSchema];
    assert Joined(show, parent, parts[1..], separator) == [98];
  }

  /** `t(s,b)` and `u(s|b)` */
  lemma ListLayoutsWrittenOut(show: Show)
    ensures LayoutText(show, TupleSchema([PlainText(), BooleanSchema])) == [116, 40, 115, 44, 98, 41]
    ensures LayoutText(show, UnionSchema([PlainText(), BooleanSchema], None)) == [117, 40, 115, 124, 98, 41]
  {
    var tuple := TupleSchema([PlainText(), BooleanSchema]);
    TwoJoined(show, tuple, tuple.items, COMMA);
    var union := UnionSchema([PlainText(), BooleanSchema], None);
    TwoJoined(show, union, union.members, BAR);
  }

  // ----- Numbers on the wire -----

  /** A whole number's code is the number modulo two to its width in bits. */
  lemma WholeNumbersWrap(f: Floats, num: Num, format: Format)
    requires IsInteger(format) && Admits(format, num)
    ensures Span(format) == Power(Width(format)) && Code(f, num, format) < Span(format)
    ensures (Code(f, num, format) - num.value.Floor) % Span(format) == 0
  {
    Powers();
  }

  /** Its bytes are the code's digits to the base 256, the lowest first. */
  lemma NumbersAreLittle(f: Floats, num: Num, format: Format, i: nat)
    requires Admits(format, num) && i < Width(format)
    ensures NumberBytes(f, num, format)[i] as nat == Code(f, num, format) / Power(i) % 256
  {
    LittleDigits(Code(f, num, format), Width(format), i);
  }

  // ----- Encodings -----

  function Whole(n: int): Value {
    Of(Number(Finite(n as real)))
  }

  lemma SmallU32(n: nat)
    requires n < 256
    ensures U32Bytes(n) == [n as byte, 0, 0, 0]
  {
    assert Little(n / 256, 3) == [0] + ([0] + ([0] + []));
  }

  lemma OneByte(f: Floats, n: nat)
    requires n < 256
    ensures Encode(f, U8Schema(), Whole(n)) == Ok([n as byte])
  {
    var num := Finite(n as real);
    assert Admits(U8, num) && Code(f, num, U8) == n;
    assert Little(n, 1) == [(n % 256) as byte] + Little(n / 256, 0) == [n as byte];
  }

  /** Flags, absent and present values, and members of an enum. */
  lemma ScalarsWrittenOut(f: Floats)
    ensures Encode(f, BooleanSchema, Of(Boolean(true))) == Ok([1])
    ensures Encode(f, BooleanSchema, Of(Boolean(false))) == Ok([0])
    ensures Encode(f, OptionalSchema(U8Schema()), Undefined) == Ok([0])
    ensures Encode(f, OptionalSchema(U8Schema()), Whole(7)) == Ok([1, 7])
    ensures Encode(f, EnumSchema([Str(HP), Str(NAME)]), Of(Str(NAME))) == Ok([1, 0, 0, 0])
    ensures Encode(f, PlainText(), Of(Str(HP))) == Ok([2, 0, 0, 0, 104, 112])
  {
    OneByte(f, 7);
    SmallU32(1);
    SmallU32(2);
    var values := [Str(HP), Str(NAME)];
    assert HP != NAME by {
      assert |HP| != |NAME|;
    }
    assert IndexOf(values, Of(Str(NAME))) == IndexOf(values, Of(Str(NAME)), 1) == Some(1);
    assert [2, 0, 0, 0] + HP == [2, 0, 0, 0, 104, 112];
    assert [1] + [7] == [1, 7];
  }

  lemma TwoParts(f: Floats, parent: Schema, parts: seq<Part>, first: Text, second: Text)
    requires |parts| == 2 && parts[0].schema < parent && parts[1].schema < parent
    requires Encode(f, parts[0].schema, parts[0].value) == Ok(first)
    requires Encode(f, parts[1].schema, parts[1].value) == Ok(second)
    ensures EncodeAll(f, parent, parts) == Ok(first + second)
  {
    assert parts[1..] == [parts[1]] && parts[1..][1..] == [];
    assert EncodeAll(f, parent, parts[1..]) == Ok(second + []);
    assert second + [] == second;
  }

  lemma ListWrittenOut(f: Floats)
    ensures Encode(f, ArraySchema(U8Schema(), None, _ => true), Table([Whole(5), Whole(6)], map[]))
            == Ok([2, 0, 0, 0, 5, 6])
  {
    OneByte(f, 5);
    OneByte(f, 6);
    SmallU32(2);
    var schema, value := ArraySchema(U8Schema(), None, _ => true), Table([Whole(5), Whole(6)], map[]);
    TwoParts(f, schema, ArrayParts(schema.item, value.items), [5], [6]);
    assert [2, 0, 0, 0] + ([5] + [6]) == [2, 0, 0, 0, 5, 6];
  }

  /** A tuple has no length in front. */
  lemma TupleWrittenOut(f: Floats)
    ensures Encode(f, TupleSchema([U8Schema(), U8Schema()]), Table([Whole(5), Whole(6)], map[])) == Ok([5, 6])
  {
    OneByte(f, 5);
    OneByte(f, 6);
    var schema, value := TupleSchema([U8Schema(), U8Schema()]), Table([Whole(5), Whole(6)], map[]);
    TwoParts(f, schema, TupleParts(schema.items, value.items), [5], [6]);
    assert [5] + [6] == [5, 6];
  }

  /** A union's value has the member's index in front. */
  lemma UnionWrittenOut(f: Floats)
    ensures Encode(f, UnionSchema([PlainText(), U8Schema()], None), Whole(9)) == Ok([1, 0, 0, 0, 9])
  {
    OneByte(f, 9);
    SmallU32(1);
    var members := [PlainText(), U8Schema()];
    assert (9 as real).Floor == 9;
    assert Validates(members[1], Whole(9)) && !Validates(members[0], Whole(9));
    assert FirstMember(members, Whole(9)) == FirstMember(members, Whole(9), 1) == Some(1);
    assert [1, 0, 0, 0] + [9] == [1, 0, 0, 0, 9];
  }

  /** Any byte but zero stands for true, and for a value that is there. */
  lemma OnlyZeroIsFalse(f: Floats, inner: Schema, flag: byte, rest: Text)
    requires flag != 0
    ensures Decode(f, BooleanSchema, [flag] + rest) == Ok(Read(Of(Boolean(true)), rest))
    ensures Decode(f, OptionalSchema(inner), [flag] + rest) == Decode(f, inner, rest)
  {
    assert ([flag] + rest)[1..] == rest && ([flag] + rest)[..1] == [flag];
  }
}
