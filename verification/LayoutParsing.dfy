/** Layout texts can be read in one way only, so equal ones belong to schemas with the same wire format. */
module LayoutParsing {
  import opened BinaryCodec
  import opened Bytes
  import opened Order
  import opened SchemaLayout
  import opened Schemas
  import opened Wrappers

  // ----- What the layout must be clean of -----

  function Pow2(k: nat): (r: real)
    ensures r >= 1.0
  {
    if k == 0 then 1.0 else 2.0 * Pow2(k - 1)
  }

  /** A whole number of 2^-k. */
  predicate IsWhole(value: real, k: nat) {
    (value * Pow2(k)).Floor as real == value * Pow2(k)
  }

  /** A number a double can hold is a whole number of some 2^-k. */
  ghost predicate IsDouble(num: Num) {
    num.Finite? ==> exists k: nat :: IsWhole(num.value, k)
  }

  /** Numbers are written as words, and those a double can hold each differently. */
  ghost predicate IsShow(show: Show) {
    && (forall num :: IsWord(show(num)))
    && (forall x, y :: IsDouble(x) && IsDouble(y) && show(x) == show(y) ==> x == y)
  }

  ghost predicate CleanScalar(scalar: Scalar) {
    && (scalar.Str? ==> IsWord(scalar.text))
    && (scalar.Number? ==> IsDouble(scalar.num))
  }

  /** Field names and literals free of the layout's own marks, and enums of nonempty strings. */
  ghost predicate Clean(schema: Schema) {
    match schema
    case LiteralSchema(value) => CleanScalar(value)
    case ArraySchema(item, _, _) => Clean(item)
    case ObjectSchema(fields) => forall key :: key in fields ==> IsWord(key) && Clean(fields[key])
    case OptionalSchema(inner) => Clean(inner)
    case RecordSchema(item, _) => Clean(item)
    case TupleSchema(items) => forall i :: 0 <= i < |items| ==> Clean(items[i])
    case EnumSchema(values) => forall i ::
        0 <= i < |values| ==> values[i].Str? && values[i].text != [] && IsWord(values[i].text)
    case UnionSchema(members, _) => forall i :: 0 <= i < |members| ==> Clean(members[i])
    case DefaultSchema(_) => false
    case _ => true
  }

  /** Schemas that differ at most in what they check, not in what they write. */
  predicate SameWire(s: Schema, t: Schema)
    decreases s
  {
    match s
    case StringSchema(_, _, _) => t.StringSchema?
    case NumberSchema(format, _) => t.NumberSchema? && t.format == format
    case BooleanSchema => t.BooleanSchema?
    case LiteralSchema(value) => t.LiteralSchema? && t.value == value
    case ArraySchema(item, _, _) => t.ArraySchema? && SameWire(item, t.item)
    case ObjectSchema(fields) =>
      t.ObjectSchema? && fields.Keys == t.fields.Keys
        && forall key :: key in fields ==> SameWire(fields[key], t.fields[key])
    case OptionalSchema(inner) => t.OptionalSchema? && SameWire(inner, t.inner)
    case RecordSchema(item, _) => t.RecordSchema? && SameWire(item, t.item)
    case TupleSchema(items) =>
      t.TupleSchema? && |items| == |t.items| && forall i :: 0 <= i < |items| ==> SameWire(items[i], t.items[i])
    case EnumSchema(values) => t.EnumSchema? && t.values == values
    case UnionSchema(members, _) =>
      t.UnionSchema? && |members| == |t.members|
        && forall i :: 0 <= i < |members| ==> SameWire(members[i], t.members[i])
    case PackedSchema(kind) => t.PackedSchema? && t.kind == kind
    case DefaultSchema(inner) => t.DefaultSchema? && SameWire(inner, t.inner)
    case InstanceSchema => t.InstanceSchema?
  }

  // ----- A way to write numbers -----

  function Marks(count: nat): Text {
    seq(count, _ => 49)
  }

  /** A sign, and a fraction's two whole numbers in strokes. */
  function Fraction(n: int, k: nat): Text {
    [if n < 0 then 45 else 43] + (Marks(if n < 0 then -n else n) + [47] + Marks(k))
  }

  /** Enough places for the number to be whole. */
  ghost function Places(value: real): (k: nat)
    requires IsDouble(Finite(value))
    ensures IsWhole(value, k)
  {
    var k: nat :| IsWhole(value, k);
    k
  }

  ghost function Numerator(value: real): (n: int)
    requires IsDouble(Finite(value))
    ensures n as real == value * Pow2(Places(value))
  {
    (value * Pow2(Places(value))).Floor
  }

  ghost function Written(num: Num): Text {
    match num
    case NonFinite(code) => [78] + Marks(code)
    case Finite(value) => if IsDouble(num) then Fraction(Numerator(value), Places(value)) else []
  }

  lemma MarksTell(a: nat, b: nat, c: nat, d: nat)
    requires Marks(a) + [47] + Marks(b) == Marks(c) + [47] + Marks(d)
    ensures a == c && b == d
  {
    var x, y := Marks(a) + [47] + Marks(b), Marks(c) + [47] + Marks(d);
    assert x[a] == 47 && y[c] == 47;
    assert |x| == a + 1 + b && |y| == c + 1 + d;
  }

  lemma FractionsTell(n: int, k: nat, m: int, l: nat)
    requires Fraction(n, k) == Fraction(m, l)
    ensures n == m && k == l
  {
    var x, y := Fraction(n, k), Fraction(m, l);
    assert x[0] == y[0] && x[1..] == y[1..];
    MarksTell(if n < 0 then -n else n, k, if m < 0 then -m else m, l);
  }

  lemma SameWhole(x: real, y: real, k: nat)
    requires x * Pow2(k) == y * Pow2(k)
    ensures x == y
  {
  }

  lemma FiniteTells(x: real, y: real)
    requires IsDouble(Finite(x)) && IsDouble(Finite(y)) && Written(Finite(x)) == Written(Finite(y))
    ensures x == y
  {
    var n, k, m, l := Numerator(x), Places(x), Numerator(y), Places(y);
    assert Written(Finite(x)) == Fraction(n, k) && Written(Finite(y)) == Fraction(m, l);
    FractionsTell(n, k, m, l);
    SameWhole(x, y, Places(x));
  }

  lemma KindTells(num: Num)
    requires IsDouble(num)
    ensures Written(num) != [] && (Written(num)[0] == 78 <==> num.NonFinite?)
  {
  }

  lemma WrittenTells(x: Num, y: Num)
    requires IsDouble(x) && IsDouble(y) && Written(x) == Written(y)
    ensures x == y
  {
    KindTells(x);
    KindTells(y);
    if x.Finite? {
      FiniteTells(x.value, y.value);
    } else {
      assert |Written(x)| == x.code + 1 && |Written(y)| == y.code + 1;
    }
  }

  /** Such a way there is. */
  lemma NumbersCanBeWritten()
    ensures IsShow(Written)
  {
    forall x, y | IsDouble(x) && IsDouble(y) && Written(x) == Written(y)
      ensures x == y
    {
      WrittenTells(x, y);
    }
  }

  // ----- Words -----

  predicate StartsMarked(text: Text) {
    text == [] || IsDelimiter(text[0])
  }

  /** How far a text goes without a mark. */
  function WordLength(text: Text): nat {
    if text == [] || IsDelimiter(text[0]) then 0 else 1 + WordLength(text[1..])
  }

  lemma {:induction false} WordEnds(word: Text, rest: Text)
    requires IsWord(word) && StartsMarked(rest)
    ensures WordLength(word + rest) == |word|
  {
    if word == [] {
      assert word + rest == rest;
    } else {
      assert (word + rest)[1..] == word[1..] + rest;
      WordEnds(word[1..], rest);
    }
  }

  /** A word and the mark after it can be told apart. */
  lemma SameWord(a: Text, rest: Text, b: Text, other: Text)
    requires a + rest == b + other && IsWord(a) && IsWord(b) && StartsMarked(rest) && StartsMarked(other)
    ensures a == b && rest == other
  {
    WordEnds(a, rest);
    WordEnds(b, other);
    assert (a + rest)[..|a|] == a && (b + other)[..|b|] == b;
    assert (a + rest)[|a|..] == rest && (b + other)[|b|..] == other;
  }

  lemma SameMark(mark: byte, rest: Text, other: Text)
    requires [mark] + rest == [mark] + other
    ensures rest == other
  {
    assert ([mark] + rest)[1..] == rest && ([mark] + other)[1..] == other;
  }

  lemma HeadIsWord(schema: Schema)
    requires Clean(schema)
    ensures IsWord(Head(schema)) && Head(schema) != []
  {
  }

  predicate SameKind(s: Schema, t: Schema) {
    match s
    case StringSchema(_, _, _) => t.StringSchema?
    case NumberSchema(_, _) => t.NumberSchema?
    case BooleanSchema => t.BooleanSchema?
    case LiteralSchema(_) => t.LiteralSchema?
    case ArraySchema(_, _, _) => t.ArraySchema?
    case ObjectSchema(_) => t.ObjectSchema?
    case OptionalSchema(_) => t.OptionalSchema?
    case RecordSchema(_, _) => t.RecordSchema?
    case TupleSchema(_) => t.TupleSchema?
    case EnumSchema(_) => t.EnumSchema?
    case UnionSchema(_, _) => t.UnionSchema?
    case PackedSchema(kind) => t.PackedSchema? && t.kind == kind
    case DefaultSchema(_) => t.DefaultSchema?
    case InstanceSchema => t.InstanceSchema?
  }

  /** Each kind of schema has a head of its own. */
  lemma HeadsTell(s: Schema, t: Schema)
    requires Head(s) == Head(t)
    ensures SameKind(s, t)
  {
    var head, other := Head(s), Head(t);
    assert |head| == |other| && forall i :: 0 <= i < |head| ==> head[i] == other[i];
  }

  lemma FormatsTell(f: Format, g: Format)
    requires FormatName(f) == FormatName(g)
    ensures f == g
  {
    var name, other := FormatName(f), FormatName(g);
    assert |name| == |other| && forall i :: 0 <= i < |name| ==> name[i] == other[i];
  }

  lemma FormatIsWord(f: Format)
    ensures IsWord(FormatName(f))
  {
  }

  lemma ScalarsTell(show: Show, a: Scalar, b: Scalar)
    requires IsShow(show) && CleanScalar(a) && CleanScalar(b) && TypeName(a) == TypeName(b)
             && Shown(show, a) == Shown(show, b)
    ensures a == b
  {
    var name, other := TypeName(a), TypeName(b);
    assert |name| == |other| && name[0] == other[0];
    if a.Boolean? {
      assert |Shown(show, a)| == |Shown(show, b)|;
    }
  }

  lemma ScalarIsWords(show: Show, a: Scalar)
    requires IsShow(show) && CleanScalar(a)
    ensures IsWord(TypeName(a)) && IsWord(Shown(show, a))
  {
  }

  // ----- Reading a layout -----

  /** Where a layout may stop. */
  predicate Ends(text: Text) {
    text == [] || text[0] == CLOSE || text[0] == COMMA || text[0] == BAR
  }

  lemma Regroup(a: Text, b: Text, c: Text)
    ensures (a + b) + c == a + (b + c)
  {
  }

  lemma BodyIsMarked(show: Show, schema: Schema, rest: Text)
    requires Ends(rest)
    ensures StartsMarked(Body(show, schema) + rest)
  {
    assert [] + rest == rest;
  }

  /** A layout can be told apart from what follows it, and tells the wire format. */
  lemma {:induction false} LayoutIsUnique(show: Show, s: Schema, t: Schema, rest: Text, other: Text)
    requires IsShow(show) && Clean(s) && Clean(t) && Ends(rest) && Ends(other)
    requires LayoutText(show, s) + rest == LayoutText(show, t) + other
    ensures SameWire(s, t) && rest == other
    decreases s, 3, 0
  {
    Regroup(Head(s), Body(show, s), rest);
    Regroup(Head(t), Body(show, t), other);
    HeadIsWord(s);
    HeadIsWord(t);
    BodyIsMarked(show, s, rest);
    BodyIsMarked(show, t, other);
    SameWord(Head(s), Body(show, s) + rest, Head(t), Body(show, t) + other);
    HeadsTell(s, t);
    BodyIsUnique(show, s, t, rest, other);
  }

  lemma BodyIsUnique(show: Show, s: Schema, t: Schema, rest: Text, other: Text)
    requires IsShow(show) && Clean(s) && Clean(t) && Ends(rest) && Ends(other) && SameKind(s, t)
    requires Body(show, s) + rest == Body(show, t) + other
    ensures SameWire(s, t) && rest == other
    decreases s, 2, 0
  {
    match s {
      case NumberSchema(format, _) =>
        AfterMark(COLON, FormatName(format), rest, FormatName(t.format), other);
        FormatIsWord(format);
        FormatIsWord(t.format);
        SameWord(FormatName(format), rest, FormatName(t.format), other);
        FormatsTell(format, t.format);
      case LiteralSchema(value) => LiteralIsUnique(show, value, t.value, rest, other);
      case ArraySchema(item, _, _) => WrappedIsUnique(show, item, t.item, rest, other);
      case OptionalSchema(inner) => WrappedIsUnique(show, inner, t.inner, rest, other);
      case RecordSchema(item, _) => WrappedIsUnique(show, item, t.item, rest, other);
      case ObjectSchema(fields) => ObjectIsUnique(show, s, t, rest, other);
      case TupleSchema(items) =>
        Unwrapped(Joined(show, s, items, COMMA), rest, Joined(show, t, t.items, COMMA), other);
        JoinedIsUnique(show, s, items, t, t.items, COMMA, rest, other);
      case EnumSchema(values) =>
        Unwrapped(JoinedValues(show, values), rest, JoinedValues(show, t.values), other);
        ValuesAreUnique(show, values, t.values, rest, other);
      case UnionSchema(members, _) =>
        Unwrapped(Joined(show, s, members, BAR), rest, Joined(show, t, t.members, BAR), other);
        JoinedIsUnique(show, s, members, t, t.members, BAR, rest, other);
      case _ =>
        assert [] + rest == rest && [] + other == other;
    }
  }

  lemma AfterMark(mark: byte, a: Text, rest: Text, b: Text, other: Text)
    requires ([mark] + a) + rest == ([mark] + b) + other
    ensures a + rest == b + other
  {
    Regroup([mark], a, rest);
    Regroup([mark], b, other);
    SameMark(mark, a + rest, b + other);
  }

  lemma Unwrapped(a: Text, rest: Text, b: Text, other: Text)
    requires ([OPEN] + a + [CLOSE]) + rest == ([OPEN] + b + [CLOSE]) + other
    ensures a + ([CLOSE] + rest) == b + ([CLOSE] + other)
  {
    assert ([OPEN] + a + [CLOSE]) + rest == [OPEN] + (a + ([CLOSE] + rest));
    assert ([OPEN] + b + [CLOSE]) + other == [OPEN] + (b + ([CLOSE] + other));
    SameMark(OPEN, a + ([CLOSE] + rest), b + ([CLOSE] + other));
  }

  lemma LiteralIsUnique(show: Show, a: Scalar, b: Scalar, rest: Text, other: Text)
    requires IsShow(show) && CleanScalar(a) && CleanScalar(b) && Ends(rest) && Ends(other)
    requires ([COLON] + LiteralTag(show, a)) + rest == ([COLON] + LiteralTag(show, b)) + other
    ensures a == b && rest == other
  {
    ScalarIsWords(show, a);
    ScalarIsWords(show, b);
    AfterMark(COLON, LiteralTag(show, a), rest, LiteralTag(show, b), other);
    TagThenValue(show, a, rest);
    TagThenValue(show, b, other);
    SameWord(TypeName(a), [COLON] + (Shown(show, a) + rest), TypeName(b), [COLON] + (Shown(show, b) + other));
    SameMark(COLON, Shown(show, a) + rest, Shown(show, b) + other);
    SameWord(Shown(show, a), rest, Shown(show, b), other);
    ScalarsTell(show, a, b);
  }

  lemma TagThenValue(show: Show, a: Scalar, rest: Text)
    ensures LiteralTag(show, a) + rest == TypeName(a) + ([COLON] + (Shown(show, a) + rest))
  {
  }

  lemma WrappedIsUnique(show: Show, s: Schema, t: Schema, rest: Text, other: Text)
    requires IsShow(show) && Clean(s) && Clean(t) && Ends(rest) && Ends(other)
    requires ([OPEN] + LayoutText(show, s) + [CLOSE]) + rest == ([OPEN] + LayoutText(show, t) + [CLOSE]) + other
    ensures SameWire(s, t) && rest == other
    decreases s, 4, 0
  {
    Unwrapped(LayoutText(show, s), rest, LayoutText(show, t), other);
    LayoutIsUnique(show, s, t, [CLOSE] + rest, [CLOSE] + other);
    SameMark(CLOSE, rest, other);
  }

  // ----- Lists of layouts -----

  /** What follows the first layout of a list. */
  function AfterFirst(show: Show, ghost parent: Schema, parts: seq<Schema>, separator: byte, rest: Text): Text
    requires parts != [] && forall i :: 0 <= i < |parts| ==> parts[i] < parent
  {
    if |parts| == 1 then [CLOSE] + rest
    else [separator] + (Joined(show, parent, parts[1..], separator) + ([CLOSE] + rest))
  }

  lemma JoinedFirst(show: Show, parent: Schema, parts: seq<Schema>, separator: byte, rest: Text)
    requires parts != [] && forall i :: 0 <= i < |parts| ==> parts[i] < parent
    ensures Joined(show, parent, parts, separator) + ([CLOSE] + rest)
            == LayoutText(show, parts[0]) + AfterFirst(show, parent, parts, separator, rest)
  {
    if |parts| > 1 {
      Spliced(LayoutText(show, parts[0]), separator, Joined(show, parent, parts[1..], separator), [CLOSE] + rest);
    }
  }

  lemma Spliced(a: Text, mark: byte, b: Text, c: Text)
    ensures (a + [mark] + b) + c == a + ([mark] + (b + c))
  {
  }

  lemma NotClosed(show: Show, schema: Schema, more: Text, rest: Text)
    requires Clean(schema)
    ensures LayoutText(show, schema) + more != [CLOSE] + rest
  {
    HeadIsWord(schema);
    assert (LayoutText(show, schema) + more)[0] == Head(schema)[0];
    assert ([CLOSE] + rest)[0] == CLOSE;
  }

  lemma {:induction false} JoinedIsUnique(show: Show, s: Schema, ss: seq<Schema>, t: Schema, ts: seq<Schema>,
                                          separator: byte,
                                          rest: Text, other: Text)
    requires IsShow(show) && (separator == COMMA || separator == BAR)
    requires forall i :: 0 <= i < |ss| ==> ss[i] < s && Clean(ss[i])
    requires forall i :: 0 <= i < |ts| ==> ts[i] < t && Clean(ts[i])
    requires Joined(show, s, ss, separator) + ([CLOSE] + rest) == Joined(show, t, ts, separator) + ([CLOSE] + other)
    ensures |ss| == |ts| && (forall i :: 0 <= i < |ss| ==> SameWire(ss[i], ts[i])) && rest == other
    decreases s, 0, |ss|
  {
    if ss == [] || ts == [] {
      assert [] + ([CLOSE] + rest) == [CLOSE] + rest && [] + ([CLOSE] + other) == [CLOSE] + other;
      if ss != [] {
        JoinedFirst(show, s, ss, separator, rest);
        NotClosed(show, ss[0], AfterFirst(show, s, ss, separator, rest), other);
      } else if ts != [] {
        JoinedFirst(show, t, ts, separator, other);
        NotClosed(show, ts[0], AfterFirst(show, t, ts, separator, other), rest);
      }
      SameMark(CLOSE, rest, other);
    } else {
      var after, after' := AfterFirst(show, s, ss, separator, rest), AfterFirst(show, t, ts, separator, other);
      JoinedFirst(show, s, ss, separator, rest);
      JoinedFirst(show, t, ts, separator, other);
      LayoutIsUnique(show, ss[0], ts[0], after, after');
      assert after[0] == after'[0];
      if |ss| == 1 {
        SameMark(CLOSE, rest, other);
      } else {
        SameMark(separator, Joined(show, s, ss[1..], separator) + ([CLOSE] + rest),
                 Joined(show, t, ts[1..], separator) + ([CLOSE] + other));
        JoinedIsUnique(show, s, ss[1..], t, ts[1..], separator, rest, other);
        FirstAndRest(ss, ts);
      }
    }
  }

  lemma FirstAndRest(ss: seq<Schema>, ts: seq<Schema>)
    requires ss != [] && ts != [] && |ss| == |ts| && SameWire(ss[0], ts[0])
    requires forall i :: 0 <= i < |ss[1..]| ==> SameWire(ss[1..][i], ts[1..][i])
    ensures forall i :: 0 <= i < |ss| ==> SameWire(ss[i], ts[i])
  {
    forall i | 0 <= i < |ss| ensures SameWire(ss[i], ts[i]) {
      if i > 0 {
        assert SameWire(ss[1..][i - 1], ts[1..][i - 1]);
      }
    }
  }

  // ----- Fields -----

  ghost predicate FieldsBelow(parent: Schema, fields: map<Text, Schema>, keys: seq<Text>) {
    && (forall key :: key in fields ==> fields[key] < parent && IsWord(key) && Clean(fields[key]))
    && (forall i :: 0 <= i < |keys| ==> keys[i] in fields)
  }

  function AfterField(show: Show, ghost parent: Schema, fields: map<Text, Schema>, keys: seq<Text>, rest: Text): Text
    requires keys != [] && FieldsBelow(parent, fields, keys)
  {
    if |keys| == 1 then [CLOSE] + rest else [COMMA] + (JoinedFields(show, parent, fields, keys[1..]) + ([CLOSE] + rest))
  }

  lemma FieldFirst(show: Show, parent: Schema, fields: map<Text, Schema>, keys: seq<Text>, rest: Text)
    requires keys != [] && FieldsBelow(parent, fields, keys)
    ensures JoinedFields(show, parent, fields, keys) + ([CLOSE] + rest)
            == keys[0] + ([COLON] + (LayoutText(show, fields[keys[0]]) + AfterField(show, parent, fields, keys, rest)))
  {
    if |keys| == 1 {
      Spliced(keys[0], COLON, LayoutText(show, fields[keys[0]]), [CLOSE] + rest);
    } else {
      SplicedTwice(keys[0], COLON, LayoutText(show, fields[keys[0]]), COMMA,
                   JoinedFields(show, parent, fields, keys[1..]), [CLOSE] + rest);
    }
  }

  lemma SplicedTwice(a: Text, mark: byte, b: Text, mark': byte, c: Text, d: Text)
    ensures (a + [mark] + b + [mark'] + c) + d == a + ([mark] + (b + ([mark'] + (c + d))))
  {
  }

  lemma WordNotClosed(word: Text, mark: byte, more: Text, rest: Text)
    requires IsWord(word) && (mark == COLON || word != [])
    ensures word + ([mark] + more) != [CLOSE] + rest
  {
    assert ([CLOSE] + rest)[0] == CLOSE;
    if word != [] {
      assert (word + ([mark] + more))[0] == word[0];
    } else {
      assert (word + ([mark] + more))[0] == mark;
    }
  }

  lemma NoFieldIsUnique(show: Show, s: Schema, fields: map<Text, Schema>, keys: seq<Text>, rest: Text, other: Text)
    requires FieldsBelow(s, fields, keys)
    requires JoinedFields(show, s, fields, keys) + ([CLOSE] + rest) == [CLOSE] + other
    ensures keys == [] && rest == other
  {
    if keys != [] {
      FieldFirst(show, s, fields, keys, rest);
      WordNotClosed(keys[0], COLON, LayoutText(show, fields[keys[0]]) + AfterField(show, s, fields, keys, rest), other);
    }
    assert [] + ([CLOSE] + rest) == [CLOSE] + rest;
    SameMark(CLOSE, rest, other);
  }

  lemma MoreFields(show: Show, s: Schema, fields: map<Text, Schema>, keys: seq<Text>,
                   t: Schema, fields': map<Text, Schema>, keys': seq<Text>, rest: Text, other: Text)
    requires FieldsBelow(s, fields, keys) && FieldsBelow(t, fields', keys') && |keys| > 1 && |keys'| > 1
    requires AfterField(show, s, fields, keys, rest) == AfterField(show, t, fields', keys', other)
    ensures FieldsBelow(s, fields, keys[1..]) && FieldsBelow(t, fields', keys'[1..])
    ensures JoinedFields(show, s, fields, keys[1..]) + ([CLOSE] + rest)
            == JoinedFields(show, t, fields', keys'[1..]) + ([CLOSE] + other)
  {
    SameMark(COMMA, JoinedFields(show, s, fields, keys[1..]) + ([CLOSE] + rest),
             JoinedFields(show, t, fields', keys'[1..]) + ([CLOSE] + other));
  }

  ghost predicate FieldsMatch(fields: map<Text, Schema>, keys: seq<Text>, fields': map<Text, Schema>,
                              keys': seq<Text>) {
    keys == keys'
      && forall i ::
        0 <= i < |keys| ==> keys[i] in fields && keys[i] in fields' && SameWire(fields[keys[i]], fields'[keys[i]])
  }

  lemma FirstFieldMatches(fields: map<Text, Schema>, keys: seq<Text>, fields': map<Text, Schema>, keys': seq<Text>)
    requires keys != [] && keys' != [] && keys[0] == keys'[0] && keys[0] in fields && keys[0] in fields'
    requires SameWire(fields[keys[0]], fields'[keys[0]]) && FieldsMatch(fields, keys[1..], fields', keys'[1..])
    ensures FieldsMatch(fields, keys, fields', keys')
  {
    assert keys == [keys[0]] + keys[1..] && keys' == [keys'[0]] + keys'[1..];
    forall i | 0 <= i < |keys|
      ensures keys[i] in fields && keys[i] in fields' && SameWire(fields[keys[i]], fields'[keys[i]])
    {
      if i > 0 {
        assert keys[i] == keys[1..][i - 1];
      }
    }
  }

  lemma {:induction false} FieldsAreUnique(show: Show, s: Schema, fields: map<Text, Schema>, keys: seq<Text>,
                                           t: Schema, fields': map<Text, Schema>, keys': seq<Text>, rest: Text,
                                           other: Text)
    requires IsShow(show) && FieldsBelow(s, fields, keys) && FieldsBelow(t, fields', keys')
    requires JoinedFields(show, s, fields, keys) + ([CLOSE] + rest)
             == JoinedFields(show, t, fields', keys') + ([CLOSE] + other)
    ensures FieldsMatch(fields, keys, fields', keys') && rest == other
    decreases s, 0, |keys|
  {
    if keys == [] {
      assert [] + ([CLOSE] + rest) == [CLOSE] + rest;
      NoFieldIsUnique(show, t, fields', keys', other, rest);
    } else if keys' == [] {
      assert [] + ([CLOSE] + other) == [CLOSE] + other;
      NoFieldIsUnique(show, s, fields, keys, rest, other);
    } else {
      FirstFieldIsUnique(show, s, fields, keys, t, fields', keys', rest, other);
      if |keys| == 1 {
        SameMark(CLOSE, rest, other);
      } else {
        MoreFields(show, s, fields, keys, t, fields', keys', rest, other);
        FieldsAreUnique(show, s, fields, keys[1..], t, fields', keys'[1..], rest, other);
      }
      FirstFieldMatches(fields, keys, fields', keys');
    }
  }

  lemma FirstFieldIsUnique(show: Show, s: Schema, fields: map<Text, Schema>, keys: seq<Text>,
                           t: Schema, fields': map<Text, Schema>, keys': seq<Text>, rest: Text, other: Text)
    requires IsShow(show) && FieldsBelow(s, fields, keys) && FieldsBelow(t, fields', keys') && keys != [] && keys' != []
    requires JoinedFields(show, s, fields, keys) + ([CLOSE] + rest)
             == JoinedFields(show, t, fields', keys') + ([CLOSE] + other)
    ensures keys[0] == keys'[0] && SameWire(fields[keys[0]], fields'[keys[0]]) && (|keys| == 1 <==> |keys'| == 1)
    ensures AfterField(show, s, fields, keys, rest) == AfterField(show, t, fields', keys', other)
    decreases s, 0, 0
  {
    var after, after' := AfterField(show, s, fields, keys, rest), AfterField(show, t, fields', keys', other);
    FieldFirst(show, s, fields, keys, rest);
    FieldFirst(show, t, fields', keys', other);
    SameWord(keys[0], [COLON] + (LayoutText(show, fields[keys[0]]) + after), keys'[0],
             [COLON] + (LayoutText(show, fields'[keys'[0]]) + after'));
    SameMark(COLON, LayoutText(show, fields[keys[0]]) + after, LayoutText(show, fields'[keys'[0]]) + after');
    LayoutIsUnique(show, fields[keys[0]], fields'[keys'[0]], after, after');
    assert after[0] == after'[0];
  }

  lemma ObjectIsUnique(show: Show, s: Schema, t: Schema, rest: Text, other: Text)
    requires s.ObjectSchema? && t.ObjectSchema? && IsShow(show) && Clean(s) && Clean(t) && Ends(rest) && Ends(other)
    requires Body(show, s) + rest == Body(show, t) + other
    ensures SameWire(s, t) && rest == other
    decreases s, 1, 0
  {
    SortedAreKeys(s.fields);
    SortedAreKeys(t.fields);
    var keys, keys' := Sorted(s.fields.Keys), Sorted(t.fields.Keys);
    Unwrapped(JoinedFields(show, s, s.fields, keys), rest, JoinedFields(show, t, t.fields, keys'), other);
    FieldsAreUnique(show, s, s.fields, keys, t, t.fields, keys', rest, other);
    forall key | key in s.fields ensures key in t.fields && SameWire(s.fields[key], t.fields[key]) {
      assert key in Elements(keys);
    }
  }

  // ----- Enum values -----

  ghost predicate AreNames(values: seq<Scalar>) {
    forall i :: 0 <= i < |values| ==> values[i].Str? && values[i].text != [] && IsWord(values[i].text)
  }

  function AfterValue(show: Show, values: seq<Scalar>, rest: Text): Text
    requires values != []
  {
    if |values| == 1 then [CLOSE] + rest else [BAR] + (JoinedValues(show, values[1..]) + ([CLOSE] + rest))
  }

  lemma ValueFirst(show: Show, values: seq<Scalar>, rest: Text)
    requires values != [] && AreNames(values)
    ensures JoinedValues(show, values) + ([CLOSE] + rest) == values[0].text + AfterValue(show, values, rest)
    ensures StartsMarked(AfterValue(show, values, rest))
  {
    if |values| > 1 {
      Spliced(values[0].text, BAR, JoinedValues(show, values[1..]), [CLOSE] + rest);
    }
  }

  lemma NameNotClosed(show: Show, values: seq<Scalar>, rest: Text, other: Text)
    requires values != [] && AreNames(values)
    ensures JoinedValues(show, values) + ([CLOSE] + rest) != [CLOSE] + other
  {
    ValueFirst(show, values, rest);
    assert (values[0].text + AfterValue(show, values, rest))[0] == values[0].text[0];
    assert ([CLOSE] + other)[0] == CLOSE;
  }

  lemma {:induction false} ValuesAreUnique(show: Show, values: seq<Scalar>, values': seq<Scalar>, rest: Text,
                                           other: Text)
    requires AreNames(values) && AreNames(values')
    requires JoinedValues(show, values) + ([CLOSE] + rest) == JoinedValues(show, values') + ([CLOSE] + other)
    ensures values == values' && rest == other
    decreases |values|
  {
    if values == [] || values' == [] {
      assert [] + ([CLOSE] + rest) == [CLOSE] + rest && [] + ([CLOSE] + other) == [CLOSE] + other;
      if values != [] {
        NameNotClosed(show, values, rest, other);
      } else if values' != [] {
        NameNotClosed(show, values', other, rest);
      }
      SameMark(CLOSE, rest, other);
    } else {
      var after, after' := AfterValue(show, values, rest), AfterValue(show, values', other);
      ValueFirst(show, values, rest);
      ValueFirst(show, values', other);
      SameWord(values[0].text, after, values'[0].text, after');
      assert after[0] == after'[0];
      if |values| == 1 {
        SameMark(CLOSE, rest, other);
        assert values == [values[0]] && values' == [values'[0]];
      } else {
        SameMark(BAR, JoinedValues(show, values[1..]) + ([CLOSE] + rest),
                 JoinedValues(show, values'[1..]) + ([CLOSE] + other));
        ValuesAreUnique(show, values[1..], values'[1..], rest, other);
        assert values == [values[0]] + values[1..] && values' == [values'[0]] + values'[1..];
      }
    }
  }

  // ----- Equal layouts -----

  /** Schemas with the same wire format decode every buffer alike. */
  lemma {:induction false} SameWireDecodesAlike(f: Floats, s: Schema, t: Schema, bytes: Text)
    requires SameWire(s, t)
    ensures Decode(f, s, bytes) == Decode(f, t, bytes)
    decreases s, 2, 0
  {
    match s {
      case ArraySchema(item, _, _) =>
        if ReadU32(bytes).Ok? {
          var count := ReadU32(bytes).value;
          AllDecodeAlike(f, s, Repeated(item, count.value), t, Repeated(t.item, count.value), count.rest, []);
        }
      case ObjectSchema(fields) =>
        SortedAreKeys(fields);
        var keys := Sorted(fields.Keys);
        AllDecodeAlike(f, s, SchemasFor(fields, keys), t, SchemasFor(t.fields, keys), bytes, []);
      case OptionalSchema(inner) =>
        if Take(bytes, 1).Ok? {
          SameWireDecodesAlike(f, inner, t.inner, Take(bytes, 1).value.rest);
        }
      case RecordSchema(item, _) =>
        if ReadU32(bytes).Ok? {
          var count := ReadU32(bytes).value;
          EntriesDecodeAlike(f, s, item, t, t.item, count.value, count.rest, []);
        }
      case TupleSchema(items) => AllDecodeAlike(f, s, items, t, t.items, bytes, []);
      case UnionSchema(members, _) =>
        if ReadU32(bytes).Ok? && ReadU32(bytes).value.value < |members| {
          var index := ReadU32(bytes).value;
          SameWireDecodesAlike(f, members[index.value], t.members[index.value], index.rest);
        }
      case _ =>
    }
  }

  lemma {:induction false} AllDecodeAlike(f: Floats, s: Schema, ss: seq<Schema>, t: Schema, ts: seq<Schema>,
                                          bytes: Text, done: seq<Value>)
    requires |ss| == |ts| && forall i :: 0 <= i < |ss| ==> ss[i] < s && ts[i] < t && SameWire(ss[i], ts[i])
    ensures DecodeAll(f, s, ss, bytes, done) == DecodeAll(f, t, ts, bytes, done)
    decreases s, 0, |ss|
  {
    if ss == [] {
      DecodeNone(f, s, ss, bytes, done);
      DecodeNone(f, t, ts, bytes, done);
    } else {
      SameWireDecodesAlike(f, ss[0], ts[0], bytes);
      match Decode(f, ss[0], bytes) {
        case Err(e) =>
          DecodeFirstFails(f, s, ss, bytes, done, e);
          DecodeFirstFails(f, t, ts, bytes, done, e);
        case Ok(first) =>
          DecodeFirst(f, s, ss, bytes, done, first.value, first.rest);
          DecodeFirst(f, t, ts, bytes, done, first.value, first.rest);
          AllDecodeAlike(f, s, ss[1..], t, ts[1..], first.rest, done + [first.value]);
      }
    }
  }

  lemma {:induction false} EntriesDecodeAlike(f: Floats, s: Schema, item: Schema, t: Schema, item': Schema, count: nat,
                                              bytes: Text,
                                              done: seq<Entry>)
    requires item < s && item' < t && SameWire(item, item')
    ensures DecodeEntries(f, s, item, count, bytes, done) == DecodeEntries(f, t, item', count, bytes, done)
    decreases s, 0, count
  {
    if count == 0 {
      NoEntries(f, s, item, bytes, done);
      NoEntries(f, t, item', bytes, done);
    } else {
      EntryDecodesAlike(f, item, item', bytes);
      match DecodeEntry(f, item, bytes) {
        case Err(e) =>
          EntryFirstFails(f, s, item, count, bytes, done, e);
          EntryFirstFails(f, t, item', count, bytes, done, e);
        case Ok(first) =>
          EntryFirst(f, s, item, count, bytes, done, first.value, first.rest);
          EntryFirst(f, t, item', count, bytes, done, first.value, first.rest);
          EntriesDecodeAlike(f, s, item, t, item', count - 1, first.rest, done + [first.value]);
      }
    }
  }

  lemma EntryDecodesAlike(f: Floats, item: Schema, item': Schema, bytes: Text)
    requires SameWire(item, item')
    ensures DecodeEntry(f, item, bytes) == DecodeEntry(f, item', bytes)
    decreases item, 3, 0
  {
    if ReadString(bytes).Ok? {
      SameWireDecodesAlike(f, item, item', ReadString(bytes).value.rest);
    }
  }

  /** Clean schemas with equal layouts decode every buffer alike. */
  lemma EqualLayoutsDecodeAlike(show: Show, f: Floats, s: Schema, t: Schema, bytes: Text)
    requires IsShow(show) && Clean(s) && Clean(t) && LayoutText(show, s) == LayoutText(show, t)
    ensures SameWire(s, t) && Decode(f, s, bytes) == Decode(f, t, bytes)
  {
    assert LayoutText(show, s) + [] == LayoutText(show, t) + [];
    LayoutIsUnique(show, s, t, [], []);
    SameWireDecodesAlike(f, s, t, bytes);
  }

  /** And the other way about: only such schemas have equal layouts. */
  lemma {:induction false} SameWireSameLayout(show: Show, s: Schema, t: Schema)
    requires SameWire(s, t)
    ensures LayoutText(show, s) == LayoutText(show, t)
    decreases s, 1, 0
  {
    match s {
      case ArraySchema(item, _, _) => SameWireSameLayout(show, item, t.item);
      case OptionalSchema(inner) => SameWireSameLayout(show, inner, t.inner);
      case RecordSchema(item, _) => SameWireSameLayout(show, item, t.item);
      case ObjectSchema(fields) =>
        SortedAreKeys(fields);
        FieldsJoinAlike(show, s, fields, t, t.fields, Sorted(fields.Keys));
      case TupleSchema(items) => JoinAlike(show, s, items, t, t.items, COMMA);
      case UnionSchema(members, _) => JoinAlike(show, s, members, t, t.members, BAR);
      case _ =>
    }
  }

  lemma {:induction false} JoinAlike(show: Show, s: Schema, ss: seq<Schema>, t: Schema, ts: seq<Schema>,
                                     separator: byte)
    requires |ss| == |ts| && forall i :: 0 <= i < |ss| ==> ss[i] < s && ts[i] < t && SameWire(ss[i], ts[i])
    ensures Joined(show, s, ss, separator) == Joined(show, t, ts, separator)
    decreases s, 0, |ss|
  {
    if ss != [] {
      SameWireSameLayout(show, ss[0], ts[0]);
      JoinAlike(show, s, ss[1..], t, ts[1..], separator);
    }
  }

  lemma {:induction false} FieldsJoinAlike(show: Show, s: Schema, fields: map<Text, Schema>, t: Schema,
                                           fields': map<Text, Schema>, keys: seq<Text>)
    requires forall key :: key in fields ==> fields[key] < s && key in fields' && SameWire(fields[key], fields'[key])
    requires forall key :: key in fields' ==> fields'[key] < t
    requires forall i :: 0 <= i < |keys| ==> keys[i] in fields
    ensures JoinedFields(show, s, fields, keys) == JoinedFields(show, t, fields', keys)
    decreases s, 0, |keys|
  {
    if keys != [] {
      SameWireSameLayout(show, fields[keys[0]], fields'[keys[0]]);
      FieldsJoinAlike(show, s, fields, t, fields', keys[1..]);
    }
  }

  lemma SortedOne(key: Text)
    ensures Sorted({key}) == [key]
  {
    assert Least({key}) == key && {key} - {key} == {};
  }

  lemma SortedTwo(key: Text, other: Text)
    requires Before(key, other)
    ensures Sorted({key, other}) == [key, other]
  {
    BeforeIsTotal(key, other);
    var least := Least({key, other});
    assert IsLeast({key, other}, least) && IsLeast({key, other}, key);
    LeastIsUnique({key, other});
    BeforeIsTotal(key, key);
    assert {key, other} - {key} == {other};
    SortedOne(other);
  }

  lemma ObjectLayout(show: Show, s: Schema, keys: seq<Text>)
    requires s.ObjectSchema? && keys == Sorted(s.fields.Keys) && forall i :: 0 <= i < |keys| ==> keys[i] in s.fields
    ensures LayoutText(show, s) == [111] + ([OPEN] + JoinedFields(show, s, s.fields, keys) + [CLOSE])
  {
  }

  function Flags(keys: set<Text>): Schema {
    ObjectSchema(map key | key in keys :: BooleanSchema)
  }

  lemma OneFlag(show: Show, key: Text)
    ensures LayoutText(show, Flags({key})) == [111] + ([OPEN] + (key + [COLON, 98]) + [CLOSE])
  {
    SortedOne(key);
    var s := Flags({key});
    assert s.fields.Keys == {key};
    ObjectLayout(show, s, [key]);
    assert LayoutText(show, BooleanSchema) == [98];
    assert JoinedFields(show, s, s.fields, [key]) == key + [COLON] + [98];
  }

  lemma TwoFlags(show: Show, key: Text, other: Text)
    requires Before(key, other)
    ensures LayoutText(show, Flags({key, other}))
            == [111] + ([OPEN] + (key + [COLON, 98, COMMA] + other + [COLON, 98]) + [CLOSE])
  {
    SortedTwo(key, other);
    var s := Flags({key, other});
    assert s.fields.Keys == {key, other};
    ObjectLayout(show, s, [key, other]);
    assert LayoutText(show, BooleanSchema) == [98];
    TwoJoined(show, s, key, other);
    FlagsSpliced(key, other);
  }

  lemma TwoJoined(show: Show, s: Schema, key: Text, other: Text)
    requires s.ObjectSchema? && key in s.fields && other in s.fields
    ensures JoinedFields(show, s, s.fields, [key, other])
            == key + [COLON] + LayoutText(show, s.fields[key]) + [COMMA]
               + (other + [COLON] + LayoutText(show, s.fields[other]))
  {
    assert [key, other][1..] == [other];
  }

  lemma FlagsSpliced(key: Text, other: Text)
    ensures key + [COLON] + [98] + [COMMA] + (other + [COLON] + [98]) == key + [COLON, 98, COMMA] + other + [COLON, 98]
  {
  }

  lemma FlagRead(f: Floats, bytes: Text)
    ensures bytes == [] ==> Decode(f, BooleanSchema, bytes) == Err(PastEnd)
    ensures |bytes| == 1 ==> Decode(f, BooleanSchema, bytes) == Ok(Read(Of(Boolean(bytes[0] != 0)), []))
  {
    if |bytes| == 1 {
      assert bytes[1..] == [] && bytes[..1] == bytes;
    }
  }

  lemma OneFlagReads(f: Floats, key: Text)
    ensures Decode(f, Flags({key}), [1]).Ok?
  {
    SortedOne(key);
    var s := Flags({key});
    assert s.fields.Keys == {key};
    var schemas := SchemasFor(s.fields, [key]);
    assert schemas == [BooleanSchema] && schemas[1..] == [];
    FlagRead(f, [1]);
    DecodeFirst(f, s, schemas, [1], [], Of(Boolean(true)), []);
    DecodeNone(f, s, schemas[1..], [], [] + [Of(Boolean(true))]);
  }

  lemma TwoFlagsNeedMore(f: Floats, key: Text, other: Text)
    requires Before(key, other)
    ensures Decode(f, Flags({key, other}), [1]) == Err(PastEnd)
  {
    SortedTwo(key, other);
    var s := Flags({key, other});
    assert s.fields.Keys == {key, other};
    var schemas := SchemasFor(s.fields, [key, other]);
    assert schemas == [BooleanSchema, BooleanSchema] && schemas[1..] == [BooleanSchema];
    FlagRead(f, [1]);
    DecodeFirst(f, s, schemas, [1], [], Of(Boolean(true)), []);
    FlagRead(f, []);
    DecodeFirstFails(f, s, schemas[1..], [], [] + [Of(Boolean(true))], PastEnd);
  }

  /** A mark in a field name runs two fields into one: a flag named `a:b,c`, or flags `a` and `c`; one byte is all of
      the one and half of the other. */
  lemma UncleanLayoutsCollide(show: Show, f: Floats)
    ensures var s, t := Flags({[97, COLON, 98, COMMA, 99]}), Flags({[97], [99]});
            LayoutText(show, s) == LayoutText(show, t) && Decode(f, s, [1]).Ok? && Decode(f, t, [1]) == Err(PastEnd)
  {
    OneFlag(show, [97, COLON, 98, COMMA, 99]);
    TwoFlags(show, [97], [99]);
    assert [97] + [COLON, 98, COMMA] + [99] + [COLON, 98] == [97, COLON, 98, COMMA, 99] + [COLON, 98];
    OneFlagReads(f, [97, COLON, 98, COMMA, 99]);
    TwoFlagsNeedMore(f, [97], [99]);
  }

  lemma LiteralsRead(f: Floats, members: seq<Schema>)
    requires forall i :: 0 <= i < |members| ==> members[i].LiteralSchema?
    ensures Decode(f, UnionSchema(members, None), U32Bytes(1)).Ok? <==> |members| > 1
  {
    U32Reads(1);
    if |members| > 1 {
      assert Decode(f, members[1], []).Ok?;
    }
  }

  lemma U32Reads(n: nat)
    requires n < SIZE_LIMIT
    ensures ReadU32(U32Bytes(n)) == Ok(Read(n, []))
  {
    Powers();
    LittleIsExact(n, 4);
    assert U32Bytes(n)[..4] == U32Bytes(n) && U32Bytes(n)[4..] == [];
  }

  /** A mark in a literal string runs members of a union together: `a|l:string:b` alone, or `a` and `b`; the index of
      the second is none of the first. */
  lemma UncleanLiteralsCollide(show: Show, f: Floats, a: Text, b: Text)
    ensures var lit := LiteralSchema(Str(a + [BAR] + LayoutText(show, LiteralSchema(Str(b)))));
            var s, t := UnionSchema([lit], None), UnionSchema([LiteralSchema(Str(a)), LiteralSchema(Str(b))], None);
            && LayoutText(show, s) == LayoutText(show, t)
            && Decode(f, s, U32Bytes(1)).Err? && Decode(f, t, U32Bytes(1)).Ok?
  {
    var first, second := LiteralSchema(Str(a)), LiteralSchema(Str(b));
    var lit := LiteralSchema(Str(a + [BAR] + LayoutText(show, second)));
    LiteralSpliced(TypeName(Str(a)), a, LayoutText(show, second));
    assert LayoutText(show, lit) == LayoutText(show, first) + [BAR] + LayoutText(show, second);
    assert [first, second][1..] == [second];
    var s, t := UnionSchema([lit], None), UnionSchema([first, second], None);
    assert s.members[0] == lit && t.members[0] == first && t.members[1] == second;
    assert Joined(show, s, [lit], BAR) == LayoutText(show, lit);
    assert Joined(show, t, [first, second], BAR) == LayoutText(show, first) + [BAR] + LayoutText(show, second);
    LiteralsRead(f, s.members);
    LiteralsRead(f, t.members);
  }

  lemma LiteralSpliced(name: Text, a: Text, more: Text)
    ensures [108] + ([COLON] + (name + [COLON] + (a + [BAR] + more)))
            == [108] + ([COLON] + (name + [COLON] + a)) + [BAR] + more
  {
  }
}
