/** Which enums share a layout text. */
module EnumLayouts {
  import opened BinaryCodec
  import opened Bytes
  import opened SchemaLayout
  import opened Schemas

  /** A text split at its bars. */
  function Split(text: Text): (pieces: seq<Text>)
    ensures pieces != []
    decreases |text|
  {
    if text == [] then [[]]
    else
      var rest := Split(text[1..]);
      if text[0] == BAR then [[]] + rest else [[text[0]] + rest[0]] + rest[1..]
  }

  function JoinPieces(pieces: seq<Text>): Text {
    if pieces == [] then [] else if |pieces| == 1 then pieces[0] else pieces[0] + [BAR] + JoinPieces(pieces[1..])
  }

  lemma {:induction false} SplitJoins(text: Text)
    ensures JoinPieces(Split(text)) == text
    decreases |text|
  {
    if text != [] {
      var rest := Split(text[1..]);
      SplitJoins(text[1..]);
      assert ([[]] + rest)[1..] == rest;
      var first := [[text[0]] + rest[0]] + rest[1..];
      assert first[1..] == rest[1..];
      assert text == [text[0]] + text[1..];
      if |rest| > 1 {
        assert [text[0]] + rest[0] + [BAR] + JoinPieces(rest[1..])
               == [text[0]] + (rest[0] + [BAR] + JoinPieces(rest[1..]));
      }
    }
  }

  /** A letter in front of split pieces: it opens a new piece or joins the first. */
  function InFront(letter: byte, pieces: seq<Text>): seq<Text>
    requires pieces != []
  {
    if letter == BAR then [[]] + pieces else [[letter] + pieces[0]] + pieces[1..]
  }

  lemma SplitOne(letter: byte, text: Text)
    ensures Split([letter] + text) == InFront(letter, Split(text))
  {
    assert ([letter] + text)[1..] == text;
  }

  lemma InFrontOfBoth(letter: byte, pieces: seq<Text>, more: seq<Text>)
    requires pieces != []
    ensures InFront(letter, pieces + more) == InFront(letter, pieces) + more
  {
    assert letter != BAR ==> (pieces + more)[1..] == pieces[1..] + more;
  }

  lemma {:induction false} SplitAtBar(a: Text, b: Text)
    ensures Split(a + [BAR] + b) == Split(a) + Split(b)
    decreases |a|
  {
    if a == [] {
      assert a + [BAR] + b == [BAR] + b;
      SplitOne(BAR, b);
    } else {
      var rest := a[1..] + [BAR] + b;
      assert a + [BAR] + b == [a[0]] + rest && a == [a[0]] + a[1..];
      SplitOne(a[0], rest);
      SplitOne(a[0], a[1..]);
      SplitAtBar(a[1..], b);
      InFrontOfBoth(a[0], Split(a[1..]), Split(b));
    }
  }

  lemma {:induction false} NoBarIsOnePiece(text: Text)
    ensures BAR !in text <==> Split(text) == [text]
    ensures BAR !in text <==> |Split(text)| == 1
    decreases |text|
  {
    if text != [] {
      NoBarIsOnePiece(text[1..]);
      assert text == [text[0]] + text[1..];
    }
  }

  // ----- Enums -----

  /** The words between the bars of an enum's layout, wherever the bars came from; an empty enum has one empty word. */
  function Pieces(show: Show, values: seq<Scalar>): seq<Text> {
    if values == [] then [[]]
    else if |values| == 1 then Split(Shown(show, values[0]))
    else Split(Shown(show, values[0])) + Pieces(show, values[1..])
  }

  lemma {:induction false} JoinedSplits(show: Show, values: seq<Scalar>)
    ensures Split(JoinedValues(show, values)) == Pieces(show, values)
    decreases |values|
  {
    if |values| > 1 {
      JoinedSplits(show, values[1..]);
      SplitAtBar(Shown(show, values[0]), JoinedValues(show, values[1..]));
    }
  }

  lemma Enclosed(a: Text, b: Text)
    ensures [101] + ([OPEN] + a + [CLOSE]) == [101] + ([OPEN] + b + [CLOSE]) <==> a == b
  {
    var x, y := [101] + ([OPEN] + a + [CLOSE]), [101] + ([OPEN] + b + [CLOSE]);
    assert x[2..|x| - 1] == a && y[2..|y| - 1] == b;
  }

  /** Only an enum has an enum's layout, and two enums share one exactly when the words between their bars are the
      same: where bars stand inside values, and whether values are strings or are only written alike, is lost. */
  lemma EnumLayoutsMeetExactly(show: Show, values: seq<Scalar>, t: Schema)
    ensures LayoutText(show, EnumSchema(values)) == LayoutText(show, t)
            <==> t.EnumSchema? && Pieces(show, values) == Pieces(show, t.values)
  {
    var text := LayoutText(show, EnumSchema(values));
    assert text[0] == 101;
    if t.EnumSchema? {
      JoinedSplits(show, values);
      JoinedSplits(show, t.values);
      SplitJoins(JoinedValues(show, values));
      SplitJoins(JoinedValues(show, t.values));
      Enclosed(JoinedValues(show, values), JoinedValues(show, t.values));
    } else if !t.DefaultSchema? {
      assert LayoutText(show, t)[0] == Head(t)[0] != 101;
    }
  }

  /** An enum of one value that has no bar, is not empty, and is not what another value is written as. */
  ghost predicate StandsAlone(show: Show, values: seq<Scalar>) {
    && |values| == 1 && BAR !in Shown(show, values[0]) && Shown(show, values[0]) != []
    && forall x :: Shown(show, x) == Shown(show, values[0]) ==> x == values[0]
  }

  /** The other way to write the values: all in one string, or no value for an empty one, or the one value by
      its text. */
  ghost function Other(show: Show, values: seq<Scalar>): seq<Scalar>
    requires !StandsAlone(show, values)
  {
    if |values| != 1 then [Str(JoinedValues(show, values))]
    else if Shown(show, values[0]) == [] then []
    else if BAR in Shown(show, values[0]) then
      var pieces := Split(Shown(show, values[0])); seq(|pieces|, i requires 0 <= i < |pieces| => Str(pieces[i]))
    else
      var x :| Shown(show, x) == Shown(show, values[0]) && x != values[0]; [x]
  }

  lemma {:induction false} WrittenOut(show: Show, pieces: seq<Text>)
    ensures JoinedValues(show, seq(|pieces|, i requires 0 <= i < |pieces| => Str(pieces[i]))) == JoinPieces(pieces)
    decreases |pieces|
  {
    if |pieces| > 1 {
      var values := seq(|pieces|, i requires 0 <= i < |pieces| => Str(pieces[i]));
      assert values[1..] == seq(|pieces| - 1, i requires 0 <= i < |pieces| - 1 => Str(pieces[1..][i]));
      WrittenOut(show, pieces[1..]);
    }
  }

  lemma OtherSharesLayout(show: Show, values: seq<Scalar>)
    requires !StandsAlone(show, values)
    ensures Other(show, values) != values
    ensures JoinedValues(show, Other(show, values)) == JoinedValues(show, values)
  {
    if |values| == 1 && BAR in Shown(show, values[0]) {
      var text := Shown(show, values[0]);
      NoBarIsOnePiece(text);
      SplitJoins(text);
      WrittenOut(show, Split(text));
    }
  }

  /** An enum has its layout to itself exactly when it stands alone. */
  lemma OwnLayoutExactly(show: Show, values: seq<Scalar>)
    ensures (forall t :: LayoutText(show, EnumSchema(values)) == LayoutText(show, t) ==> t == EnumSchema(values))
            <==> StandsAlone(show, values)
  {
    if StandsAlone(show, values) {
      forall t | LayoutText(show, EnumSchema(values)) == LayoutText(show, t)
        ensures t == EnumSchema(values)
      {
        EnumLayoutsMeetExactly(show, values, t);
        AloneIsOwn(show, values, t.values);
      }
    } else {
      OtherSharesLayout(show, values);
      assert LayoutText(show, EnumSchema(values)) == LayoutText(show, EnumSchema(Other(show, values)));
    }
  }

  lemma AloneIsOwn(show: Show, values: seq<Scalar>, other: seq<Scalar>)
    requires StandsAlone(show, values) && Pieces(show, values) == Pieces(show, other)
    ensures other == values
  {
    NoBarIsOnePiece(Shown(show, values[0]));
    if |other| == 1 {
      NoBarIsOnePiece(Shown(show, other[0]));
      assert Shown(show, other[0]) == Shown(show, values[0]);
    } else if |other| > 1 {
      ManyPieces(show, other);
    }
  }

  lemma ManyPieces(show: Show, values: seq<Scalar>)
    requires |values| > 1
    ensures |Pieces(show, values)| > 1
  {
    JoinedSplits(show, values[1..]);
  }

  /** A bar in a value, a number beside its own text, and an empty value each make two enums share a layout, and a
      receiver with the other schema reads another value or none. */
  lemma EnumsCollide(show: Show, f: Floats, num: Num)
    ensures var s, t := EnumSchema([Str([97, BAR, 98])]), EnumSchema([Str([97]), Str([98])]);
            LayoutText(show, s) == LayoutText(show, t) && Decode(f, s, U32Bytes(1)).Err?
              && Decode(f, t, U32Bytes(1)).Ok?
    ensures var s, t := EnumSchema([Number(num)]), EnumSchema([Str(show(num))]);
            LayoutText(show, s) == LayoutText(show, t) && Decode(f, s, U32Bytes(0)) != Decode(f, t, U32Bytes(0))
    ensures var s, t := EnumSchema([]), EnumSchema([Str([])]);
            LayoutText(show, s) == LayoutText(show, t) && Decode(f, s, U32Bytes(0)).Err?
              && Decode(f, t, U32Bytes(0)).Ok?
  {
    var t := [Str([97]), Str([98])];
    assert t[1..] == [Str([98])];
    assert JoinedValues(show, t) == [97] + [BAR] + [98];
    Powers();
    LittleIsExact(1, 4);
    LittleIsExact(0, 4);
    assert U32Bytes(1)[..4] == U32Bytes(1) && U32Bytes(0)[..4] == U32Bytes(0);
  }
}
