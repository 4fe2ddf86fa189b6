/** Counting the characters of a text (UTF-8, RFC 3629). */
module Utf8 {
  import opened Bytes
  import opened Wrappers

  /** How many bytes a character takes by its first byte (section 4 of RFC 3629). */
  function CharWidth(lead: byte): Option<nat> {
    if lead < 0x80 then Some(1)
    else if 0xC2 <= lead < 0xE0 then Some(2)
    else if 0xE0 <= lead < 0xF0 then Some(3)
    else if 0xF0 <= lead < 0xF5 then Some(4)
    else None
  }

  predicate AreContinuations(bytes: Text) {
    forall i :: 0 <= i < |bytes| ==> 0x80 <= bytes[i] < 0xC0
  }

  /** Whether a second byte can follow a first: not in an overlong form, a surrogate, or past the last code point. */
  predicate CanFollow(lead: byte, second: byte) {
    && (lead == 0xE0 ==> second >= 0xA0) && (lead == 0xED ==> second < 0xA0)
    && (lead == 0xF0 ==> second >= 0x90) && (lead == 0xF4 ==> second < 0x90)
  }

  /** The width of the character a text starts with, unless it starts with none. */
  function FirstWidth(text: Text): (r: Option<nat>)
    requires text != []
    ensures r.Some? ==> 1 <= r.value <= 4 && r.value <= |text|
  {
    match CharWidth(text[0])
    case None => None
    case Some(width) =>
      if |text| < width || !AreContinuations(text[1..width]) || (width > 1 && !CanFollow(text[0], text[1])) then None
      else Some(width)
  }

  /** The characters of a text, unless it is not UTF-8. */
  function CharCount(text: Text): Option<nat>
    decreases |text|
  {
    if text == [] then Some(0)
    else
      var width :- FirstWidth(text);
      var count :- CharCount(text[width..]);
      Some(1 + count)
  }

  /** A character takes four bytes at most. */
  lemma {:induction false} CharsAreShort(text: Text)
    requires CharCount(text).Some?
    ensures |text| <= 4 * CharCount(text).value
    decreases |text|
  {
    if text != [] {
      CharsAreShort(text[FirstWidth(text).value..]);
    }
  }

  // ----- Against the encoding of code points -----

  predicate IsCodePoint(c: nat) {
    c < 0x11_0000 && !(0xD800 <= c < 0xE000)
  }

  /** A code point's bytes (section 3 of RFC 3629). */
  function CharBytes(c: nat): (bytes: Text)
    requires IsCodePoint(c)
    ensures 1 <= |bytes| <= 4
  {
    if c < 0x80 then [c as byte]
    else if c < 0x800 then [(0xC0 + c / 64) as byte, (0x80 + c % 64) as byte]
    else if c < 0x1_0000 then
      [(0xE0 + c / 4096) as byte, (0x80 + c / 64 % 64) as byte, (0x80 + c % 64) as byte]
    else
      [(0xF0 + c / 262144) as byte, (0x80 + c / 4096 % 64) as byte, (0x80 + c / 64 % 64) as byte,
       (0x80 + c % 64) as byte]
  }

  predicate AreCodePoints(codes: seq<nat>) {
    forall i :: 0 <= i < |codes| ==> IsCodePoint(codes[i])
  }

  function TextBytes(codes: seq<nat>): Text
    requires AreCodePoints(codes)
  {
    if codes == [] then [] else CharBytes(codes[0]) + TextBytes(codes[1..])
  }

  lemma CharIsOne(c: nat)
    requires IsCodePoint(c)
    ensures var bytes := CharBytes(c);
            && CharWidth(bytes[0]) == Some(|bytes|) && AreContinuations(bytes[1..])
            && (|bytes| > 1 ==> CanFollow(bytes[0], bytes[1]))
  {
  }

  lemma CharIsFirst(c: nat, rest: Text)
    requires IsCodePoint(c)
    ensures FirstWidth(CharBytes(c) + rest) == Some(|CharBytes(c)|)
  {
    CharIsOne(c);
    var bytes := CharBytes(c);
    assert (bytes + rest)[1..|bytes|] == bytes[1..];
  }

  /** Digits to the base 64. */
  lemma TwoDigits(high: nat, low: nat)
    requires low < 64
    ensures (high * 64 + low) / 64 == high && (high * 64 + low) % 64 == low
  {
  }

  lemma ThreeDigits(high: nat, middle: nat, low: nat)
    requires middle < 64 && low < 64
    ensures var n := high * 4096 + middle * 64 + low; n / 4096 == high && n / 64 % 64 == middle && n % 64 == low
  {
    TwoDigits(high * 64 + middle, low);
    TwoDigits(high, middle);
  }

  lemma FourDigits(high: nat, upper: nat, middle: nat, low: nat)
    requires upper < 64 && middle < 64 && low < 64
    ensures var n := high * 262144 + upper * 4096 + middle * 64 + low;
            n / 262144 == high && n / 4096 % 64 == upper && n / 64 % 64 == middle && n % 64 == low
  {
    ThreeDigits(high * 64 + upper, middle, low);
    TwoDigits(high, upper);
  }

  lemma TwoIsChar(a: nat, b: nat) returns (c: nat)
    requires 0xC2 <= a < 0xE0 && 0x80 <= b < 0xC0
    ensures IsCodePoint(c) && CharBytes(c) == [a as byte, b as byte]
  {
    c := (a - 0xC0) * 64 + (b - 0x80);
    TwoDigits(a - 0xC0, b - 0x80);
  }

  lemma ThreeIsChar(a: nat, b: nat, d: nat) returns (c: nat)
    requires 0xE0 <= a < 0xF0 && 0x80 <= b < 0xC0 && 0x80 <= d < 0xC0 && CanFollow(a as byte, b as byte)
    ensures IsCodePoint(c) && CharBytes(c) == [a as byte, b as byte, d as byte]
  {
    c := (a - 0xE0) * 4096 + (b - 0x80) * 64 + (d - 0x80);
    ThreeDigits(a - 0xE0, b - 0x80, d - 0x80);
  }

  lemma FourIsChar(a: nat, b: nat, d: nat, e: nat) returns (c: nat)
    requires 0xF0 <= a < 0xF5 && 0x80 <= b < 0xC0 && 0x80 <= d < 0xC0 && 0x80 <= e < 0xC0
    requires CanFollow(a as byte, b as byte)
    ensures IsCodePoint(c) && CharBytes(c) == [a as byte, b as byte, d as byte, e as byte]
  {
    c := (a - 0xF0) * 262144 + (b - 0x80) * 4096 + (d - 0x80) * 64 + (e - 0x80);
    FourDigits(a - 0xF0, b - 0x80, d - 0x80, e - 0x80);
  }

  /** The code point a text starts with. */
  lemma FirstIsChar(text: Text) returns (c: nat)
    requires text != [] && FirstWidth(text).Some?
    ensures IsCodePoint(c) && CharBytes(c) == text[..FirstWidth(text).value]
  {
    var width := FirstWidth(text).value;
    assert forall i :: 1 <= i < width ==> text[i] == text[1..width][i - 1];
    if width == 1 {
      c := text[0] as nat;
    } else if width == 2 {
      c := TwoIsChar(text[0] as nat, text[1] as nat);
    } else if width == 3 {
      c := ThreeIsChar(text[0] as nat, text[1] as nat, text[2] as nat);
    } else {
      c := FourIsChar(text[0] as nat, text[1] as nat, text[2] as nat, text[3] as nat);
    }
  }

  /** Encoded code points are counted. */
  lemma {:induction false} CountsCodePoints(codes: seq<nat>)
    requires AreCodePoints(codes)
    ensures CharCount(TextBytes(codes)) == Some(|codes|)
  {
    if codes != [] {
      CountsCodePoints(codes[1..]);
      var first, rest := CharBytes(codes[0]), TextBytes(codes[1..]);
      CharIsFirst(codes[0], rest);
      assert (first + rest)[|first|..] == rest;
    }
  }

  /** And nothing else is. */
  lemma {:induction false} CountedAreCodePoints(text: Text) returns (codes: seq<nat>)
    requires CharCount(text).Some?
    ensures AreCodePoints(codes) && TextBytes(codes) == text && |codes| == CharCount(text).value
    decreases |text|
  {
    if text == [] {
      codes := [];
    } else {
      var width := FirstWidth(text).value;
      var c := FirstIsChar(text);
      var rest := CountedAreCodePoints(text[width..]);
      codes := [c] + rest;
      assert codes[1..] == rest && text == text[..width] + text[width..];
    }
  }

  /** A text has n characters exactly when it is the encoding of n code points. */
  lemma CharCountIsExact(text: Text, n: nat)
    ensures CharCount(text) == Some(n)
            <==> exists codes :: AreCodePoints(codes) && |codes| == n && TextBytes(codes) == text
  {
    if CharCount(text) == Some(n) {
      var codes := CountedAreCodePoints(text);
    }
    if codes :| AreCodePoints(codes) && |codes| == n && TextBytes(codes) == text {
      CountsCodePoints(codes);
    }
  }
}
