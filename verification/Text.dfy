/** Lines with their terminators, and decimal numerals. */
module Text {

  /** The length of the first line of `text`, its terminator included. */
  function LineLength(text: string): (n: nat)
    ensures n <= |text|
    ensures text != [] ==> n > 0
  {
    if text == [] then 0 else if text[0] == '\n' then 1 else 1 + LineLength(text[1..])
  }

  /** Splitting after every newline; only the last piece may lack one. */
  function SplitLines(text: string): seq<string>
    decreases |text|
  {
    if text == [] then [] else [text[..LineLength(text)]] + SplitLines(text[LineLength(text)..])
  }

  function JoinLines(lines: seq<string>): string {
    if lines == [] then [] else lines[0] + JoinLines(lines[1..])
  }

  predicate EndsLine(line: string) {
    line != [] && line[|line| - 1] == '\n'
  }

  /** One piece of a split: no newline but possibly the last character. */
  predicate IsLine(line: string) {
    line != [] && LineLength(line) == |line|
  }

  lemma {:induction false} SplitJoins(text: string)
    ensures JoinLines(SplitLines(text)) == text
    decreases |text|
  {
    if text != [] {
      SplitJoins(text[LineLength(text)..]);
    }
  }

  lemma {:induction false} LineLengthOfPrefix(text: string)
    ensures LineLength(text[..LineLength(text)]) == LineLength(text)
    decreases |text|
  {
    if text != [] && text[0] != '\n' {
      LineLengthOfPrefix(text[1..]);
      assert text[..LineLength(text)][1..] == text[1..][..LineLength(text[1..])];
    }
  }

  /** A line is not empty and has no newline but possibly its last character. */
  lemma {:induction false} IsLineExactly(line: string)
    ensures IsLine(line) <==> line != [] && forall i :: 0 <= i < |line| - 1 ==> line[i] != '\n'
  {
    if |line| > 1 {
      IsLineExactly(line[1..]);
      assert forall i :: 0 < i < |line| ==> line[i] == line[1..][i - 1];
    }
  }

  /** A first line that is not the whole text ends with a newline. */
  lemma {:induction false} FirstLineEnds(text: string)
    requires LineLength(text) < |text|
    ensures EndsLine(text[..LineLength(text)])
  {
    if text[0] != '\n' {
      FirstLineEnds(text[1..]);
      assert text[..LineLength(text)][1..] == text[1..][..LineLength(text[1..])];
    }
  }

  /** The pieces of a split are lines, and all but the last end with a newline. */
  lemma {:induction false} SplitPiecesAreLines(text: string)
    ensures forall line :: line in SplitLines(text) ==> IsLine(line)
    ensures forall i :: 0 <= i < |SplitLines(text)| - 1 ==> EndsLine(SplitLines(text)[i])
    decreases |text|
  {
    if text != [] {
      LineLengthOfPrefix(text);
      SplitPiecesAreLines(text[LineLength(text)..]);
      if LineLength(text) < |text| {
        FirstLineEnds(text);
      }
    }
  }

  /** A terminated line is the first line of any text it starts. */
  lemma {:induction false} FirstLine(line: string, rest: string)
    requires IsLine(line) && EndsLine(line)
    ensures LineLength(line + rest) == |line|
    decreases |line|
  {
    if line[0] != '\n' {
      FirstLine(line[1..], rest);
      assert (line + rest)[1..] == line[1..] + rest;
    }
  }

  lemma {:induction false} OneNewline(line: string)
    requires EndsLine(line) && forall i :: 0 <= i < |line| - 1 ==> line[i] != '\n'
    ensures IsLine(line)
    decreases |line|
  {
    if |line| > 1 {
      OneNewline(line[1..]);
    }
  }

  /** Terminating an unterminated line gives a line. */
  lemma {:induction false} Terminated(line: string)
    requires IsLine(line) && !EndsLine(line)
    ensures IsLine(line + "\n")
    decreases |line|
  {
    assert (line + "\n")[1..] == line[1..] + "\n";
    if |line| > 1 {
      Terminated(line[1..]);
    } else {
      assert line[1..] + "\n" == "\n";
    }
  }

  // ----- Decimal numerals -----

  predicate IsDigit(c: char) {
    '0' <= c <= '9'
  }

  function DigitValue(c: char): (v: nat)
    requires IsDigit(c)
    ensures v < 10
  {
    (c as int) - ('0' as int)
  }

  function Digit(v: nat): (c: char)
    requires v < 10
    ensures IsDigit(c) && DigitValue(c) == v
  {
    ('0' as int + v) as char
  }

  function Decimal(n: nat): (s: string)
    ensures s != [] && IsDigit(s[0])
  {
    if n < 10 then [Digit(n)] else Decimal(n / 10) + [Digit(n % 10)]
  }

  /** The number the leading digits of `s` add to `value`, and what follows them. */
  function ReadDigits(value: nat, s: string): (nat, string)
    decreases |s|
  {
    if s != [] && IsDigit(s[0]) then ReadDigits(10 * value + DigitValue(s[0]), s[1..]) else (value, s)
  }

  lemma {:induction false} DecimalReads(n: nat, rest: string)
    ensures ReadDigits(0, Decimal(n) + rest) == ReadDigits(n, rest)
    decreases n
  {
    if n < 10 {
      assert ([Digit(n)] + rest)[1..] == rest;
    } else {
      DecimalReads(n / 10, [Digit(n % 10)] + rest);
      assert Decimal(n) + rest == Decimal(n / 10) + ([Digit(n % 10)] + rest);
      assert ([Digit(n % 10)] + rest)[1..] == rest;
    }
  }
}
