/** Unified-diff hunks: how they print, how a patch tool reads them, and what applying them does. */
module Hunks {
  import opened EditScript
  import opened Text
  import opened Wrappers

  datatype HunkLine = HunkLine(op: Op, text: string)

  datatype Hunk = Hunk(aStart: nat, aCount: nat, bStart: nat, bCount: nat, body: seq<HunkLine>)

  const NO_NEWLINE := "\\ No newline at end of file\n"

  // ----- Printing -----

  function Prefix(op: Op): char {
    match op
    case Equal => ' '
    case Delete => '-'
    case Insert => '+'
  }

  /** A line as printed after its prefix. */
  function Marked(text: string): string {
    if EndsLine(text) then text else text + "\n" + NO_NEWLINE
  }

  function PrintLine(line: HunkLine): string {
    [Prefix(line.op)] + Marked(line.text)
  }

  function PrintBody(body: seq<HunkLine>): string {
    if body == [] then "" else PrintLine(body[0]) + PrintBody(body[1..])
  }

  function PrintRange(start: nat, count: nat): string {
    Decimal(start) + "," + Decimal(count)
  }

  function PrintHunk(hunk: Hunk): string {
    "@@ -" + PrintRange(hunk.aStart, hunk.aCount) + " +" + PrintRange(hunk.bStart, hunk.bCount) + " @@\n"
    + PrintBody(hunk.body)
  }

  function PrintHunks(hunks: seq<Hunk>): string {
    if hunks == [] then "" else PrintHunk(hunks[0]) + PrintHunks(hunks[1..])
  }

  function Header(path: string): string {
    "--- a/" + path + "\n+++ b/" + path + "\n"
  }

  lemma {:induction false} PrintHunksPush(hunks: seq<Hunk>, hunk: Hunk)
    ensures PrintHunks(hunks + [hunk]) == PrintHunks(hunks) + PrintHunk(hunk)
  {
    if hunks == [] {
      assert hunks + [hunk] == [hunk];
      assert PrintHunk(hunk) + PrintHunks([]) == PrintHunk(hunk);
    } else {
      PrintHunksPush(hunks[1..], hunk);
      Append3(PrintHunk(hunks[0]), PrintHunks(hunks[1..]), PrintHunk(hunk));
      assert (hunks + [hunk])[1..] == hunks[1..] + [hunk];
    }
  }

  lemma {:induction false} PrintBodyPush(body: seq<HunkLine>, line: HunkLine)
    ensures PrintBody(body + [line]) == PrintBody(body) + PrintLine(line)
  {
    if body == [] {
      assert body + [line] == [line];
      assert PrintLine(line) + PrintBody([]) == PrintLine(line);
    } else {
      PrintBodyPush(body[1..], line);
      Append3(PrintLine(body[0]), PrintBody(body[1..]), PrintLine(line));
      assert (body + [line])[1..] == body[1..] + [line];
    }
  }

  // ----- Reading -----

  function Expect(s: string, token: string): Option<string> {
    if token <= s then Some(s[|token|..]) else None
  }

  function ReadNumber(s: string): Option<(nat, string)> {
    if s != [] && IsDigit(s[0]) then Some(ReadDigits(0, s)) else None
  }

  function ReadOp(c: char): Option<Op> {
    match c
    case ' ' => Some(Equal)
    case '-' => Some(Delete)
    case '+' => Some(Insert)
    case _ => None
  }

  /** A line that starts with a backslash says the line before it has no terminator. */
  predicate IsMarker(s: string) {
    s != [] && s[0] == '\\'
  }

  datatype LineRead = NoLine | LineRead(line: HunkLine, rest: string)

  datatype BodyRead = BodyRead(body: seq<HunkLine>, rest: string)

  /** One body line, and the marker line that may follow it. */
  function ReadLine(s: string): (r: LineRead)
    ensures r.LineRead? ==> |r.rest| < |s|
  {
    if s == [] || ReadOp(s[0]).None? then NoLine
    else
      var op := ReadOp(s[0]).value;
      var n := LineLength(s[1..]);
      var text := s[1..][..n];
      var rest := s[1..][n..];
      if !EndsLine(text) then NoLine
      else if IsMarker(rest) then LineRead(HunkLine(op, text[..n - 1]), rest[LineLength(rest)..])
      else LineRead(HunkLine(op, text), rest)
  }

  /** Body lines up to the end or to what is no body line, the next hunk's header. */
  function ReadBody(s: string): BodyRead
    decreases |s|
  {
    match ReadLine(s)
    case NoLine => BodyRead([], s)
    case LineRead(line, rest) => Prepend(line, ReadBody(rest))
  }

  function Prepend(line: HunkLine, r: BodyRead): BodyRead {
    BodyRead([line] + r.body, r.rest)
  }

  /** The lines of the old and of the new text a body stands for. */
  function ACount(body: seq<HunkLine>): nat {
    if body == [] then 0 else (if body[0].op == Insert then 0 else 1) + ACount(body[1..])
  }

  function BCount(body: seq<HunkLine>): nat {
    if body == [] then 0 else (if body[0].op == Delete then 0 else 1) + BCount(body[1..])
  }

  function ReadRange(s: string): Option<(nat, nat, string)> {
    var (start, s1) :- ReadNumber(s);
    var s2 :- Expect(s1, ",");
    var (count, s3) :- ReadNumber(s2);
    Some((start, count, s3))
  }

  function ReadHunk(s: string): Option<(Hunk, string)> {
    var s1 :- Expect(s, "@@ -");
    var (aStart, aCount, s2) :- ReadRange(s1);
    var s3 :- Expect(s2, " +");
    var (bStart, bCount, s4) :- ReadRange(s3);
    var s5 :- Expect(s4, " @@\n");
    var BodyRead(body, rest) := ReadBody(s5);
    if ACount(body) != aCount || BCount(body) != bCount then None
    else Some((Hunk(aStart, aCount, bStart, bCount, body), rest))
  }

  function ReadHunks(s: string): Option<seq<Hunk>>
    decreases |s|
  {
    if s == [] then Some([])
    else
      var (hunk, rest) :- ReadHunk(s);
      if |rest| >= |s| then None
      else
        var hunks :- ReadHunks(rest);
        Some([hunk] + hunks)
  }

  // ----- Applying -----

  datatype Applied = Refused | Applied(out: seq<string>, end: nat)

  /** What a body does at line `at` of the old text: what it produces and where it stops.
      Kept and deleted lines must be the ones there. */
  function ApplyBody(a: seq<string>, at: nat, body: seq<HunkLine>): Applied
    decreases |body|, at
  {
    if body == [] then Applied([], at)
    else if body[0].op == Insert then Produce(body[0].text, ApplyBody(a, at, body[1..]))
    else if at >= |a| || a[at] != body[0].text then Refused
    else if body[0].op == Equal then Produce(body[0].text, ApplyBody(a, at + 1, body[1..]))
    else ApplyBody(a, at + 1, body[1..])
  }

  function Produce(line: string, r: Applied): Applied {
    if r.Refused? then Refused else Applied([line] + r.out, r.end)
  }

  /** The 0-based line a range starts at: an empty range names the line before it. */
  function RangeStart(start: nat, count: nat): int {
    if count == 0 then start else start - 1
  }

  /** Applying hunks from line `at` of the old text, having produced `produced` lines. A hunk that
      goes backwards, whose context differs, or that does not land where its new range says is refused. */
  function ApplyHunks(a: seq<string>, at: nat, produced: nat, hunks: seq<Hunk>): Option<seq<string>>
    decreases |hunks|
  {
    if at > |a| then None
    else if hunks == [] then Some(a[at..])
    else
      var hunk := hunks[0];
      var start := RangeStart(hunk.aStart, hunk.aCount);
      if start < at || start > |a| || RangeStart(hunk.bStart, hunk.bCount) != produced + (start - at) then None
      else
        match ApplyBody(a, start, hunk.body)
        case Refused => None
        case Applied(out, end) =>
          var rest :- ApplyHunks(a, end, produced + (start - at) + |out|, hunks[1..]);
          Some(a[at..start] + out + rest)
  }

  /** The two lines that name the file, under `a/` and `b/`. */
  function ReadNames(path: string, diff: string): Option<string> {
    var s1 :- Expect(diff, "--- a/");
    var s2 :- Expect(s1, path);
    var s3 :- Expect(s2, "\n+++ b/");
    var s4 :- Expect(s3, path);
    Expect(s4, "\n")
  }

  /** What a patch tool makes of `before` given a diff of `path`; an empty diff changes nothing. */
  function Patch(path: string, diff: string, before: string): Option<string> {
    if diff == "" then Some(before)
    else
      var body :- ReadNames(path, diff);
      var hunks :- ReadHunks(body);
      var lines :- ApplyHunks(SplitLines(before), 0, 0, hunks);
      Some(JoinLines(lines))
  }

  // ----- Reading undoes printing -----

  predicate WellFormed(hunk: Hunk) {
    && hunk.aCount == ACount(hunk.body) && hunk.bCount == BCount(hunk.body)
    && forall line :: line in hunk.body ==> IsLine(line.text)
  }

  /** What follows a hunk: nothing, or the next one. */
  predicate Follows(rest: string) {
    rest == [] || rest[0] == '@'
  }

  lemma ReadTerminated(op: Op, full: string, tail: string)
    requires IsLine(full) && EndsLine(full)
    ensures var s := [Prefix(op)] + (full + tail);
            ReadLine(s) == if IsMarker(tail) then LineRead(HunkLine(op, full[..|full| - 1]), tail[LineLength(tail)..])
                           else LineRead(HunkLine(op, full), tail)
  {
    var s := [Prefix(op)] + (full + tail);
    assert s[1..] == full + tail;
    FirstLine(full, tail);
    assert (full + tail)[..|full|] == full && (full + tail)[|full|..] == tail;
  }

  /** The marker is a line of its own. */
  lemma MarkerIsALine()
    ensures IsLine(NO_NEWLINE) && EndsLine(NO_NEWLINE) && IsMarker(NO_NEWLINE)
  {
    OneNewline(NO_NEWLINE);
  }

  lemma ReadUnterminated(op: Op, text: string, marker: string, rest: string)
    requires IsLine(text) && !EndsLine(text)
    requires IsLine(marker) && EndsLine(marker) && IsMarker(marker)
    ensures ReadLine([Prefix(op)] + ((text + "\n") + (marker + rest))) == LineRead(HunkLine(op, text), rest)
  {
    Terminated(text);
    ReadTerminated(op, text + "\n", marker + rest);
    assert (text + "\n")[..|text + "\n"| - 1] == text;
    FirstLine(marker, rest);
    assert (marker + rest)[|marker|..] == rest;
  }

  lemma ReadPrintedLine(line: HunkLine, rest: string)
    requires IsLine(line.text) && !IsMarker(rest)
    ensures ReadLine(PrintLine(line) + rest) == LineRead(line, rest)
  {
    Append3([Prefix(line.op)], Marked(line.text), rest);
    if EndsLine(line.text) {
      ReadTerminated(line.op, line.text, rest);
    } else {
      MarkerIsALine();
      ReadUnterminated(line.op, line.text, NO_NEWLINE, rest);
      Append3(line.text + "\n", NO_NEWLINE, rest);
    }
  }

  lemma Append3(s: string, t: string, u: string)
    ensures s + t + u == s + (t + u)
  {
  }

  /** Reading a token off what starts with it. */
  lemma ExpectFinds(token: string, rest: string)
    ensures Expect(token + rest, token) == Some(rest)
  {
  }

  lemma ReadHeader(path: string, rest: string)
    ensures ReadNames(path, Header(path) + rest) == Some(rest)
  {
    var s4 := "\n" + rest;
    var s3 := path + s4;
    var s2 := "\n+++ b/" + s3;
    var s1 := path + s2;
    assert Header(path) + rest == "--- a/" + s1;
    ExpectFinds("--- a/", s1);
    ExpectFinds(path, s2);
    ExpectFinds("\n+++ b/", s3);
    ExpectFinds(path, s4);
    ExpectFinds("\n", rest);
  }

  lemma PrintedBodyIsNoMarker(body: seq<HunkLine>, rest: string)
    requires Follows(rest)
    ensures !IsMarker(PrintBody(body) + rest)
  {
    if body == [] {
      assert PrintBody(body) + rest == rest;
    } else {
      assert (PrintBody(body) + rest)[0] == Prefix(body[0].op);
    }
  }

  lemma {:induction false} ReadPrintedBody(body: seq<HunkLine>, rest: string)
    requires forall line :: line in body ==> IsLine(line.text)
    requires Follows(rest)
    ensures ReadBody(PrintBody(body) + rest) == BodyRead(body, rest)
    decreases |body|
  {
    if body == [] {
      assert PrintBody(body) + rest == rest;
      NothingToRead(rest);
    } else {
      var tail := PrintBody(body[1..]) + rest;
      PrintBodyFirst(body, rest);
      PrintedBodyIsNoMarker(body[1..], rest);
      ReadPrintedBody(body[1..], rest);
      ReadFirstLine(body, tail, rest);
    }
  }

  lemma ReadFirstLine(body: seq<HunkLine>, tail: string, rest: string)
    requires body != [] && IsLine(body[0].text) && !IsMarker(tail) && ReadBody(tail) == BodyRead(body[1..], rest)
    ensures ReadBody(PrintLine(body[0]) + tail) == BodyRead(body, rest)
  {
    ReadPrintedLine(body[0], tail);
    ReadOn(PrintLine(body[0]) + tail, body, tail, rest);
  }

  lemma ReadOn(s: string, body: seq<HunkLine>, tail: string, rest: string)
    requires body != [] && ReadLine(s) == LineRead(body[0], tail) && ReadBody(tail) == BodyRead(body[1..], rest)
    ensures ReadBody(s) == BodyRead(body, rest)
  {
    assert [body[0]] + body[1..] == body;
  }

  lemma PrintBodyFirst(body: seq<HunkLine>, rest: string)
    requires body != []
    ensures PrintBody(body) + rest == PrintLine(body[0]) + (PrintBody(body[1..]) + rest)
  {
    Append3(PrintLine(body[0]), PrintBody(body[1..]), rest);
  }

  lemma NothingToRead(rest: string)
    requires Follows(rest)
    ensures ReadBody(rest) == BodyRead([], rest)
  {
  }

  lemma ReadPrintedRange(start: nat, count: nat, rest: string)
    requires rest != [] && !IsDigit(rest[0])
    ensures ReadRange(PrintRange(start, count) + rest) == Some((start, count, rest))
  {
    var tail := Decimal(count) + rest;
    DecimalReads(count, rest);
    assert ReadNumber(tail) == Some((count, rest));
    DecimalReads(start, "," + tail);
    assert PrintRange(start, count) + rest == Decimal(start) + ("," + tail);
    assert ("," + tail)[1..] == tail;
  }

  lemma PrintedHunkParts(hunk: Hunk, rest: string)
    ensures PrintHunk(hunk) + rest ==
            "@@ -" + (PrintRange(hunk.aStart, hunk.aCount) +
            (" +" + (PrintRange(hunk.bStart, hunk.bCount) + (" @@\n" + (PrintBody(hunk.body) + rest)))))
  {
    Append6("@@ -", PrintRange(hunk.aStart, hunk.aCount), " +", PrintRange(hunk.bStart, hunk.bCount),
            " @@\n", PrintBody(hunk.body), rest);
  }

  lemma Append6(s: string, t: string, u: string, v: string, w: string, x: string, y: string)
    ensures s + t + u + v + w + x + y == s + (t + (u + (v + (w + (x + y)))))
  {
    Append3(s + t + u + v + w, x, y);
    Append3(s + t + u + v, w, x + y);
    Append3(s + t + u, v, w + (x + y));
    Append3(s + t, u, v + (w + (x + y)));
    Append3(s, t, u + (v + (w + (x + y))));
  }

  lemma ReadPrintedHunk(hunk: Hunk, rest: string)
    requires WellFormed(hunk) && Follows(rest)
    ensures ReadHunk(PrintHunk(hunk) + rest) == Some((hunk, rest))
  {
    var s5 := PrintBody(hunk.body) + rest;
    var s4 := " @@\n" + s5;
    var s3 := PrintRange(hunk.bStart, hunk.bCount) + s4;
    var s2 := " +" + s3;
    var s1 := PrintRange(hunk.aStart, hunk.aCount) + s2;
    PrintedHunkParts(hunk, rest);
    ExpectFinds("@@ -", s1);
    ReadPrintedRange(hunk.aStart, hunk.aCount, s2);
    ExpectFinds(" +", s3);
    ReadPrintedRange(hunk.bStart, hunk.bCount, s4);
    ExpectFinds(" @@\n", s5);
    ReadPrintedBody(hunk.body, rest);
  }

  lemma {:induction false} ReadPrintedHunks(hunks: seq<Hunk>)
    requires forall hunk :: hunk in hunks ==> WellFormed(hunk)
    ensures ReadHunks(PrintHunks(hunks)) == Some(hunks)
    ensures Follows(PrintHunks(hunks))
    decreases |hunks|
  {
    if hunks != [] {
      var rest := PrintHunks(hunks[1..]);
      ReadPrintedHunks(hunks[1..]);
      ReadPrintedHunk(hunks[0], rest);
      assert [hunks[0]] + hunks[1..] == hunks;
    }
  }
}
