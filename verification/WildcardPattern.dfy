/** The wildcard patterns of path mappings: matching a specifier greedily, star by star, and filling a target. */
module WildcardPattern {
  import opened Wrappers

  // ----- Patterns -----

  /** The texts between the stars. */
  function Split(pattern: string): (parts: seq<string>)
    ensures parts != []
  {
    if pattern == [] then [[]]
    else
      var rest := Split(pattern[1..]);
      if pattern[0] == '*' then [[]] + rest else [[pattern[0]] + rest[0]] + rest[1..]
  }

  function Stars(pattern: string): nat {
    |Split(pattern)| - 1
  }

  function JoinWithStars(parts: seq<string>): string {
    if parts == [] then [] else if |parts| == 1 then parts[0] else parts[0] + ['*'] + JoinWithStars(parts[1..])
  }

  lemma JoinStar(parts: seq<string>)
    requires parts != []
    ensures JoinWithStars([[]] + parts) == ['*'] + JoinWithStars(parts)
  {
    assert ([[]] + parts)[1..] == parts;
  }

  lemma JoinLetter(c: char, parts: seq<string>)
    requires parts != []
    ensures JoinWithStars([[c] + parts[0]] + parts[1..]) == [c] + JoinWithStars(parts)
  {
    var longer := [[c] + parts[0]] + parts[1..];
    assert longer[1..] == parts[1..];
    if |parts| > 1 {
      Associate([c], parts[0], ['*'], JoinWithStars(parts[1..]));
    }
  }

  lemma Associate(a: string, b: string, c: string, d: string)
    ensures ((a + b) + c) + d == a + ((b + c) + d)
  {
  }

  /** Splitting keeps the pattern, and no star is left in a part. */
  lemma {:induction false} SplitIsExact(pattern: string)
    ensures JoinWithStars(Split(pattern)) == pattern
    ensures forall part :: part in Split(pattern) ==> '*' !in part
    ensures '*' in pattern <==> Stars(pattern) > 0
  {
    if pattern != [] {
      SplitIsExact(pattern[1..]);
      var rest := Split(pattern[1..]);
      assert pattern == [pattern[0]] + pattern[1..];
      if pattern[0] == '*' {
        JoinStar(rest);
      } else {
        JoinLetter(pattern[0], rest);
        assert rest[0] in rest;
      }
    }
  }

  /** Each capture, then the part after it. */
  function Weave(captures: seq<string>, parts: seq<string>): string
    requires |captures| == |parts|
  {
    if parts == [] then [] else captures[0] + parts[0] + Weave(captures[1..], parts[1..])
  }

  /** A pattern with each star replaced by its capture. */
  function Fill(pattern: string, captures: seq<string>): string
    requires |captures| == Stars(pattern)
  {
    Split(pattern)[0] + Weave(captures, Split(pattern)[1..])
  }

  ghost predicate Fits(text: string, parts: seq<string>) {
    exists captures: seq<string> :: |captures| == |parts| && Weave(captures, parts) == text
  }

  /** The input is the pattern with some texts for its stars. */
  ghost predicate IsMatch(pattern: string, input: string) {
    exists captures: seq<string> :: |captures| == Stars(pattern) && Fill(pattern, captures) == input
  }

  // ----- Texts -----

  predicate StartsWith(text: string, prefix: string) {
    prefix <= text
  }

  predicate EndsWith(text: string, suffix: string) {
    |suffix| <= |text| && text[|text| - |suffix|..] == suffix
  }

  predicate OccursAt(text: string, part: string, i: nat) {
    i + |part| <= |text| && text[i..i + |part|] == part
  }

  /** The first occurrence of a part at or after a position. */
  function Find(text: string, part: string, from: nat := 0): (r: Option<nat>)
    requires from <= |text|
    ensures r.Some? ==> from <= r.value && OccursAt(text, part, r.value)
    ensures forall i :: from <= i && (r.Some? ==> i < r.value) ==> !OccursAt(text, part, i)
    decreases |text| - from
  {
    if OccursAt(text, part, from) then Some(from)
    else if from == |text| then None
    else Find(text, part, from + 1)
  }

  // ----- Matching -----

  lemma {:induction false} WeaveOne(captures: seq<string>, parts: seq<string>, capture: string, part: string)
    requires |captures| == |parts|
    ensures Weave(captures + [capture], parts + [part]) == Weave(captures, parts) + capture + part
  {
    if parts == [] {
      assert Weave([capture], [part]) == capture + part + Weave([], []);
    } else {
      assert (captures + [capture])[1..] == captures[1..] + [capture];
      assert (parts + [part])[1..] == parts[1..] + [part];
      WeaveOne(captures[1..], parts[1..], capture, part);
    }
  }

  /** A first capture can take more in front. */
  lemma FitsLonger(text: string, parts: seq<string>, more: string)
    requires Fits(text, parts) && parts != []
    ensures Fits(more + text, parts)
  {
    var captures: seq<string> :| |captures| == |parts| && Weave(captures, parts) == text;
    var longer := [more + captures[0]] + captures[1..];
    assert longer[1..] == captures[1..];
    assert Weave(longer, parts) == (more + captures[0]) + parts[0] + Weave(captures[1..], parts[1..]);
    assert Weave(longer, parts) == more + text;
  }

  /** Taking the first occurrence of a part loses nothing while more stars follow. */
  lemma FirstIsEnough(text: string, parts: seq<string>)
    requires Fits(text, parts) && |parts| > 1
    ensures var found := Find(text, parts[0]);
            found.Some? && Fits(text[found.value + |parts[0]|..], parts[1..])
  {
    var captures: seq<string> :| |captures| == |parts| && Weave(captures, parts) == text;
    var part, tail := parts[0], Weave(captures[1..], parts[1..]);
    var at := |captures[0]|;
    assert text == captures[0] + part + tail;
    assert OccursAt(text, part, at);
    var found := Find(text, part).value;
    assert text[at + |part|..] == tail;
    assert text[found + |part|..] == text[found + |part|..at + |part|] + tail;
    assert Fits(tail, parts[1..]);
    FitsLonger(tail, parts[1..], text[found + |part|..at + |part|]);
  }

  lemma WeaveSingle(captures: seq<string>, part: string)
    requires |captures| == 1
    ensures Weave(captures, [part]) == captures[0] + part
  {
    assert [part][1..] == [];
    assert captures[0] + part + [] == captures[0] + part;
  }

  lemma LastEnds(text: string, part: string)
    ensures Fits(text, [part]) <==> EndsWith(text, part)
  {
    if Fits(text, [part]) {
      var captures: seq<string> :| |captures| == 1 && Weave(captures, [part]) == text;
      WeaveSingle(captures, part);
    }
    if EndsWith(text, part) {
      var captures := [text[..|text| - |part|]];
      WeaveSingle(captures, part);
      assert text == captures[0] + part;
    }
  }

  lemma MatchFits(pattern: string, input: string)
    requires IsMatch(pattern, input)
    ensures var prefix := Split(pattern)[0];
            StartsWith(input, prefix) && Fits(input[|prefix|..], Split(pattern)[1..])
  {
    var captures: seq<string> :| |captures| == Stars(pattern) && Fill(pattern, captures) == input;
    assert input[|Split(pattern)[0]|..] == Weave(captures, Split(pattern)[1..]);
  }

  lemma NoStar(pattern: string, input: string)
    requires '*' !in pattern
    ensures Stars(pattern) == 0 && Fill(pattern, []) == pattern
    ensures IsMatch(pattern, input) <==> pattern == input
  {
    SplitIsExact(pattern);
    assert Split(pattern) == [Split(pattern)[0]];
    assert Fill(pattern, []) == pattern;
  }

  /** The input up to `rest` is the pattern up to a part, with its captures. */
  ghost predicate Taken(parts: seq<string>, input: string, captures: seq<string>, index: nat, rest: string)
    requires 1 <= index <= |parts|
  {
    |captures| == index - 1 && input == parts[0] + Weave(captures, parts[1..index]) + rest
  }

  lemma TakeOne(parts: seq<string>, input: string, captures: seq<string>, index: nat, rest: string, at: nat)
    requires 1 <= index < |parts| && Taken(parts, input, captures, index, rest) && OccursAt(rest, parts[index], at)
    ensures Taken(parts, input, captures + [rest[..at]], index + 1, rest[at + |parts[index]|..])
  {
    var part := parts[index];
    assert parts[1..index + 1] == parts[1..index] + [part];
    assert rest == rest[..at] + part + rest[at + |part|..];
    WeaveOne(captures, parts[1..index], rest[..at], part);
    Regroup(parts[0], Weave(captures, parts[1..index]), rest[..at], part, rest, rest[at + |part|..]);
  }

  lemma Regroup(prefix: string, woven: string, capture: string, part: string, rest: string, left: string)
    requires rest == capture + part + left
    ensures prefix + woven + rest == prefix + (woven + capture + part) + left
  {
  }

  lemma TakeLast(parts: seq<string>, input: string, captures: seq<string>, rest: string)
    requires |parts| > 1 && Taken(parts, input, captures, |parts| - 1, rest) && EndsWith(rest, parts[|parts| - 1])
    ensures Taken(parts, input, captures + [rest[..|rest| - |parts[|parts| - 1]|]], |parts|, [])
  {
    TakeOne(parts, input, captures, |parts| - 1, rest, |rest| - |parts[|parts| - 1]|);
  }

  lemma FitsNext(parts: seq<string>, index: nat, rest: string)
    requires index + 1 < |parts| && Fits(rest, parts[index..])
    ensures var found := Find(rest, parts[index]);
            found.Some? && Fits(rest[found.value + |parts[index]|..], parts[index + 1..])
  {
    FirstIsEnough(rest, parts[index..]);
    assert parts[index..][1..] == parts[index + 1..];
  }

  lemma FitsEnd(parts: seq<string>, rest: string)
    requires parts != [] && Fits(rest, parts[|parts| - 1..])
    ensures EndsWith(rest, parts[|parts| - 1])
  {
    assert parts[|parts| - 1..] == [parts[|parts| - 1]];
    LastEnds(rest, parts[|parts| - 1]);
  }

  /** Captures so far and the input left, or no match. */
  datatype Progress = Progress(captures: seq<string>, rest: string) | NoMatch

  /** A part with another star after it: its first place in what is left. */
  method TakeMiddle(parts: seq<string>, ghost input: string, captures: seq<string>, index: nat, rest: string,
                    ghost matches: bool)
    returns (p: Progress)
    requires 1 <= index < |parts| - 1 && Taken(parts, input, captures, index, rest)
             && (matches ==> Fits(rest, parts[index..]))
    ensures matches ==> p.Progress? && Fits(p.rest, parts[index + 1..])
    ensures p.Progress? ==> Taken(parts, input, p.captures, index + 1, p.rest)
  {
    if matches {
      FitsNext(parts, index, rest);
    }
    var found := Find(rest, parts[index]);
    if found.None? {
      return NoMatch;
    }
    TakeOne(parts, input, captures, index, rest, found.value);
    p := Progress(captures + [rest[..found.value]], rest[found.value + |parts[index]|..]);
  }

  /** The last part: at the end of what is left, which it takes up. */
  method TakeEnd(parts: seq<string>, ghost input: string, captures: seq<string>, rest: string, ghost matches: bool)
    returns (p: Progress)
    requires |parts| > 1 && Taken(parts, input, captures, |parts| - 1, rest)
             && (matches ==> Fits(rest, parts[|parts| - 1..]))
    ensures matches ==> p.Progress?
    ensures p.Progress? ==> Taken(parts, input, p.captures, |parts|, p.rest) && p.rest == []
  {
    if matches {
      FitsEnd(parts, rest);
    }
    var part := parts[|parts| - 1];
    if !EndsWith(rest, part) {
      return NoMatch;
    }
    TakeLast(parts, input, captures, rest);
    p := Progress(captures + [rest[..|rest| - |part|]], []);
  }

  /** The loop over the parts after the first. `matches` says that what is left of the input fits those parts
      somehow; then it is found to. */
  method MatchParts(parts: seq<string>, input: string, ghost matches: bool) returns (p: Progress)
    requires |parts| > 1 && StartsWith(input, parts[0])
    requires matches ==> Fits(input[|parts[0]|..], parts[1..])
    ensures matches ==> p.Progress?
    ensures p.Progress? ==> p.rest == [] && Taken(parts, input, p.captures, |parts|, [])
  {
    p := Progress([], input[|parts[0]|..]);
    for index := 1 to |parts|
      invariant p.Progress? && Taken(parts, input, p.captures, index, p.rest)
      invariant if index < |parts| then matches ==> Fits(p.rest, parts[index..]) else p.rest == []
    {
      if index == |parts| - 1 {
        p := TakeEnd(parts, input, p.captures, p.rest, matches);
      } else {
        p := TakeMiddle(parts, input, p.captures, index, p.rest, matches);
      }
      if p.NoMatch? {
        return;
      }
    }
  }

  lemma TakenAll(pattern: string, input: string, captures: seq<string>)
    requires Taken(Split(pattern), input, captures, |Split(pattern)|, [])
    ensures |captures| == Stars(pattern) && Fill(pattern, captures) == input
  {
    assert Split(pattern)[1..|Split(pattern)|] == Split(pattern)[1..];
  }

  /** Captures for a pattern's stars, by taking for each part the first place it occurs, if any captures will do. */
  method MatchPattern(pattern: string, input: string) returns (r: Option<seq<string>>)
    ensures r.Some? <==> IsMatch(pattern, input)
    ensures r.Some? ==> |r.value| == Stars(pattern) && Fill(pattern, r.value) == input
  {
    if '*' !in pattern {
      NoStar(pattern, input);
      return if pattern == input then Some([]) else None;
    }
    var parts := Split(pattern);
    SplitIsExact(pattern);
    if IsMatch(pattern, input) {
      MatchFits(pattern, input);
    }
    if !StartsWith(input, parts[0]) {
      return None;
    }
    var p := MatchParts(parts, input, IsMatch(pattern, input));
    if p.NoMatch? {
      return None;
    }
    TakenAll(pattern, input, p.captures);
    // The last part takes all that is left, so a match never has input over.
    assert p.rest == [];
    return Some(p.captures);
  }

  // ----- Filling -----

  /** Each part, then the next capture while there are any: one more than there are stars, if so many are given. */
  function Splice(parts: seq<string>, captures: seq<string>): string
    decreases |parts|
  {
    if parts == [] then []
    else if captures == [] then parts[0] + Splice(parts[1..], [])
    else parts[0] + captures[0] + Splice(parts[1..], captures[1..])
  }

  function Applied(pattern: string, captures: seq<string>): string {
    if '*' !in pattern then pattern else Splice(Split(pattern), captures)
  }

  method ApplyPattern(pattern: string, captures: seq<string>) returns (r: Option<string>)
    ensures r == Some(Applied(pattern, captures))
  {
    if '*' !in pattern {
      return Some(pattern);
    }
    var parts := Split(pattern);
    var result: string := [];
    var captureIndex := 0;
    for i := 0 to |parts|
      invariant captureIndex <= |captures|
      invariant result + Splice(parts[i..], captures[captureIndex..]) == Splice(parts, captures)
    {
      SpliceStep(result, parts[i..], captures[captureIndex..]);
      assert parts[i..][1..] == parts[i + 1..];
      result := result + parts[i];
      if captureIndex < |captures| {
        assert captures[captureIndex..][1..] == captures[captureIndex + 1..];
        result := result + captures[captureIndex];
        captureIndex := captureIndex + 1;
      }
    }
    assert parts[|parts|..] == [] && result + [] == result;
    return Some(result);
  }

  lemma SpliceStep(before: string, parts: seq<string>, captures: seq<string>)
    requires parts != []
    ensures before + Splice(parts, captures) ==
            if captures == [] then (before + parts[0]) + Splice(parts[1..], captures)
            else ((before + parts[0]) + captures[0]) + Splice(parts[1..], captures[1..])
  {
    if captures != [] {
      Regroup([], [], parts[0], captures[0], parts[0] + captures[0] + Splice(parts[1..], captures[1..]),
              Splice(parts[1..], captures[1..]));
      Associate(before, parts[0], captures[0], Splice(parts[1..], captures[1..]));
    }
  }

  /** As many captures as stars, the missing ones empty. */
  function Padded(captures: seq<string>, stars: nat): (padded: seq<string>)
    ensures |padded| == stars
  {
    seq(stars, i requires 0 <= i => if i < |captures| then captures[i] else [])
  }

  /** What is spliced in after the last part. */
  function Extra(captures: seq<string>, stars: nat): string {
    if stars < |captures| then captures[stars] else []
  }

  lemma {:induction false} SpliceWeaves(parts: seq<string>, captures: seq<string>)
    requires parts != []
    ensures Splice(parts, captures)
            == parts[0] + Weave(Padded(captures, |parts| - 1), parts[1..]) + Extra(captures, |parts| - 1)
    decreases |parts|
  {
    var left := if captures == [] then [] else captures[1..];
    var first := if captures == [] then [] else captures[0];
    assert Splice(parts, captures) == parts[0] + first + Splice(parts[1..], left);
    if |parts| > 1 {
      SpliceWeaves(parts[1..], left);
      var padded := Padded(captures, |parts| - 1);
      assert padded[0] == first && padded[1..] == Padded(left, |parts| - 2);
      Woven(parts[0], first, parts[1], Weave(Padded(left, |parts| - 2), parts[2..]), Extra(left, |parts| - 2));
      assert parts[1..][1..] == parts[2..];
    }
  }

  lemma Woven(a: string, b: string, c: string, d: string, e: string)
    ensures (a + b) + ((c + d) + e) == (a + ((b + c) + d)) + e
  {
  }

  /** Filling a target puts a capture for each star, nothing for a missing one, and, when there are more captures
      than stars, the next of them at the end. */
  lemma FillsAndAppends(pattern: string, captures: seq<string>)
    requires '*' in pattern
    ensures Applied(pattern, captures)
            == Fill(pattern, Padded(captures, Stars(pattern))) + Extra(captures, Stars(pattern))
  {
    SpliceWeaves(Split(pattern), captures);
  }

  lemma EnoughStars(pattern: string, captures: seq<string>)
    requires |captures| <= Stars(pattern)
    ensures Applied(pattern, captures) == Fill(pattern, Padded(captures, Stars(pattern)))
    ensures |captures| == Stars(pattern) ==> Padded(captures, Stars(pattern)) == captures
  {
    if '*' in pattern {
      FillsAndAppends(pattern, captures);
    } else {
      NoStar(pattern, pattern);
      assert Padded(captures, 0) == [];
    }
  }

  /** The captures a match returns, applied to the same pattern, give the input back; and there is a match exactly
      when some captures, no more than there are stars, do. */
  lemma MatchingInvertsApplying(pattern: string, input: string)
    ensures IsMatch(pattern, input)
            <==> exists captures: seq<string> :: |captures| <= Stars(pattern) && Applied(pattern, captures) == input
    ensures forall captures: seq<string> :: |captures| == Stars(pattern) ==>
              (Fill(pattern, captures) == input <==> Applied(pattern, captures) == input)
  {
    forall captures: seq<string> | |captures| <= Stars(pattern)
      ensures Applied(pattern, captures) == Fill(pattern, Padded(captures, Stars(pattern)))
      ensures |captures| == Stars(pattern) ==> Applied(pattern, captures) == Fill(pattern, captures)
    {
      EnoughStars(pattern, captures);
    }
    if IsMatch(pattern, input) {
      var captures: seq<string> :| |captures| == Stars(pattern) && Fill(pattern, captures) == input;
      assert Applied(pattern, captures) == input;
    }
  }

  /** A filled pattern up to its last star. */
  function Front(pattern: string, captures: seq<string>): string
    requires |captures| == Stars(pattern) > 0
  {
    Split(pattern)[0] + Weave(captures[..Stars(pattern) - 1], Split(pattern)[1..Stars(pattern)])
  }

  function LastPart(pattern: string): string {
    Split(pattern)[Stars(pattern)]
  }

  /** Only the last capture and the last part come after it. */
  lemma FillEnds(pattern: string, captures: seq<string>)
    requires |captures| == Stars(pattern) > 0
    ensures Fill(pattern, captures) == Front(pattern, captures) + captures[Stars(pattern) - 1] + LastPart(pattern)
  {
    var n, parts := Stars(pattern), Split(pattern);
    assert captures == captures[..n - 1] + [captures[n - 1]];
    assert parts[1..] == parts[1..n] + [parts[n]];
    WeaveOne(captures[..n - 1], parts[1..n], captures[n - 1], parts[n]);
    Leaves(parts[0], Weave(captures[..n - 1], parts[1..n]), captures[n - 1], parts[n]);
  }

  lemma Leaves(a: string, b: string, c: string, d: string)
    ensures a + (b + c + d) == a + b + c + d
  {
  }

  /** What a longer last capture gives. */
  lemma LongerLast(pattern: string, captures: seq<string>, more: string) returns (longer: seq<string>)
    requires |captures| == Stars(pattern) > 0
    ensures |longer| == Stars(pattern)
    ensures Fill(pattern, longer) == Front(pattern, captures) + captures[Stars(pattern) - 1] + more + LastPart(pattern)
  {
    var n := Stars(pattern);
    longer := captures[n - 1 := captures[n - 1] + more];
    FillEnds(pattern, longer);
    assert longer[..n - 1] == captures[..n - 1];
    Leaves(Front(pattern, captures), [], captures[n - 1], more);
  }

  lemma SuffixOfBoth(front: string, end: string, last: string)
    requires |last| <= |end|
    ensures EndsWith(front + end, last) <==> EndsWith(end, last)
  {
    assert (front + end)[|front + end| - |last|..] == end[|end| - |last|..];
  }

  lemma MatchEnds(pattern: string, input: string)
    requires '*' in pattern && IsMatch(pattern, input)
    ensures EndsWith(input, LastPart(pattern))
  {
    SplitIsExact(pattern);
    var captures: seq<string> :| |captures| == Stars(pattern) && Fill(pattern, captures) == input;
    FillEnds(pattern, captures);
  }

  lemma EndMatches(pattern: string, captures: seq<string>, extra: string)
    requires |captures| == Stars(pattern) > 0 && EndsWith(LastPart(pattern) + extra, LastPart(pattern))
    ensures IsMatch(pattern, Fill(pattern, captures) + extra)
  {
    var last := LastPart(pattern);
    var end := last + extra;
    var more := end[..|extra|];
    assert end == more + last;
    var longer := LongerLast(pattern, captures, more);
    FillEnds(pattern, captures);
    var front := Front(pattern, captures) + captures[Stars(pattern) - 1];
    Regrouped(front, last, extra, more);
  }

  lemma Regrouped(front: string, last: string, extra: string, more: string)
    requires last + extra == more + last
    ensures (front + last) + extra == (front + more) + last
  {
    assert (front + last) + extra == front + (last + extra) && (front + more) + last == front + (more + last);
  }

  /** What filling gives matches the pattern exactly when the last part, with the capture spliced in after it, if any,
      still ends in the last part. */
  lemma AppliedMatchesExactly(pattern: string, captures: seq<string>)
    requires '*' in pattern
    ensures IsMatch(pattern, Applied(pattern, captures))
            <==> EndsWith(LastPart(pattern) + Extra(captures, Stars(pattern)), LastPart(pattern))
  {
    SplitIsExact(pattern);
    var padded, extra, last := Padded(captures, Stars(pattern)), Extra(captures, Stars(pattern)), LastPart(pattern);
    FillsAndAppends(pattern, captures);
    FillEnds(pattern, padded);
    var front := Front(pattern, padded) + padded[Stars(pattern) - 1];
    assert (front + last) + extra == front + (last + extra);
    SuffixOfBoth(front, last + extra, last);
    if IsMatch(pattern, Applied(pattern, captures)) {
      MatchEnds(pattern, Applied(pattern, captures));
    }
    if EndsWith(last + extra, last) {
      EndMatches(pattern, padded, extra);
    }
  }

  /** With one capture too many, what comes out need not match. */
  lemma TooManyCaptures()
    ensures Applied("*b", ["x", "y"]) == "xby" && !IsMatch("*b", "xby")
  {
    assert "*b"[1..] == "b";
    SplitIsExact("b");
    assert Split("b") == ["b"];
    assert Split("*b") == [[], "b"];
    FillsAndAppends("*b", ["x", "y"]);
    if IsMatch("*b", "xby") {
      MatchFits("*b", "xby");
      LastEnds("xby", "b");
    }
  }
}
