/** Span-based text edits over the bytes of a source file. */
module TextEdits {
  import opened Bytes
  import opened Utf8
  import opened Wrappers

  datatype TextEdit = TextEdit(start: nat, end: nat, replacement: seq<byte>)

  datatype EditError = Overlap(at: nat) | Outside(start: nat, end: nat) | SplitsCharacter(start: nat, end: nat)

  /** UTF-8: a continuation byte is 10xxxxxx. */
  predicate IsCharBoundary(source: seq<byte>, index: nat) {
    index == 0 || index == |source| || (index < |source| && !(0x80 <= source[index] < 0xC0))
  }

  lemma FirstIsCut(source: Text, index: nat)
    requires source != [] && FirstWidth(source).Some? && 0 < index < FirstWidth(source).value
    ensures !IsCharBoundary(source, index) && CharCount(source[..index]).None?
  {
    var width := FirstWidth(source).value;
    assert source[1..width][index - 1] == source[index];
    assert source[..index][0] == source[0];
  }

  lemma FirstIsWhole(source: Text, index: nat)
    requires source != [] && FirstWidth(source).Some? && FirstWidth(source).value <= index <= |source|
    ensures FirstWidth(source[..index]) == FirstWidth(source)
  {
    var width := FirstWidth(source).value;
    assert source[..index][1..width] == source[1..width];
  }

  /** In UTF-8 an index is a boundary exactly when the text before it is UTF-8, and then so is the text after. */
  lemma {:induction false} BoundaryIsExact(source: Text, index: nat)
    requires CharCount(source).Some? && index <= |source|
    ensures IsCharBoundary(source, index) <==> CharCount(source[..index]).Some?
    ensures IsCharBoundary(source, index) ==> CharCount(source[index..]).Some?
    decreases |source|
  {
    if index == 0 {
      assert source[..0] == [] && source[0..] == source;
    } else {
      var width := FirstWidth(source).value;
      if index < width {
        FirstIsCut(source, index);
      } else {
        FirstIsWhole(source, index);
        BoundaryIsExact(source[width..], index - width);
        assert source[..index][width..] == source[width..][..index - width];
        assert source[index..] == source[width..][index - width..];
      }
    }
  }

  // ----- Ordering -----

  predicate Before(e: TextEdit, f: TextEdit) {
    e.start < f.start || (e.start == f.start && e.end < f.end)
  }

  ghost predicate IsSorted(edits: seq<TextEdit>) {
    forall i, j :: 0 <= i < j < |edits| ==> !Before(edits[j], edits[i])
  }

  function InsertEdit(e: TextEdit, sorted: seq<TextEdit>): seq<TextEdit> {
    if sorted == [] || !Before(sorted[0], e) then [e] + sorted else [sorted[0]] + InsertEdit(e, sorted[1..])
  }

  /** A stable sort by (start, end). */
  function SortEdits(edits: seq<TextEdit>): seq<TextEdit> {
    if edits == [] then [] else InsertEdit(edits[0], SortEdits(edits[1..]))
  }

  lemma {:induction false} InsertEditSorts(e: TextEdit, sorted: seq<TextEdit>)
    requires IsSorted(sorted)
    ensures IsSorted(InsertEdit(e, sorted))
    ensures multiset(InsertEdit(e, sorted)) == multiset(sorted) + multiset{e}
  {
    if sorted != [] && Before(sorted[0], e) {
      InsertEditSorts(e, sorted[1..]);
      var rest := InsertEdit(e, sorted[1..]);
      assert sorted == [sorted[0]] + sorted[1..];
      forall j | 0 <= j < |rest|
        ensures !Before(rest[j], sorted[0])
      {
        assert rest[j] in multiset(rest);
        assert rest[j] == e || rest[j] in sorted[1..];
      }
    }
  }

  lemma {:induction false} SortEditsSorts(edits: seq<TextEdit>)
    ensures IsSorted(SortEdits(edits))
    ensures multiset(SortEdits(edits)) == multiset(edits)
  {
    if edits != [] {
      SortEditsSorts(edits[1..]);
      InsertEditSorts(edits[0], SortEdits(edits[1..]));
      assert edits == [edits[0]] + edits[1..];
    }
  }

  /** The edits of one range, in order. */
  function OfRange(edits: seq<TextEdit>, start: nat, end: nat): seq<TextEdit> {
    if edits == [] then []
    else (if edits[0].start == start && edits[0].end == end then [edits[0]] else []) + OfRange(edits[1..], start, end)
  }

  lemma {:induction false} InsertIsStable(e: TextEdit, sorted: seq<TextEdit>, start: nat, end: nat)
    ensures OfRange(InsertEdit(e, sorted), start, end) == OfRange([e] + sorted, start, end)
    decreases |sorted|
  {
    assert ([e] + sorted)[1..] == sorted;
    if sorted != [] && Before(sorted[0], e) {
      InsertIsStable(e, sorted[1..], start, end);
      assert ([e] + sorted[1..])[1..] == sorted[1..];
      assert ([sorted[0]] + InsertEdit(e, sorted[1..]))[1..] == InsertEdit(e, sorted[1..]);
    }
  }

  /** Edits that share a range keep the order they came in. */
  lemma {:induction false} SortIsStable(edits: seq<TextEdit>, start: nat, end: nat)
    ensures OfRange(SortEdits(edits), start, end) == OfRange(edits, start, end)
    decreases |edits|
  {
    if edits != [] {
      SortIsStable(edits[1..], start, end);
      InsertIsStable(edits[0], SortEdits(edits[1..]), start, end);
      assert ([edits[0]] + SortEdits(edits[1..]))[1..] == SortEdits(edits[1..]);
    }
  }

  // ----- What the edits mean -----

  /** One edit on its own. */
  function Splice(source: seq<byte>, e: TextEdit): seq<byte>
    requires e.start <= e.end <= |source|
  {
    source[..e.start] + e.replacement + source[e.end..]
  }

  ghost predicate Chain(edits: seq<TextEdit>, length: nat) {
    && (forall i :: 0 <= i < |edits| ==> edits[i].start <= edits[i].end <= length)
    && (forall i, j :: 0 <= i < j < |edits| ==> edits[i].end <= edits[j].start)
  }

  /** The edits one at a time from the last to the first, so that none moves what an earlier one names. */
  ghost function SpliceFromBack(source: seq<byte>, edits: seq<TextEdit>): seq<byte>
    requires Chain(edits, |source|)
    decreases |edits|
  {
    if edits == [] then source
    else
      var rest, last := edits[..|edits| - 1], edits[|edits| - 1];
      SpliceFromBack(Splice(source, last), rest)
  }

  ghost predicate Valid(source: seq<byte>, e: TextEdit) {
    e.start <= e.end <= |source| && IsCharBoundary(source, e.start) && IsCharBoundary(source, e.end)
  }

  /** No two edits touch the same byte, and none starts inside another. */
  ghost predicate Disjoint(edits: seq<TextEdit>) {
    forall i, j :: 0 <= i < j < |edits| ==> edits[i].end <= edits[j].start || edits[j].end <= edits[i].start
  }

  ghost predicate Acceptable(source: seq<byte>, edits: seq<TextEdit>) {
    (forall e :: e in edits ==> Valid(source, e)) && Disjoint(edits)
  }

  lemma PairIn(edits: seq<TextEdit>, i: nat, j: nat)
    requires i < j < |edits|
    ensures multiset{edits[i], edits[j]} <= multiset(edits)
  {
    assert edits == edits[..i] + [edits[i]] + edits[i + 1..j] + [edits[j]] + edits[j + 1..];
  }

  /** Pairs of a list by value: being acceptable does not depend on the order. */
  lemma DisjointByValue(edits: seq<TextEdit>)
    ensures Disjoint(edits) <==>
      forall e, f :: multiset{e, f} <= multiset(edits) ==> e.end <= f.start || f.end <= e.start
  {
    forall i, j | 0 <= i < j < |edits|
      ensures multiset{edits[i], edits[j]} <= multiset(edits)
    {
      PairIn(edits, i, j);
    }
    if Disjoint(edits) {
      forall e, f | multiset{e, f} <= multiset(edits)
        ensures e.end <= f.start || f.end <= e.start
      {
        PairFound(edits, e, f);
      }
    }
  }

  lemma PairFound(edits: seq<TextEdit>, e: TextEdit, f: TextEdit)
    requires multiset{e, f} <= multiset(edits)
    ensures exists i, j ::
              0 <= i < j < |edits| && ((edits[i] == e && edits[j] == f) || (edits[i] == f && edits[j] == e))
  {
    assert e in multiset{e, f} && f in multiset{e, f};
    var i :| 0 <= i < |edits| && edits[i] == e;
    var others := edits[..i] + edits[i + 1..];
    assert edits == edits[..i] + [e] + edits[i + 1..];
    assert multiset(edits) == multiset(others) + multiset{e};
    assert f in multiset(others);
    var j :| 0 <= j < |others| && others[j] == f;
    assert edits[if j < i then j else j + 1] == f;
  }

  lemma AcceptableInAnyOrder(source: seq<byte>, edits: seq<TextEdit>, others: seq<TextEdit>)
    requires multiset(edits) == multiset(others)
    ensures Acceptable(source, edits) <==> Acceptable(source, others)
  {
    DisjointByValue(edits);
    DisjointByValue(others);
    assert forall e :: e in edits <==> e in multiset(edits);
    assert forall e :: e in others <==> e in multiset(others);
  }

  ghost predicate AllValid(source: seq<byte>, edits: seq<TextEdit>) {
    forall i :: 0 <= i < |edits| ==> Valid(source, edits[i])
  }

  /** Sorted valid edits are acceptable when each starts where the one before has ended. */
  lemma SortedDisjointIsChain(source: seq<byte>, sorted: seq<TextEdit>)
    requires IsSorted(sorted)
    ensures Acceptable(source, sorted) <==> Chain(sorted, |source|) && AllValid(source, sorted)
  {
    if Acceptable(source, sorted) {
      forall i | 0 <= i < |sorted|
        ensures Valid(source, sorted[i])
      {
        assert sorted[i] in sorted;
      }
      forall i, j | 0 <= i < j < |sorted|
        ensures sorted[i].end <= sorted[j].start
      {
        assert !Before(sorted[j], sorted[i]);
      }
    }
  }

  // ----- Applying -----

  /** The pass over sorted edits: the output so far, the source consumed so far, and the first error. */
  function Outcome(source: seq<byte>, sorted: seq<TextEdit>, output: seq<byte>, cursor: nat):
      Result<seq<byte>, EditError>
    requires cursor <= |source|
    decreases |sorted|
  {
    if sorted == [] then Ok(output + source[cursor..])
    else
      var e := sorted[0];
      if e.start < cursor then Err(Overlap(e.start))
      else if e.end > |source| || e.start > e.end then Err(Outside(e.start, e.end))
      else if !IsCharBoundary(source, e.start) || !IsCharBoundary(source, e.end) then
        Err(SplitsCharacter(e.start, e.end))
      else Outcome(source, sorted[1..], output + source[cursor..e.start] + e.replacement, e.end)
  }

  /** Applies `edits` in any order; refuses what overlaps, is out of range or splits a character. */
  method ApplyEdits(source: seq<byte>, edits: seq<TextEdit>) returns (r: Result<seq<byte>, EditError>)
    ensures r.Ok? <==> Acceptable(source, edits)
    ensures r.Ok? ==> Chain(SortEdits(edits), |source|) && r.value == SpliceFromBack(source, SortEdits(edits))
    ensures r == Outcome(source, SortEdits(edits), [], 0)
  {
    var sorted := SortEdits(edits);
    OutcomeMeans(source, edits);
    var output: seq<byte>, cursor: nat := [], 0;
    var i := 0;
    while i < |sorted|
      invariant 0 <= i <= |sorted| && cursor <= |source|
      invariant Outcome(source, sorted, [], 0) == Outcome(source, sorted[i..], output, cursor)
    {
      var e := sorted[i];
      assert sorted[i..][0] == e && sorted[i..][1..] == sorted[i + 1..];
      if e.start < cursor {
        return Err(Overlap(e.start));
      }
      if e.end > |source| || e.start > e.end {
        return Err(Outside(e.start, e.end));
      }
      if !IsCharBoundary(source, e.start) || !IsCharBoundary(source, e.end) {
        return Err(SplitsCharacter(e.start, e.end));
      }
      output := output + source[cursor..e.start] + e.replacement;
      cursor := e.end;
      i := i + 1;
    }
    r := Ok(output + source[cursor..]);
  }

  /** What the pass over the first edits of a chain has written: everything up to `cursor`. */
  ghost predicate Written(source: seq<byte>, edits: seq<TextEdit>, output: seq<byte>, cursor: nat) {
    && cursor <= |source| && Chain(edits, cursor)
    && forall tail: seq<byte> :: SpliceFromBack(source[..cursor] + tail, edits) == output + tail
  }

  lemma WriteTail(source: seq<byte>, edits: seq<TextEdit>, output: seq<byte>, cursor: nat, e: TextEdit, tail: seq<byte>)
    requires Written(source, edits, output, cursor) && cursor <= e.start <= e.end <= |source|
    requires Chain(edits + [e], e.end)
    ensures SpliceFromBack(source[..e.end] + tail, edits + [e])
            == output + source[cursor..e.start] + e.replacement + tail
  {
    var middle := source[cursor..e.start] + e.replacement + tail;
    assert (edits + [e])[..|edits|] == edits;
    assert Splice(source[..e.end] + tail, e) == source[..cursor] + middle;
    assert SpliceFromBack(source[..cursor] + middle, edits) == output + middle;
    assert output + middle == output + source[cursor..e.start] + e.replacement + tail;
  }

  lemma WriteNext(source: seq<byte>, edits: seq<TextEdit>, output: seq<byte>, cursor: nat, e: TextEdit)
    requires Written(source, edits, output, cursor) && cursor <= e.start <= e.end <= |source|
    ensures Written(source, edits + [e], output + source[cursor..e.start] + e.replacement, e.end)
  {
    forall tail: seq<byte>
      ensures SpliceFromBack(source[..e.end] + tail, edits + [e])
              == output + source[cursor..e.start] + e.replacement + tail
    {
      WriteTail(source, edits, output, cursor, e, tail);
    }
  }

  /** Valid edits, each starting where the one before has ended. */
  ghost predicate Fits(source: seq<byte>, edits: seq<TextEdit>, cursor: nat) {
    edits == [] || (cursor <= edits[0].start && Valid(source, edits[0]) && Fits(source, edits[1..], edits[0].end))
  }

  lemma {:induction false} FitsMeans(source: seq<byte>, edits: seq<TextEdit>, cursor: nat)
    ensures Fits(source, edits, cursor) <==>
      AllValid(source, edits) && Chain(edits, |source|) && (edits != [] ==> cursor <= edits[0].start)
    decreases |edits|
  {
    if edits != [] {
      var rest := edits[1..];
      FitsMeans(source, rest, edits[0].end);
      if Fits(source, edits, cursor) {
        assert forall i :: 1 <= i < |edits| ==> edits[i] == rest[i - 1];
        forall j | 1 <= j < |edits|
          ensures edits[0].end <= edits[j].start
        {
          assert j == 1 || rest[0].end <= rest[j - 1].start;
        }
      }
    }
  }

  lemma {:induction false} OutcomeFits(source: seq<byte>, done: seq<TextEdit>, rest: seq<TextEdit>, output: seq<byte>,
                                       cursor: nat)
    requires Written(source, done, output, cursor)
    ensures Outcome(source, rest, output, cursor).Ok? <==> Fits(source, rest, cursor)
    ensures Fits(source, rest, cursor) ==> Chain(done + rest, |source|)
    ensures Fits(source, rest, cursor) ==>
              Outcome(source, rest, output, cursor).value == SpliceFromBack(source, done + rest)
    decreases |rest|
  {
    if rest == [] {
      assert done + rest == done && source[..cursor] + source[cursor..] == source;
    } else if cursor <= rest[0].start && Valid(source, rest[0]) {
      var e := rest[0];
      WriteNext(source, done, output, cursor, e);
      OutcomeFits(source, done + [e], rest[1..], output + source[cursor..e.start] + e.replacement, e.end);
      assert done + [e] + rest[1..] == done + rest;
    }
  }

  lemma OutcomeMeans(source: seq<byte>, edits: seq<TextEdit>)
    ensures Outcome(source, SortEdits(edits), [], 0).Ok? <==> Acceptable(source, edits)
    ensures Outcome(source, SortEdits(edits), [], 0).Ok? ==>
            && Chain(SortEdits(edits), |source|)
            && Outcome(source, SortEdits(edits), [], 0).value == SpliceFromBack(source, SortEdits(edits))
  {
    SortEditsSorts(edits);
    AcceptableInAnyOrder(source, edits, SortEdits(edits));
    SortedOutcomeMeans(source, SortEdits(edits), Outcome(source, SortEdits(edits), [], 0));
  }

  lemma SortedOutcomeMeans(source: seq<byte>, sorted: seq<TextEdit>, r: Result<seq<byte>, EditError>)
    requires IsSorted(sorted) && r == Outcome(source, sorted, [], 0)
    ensures r.Ok? <==> Acceptable(source, sorted)
    ensures r.Ok? ==> Chain(sorted, |source|) && r.value == SpliceFromBack(source, sorted)
  {
    SortedDisjointIsChain(source, sorted);
    FitsMeans(source, sorted, 0);
    NothingWritten(source);
    OutcomeFits(source, [], sorted, [], 0);
    assert [] + sorted == sorted;
  }

  lemma NothingWritten(source: seq<byte>)
    ensures Written(source, [], [], 0)
  {
  }

  ghost predicate DistinctRanges(edits: seq<TextEdit>) {
    forall i, j :: 0 <= i < j < |edits| ==> (edits[i].start, edits[i].end) != (edits[j].start, edits[j].end)
  }

  lemma SameFirst(s: seq<TextEdit>, t: seq<TextEdit>)
    requires s != [] && t != [] && IsSorted(s) && IsSorted(t) && multiset(s) == multiset(t) && DistinctRanges(s)
    ensures s[0] == t[0]
  {
    assert t[0] in multiset(s) && s[0] in multiset(t);
    var i :| 0 <= i < |s| && s[i] == t[0];
    var j :| 0 <= j < |t| && t[j] == s[0];
    assert i == 0 || !Before(s[i], s[0]);
    assert j == 0 || !Before(t[j], t[0]);
  }

  /** Sorting leaves nothing to the input order when no two edits share a range. */
  lemma {:induction false} SortedIsUnique(s: seq<TextEdit>, t: seq<TextEdit>)
    requires IsSorted(s) && IsSorted(t) && multiset(s) == multiset(t) && DistinctRanges(s)
    ensures s == t
    decreases |s|
  {
    assert |multiset(s)| == |s| && |multiset(t)| == |t|;
    if s != [] {
      SameFirst(s, t);
      TailWithoutFirst(s);
      TailWithoutFirst(t);
      SortedIsUnique(s[1..], t[1..]);
      assert s == [s[0]] + s[1..] && t == [t[0]] + t[1..];
    }
  }

  lemma TailWithoutFirst(s: seq<TextEdit>)
    requires s != []
    ensures multiset(s[1..]) == multiset(s) - multiset{s[0]}
  {
    assert s == [s[0]] + s[1..];
  }

  /** The order edits come in does not matter when no two share a range. */
  lemma OrderDoesNotMatter(source: seq<byte>, edits: seq<TextEdit>, others: seq<TextEdit>)
    requires multiset(edits) == multiset(others) && DistinctRanges(edits)
    ensures Outcome(source, SortEdits(edits), [], 0) == Outcome(source, SortEdits(others), [], 0)
  {
    SortEditsSorts(edits);
    SortEditsSorts(others);
    DistinctInAnyOrder(edits, SortEdits(edits));
    SortedIsUnique(SortEdits(edits), SortEdits(others));
  }

  lemma DistinctInAnyOrder(edits: seq<TextEdit>, others: seq<TextEdit>)
    requires multiset(edits) == multiset(others) && DistinctRanges(edits)
    ensures DistinctRanges(others)
  {
    forall i, j | 0 <= i < j < |others|
      ensures (others[i].start, others[i].end) != (others[j].start, others[j].end)
    {
      assert others == others[..i] + [others[i]] + others[i + 1..j] + [others[j]] + others[j + 1..];
      assert multiset{others[i], others[j]} <= multiset(edits);
      PairFound(edits, others[i], others[j]);
    }
  }
}
