/** Grouping an edit script into hunks with context, and rendering them. */
module UnifiedDiff {
  import opened EditScript
  import opened Hunks
  import opened Text
  import opened Wrappers
  import Myers

  const CONTEXT := 3

  // ----- Steps with their positions -----

  /** A script step and the line it stands at in both texts. */
  datatype Placed = Placed(op: Op, aLine: nat, bLine: nat, text: nat)

  /** The old-text line step p stands at; past the last step, the end of the text. */
  function AAt(a: seq<string>, steps: seq<Placed>, p: nat): nat {
    if p < |steps| then steps[p].aLine else |a|
  }

  function BAt(b: seq<string>, steps: seq<Placed>, p: nat): nat {
    if p < |steps| then steps[p].bLine else |b|
  }

  predicate IsStep(a: seq<string>, b: seq<string>, s: Placed) {
    match s.op
    case Equal => s.text == s.aLine < |a| && s.bLine < |b| && a[s.aLine] == b[s.bLine]
    case Delete => s.text == s.aLine < |a|
    case Insert => s.text == s.bLine < |b|
  }

  /** A step and the lines after it. */
  predicate Links(a: seq<string>, b: seq<string>, s: Placed, aNext: nat, bNext: nat) {
    && IsStep(a, b, s)
    && aNext == s.aLine + (if s.op == Insert then 0 else 1)
    && bNext == s.bLine + (if s.op == Delete then 0 else 1)
  }

  ghost predicate LinksAt(a: seq<string>, b: seq<string>, steps: seq<Placed>, p: nat)
    requires p < |steps|
  {
    Links(a, b, steps[p], AAt(a, steps, p + 1), BAt(b, steps, p + 1))
  }

  /** Steps that walk both texts from start to end. */
  ghost predicate IsPlacement(a: seq<string>, b: seq<string>, steps: seq<Placed>) {
    && AAt(a, steps, 0) == 0 && BAt(b, steps, 0) == 0
    && forall p :: 0 <= p < |steps| ==> LinksAt(a, b, steps, p)
  }

  method Place(a: seq<string>, b: seq<string>, script: seq<Step>) returns (steps: seq<Placed>)
    requires Rewrites(a, b, 0, 0, script)
    ensures IsPlacement(a, b, steps) && |steps| == |script|
    ensures forall p :: 0 <= p < |steps| ==> steps[p].op == script[p].op && steps[p].text == script[p].index
  {
    steps := [];
    var aLine, bLine := 0, 0;
    var i := 0;
    while i < |script|
      invariant 0 <= i <= |script| && |steps| == i
      invariant Rewrites(a, b, aLine, bLine, script[i..])
      invariant if i == 0 then aLine == bLine == 0 else steps[0].aLine == steps[0].bLine == 0
      invariant i > 0 ==> Links(a, b, steps[i - 1], aLine, bLine)
      invariant forall p :: 0 <= p < i - 1 ==> Links(a, b, steps[p], steps[p + 1].aLine, steps[p + 1].bLine)
      invariant forall p :: 0 <= p < i ==> steps[p].op == script[p].op && steps[p].text == script[p].index
    {
      var Step(op, index) := script[i];
      assert script[i..][0] == script[i] && script[i..][1..] == script[i + 1..];
      steps := steps + [Placed(op, aLine, bLine, index)];
      match op {
        case Equal => aLine, bLine := aLine + 1, bLine + 1;
        case Delete => aLine := aLine + 1;
        case Insert => bLine := bLine + 1;
      }
      i := i + 1;
    }
    forall p | 0 <= p < |steps|
      ensures LinksAt(a, b, steps, p)
    {
      assert p == |steps| - 1 || Links(a, b, steps[p], steps[p + 1].aLine, steps[p + 1].bLine);
    }
  }

  // ----- Hunks of a placement -----

  function LineOf(a: seq<string>, b: seq<string>, s: Placed): HunkLine
    requires IsStep(a, b, s)
  {
    HunkLine(s.op, if s.op == Insert then b[s.text] else a[s.text])
  }

  ghost predicate AreSteps(a: seq<string>, b: seq<string>, steps: seq<Placed>) {
    forall p :: 0 <= p < |steps| ==> IsStep(a, b, steps[p])
  }

  function Lines(a: seq<string>, b: seq<string>, steps: seq<Placed>, p: nat, q: nat): seq<HunkLine>
    requires p <= q <= |steps| && AreSteps(a, b, steps)
    decreases q - p
  {
    if p == q then [] else [LineOf(a, b, steps[p])] + Lines(a, b, steps, p + 1, q)
  }

  function Start(line: nat, count: nat): nat {
    if count == 0 then line else line + 1
  }

  function HunkOf(a: seq<string>, b: seq<string>, steps: seq<Placed>, p: nat, q: nat): Hunk
    requires p <= q <= |steps| && AreSteps(a, b, steps)
  {
    var body := Lines(a, b, steps, p, q);
    Hunk(Start(AAt(a, steps, p), ACount(body)), ACount(body), Start(BAt(b, steps, p), BCount(body)), BCount(body), body)
  }

  /** A half-open range of steps. */
  datatype Span = Span(start: nat, end: nat)

  ghost predicate Ordered(steps: seq<Placed>, spans: seq<Span>) {
    && (forall k :: 0 <= k < |spans| ==> spans[k].start < spans[k].end <= |steps|)
    && (forall k, l :: 0 <= k < l < |spans| ==> spans[k].end < spans[l].start)
  }

  function HunksOf(a: seq<string>, b: seq<string>, steps: seq<Placed>, spans: seq<Span>): seq<Hunk>
    requires AreSteps(a, b, steps)
    requires forall span :: span in spans ==> span.start <= span.end <= |steps|
  {
    if spans == [] then []
    else [HunkOf(a, b, steps, spans[0].start, spans[0].end)] + HunksOf(a, b, steps, spans[1..])
  }

  ghost predicate InSpan(spans: seq<Span>, i: int) {
    exists k :: 0 <= k < |spans| && spans[k].start <= i < spans[k].end
  }

  /** Within three steps of a change. */
  ghost predicate NearChange(steps: seq<Placed>, i: int) {
    exists c :: 0 <= c < |steps| && steps[c].op != Equal && c - 3 <= i <= c + 3
  }

  /** The hunks are exactly the maximal runs of steps near a change. */
  ghost predicate IsGrouping(steps: seq<Placed>, spans: seq<Span>) {
    && Ordered(steps, spans)
    && forall i :: 0 <= i < |steps| ==> (InSpan(spans, i) <==> NearChange(steps, i))
  }

  // ----- Applying the hunks gives the new text -----

  lemma PlacedAreSteps(a: seq<string>, b: seq<string>, steps: seq<Placed>)
    requires IsPlacement(a, b, steps)
    ensures AreSteps(a, b, steps)
  {
    forall p | 0 <= p < |steps|
      ensures IsStep(a, b, steps[p])
    {
      assert LinksAt(a, b, steps, p);
    }
  }

  /** Positions never go back and never pass the end. */
  lemma {:induction false} PositionsAdvance(a: seq<string>, b: seq<string>, steps: seq<Placed>, p: nat, q: nat)
    requires IsPlacement(a, b, steps) && p <= q <= |steps|
    ensures AAt(a, steps, p) <= AAt(a, steps, q) && BAt(b, steps, p) <= BAt(b, steps, q)
    decreases q - p
  {
    if p < q {
      assert LinksAt(a, b, steps, p);
      PositionsAdvance(a, b, steps, p + 1, q);
    }
  }

  lemma {:induction false} CountLines(a: seq<string>, b: seq<string>, steps: seq<Placed>, p: nat, q: nat)
    requires IsPlacement(a, b, steps) && AreSteps(a, b, steps) && p <= q <= |steps|
    ensures ACount(Lines(a, b, steps, p, q)) == AAt(a, steps, q) - AAt(a, steps, p)
    ensures BCount(Lines(a, b, steps, p, q)) == BAt(b, steps, q) - BAt(b, steps, p)
    decreases q - p
  {
    if p < q {
      assert LinksAt(a, b, steps, p);
      CountLines(a, b, steps, p + 1, q);
      LinesFirst(a, b, steps, p, q);
      CountFirst(LineOf(a, b, steps[p]), Lines(a, b, steps, p + 1, q));
    }
  }

  lemma CountFirst(line: HunkLine, rest: seq<HunkLine>)
    ensures ACount([line] + rest) == (if line.op == Insert then 0 else 1) + ACount(rest)
    ensures BCount([line] + rest) == (if line.op == Delete then 0 else 1) + BCount(rest)
  {
    assert ([line] + rest)[1..] == rest;
  }

  lemma ApplyLine(b: seq<string>, a: seq<string>, at: nat, line: HunkLine, later: seq<HunkLine>, i: nat, next: nat,
                  q: nat, end: nat)
    requires i <= next <= q <= |b|
    requires line.op != Insert ==> at < |a| && a[at] == line.text
    requires if line.op == Delete then next == i else next == i + 1 && b[i] == line.text
    requires ApplyBody(a, if line.op == Insert then at else at + 1, later) == Applied(b[next..q], end)
    ensures ApplyBody(a, at, [line] + later) == Applied(b[i..q], end)
  {
    var body := [line] + later;
    assert body[0] == line && body[1..] == later;
    if line.op != Delete {
      SliceFirst(b, i, q);
    }
  }

  lemma SliceFirst(b: seq<string>, i: nat, q: nat)
    requires i < q <= |b|
    ensures b[i..q] == [b[i]] + b[i + 1..q]
  {
  }

  lemma {:induction false} ApplyLines(a: seq<string>, b: seq<string>, steps: seq<Placed>, p: nat, q: nat)
    requires IsPlacement(a, b, steps) && AreSteps(a, b, steps) && p <= q <= |steps|
    ensures BAt(b, steps, p) <= BAt(b, steps, q) <= |b|
    ensures ApplyBody(a, AAt(a, steps, p), Lines(a, b, steps, p, q))
            == Applied(b[BAt(b, steps, p)..BAt(b, steps, q)], AAt(a, steps, q))
    decreases q - p
  {
    PositionsAdvance(a, b, steps, p, q);
    PositionsAdvance(a, b, steps, q, |steps|);
    if p < q {
      assert LinksAt(a, b, steps, p);
      PositionsAdvance(a, b, steps, p + 1, q);
      ApplyLines(a, b, steps, p + 1, q);
      LinesFirst(a, b, steps, p, q);
      ApplyLine(b, a, steps[p].aLine, LineOf(a, b, steps[p]), Lines(a, b, steps, p + 1, q),
                steps[p].bLine, BAt(b, steps, p + 1), BAt(b, steps, q), AAt(a, steps, q));
    }
  }

  /** Outside the hunks both texts run side by side. */
  lemma {:induction false} GapAgrees(a: seq<string>, b: seq<string>, steps: seq<Placed>, p: nat, q: nat)
    requires IsPlacement(a, b, steps) && p <= q <= |steps|
    requires forall i :: p <= i < q ==> steps[i].op == Equal
    ensures AAt(a, steps, q) == AAt(a, steps, p) + (q - p) <= |a|
    ensures BAt(b, steps, q) == BAt(b, steps, p) + (q - p) <= |b|
    ensures a[AAt(a, steps, p)..AAt(a, steps, q)] == b[BAt(b, steps, p)..BAt(b, steps, q)]
    decreases q - p
  {
    PositionsAdvance(a, b, steps, q, |steps|);
    if p < q {
      assert LinksAt(a, b, steps, p);
      GapAgrees(a, b, steps, p + 1, q);
      var s, aq, bq := steps[p], AAt(a, steps, q), BAt(b, steps, q);
      assert a[s.aLine..aq] == [a[s.aLine]] + a[s.aLine + 1..aq];
      assert b[s.bLine..bq] == [b[s.bLine]] + b[s.bLine + 1..bq];
    }
  }

  lemma ApplyHunk(a: seq<string>, b: seq<string>, hunk: Hunk, later: seq<Hunk>,
                  ap: nat, as': nat, ae: nat, bp: nat, bs: nat, be: nat)
    requires ap <= as' <= |a| && bp <= bs <= be <= |b| && as' - ap == bs - bp
    requires as' == RangeStart(hunk.aStart, hunk.aCount) && bs == RangeStart(hunk.bStart, hunk.bCount)
    requires a[ap..as'] == b[bp..bs]
    requires ApplyBody(a, as', hunk.body) == Applied(b[bs..be], ae)
    requires ApplyHunks(a, ae, be, later) == Some(b[be..])
    ensures ApplyHunks(a, ap, bp, [hunk] + later) == Some(b[bp..])
  {
    assert ([hunk] + later)[1..] == later;
    assert bp + (as' - ap) + |b[bs..be]| == be;
    assert b[bp..bs] + b[bs..be] + b[be..] == b[bp..];
  }

  /** A gap and the hunk after it, applied. */
  lemma ApplySpan(a: seq<string>, b: seq<string>, steps: seq<Placed>, p: nat, s: nat, e: nat, later: seq<Hunk>)
    requires IsPlacement(a, b, steps) && AreSteps(a, b, steps) && p <= s <= e <= |steps|
    requires forall i :: p <= i < s ==> steps[i].op == Equal
    requires BAt(b, steps, e) <= |b|
    requires ApplyHunks(a, AAt(a, steps, e), BAt(b, steps, e), later) == Some(b[BAt(b, steps, e)..])
    ensures AAt(a, steps, p) <= |a| && BAt(b, steps, p) <= |b|
    ensures ApplyHunks(a, AAt(a, steps, p), BAt(b, steps, p), [HunkOf(a, b, steps, s, e)] + later)
            == Some(b[BAt(b, steps, p)..])
  {
    GapAgrees(a, b, steps, p, s);
    ApplyLines(a, b, steps, s, e);
    CountLines(a, b, steps, s, e);
    ApplyHunk(a, b, HunkOf(a, b, steps, s, e), later, AAt(a, steps, p), AAt(a, steps, s), AAt(a, steps, e),
              BAt(b, steps, p), BAt(b, steps, s), BAt(b, steps, e));
  }

  /** What is left to cover once the first hunk is past. */
  lemma LaterSpans(steps: seq<Placed>, spans: seq<Span>, p: nat)
    requires spans != [] && Ordered(steps, spans) && p <= spans[0].start
    requires forall i :: p <= i < |steps| && !InSpan(spans, i) ==> steps[i].op == Equal
    ensures Ordered(steps, spans[1..])
    ensures forall i :: p <= i < spans[0].start ==> steps[i].op == Equal
    ensures forall i :: spans[0].end <= i < |steps| && !InSpan(spans[1..], i) ==> steps[i].op == Equal
  {
    forall i | p <= i < spans[0].start
      ensures !InSpan(spans, i)
    {
    }
    forall i | spans[0].end <= i < |steps| && InSpan(spans, i)
      ensures InSpan(spans[1..], i)
    {
      var k :| 0 <= k < |spans| && spans[k].start <= i < spans[k].end;
      assert spans[1..][k - 1] == spans[k];
    }
  }

  lemma {:induction false} ApplySpans(a: seq<string>, b: seq<string>, steps: seq<Placed>, p: nat, spans: seq<Span>)
    requires IsPlacement(a, b, steps) && AreSteps(a, b, steps) && p <= |steps| && Ordered(steps, spans)
    requires spans != [] ==> p <= spans[0].start
    requires forall i :: p <= i < |steps| && !InSpan(spans, i) ==> steps[i].op == Equal
    ensures AAt(a, steps, p) <= |a| && BAt(b, steps, p) <= |b|
    ensures ApplyHunks(a, AAt(a, steps, p), BAt(b, steps, p), HunksOf(a, b, steps, spans))
            == Some(b[BAt(b, steps, p)..])
    decreases |spans|
  {
    if spans == [] {
      GapAgrees(a, b, steps, p, |steps|);
      var at, produced := AAt(a, steps, p), BAt(b, steps, p);
      assert a[at..|a|] == a[at..] && b[produced..|b|] == b[produced..];
    } else {
      LaterSpans(steps, spans, p);
      ApplySpans(a, b, steps, spans[0].end, spans[1..]);
      ApplySpan(a, b, steps, p, spans[0].start, spans[0].end, HunksOf(a, b, steps, spans[1..]));
    }
  }

  lemma {:induction false} LinesAreLines(a: seq<string>, b: seq<string>, steps: seq<Placed>, p: nat, q: nat)
    requires p <= q <= |steps| && AreSteps(a, b, steps)
    requires forall line :: line in a || line in b ==> IsLine(line)
    ensures forall line :: line in Lines(a, b, steps, p, q) ==> IsLine(line.text)
    decreases q - p
  {
    if p < q {
      LinesAreLines(a, b, steps, p + 1, q);
    }
  }

  lemma {:induction false} HunksAreWellFormed(a: seq<string>, b: seq<string>, steps: seq<Placed>, spans: seq<Span>)
    requires AreSteps(a, b, steps)
    requires forall span :: span in spans ==> span.start <= span.end <= |steps|
    requires forall line :: line in a || line in b ==> IsLine(line)
    ensures forall hunk :: hunk in HunksOf(a, b, steps, spans) ==> WellFormed(hunk)
    decreases |spans|
  {
    if spans != [] {
      LinesAreLines(a, b, steps, spans[0].start, spans[0].end);
      HunksAreWellFormed(a, b, steps, spans[1..]);
    }
  }

  /** What the rendering of a grouped placement is worth to a patch tool. */
  lemma RenderingPatches(path: string, before: string, after: string, steps: seq<Placed>, spans: seq<Span>)
    requires IsPlacement(SplitLines(before), SplitLines(after), steps)
             && AreSteps(SplitLines(before), SplitLines(after), steps)
    requires IsGrouping(steps, spans)
    ensures Patch(path, Header(path) + PrintHunks(HunksOf(SplitLines(before), SplitLines(after), steps, spans)), before)
            == Some(after)
  {
    var a, b := SplitLines(before), SplitLines(after);
    var hunks := HunksOf(a, b, steps, spans);
    SplitPiecesAreLines(before);
    SplitPiecesAreLines(after);
    HunksAreWellFormed(a, b, steps, spans);
    ReadPrintedHunks(hunks);
    ReadHeader(path, PrintHunks(hunks));
    forall i | 0 <= i < |steps| && !InSpan(spans, i)
      ensures steps[i].op == Equal
    {
      assert i - 3 <= i <= i + 3;
      assert !NearChange(steps, i);
    }
    ApplySpans(a, b, steps, 0, spans);
    assert b[0..] == b;
    SplitJoins(after);
  }

  // ----- Grouping changes into hunks -----

  /** The steps that are not `Equal`, in order. */
  ghost predicate IsChanged(steps: seq<Placed>, changed: seq<nat>) {
    && (forall t :: 0 <= t < |changed| ==> changed[t] < |steps| && steps[changed[t]].op != Equal)
    && (forall t, u :: 0 <= t < u < |changed| ==> changed[t] < changed[u])
    && (forall c :: 0 <= c < |steps| && steps[c].op != Equal ==> c in changed)
  }

  method Changed(steps: seq<Placed>) returns (changed: seq<nat>)
    ensures IsChanged(steps, changed)
  {
    changed := [];
    for i := 0 to |steps|
      invariant forall t :: 0 <= t < |changed| ==> changed[t] < i && steps[changed[t]].op != Equal
      invariant forall t, u :: 0 <= t < u < |changed| ==> changed[t] < changed[u]
      invariant forall c :: 0 <= c < i && steps[c].op != Equal ==> c in changed
    {
      if steps[i].op != Equal {
        changed := changed + [i];
      }
    }
  }

  /** Within CONTEXT steps of one of the changes numbered from `lo` to `hi`. */
  ghost predicate Near(changed: seq<nat>, lo: int, hi: int, i: int) {
    exists t :: 0 <= lo <= t < hi <= |changed| && changed[t] - CONTEXT <= i <= changed[t] + CONTEXT
  }

  /** What is near those changes is one range. */
  ghost predicate NearRange(changed: seq<nat>, lo: int, hi: int, first: int, last: int) {
    forall i :: Near(changed, lo, hi, i) <==> first <= i <= last
  }

  lemma RangeGrows(changed: seq<nat>, lo: nat, hi: nat)
    requires lo < hi < |changed| && NearRange(changed, lo, hi, changed[lo] - CONTEXT, changed[hi - 1] + CONTEXT)
    requires changed[hi - 1] < changed[hi] <= changed[hi - 1] + 2 * CONTEXT + 1 && changed[lo] < changed[hi]
    ensures NearRange(changed, lo, hi + 1, changed[lo] - CONTEXT, changed[hi] + CONTEXT)
  {
    var more := hi + 1;
    forall i: int
      ensures Near(changed, lo, more, i) <==> changed[lo] - CONTEXT <= i <= changed[hi] + CONTEXT
    {
      NearGrows(changed, lo, hi, i);
    }
  }

  /** Growing a hunk: the last change it takes in, from the one numbered `cursor` on. */
  method Grow(changed: seq<nat>, cursor: nat) returns (end: nat)
    requires cursor < |changed|
    requires forall t, u :: 0 <= t < u < |changed| ==> changed[t] < changed[u]
    ensures cursor <= end < |changed|
    ensures end + 1 < |changed| ==> changed[end + 1] - changed[end] > 2 * CONTEXT + 1
    ensures NearRange(changed, cursor, end + 1, changed[cursor] - CONTEXT, changed[end] + CONTEXT)
  {
    end := cursor;
    var last := changed[cursor];
    while end + 1 < |changed| && changed[end + 1] - last <= 2 * CONTEXT + 1
      invariant cursor <= end < |changed| && last == changed[end]
      invariant NearRange(changed, cursor, end + 1, changed[cursor] - CONTEXT, last + CONTEXT)
      decreases |changed| - end
    {
      RangeGrows(changed, cursor, end + 1);
      end := end + 1;
      last := changed[end];
    }
  }

  lemma NearGrows(changed: seq<nat>, lo: nat, hi: nat, i: int)
    requires lo <= hi < |changed|
    ensures Near(changed, lo, hi + 1, i) <==>
      Near(changed, lo, hi, i) || changed[hi] - CONTEXT <= i <= changed[hi] + CONTEXT
  {
  }

  function Max(x: int, y: int): int {
    if x <= y then y else x
  }

  /** The ranges of steps that become hunks. */
  method Group(steps: seq<Placed>) returns (spans: seq<Span>)
    ensures IsGrouping(steps, spans)
  {
    var changed := Changed(steps);
    spans := [];
    var cursor := 0;
    while cursor < |changed|
      invariant 0 <= cursor <= |changed|
      invariant Ordered(steps, spans)
      invariant forall i :: 0 <= i < |steps| ==> (InSpan(spans, i) <==> Near(changed, 0, cursor, i))
      invariant cursor < |changed| && spans != [] ==> spans[|spans| - 1].end < changed[cursor] - CONTEXT
      decreases |changed| - cursor
    {
      var end := Grow(changed, cursor);
      var span := Span(Max(0, changed[cursor] - CONTEXT), Myers.Min(changed[end] + CONTEXT + 1, |steps|));
      assert changed[cursor] <= changed[end];
      OrderedPush(steps, spans, span);
      forall i | 0 <= i < |steps|
        ensures InSpan(spans + [span], i) <==> Near(changed, 0, end + 1, i)
      {
        InSpanPush(spans, span, i);
        NearSplits(changed, cursor, end + 1, i);
      }
      spans := spans + [span];
      cursor := end + 1;
    }
    forall i | 0 <= i < |steps|
      ensures Near(changed, 0, cursor, i) <==> NearChange(steps, i)
    {
      NearMeansNearChange(steps, changed, i);
    }
  }

  lemma OrderedPush(steps: seq<Placed>, spans: seq<Span>, span: Span)
    requires Ordered(steps, spans) && span.start < span.end <= |steps|
    requires spans != [] ==> spans[|spans| - 1].end < span.start
    ensures Ordered(steps, spans + [span])
  {
    forall k | 0 <= k < |spans|
      ensures spans[k].end < span.start
    {
      assert k == |spans| - 1 || spans[k].end < spans[|spans| - 1].start;
    }
  }

  lemma InSpanPush(spans: seq<Span>, span: Span, i: int)
    ensures InSpan(spans + [span], i) <==> InSpan(spans, i) || span.start <= i < span.end
  {
    var pushed := spans + [span];
    assert pushed[|spans|] == span;
    if InSpan(spans, i) {
      var k :| 0 <= k < |spans| && spans[k].start <= i < spans[k].end;
      assert pushed[k] == spans[k];
    }
  }

  lemma NearSplits(changed: seq<nat>, mid: nat, hi: nat, i: int)
    requires mid <= hi <= |changed|
    ensures Near(changed, 0, hi, i) <==> Near(changed, 0, mid, i) || Near(changed, mid, hi, i)
  {
  }

  lemma NearMeansNearChange(steps: seq<Placed>, changed: seq<nat>, i: int)
    requires IsChanged(steps, changed)
    ensures Near(changed, 0, |changed|, i) <==> NearChange(steps, i)
  {
    if NearChange(steps, i) {
      var c :| 0 <= c < |steps| && steps[c].op != Equal && c - 3 <= i <= c + 3;
      var t :| 0 <= t < |changed| && changed[t] == c;
    }
  }

  // ----- Rendering -----

  lemma {:induction false} HunksOfPush(a: seq<string>, b: seq<string>, steps: seq<Placed>, spans: seq<Span>, span: Span)
    requires AreSteps(a, b, steps)
    requires forall s :: s in spans + [span] ==> s.start <= s.end <= |steps|
    ensures HunksOf(a, b, steps, spans + [span])
            == HunksOf(a, b, steps, spans) + [HunkOf(a, b, steps, span.start, span.end)]
    decreases |spans|
  {
    if spans == [] {
      assert spans + [span] == [span];
    } else {
      assert (spans + [span])[1..] == spans[1..] + [span];
      HunksOfPush(a, b, steps, spans[1..], span);
    }
  }

  lemma LinesFirst(a: seq<string>, b: seq<string>, steps: seq<Placed>, p: nat, q: nat)
    requires p < q <= |steps| && AreSteps(a, b, steps)
    ensures Lines(a, b, steps, p, q) == [LineOf(a, b, steps[p])] + Lines(a, b, steps, p + 1, q)
    ensures Lines(a, b, steps, q, q) == []
  {
  }

  lemma {:induction false} LinesPush(a: seq<string>, b: seq<string>, steps: seq<Placed>, p: nat, q: nat)
    requires p <= q < |steps| && AreSteps(a, b, steps)
    ensures Lines(a, b, steps, p, q + 1) == Lines(a, b, steps, p, q) + [LineOf(a, b, steps[q])]
    decreases q - p
  {
    LinesFirst(a, b, steps, p, q + 1);
    if p < q {
      LinesPush(a, b, steps, p + 1, q);
      LinesFirst(a, b, steps, p, q);
      AppendLast([LineOf(a, b, steps[p])], Lines(a, b, steps, p + 1, q), [LineOf(a, b, steps[q])]);
    } else {
      assert [LineOf(a, b, steps[p])] + [] == [] + [LineOf(a, b, steps[q])];
    }
  }

  lemma AppendLast<T>(first: seq<T>, middle: seq<T>, last: seq<T>)
    ensures first + (middle + last) == (first + middle) + last
  {
  }

  method CountOldAndNew(a: seq<string>, b: seq<string>, steps: seq<Placed>, p: nat, q: nat)
    returns (aCount: nat, bCount: nat)
    requires IsPlacement(a, b, steps) && AreSteps(a, b, steps) && p <= q <= |steps|
    ensures aCount == ACount(Lines(a, b, steps, p, q)) && bCount == BCount(Lines(a, b, steps, p, q))
  {
    aCount, bCount := 0, 0;
    for i := p to q
      invariant aCount == AAt(a, steps, i) - AAt(a, steps, p) && bCount == BAt(b, steps, i) - BAt(b, steps, p)
    {
      assert LinksAt(a, b, steps, i);
      if steps[i].op != Insert {
        aCount := aCount + 1;
      }
      if steps[i].op != Delete {
        bCount := bCount + 1;
      }
    }
    CountLines(a, b, steps, p, q);
  }

  lemma PrintNextLine(a: seq<string>, b: seq<string>, steps: seq<Placed>, p: nat, i: nat)
    requires AreSteps(a, b, steps) && p <= i < |steps|
    ensures PrintBody(Lines(a, b, steps, p, i + 1))
            == PrintBody(Lines(a, b, steps, p, i)) + PrintLine(LineOf(a, b, steps[i]))
  {
    LinesPush(a, b, steps, p, i);
    PrintBodyPush(Lines(a, b, steps, p, i), LineOf(a, b, steps[i]));
  }

  ghost predicate IsBody(a: seq<string>, b: seq<string>, steps: seq<Placed>, p: nat, q: nat, out: string) {
    AreSteps(a, b, steps) && p <= q <= |steps| && out == PrintBody(Lines(a, b, steps, p, q))
  }

  method PrintNext(a: seq<string>, b: seq<string>, steps: seq<Placed>, ghost p: nat, i: nat, out: string)
    returns (next: string)
    requires IsBody(a, b, steps, p, i, out) && i < |steps|
    ensures IsBody(a, b, steps, p, i + 1, next)
  {
    PrintNextLine(a, b, steps, p, i);
    next := out + PrintLine(LineOf(a, b, steps[i]));
  }

  lemma NoBody(a: seq<string>, b: seq<string>, steps: seq<Placed>, p: nat)
    requires AreSteps(a, b, steps) && p <= |steps|
    ensures IsBody(a, b, steps, p, p, "")
  {
  }

  method RenderBody(a: seq<string>, b: seq<string>, steps: seq<Placed>, p: nat, q: nat) returns (out: string)
    requires AreSteps(a, b, steps) && p <= q <= |steps|
    ensures IsBody(a, b, steps, p, q, out)
  {
    out := "";
    NoBody(a, b, steps, p);
    for i := p to q
      invariant IsBody(a, b, steps, p, i, out)
    {
      out := PrintNext(a, b, steps, p, i, out);
    }
  }

  method RenderHunk(a: seq<string>, b: seq<string>, steps: seq<Placed>, span: Span) returns (out: string)
    requires IsPlacement(a, b, steps) && AreSteps(a, b, steps) && span.start < span.end <= |steps|
    ensures out == PrintHunk(HunkOf(a, b, steps, span.start, span.end))
  {
    var first := steps[span.start];
    var aCount, bCount := CountOldAndNew(a, b, steps, span.start, span.end);
    var aStart := if aCount == 0 then first.aLine else first.aLine + 1;
    var bStart := if bCount == 0 then first.bLine else first.bLine + 1;
    var body := RenderBody(a, b, steps, span.start, span.end);
    assert HunkOf(a, b, steps, span.start, span.end)
        == Hunk(aStart, aCount, bStart, bCount, Lines(a, b, steps, span.start, span.end));
    out := "@@ -" + PrintRange(aStart, aCount) + " +" + PrintRange(bStart, bCount) + " @@\n" + body;
  }

  lemma PrintNextHunk(a: seq<string>, b: seq<string>, steps: seq<Placed>, spans: seq<Span>, i: nat)
    requires AreSteps(a, b, steps) && Ordered(steps, spans) && i < |spans|
    ensures PrintHunks(HunksOf(a, b, steps, spans[..i + 1]))
            == PrintHunks(HunksOf(a, b, steps, spans[..i]))
               + PrintHunk(HunkOf(a, b, steps, spans[i].start, spans[i].end))
  {
    assert spans[..i + 1] == spans[..i] + [spans[i]];
    HunksOfPush(a, b, steps, spans[..i], spans[i]);
    PrintHunksPush(HunksOf(a, b, steps, spans[..i]), HunkOf(a, b, steps, spans[i].start, spans[i].end));
  }

  method RenderHunks(a: seq<string>, b: seq<string>, steps: seq<Placed>, spans: seq<Span>) returns (out: string)
    requires IsPlacement(a, b, steps) && AreSteps(a, b, steps) && Ordered(steps, spans)
    ensures out == PrintHunks(HunksOf(a, b, steps, spans))
  {
    out := "";
    for i := 0 to |spans|
      invariant out == PrintHunks(HunksOf(a, b, steps, spans[..i]))
    {
      var hunk := RenderHunk(a, b, steps, spans[i]);
      PrintNextHunk(a, b, steps, spans, i);
      out := out + hunk;
    }
    assert spans[..|spans|] == spans;
  }

  /** A unified diff of `before` and `after` for `path`; empty when they are equal. The ghost results
      name the script it renders and the ranges of its steps that became hunks. */
  method Render(path: string, before: string, after: string)
    returns (diff: string, ghost steps: seq<Placed>, ghost spans: seq<Span>)
    ensures Patch(path, diff, before) == Some(after)
    ensures diff == "" <==> before == after
    ensures before != after ==> IsRendering(path, SplitLines(before), SplitLines(after), diff, steps, spans)
  {
    if before == after {
      return "", [], [];
    }
    var a, b := SplitLines(before), SplitLines(after);
    var script := Myers.ShortestScript(a, b);
    var placed := Place(a, b, script);
    PlacedAreSteps(a, b, placed);
    assert ScriptOf(placed) == script;
    var ranges := Group(placed);
    var hunks := RenderHunks(a, b, placed, ranges);
    diff := Header(path) + hunks;
    steps, spans := placed, ranges;
    RenderingPatches(path, before, after, steps, spans);
  }

  /** The diff prints the hunks of the preferred shortest script, in which no insert stands directly before a
      delete, one hunk for each maximal run of steps near a change. */
  ghost predicate IsRendering(path: string, a: seq<string>, b: seq<string>, diff: string,
                              steps: seq<Placed>, spans: seq<Span>) {
    && IsPlacement(a, b, steps) && AreSteps(a, b, steps)
    && Shortest(a, b, ScriptOf(steps)) && Preferred(a, b, Cost(ScriptOf(steps)), ScriptOf(steps))
    && (forall p :: 0 < p < |steps| ==> !(steps[p - 1].op == Insert && steps[p].op == Delete))
    && IsGrouping(steps, spans)
    && diff == Header(path) + PrintHunks(HunksOf(a, b, steps, spans))
  }

  function ScriptOf(steps: seq<Placed>): seq<Step> {
    seq(|steps|, p requires 0 <= p < |steps| => Step(steps[p].op, steps[p].text))
  }
}
