/** The O(ND) furthest-reaching search and the script read back from its trace.

    Round d visits the diagonals -d, -d + 2, ..., d; they are numbered 0, 1, ..., d here,
    so the i-th is the diagonal x - y == 2 * i - d. */
module Myers {
  import opened EditScript

  // ----- The search's recurrence -----

  /** Whether the lines at (x, y) match; never outside the box. */
  predicate Matches<T(==)>(a: seq<T>, b: seq<T>, x: int, y: int) {
    0 <= x < |a| && 0 <= y < |b| && a[x] == b[y]
  }

  /** Following matches from x down the diagonal x - y == k. */
  ghost function Slide<T>(a: seq<T>, b: seq<T>, x: int, k: int): (r: int)
    requires x >= 0 && x >= k
    ensures r >= x
    decreases |a| - x
  {
    if Matches(a, b, x, x - k) then Slide(a, b, x + 1, k) else x
  }

  /** Whether round d comes to its i-th diagonal by an insert, from the diagonal above. */
  ghost predicate ByInsert<T>(a: seq<T>, b: seq<T>, d: int, i: int)
    requires 0 <= i <= d
    decreases d, 0
  {
    i == 0 || (i != d && Furthest(a, b, d - 1, i - 1) < Furthest(a, b, d - 1, i))
  }

  /** Where round d enters its i-th diagonal, before following matches. */
  ghost function Entry<T>(a: seq<T>, b: seq<T>, d: int, i: int): (x: int)
    requires 0 <= i <= d
    ensures x >= 0 && x >= 2 * i - d
    decreases d, 1
  {
    if d == 0 then 0
    else if ByInsert(a, b, d, i) then Furthest(a, b, d - 1, i)
    else Furthest(a, b, d - 1, i - 1) + 1
  }

  /** The furthest x round d reaches on its i-th diagonal. */
  ghost function Furthest<T>(a: seq<T>, b: seq<T>, d: int, i: int): (x: int)
    requires 0 <= i <= d
    ensures x >= 0 && x >= 2 * i - d
    decreases d, 2
  {
    Slide(a, b, Entry(a, b, d, i), 2 * i - d)
  }

  // ----- Paths in the edit graph, allowed to run out of the box -----

  /** Some path of exactly d inserts and deletes leads from (0, 0) to (x, y). */
  ghost predicate Reach<T>(a: seq<T>, b: seq<T>, d: int, x: int, y: int)
    decreases x + y
  {
    && d >= 0 && x >= 0 && y >= 0
    && (|| (d == 0 && x == 0 && y == 0)
        || (x > 0 && Reach(a, b, d - 1, x - 1, y))
        || (y > 0 && Reach(a, b, d - 1, x, y - 1))
        || (Matches(a, b, x - 1, y - 1) && Reach(a, b, d, x - 1, y - 1)))
  }

  lemma {:induction false} SlideReaches<T>(a: seq<T>, b: seq<T>, d: nat, x: int, k: int)
    requires x >= 0 && x >= k && Reach(a, b, d, x, x - k)
    ensures Reach(a, b, d, Slide(a, b, x, k), Slide(a, b, x, k) - k)
    decreases |a| - x
  {
    if Matches(a, b, x, x - k) {
      SlideReaches(a, b, d, x + 1, k);
    }
  }

  lemma {:induction false} FurthestIsReached<T>(a: seq<T>, b: seq<T>, d: int, i: int)
    requires 0 <= i <= d
    ensures Reach(a, b, d, Furthest(a, b, d, i), Furthest(a, b, d, i) - (2 * i - d))
    decreases d
  {
    if d > 0 {
      if ByInsert(a, b, d, i) {
        FurthestIsReached(a, b, d - 1, i);
      } else {
        FurthestIsReached(a, b, d - 1, i - 1);
      }
    }
    SlideReaches(a, b, d, Entry(a, b, d, i), 2 * i - d);
  }

  lemma {:induction false} SlideStops<T>(a: seq<T>, b: seq<T>, x: int, k: int)
    requires x >= 0 && x >= k
    ensures !Matches(a, b, Slide(a, b, x, k), Slide(a, b, x, k) - k)
    decreases |a| - x
  {
    if Matches(a, b, x, x - k) {
      SlideStops(a, b, x + 1, k);
    }
  }

  /** No path of d edits gets past the furthest point of its diagonal. */
  lemma {:induction false} FurthestDominates<T>(a: seq<T>, b: seq<T>, d: int, x: int, y: int) returns (i: int)
    requires Reach(a, b, d, x, y)
    ensures 0 <= i <= d && x - y == 2 * i - d && x <= Furthest(a, b, d, i)
    decreases x + y
  {
    if x > 0 && Reach(a, b, d - 1, x - 1, y) {
      i := FurthestDominates(a, b, d - 1, x - 1, y);
      i := i + 1;
      assert x <= Entry(a, b, d, i);
    } else if y > 0 && Reach(a, b, d - 1, x, y - 1) {
      i := FurthestDominates(a, b, d - 1, x, y - 1);
      assert x <= Entry(a, b, d, i);
    } else if Matches(a, b, x - 1, y - 1) && Reach(a, b, d, x - 1, y - 1) {
      i := FurthestDominates(a, b, d, x - 1, y - 1);
      SlideStops(a, b, Entry(a, b, d, i), x - y);
    } else {
      i := 0;
    }
  }

  function Min(x: int, y: int): int {
    if x <= y then x else y
  }

  /** Pulling a path that left the box back into it saves every edit made outside. */
  lemma {:induction false} ReachClamps<T>(a: seq<T>, b: seq<T>, d: int, x: int, y: int)
    requires Reach(a, b, d, x, y)
    ensures var cx, cy := Min(x, |a|), Min(y, |b|);
            Reach(a, b, d - (x - cx) - (y - cy), cx, cy)
    decreases x + y
  {
    if x > 0 && Reach(a, b, d - 1, x - 1, y) {
      ReachClamps(a, b, d - 1, x - 1, y);
    } else if y > 0 && Reach(a, b, d - 1, x, y - 1) {
      ReachClamps(a, b, d - 1, x, y - 1);
    } else if Matches(a, b, x - 1, y - 1) && Reach(a, b, d, x - 1, y - 1) {
      ReachClamps(a, b, d, x - 1, y - 1);
    }
  }

  lemma {:induction false} ReachByEditsOnly<T>(a: seq<T>, b: seq<T>, x: nat, y: nat)
    ensures Reach(a, b, x + y, x, y)
    decreases x + y
  {
    if x > 0 {
      ReachByEditsOnly(a, b, x - 1, y);
    } else if y > 0 {
      ReachByEditsOnly(a, b, x, y - 1);
    }
  }

  /** The start of a script is a path to where the rest of it begins. */
  lemma {:induction false} StartReaches<T>(a: seq<T>, b: seq<T>, d: nat, i: nat, j: nat, start: seq<Step>,
                                           rest: seq<Step>)
    returns (x: nat, y: nat)
    requires Reach(a, b, d, i, j) && Rewrites(a, b, i, j, start + rest)
    ensures Reach(a, b, d + Cost(start), x, y) && Rewrites(a, b, x, y, rest)
    ensures Cost(start + rest) == Cost(start) + Cost(rest)
    decreases |start|
  {
    if start == [] {
      assert start + rest == rest;
      x, y := i, j;
    } else {
      var script := start + rest;
      assert script[0] == start[0] && script[1..] == start[1..] + rest;
      match start[0].op {
        case Equal => x, y := StartReaches(a, b, d, i + 1, j + 1, start[1..], rest);
        case Delete => x, y := StartReaches(a, b, d + 1, i + 1, j, start[1..], rest);
        case Insert => x, y := StartReaches(a, b, d + 1, i, j + 1, start[1..], rest);
      }
    }
  }

  /** A script is a path: what it costs is what the path to the corner costs. */
  lemma ScriptReaches<T>(a: seq<T>, b: seq<T>, script: seq<Step>)
    requires Rewrites(a, b, 0, 0, script)
    ensures Reach(a, b, Cost(script), |a|, |b|)
  {
    assert script + [] == script;
    var x, y := StartReaches(a, b, 0, 0, 0, script, []);
  }

  // ----- When the search breaks -----

  /** The break test of the search at the i-th diagonal of round d. */
  ghost predicate Ends<T>(a: seq<T>, b: seq<T>, d: int, i: int) {
    0 <= i <= d && Furthest(a, b, d, i) >= |a| && Furthest(a, b, d, i) - (2 * i - d) >= |b|
  }

  ghost predicate NoEndBefore<T>(a: seq<T>, b: seq<T>, d: int) {
    forall e, i :: e < d ==> !Ends(a, b, e, i)
  }

  /** A corner reached with d edits makes the search break by round d. */
  lemma CornerEnds<T>(a: seq<T>, b: seq<T>, d: int)
    requires Reach(a, b, d, |a|, |b|)
    ensures !NoEndBefore(a, b, d + 1)
  {
    var i := FurthestDominates(a, b, d, |a|, |b|);
    assert Ends(a, b, d, i);
  }

  /** The first time the break test holds, it holds exactly at the corner. */
  lemma FirstEndIsCorner<T>(a: seq<T>, b: seq<T>, d: int, i: int)
    requires Ends(a, b, d, i) && NoEndBefore(a, b, d)
    ensures 2 * i - d == |a| - |b| && Furthest(a, b, d, i) == |a|
  {
    FurthestIsReached(a, b, d, i);
    var x := Furthest(a, b, d, i);
    var y := x - (2 * i - d);
    ReachClamps(a, b, d, x, y);
    CornerEnds(a, b, d - (x - |a|) - (y - |b|));
  }

  /** The search cannot run past its last round. */
  lemma SearchEnds<T>(a: seq<T>, b: seq<T>)
    ensures !NoEndBefore(a, b, |a| + |b| + 1)
  {
    ReachByEditsOnly(a, b, |a|, |b|);
    CornerEnds(a, b, |a| + |b|);
  }

  // ----- The search -----

  /** The entry of `v` for the i-th diagonal of round d. */
  ghost function At<T>(a: seq<T>, b: seq<T>, v: seq<int>, d: int, i: int): int
    requires |v| == 2 * (|a| + |b|) + 3 && 0 <= i <= d <= |a| + |b|
  {
    v[2 * i - d + (|a| + |b| + 1)]
  }

  /** `v` holds round d's furthest points on its first `count` diagonals. */
  ghost predicate Holds<T>(a: seq<T>, b: seq<T>, v: seq<int>, d: int, count: int) {
    && |v| == 2 * (|a| + |b|) + 3
    && d <= |a| + |b|
    && forall i {:trigger At(a, b, v, d, i)} :: 0 <= i < count && i <= d ==> At(a, b, v, d, i) == Furthest(a, b, d, i)
  }

  /** What `v` holds before round d: the previous round's points (zeros before round 0). */
  ghost predicate BeforeRound<T>(a: seq<T>, b: seq<T>, v: seq<int>, d: int) {
    && Holds(a, b, v, d - 1, d)
    && (d == 0 ==> v[|a| + |b| + 2] == 0)
  }

  /** The choice both the search and the reading back make from a snapshot: the diagonal to
      come from, and the x reached there. */
  method Come<T>(ghost a: seq<T>, ghost b: seq<T>, v: seq<int>, offset: int, d: int, k: int, ghost i: int)
    returns (previousK: int, previousX: int)
    requires offset == |a| + |b| + 1 && d <= |a| + |b| && 0 <= i <= d && k == 2 * i - d
    requires BeforeRound(a, b, v, d)
    ensures previousK == if ByInsert(a, b, d, i) then k + 1 else k - 1
    ensures d == 0 ==> previousX == 0
    ensures d > 0 ==> previousX == Furthest(a, b, d - 1, if ByInsert(a, b, d, i) then i else i - 1)
  {
    ghost var below := if i == 0 then 0 else At(a, b, v, d - 1, i - 1);
    ghost var above := if i == d then 0 else At(a, b, v, d - 1, i);
    var index := k + offset;
    previousK := if k == 0 - d || (k != d && v[index - 1] < v[index + 1]) then k + 1 else k - 1;
    previousX := v[previousK + offset];
  }

  method Follow<T(==)>(a: seq<T>, b: seq<T>, start: int, k: int) returns (x: int)
    requires start >= 0 && start >= k
    ensures x == Slide(a, b, start, k)
  {
    x := start;
    var y := start - k;
    while x < |a| && y < |b| && a[x] == b[y]
      invariant 0 <= x && 0 <= y == x - k
      invariant Slide(a, b, x, k) == Slide(a, b, start, k)
      decreases |a| - x
    {
      x := x + 1;
      y := y + 1;
    }
  }

  /** Writing a point of round d extends the round, and keeps what round d - 1 left on the
      diagonals of the other parity. */
  lemma WriteKeeps<T>(a: seq<T>, b: seq<T>, v: seq<int>, d: int, i: int, v': seq<int>)
    requires 0 <= i <= d <= |a| + |b| && BeforeRound(a, b, v, d) && Holds(a, b, v, d, i)
    requires v' == v[2 * i - d + (|a| + |b| + 1) := Furthest(a, b, d, i)]
    ensures BeforeRound(a, b, v', d) && Holds(a, b, v', d, i + 1)
  {
    forall j {:trigger At(a, b, v', d - 1, j)} | 0 <= j <= d - 1
      ensures At(a, b, v', d - 1, j) == At(a, b, v, d - 1, j)
    {
    }
    forall j | 0 <= j < i
      ensures At(a, b, v', d, j) == At(a, b, v, d, j)
    {
    }
  }

  /** One round of the search, in place. */
  method Round<T(==)>(a: seq<T>, b: seq<T>, v: array<int>, d: int) returns (ended: bool)
    requires 0 <= d <= |a| + |b|
    requires BeforeRound(a, b, v[..], d) && NoEndBefore(a, b, d)
    modifies v
    ensures ended <==> !NoEndBefore(a, b, d + 1)
    ensures !ended ==> Holds(a, b, v[..], d, d + 1)
  {
    var offset := |a| + |b| + 1;
    ended := false;
    var k := 0 - d;
    ghost var i := 0;
    while k <= d
      invariant 0 <= i <= d + 1 && k == 2 * i - d
      invariant BeforeRound(a, b, v[..], d) && Holds(a, b, v[..], d, i)
      invariant forall j :: j < i ==> !Ends(a, b, d, j)
      decreases d - k
    {
      var previousK, previousX := Come(a, b, v[..], offset, d, k, i);
      var x := Follow(a, b, if previousK == k + 1 then previousX else previousX + 1, k);
      WriteKeeps(a, b, v[..], d, i, v[..][k + offset := x]);
      v[k + offset] := x;
      if x >= |a| && x - k >= |b| {
        assert Ends(a, b, d, i);
        ended := true;
        return;
      }
      i := i + 1;
      k := k + 2;
    }
  }

  /** The snapshots of a search that broke in its last round. */
  ghost predicate IsTrace<T>(a: seq<T>, b: seq<T>, trace: seq<seq<int>>) {
    && 0 < |trace| <= |a| + |b| + 1
    && NoEndBefore(a, b, |trace| - 1) && !NoEndBefore(a, b, |trace|)
    && forall d :: 0 <= d < |trace| ==> BeforeRound(a, b, trace[d], d)
  }

  method Search<T(==)>(a: seq<T>, b: seq<T>) returns (trace: seq<seq<int>>)
    ensures IsTrace(a, b, trace)
  {
    var max := |a| + |b|;
    var v := new int[2 * max + 3](_ => 0);
    trace := [];
    var d := 0;
    while d <= max
      invariant 0 <= d <= max + 1 && |trace| == d
      invariant forall e :: 0 <= e < d ==> BeforeRound(a, b, trace[e], e)
      invariant d <= max ==> BeforeRound(a, b, v[..], d)
      invariant NoEndBefore(a, b, d)
    {
      trace := trace + [v[..]];
      var ended := Round(a, b, v, d);
      if ended {
        return;
      }
      d := d + 1;
    }
    SearchEnds(a, b);
    assert false;
  }

  // ----- Reading the script back -----

  function Reversed<T>(s: seq<T>): (r: seq<T>) {
    if s == [] then [] else Reversed(s[1..]) + [s[0]]
  }

  lemma {:induction false} ReversedPush<T>(s: seq<T>, x: T)
    ensures Reversed(s + [x]) == [x] + Reversed(s)
  {
    if s != [] {
      ReversedPush(s[1..], x);
      assert (s + [x])[1..] == s[1..] + [x];
    }
  }

  /** Between where a diagonal is entered and where it ends, every point is a match. */
  lemma {:induction false} SlideMatches<T>(a: seq<T>, b: seq<T>, x: int, k: int, z: int)
    requires x >= 0 && x >= k && x <= z < Slide(a, b, x, k)
    ensures Matches(a, b, z, z - k)
    decreases |a| - x
  {
    if x < z {
      SlideMatches(a, b, x + 1, k, z);
    }
  }

  /** What can come last on the way to a point of round d past its entry: neither an insert nor a delete,
      and at the entry itself an insert exactly when the round came by one. */
  lemma LastEdit<T>(a: seq<T>, b: seq<T>, d: int, i: int, x: int)
    requires 0 <= i <= d && x >= Entry(a, b, d, i)
    ensures Reach(a, b, d - 1, x, x - (2 * i - d) - 1) ==> x == Entry(a, b, d, i) && ByInsert(a, b, d, i)
    ensures Reach(a, b, d - 1, x - 1, x - (2 * i - d)) ==> x == Entry(a, b, d, i)
  {
    if Reach(a, b, d - 1, x, x - (2 * i - d) - 1) {
      var above := FurthestDominates(a, b, d - 1, x, x - (2 * i - d) - 1);
    }
    if Reach(a, b, d - 1, x - 1, x - (2 * i - d)) {
      var below := FurthestDominates(a, b, d - 1, x - 1, x - (2 * i - d));
    }
  }

  /** A script that, read from its end, carries (x, y) to the corner, with d edits left to find. Each of its
      steps is the one preferred. */
  ghost predicate Backwards<T>(a: seq<T>, b: seq<T>, x: int, y: int, backwards: seq<Step>, d: int, cost: int) {
    && 0 <= x <= |a| && 0 <= y <= |b|
    && Rewrites(a, b, x, y, Reversed(backwards)) && Cost(Reversed(backwards)) == cost - d
    && Preferred(a, b, cost, Reversed(backwards))
  }

  /** The steps that may be pushed: those of the lowest rank that still leads back to the start. */
  ghost predicate MayPush<T>(a: seq<T>, b: seq<T>, x: int, y: int, d: int, op: Op) {
    && (op != Insert ==> !Reach(a, b, d - 1, x, y - 1))
    && (op == Equal ==> !Reach(a, b, d - 1, x - 1, y))
  }

  /** A step leads to where the rest begins. */
  lemma StepLeads<T>(a: seq<T>, b: seq<T>, i: nat, j: nat, x: nat, y: nat, step: Step, rest: seq<Step>)
    requires Rewrites(a, b, i, j, [step] + rest) && Rewrites(a, b, x, y, rest)
    ensures x == (if step.op == Insert then i else i + 1) && y == if step.op == Delete then j else j + 1
    ensures Cost([step] + rest) == (if step.op == Equal then 0 else 1) + Cost(rest)
  {
    assert ([step] + rest)[0] == step && ([step] + rest)[1..] == rest;
    match step.op {
      case Equal => StartIsFixed(a, b, i + 1, j + 1, x, y, rest);
      case Delete => StartIsFixed(a, b, i + 1, j, x, y, rest);
      case Insert => StartIsFixed(a, b, i, j + 1, x, y, rest);
    }
  }

  /** The last step of a path to (x, y). */
  lemma LastStep<T>(a: seq<T>, b: seq<T>, x: nat, y: nat, start: seq<Step>, step: Step, rest: seq<Step>)
    returns (i: nat, j: nat)
    requires Rewrites(a, b, x, y, rest) && Rewrites(a, b, 0, 0, start + [step] + rest)
    ensures Cost(start + [step] + rest) == Cost(start) + (if step.op == Equal then 0 else 1) + Cost(rest)
    ensures Reach(a, b, Cost(start), i, j)
    ensures x == (if step.op == Insert then i else i + 1) && y == if step.op == Delete then j else j + 1
  {
    assert start + [step] + rest == start + ([step] + rest);
    i, j := StartReaches(a, b, 0, 0, 0, start, [step] + rest);
    StepLeads(a, b, i, j, x, y, step, rest);
  }

  lemma PreferredPush<T>(a: seq<T>, b: seq<T>, x: nat, y: nat, d: int, cost: int, step: Step, rest: seq<Step>)
    requires Rewrites(a, b, x, y, rest) && Cost(rest) == cost - d && Preferred(a, b, cost, rest)
    requires MayPush(a, b, x, y, d, step.op)
    ensures Preferred(a, b, cost, [step] + rest)
  {
    var script := [step] + rest;
    forall p | 0 <= p < |script|
      ensures ChoosesAt(a, b, cost, script, p)
    {
      if p == 0 {
        assert script[1..] == rest;
        forall start: seq<Step>, other: Step | IsScript(a, b, cost, start + [other] + script[1..])
          ensures Rank(step.op) <= Rank(other.op)
        {
          var i, j := LastStep(a, b, x, y, start, other, rest);
        }
      } else {
        assert script[p] == rest[p - 1] && script[p + 1..] == rest[p..];
        assert ChoosesAt(a, b, cost, rest, p - 1);
      }
    }
  }

  lemma PushKeeps<T>(a: seq<T>, b: seq<T>, x: int, y: int, backwards: seq<Step>, d: int, cost: int, step: Step)
    requires Backwards(a, b, x, y, backwards, d, cost) && MayPush(a, b, x, y, d, step.op)
    requires step.index == if step.op == Insert then y - 1 else x - 1
    requires step.op == Equal ==> Matches(a, b, x - 1, y - 1)
    ensures Backwards(a, b, if step.op == Insert then x else x - 1, if step.op == Delete then y else y - 1,
                      backwards + [step], if step.op == Equal then d else d - 1, cost)
  {
    ReversedPush(backwards, step);
    assert Reversed(backwards + [step])[1..] == Reversed(backwards);
    PreferredPush(a, b, x, y, d, cost, step, Reversed(backwards));
  }

  /** The furthest point of round d is where the script so far starts. */
  ghost predicate AtFurthest<T>(a: seq<T>, b: seq<T>, d: int, i: int, x: int, y: int, backwards: seq<Step>, cost: int) {
    && 0 <= i <= d && x - y == 2 * i - d && Furthest(a, b, d, i) == x
    && Backwards(a, b, x, y, backwards, d, cost)
  }

  /** Undoing the matches followed from where round d entered the diagonal. */
  method Unfollow<T(==)>(a: seq<T>, b: seq<T>, x0: int, y0: int, previousX: int, previousY: int,
                         backwards0: seq<Step>, ghost d: int, ghost i: int, ghost cost: int)
    returns (x: int, y: int, backwards: seq<Step>)
    requires AtFurthest(a, b, d, i, x0, y0, backwards0, cost)
    requires var start := Entry(a, b, d, i);
             || (start == previousX && start - (x0 - y0) == previousY + 1)
             || (start == previousX + 1 && start - (x0 - y0) == previousY)
    ensures x == Entry(a, b, d, i) && y == x - (2 * i - d)
    ensures Backwards(a, b, x, y, backwards, d, cost)
  {
    x, y, backwards := x0, y0, backwards0;
    while x > previousX && y > previousY
      invariant Entry(a, b, d, i) <= x <= x0 && x - y == x0 - y0
      invariant Backwards(a, b, x, y, backwards, d, cost)
      decreases x
    {
      SlideMatches(a, b, Entry(a, b, d, i), x0 - y0, x - 1);
      LastEdit(a, b, d, i, x);
      x := x - 1;
      y := y - 1;
      PushKeeps(a, b, x + 1, y + 1, backwards, d, cost, Step(Equal, x));
      backwards := backwards + [Step(Equal, x)];
    }
  }

  /** Reading back round d: the matches it followed, then the edit that led to them. */
  method ReadRound<T(==)>(a: seq<T>, b: seq<T>, v: seq<int>, d: int, x0: int, y0: int,
                          backwards0: seq<Step>, ghost i: int, ghost cost: int)
    returns (x: int, y: int, backwards: seq<Step>, ghost next: int)
    requires d <= |a| + |b| && BeforeRound(a, b, v, d)
    requires AtFurthest(a, b, d, i, x0, y0, backwards0, cost)
    ensures d == 0 ==> Backwards(a, b, 0, 0, backwards, 0, cost)
    ensures d > 0 ==> AtFurthest(a, b, d - 1, next, x, y, backwards, cost)
  {
    var offset := |a| + |b| + 1;
    var k := x0 - y0;
    var previousK, previousX := Come(a, b, v, offset, d, k, i);
    var previousY := previousX - previousK;
    x, y, backwards := Unfollow(a, b, x0, y0, previousX, previousY, backwards0, d, i, cost);
    if d > 0 {
      var step := if x == previousX then Step(Insert, y - 1) else Step(Delete, x - 1);
      LastEdit(a, b, d, i, x);
      PushKeeps(a, b, x, y, backwards, d, cost, step);
      backwards := backwards + [step];
    }
    next := if ByInsert(a, b, d, i) then i else i - 1;
    x := previousX;
    y := previousY;
  }

  /** The script read back rewrites `a` into `b` with an edit for each round after the first, and of the scripts
      that do it is the one preferred. */
  method ReadBack<T(==)>(a: seq<T>, b: seq<T>, trace: seq<seq<int>>) returns (script: seq<Step>)
    requires IsTrace(a, b, trace)
    ensures IsScript(a, b, |trace| - 1, script) && Preferred(a, b, |trace| - 1, script)
    ensures DeletesFirst(script)
  {
    var backwards: seq<Step> := [];
    var x, y := |a|, |b|;
    var round := |trace|;
    ghost var i :| Ends(a, b, round - 1, i);
    FirstEndIsCorner(a, b, round - 1, i);
    while round > 0
      invariant 0 <= round <= |trace|
      invariant round > 0 ==> AtFurthest(a, b, round - 1, i, x, y, backwards, |trace| - 1)
      invariant round == 0 ==> Backwards(a, b, 0, 0, backwards, 0, |trace| - 1)
    {
      round := round - 1;
      x, y, backwards, i := ReadRound(a, b, trace[round], round, x, y, backwards, i, |trace| - 1);
    }
    script := Reversed(backwards);
    PreferredDeletesFirst(a, b, |trace| - 1, script);
  }

  lemma NoneShorter<T>(a: seq<T>, b: seq<T>, script: seq<Step>, rounds: nat)
    requires IsScript(a, b, rounds - 1, script) && NoEndBefore(a, b, rounds - 1)
    ensures Shortest(a, b, script)
  {
    forall other | Rewrites(a, b, 0, 0, other)
      ensures Cost(script) <= Cost(other)
    {
      ScriptReaches(a, b, other);
      CornerEnds(a, b, Cost(other));
    }
  }

  /** The edit script from `a` to `b`: no script is shorter, and it is the one of the shortest that, read from
      its end, has its inserts before its deletes and both before what it keeps. */
  method ShortestScript<T(==)>(a: seq<T>, b: seq<T>) returns (script: seq<Step>)
    ensures Shortest(a, b, script) && Preferred(a, b, Cost(script), script)
    ensures forall other :: Shortest(a, b, other) && Preferred(a, b, Cost(other), other) ==> other == script
    ensures DeletesFirst(script)
  {
    var trace := Search(a, b);
    script := ReadBack(a, b, trace);
    NoneShorter(a, b, script, |trace|);
    PreferredIsOnly(a, b, script);
  }
}
