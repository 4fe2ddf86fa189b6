/** Edit scripts between two line lists, what they mean, and what they cost. */
module EditScript {

  datatype Op = Equal | Delete | Insert

  /** One step of a script: an operation and the index of the line it names, in the
      old list for `Equal` and `Delete`, in the new one for `Insert`. */
  datatype Step = Step(op: Op, index: nat)

  /** `script` carries the suffix of `a` from `i` to the suffix of `b` from `j`, consuming both in order. */
  ghost predicate Rewrites<T>(a: seq<T>, b: seq<T>, i: nat, j: nat, script: seq<Step>)
    decreases |script|
  {
    if script == [] then
      i == |a| && j == |b|
    else
      match script[0].op
      case Equal =>
        && script[0].index == i && i < |a| && j < |b| && a[i] == b[j]
        && Rewrites(a, b, i + 1, j + 1, script[1..])
      case Delete =>
        script[0].index == i && i < |a| && Rewrites(a, b, i + 1, j, script[1..])
      case Insert =>
        script[0].index == j && j < |b| && Rewrites(a, b, i, j + 1, script[1..])
  }

  /** The number of lines a script inserts or deletes. */
  function Cost(script: seq<Step>): nat {
    if script == [] then 0
    else (if script[0].op == Equal then 0 else 1) + Cost(script[1..])
  }

  /** Every step names an existing line of the list it reads. */
  ghost predicate InRange<T>(a: seq<T>, b: seq<T>, script: seq<Step>) {
    forall i :: 0 <= i < |script| ==>
      script[i].index < if script[i].op == Insert then |b| else |a|
  }

  /** The lines a script emits, reading kept lines from the old list. */
  ghost function Produced<T>(a: seq<T>, b: seq<T>, script: seq<Step>): seq<T>
    requires InRange(a, b, script)
  {
    if script == [] then []
    else
      match script[0].op
      case Equal => [a[script[0].index]] + Produced(a, b, script[1..])
      case Delete => Produced(a, b, script[1..])
      case Insert => [b[script[0].index]] + Produced(a, b, script[1..])
  }

  /** The lines a script keeps. */
  ghost function Kept<T>(a: seq<T>, b: seq<T>, script: seq<Step>): seq<T>
    requires InRange(a, b, script)
  {
    if script == [] then []
    else if script[0].op == Equal then [a[script[0].index]] + Kept(a, b, script[1..])
    else Kept(a, b, script[1..])
  }

  ghost predicate IsSubsequence<T>(c: seq<T>, s: seq<T>) {
    if c == [] then true
    else if s == [] then false
    else (c[0] == s[0] && IsSubsequence(c[1..], s[1..])) || IsSubsequence(c, s[1..])
  }

  ghost predicate IsCommonSubsequence<T>(c: seq<T>, a: seq<T>, b: seq<T>) {
    IsSubsequence(c, a) && IsSubsequence(c, b)
  }

  /** A script that rewrites has every index in range and emits exactly the new list. */
  lemma {:induction false} RewritesInRange<T>(a: seq<T>, b: seq<T>, i: nat, j: nat, script: seq<Step>)
    requires Rewrites(a, b, i, j, script)
    ensures i <= |a| && j <= |b| && InRange(a, b, script)
    decreases |script|
  {
    if script != [] {
      match script[0].op {
        case Equal => RewritesInRange(a, b, i + 1, j + 1, script[1..]);
        case Delete => RewritesInRange(a, b, i + 1, j, script[1..]);
        case Insert => RewritesInRange(a, b, i, j + 1, script[1..]);
      }
      assert forall k :: 1 <= k < |script| ==> script[k] == script[1..][k - 1];
    }
  }

  lemma {:induction false} RewritesProduces<T>(a: seq<T>, b: seq<T>, i: nat, j: nat, script: seq<Step>)
    requires Rewrites(a, b, i, j, script)
    requires i <= |a| && j <= |b| && InRange(a, b, script)
    ensures Produced(a, b, script) == b[j..]
    decreases |script|
  {
    if script != [] {
      var rest := script[1..];
      match script[0].op {
        case Equal =>
          RewritesProduces(a, b, i + 1, j + 1, rest);
          assert b[j..] == [b[j]] + b[j + 1..];
        case Delete =>
          RewritesProduces(a, b, i + 1, j, rest);
        case Insert =>
          RewritesProduces(a, b, i, j + 1, rest);
          assert b[j..] == [b[j]] + b[j + 1..];
      }
    }
  }

  lemma {:induction false} KeptIsCommon<T>(a: seq<T>, b: seq<T>, i: nat, j: nat, script: seq<Step>)
    requires Rewrites(a, b, i, j, script)
    requires i <= |a| && j <= |b| && InRange(a, b, script)
    ensures IsCommonSubsequence(Kept(a, b, script), a[i..], b[j..])
    ensures Cost(script) == |a| - i + |b| - j - 2 * |Kept(a, b, script)|
    decreases |script|
  {
    if script != [] {
      var rest := script[1..];
      var kept := Kept(a, b, rest);
      match script[0].op {
        case Equal =>
          KeptIsCommon(a, b, i + 1, j + 1, rest);
          SubsequenceCons(a[i], kept, a, i);
          SubsequenceCons(b[j], kept, b, j);
        case Delete =>
          KeptIsCommon(a, b, i + 1, j, rest);
          SubsequenceSkip(kept, a, i);
        case Insert =>
          KeptIsCommon(a, b, i, j + 1, rest);
          SubsequenceSkip(kept, b, j);
      }
    }
  }

  lemma SubsequenceCons<T>(x: T, c: seq<T>, s: seq<T>, i: nat)
    requires i < |s| && s[i] == x && IsSubsequence(c, s[i + 1..])
    ensures IsSubsequence([x] + c, s[i..])
  {
    assert s[i..][1..] == s[i + 1..];
    assert ([x] + c)[1..] == c;
  }

  lemma SubsequenceSkip<T>(c: seq<T>, s: seq<T>, i: nat)
    requires i < |s| && IsSubsequence(c, s[i + 1..])
    ensures IsSubsequence(c, s[i..])
  {
    assert s[i..][1..] == s[i + 1..];
  }

  /** A common subsequence gives a script that keeps it. */
  lemma {:induction false} ScriptKeeping<T>(a: seq<T>, b: seq<T>, i: nat, j: nat, c: seq<T>) returns (script: seq<Step>)
    requires i <= |a| && j <= |b|
    requires IsCommonSubsequence(c, a[i..], b[j..])
    ensures Rewrites(a, b, i, j, script)
    ensures Cost(script) == |a| - i + |b| - j - 2 * |c|
    decreases |a| - i + |b| - j
  {
    assert i < |a| ==> a[i..][1..] == a[i + 1..];
    assert j < |b| ==> b[j..][1..] == b[j + 1..];
    if i < |a| && IsSubsequence(c, a[i + 1..]) {
      var rest := ScriptKeeping(a, b, i + 1, j, c);
      script := [Step(Delete, i)] + rest;
    } else if j < |b| && IsSubsequence(c, b[j + 1..]) {
      var rest := ScriptKeeping(a, b, i, j + 1, c);
      script := [Step(Insert, j)] + rest;
    } else if i < |a| && j < |b| {
      var rest := ScriptKeeping(a, b, i + 1, j + 1, c[1..]);
      script := [Step(Equal, i)] + rest;
    } else {
      script := [];
    }
  }

  /** The script has no more inserts and deletes than any other that rewrites `a` into `b`. */
  ghost predicate Shortest<T>(a: seq<T>, b: seq<T>, script: seq<Step>) {
    && Rewrites(a, b, 0, 0, script)
    && forall other :: Rewrites(a, b, 0, 0, other) ==> Cost(script) <= Cost(other)
  }

  /** A shortest script costs n + m - 2 * LCS: what it keeps is a longest common subsequence. */
  lemma ShortestKeepsLongestCommonSubsequence<T(!new)>(a: seq<T>, b: seq<T>, script: seq<Step>)
    requires Shortest(a, b, script)
    ensures InRange(a, b, script) && Produced(a, b, script) == b
    ensures IsCommonSubsequence(Kept(a, b, script), a, b)
    ensures Cost(script) == |a| + |b| - 2 * |Kept(a, b, script)|
    ensures forall c :: IsCommonSubsequence(c, a, b) ==> |c| <= |Kept(a, b, script)|
  {
    assert a[0..] == a && b[0..] == b;
    RewritesInRange(a, b, 0, 0, script);
    RewritesProduces(a, b, 0, 0, script);
    KeptIsCommon(a, b, 0, 0, script);
    forall c | IsCommonSubsequence(c, a, b)
      ensures |c| <= |Kept(a, b, script)|
    {
      var other := ScriptKeeping(a, b, 0, 0, c);
    }
  }

  // ----- Which shortest script -----

  /** What the script is settled by, read from its end: an insert before a delete before a kept line. */
  function Rank(op: Op): nat {
    match op
    case Insert => 0
    case Delete => 1
    case Equal => 2
  }

  ghost predicate IsScript<T>(a: seq<T>, b: seq<T>, cost: int, script: seq<Step>) {
    Rewrites(a, b, 0, 0, script) && Cost(script) == cost
  }

  /** Of the scripts of this cost that end in what follows step p, none has a step of lower rank before it. */
  ghost predicate ChoosesAt<T>(a: seq<T>, b: seq<T>, cost: int, script: seq<Step>, p: nat)
    requires p < |script|
  {
    forall start: seq<Step>, step: Step ::
      IsScript(a, b, cost, start + [step] + script[p + 1..]) ==> Rank(script[p].op) <= Rank(step.op)
  }

  ghost predicate Preferred<T>(a: seq<T>, b: seq<T>, cost: int, script: seq<Step>) {
    forall p :: 0 <= p < |script| ==> ChoosesAt(a, b, cost, script, p)
  }

  /** The end of a script rewrites from wherever its start leads to. */
  lemma {:induction false} RestRewrites<T>(a: seq<T>, b: seq<T>, i: nat, j: nat, start: seq<Step>, rest: seq<Step>)
    returns (x: nat, y: nat)
    requires Rewrites(a, b, i, j, start + rest)
    ensures Rewrites(a, b, x, y, rest) && x + y >= i + j + |start|
    ensures Cost(start + rest) == Cost(start) + Cost(rest)
    decreases |start|
  {
    if start == [] {
      assert start + rest == rest;
      x, y := i, j;
    } else {
      var script := start + rest;
      assert script[0] == start[0] && script[1..] == start[1..] + rest;
      match start[0].op {
        case Equal => x, y := RestRewrites(a, b, i + 1, j + 1, start[1..], rest);
        case Delete => x, y := RestRewrites(a, b, i + 1, j, start[1..], rest);
        case Insert => x, y := RestRewrites(a, b, i, j + 1, start[1..], rest);
      }
    }
  }

  /** Only one place is left for a script to start from. */
  lemma {:induction false} StartIsFixed<T>(a: seq<T>, b: seq<T>, i: nat, j: nat, x: nat, y: nat, script: seq<Step>)
    requires Rewrites(a, b, i, j, script) && Rewrites(a, b, x, y, script)
    ensures i == x && j == y
    decreases |script|
  {
    if script != [] {
      match script[0].op {
        case Equal => StartIsFixed(a, b, i + 1, j + 1, x + 1, y + 1, script[1..]);
        case Delete => StartIsFixed(a, b, i + 1, j, x + 1, y, script[1..]);
        case Insert => StartIsFixed(a, b, i, j + 1, x, y + 1, script[1..]);
      }
    }
  }

  lemma SplitAt(s: seq<Step>, p: nat)
    requires p < |s|
    ensures s == s[..p] + [s[p]] + s[p + 1..] && s == s[..p] + s[p..] && s[p..] == [s[p]] + s[p + 1..]
  {
  }

  /** Two preferred scripts that end alike have the same step before that. */
  lemma SameStep<T>(a: seq<T>, b: seq<T>, cost: int, s: seq<Step>, t: seq<Step>, p: nat, q: nat)
    requires IsScript(a, b, cost, s) && Preferred(a, b, cost, s)
    requires IsScript(a, b, cost, t) && Preferred(a, b, cost, t)
    requires p < |s| && q < |t| && s[p + 1..] == t[q + 1..]
    ensures s[p] == t[q]
  {
    SplitAt(s, p);
    SplitAt(t, q);
    assert ChoosesAt(a, b, cost, s, p) && ChoosesAt(a, b, cost, t, q);
    var i, j := RestRewrites(a, b, 0, 0, s[..p], s[p..]);
    var x, y := RestRewrites(a, b, 0, 0, t[..q], t[q..]);
    var op := s[p].op;
    var di, dj := if op == Insert then 0 else 1, if op == Delete then 0 else 1;
    StartIsFixed(a, b, i + di, j + dj, x + di, y + dj, s[p + 1..]);
  }

  /** A script of which an end is a script by itself has nothing before that end. */
  lemma NothingBefore<T>(a: seq<T>, b: seq<T>, script: seq<Step>, p: nat)
    requires p <= |script| && Rewrites(a, b, 0, 0, script) && Rewrites(a, b, 0, 0, script[p..])
    ensures script[p..] == script
  {
    assert script == script[..p] + script[p..];
    var x, y := RestRewrites(a, b, 0, 0, script[..p], script[p..]);
    StartIsFixed(a, b, 0, 0, x, y, script[p..]);
  }

  /** Two preferred scripts that end alike are the same script. */
  lemma {:induction false} SameFromEnd<T>(a: seq<T>, b: seq<T>, cost: int, s: seq<Step>, t: seq<Step>, p: nat, q: nat)
    requires IsScript(a, b, cost, s) && Preferred(a, b, cost, s)
    requires IsScript(a, b, cost, t) && Preferred(a, b, cost, t)
    requires p <= |s| && q <= |t| && s[p..] == t[q..]
    ensures s == t
    decreases p
  {
    if p > 0 && q > 0 {
      SameStep(a, b, cost, s, t, p - 1, q - 1);
      SplitAt(s, p - 1);
      SplitAt(t, q - 1);
      SameFromEnd(a, b, cost, s, t, p - 1, q - 1);
    } else if p == 0 {
      assert s[0..] == s;
      NothingBefore(a, b, t, q);
    } else {
      assert t[0..] == t;
      NothingBefore(a, b, s, p);
    }
  }

  /** The preference leaves one script. */
  lemma PreferredIsOne<T>(a: seq<T>, b: seq<T>, cost: int, s: seq<Step>, t: seq<Step>)
    requires IsScript(a, b, cost, s) && Preferred(a, b, cost, s)
    requires IsScript(a, b, cost, t) && Preferred(a, b, cost, t)
    ensures s == t
  {
    assert s[|s|..] == t[|t|..];
    SameFromEnd(a, b, cost, s, t, |s|, |t|);
  }

  lemma PreferredIsOnly<T>(a: seq<T>, b: seq<T>, script: seq<Step>)
    requires Shortest(a, b, script) && Preferred(a, b, Cost(script), script)
    ensures forall other :: Shortest(a, b, other) && Preferred(a, b, Cost(other), other) ==> other == script
  {
    forall other | Shortest(a, b, other) && Preferred(a, b, Cost(other), other)
      ensures other == script
    {
      PreferredIsOne(a, b, Cost(script), script, other);
    }
  }

  /** An insert and a delete next to each other can change places. */
  lemma {:induction false} DeleteFirst<T>(a: seq<T>, b: seq<T>, i: nat, j: nat, start: seq<Step>, insert: Step,
                                          delete: Step, rest: seq<Step>)
    requires Rewrites(a, b, i, j, start + ([insert, delete] + rest)) && insert.op == Insert && delete.op == Delete
    ensures Rewrites(a, b, i, j, start + ([delete, insert] + rest))
    ensures Cost(start + ([delete, insert] + rest)) == Cost(start + ([insert, delete] + rest))
    decreases |start|
  {
    var was, now := start + ([insert, delete] + rest), start + ([delete, insert] + rest);
    if start == [] {
      assert was[0] == insert && was[1..] == [delete] + rest && was[1..][1..] == rest;
      assert now[0] == delete && now[1..] == [insert] + rest && now[1..][1..] == rest;
    } else {
      assert was[0] == start[0] && was[1..] == start[1..] + ([insert, delete] + rest);
      assert now[0] == start[0] && now[1..] == start[1..] + ([delete, insert] + rest);
      match start[0].op {
        case Equal => DeleteFirst(a, b, i + 1, j + 1, start[1..], insert, delete, rest);
        case Delete => DeleteFirst(a, b, i + 1, j, start[1..], insert, delete, rest);
        case Insert => DeleteFirst(a, b, i, j + 1, start[1..], insert, delete, rest);
      }
    }
  }

  /** No insert stands directly before a delete. */
  ghost predicate DeletesFirst(script: seq<Step>) {
    forall p :: 0 < p < |script| ==> !(script[p - 1].op == Insert && script[p].op == Delete)
  }

  lemma InsertNotBeforeDelete<T>(a: seq<T>, b: seq<T>, cost: int, script: seq<Step>, p: nat)
    requires IsScript(a, b, cost, script)
    requires 0 < p < |script| && script[p - 1].op == Insert && script[p].op == Delete
    ensures !ChoosesAt(a, b, cost, script, p)
  {
    var start, rest := script[..p - 1], script[p + 1..];
    assert script == start + ([script[p - 1], script[p]] + rest);
    DeleteFirst(a, b, 0, 0, start, script[p - 1], script[p], rest);
    assert start + ([script[p], script[p - 1]] + rest) == (start + [script[p]]) + [script[p - 1]] + rest;
  }

  lemma PreferredDeletesFirst<T>(a: seq<T>, b: seq<T>, cost: int, script: seq<Step>)
    requires IsScript(a, b, cost, script) && Preferred(a, b, cost, script)
    ensures DeletesFirst(script)
  {
    forall p | 0 < p < |script| && script[p - 1].op == Insert
      ensures script[p].op != Delete
    {
      if script[p].op == Delete {
        InsertNotBeforeDelete(a, b, cost, script, p);
      }
    }
  }
}
