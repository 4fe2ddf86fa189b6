/** The order of texts, and sets of texts listed in it. */
module Order {
  import opened Bytes

  predicate Before(a: Text, b: Text) {
    b != [] && (a == [] || a[0] < b[0] || (a[0] == b[0] && Before(a[1..], b[1..])))
  }

  lemma {:induction false} BeforeIsTotal(a: Text, b: Text)
    ensures a == b || Before(a, b) || Before(b, a)
    ensures !(Before(a, b) && Before(b, a)) && !Before(a, a)
  {
    if a != [] && b != [] && a[0] == b[0] {
      BeforeIsTotal(a[1..], b[1..]);
      assert a == [a[0]] + a[1..] && b == [b[0]] + b[1..];
    }
    if a != [] {
      BeforeIsTotal(a[1..], a[1..]);
    }
  }

  lemma {:induction false} BeforeIsTransitive(a: Text, b: Text, c: Text)
    requires Before(a, b) && Before(b, c)
    ensures Before(a, c)
  {
    if a != [] && a[0] == b[0] == c[0] {
      BeforeIsTransitive(a[1..], b[1..], c[1..]);
    }
  }

  /** The texts agree up to k, and there the first one ends or has the smaller byte. */
  ghost predicate PartsAt(a: Text, b: Text, k: nat) {
    k <= |a| && k < |b| && a[..k] == b[..k] && (k == |a| || a[k] < b[k])
  }

  ghost predicate Parts(a: Text, b: Text) {
    exists k: nat :: PartsAt(a, b, k)
  }

  /** A text comes before another as a proper prefix of it, or by a smaller byte where they first differ. */
  lemma {:induction false} BeforeExactly(a: Text, b: Text)
    ensures Before(a, b) <==> Parts(a, b)
  {
    if b == [] {
    } else if a == [] || a[0] < b[0] {
      assert PartsAt(a, b, 0);
    } else if a[0] == b[0] {
      var a', b' := a[1..], b[1..];
      BeforeExactly(a', b');
      if k: nat :| PartsAt(a', b', k) {
        PartsLater(a, b, k);
      }
      if k: nat :| PartsAt(a, b, k) {
        assert k > 0;
        PartsLater(a, b, k - 1);
      }
    } else {
      forall k: nat | 0 < k <= |a| && k <= |b|
        ensures !PartsAt(a, b, k)
      {
        assert a[..k][0] != b[..k][0];
      }
    }
  }

  lemma PartsLater(a: Text, b: Text, k: nat)
    requires a != [] && b != [] && a[0] == b[0]
    ensures PartsAt(a, b, k + 1) <==> PartsAt(a[1..], b[1..], k)
  {
    if k < |a| && k < |b| {
      assert a[..k + 1] == [a[0]] + a[1..][..k] && b[..k + 1] == [b[0]] + b[1..][..k];
      assert a[..k + 1][1..] == a[1..][..k] && b[..k + 1][1..] == b[1..][..k];
    }
  }

  predicate IsLeast(s: set<Text>, least: Text) {
    least in s && forall x :: x in s ==> x == least || Before(least, x)
  }

  lemma {:induction false} HasLeast(s: set<Text>)
    requires s != {}
    ensures exists least :: IsLeast(s, least)
    decreases |s|
  {
    var x :| x in s;
    if s == {x} {
      assert IsLeast(s, x);
    } else {
      HasLeast(s - {x});
      var y :| IsLeast(s - {x}, y);
      BeforeIsTotal(x, y);
      if Before(y, x) {
        assert IsLeast(s, y);
      } else {
        forall z | z in s ensures z == x || Before(x, z) {
          if z != x && z != y {
            BeforeIsTransitive(x, y, z);
          }
        }
        assert IsLeast(s, x);
      }
    }
  }

  function Least(s: set<Text>): (least: Text)
    requires s != {}
    ensures IsLeast(s, least)
  {
    HasLeast(s);
    LeastIsUnique(s);
    var least :| least in s && IsLeast(s, least);
    least
  }

  lemma LeastIsUnique(s: set<Text>)
    ensures forall x, y :: IsLeast(s, x) && IsLeast(s, y) ==> x == y
  {
    forall x, y | IsLeast(s, x) && IsLeast(s, y)
      ensures x == y
    {
      BeforeIsTotal(x, y);
    }
  }

  ghost predicate Ascending(keys: seq<Text>) {
    forall i, j :: 0 <= i < j < |keys| ==> Before(keys[i], keys[j])
  }

  function Elements(keys: seq<Text>): set<Text> {
    set key | key in keys
  }

  lemma Prepend(least: Text, rest: seq<Text>)
    requires Ascending(rest) && forall key :: key in Elements(rest) ==> Before(least, key)
    ensures Ascending([least] + rest) && Elements([least] + rest) == {least} + Elements(rest)
  {
    var keys := [least] + rest;
    forall i, j | 0 <= i < j < |keys|
      ensures Before(keys[i], keys[j])
    {
      assert keys[j] == rest[j - 1] && rest[j - 1] in Elements(rest);
    }
  }

  /** The elements of a set, each once, in order. */
  function Sorted(s: set<Text>): (keys: seq<Text>)
    ensures Ascending(keys) && Elements(keys) == s
    decreases |s|
  {
    if s == {} then []
    else
      var least := Least(s);
      var rest := Sorted(s - {least});
      Prepend(least, rest);
      [least] + rest
  }

  lemma HasElement(keys: seq<Text>)
    requires keys != []
    ensures Elements(keys) != {}
  {
    assert keys[0] in Elements(keys);
  }

  /** There is only one way to do so. */
  lemma {:induction false} AscendingIsUnique(keys: seq<Text>, others: seq<Text>)
    requires Ascending(keys) && Ascending(others) && Elements(keys) == Elements(others)
    ensures keys == others
    decreases |keys|
  {
    if keys == [] {
      if others != [] {
        HasElement(others);
      }
    } else {
      assert keys[0] in Elements(others);
      assert others[0] in Elements(keys);
      BeforeIsTotal(keys[0], others[0]);
      assert keys[0] == others[0];
      RestElements(keys);
      RestElements(others);
      AscendingIsUnique(keys[1..], others[1..]);
    }
  }

  lemma RestElements(keys: seq<Text>)
    requires Ascending(keys) && keys != []
    ensures Elements(keys[1..]) == Elements(keys) - {keys[0]}
  {
    BeforeIsTotal(keys[0], keys[0]);
    assert keys == [keys[0]] + keys[1..];
  }

  ghost predicate Distinct(keys: seq<Text>) {
    forall i, j :: 0 <= i < j < |keys| ==> keys[i] != keys[j]
  }

  /** A new key put in its place. */
  function Insert(keys: seq<Text>, key: Text): (r: seq<Text>)
    requires Ascending(keys) && key !in keys
    ensures Ascending(r) && Elements(r) == Elements(keys) + {key}
    decreases |keys|
  {
    if keys == [] then [key]
    else
      BeforeIsTotal(key, keys[0]);
      RestElements(keys);
      if Before(key, keys[0]) then
        BeforeAll(key, keys);
        Prepend(key, keys);
        [key] + keys
      else
        var rest := Insert(keys[1..], key);
        assert forall other :: other in Elements(keys[1..]) ==> Before(keys[0], other);
        Prepend(keys[0], rest);
        [keys[0]] + rest
  }

  lemma BeforeAll(key: Text, keys: seq<Text>)
    requires Ascending(keys) && keys != [] && Before(key, keys[0])
    ensures forall other :: other in Elements(keys) ==> Before(key, other)
  {
    forall other | other in Elements(keys) ensures Before(key, other) {
      if other != keys[0] {
        BeforeIsTransitive(key, keys[0], other);
      }
    }
  }

  function SortKeys(keys: seq<Text>): (r: seq<Text>)
    requires Distinct(keys)
    ensures Ascending(r) && Elements(r) == Elements(keys)
    decreases |keys|
  {
    if keys == [] then []
    else
      var last := |keys| - 1;
      assert keys == keys[..last] + [keys[last]];
      assert keys[last] !in Elements(keys[..last]);
      var rest := SortKeys(keys[..last]);
      assert forall key :: key in rest ==> key in Elements(rest);
      Insert(rest, keys[last])
  }

  /** Each text of the list is a proper prefix of a later one, or smaller where the two first differ. */
  ghost predicate PartsInOrder(keys: seq<Text>) {
    forall i, j :: 0 <= i < j < |keys| ==> Parts(keys[i], keys[j])
  }

  lemma AscendingParts(keys: seq<Text>)
    requires Ascending(keys)
    ensures PartsInOrder(keys)
  {
    forall i, j | 0 <= i < j < |keys|
      ensures Parts(keys[i], keys[j])
    {
      BeforeExactly(keys[i], keys[j]);
    }
  }
}
