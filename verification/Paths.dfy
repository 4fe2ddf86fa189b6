/** Paths as component lists, and their lexical normal form. */
module Paths {

  datatype Component = RootDir | CurDir | ParentDir | Normal(name: string)

  type Path = seq<Component>

  /** `PathBuf::pop`: the empty path and the root stay. */
  predicate CanPop(path: Path) {
    path != [] && path != [RootDir]
  }

  /** One component folded onto a normalized prefix. */
  function Fold(path: Path, c: Component): Path {
    match c
    case CurDir => path
    case ParentDir => if CanPop(path) then path[..|path| - 1] else path + [ParentDir]
    case RootDir => [RootDir]
    case Normal(_) => path + [c]
  }

  function NormalizeOnto(path: Path, rest: Path): Path
    decreases |rest|
  {
    if rest == [] then path else NormalizeOnto(Fold(path, rest[0]), rest[1..])
  }

  function Normalize(path: Path): Path {
    NormalizeOnto([], path)
  }

  /** No `.`, the root only in front, and `..` only where there was nothing to pop. */
  predicate IsNormal(path: Path) {
    forall i :: 0 <= i < |path| ==>
      match path[i]
      case CurDir => false
      case RootDir => i == 0
      case ParentDir => i == 0 || (i == 1 && path[0] == RootDir)
      case Normal(_) => true
  }

  lemma {:induction false} NormalizeOntoIsNormal(path: Path, rest: Path)
    requires IsNormal(path)
    ensures IsNormal(NormalizeOnto(path, rest))
    decreases |rest|
  {
    if rest != [] {
      NormalizeOntoIsNormal(Fold(path, rest[0]), rest[1..]);
    }
  }

  lemma {:induction false} NormalIsKept(path: Path, rest: Path)
    requires IsNormal(path + rest)
    ensures NormalizeOnto(path, rest) == path + rest
    decreases |rest|
  {
    if rest == [] {
      assert path + rest == path;
    } else {
      assert (path + rest)[|path|] == rest[0];
      assert |path| == 1 ==> (path + rest)[0] == path[0] && path == [path[0]];
      assert Fold(path, rest[0]) == path + [rest[0]];
      assert path + [rest[0]] + rest[1..] == path + rest;
      NormalIsKept(path + [rest[0]], rest[1..]);
    }
  }

  /** Normalizing is idempotent, so a cache keyed by normal forms has one entry a file. */
  lemma NormalizeIdempotent(path: Path)
    ensures IsNormal(Normalize(path)) && Normalize(Normalize(path)) == Normalize(path)
  {
    NormalizeOntoIsNormal([], path);
    assert [] + Normalize(path) == Normalize(path);
    NormalIsKept([], Normalize(path));
  }

  // ----- Which file a path names -----

  lemma {:induction false} FoldInTurn(path: Path, first: Path, rest: Path)
    ensures NormalizeOnto(path, first + rest) == NormalizeOnto(NormalizeOnto(path, first), rest)
    decreases |first|
  {
    if first == [] {
      assert first + rest == rest;
    } else {
      assert (first + rest)[1..] == first[1..] + rest;
      FoldInTurn(Fold(path, first[0]), first[1..], rest);
    }
  }

  /** Into a directory and out of it again, on the way. */
  function Detour(before: Path, name: string, after: Path): Path {
    before + [Normal(name), ParentDir] + after
  }

  /** Staying where one is, on the way. */
  function Pause(before: Path, after: Path): Path {
    before + [CurDir] + after
  }

  lemma DetourFolds(before: Path, name: string, after: Path)
    ensures Normalize(Detour(before, name, after)) == Normalize(before + after)
  {
    var normal := Normalize(before);
    var detour := [Normal(name), ParentDir];
    FoldInTurn([], before + detour, after);
    FoldInTurn([], before, detour);
    FoldInTurn([], before, after);
    assert (normal + [Normal(name)])[..|normal|] == normal;
    assert CanPop(normal + [Normal(name)]) by {
      assert (normal + [Normal(name)])[|normal|] == Normal(name);
    }
    assert detour[1..] == [ParentDir] && [ParentDir][1..] == [];
    assert NormalizeOnto(normal + [Normal(name)], [ParentDir]) == normal;
  }

  lemma PauseFolds(before: Path, after: Path)
    ensures Normalize(Pause(before, after)) == Normalize(before + after)
  {
    FoldInTurn([], before + [CurDir], after);
    FoldInTurn([], before, [CurDir]);
    FoldInTurn([], before, after);
  }

  /** Where one is, as the names below the root; above the root is the root. */
  type Place = seq<string>

  function Go(at: Place, c: Component): Place {
    match c
    case CurDir => at
    case ParentDir => if at == [] then [] else at[..|at| - 1]
    case RootDir => []
    case Normal(name) => at + [name]
  }

  /** Where a path leads from `at`, one component after the other. */
  function Walk(at: Place, path: Path): Place
    decreases |path|
  {
    if path == [] then at else Walk(Go(at, path[0]), path[1..])
  }

  lemma {:induction false} WalkInTurn(at: Place, first: Path, rest: Path)
    ensures Walk(at, first + rest) == Walk(Walk(at, first), rest)
    decreases |first|
  {
    if first == [] {
      assert first + rest == rest;
    } else {
      assert (first + rest)[1..] == first[1..] + rest;
      WalkInTurn(Go(at, first[0]), first[1..], rest);
    }
  }

  lemma WalkOn(at: Place, path: Path, c: Component)
    ensures Walk(at, path + [c]) == Go(Walk(at, path), c)
  {
    WalkInTurn(at, path, [c]);
  }

  /** A step taken and taken back. */
  lemma WalkBack(at: Place, path: Path)
    requires path != [] && path[|path| - 1].Normal?
    ensures Go(Walk(at, path), ParentDir) == Walk(at, path[..|path| - 1])
  {
    var before, last := path[..|path| - 1], path[|path| - 1];
    assert path == before + [last];
    WalkOn(at, before, last);
    assert (Walk(at, before) + [last.name])[..|Walk(at, before)|] == Walk(at, before);
  }

  predicate IsAbsolute(path: Path) {
    path != [] && path[0] == RootDir
  }

  lemma FoldLeads(at: Place, path: Path, c: Component)
    requires IsNormal(path) && IsAbsolute(path)
    ensures IsAbsolute(Fold(path, c)) && Walk(at, Fold(path, c)) == Go(Walk(at, path), c)
  {
    if c == ParentDir && CanPop(path) {
      var last := |path| - 1;
      if path[last].Normal? {
        WalkBack(at, path);
      } else {
        assert path == [RootDir, ParentDir] && path[..last] == [RootDir];
        assert path[1..] == [ParentDir];
      }
    } else if c == RootDir {
      assert Walk(at, [RootDir]) == [];
    } else if c != CurDir {
      WalkOn(at, path, c);
    }
  }

  lemma {:induction false} FoldsLead(at: Place, path: Path, rest: Path)
    requires IsNormal(path) && IsAbsolute(path)
    ensures Walk(at, NormalizeOnto(path, rest)) == Walk(Walk(at, path), rest)
    decreases |rest|
  {
    if rest != [] {
      FoldLeads(at, path, rest[0]);
      FoldsLead(at, Fold(path, rest[0]), rest[1..]);
    }
  }

  /** The normal form of an absolute path names what the path names. */
  lemma AbsoluteIsKept(at: Place, path: Path)
    requires IsAbsolute(path)
    ensures Walk(at, Normalize(path)) == Walk(at, path)
  {
    assert [] + [RootDir] == [RootDir] && [RootDir][1..] == [];
    FoldsLead(at, [RootDir], path[1..]);
  }

  // ----- Relative paths -----

  predicate IsRelative(path: Path) {
    RootDir !in path
  }

  /** How far below its start a relative path ends; negative when above it. */
  function Depth(path: Path): int {
    if path == [] then 0
    else Depth(path[1..]) + match path[0] case Normal(_) => 1 case ParentDir => -1 case _ => 0
  }

  lemma {:induction false} DepthInTurn(first: Path, rest: Path)
    ensures Depth(first + rest) == Depth(first) + Depth(rest)
  {
    if first == [] {
      assert first + rest == rest;
    } else {
      assert (first + rest)[1..] == first[1..] + rest;
      DepthInTurn(first[1..], rest);
    }
  }

  lemma {:induction false} DepthIsBounded(path: Path)
    ensures -|path| <= Depth(path) <= |path|
  {
    if path != [] {
      DepthIsBounded(path[1..]);
    }
  }

  /** From far enough below the root, the depth is what a walk adds. */
  lemma {:induction false} WalkAddsDepth(at: Place, path: Path)
    requires IsRelative(path) && |at| >= |path|
    ensures |Walk(at, path)| == |at| + Depth(path)
    decreases |path|
  {
    if path != [] {
      assert path[0] in path;
      assert IsRelative(path[1..]);
      WalkAddsDepth(Go(at, path[0]), path[1..]);
    }
  }

  /** Folding keeps the depth, or loses two steps up: a second one takes back the first. */
  lemma FoldDepth(path: Path, c: Component)
    requires IsNormal(path) && IsRelative(path) && c != RootDir
    ensures IsNormal(Fold(path, c)) && IsRelative(Fold(path, c)) && |Fold(path, c)| <= |path| + 1
    ensures path == [ParentDir] && c == ParentDir ==> Depth(path) == -1 && Fold(path, c) == []
    ensures !(path == [ParentDir] && c == ParentDir) ==>
              && Depth(Fold(path, c)) == Depth(path) + Depth([c])
              && forall at :: Walk(at, Fold(path, c)) == Go(Walk(at, path), c)
  {
    if c == ParentDir && path != [] && path != [ParentDir] {
      var before, last := path[..|path| - 1], path[|path| - 1];
      assert last != RootDir;
      assert last.Normal?;
      assert path == before + [last];
      DepthInTurn(before, [last]);
      forall at: Place
        ensures Walk(at, before) == Go(Walk(at, path), c)
      {
        WalkBack(at, path);
      }
    } else if c != CurDir && !(path == [ParentDir] && c == ParentDir) {
      DepthInTurn(path, [c]);
      forall at: Place
        ensures Walk(at, path + [c]) == Go(Walk(at, path), c)
      {
        WalkOn(at, path, c);
      }
    }
  }

  lemma {:induction false} NamesDepth(path: Path)
    requires forall c :: c in path ==> c.Normal?
    ensures Depth(path) == |path|
  {
    if path != [] {
      assert path[0] in path;
      NamesDepth(path[1..]);
    }
  }

  lemma NormalDepth(path: Path)
    requires IsNormal(path) && IsRelative(path)
    ensures Depth(path) >= -1 && (Depth(path) == -1 <==> path == [ParentDir])
  {
    if path != [] {
      assert path[0] in path;
      forall i | 0 < i < |path|
        ensures path[i].Normal?
      {
        assert path[i] in path;
      }
      NamesDepth(path[1..]);
    }
  }

  /** Starting at this depth, the path never gets more than one step above where depth 0 is. */
  ghost predicate ClimbsOnce(depth: int, path: Path) {
    forall k {:trigger path[..k]} :: 0 <= k <= |path| ==> depth + Depth(path[..k]) >= -1
  }

  lemma ClimbsOnceStep(depth: int, path: Path)
    requires path != [] && depth >= -1
    ensures ClimbsOnce(depth, path) <==> ClimbsOnce(depth + Depth([path[0]]), path[1..])
  {
    var rest := path[1..];
    forall k | 0 <= k <= |rest|
      ensures Depth(path[..k + 1]) == Depth([path[0]]) + Depth(rest[..k])
    {
      assert path[..k + 1] == [path[0]] + rest[..k];
      DepthInTurn([path[0]], rest[..k]);
    }
    if ClimbsOnce(depth, path) {
      forall k | 0 <= k <= |rest|
        ensures depth + Depth([path[0]]) + Depth(rest[..k]) >= -1
      {
        assert depth + Depth(path[..k + 1]) >= -1;
      }
    }
    if ClimbsOnce(depth + Depth([path[0]]), rest) {
      forall k | 0 <= k <= |path|
        ensures depth + Depth(path[..k]) >= -1
      {
        if k > 0 {
          assert depth + Depth([path[0]]) + Depth(rest[..k - 1]) >= -1;
        }
      }
    }
  }

  /** Folding a relative path loses steps up exactly when it climbs twice, and loses nothing else. */
  lemma {:induction false} FoldsDrift(path: Path, rest: Path)
    requires IsNormal(path) && IsRelative(path) && IsRelative(rest)
    ensures var r := NormalizeOnto(path, rest);
            && IsRelative(r) && |r| <= |path| + |rest|
            && Depth(r) >= Depth(path) + Depth(rest)
            && (Depth(r) == Depth(path) + Depth(rest) <==> ClimbsOnce(Depth(path), rest))
    ensures ClimbsOnce(Depth(path), rest) ==>
              forall at :: Walk(at, NormalizeOnto(path, rest)) == Walk(Walk(at, path), rest)
    decreases |rest|
  {
    NormalDepth(path);
    if rest == [] {
      assert rest[..0] == [];
    } else {
      var c := rest[0];
      assert c in rest && IsRelative(rest[1..]);
      FoldDepth(path, c);
      FoldsDrift(Fold(path, c), rest[1..]);
      ClimbsOnceStep(Depth(path), rest);
      assert rest == [c] + rest[1..];
      DepthInTurn([c], rest[1..]);
      if path == [ParentDir] && c == ParentDir {
        assert rest[1..][..0] == [];
        assert !ClimbsOnce(Depth(path) + Depth([c]), rest[1..]);
      }
    }
  }

  ghost predicate NamesTheSame(path: Path, other: Path) {
    forall at :: Walk(at, path) == Walk(at, other)
  }

  /** The normal form of a relative path names what the path names exactly when the path never climbs two
      steps above its start: a second leading `..` takes back the first. */
  lemma RelativeIsKeptExactly(path: Path)
    requires IsRelative(path)
    ensures NamesTheSame(Normalize(path), path) <==> ClimbsOnce(0, path)
  {
    FoldsDrift([], path);
    if NamesTheSame(Normalize(path), path) {
      var deep := seq(|path|, _ => "");
      assert Walk(deep, Normalize(path)) == Walk(deep, path);
      WalkAddsDepth(deep, path);
      WalkAddsDepth(deep, Normalize(path));
    }
  }

  /** `../..` becomes the empty path. */
  lemma TwoStepsUpAreLost()
    ensures Normalize([ParentDir, ParentDir]) == []
    ensures !NamesTheSame(Normalize([ParentDir, ParentDir]), [ParentDir, ParentDir])
  {
    var path := [ParentDir, ParentDir];
    assert path[1..] == [ParentDir] && [ParentDir][1..] == [] && [] + [ParentDir] == [ParentDir];
    assert path[..2] == path;
    RelativeIsKeptExactly(path);
  }
}
