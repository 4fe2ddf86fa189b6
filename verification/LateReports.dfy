/** A history in which a cached resolution goes wrong: a check runs while a listed file is away, unreported, and
    its answer is still in use once the file is back and everything is reported. */
module LateReports {
  import opened Analysis
  import opened Caches
  import opened Histories
  import opened Paths
  import opened ProjectGraph
  import opened Session
  import opened TracedReads
  import opened Wrappers

  /** A project whose source files can all be read, one of them about to be edited and another to go away. */
  datatype Scene = Scene(project: Project, disk: Disk, edited: Path, text: Text, moved: Path, specifiers: seq<string>) {
    ghost predicate Valid() {
      && IsProject(project)
      && (forall p :: p in Files() ==> disk[p].Readable? && Normalize(p) == p)
      && edited in Files() && moved in Files() && edited != moved
      && edited != [] && edited[0] == RootDir && moved != [] && moved[0] == RootDir
      && disk[edited] != Readable(text) && project.fact(StaticImports, edited, text) == Ok(specifiers)
    }

    function Files(): set<Path> {
      SourceFiles(project, disk)
    }

    /** The disk once the edit is made and the other file is back. */
    function Back(): Disk {
      disk[edited := Readable(text)]
    }

    function Away(): Disk {
      Back() - {moved}
    }
  }

  lemma {:induction false} ReadableFacts(project: Project, disk: Disk, files: seq<Path>)
    requires forall p :: p in files ==> Read(disk, p).Readable?
    ensures AllFacts(project, disk, files).Ok?
  {
    if files != [] {
      ReadableFacts(project, disk, files[1..]);
    }
  }

  lemma {:induction false} ReadableServices(project: Project, disk: Disk, facts: seq<FileFacts>, files: seq<Path>)
    requires forall p :: p in files ==> Read(disk, p).Readable?
    ensures AllServices(project, disk, facts, files).Ok?
    decreases |files|
  {
    if files != [] {
      ReadableServices(project, disk, facts, files[1..]);
    }
  }

  lemma {:induction false} ReadableImports(project: Project, disk: Disk, onDisk: Disk, memory: Memory, all: set<Path>,
                                           files: seq<Path>)
    requires forall p :: p in files ==> Read(disk, p).Readable?
    ensures AllImports(project, disk, onDisk, memory, all, files).Ok?
    decreases |files|
  {
    if files != [] {
      ReadableImports(project, disk, onDisk, memory, all, files[1..]);
    }
  }

  lemma ReadableMakesGraph(project: Project, disk: Disk, onDisk: Disk, memory: Memory, files: seq<Path>)
    requires forall p :: p in files ==> Read(disk, p).Readable?
    ensures GraphOf(project, disk, onDisk, memory, files).Ok?
  {
    ReadableFacts(project, disk, files);
    ReadableServices(project, disk, AllFacts(project, disk, files).value, files);
    ReadableImports(project, disk, onDisk, memory, FileSet(files), files);
  }

  /** After the first check every file is remembered as it was, and every resolution was made then. */
  ghost predicate AfterFirst(scene: Scene, origins: map<Path, Origin>, entries: map<Path, ReadResult>)
    requires scene.Valid()
  {
    && (forall p :: p in scene.Files() ==> p in entries && entries[p] == scene.disk[p])
    && (forall p :: p in origins ==> origins[p] == Origin(scene.disk, scene.Files(), origins[p].text))
    && (forall p :: p in origins ==> Read(scene.disk, p) == Readable(origins[p].text))
    && (forall p :: p in scene.Files() && scene.project.fact(StaticImports, p, scene.disk[p].text).Ok? ==>
          MadeFor(origins, scene.Files(), p, scene.disk[p].text))
  }

  lemma FirstCheck(scene: Scene, resolved: Memory, origins: map<Path, Origin>, entries: map<Path, ReadResult>,
                   listed: seq<Path>)
    requires scene.Valid() && MadeFromOrigins(scene.project, resolved, origins) && FileSet(listed) == scene.Files()
    requires Pass(map[], map[], listed).Reached(scene.project, resolved, origins, entries, scene.disk, scene.disk,
                                                scene.Files())
    requires View(scene.disk, entries) == scene.disk
    ensures AfterFirst(scene, origins, entries)
  {
    forall p | p in scene.Files()
      ensures p in entries && entries[p] == scene.disk[p]
      ensures scene.project.fact(StaticImports, p, scene.disk[p].text).Ok? ==>
                MadeFor(origins, scene.Files(), p, scene.disk[p].text)
    {
      assert p in FileSet(listed);
      assert Answered(scene.project, resolved, entries, scene.disk, scene.Files(), p);
      HitByOrigin(scene.project, resolved, origins, scene.Files(), p, scene.disk[p].text);
      assert At(View(scene.disk, entries), p) == At(scene.disk, p);
    }
    forall p | p in origins
      ensures origins[p] == Origin(scene.disk, scene.Files(), origins[p].text)
              && Read(scene.disk, p) == Readable(origins[p].text)
    {
      assert IsKeptOrMade(map[], origins, scene.disk, scene.disk, scene.Files(), p);
    }
  }

  /** What the second check is shown: the edit, and everything else as it was, the missing file too. */
  lemma SecondShown(scene: Scene, entries: map<Path, ReadResult>, path: Path)
    requires scene.Valid() && path in scene.Files()
    requires forall p :: p in scene.Files() ==> p in entries && entries[p] == scene.disk[p]
    ensures Read(View(scene.Away(), entries - {scene.edited}), path) == At(scene.Back(), path)
  {
  }

  ghost predicate OnlyEditedMisleads(scene: Scene, origins: map<Path, Origin>) {
    forall p :: p in scene.Files() ==>
      (Misleads(scene.project, origins, scene.Back(), scene.Files(), p) <==>
        p == scene.edited && !ProbesAsListed(scene.project, scene.Away(), scene.Files(), p, scene.specifiers))
  }

  /** After the second check only the edited file has another resolution, made while the file was away. */
  lemma SecondCheck(scene: Scene, before: map<Path, Origin>, entries: map<Path, ReadResult>, resolved: Memory,
                    origins: map<Path, Origin>,
                    now: map<Path, ReadResult>, listed: seq<Path>, memory: Memory, shown: Disk)
    requires scene.Valid() && AfterFirst(scene, before, entries) && MadeFromOrigins(scene.project, resolved, origins)
    requires FileSet(listed) == scene.Files() && shown == View(scene.Away(), entries - {scene.edited})
    requires Pass(memory, before, listed).Reached(scene.project, resolved, origins, now, shown, scene.Away(),
                                                  scene.Files())
    ensures OnlyEditedMisleads(scene, origins)
  {
    forall p | p in scene.Files()
      ensures Misleads(scene.project, origins, scene.Back(), scene.Files(), p) <==>
        p == scene.edited && !ProbesAsListed(scene.project, scene.Away(), scene.Files(), p, scene.specifiers)
    {
      SecondShown(scene, entries, p);
      assert IsKeptOrMade(before, origins, shown, scene.Away(), scene.Files(), p);
      assert IsMadeFrom(scene.project, p, resolved, origins);
      assert p in FileSet(listed);
      assert Answered(scene.project, resolved, now, shown, scene.Files(), p);
      HitByOrigin(scene.project, resolved, origins, scene.Files(), p, At(scene.Back(), p).text);
      if p == scene.edited {
        assert origins[p] == Origin(scene.Away(), scene.Files(), scene.text);
      } else if p in origins {
        assert origins[p].disk == scene.disk;
        var imports := scene.project.fact(StaticImports, p, origins[p].text);
        ListedOnDisk(scene.project, scene.disk, scene.Files(), p, imports.value);
      }
    }
  }

  /** Every listed file of the second check can be read. */
  lemma SecondReads(scene: Scene, entries: map<Path, ReadResult>, listed: seq<Path>, memory: Memory, shown: Disk)
    requires scene.Valid() && FileSet(listed) == scene.Files() && shown == View(scene.Away(), entries - {scene.edited})
    requires forall p :: p in scene.Files() ==> p in entries && entries[p] == scene.disk[p]
    ensures GraphOf(scene.project, shown, scene.Away(), memory, listed).Ok?
  {
    forall p | p in listed
      ensures Read(shown, p).Readable?
    {
      assert p in FileSet(listed);
      SecondShown(scene, entries, p);
    }
    ReadableMakesGraph(scene.project, shown, scene.Away(), memory, listed);
  }

  lemma ReportedWhere(root: Path, path: Path)
    requires IsAbsolute(path) && Normalize(path) == path
    ensures Absolute(root, path) == path
  {
  }

  /** A check; an edit, and a file that goes away unreported; the edit reported and a check; the file back and
      reported, and a check. */
  function Happenings(scene: Scene): seq<Event> {
    [Check, Edit(scene.Away()), Report([scene.edited]), Check, Edit(scene.Back()), Report([scene.moved]), Check]
  }

  lemma OneReport(disk: Disk, root: Path, path: Path, stale: set<Path>, listed: Option<set<Path>>,
                  entries: map<Path, ReadResult>)
    requires IsAbsolute(path) && Normalize(path) == path && path in disk
    ensures UncoveredByAll(stale, disk, root, [path]) == stale - {path}
    ensures UnreportedByAll(entries, disk, root, [path]) == entries - {path}
    ensures listed.Some? && path in listed.value ==> ListedAfterReports(listed, disk, root, [path]) == listed
  {
    ReportedWhere(root, path);
    assert [path][1..] == [];
    assert ListedAfterReport(listed, disk, path) == if listed.Some? && path in listed.value then listed else None;
  }

  lemma ReportsOne(project: Project, root: Path, disk: Disk, stale: set<Path>, files: set<Path>, path: Path)
    requires IsAbsolute(path) && Normalize(path) == path && path in disk && path in files
    ensures Next(project, root, World(disk, stale, Some(files)), Report([path]))
            == World(disk, stale - {path}, Some(files))
  {
    OneReport(disk, root, path, stale, Some(files), map[]);
  }

  lemma ScenesChange(scene: Scene)
    requires scene.Valid()
    ensures Changed(scene.disk, scene.Away()) == {scene.edited, scene.moved}
    ensures Changed(scene.Away(), scene.Back()) == {scene.moved}
  {
  }

  /** The world before the second check, and before the last. */
  lemma WorldsOf(scene: Scene, root: Path)
    requires scene.Valid()
    ensures var listed := Some(scene.Files());
            && WorldAt(scene.project, root, scene.disk, Happenings(scene), 2)
               == World(scene.Away(), {scene.edited, scene.moved}, listed)
            && WorldAt(scene.project, root, scene.disk, Happenings(scene), 3)
               == World(scene.Away(), {scene.moved}, listed)
            && WorldAt(scene.project, root, scene.disk, Happenings(scene), 5)
               == World(scene.Back(), {scene.moved}, listed)
            && WorldAt(scene.project, root, scene.disk, Happenings(scene), 6) == World(scene.Back(), {}, listed)
  {
    var project, disk, events, listed := scene.project, scene.disk, Happenings(scene), Some(scene.Files());
    var both, one := {scene.edited, scene.moved}, {scene.moved};
    ScenesChange(scene);
    assert WorldAt(project, root, disk, events, 1) == Next(project, root, World(disk, {}, None), Check);
    assert {} + both == both && both - {scene.edited} == one && one + one == one && one - one == {};
    assert WorldAt(project, root, disk, events, 2) == Next(project, root, World(disk, {}, listed), Edit(scene.Away()));
    ReportsOne(project, root, scene.Away(), both, scene.Files(), scene.edited);
    assert WorldAt(project, root, disk, events, 3) == Next(project, root, World(scene.Away(), both, listed), events[2]);
    assert WorldAt(project, root, disk, events, 4) == Next(project, root, World(scene.Away(), one, listed), Check);
    assert WorldAt(project, root, disk, events, 5)
           == Next(project, root, World(scene.Away(), one, listed), Edit(scene.Back()));
    ReportsOne(project, root, scene.Back(), one, scene.Files(), scene.moved);
    assert WorldAt(project, root, disk, events, 6) == Next(project, root, World(scene.Back(), one, listed), events[5]);
  }

  lemma FirstCheckRemembers(scene: Scene, after: Remembered, r: Result<Graph, string>)
    requires scene.Valid() && Checked(scene.project, World(scene.disk, {}, None), NOTHING, after, r)
    ensures AfterFirst(scene, after.origins, after.entries)
  {
    var listed := scene.project.listing(scene.Files());
    assert FileSet(listed) == scene.Files();
    forall p | p in listed
      ensures Read(scene.disk, p).Readable?
    {
      assert p in FileSet(listed);
    }
    ShownIsDisk(scene.disk, map[]);
    assert Restricted<ResolutionEntry>(map[], scene.Files()) == map[]
           && Restricted<Origin>(map[], scene.Files()) == map[];
    ReadableMakesGraph(scene.project, scene.disk, scene.disk, map[], listed);
    FirstCheck(scene, after.resolved, after.origins, after.entries, listed);
  }

  lemma SecondCheckRemembers(scene: Scene, before: Remembered, after: Remembered, r: Result<Graph, string>)
    requires scene.Valid() && AfterFirst(scene, before.origins, before.entries)
    requires MadeFromOrigins(scene.project, before.resolved, before.origins)
    requires Checked(scene.project, World(scene.Away(), {scene.moved}, Some(scene.Files())),
                     before.(entries := before.entries - {scene.edited}), after, r)
    ensures OnlyEditedMisleads(scene, after.origins)
  {
    var listed := scene.project.listing(scene.Files());
    assert FileSet(listed) == scene.Files();
    var shown := View(scene.Away(), before.entries - {scene.edited});
    NothingLost(scene.project, before.resolved, before.origins, scene.Files());
    SecondReads(scene, before.entries, listed, before.resolved, shown);
    SecondCheck(scene, before.origins, before.entries, after.resolved, after.origins, after.entries, listed,
                before.resolved, shown);
  }

  lemma MemoryBeforeLast(scene: Scene, root: Path, outputs: seq<Option<Result<Graph, string>>>, memory: seq<Remembered>)
    requires scene.Valid() && |outputs| == 7
    requires Follows(scene.project, root, scene.disk, Happenings(scene), outputs, memory)
    ensures OnlyEditedMisleads(scene, memory[6].origins)
  {
    var project, disk, events := scene.project, scene.disk, Happenings(scene);
    WorldsOf(scene, root);
    assert FollowsAt(project, root, disk, events, outputs, memory, 0);
    FirstCheckRemembers(scene, memory[1], outputs[0].value);
    assert FollowsAt(project, root, disk, events, outputs, memory, 1);
    assert FollowsAt(project, root, disk, events, outputs, memory, 2);
    OneReport(scene.Away(), root, scene.edited, {}, None, memory[2].entries);
    assert FollowsAt(project, root, disk, events, outputs, memory, 3);
    SecondCheckRemembers(scene, memory[2], memory[4], outputs[3].value);
    assert FollowsAt(project, root, disk, events, outputs, memory, 4);
    assert FollowsAt(project, root, disk, events, outputs, memory, 5);
  }

  /** The last check is right exactly when, for the edited file, no import's first listed candidate was the file
      that was away. */
  lemma CheckedWhileAway(scene: Scene, root: Path, outputs: seq<Option<Result<Graph, string>>>, memory: seq<Remembered>)
    requires scene.Valid() && |outputs| == 7
    requires Follows(scene.project, root, scene.disk, Happenings(scene), outputs, memory)
    ensures outputs[6] == Some(CleanCheck(scene.project, scene.Back()))
            <==> ProbesAsListed(scene.project, scene.Away(), scene.Files(), scene.edited, scene.specifiers)
  {
    WorldsOf(scene, root);
    MemoryBeforeLast(scene, root, outputs, memory);
    BackMakesGraph(scene);
    assert Happenings(scene)[6] == Check;
    assert Listing(scene.project, WorldAt(scene.project, root, scene.disk, Happenings(scene), 6)) == scene.Files();
    assert OnlyEditedMisleads(scene, memory[6].origins) && scene.edited in scene.Files();
    HistoriesAreRightExactly(scene.project, root, scene.disk, Happenings(scene), outputs, memory, 6);
  }

  /** The session itself goes through it, and errs so. */
  method GoThrough(scene: Scene, root: Path) returns (last: Result<Graph, string>)
    requires scene.Valid()
    ensures last == CleanCheck(scene.project, scene.Back())
            <==> ProbesAsListed(scene.project, scene.Away(), scene.Files(), scene.edited, scene.specifiers)
  {
    ghost var memory;
    var outputs;
    outputs, memory := RunHistory(scene.project, root, scene.disk, Happenings(scene));
    CheckedWhileAway(scene, root, outputs, memory);
    assert FollowsAt(scene.project, root, scene.disk, Happenings(scene), outputs, memory, 6);
    last := outputs[6].value;
  }

  lemma BackMakesGraph(scene: Scene)
    requires scene.Valid()
    ensures SourceFiles(scene.project, scene.Back()) == scene.Files() && CleanCheck(scene.project, scene.Back()).Ok?
  {
    var back := scene.Back();
    assert SourceFiles(scene.project, back) == scene.Files();
    var listed := scene.project.listing(scene.Files());
    forall p | p in listed
      ensures Read(back, p).Readable?
    {
      assert p in FileSet(listed);
    }
    ReadableMakesGraph(scene.project, back, back, map[], listed);
  }

  /** Two files, and an edit after which the first imports the second: the last check is wrong. */
  function TwoFiles(base: Project): Scene {
    var main, other := [RootDir, Normal("main")], [RootDir, Normal("other")];
    Scene(base.(isSource := path => path == main || path == other,
                fact := (kind: FactKind, path: Path, text: Text) => Ok(if text == "import" then ["other"] else []),
                virtualModule := specifier => None,
                resolutionCandidates := (path: Path, specifier: string) => [other]),
          map[main := Readable(""), other := Readable("")], main, "import", other, ["other"])
  }

  lemma TwoFilesMislead(base: Project)
    requires IsProject(base)
    ensures var scene := TwoFiles(base);
            scene.Valid() && !ProbesAsListed(scene.project, scene.Away(), scene.Files(), scene.edited, scene.specifiers)
  {
    var scene := TwoFiles(base);
    var main, other := scene.edited, scene.moved;
    assert main[1] != other[1];
    assert scene.disk.Keys == {main, other} && scene.Files() == {main, other};
    assert NormalizeOnto([], main) == NormalizeOnto([RootDir], main[1..]) == main;
    assert NormalizeOnto([], other) == NormalizeOnto([RootDir], other[1..]) == other;
    assert FirstListed(scene.Files(), scene.project.resolutionCandidates(main, scene.specifiers[0])) == Some(other);
    assert other !in scene.Away();
  }
}
