/** The per-file caches of a session. Contents are remembered until invalidated; every derived fact is
    kept with the content hashes it was computed from and reused while they hold. */
module Caches {
  import opened Analysis
  import opened Paths
  import opened TracedReads
  import opened Wrappers

  // ----- Remembered contents -----

  ghost predicate NormalKeys(entries: map<Path, ReadResult>) {
    forall p {:trigger IsNormalKey(entries, p)} :: IsNormalKey(entries, p)
  }

  ghost predicate IsNormalKey(entries: map<Path, ReadResult>, path: Path) {
    path in entries ==> Normalize(path) == path
  }

  lemma FewerKeys(entries: map<Path, ReadResult>, left: map<Path, ReadResult>)
    requires NormalKeys(entries) && left.Keys <= entries.Keys
    ensures NormalKeys(left)
  {
    forall p
      ensures IsNormalKey(left, p)
    {
      assert IsNormalKey(entries, p);
    }
  }

  /** The disk as the cache shows it: remembered reads, failed ones included, in front of the real one. */
  ghost function View(disk: Disk, entries: map<Path, ReadResult>): Disk {
    map p | p in disk.Keys + entries.Keys && (if p in entries then entries[p] else disk[p]) != Missing
      :: if p in entries then entries[p] else disk[p]
  }

  /** The hash of what can be read at a path. */
  function HashAt(project: Project, disk: Disk, path: Path): Option<nat> {
    match Read(disk, path)
    case Readable(text) => Some(project.hash(text))
    case _ => None
  }

  /** Another path is of the same entry, and this is its read too. */
  ghost predicate ReadsAs(disk: Disk, path: Path, other: Path, r: ReadResult) {
    Normalize(other) == Normalize(path) && r == Read(disk, other)
  }

  /** Leaving out what leads nowhere on the way leaves the read what it was. */
  ghost predicate ReadsPastDetours(disk: Disk, path: Path, r: ReadResult) {
    && (forall before, name, after ::
          path == Detour(before, name, after) ==> ReadsAs(disk, path, before + after, r))
    && (forall before, after :: path == Pause(before, after) ==> ReadsAs(disk, path, before + after, r))
  }

  lemma DetoursShareEntries(disk: Disk, path: Path)
    ensures ReadsPastDetours(disk, path, Read(disk, path))
  {
    forall before, name, after | path == Detour(before, name, after)
      ensures ReadsAs(disk, path, before + after, Read(disk, path))
    {
      DetourFolds(before, name, after);
    }
    forall before, after | path == Pause(before, after)
      ensures ReadsAs(disk, path, before + after, Read(disk, path))
    {
      PauseFolds(before, after);
    }
  }

  class SourceCache {
    var entries: map<Path, ReadResult>

    constructor ()
      ensures entries == map[]
    {
      entries := map[];
    }

    /** A read is remembered; the path as given is tried before its normal form. Paths that differ by a
        detour share the entry and the answer. */
    method Get(disk: Disk, path: Path) returns (r: ReadResult)
      requires NormalKeys(entries)
      modifies this
      ensures NormalKeys(entries)
      ensures r == Read(View(disk, old(entries)), path)
      ensures View(disk, entries) == View(disk, old(entries))
      ensures KeepsReads(old(entries), entries) && entries.Keys == old(entries.Keys) + {Normalize(path)}
      ensures ReadsPastDetours(View(disk, old(entries)), path, r)
    {
      NormalizeIdempotent(path);
      DetoursShareEntries(View(disk, entries), path);
      assert IsNormalKey(entries, path);
      if path in entries {
        return entries[path];
      }
      var normal := Normalize(path);
      if normal in entries {
        return entries[normal];
      }
      r := At(disk, normal);
      ghost var before := entries;
      entries := entries[normal := r];
      assert forall p :: IsNormalKey(before, p) ==> IsNormalKey(entries, p);
    }

    method Hash(project: Project, disk: Disk, path: Path) returns (r: Option<nat>)
      requires NormalKeys(entries)
      modifies this
      ensures NormalKeys(entries)
      ensures r == HashAt(project, View(disk, old(entries)), path)
      ensures View(disk, entries) == View(disk, old(entries))
    {
      var source := Get(disk, path);
      r := if source.Readable? then Some(project.hash(source.text)) else None;
    }

    method Invalidate(path: Path)
      modifies this
      ensures entries == old(entries) - {Normalize(path)}
    {
      entries := entries - {Normalize(path)};
    }

    /** Drops everything at or under `path`. */
    method InvalidateUnder(path: Path)
      modifies this
      ensures entries == map p | p in old(entries) && !(Normalize(path) <= p) :: old(entries)[p]
    {
      entries := map p | p in entries && !(Normalize(path) <= p) :: entries[p];
    }
  }

  // ----- Derived facts -----

  datatype Keyed = Keyed(sourceHash: nat, value: Fact)

  datatype DiscoveryEntry = DiscoveryEntry(sourceHash: nat, dependencies: seq<(Path, Option<nat>)>,
                                           value: Result<string, string>)

  /** An entry is right for every text with its hash. */
  ghost predicate KeyedHolds(project: Project, kind: FactKind, path: Path, entry: Keyed) {
    forall text :: project.hash(text) == entry.sourceHash ==> entry.value == project.fact(kind, path, text)
  }

  ghost predicate DependenciesHold(project: Project, disk: Disk, dependencies: seq<(Path, Option<nat>)>) {
    forall i :: 0 <= i < |dependencies| ==> HashAt(project, disk, dependencies[i].0) == dependencies[i].1
  }

  /** An entry is right on every disk on which its hashes hold. */
  ghost predicate DiscoveryHolds(project: Project, path: Path, entry: DiscoveryEntry) {
    forall disk: Disk, text ::
      project.hash(text) == entry.sourceHash && DependenciesHold(project, disk, entry.dependencies) ==>
      entry.value == Discover(project, disk, path, text).value
  }

  /** An entry is right for every text and file set with its hashes, on any disk that has those files. */
  ghost predicate ResolutionHolds(project: Project, path: Path, entry: ResolutionEntry) {
    forall disk: Disk, files: set<Path>, text ::
      && project.hash(text) == entry.sourceHash && project.fileSetHash(files) == entry.fileSet
      && files <= disk.Keys && project.fact(StaticImports, path, text).Ok? ==>
      entry.value == ResolveImports(project, disk, files, path, project.fact(StaticImports, path, text).value)
  }

  /** What a resolution was made from: the disk probed, the files listed, the importer's text. */
  datatype Origin = Origin(disk: Disk, files: set<Path>, text: Text)

  function MadeFrom(project: Project, path: Path, origin: Origin): ResolutionEntry {
    var imports := project.fact(StaticImports, path, origin.text);
    ResolutionEntry(project.hash(origin.text), project.fileSetHash(origin.files),
                    if imports.Ok? then ResolveImports(project, origin.disk, origin.files, path, imports.value) else [])
  }

  /** Each cached resolution was made from its origin. */
  ghost predicate MadeFromOrigins(project: Project, memory: Memory, origins: map<Path, Origin>) {
    forall p {:trigger IsMadeFrom(project, p, memory, origins)} :: IsMadeFrom(project, p, memory, origins)
  }

  ghost predicate IsMadeFrom(project: Project, path: Path, memory: Memory, origins: map<Path, Origin>) {
    && (path in memory <==> path in origins)
    && (path in memory ==>
          project.fact(StaticImports, path, origins[path].text).Ok?
            && memory[path] == MadeFrom(project, path, origins[path]))
  }

  /** A hit is an answer made from the same files and the same text. */
  lemma HitByOrigin(project: Project, memory: Memory, origins: map<Path, Origin>, files: set<Path>, path: Path,
                    text: Text)
    requires IsProject(project) && MadeFromOrigins(project, memory, origins)
    ensures Hit(project, memory, files, path, text) <==> MadeFor(origins, files, path, text)
  {
    assert IsMadeFrom(project, path, memory, origins);
  }

  predicate MadeFor(origins: map<Path, Origin>, files: set<Path>, path: Path, text: Text) {
    path in origins && origins[path].files == files && origins[path].text == text
  }

  /** What is left of a cache when only some files stay. */
  function Restricted<T>(cached: map<Path, T>, files: set<Path>): map<Path, T> {
    map p | p in cached && p in files :: cached[p]
  }

  /** A cached resolution that is in use, for the text and the files it was made from, and was made while a
      listed file that is the first candidate of an import was away. */
  ghost predicate Misleads(project: Project, origins: map<Path, Origin>, disk: Disk, files: set<Path>, path: Path) {
    && path in origins && MadeFor(origins, files, path, origins[path].text)
    && Read(disk, path) == Readable(origins[path].text)
    && var imports := project.fact(StaticImports, path, origins[path].text);
       imports.Ok? && !ProbesAsListed(project, origins[path].disk, files, path, imports.value)
  }

  /** Reading only adds to what is remembered. */
  ghost predicate KeepsReads(before: map<Path, ReadResult>, after: map<Path, ReadResult>) {
    forall p :: p in before ==> p in after && after[p] == before[p]
  }

  lemma RestrictedFromOrigins(project: Project, memory: Memory, origins: map<Path, Origin>, files: set<Path>)
    requires MadeFromOrigins(project, memory, origins)
    ensures MadeFromOrigins(project, Restricted(memory, files), Restricted(origins, files))
  {
    var left, leftOrigins := Restricted(memory, files), Restricted(origins, files);
    forall p
      ensures IsMadeFrom(project, p, left, leftOrigins)
    {
      assert IsMadeFrom(project, p, memory, origins);
    }
  }

  lemma MadeHere(project: Project, memory: Memory, origins: map<Path, Origin>, path: Path, origin: Origin)
    requires MadeFromOrigins(project, memory, origins) && project.fact(StaticImports, path, origin.text).Ok?
    ensures MadeFromOrigins(project, memory[path := MadeFrom(project, path, origin)], origins[path := origin])
  {
    var kept, keptOrigins := memory[path := MadeFrom(project, path, origin)], origins[path := origin];
    forall p
      ensures IsMadeFrom(project, p, kept, keptOrigins)
    {
      assert IsMadeFrom(project, p, memory, origins);
    }
  }

  datatype CacheStats = CacheStats(discoveries: nat, staticImports: nat, resolutions: nat)

  /** One more candidate consulted: what was, then the rest unless it can be read. */
  lemma ConsultStep(disk: Disk, candidates: seq<Path>, i: nat, consulted: seq<Path>)
    requires i < |candidates|
    ensures var now, next, read := Consult(disk, candidates[i..]), Consult(disk, candidates[i + 1..]),
            Read(disk, candidates[i]);
            if read.Readable? then
              consulted + now.0 == consulted + [candidates[i]] && now.1 == Some((candidates[i], read.text))
            else consulted + now.0 == (consulted + [candidates[i]]) + next.0 && now.1 == next.1
  {
    assert candidates[i..][0] == candidates[i] && candidates[i..][1..] == candidates[i + 1..];
  }

  class GraphCache {
    const project: Project
    const sources: SourceCache
    var classifications: map<Path, string>
    var keyed: map<(FactKind, Path), Keyed>
    var discoveries: map<Path, DiscoveryEntry>
    var resolved: Memory
    ghost var origins: map<Path, Origin>
    var fileSet: nat
    var stats: CacheStats

    constructor (project: Project)
      requires IsProject(project)
      ensures Valid() && this.project == project
      ensures fresh(sources) && sources.entries == map[] && resolved == map[] && origins == map[]
    {
      this.project := project;
      sources := new SourceCache();
      classifications, keyed, discoveries, resolved := map[], map[], map[], map[];
      fileSet, stats, origins := 0, CacheStats(0, 0, 0), map[];
    }

    /** Every fact is right wherever its hashes hold; what the disk holds does not matter. Every resolution
        is that of its origin. */
    ghost predicate Valid()
      reads this, sources
    {
      && IsProject(project)
      && NormalKeys(sources.entries)
      && (forall p :: p in classifications ==> classifications[p] == project.classify(p))
      && (forall key :: key in keyed ==> KeyedHolds(project, key.0, key.1, keyed[key]))
      && (forall p :: p in discoveries ==> DiscoveryHolds(project, p, discoveries[p]))
      && MadeFromOrigins(project, resolved, origins)
    }

    ghost function Shown(disk: Disk): Disk
      reads sources
    {
      View(disk, sources.entries)
    }

    method SetFileSet(files: set<Path>)
      requires Valid()
      modifies this`fileSet
      ensures Valid() && fileSet == project.fileSetHash(files)
    {
      fileSet := project.fileSetHash(files);
    }

    /** Forgets facts about files no longer in the project. */
    method RetainFiles(files: set<Path>)
      requires Valid()
      modifies this`classifications, this`keyed, this`discoveries, this`resolved, this`origins
      ensures Valid()
      ensures classifications == Restricted(old(classifications), files)
      ensures keyed == map key | key in old(keyed) && key.1 in files :: old(keyed)[key]
      ensures discoveries == Restricted(old(discoveries), files)
      ensures resolved == Restricted(old(resolved), files) && origins == Restricted(old(origins), files)
    {
      RestrictedFromOrigins(project, resolved, origins, files);
      classifications := Restricted(classifications, files);
      keyed := map key | key in keyed && key.1 in files :: keyed[key];
      discoveries := Restricted(discoveries, files);
      resolved, origins := Restricted(resolved, files), Restricted(origins, files);
    }

    method Classify(path: Path) returns (kind: string)
      requires Valid()
      modifies this`classifications
      ensures Valid() && kind == project.classify(path)
    {
      if path !in classifications {
        classifications := classifications[path := project.classify(path)];
      }
      kind := classifications[path];
    }

    /** A fact of one file's text, recomputed unless the cached one has the text's hash. */
    method FactFor(kind: FactKind, path: Path, text: Text) returns (value: Fact)
      requires Valid()
      modifies this`keyed, this`stats
      ensures Valid() && value == project.fact(kind, path, text)
      ensures stats == if kind == StaticImports
              && !((kind, path) in old(keyed) && old(keyed)[(kind, path)].sourceHash == project.hash(text))
                       then old(stats).(staticImports := old(stats).staticImports + 1) else old(stats)
    {
      if (kind, path) in keyed && keyed[(kind, path)].sourceHash == project.hash(text) {
        return keyed[(kind, path)].value;
      }
      if kind == StaticImports {
        stats := stats.(staticImports := stats.staticImports + 1);
      }
      value := project.fact(kind, path, text);
      keyed := keyed[(kind, path) := Keyed(project.hash(text), value)];
    }

    /** The import hop's reads: candidates up to the first that can be read. */
    method ConsultCached(disk: Disk, candidates: seq<Path>) returns (consulted: seq<Path>, target: Option<(Path, Text)>)
      requires NormalKeys(sources.entries)
      modifies sources
      ensures NormalKeys(sources.entries) && Shown(disk) == old(Shown(disk))
      ensures (consulted, target) == Consult(old(Shown(disk)), candidates)
    {
      consulted, target := [], None;
      ghost var shown := Shown(disk);
      ghost var whole := Consult(shown, candidates);
      assert candidates[0..] == candidates && [] + whole.0 == whole.0;
      var i := 0;
      while i < |candidates|
        invariant 0 <= i <= |candidates|
        invariant NormalKeys(sources.entries) && Shown(disk) == old(Shown(disk))
        invariant target.None?
        invariant whole.0 == consulted + Consult(shown, candidates[i..]).0
                  && whole.1 == Consult(shown, candidates[i..]).1
      {
        ConsultStep(shown, candidates, i, consulted);
        var source := sources.Get(disk, candidates[i]);
        consulted := consulted + [candidates[i]];
        if source.Readable? {
          target := Some((candidates[i], source.text));
          return;
        }
        i := i + 1;
      }
      assert consulted + [] == consulted;
    }

    method BindCached(disk: Disk, decl: ImportDecl, before: map<string, Binding>)
      returns (bindings: map<string, Binding>)
      requires NormalKeys(sources.entries)
      modifies sources
      ensures NormalKeys(sources.entries) && Shown(disk) == old(Shown(disk))
      ensures bindings == Bind(project, old(Shown(disk)), decl.candidates, decl.requested, before)
    {
      var consulted, target := ConsultCached(disk, decl.candidates);
      bindings := before;
      var i := 0;
      while i < |decl.requested|
        invariant 0 <= i <= |decl.requested|
        invariant Bind(project, old(Shown(disk)), decl.candidates, decl.requested, before)
               == Bind(project, old(Shown(disk)), decl.candidates, decl.requested[i..], bindings)
      {
        var (local, exported) := decl.requested[i];
        assert decl.requested[i..][0] == decl.requested[i] && decl.requested[i..][1..] == decl.requested[i + 1..];
        bindings := bindings[local := Binding(consulted, Resolution(project, target, exported))];
        i := i + 1;
      }
    }

    method BindImportsCached(disk: Disk, imports: seq<ImportDecl>) returns (bindings: map<string, Binding>)
      requires NormalKeys(sources.entries)
      modifies sources
      ensures NormalKeys(sources.entries) && Shown(disk) == old(Shown(disk))
      ensures bindings == BindImports(project, old(Shown(disk)), imports, map[])
    {
      bindings := map[];
      var i := 0;
      while i < |imports|
        invariant 0 <= i <= |imports|
        invariant NormalKeys(sources.entries) && Shown(disk) == old(Shown(disk))
        invariant BindImports(project, old(Shown(disk)), imports, map[])
               == BindImports(project, old(Shown(disk)), imports[i..], bindings)
      {
        assert imports[i..][0] == imports[i] && imports[i..][1..] == imports[i + 1..];
        bindings := BindCached(disk, imports[i], bindings);
        i := i + 1;
      }
    }

    /** The hashes the dependencies have now. */
    method HashDependencies(disk: Disk, paths: seq<Path>) returns (dependencies: seq<(Path, Option<nat>)>)
      requires NormalKeys(sources.entries)
      modifies sources
      ensures NormalKeys(sources.entries) && Shown(disk) == old(Shown(disk))
      ensures |dependencies| == |paths|
      ensures forall i ::
                0 <= i < |paths| ==> dependencies[i] == (paths[i], HashAt(project, old(Shown(disk)), paths[i]))
    {
      dependencies := [];
      var i := 0;
      while i < |paths|
        invariant 0 <= i <= |paths| && |dependencies| == i
        invariant NormalKeys(sources.entries) && Shown(disk) == old(Shown(disk))
        invariant forall j :: 0 <= j < i ==> dependencies[j] == (paths[j], HashAt(project, old(Shown(disk)), paths[j]))
      {
        var hash := sources.Hash(project, disk, paths[i]);
        dependencies := dependencies + [(paths[i], hash)];
        i := i + 1;
      }
    }

    /** Whether every recorded dependency still has its hash. */
    method DependenciesFresh(disk: Disk, dependencies: seq<(Path, Option<nat>)>) returns (ok: bool)
      requires NormalKeys(sources.entries)
      modifies sources
      ensures NormalKeys(sources.entries) && Shown(disk) == old(Shown(disk))
      ensures ok <==> DependenciesHold(project, old(Shown(disk)), dependencies)
    {
      var i := 0;
      while i < |dependencies|
        invariant 0 <= i <= |dependencies|
        invariant NormalKeys(sources.entries) && Shown(disk) == old(Shown(disk))
        invariant forall j :: 0 <= j < i ==> HashAt(project, old(Shown(disk)), dependencies[j].0) == dependencies[j].1
      {
        var hash := sources.Hash(project, disk, dependencies[i].0);
        if hash != dependencies[i].1 {
          return false;
        }
        i := i + 1;
      }
      ok := true;
    }

    /** What discovery makes of the file, and the dependencies it looked up. */
    method RunCached(disk: Disk, path: Path, text: Text) returns (found: Discovered)
      requires NormalKeys(sources.entries)
      modifies sources
      ensures NormalKeys(sources.entries) && Shown(disk) == old(Shown(disk))
      ensures found == Discover(project, old(Shown(disk)), path, text)
    {
      match project.parse(path, text) {
        case ParseFailed(error) => found := Discovered(Err(error), []);
        case Program(imports, step, limit) =>
          var bindings := BindImportsCached(disk, imports);
          var answers: seq<Answer>, used: seq<Path>, left: nat := [], [], limit;
          while true
            invariant RunDiscovery(step, limit, bindings, [], []) == RunDiscovery(step, left, bindings, answers, used)
            decreases left
          {
            match step(answers) {
              case Done(result) => return Discovered(Ok(result), used);
              case LookUp(name) =>
                if left == 0 {
                  return Discovered(Ok(""), used);
                }
                left := left - 1;
                if name in bindings {
                  answers, used := answers + [Imported(bindings[name].resolution)], AddUsed(used, bindings[name].paths);
                } else {
                  answers := answers + [NotImported];
                }
            }
          }
      }
    }

    /** Discovery over `path`, reused while the file and everything it looked up have their hashes. */
    method Discovery(disk: Disk, path: Path, text: Text) returns (value: Result<string, string>)
      requires Valid()
      modifies sources, this`discoveries, this`stats
      ensures Valid() && Shown(disk) == old(Shown(disk))
      ensures value == Discover(project, old(Shown(disk)), path, text).value
      ensures stats == if path in old(discoveries) && old(discoveries)[path].sourceHash == project.hash(text)
                          && DependenciesHold(project, old(Shown(disk)), old(discoveries)[path].dependencies)
                       then old(stats) else old(stats).(discoveries := old(stats).discoveries + 1)
    {
      if path in discoveries && discoveries[path].sourceHash == project.hash(text) {
        var isFresh := DependenciesFresh(disk, discoveries[path].dependencies);
        if isFresh {
          assert DiscoveryHolds(project, path, discoveries[path]);
          return discoveries[path].value;
        }
      }
      stats := stats.(discoveries := stats.discoveries + 1);
      var found := RunCached(disk, path, text);
      var dependencies := HashDependencies(disk, found.dependencies);
      value := found.value;
      var entry := DiscoveryEntry(project.hash(text), dependencies, value);
      NewDiscoveryHolds(project, old(Shown(disk)), path, text, entry);
      discoveries := discoveries[path := entry];
    }

    /** How the file's imports resolve, reused while the file and the file set have their hashes: the cached
        answer on a hit, else what probing the disk gives, and that is kept. */
    method Resolutions(disk: Disk, path: Path, text: Text, specifiers: seq<string>, files: set<Path>)
      returns (value: seq<Option<Path>>)
      requires Valid() && fileSet == project.fileSetHash(files)
      requires project.fact(StaticImports, path, text) == Ok(specifiers)
      modifies this`resolved, this`origins, this`stats
      ensures Valid()
      ensures value == Resolve(project, disk, old(resolved), files, path, text, specifiers)
      ensures resolved == old(resolved)[path := ResolutionEntry(project.hash(text), fileSet, value)]
      ensures origins == if MadeFor(old(origins), files, path, text) then old(origins)
                         else old(origins)[path := Origin(disk, files, text)]
      ensures stats == if Hit(project, old(resolved), files, path, text) then old(stats)
                       else old(stats).(resolutions := old(stats).resolutions + 1)
    {
      HitByOrigin(project, resolved, origins, files, path, text);
      if path in resolved && resolved[path].sourceHash == project.hash(text) && resolved[path].fileSet == fileSet {
        return resolved[path].value;
      }
      stats := stats.(resolutions := stats.resolutions + 1);
      value := ResolveImports(project, disk, files, path, specifiers);
      var entry := ResolutionEntry(project.hash(text), fileSet, value);
      MadeHere(project, resolved, origins, path, Origin(disk, files, text));
      resolved, origins := resolved[path := entry], origins[path := Origin(disk, files, text)];
    }
  }

  /** An entry holds on every disk once its dependencies were hashed on the disk it was computed on. */
  lemma NewDiscoveryHolds(project: Project, disk: Disk, path: Path, text: Text, entry: DiscoveryEntry)
    requires IsProject(project) && entry.sourceHash == project.hash(text)
    requires entry.value == Discover(project, disk, path, text).value
    requires var found := Discover(project, disk, path, text).dependencies;
             |entry.dependencies| == |found| &&
             forall i :: 0 <= i < |found| ==> entry.dependencies[i] == (found[i], HashAt(project, disk, found[i]))
    ensures DiscoveryHolds(project, path, entry)
  {
    var found := Discover(project, disk, path, text).dependencies;
    forall other: Disk, same
        | project.hash(same) == entry.sourceHash && DependenciesHold(project, other, entry.dependencies)
      ensures entry.value == Discover(project, other, path, same).value
    {
      forall p | p in found
        ensures Seen(disk, p) == Seen(other, p)
      {
        var i :| 0 <= i < |found| && found[i] == p;
        assert HashAt(project, other, entry.dependencies[i].0) == entry.dependencies[i].1;
      }
      TracedReadsDetermineDiscovery(project, disk, other, path, text);
    }
  }

  /** A disk with the listed files on it. */
  ghost function Filled(disk: Disk, files: set<Path>): (full: Disk)
    ensures files <= full.Keys
  {
    map p | p in disk.Keys + files :: if p in disk then disk[p] else Unreadable("")
  }

  /** A resolution may be cached exactly when the probes came out as listed: one made while a listed
      candidate was away keeps its keys and is wrong once the file is back. */
  lemma NewResolutionHolds(project: Project, disk: Disk, files: set<Path>, path: Path, text: Text,
                           entry: ResolutionEntry)
    requires IsProject(project) && project.fact(StaticImports, path, text).Ok?
    requires entry.sourceHash == project.hash(text) && entry.fileSet == project.fileSetHash(files)
    requires entry.value == ResolveImports(project, disk, files, path, project.fact(StaticImports, path, text).value)
    ensures ResolutionHolds(project, path, entry) <==>
            ProbesAsListed(project, disk, files, path, project.fact(StaticImports, path, text).value)
  {
    var specifiers := project.fact(StaticImports, path, text).value;
    forall full: Disk | files <= full.Keys
      ensures entry.value == ResolveImports(project, full, files, path, specifiers)
              <==> ProbesAsListed(project, disk, files, path, specifiers)
    {
      ResolvesAlike(project, disk, full, files, path, specifiers);
    }
    var filled := Filled(disk, files);
    assert ResolutionHolds(project, path, entry) ==>
      entry.value == ResolveImports(project, filled, files, path, specifiers);
  }

  /** Asked while a listed file is away and again once all are there, an unchanged file resolves the second
      time as a fresh resolution would exactly when the first time's probes came out as listed. */
  method AwayAndBack(cache: GraphCache, away: Disk, back: Disk, path: Path, text: Text, specifiers: seq<string>,
                     files: set<Path>)
    returns (first: seq<Option<Path>>, second: seq<Option<Path>>)
    requires cache.Valid() && cache.fileSet == cache.project.fileSetHash(files) && path !in cache.resolved
    requires cache.project.fact(StaticImports, path, text) == Ok(specifiers) && files <= back.Keys
    modifies cache`resolved, cache`origins, cache`stats
    ensures second == ResolveImports(cache.project, back, files, path, specifiers)
            <==> ProbesAsListed(cache.project, away, files, path, specifiers)
  {
    first := cache.Resolutions(away, path, text, specifiers, files);
    second := cache.Resolutions(back, path, text, specifiers, files);
    ResolvesAlike(cache.project, away, back, files, path, specifiers);
  }

  /** The cached answers once a file's own is among them. */
  function Recorded(project: Project, memory: Memory, disk: Disk, files: set<Path>, path: Path, text: Text): Memory {
    if project.fact(StaticImports, path, text).Err? then memory
    else memory[path := ResolutionEntry(project.hash(text), project.fileSetHash(files),
                                        ImportsOf(project, disk, memory, files, path, text).resolved)]
  }

  /** One more answer kept changes no answer for the texts shown. */
  lemma RecordingKeepsAnswers(project: Project, memory: Memory, disk: Disk, files: set<Path>, path: Path, text: Text,
                              other: Path, shown: Text)
    requires path == other ==> text == shown
    ensures ImportsOf(project, disk, Recorded(project, memory, disk, files, path, text), files, other, shown)
            == ImportsOf(project, disk, memory, files, other, shown)
  {
    var kept := Recorded(project, memory, disk, files, path, text);
    if path == other && kept != memory {
      assert Hit(project, kept, files, other, shown);
    } else {
      assert Hit(project, kept, files, other, shown) <==> Hit(project, memory, files, other, shown);
    }
  }

  /** Where all listed files are on disk, a cached answer is the probed one unless it misleads. */
  lemma MisleadsExactly(project: Project, memory: Memory, origins: map<Path, Origin>, disk: Disk,
                        files: set<Path>, path: Path, text: Text, specifiers: seq<string>)
    requires IsProject(project) && MadeFromOrigins(project, memory, origins) && files <= disk.Keys
    requires Read(disk, path) == Readable(text) && project.fact(StaticImports, path, text) == Ok(specifiers)
    ensures Resolve(project, disk, memory, files, path, text, specifiers)
            == ResolveImports(project, disk, files, path, specifiers)
            <==> !Misleads(project, origins, disk, files, path)
  {
    HitByOrigin(project, memory, origins, files, path, text);
    assert IsMadeFrom(project, path, memory, origins);
    if Hit(project, memory, files, path, text) {
      ResolvesAlike(project, origins[path].disk, disk, files, path, specifiers);
    }
  }
}
