/** A long-lived compiler session. */
module Session {
  import opened Analysis
  import opened Caches
  import opened Paths
  import opened ProjectGraph
  import opened Wrappers

  /** The paths whose contents, or whose being there, differ between two disks. */
  function Changed(before: Disk, after: Disk): set<Path> {
    set p | p in before.Keys + after.Keys && At(before, p) != At(after, p)
  }

  /** A changed path as the session names it: under the root, in normal form. */
  function Absolute(root: Path, path: Path): Path {
    Normalize(if IsAbsolute(path) then path else root + path)
  }

  /** A reported path is named by where it leads from the root. */
  lemma AbsoluteLeadsThere(root: Path, path: Path)
    requires IsAbsolute(root)
    ensures Walk([], Absolute(root, path)) == Walk(Walk([], root), path)
  {
    if IsAbsolute(path) {
      AbsoluteIsKept([], path);
    } else {
      AbsoluteIsKept([], root + path);
      WalkInTurn([], root, path);
    }
  }

  /** What reporting a path covers: the file, or, when no file is there, everything at and under it. */
  function Uncovered(stale: set<Path>, disk: Disk, reported: Path): set<Path> {
    if reported in disk then stale - {reported} else set p | p in stale && !(reported <= p)
  }

  /** What is left of the remembered reads after a report. */
  function Unreported(entries: map<Path, ReadResult>, disk: Disk, reported: Path): map<Path, ReadResult> {
    var others := entries - {reported};
    if reported in disk then others else map p | p in others && !(reported <= p) :: others[p]
  }

  ghost predicate ShowsDiskBut(disk: Disk, entries: map<Path, ReadResult>, stale: set<Path>) {
    forall p :: p !in stale ==> At(View(disk, entries), p) == At(disk, p)
  }

  /** Dropping what a report covers leaves nothing out of date there. */
  lemma DroppingUncovers(disk: Disk, entries: map<Path, ReadResult>, stale: set<Path>, reported: Path,
                         left: map<Path, ReadResult>)
    requires ShowsDiskBut(disk, entries, stale)
    requires left == Unreported(entries, disk, reported)
    ensures NormalKeys(entries) ==> NormalKeys(left)
    ensures ShowsDiskBut(disk, left, Uncovered(stale, disk, reported))
  {
    if NormalKeys(entries) {
      FewerKeys(entries, left);
    }
    forall p | p !in Uncovered(stale, disk, reported)
      ensures At(View(disk, left), p) == At(disk, p)
    {
      if p in left {
        assert p !in stale && left[p] == entries[p];
        assert At(View(disk, entries), p) == At(disk, p);
      }
    }
  }

  lemma ShownIsDisk(disk: Disk, entries: map<Path, ReadResult>)
    requires ShowsDiskBut(disk, entries, {})
    ensures View(disk, entries) == disk
  {
    var shown := View(disk, entries);
    assert shown.Keys == disk.Keys by {
      assert forall p :: p in shown <==> At(shown, p) != Missing;
      assert forall p :: p in disk <==> At(disk, p) != Missing;
    }
    assert forall p :: p in shown ==> At(shown, p) == At(disk, p);
  }

  /** A check is right unless some listed file has a remembered resolution that misleads. */
  ghost predicate RightUnlessMisled(project: Project, origins: map<Path, Origin>, disk: Disk, files: set<Path>,
                                    r: Result<Graph, string>) {
    r == CleanCheck(project, disk) <==>
      CleanCheck(project, disk).Err? || forall p :: p in files ==> !Misleads(project, origins, disk, files, p)
  }

  lemma NothingLost(project: Project, resolved: Memory, origins: map<Path, Origin>, files: set<Path>)
    requires MadeFromOrigins(project, resolved, origins)
    ensures Restricted(resolved, origins.Keys + files) == resolved
            && Restricted(origins, origins.Keys + files) == origins
  {
    forall p
      ensures p in resolved <==> p in origins
    {
      assert IsMadeFrom(project, p, resolved, origins);
    }
  }

  lemma RightExactly(project: Project, resolved: Memory, origins: map<Path, Origin>, kept: set<Path>, disk: Disk,
                     listed: seq<Path>)
    requires IsProject(project) && MadeFromOrigins(project, resolved, origins) && FileSet(listed) <= kept
    requires listed == project.listing(SourceFiles(project, disk))
    ensures RightUnlessMisled(project, origins, disk, FileSet(listed),
                              GraphOf(project, disk, disk, Restricted(resolved, kept), listed))
  {
    var files := FileSet(listed);
    assert files == SourceFiles(project, disk);
    var memory := Restricted(resolved, kept);
    GraphsAlike(project, disk, disk, memory, map[], listed);
    forall p | p in listed
      ensures AlikeFor(project, disk, disk, memory, map[], files, p) <==> !Misleads(project, origins, disk, files, p)
    {
      var read := Read(disk, p);
      if read.Readable? && project.fact(StaticImports, p, read.text).Ok? {
        MisleadsExactly(project, resolved, origins, disk, files, p, read.text,
                        project.fact(StaticImports, p, read.text).value);
        assert p in files
               && (Hit(project, memory, files, p, read.text) <==> Hit(project, resolved, files, p, read.text));
      }
    }
  }

  class CompilerSession {
    const root: Path
    var files: Option<seq<Path>>
    var cache: GraphCache

    constructor (project: Project, root: Path)
      requires IsProject(project)
      ensures Valid() && fresh(cache) && fresh(cache.sources)
      ensures this.root == root && cache.project == project && files == None && cache.sources.entries == map[]
      ensures cache.resolved == map[] && cache.origins == map[]
    {
      this.root := root;
      files := None;
      cache := new GraphCache(project);
    }

    ghost predicate Valid()
      reads this, cache, cache.sources
    {
      && cache.Valid()
      && (files.Some? ==> files.value == cache.project.listing(FileSet(files.value)))
      && (files.Some? ==> forall p :: p in files.value ==> cache.project.isSource(p))
    }

    /** Nothing the session remembers is out of date, except about the paths in `stale`. */
    ghost predicate CurrentBut(disk: Disk, stale: set<Path>)
      reads this, cache, cache.sources
    {
      && ShowsDiskBut(disk, cache.sources.entries, stale)
      && (files.Some? ==> forall p :: p !in stale ==> (p in files.value <==> p in SourceFiles(cache.project, disk)))
    }

    /** Marks one path as changed on disk. */
    method Report(disk: Disk, path: Path, ghost stale: set<Path>)
      requires Valid() && CurrentBut(disk, stale)
      modifies this`files, cache.sources
      ensures Valid() && CurrentBut(disk, Uncovered(stale, disk, Absolute(root, path)))
      ensures cache == old(cache)
              && cache.sources.entries == Unreported(old(cache.sources.entries), disk, Absolute(root, path))
      ensures files == if old(files).Some? && Absolute(root, path) in disk && Absolute(root, path) in old(files).value
                       then old(files) else None
    {
      var absolute := Absolute(root, path);
      NormalizeIdempotent(if IsAbsolute(path) then path else root + path);
      ghost var entries := cache.sources.entries;
      cache.sources.Invalidate(absolute);
      var known := files.Some? && absolute in files.value;
      if absolute in disk {
        if !known {
          files := None;
        }
      } else {
        cache.sources.InvalidateUnder(absolute);
        files := None;
      }
      DroppingUncovers(disk, entries, stale, absolute, cache.sources.entries);
    }

    /** Marks files as changed: edited, created, deleted, or a directory that moved. */
    method Update(disk: Disk, paths: seq<Path>, ghost stale: set<Path>)
      requires Valid() && CurrentBut(disk, stale)
      modifies this`files, cache.sources
      ensures Valid() && CurrentBut(disk, UncoveredByAll(stale, disk, root, paths))
      ensures cache == old(cache)
      ensures cache.sources.entries == UnreportedByAll(old(cache.sources.entries), disk, root, paths)
      ensures ListedNow(files) == ListedAfterReports(ListedNow(old(files)), disk, root, paths)
    {
      var i := 0;
      ghost var left := stale;
      ghost var listed, entries := ListedNow(files), cache.sources.entries;
      assert paths[0..] == paths;
      while i < |paths|
        invariant 0 <= i <= |paths|
        invariant Valid() && CurrentBut(disk, left)
        invariant UncoveredByAll(stale, disk, root, paths) == UncoveredByAll(left, disk, root, paths[i..])
        invariant UnreportedByAll(entries, disk, root, paths)
                  == UnreportedByAll(cache.sources.entries, disk, root, paths[i..])
        invariant ListedAfterReports(listed, disk, root, paths)
                  == ListedAfterReports(ListedNow(files), disk, root, paths[i..])
      {
        assert paths[i..][0] == paths[i] && paths[i..][1..] == paths[i + 1..];
        Report(disk, paths[i], left);
        left := Uncovered(left, disk, Absolute(root, paths[i]));
        i := i + 1;
      }
    }

    /** Walks the project unless the file list is kept, then builds the graph through the cache. With nothing out
        of date the result is the clean one exactly when no remembered resolution misleads, or there is none to
        be had. */
    method Check(disk: Disk, ghost stale: set<Path>) returns (r: Result<Graph, string>)
      requires Valid() && CurrentBut(disk, stale)
      modifies this`files, cache, cache.sources
      ensures Valid() && CurrentBut(disk, stale)
      ensures cache == old(cache) && cache.Shown(disk) == old(cache.Shown(disk))
      ensures ListedNow(files) == ListedAtCheck(cache.project, ListedNow(old(files)), disk)
      ensures var all := FileSet(files.value);
              var kept := if old(files).None? then all else old(cache.origins).Keys + all;
              && r == GraphOf(cache.project, old(cache.Shown(disk)), disk, Restricted(old(cache.resolved), kept),
                              files.value)
              && Pass(Restricted(old(cache.resolved), kept), Restricted(old(cache.origins), kept),
                      if r.Ok? then files.value else []).Reached(
                   cache.project, cache.resolved, cache.origins, cache.sources.entries, old(cache.Shown(disk)), disk,
                     all)
      ensures stale == {} ==> RightUnlessMisled(cache.project, old(cache.origins), disk, FileSet(files.value), r)
    {
      ghost var shown, resolved, origins := cache.Shown(disk), cache.resolved, cache.origins;
      if files.None? {
        var found := SourceFiles(cache.project, disk);
        cache.RetainFiles(found);
        assert FileSet(cache.project.listing(found)) == found;
        assert forall p :: p in cache.project.listing(found) <==> p in FileSet(cache.project.listing(found));
        files := Some(cache.project.listing(found));
      } else {
        NothingLost(cache.project, resolved, origins, FileSet(files.value));
      }
      ghost var all := FileSet(files.value);
      ghost var kept := if old(files).None? then all else origins.Keys + all;
      r := Build(cache, disk, files.value);
      if stale == {} {
        ShownIsDisk(disk, old(cache.sources.entries));
        assert all == SourceFiles(cache.project, disk);
        RightExactly(cache.project, resolved, origins, kept, disk, files.value);
      }
    }

    /** A panic during a check: everything remembered is dropped. */
    method Reset(disk: Disk)
      requires Valid()
      modifies this
      ensures Valid() && fresh(cache) && fresh(cache.sources) && cache.project == old(cache.project)
      ensures files == None && cache.sources.entries == map[] && cache.resolved == map[] && cache.origins == map[]
      ensures CurrentBut(disk, {})
    {
      files := None;
      cache := new GraphCache(cache.project);
    }
  }

  // ----- Lists and reports -----

  function ListedNow(files: Option<seq<Path>>): Option<set<Path>> {
    if files.Some? then Some(FileSet(files.value)) else None
  }

  function ListedAfterReport(listed: Option<set<Path>>, disk: Disk, path: Path): Option<set<Path>> {
    if listed.Some? && path in disk && path in listed.value then listed else None
  }

  function ListedAfterReports(listed: Option<set<Path>>, disk: Disk, root: Path, paths: seq<Path>): Option<set<Path>>
    decreases |paths|
  {
    if paths == [] then listed
    else ListedAfterReports(ListedAfterReport(listed, disk, Absolute(root, paths[0])), disk, root, paths[1..])
  }

  function UnreportedByAll(entries: map<Path, ReadResult>, disk: Disk, root: Path, paths: seq<Path>):
      map<Path, ReadResult>
    decreases |paths|
  {
    if paths == [] then entries
    else UnreportedByAll(Unreported(entries, disk, Absolute(root, paths[0])), disk, root, paths[1..])
  }

  function UncoveredByAll(stale: set<Path>, disk: Disk, root: Path, paths: seq<Path>): set<Path>
    decreases |paths|
  {
    if paths == [] then stale
    else UncoveredByAll(Uncovered(stale, disk, Absolute(root, paths[0])), disk, root, paths[1..])
  }

  function ListedAtCheck(project: Project, listed: Option<set<Path>>, disk: Disk): Option<set<Path>> {
    if listed.Some? then listed else Some(SourceFiles(project, disk))
  }
}
