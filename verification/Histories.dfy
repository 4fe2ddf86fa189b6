/** Every history of edits, reports, checks and panics around a session: what it remembers at each point, and which
    of its checks are right. */
module Histories {
  import opened Analysis
  import opened Caches
  import opened Paths
  import opened ProjectGraph
  import opened Session
  import opened TracedReads
  import opened Wrappers

  /** What can happen around a session: the disk becomes another, paths are reported, a check runs, a check panics. */
  datatype Event = Edit(after: Disk) | Report(paths: seq<Path>) | Check | Panic

  // ----- What is true around the session -----

  /** The disk, the changes not reported since, and the files the session has listed. */
  datatype World = World(disk: Disk, stale: set<Path>, listed: Option<set<Path>>)

  function Next(project: Project, root: Path, w: World, event: Event): World {
    match event
    case Edit(after) => World(after, w.stale + Changed(w.disk, after), w.listed)
    case Report(paths) =>
      World(w.disk, UncoveredByAll(w.stale, w.disk, root, paths), ListedAfterReports(w.listed, w.disk, root, paths))
    case Check => w.(listed := ListedAtCheck(project, w.listed, w.disk))
    case Panic => World(w.disk, {}, None)
  }

  function WorldAt(project: Project, root: Path, disk: Disk, events: seq<Event>, k: nat): World
    requires k <= |events|
  {
    if k == 0 then World(disk, {}, None)
    else Next(project, root, WorldAt(project, root, disk, events, k - 1), events[k - 1])
  }

  /** The files a check at this point goes over. */
  function Listing(project: Project, w: World): set<Path> {
    ListedAtCheck(project, w.listed, w.disk).value
  }

  // ----- What the session remembers -----

  /** Reads, and resolutions with what they were made from. */
  datatype Remembered = Remembered(entries: map<Path, ReadResult>, resolved: Memory, origins: map<Path, Origin>)

  const NOTHING := Remembered(map[], map[], map[])

  /** A check answers by what is remembered: the disk as remembered reads show it, and remembered resolutions, those of
      files no longer listed dropped when it lists anew. It shows the same disk afterwards, keeps the resolutions in
      use, and makes those that are missing; when it gives a graph, every listed file has been read and, if its
      imports could be listed, resolved. */
  ghost predicate Checked(project: Project, w: World, before: Remembered, after: Remembered, r: Result<Graph, string>) {
    var all := Listing(project, w);
    var kept := if w.listed.None? then all else before.origins.Keys + all;
    var shown := View(w.disk, before.entries);
    var pass := Pass(Restricted(before.resolved, kept), Restricted(before.origins, kept),
                     if r.Ok? then project.listing(all) else []);
    && r == GraphOf(project, shown, w.disk, pass.memory, project.listing(all))
    && View(w.disk, after.entries) == shown
    && pass.Reached(project, after.resolved, after.origins, after.entries, shown, w.disk, all)
    && MadeFromOrigins(project, after.resolved, after.origins)
  }

  /** What an event makes of what is remembered, and what comes out of it. */
  ghost predicate Remembers(project: Project, root: Path, w: World, event: Event, before: Remembered, after: Remembered,
                            output: Option<Result<Graph, string>>) {
    match event
    case Edit(_) => after == before && output.None?
    case Report(paths) => after == before.(entries := UnreportedByAll(before.entries, w.disk, root, paths))
      && output.None?
    case Check => output.Some? && Checked(project, w, before, after, output.value)
    case Panic => after == NOTHING && output.None?
  }

  /** The session begins with nothing remembered, and each event changes what it remembers and answers so. */
  ghost predicate Follows(project: Project, root: Path, disk: Disk, events: seq<Event>,
                          outputs: seq<Option<Result<Graph, string>>>, memory: seq<Remembered>) {
    && |outputs| <= |events| && |memory| == |outputs| + 1 && memory[0] == NOTHING
    && forall k {:trigger FollowsAt(project, root, disk, events, outputs, memory, k)} ::
         0 <= k < |outputs| ==> FollowsAt(project, root, disk, events, outputs, memory, k)
  }

  ghost predicate FollowsAt(project: Project, root: Path, disk: Disk, events: seq<Event>,
                            outputs: seq<Option<Result<Graph, string>>>, memory: seq<Remembered>, k: nat)
    requires k < |outputs| && k < |events| && k + 1 < |memory|
  {
    Remembers(project, root, WorldAt(project, root, disk, events, k), events[k], memory[k], memory[k + 1], outputs[k])
  }

  lemma FollowsOneMore(project: Project, root: Path, disk: Disk, events: seq<Event>,
                       outputs: seq<Option<Result<Graph, string>>>,
                       memory: seq<Remembered>, output: Option<Result<Graph, string>>, after: Remembered)
    requires Follows(project, root, disk, events, outputs, memory) && |outputs| < |events|
    requires var k := |outputs|;
             Remembers(project, root, WorldAt(project, root, disk, events, k), events[k], memory[k], after, output)
    ensures Follows(project, root, disk, events, outputs + [output], memory + [after])
  {
    forall k | 0 <= k < |outputs| + 1
      ensures FollowsAt(project, root, disk, events, outputs + [output], memory + [after], k)
    {
      if k < |outputs| {
        assert FollowsAt(project, root, disk, events, outputs, memory, k);
      }
    }
  }

  // ----- The session follows -----

  ghost function RememberedBy(session: CompilerSession): Remembered
    reads session, session.cache, session.cache.sources
  {
    Remembered(session.cache.sources.entries, session.cache.resolved, session.cache.origins)
  }

  /** The session is where a history has brought it. */
  ghost predicate Tracks(session: CompilerSession, project: Project, root: Path, w: World)
    reads session, session.cache, session.cache.sources
  {
    && session.Valid() && session.root == root && session.cache.project == project
    && session.CurrentBut(w.disk, w.stale) && w.listed == ListedNow(session.files)
  }

  method Advance(session: CompilerSession, disk: Disk, event: Event, ghost project: Project, ghost root: Path,
                 ghost w: World)
    returns (now: Disk, output: Option<Result<Graph, string>>)
    requires Tracks(session, project, root, w) && w.disk == disk
    modifies session, session.cache, session.cache.sources
    ensures Tracks(session, project, root, Next(project, root, w, event)) && now == Next(project, root, w, event).disk
    ensures session.cache == old(session.cache) || (fresh(session.cache) && fresh(session.cache.sources))
    ensures Remembers(project, root, w, event, old(RememberedBy(session)), RememberedBy(session), output)
  {
    now, output := disk, None;
    match event {
      case Edit(after) =>
        now := after;
      case Report(paths) =>
        session.Update(disk, paths, w.stale);
      case Check =>
        var r := session.Check(disk, w.stale);
        output := Some(r);
      case Panic =>
        session.Reset(disk);
    }
  }

  /** The rest of a history, from where the session is. */
  method RunOn(session: CompilerSession, project: Project, root: Path, ghost disk: Disk, events: seq<Event>, now: Disk,
               done: seq<Option<Result<Graph, string>>>, ghost remembered: seq<Remembered>)
    returns (outputs: seq<Option<Result<Graph, string>>>, ghost memory: seq<Remembered>)
    requires |done| <= |events| && Follows(project, root, disk, events, done, remembered)
    requires Tracks(session, project, root, WorldAt(project, root, disk, events, |done|))
    requires now == WorldAt(project, root, disk, events, |done|).disk && remembered[|done|] == RememberedBy(session)
    modifies session, session.cache, session.cache.sources
    ensures |outputs| == |events| && Follows(project, root, disk, events, outputs, memory)
    decreases |events| - |done|
  {
    outputs, memory := done, remembered;
    if |done| < |events| {
      ghost var w := WorldAt(project, root, disk, events, |done|);
      var next, output := Advance(session, now, events[|done|], project, root, w);
      FollowsOneMore(project, root, disk, events, done, remembered, output, RememberedBy(session));
      outputs, memory :=
          RunOn(session, project, root, disk, events, next, done + [output], remembered + [RememberedBy(session)]);
    }
  }

  /** Over any history, the session follows. */
  method RunHistory(project: Project, root: Path, disk: Disk, events: seq<Event>)
    returns (outputs: seq<Option<Result<Graph, string>>>, ghost memory: seq<Remembered>)
    requires IsProject(project)
    ensures |outputs| == |events| && Follows(project, root, disk, events, outputs, memory)
  {
    var session := new CompilerSession(project, root);
    outputs, memory := RunOn(session, project, root, disk, events, disk, [], [NOTHING]);
  }

  // ----- Which checks are right -----

  /** What is listed is the project's files, but for the paths not reported yet. */
  ghost predicate ListingCurrent(project: Project, w: World) {
    w.listed.Some? ==>
      && (forall p :: p in w.listed.value ==> project.isSource(p))
      && (forall p :: p !in w.stale ==> (p in w.listed.value <==> p in SourceFiles(project, w.disk)))
  }

  lemma {:induction false} ReportsKeepListing(project: Project, root: Path, w: World, paths: seq<Path>)
    requires ListingCurrent(project, w)
    ensures ListingCurrent(project, Next(project, root, w, Report(paths)))
    decreases |paths|
  {
    if paths != [] {
      var path := Absolute(root, paths[0]);
      var next := World(w.disk, Uncovered(w.stale, w.disk, path), ListedAfterReport(w.listed, w.disk, path));
      ReportsKeepListing(project, root, next, paths[1..]);
    }
  }

  lemma {:induction false} HistoryKeepsListing(project: Project, root: Path, disk: Disk, events: seq<Event>, k: nat)
    requires k <= |events|
    ensures ListingCurrent(project, WorldAt(project, root, disk, events, k))
    decreases k
  {
    if k > 0 {
      HistoryKeepsListing(project, root, disk, events, k - 1);
      var w := WorldAt(project, root, disk, events, k - 1);
      match events[k - 1] {
        case Report(paths) => ReportsKeepListing(project, root, w, paths);
        case _ =>
      }
    }
  }

  lemma {:induction false} ReportsUncover(disk: Disk, root: Path, entries: map<Path, ReadResult>, stale: set<Path>,
                                          paths: seq<Path>)
    requires ShowsDiskBut(disk, entries, stale)
    ensures ShowsDiskBut(disk, UnreportedByAll(entries, disk, root, paths), UncoveredByAll(stale, disk, root, paths))
    decreases |paths|
  {
    if paths != [] {
      var path := Absolute(root, paths[0]);
      DroppingUncovers(disk, entries, stale, path, Unreported(entries, disk, path));
      ReportsUncover(disk, root, Unreported(entries, disk, path), Uncovered(stale, disk, path), paths[1..]);
    }
  }

  lemma EditsAddStale(before: Disk, after: Disk, entries: map<Path, ReadResult>, stale: set<Path>)
    requires ShowsDiskBut(before, entries, stale)
    ensures ShowsDiskBut(after, entries, stale + Changed(before, after))
  {
    forall p | p !in stale + Changed(before, after)
      ensures At(View(after, entries), p) == At(after, p)
    {
      assert At(View(before, entries), p) == At(before, p);
    }
  }

  /** What is remembered is out of date only about changes not reported, and each resolution is its origin's. */
  lemma {:induction false} MemoryIsCurrent(project: Project, root: Path, disk: Disk, events: seq<Event>,
                                           outputs: seq<Option<Result<Graph, string>>>, memory: seq<Remembered>, k: nat)
    requires Follows(project, root, disk, events, outputs, memory) && k <= |outputs|
    ensures MadeFromOrigins(project, memory[k].resolved, memory[k].origins)
    ensures var w := WorldAt(project, root, disk, events, k); ShowsDiskBut(w.disk, memory[k].entries, w.stale)
    decreases k
  {
    if k > 0 {
      MemoryIsCurrent(project, root, disk, events, outputs, memory, k - 1);
      var w, before := WorldAt(project, root, disk, events, k - 1), memory[k - 1];
      assert FollowsAt(project, root, disk, events, outputs, memory, k - 1);
      match events[k - 1] {
        case Edit(after) => EditsAddStale(w.disk, after, before.entries, w.stale);
        case Report(paths) => ReportsUncover(w.disk, root, before.entries, w.stale, paths);
        case Check => SameView(w.disk, before.entries, memory[k].entries, w.stale);
        case Panic =>
      }
    }
  }

  lemma SameView(disk: Disk, before: map<Path, ReadResult>, after: map<Path, ReadResult>, stale: set<Path>)
    requires ShowsDiskBut(disk, before, stale) && View(disk, after) == View(disk, before)
    ensures ShowsDiskBut(disk, after, stale)
  {
  }

  /** A check with nothing unreported is right exactly when no resolution it remembers misleads, or there is no graph
      to be had. */
  lemma HistoriesAreRightExactly(project: Project, root: Path, disk: Disk, events: seq<Event>,
                                 outputs: seq<Option<Result<Graph, string>>>, memory: seq<Remembered>, k: nat)
    requires IsProject(project) && Follows(project, root, disk, events, outputs, memory)
    requires k < |outputs| && events[k].Check? && WorldAt(project, root, disk, events, k).stale == {}
    ensures var w := WorldAt(project, root, disk, events, k);
            outputs[k] == Some(CleanCheck(project, w.disk)) <==>
              || CleanCheck(project, w.disk).Err?
              || forall p ::
                   p in Listing(project, w) ==> !Misleads(project, memory[k].origins, w.disk, Listing(project, w), p)
  {
    var w := WorldAt(project, root, disk, events, k);
    assert FollowsAt(project, root, disk, events, outputs, memory, k);
    MemoryIsCurrent(project, root, disk, events, outputs, memory, k);
    HistoryKeepsListing(project, root, disk, events, k);
    ShownIsDisk(w.disk, memory[k].entries);
    var all := Listing(project, w);
    assert all == SourceFiles(project, w.disk);
    assert FileSet(project.listing(all)) == all;
    RightExactly(project, memory[k].resolved, memory[k].origins,
                 if w.listed.None? then all else memory[k].origins.Keys + all, w.disk, project.listing(all));
  }

  // ----- Where what is remembered comes from -----

  /** A resolution was made by the check at this point, from its disk and its files. */
  ghost predicate MadeAt(project: Project, root: Path, disk: Disk, events: seq<Event>, j: nat, origin: Origin)
    requires j < |events|
  {
    var w := WorldAt(project, root, disk, events, j);
    events[j].Check? && origin.disk == w.disk && origin.files == Listing(project, w)
  }

  lemma CheckMakesHere(project: Project, w: World, before: Remembered, after: Remembered, r: Result<Graph, string>,
                       path: Path)
    requires Checked(project, w, before, after, r) && path in after.origins
    ensures || (path in before.origins && after.origins[path] == before.origins[path])
            || (after.origins[path].disk == w.disk && after.origins[path].files == Listing(project, w))
  {
    var all := Listing(project, w);
    var kept := if w.listed.None? then all else before.origins.Keys + all;
    assert IsKeptOrMade(Restricted(before.origins, kept), after.origins, View(w.disk, before.entries), w.disk, all,
                        path);
  }

  /** Every resolution remembered was made by an earlier check. */
  lemma {:induction false} MadeByEarlierCheck(project: Project, root: Path, disk: Disk, events: seq<Event>,
                                              outputs: seq<Option<Result<Graph, string>>>, memory: seq<Remembered>,
                                              k: nat, path: Path)
    returns (j: nat)
    requires Follows(project, root, disk, events, outputs, memory) && k <= |outputs| && path in memory[k].origins
    ensures j < k && MadeAt(project, root, disk, events, j, memory[k].origins[path])
    decreases k
  {
    j := k - 1;
    var w := WorldAt(project, root, disk, events, j);
    assert FollowsAt(project, root, disk, events, outputs, memory, j);
    if events[j].Check? {
      CheckMakesHere(project, w, memory[j], memory[k], outputs[j].value, path);
    }
    if path in memory[j].origins && memory[k].origins[path] == memory[j].origins[path] {
      j := MadeByEarlierCheck(project, root, disk, events, outputs, memory, j, path);
    }
  }

  /** No check ran while a file the session had listed was gone. */
  ghost predicate ListedFilesStay(project: Project, root: Path, disk: Disk, events: seq<Event>) {
    forall k {:trigger events[k]} :: 0 <= k < |events| && events[k].Check? ==>
      var w := WorldAt(project, root, disk, events, k);
      Listing(project, w) <= w.disk.Keys
  }

  /** Then nothing misleads. */
  lemma StayingFilesNeverMislead(project: Project, root: Path, disk: Disk, events: seq<Event>,
                                 outputs: seq<Option<Result<Graph, string>>>, memory: seq<Remembered>, k: nat,
                                 now: Disk, files: set<Path>, path: Path)
    requires Follows(project, root, disk, events, outputs, memory) && k <= |outputs|
    requires ListedFilesStay(project, root, disk, events)
    ensures !Misleads(project, memory[k].origins, now, files, path)
  {
    var made := memory[k].origins;
    if path in made {
      var j := MadeByEarlierCheck(project, root, disk, events, outputs, memory, k, path);
      assert events[j].Check?;
      var imports := project.fact(StaticImports, path, made[path].text);
      if imports.Ok? {
        ListedOnDisk(project, made[path].disk, made[path].files, path, imports.value);
      }
    }
  }

  /** Every change was reported before the next check. */
  ghost predicate ChangesReported(project: Project, root: Path, disk: Disk, events: seq<Event>) {
    forall k {:trigger events[k]} ::
          0 <= k < |events| && events[k].Check? ==> WorldAt(project, root, disk, events, k).stale == {}
  }

  /** Then no check runs while a listed file is away, so nothing misleads and every check is right. */
  lemma ReportedHistoriesAreRight(project: Project, root: Path, disk: Disk, events: seq<Event>,
                                  outputs: seq<Option<Result<Graph, string>>>, memory: seq<Remembered>, k: nat)
    requires IsProject(project) && Follows(project, root, disk, events, outputs, memory)
    requires ChangesReported(project, root, disk, events) && k < |outputs| && events[k].Check?
    ensures ListedFilesStay(project, root, disk, events)
    ensures outputs[k] == Some(CleanCheck(project, WorldAt(project, root, disk, events, k).disk))
  {
    forall k | 0 <= k < |events| && events[k].Check?
      ensures var w := WorldAt(project, root, disk, events, k); Listing(project, w) <= w.disk.Keys
    {
      HistoryKeepsListing(project, root, disk, events, k);
    }
    var w := WorldAt(project, root, disk, events, k);
    forall p | p in Listing(project, w)
      ensures !Misleads(project, memory[k].origins, w.disk, Listing(project, w), p)
    {
      StayingFilesNeverMislead(project, root, disk, events, outputs, memory, k, w.disk, Listing(project, w), p);
    }
    HistoriesAreRightExactly(project, root, disk, events, outputs, memory, k);
  }
}
