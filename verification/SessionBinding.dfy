/** The binding's own state: the session, absent once disposed, and the queue of reported paths. */
module SessionBinding {
  import opened Analysis
  import opened Paths
  import opened Session
  import opened Wrappers

  class SessionState {
    var session: CompilerSession?
    var pending: seq<Path>

    constructor (project: Project, root: Path)
      requires IsProject(project)
      ensures Valid() && session != null && fresh(session) && fresh(session.cache) && fresh(session.cache.sources)
      ensures session.root == root && session.cache.project == project && session.cache.resolved == map[]
      ensures session.files == None && session.cache.sources.entries == map[] && pending == []
    {
      session := new CompilerSession(project, root);
      pending := [];
    }

    ghost predicate Valid()
      reads this, if session == null then {} else {session, session.cache, session.cache.sources}
    {
      session != null ==> session.Valid()
    }

    /** Reporting only queues: the session is not touched. */
    method Update(paths: seq<Path>)
      modifies this`pending
      ensures pending == old(pending) + paths
    {
      pending := pending + paths;
    }

    /** Takes the whole queue, reports it, and checks. A disposed session refuses and keeps the queue. */
    method RunSession(disk: Disk, ghost stale: set<Path>) returns (r: Result<Result<Graph, string>, string>)
      requires Valid() && (session != null ==> session.CurrentBut(disk, stale))
      modifies this`pending, session, if session == null then {} else {session.cache, session.cache.sources}
      ensures Valid() && session == old(session)
      ensures session == null ==> r.Err? && pending == old(pending)
      ensures session != null ==>
        && r.Ok? && pending == []
        && session.CurrentBut(disk, UncoveredByAll(stale, disk, session.root, old(pending)))
        && session.files.Some?
        && (UncoveredByAll(stale, disk, session.root, old(pending)) == {} ==>
              RightUnlessMisled(session.cache.project, old(session.cache.origins), disk, FileSet(session.files.value),
                                r.value))
    {
      if session == null {
        return Err("compiler session is disposed");
      }
      var taken := pending;
      pending := [];
      session.Update(disk, taken, stale);
      var output := session.Check(disk, UncoveredByAll(stale, disk, session.root, taken));
      r := Ok(output);
    }

    method Dispose()
      modifies this`session
      ensures session == null && Valid()
    {
      session := null;
    }
  }
}
