/** Discovery depends on a file's text and on the dependencies it records, and on nothing else. */
module TracedReads {
  import opened Analysis
  import opened Paths
  import opened Wrappers

  /** What the import hop can see of a path: its text, or that it cannot be read. */
  function Seen(disk: Disk, path: Path): Option<Text> {
    match Read(disk, path)
    case Readable(text) => Some(text)
    case _ => None
  }

  ghost predicate AgreeOn(d1: Disk, d2: Disk, paths: seq<Path>) {
    forall p :: p in paths ==> Seen(d1, p) == Seen(d2, p)
  }

  /** Agreeing on what was consulted is enough to consult the same again. */
  lemma {:induction false} ConsultAgrees(d1: Disk, d2: Disk, candidates: seq<Path>)
    requires AgreeOn(d1, d2, Consult(d1, candidates).0)
    ensures Consult(d1, candidates) == Consult(d2, candidates)
  {
    if candidates != [] {
      var consulted := Consult(d1, candidates).0;
      assert consulted[0] == candidates[0] && Seen(d1, candidates[0]) == Seen(d2, candidates[0]);
      if Seen(d1, candidates[0]).None? {
        var rest := Consult(d1, candidates[1..]).0;
        assert forall p :: p in rest ==> p in consulted;
        ConsultAgrees(d1, d2, candidates[1..]);
      }
    }
  }

  /** The bindings of two disks: the same names, and the same binding wherever they agree on its paths. */
  ghost predicate Corresponding(d1: Disk, d2: Disk, b1: map<string, Binding>, b2: map<string, Binding>) {
    && b1.Keys == b2.Keys
    && forall name :: name in b1 && AgreeOn(d1, d2, b1[name].paths) ==> b1[name] == b2[name]
  }

  lemma {:induction false} BindCorresponds(project: Project, d1: Disk, d2: Disk, candidates: seq<Path>,
                                           requested: seq<(string, string)>, b1: map<string, Binding>, b2: map<string,
                                           Binding>)
    requires Corresponding(d1, d2, b1, b2)
    ensures Corresponding(d1, d2, Bind(project, d1, candidates, requested, b1),
                          Bind(project, d2, candidates, requested, b2))
    decreases |requested|
  {
    if requested != [] {
      var (local, exported) := requested[0];
      var (c1, t1) := Consult(d1, candidates);
      var (c2, t2) := Consult(d2, candidates);
      if AgreeOn(d1, d2, c1) {
        ConsultAgrees(d1, d2, candidates);
      }
      BindCorresponds(project, d1, d2, candidates, requested[1..],
                      b1[local := Binding(c1, Resolution(project, t1, exported))],
                      b2[local := Binding(c2, Resolution(project, t2, exported))]);
    }
  }

  lemma {:induction false} BindImportsCorrespond(project: Project, d1: Disk, d2: Disk, imports: seq<ImportDecl>,
                                                 b1: map<string, Binding>, b2: map<string, Binding>)
    requires Corresponding(d1, d2, b1, b2)
    ensures Corresponding(d1, d2, BindImports(project, d1, imports, b1), BindImports(project, d2, imports, b2))
    decreases |imports|
  {
    if imports != [] {
      BindCorresponds(project, d1, d2, imports[0].candidates, imports[0].requested, b1, b2);
      BindImportsCorrespond(project, d1, d2, imports[1..],
                            Bind(project, d1, imports[0].candidates, imports[0].requested, b1),
                            Bind(project, d2, imports[0].candidates, imports[0].requested, b2));
    }
  }

  lemma {:induction false} AddUsedAdds(used: seq<Path>, paths: seq<Path>)
    ensures forall p :: p in AddUsed(used, paths) <==> p in used || p in paths
    decreases |paths|
  {
    if paths != [] {
      AddUsedAdds(if paths[0] in used then used else used + [paths[0]], paths[1..]);
    }
  }

  /** Dependencies recorded so far stay recorded. */
  lemma {:induction false} UsedIsKept(step: seq<Answer> -> Step, limit: nat, bindings: map<string, Binding>,
                                      answers: seq<Answer>, used: seq<Path>)
    ensures forall p :: p in used ==> p in RunDiscovery(step, limit, bindings, answers, used).dependencies
    decreases limit
  {
    match step(answers) {
      case Done(_) =>
      case LookUp(name) =>
        if limit > 0 {
          if name in bindings {
            AddUsedAdds(used, bindings[name].paths);
            UsedIsKept(step, limit - 1, bindings, answers + [Imported(bindings[name].resolution)],
                       AddUsed(used, bindings[name].paths));
          } else {
            UsedIsKept(step, limit - 1, bindings, answers + [NotImported], used);
          }
        }
    }
  }

  lemma {:induction false} RunsAlike(d1: Disk, d2: Disk, step: seq<Answer> -> Step, limit: nat,
                                     b1: map<string, Binding>,
                                     b2: map<string, Binding>, answers: seq<Answer>, used: seq<Path>)
    requires Corresponding(d1, d2, b1, b2)
    requires AgreeOn(d1, d2, RunDiscovery(step, limit, b1, answers, used).dependencies)
    ensures RunDiscovery(step, limit, b1, answers, used) == RunDiscovery(step, limit, b2, answers, used)
    decreases limit
  {
    match step(answers) {
      case Done(_) =>
      case LookUp(name) =>
        if limit > 0 {
          if name in b1 {
            var next := AddUsed(used, b1[name].paths);
            AddUsedAdds(used, b1[name].paths);
            UsedIsKept(step, limit - 1, b1, answers + [Imported(b1[name].resolution)], next);
            assert b1[name] == b2[name];
            RunsAlike(d1, d2, step, limit - 1, b1, b2, answers + [Imported(b1[name].resolution)], next);
          } else {
            RunsAlike(d1, d2, step, limit - 1, b1, b2, answers + [NotImported], used);
          }
        }
    }
  }

  /** Two disks that agree on every recorded dependency, candidates recorded as unreadable included,
      give the same discovery and record the same dependencies. */
  lemma TracedReadsDetermineDiscovery(project: Project, d1: Disk, d2: Disk, path: Path, text: Text)
    requires AgreeOn(d1, d2, Discover(project, d1, path, text).dependencies)
    ensures Discover(project, d1, path, text) == Discover(project, d2, path, text)
  {
    match project.parse(path, text) {
      case ParseFailed(_) =>
      case Program(imports, step, limit) =>
        BindImportsCorrespond(project, d1, d2, imports, map[], map[]);
        RunsAlike(d1, d2, step, limit, BindImports(project, d1, imports, map[]),
                  BindImports(project, d2, imports, map[]), [], []);
    }
  }

  // ----- What a resolution depends on -----

  /** The first candidate in the discovered set, the disk not probed. */
  function FirstListed(files: set<Path>, candidates: seq<Path>): Option<Path> {
    if candidates == [] then None
    else if candidates[0] in files then Some(candidates[0])
    else FirstListed(files, candidates[1..])
  }

  /** Probing the disk changes nothing exactly when the first listed candidate is a file there. */
  lemma {:induction false} ProbeMatters(disk: Disk, files: set<Path>, candidates: seq<Path>)
    ensures FirstFile(disk, files, candidates) == FirstListed(files, candidates) <==>
      var first := FirstListed(files, candidates); first.Some? ==> first.value in disk
    ensures FirstFile(disk, files, candidates).Some? ==> FirstFile(disk, files, candidates).value in disk
    decreases |candidates|
  {
    if candidates != [] {
      ProbeMatters(disk, files, candidates[1..]);
    }
  }

  /** Every specifier's first listed candidate is a file on this disk. */
  ghost predicate ProbesAsListed(project: Project, disk: Disk, files: set<Path>, path: Path, specifiers: seq<string>) {
    forall i :: 0 <= i < |specifiers| && project.virtualModule(specifiers[i]).None? ==>
      var first := FirstListed(files, project.resolutionCandidates(path, specifiers[i]));
      first.Some? ==> first.value in disk
  }

  lemma {:induction false} FirstListedIsListed(files: set<Path>, candidates: seq<Path>)
    ensures FirstListed(files, candidates).Some? ==> FirstListed(files, candidates).value in files
  {
    if candidates != [] {
      FirstListedIsListed(files, candidates[1..]);
    }
  }

  lemma ListedOnDisk(project: Project, disk: Disk, files: set<Path>, path: Path, specifiers: seq<string>)
    requires files <= disk.Keys
    ensures ProbesAsListed(project, disk, files, path, specifiers)
  {
    forall i | 0 <= i < |specifiers|
      ensures var first := FirstListed(files, project.resolutionCandidates(path, specifiers[i]));
              first.Some? ==> first.value in disk
    {
      FirstListedIsListed(files, project.resolutionCandidates(path, specifiers[i]));
    }
  }

  lemma {:induction false} ResolvesByElement(project: Project, disk: Disk, files: set<Path>, path: Path,
                                             specifiers: seq<string>)
    ensures |ResolveImports(project, disk, files, path, specifiers)| == |specifiers|
    ensures forall i :: 0 <= i < |specifiers| ==>
      ResolveImports(project, disk, files, path, specifiers)[i]
        == ResolveImport(project, disk, files, path, specifiers[i])
    decreases |specifiers|
  {
    if specifiers != [] {
      ResolvesByElement(project, disk, files, path, specifiers[1..]);
    }
  }

  /** Two disks resolve alike when on one every listed file is present and on the other the probes come
      out as listed; and only then. */
  lemma ResolvesAlike(project: Project, disk: Disk, full: Disk, files: set<Path>, path: Path, specifiers: seq<string>)
    requires files <= full.Keys
    ensures ResolveImports(project, disk, files, path, specifiers)
            == ResolveImports(project, full, files, path, specifiers)
            <==> ProbesAsListed(project, disk, files, path, specifiers)
  {
    ResolvesByElement(project, disk, files, path, specifiers);
    ResolvesByElement(project, full, files, path, specifiers);
    var here, there := ResolveImports(project, disk, files, path, specifiers),
      ResolveImports(project, full, files, path, specifiers);
    forall i | 0 <= i < |specifiers|
      ensures here[i] == there[i] <==>
        (project.virtualModule(specifiers[i]).None? ==>
          var first := FirstListed(files, project.resolutionCandidates(path, specifiers[i]));
            first.Some? ==> first.value in disk)
    {
      var candidates := project.resolutionCandidates(path, specifiers[i]);
      FirstListedIsListed(files, candidates);
      ProbeMatters(disk, files, candidates);
      ProbeMatters(full, files, candidates);
    }
  }
}
