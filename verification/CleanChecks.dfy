/** What a clean check finds: which files imports lead to, and what the graph says of each file. */
module CleanChecks {
  import opened Analysis
  import opened Paths
  import opened TracedReads
  import opened Wrappers

  // ----- Looking for a file -----

  ghost predicate NoneSeen(disk: Disk, paths: seq<Path>) {
    forall p :: p in paths ==> Seen(disk, p).None?
  }

  /** The hop goes through the candidates in order and stops at the first it can read, having consulted those up to
      there; or it reads none, having consulted all. */
  lemma {:induction false} ConsultFindsFirst(disk: Disk, candidates: seq<Path>)
    ensures var (consulted, target) := Consult(disk, candidates);
            match target
            case None => consulted == candidates && NoneSeen(disk, candidates)
            case Some((path, text)) =>
              && consulted != [] && consulted <= candidates && consulted[|consulted| - 1] == path
              && Read(disk, path) == Readable(text) && NoneSeen(disk, consulted[..|consulted| - 1])
  {
    if candidates != [] && Seen(disk, candidates[0]).None? {
      ConsultFindsFirst(disk, candidates[1..]);
      var (later, target) := Consult(disk, candidates[1..]);
      if target.Some? {
        assert ([candidates[0]] + later)[..|later|] == [candidates[0]] + later[..|later| - 1];
      }
    }
  }

  ghost predicate IsListedFile(disk: Disk, files: set<Path>, path: Path) {
    path in disk && path in files
  }

  ghost predicate FirstAt(disk: Disk, files: set<Path>, candidates: seq<Path>, k: int) {
    0 <= k < |candidates| && IsListedFile(disk, files, candidates[k])
    && forall j :: 0 <= j < k ==> !IsListedFile(disk, files, candidates[j])
  }

  /** An import resolves to the first candidate that is on disk and listed, if there is one. */
  lemma {:induction false} FirstFileIsFirst(disk: Disk, files: set<Path>, candidates: seq<Path>)
    ensures match FirstFile(disk, files, candidates)
            case None => forall j :: 0 <= j < |candidates| ==> !IsListedFile(disk, files, candidates[j])
            case Some(path) => exists k :: FirstAt(disk, files, candidates, k) && candidates[k] == path
  {
    if candidates != [] {
      if IsListedFile(disk, files, candidates[0]) {
        assert FirstAt(disk, files, candidates, 0);
      } else {
        var rest := candidates[1..];
        FirstFileIsFirst(disk, files, rest);
        assert forall j :: 0 < j < |candidates| ==> candidates[j] == rest[j - 1];
        if k :| FirstAt(disk, files, rest, k) && Some(rest[k]) == FirstFile(disk, files, rest) {
          assert FirstAt(disk, files, candidates, k + 1);
        }
      }
    }
  }

  // ----- What an imported name stands for -----

  /** The j-th name of the i-th import. */
  ghost predicate Asks(imports: seq<ImportDecl>, i: int, j: int, name: string) {
    0 <= i < |imports| && 0 <= j < |imports[i].requested| && imports[i].requested[j].0 == name
  }

  ghost predicate AsksLast(imports: seq<ImportDecl>, i: int, j: int, name: string) {
    && Asks(imports, i, j, name)
    && forall k, l :: Asks(imports, k, l, name) ==> k < i || (k == i && l <= j)
  }

  function BindingOf(project: Project, disk: Disk, candidates: seq<Path>, exported: string): Binding {
    var (consulted, target) := Consult(disk, candidates);
    Binding(consulted, Resolution(project, target, exported))
  }

  /** Of one import's names, the last of a name counts, and the names bound before stay. */
  lemma {:induction false} BindIs(project: Project, disk: Disk, candidates: seq<Path>, requested: seq<(string, string)>,
                                  bindings: map<string, Binding>, name: string)
    ensures var bound := Bind(project, disk, candidates, requested, bindings);
            && ((forall j :: 0 <= j < |requested| ==> requested[j].0 != name) ==>
                  (name in bound <==> name in bindings) && (name in bound ==> bound[name] == bindings[name]))
            && forall j :: LastOf(requested, j, name) ==>
                 name in bound && bound[name] == BindingOf(project, disk, candidates, requested[j].1)
    decreases |requested|
  {
    if requested != [] {
      var (local, exported) := requested[0];
      var rest, more := requested[1..], bindings[local := BindingOf(project, disk, candidates, exported)];
      BindIs(project, disk, candidates, rest, more, name);
      assert forall j :: 0 < j < |requested| ==> requested[j] == rest[j - 1];
      forall j | LastOf(requested, j, name)
        ensures j > 0 ==> LastOf(rest, j - 1, name)
        ensures j == 0 ==> forall k :: 0 <= k < |rest| ==> rest[k].0 != name
      {
        if j > 0 {
          forall k | 0 <= k < |rest| && rest[k].0 == name
            ensures k <= j - 1
          {
            assert requested[k + 1].0 == name;
          }
        } else {
          forall k | 0 <= k < |rest|
            ensures rest[k].0 != name
          {
            assert requested[k + 1] == rest[k];
          }
        }
      }
    }
  }

  ghost predicate LastOf(requested: seq<(string, string)>, j: int, name: string) {
    && 0 <= j < |requested| && requested[j].0 == name
    && forall k :: 0 <= k < |requested| && requested[k].0 == name ==> k <= j
  }

  lemma AsksShift(imports: seq<ImportDecl>, name: string)
    requires imports != []
    ensures forall i, j :: i > 0 ==> (Asks(imports, i, j, name) <==> Asks(imports[1..], i - 1, j, name))
    ensures forall i, j :: AsksLast(imports, i, j, name) && i > 0 ==> AsksLast(imports[1..], i - 1, j, name)
    ensures forall j :: AsksLast(imports, 0, j, name) ==>
              LastOf(imports[0].requested, j, name) && forall k, l :: !Asks(imports[1..], k, l, name)
  {
    forall k, l | Asks(imports[1..], k, l, name)
      ensures Asks(imports, k + 1, l, name)
    {
    }
    forall j, l | AsksLast(imports, 0, j, name) && 0 <= l < |imports[0].requested| && imports[0].requested[l].0 == name
      ensures l <= j
    {
      assert Asks(imports, 0, l, name);
    }
  }

  lemma {:induction false} BindImportsIs(project: Project, disk: Disk, imports: seq<ImportDecl>,
                                         bindings: map<string, Binding>, name: string)
    ensures var bound := BindImports(project, disk, imports, bindings);
            && ((forall i, j :: !Asks(imports, i, j, name)) ==>
                  (name in bound <==> name in bindings) && (name in bound ==> bound[name] == bindings[name]))
            && forall i, j :: AsksLast(imports, i, j, name) ==>
                 && name in bound
                 && bound[name] == BindingOf(project, disk, imports[i].candidates, imports[i].requested[j].1)
    decreases |imports|
  {
    if imports != [] {
      var first := Bind(project, disk, imports[0].candidates, imports[0].requested, bindings);
      BindIs(project, disk, imports[0].candidates, imports[0].requested, bindings, name);
      BindImportsIs(project, disk, imports[1..], first, name);
      AsksShift(imports, name);
      if forall i, j :: !Asks(imports, i, j, name) {
        forall j | 0 <= j < |imports[0].requested|
          ensures imports[0].requested[j].0 != name
        {
          assert !Asks(imports, 0, j, name);
        }
        forall i, j
          ensures !Asks(imports[1..], i, j, name)
        {
          assert !Asks(imports, i + 1, j, name);
        }
      }
    }
  }

  /** A name no import asks for is not bound; one that is stands for what the last import that asks for it leads to,
      under the last of the names it is asked for as. */
  lemma NamesAreBound(project: Project, disk: Disk, imports: seq<ImportDecl>, name: string)
    ensures var bound := BindImports(project, disk, imports, map[]);
            && ((forall i, j :: !Asks(imports, i, j, name)) ==> name !in bound)
            && forall i, j :: AsksLast(imports, i, j, name) ==>
                 && name in bound
                 && bound[name] == BindingOf(project, disk, imports[i].candidates, imports[i].requested[j].1)
  {
    BindImportsIs(project, disk, imports, map[], name);
  }

  // ----- What discovery records -----

  /** The names discovery looks up. */
  function LookedUp(step: seq<Answer> -> Step, limit: nat, bindings: map<string, Binding>, answers: seq<Answer>):
      set<string>
    decreases limit
  {
    match step(answers)
    case Done(_) => {}
    case LookUp(name) =>
      if limit == 0 then {}
      else
        var answer := if name in bindings then Imported(bindings[name].resolution) else NotImported;
        {name} + LookedUp(step, limit - 1, bindings, answers + [answer])
  }

  ghost predicate ConsultedFor(bindings: map<string, Binding>, names: set<string>, path: Path) {
    exists name :: name in names && name in bindings && path in bindings[name].paths
  }

  ghost predicate NoneTwice(paths: seq<Path>) {
    forall i, j :: 0 <= i < j < |paths| ==> paths[i] != paths[j]
  }

  lemma {:induction false} AddUsedOnce(used: seq<Path>, paths: seq<Path>)
    requires NoneTwice(used)
    ensures NoneTwice(AddUsed(used, paths))
    decreases |paths|
  {
    if paths != [] {
      AddUsedOnce(if paths[0] in used then used else used + [paths[0]], paths[1..]);
    }
  }

  lemma {:induction false} RunRecords(step: seq<Answer> -> Step, limit: nat, bindings: map<string, Binding>,
                                      answers: seq<Answer>, used: seq<Path>)
    requires NoneTwice(used)
    ensures var recorded := RunDiscovery(step, limit, bindings, answers, used).dependencies;
            && NoneTwice(recorded)
            && forall p :: p in recorded
                 <==> p in used || ConsultedFor(bindings, LookedUp(step, limit, bindings, answers), p)
    decreases limit
  {
    match step(answers) {
      case Done(_) =>
      case LookUp(name) =>
        if limit > 0 {
          var later := answers + [if name in bindings then Imported(bindings[name].resolution) else NotImported];
          var next := if name in bindings then AddUsed(used, bindings[name].paths) else used;
          if name in bindings {
            AddUsedAdds(used, bindings[name].paths);
            AddUsedOnce(used, bindings[name].paths);
          }
          RunRecords(step, limit - 1, bindings, later, next);
          var names := LookedUp(step, limit - 1, bindings, later);
          forall p
            ensures ConsultedFor(bindings, {name} + names, p)
                    <==> ConsultedFor(bindings, names, p) || (name in bindings && p in bindings[name].paths)
          {
          }
        }
    }
  }

  /** Discovery records exactly the files consulted for the imported names it looked up, each once. */
  lemma DependenciesAreConsulted(project: Project, disk: Disk, path: Path, text: Text)
    requires project.parse(path, text).Program?
    ensures var parsed := project.parse(path, text);
            var bindings := BindImports(project, disk, parsed.imports, map[]);
            var recorded := Discover(project, disk, path, text).dependencies;
            && NoneTwice(recorded)
            && forall p :: p in recorded
                 <==> ConsultedFor(bindings, LookedUp(parsed.step, parsed.limit, bindings, []), p)
  {
    var parsed := project.parse(path, text);
    RunRecords(parsed.step, parsed.limit, BindImports(project, disk, parsed.imports, map[]), [], []);
  }

  // ----- The graph of a clean check -----

  function Chosen(files: seq<Path>, wanted: Path -> bool): seq<Path> {
    if files == [] then []
    else if wanted(files[0]) then [files[0]] + Chosen(files[1..], wanted)
    else Chosen(files[1..], wanted)
  }

  ghost predicate AllRead(disk: Disk, files: seq<Path>) {
    forall p :: p in files ==> Read(disk, p).Readable?
  }

  /** Some file could not be read, and this is why. */
  ghost predicate SomeUnread(disk: Disk, files: seq<Path>, error: string) {
    exists p :: p in files && !Read(disk, p).Readable? && error == ReadError(Read(disk, p))
  }

  /** The facts of each file, from its text. */
  ghost predicate AreFactsOf(project: Project, disk: Disk, facts: seq<FileFacts>, files: seq<Path>) {
    && |facts| == |files|
    && forall i :: 0 <= i < |files| ==>
         Read(disk, files[i]).Readable? && facts[i] == FactsOf(project, disk, files[i], Read(disk, files[i]).text)
  }

  lemma FactsFirst(project: Project, disk: Disk, facts: seq<FileFacts>, files: seq<Path>, path: Path)
    requires AreFactsOf(project, disk, facts, files) && Read(disk, path).Readable?
    ensures AreFactsOf(project, disk, [FactsOf(project, disk, path, Read(disk, path).text)] + facts, [path] + files)
  {
  }

  /** The files the discovery passes go over. */
  function NotTests(project: Project, files: seq<Path>): seq<Path> {
    Chosen(files, p => !project.isTest(p))
  }

  lemma {:induction false} FactsAre(project: Project, disk: Disk, files: seq<Path>)
    ensures match AllFacts(project, disk, files)
            case Ok(facts) => AreFactsOf(project, disk, facts, NotTests(project, files))
            case Err(error) => SomeUnread(disk, files, error)
    decreases |files|
  {
    if files != [] {
      FactsAre(project, disk, files[1..]);
      var rest := AllFacts(project, disk, files[1..]);
      if rest.Ok? && Read(disk, files[0]).Readable? {
        FactsFirst(project, disk, rest.value, NotTests(project, files[1..]), files[0]);
      }
    }
  }

  ghost predicate AreServicesOf(project: Project, disk: Disk, services: seq<(Path, Fact)>, files: seq<Path>) {
    && |services| == |files|
    && forall i :: 0 <= i < |files| ==>
         && Read(disk, files[i]).Readable?
         && services[i] == (files[i], project.fact(ServerServiceAccesses, files[i], Read(disk, files[i]).text))
  }

  lemma {:induction false} ServicesAre(project: Project, disk: Disk, facts: seq<FileFacts>, files: seq<Path>)
    ensures var shared := Chosen(files, p => project.isShared(facts, p));
            match AllServices(project, disk, facts, files)
            case Ok(services) => AreServicesOf(project, disk, services, shared)
            case Err(error) => SomeUnread(disk, files, error)
    decreases |files|
  {
    if files != [] {
      ServicesAre(project, disk, facts, files[1..]);
    }
  }

  /** An import's specifier leads to the virtual module of that name, or to its first candidate that is a listed
      file on disk. */
  ghost predicate LeadsTo(project: Project, disk: Disk, files: set<Path>, path: Path, specifier: string,
                          target: Option<Path>) {
    if project.virtualModule(specifier).Some? then target == project.virtualModule(specifier)
    else
      var candidates := project.resolutionCandidates(path, specifier);
      if target.None? then forall j :: 0 <= j < |candidates| ==> !IsListedFile(disk, files, candidates[j])
      else exists k :: FirstAt(disk, files, candidates, k) && candidates[k] == target.value
  }

  ghost predicate AreImportsOf(project: Project, disk: Disk, all: set<Path>, path: Path, imports: FileImports) {
    && Read(disk, path).Readable? && imports.path == path
    && imports.imports == project.fact(StaticImports, path, Read(disk, path).text)
    && (imports.imports.Err? ==> imports.resolved == [])
    && (imports.imports.Ok? ==>
          && |imports.resolved| == |imports.imports.value|
          && forall i :: 0 <= i < |imports.resolved| ==>
               LeadsTo(project, disk, all, path, imports.imports.value[i], imports.resolved[i]))
  }

  lemma ImportsOfAre(project: Project, disk: Disk, all: set<Path>, path: Path)
    requires Read(disk, path).Readable?
    ensures AreImportsOf(project, disk, all, path, ImportsOf(project, disk, map[], all, path, Read(disk, path).text))
  {
    var imports := project.fact(StaticImports, path, Read(disk, path).text);
    if imports.Ok? {
      ResolvesByElement(project, disk, all, path, imports.value);
      forall i | 0 <= i < |imports.value|
        ensures LeadsTo(project, disk, all, path, imports.value[i],
                        ResolveImport(project, disk, all, path, imports.value[i]))
      {
        FirstFileIsFirst(disk, all, project.resolutionCandidates(path, imports.value[i]));
      }
    }
  }

  lemma {:induction false} ImportsAre(project: Project, disk: Disk, all: set<Path>, files: seq<Path>)
    ensures match AllImports(project, disk, disk, map[], all, files)
            case Ok(imports) =>
              && AllRead(disk, files) && |imports| == |files|
              && forall i :: 0 <= i < |files| ==> AreImportsOf(project, disk, all, files[i], imports[i])
            case Err(error) => SomeUnread(disk, files, error)
    decreases |files|
  {
    if files != [] {
      ImportsAre(project, disk, all, files[1..]);
      if Read(disk, files[0]).Readable? {
        ImportsOfAre(project, disk, all, files[0]);
      }
    }
  }

  lemma {:induction false} ClassesAre(project: Project, files: seq<Path>)
    ensures |Classes(project, files)| == |files|
    ensures forall i :: 0 <= i < |files| ==> Classes(project, files)[i] == project.classify(files[i])
  {
    if files != [] {
      ClassesAre(project, files[1..]);
    }
  }

  /** Everything a graph says is from the listed files' texts, in the order of the list. */
  ghost predicate IsGraphOf(project: Project, disk: Disk, files: seq<Path>, graph: Graph) {
    && |graph.classes| == |files| == |graph.imports|
    && (forall i :: 0 <= i < |files| ==> graph.classes[i] == project.classify(files[i]))
    && AreFactsOf(project, disk, graph.facts, NotTests(project, files))
    && AreServicesOf(project, disk, graph.services,
                     if project.sharedSafety then Chosen(files, p => project.isShared(graph.facts, p)) else [])
    && forall i :: 0 <= i < |files| ==> AreImportsOf(project, disk, FileSet(files), files[i], graph.imports[i])
  }

  /** A clean check gives a graph exactly when it can read every listed file, and then this one; if not, the error
      is that of one it could not read. */
  lemma CleanCheckIs(project: Project, disk: Disk)
    ensures var files := project.listing(SourceFiles(project, disk));
            match CleanCheck(project, disk)
            case Ok(graph) => AllRead(disk, files) && IsGraphOf(project, disk, files, graph)
            case Err(error) => SomeUnread(disk, files, error)
  {
    var files := project.listing(SourceFiles(project, disk));
    FactsAre(project, disk, files);
    ClassesAre(project, files);
    var facts := AllFacts(project, disk, files);
    if facts.Ok? {
      ServicesAre(project, disk, facts.value, files);
      ImportsAre(project, disk, FileSet(files), files);
    }
  }
}
