/** What a clean check computes from a disk, per file and for the project.

    Parsing, classification and the syntactic analyses are parameters of a `Project`: each is some
    function of a path and a text. What is modelled is which files each fact reads. */
module Analysis {
  import opened Paths
  import opened Wrappers

  type Text = string

  // ----- The disk -----

  datatype ReadResult = Readable(text: Text) | Unreadable(error: string) | Missing

  /** The files there are, by normalized path. */
  type Disk = d: map<Path, ReadResult> | Missing !in d.Values

  function At(disk: Disk, path: Path): ReadResult {
    if path in disk then disk[path] else Missing
  }

  function Read(disk: Disk, path: Path): ReadResult {
    At(disk, Normalize(path))
  }

  // ----- The project -----

  datatype FactKind = ModuleExports | RawRemoteUsages | ServerServiceAccesses | StaticImports

  type Fact = Result<seq<string>, string>

  /** A relative import as the schema hop sees it: where its module may be, and the names it asks for
      as (local, exported) pairs. */
  datatype ImportDecl = ImportDecl(candidates: seq<Path>, requested: seq<(string, string)>)

  /** What looking up an imported name can tell discovery. */
  datatype Answer = NotImported | Imported(resolution: string)

  datatype Step = LookUp(name: string) | Done(result: string)

  /** A parsed file. Discovery is a program that knows other files only through the answers it got;
      `limit` bounds how many it asks for. */
  datatype Parsed =
    | ParseFailed(error: string)
    | Program(imports: seq<ImportDecl>, step: seq<Answer> -> Step, limit: nat)

  datatype Project = Project(
    hash: Text -> nat,
    fileSetHash: set<Path> -> nat,
    isSource: Path -> bool,
    listing: set<Path> -> seq<Path>,
    classify: Path -> string,
    isTest: Path -> bool,
    isEntry: Path -> bool,
    rawRemoteChecked: bool,
    sharedSafety: bool,
    fact: (FactKind, Path, Text) -> Fact,
    parse: (Path, Text) -> Parsed,
    hop: (Path, Text, string) -> string,
    hopFailed: string -> string,
    isShared: (seq<FileFacts>, Path) -> bool,
    virtualModule: string -> Option<Path>,
    resolutionCandidates: (Path, string) -> seq<Path>
  )

  /** Hashes tell contents and file sets apart; listing a set of files loses none and adds none. */
  ghost predicate IsProject(project: Project) {
    && (forall t, u :: project.hash(t) == project.hash(u) ==> t == u)
    && (forall s, t :: project.fileSetHash(s) == project.fileSetHash(t) ==> s == t)
    && (forall s :: FileSet(project.listing(s)) == s)
  }

  // ----- The schema import hop -----

  /** The candidates consulted, up to and including the first that can be read, and that one. */
  function Consult(disk: Disk, candidates: seq<Path>): (seq<Path>, Option<(Path, Text)>) {
    if candidates == [] then ([], None)
    else
      match Read(disk, candidates[0])
      case Readable(text) => ([candidates[0]], Some((candidates[0], text)))
      case _ =>
        var (consulted, target) := Consult(disk, candidates[1..]);
        ([candidates[0]] + consulted, target)
  }

  /** What an imported name resolved to, and every path consulted for it. */
  datatype Binding = Binding(paths: seq<Path>, resolution: string)

  function Resolution(project: Project, target: Option<(Path, Text)>, exported: string): string {
    match target
    case None => project.hopFailed(exported)
    case Some((path, text)) => project.hop(path, text, exported)
  }

  function Bind(project: Project, disk: Disk, candidates: seq<Path>, requested: seq<(string, string)>,
                bindings: map<string, Binding>): map<string, Binding> {
    if requested == [] then bindings
    else
      var (consulted, target) := Consult(disk, candidates);
      var (local, exported) := requested[0];
      Bind(project, disk, candidates, requested[1..],
           bindings[local := Binding(consulted, Resolution(project, target, exported))])
  }

  /** Every relative import's names; a later declaration of a name replaces an earlier one. */
  function BindImports(project: Project, disk: Disk, imports: seq<ImportDecl>, bindings: map<string, Binding>):
    map<string, Binding>
  {
    if imports == [] then bindings
    else BindImports(project, disk, imports[1..],
                     Bind(project, disk, imports[0].candidates, imports[0].requested, bindings))
  }

  // ----- Discovery with traced lookups -----

  /** The paths not yet recorded, in order. */
  function AddUsed(used: seq<Path>, paths: seq<Path>): seq<Path>
    decreases |paths|
  {
    if paths == [] then used
    else AddUsed(if paths[0] in used then used else used + [paths[0]], paths[1..])
  }

  datatype Discovered = Discovered(value: Result<string, string>, dependencies: seq<Path>)

  function RunDiscovery(step: seq<Answer> -> Step, limit: nat, bindings: map<string, Binding>,
                        answers: seq<Answer>, used: seq<Path>): Discovered
    decreases limit
  {
    match step(answers)
    case Done(result) => Discovered(Ok(result), used)
    case LookUp(name) =>
      if limit == 0 then Discovered(Ok(""), used)
      else if name in bindings then
        RunDiscovery(step, limit - 1, bindings, answers + [Imported(bindings[name].resolution)],
                     AddUsed(used, bindings[name].paths))
      else RunDiscovery(step, limit - 1, bindings, answers + [NotImported], used)
  }

  function Discover(project: Project, disk: Disk, path: Path, text: Text): Discovered {
    match project.parse(path, text)
    case ParseFailed(error) => Discovered(Err(error), [])
    case Program(imports, step, limit) =>
      RunDiscovery(step, limit, BindImports(project, disk, imports, map[]), [], [])
  }

  // ----- Import resolution -----

  /** The first candidate that is a file on disk and in the discovered set. */
  function FirstFile(disk: Disk, files: set<Path>, candidates: seq<Path>): Option<Path> {
    if candidates == [] then None
    else if candidates[0] in disk && candidates[0] in files then Some(candidates[0])
    else FirstFile(disk, files, candidates[1..])
  }

  function ResolveImport(project: Project, disk: Disk, files: set<Path>, path: Path, specifier: string): Option<Path> {
    match project.virtualModule(specifier)
    case Some(generated) => Some(generated)
    case None => FirstFile(disk, files, project.resolutionCandidates(path, specifier))
  }

  function ResolveImports(project: Project, disk: Disk, files: set<Path>, path: Path, specifiers: seq<string>):
    seq<Option<Path>>
  {
    if specifiers == [] then []
    else
      [ResolveImport(project, disk, files, path, specifiers[0])]
      + ResolveImports(project, disk, files, path, specifiers[1..])
  }

  /** How a file's imports once resolved, with the hashes of the file and of the file set. */
  datatype ResolutionEntry = ResolutionEntry(sourceHash: nat, fileSet: nat, value: seq<Option<Path>>)

  type Memory = map<Path, ResolutionEntry>

  predicate Hit(project: Project, memory: Memory, files: set<Path>, path: Path, text: Text) {
    && path in memory
    && memory[path].sourceHash == project.hash(text) && memory[path].fileSet == project.fileSetHash(files)
  }

  /** Resolving with remembered answers in front of the probing; a clean check remembers none. */
  function Resolve(project: Project, disk: Disk, memory: Memory, files: set<Path>, path: Path, text: Text,
                   specifiers: seq<string>):
    seq<Option<Path>>
  {
    if Hit(project, memory, files, path, text) then memory[path].value
    else ResolveImports(project, disk, files, path, specifiers)
  }

  // ----- The project graph -----

  datatype FileFacts = FileFacts(path: Path, exports: Option<Fact>, discovery: Result<string, string>,
                                 rawRemote: Option<Fact>)

  datatype FileImports = FileImports(path: Path, imports: Fact, resolved: seq<Option<Path>>)

  /** Everything the graph, the diagnostics and the manifest are assembled from. */
  datatype Graph = Graph(classes: seq<string>, facts: seq<FileFacts>, services: seq<(Path, Fact)>,
                         imports: seq<FileImports>)

  function Classes(project: Project, files: seq<Path>): seq<string> {
    if files == [] then [] else [project.classify(files[0])] + Classes(project, files[1..])
  }

  /** A read error stops the check with its message. */
  function ReadError(r: ReadResult): string
    requires !r.Readable?
  {
    if r.Unreadable? then r.error else "not found"
  }

  function FactsOf(project: Project, disk: Disk, path: Path, text: Text): FileFacts {
    FileFacts(
      path,
      if project.isEntry(path) then Some(project.fact(ModuleExports, path, text)) else None,
      Discover(project, disk, path, text).value,
      if project.rawRemoteChecked then Some(project.fact(RawRemoteUsages, path, text)) else None)
  }

  /** The discovery passes over every file that is not a spec. */
  function AllFacts(project: Project, disk: Disk, files: seq<Path>): Result<seq<FileFacts>, string> {
    if files == [] then Ok([])
    else if project.isTest(files[0]) then AllFacts(project, disk, files[1..])
    else
      match Read(disk, files[0])
      case Readable(text) =>
        (match AllFacts(project, disk, files[1..])
         case Err(error) => Err(error)
         case Ok(rest) => Ok([FactsOf(project, disk, files[0], text)] + rest))
      case unread => Err(ReadError(unread))
  }

  /** The server-service pass over the files the discoveries left shared. */
  function AllServices(project: Project, disk: Disk, facts: seq<FileFacts>, files: seq<Path>):
      Result<seq<(Path, Fact)>, string> {
    if files == [] then Ok([])
    else if !project.isShared(facts, files[0]) then AllServices(project, disk, facts, files[1..])
    else
      match Read(disk, files[0])
      case Readable(text) =>
        (match AllServices(project, disk, facts, files[1..])
         case Err(error) => Err(error)
         case Ok(rest) => Ok([(files[0], project.fact(ServerServiceAccesses, files[0], text))] + rest))
      case unread => Err(ReadError(unread))
  }

  function ImportsOf(project: Project, onDisk: Disk, memory: Memory, all: set<Path>, path: Path, text: Text):
      FileImports {
    var imports := project.fact(StaticImports, path, text);
    FileImports(path, imports,
                if imports.Ok? then Resolve(project, onDisk, memory, all, path, text, imports.value) else [])
  }

  /** The import pass: contents are read from `disk`, candidates probed on `onDisk`. */
  function AllImports(project: Project, disk: Disk, onDisk: Disk, memory: Memory, all: set<Path>, files: seq<Path>):
    Result<seq<FileImports>, string>
  {
    if files == [] then Ok([])
    else
      match Read(disk, files[0])
      case Readable(text) =>
        (match AllImports(project, disk, onDisk, memory, all, files[1..])
         case Err(error) => Err(error)
         case Ok(rest) => Ok([ImportsOf(project, onDisk, memory, all, files[0], text)] + rest))
      case unread => Err(ReadError(unread))
  }

  function FileSet(files: seq<Path>): set<Path> {
    set p | p in files
  }

  function Passes(project: Project, disk: Disk, files: seq<Path>): Result<(seq<FileFacts>, seq<(Path, Fact)>), string> {
    match AllFacts(project, disk, files)
    case Err(error) => Err(error)
    case Ok(facts) =>
      match (if project.sharedSafety then AllServices(project, disk, facts, files) else Ok([]))
      case Err(error) => Err(error)
      case Ok(services) => Ok((facts, services))
  }

  function GraphOf(project: Project, disk: Disk, onDisk: Disk, memory: Memory, files: seq<Path>):
      Result<Graph, string> {
    match Passes(project, disk, files)
    case Err(error) => Err(error)
    case Ok((facts, services)) =>
      match AllImports(project, disk, onDisk, memory, FileSet(files), files)
      case Err(error) => Err(error)
      case Ok(imports) => Ok(Graph(Classes(project, files), facts, services, imports))
  }

  /** The source files a walk finds. */
  function SourceFiles(project: Project, disk: Disk): set<Path> {
    set p | p in disk && project.isSource(p)
  }

  /** The one-shot compiler: walk, then build everything from what is on disk. */
  function CleanCheck(project: Project, disk: Disk): Result<Graph, string> {
    GraphOf(project, disk, disk, map[], project.listing(SourceFiles(project, disk)))
  }
}
