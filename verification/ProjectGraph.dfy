/** Building the project graph with every per-file fact read through a cache. */
module ProjectGraph {
  import opened Analysis
  import opened Caches
  import opened Paths
  import opened Wrappers

  /** What a pass over the remaining files adds to what is collected. */
  function Continue<T>(done: seq<T>, rest: Result<seq<T>, string>): Result<seq<T>, string> {
    match rest
    case Ok(more) => Ok(done + more)
    case Err(error) => Err(error)
  }

  lemma ContinueOne<T>(done: seq<T>, x: T, rest: Result<seq<T>, string>)
    ensures rest.Ok? ==> Continue(done, Ok([x] + rest.value)) == Continue(done + [x], rest)
  {
    if rest.Ok? {
      assert done + ([x] + rest.value) == done + [x] + rest.value;
    }
  }

  lemma NothingDone<T, U>(s: seq<T>, whole: Result<seq<U>, string>)
    ensures s[0..] == s && Continue([], whole) == whole
  {
    assert whole.Ok? ==> [] + whole.value == whole.value;
  }

  lemma DropOne<T>(s: seq<T>, i: nat)
    requires i < |s|
    ensures s[i..][0] == s[i] && s[i..][1..] == s[i + 1..]
  {
  }

  lemma AllTaken<T, U>(s: seq<T>, i: nat, done: seq<U>)
    requires i == |s|
    ensures s[..i] == s && s[i..] == [] && done + [] == done
  {
  }

  method ClassesCached(cache: GraphCache, files: seq<Path>) returns (classes: seq<string>)
    requires cache.Valid()
    modifies cache`classifications
    ensures cache.Valid() && classes == Classes(cache.project, files)
  {
    classes := [];
    var i := 0;
    assert [] + Classes(cache.project, files[0..]) == Classes(cache.project, files) by { assert files[0..] == files; }
    while i < |files|
      invariant 0 <= i <= |files| && cache.Valid()
      invariant Classes(cache.project, files) == classes + Classes(cache.project, files[i..])
    {
      assert files[i..][0] == files[i] && files[i..][1..] == files[i + 1..];
      var kind := cache.Classify(files[i]);
      assert classes + ([kind] + Classes(cache.project, files[i + 1..]))
             == classes + [kind] + Classes(cache.project, files[i + 1..]);
      classes := classes + [kind];
      i := i + 1;
    }
    assert classes + [] == classes;
  }

  /** Everything the discovery passes want of one file. */
  method FileFactsCached(cache: GraphCache, disk: Disk, path: Path, ghost shown: Disk)
    returns (r: Result<FileFacts, string>)
    requires cache.Valid() && cache.Shown(disk) == shown
    modifies cache`keyed, cache`discoveries, cache`stats, cache.sources
    ensures cache.Valid() && cache.Shown(disk) == shown
    ensures r == if Read(shown, path).Readable? then Ok(FactsOf(cache.project, shown, path, Read(shown, path).text))
                 else Err(ReadError(Read(shown, path)))
  {
    var source := cache.sources.Get(disk, path);
    if !source.Readable? {
      return Err(ReadError(source));
    }
    var exports: Option<Fact> := None;
    if cache.project.isEntry(path) {
      var fact := cache.FactFor(ModuleExports, path, source.text);
      exports := Some(fact);
    }
    var discovery := cache.Discovery(disk, path, source.text);
    var rawRemote: Option<Fact> := None;
    if cache.project.rawRemoteChecked {
      var fact := cache.FactFor(RawRemoteUsages, path, source.text);
      rawRemote := Some(fact);
    }
    r := Ok(FileFacts(path, exports, discovery, rawRemote));
  }

  method FactsCached(cache: GraphCache, disk: Disk, files: seq<Path>) returns (r: Result<seq<FileFacts>, string>)
    requires cache.Valid()
    modifies cache`keyed, cache`discoveries, cache`stats, cache.sources
    ensures cache.Valid() && cache.Shown(disk) == old(cache.Shown(disk))
    ensures r == AllFacts(cache.project, old(cache.Shown(disk)), files)
  {
    ghost var shown := cache.Shown(disk);
    ghost var whole := AllFacts(cache.project, shown, files);
    var facts: seq<FileFacts> := [];
    var i := 0;
    NothingDone(files, whole);
    while i < |files|
      invariant 0 <= i <= |files|
      invariant cache.Valid() && cache.Shown(disk) == shown
      invariant whole == Continue(facts, AllFacts(cache.project, shown, files[i..]))
    {
      DropOne(files, i);
      if !cache.project.isTest(files[i]) {
        var one := FileFactsCached(cache, disk, files[i], shown);
        if one.Err? {
          return Err(one.error);
        }
        ContinueOne(facts, one.value, AllFacts(cache.project, shown, files[i + 1..]));
        facts := facts + [one.value];
      }
      i := i + 1;
    }
    AllTaken(files, i, facts);
    r := Ok(facts);
  }

  /** The accesses found in one file left shared. */
  method FileServicesCached(cache: GraphCache, disk: Disk, path: Path, ghost shown: Disk)
    returns (r: Result<(Path, Fact), string>)
    requires cache.Valid() && cache.Shown(disk) == shown
    modifies cache`keyed, cache`stats, cache.sources
    ensures cache.Valid() && cache.Shown(disk) == shown
    ensures r == if Read(shown, path).Readable? then
              Ok((path, cache.project.fact(ServerServiceAccesses, path, Read(shown, path).text)))
                 else Err(ReadError(Read(shown, path)))
  {
    var source := cache.sources.Get(disk, path);
    if !source.Readable? {
      return Err(ReadError(source));
    }
    var fact := cache.FactFor(ServerServiceAccesses, path, source.text);
    r := Ok((path, fact));
  }

  method ServicesCached(cache: GraphCache, disk: Disk, facts: seq<FileFacts>, files: seq<Path>)
    returns (r: Result<seq<(Path, Fact)>, string>)
    requires cache.Valid()
    modifies cache`keyed, cache`stats, cache.sources
    ensures cache.Valid() && cache.Shown(disk) == old(cache.Shown(disk))
    ensures r == AllServices(cache.project, old(cache.Shown(disk)), facts, files)
  {
    ghost var shown := cache.Shown(disk);
    ghost var whole := AllServices(cache.project, shown, facts, files);
    var services: seq<(Path, Fact)> := [];
    var i := 0;
    NothingDone(files, whole);
    while i < |files|
      invariant 0 <= i <= |files|
      invariant cache.Valid() && cache.Shown(disk) == shown
      invariant whole == Continue(services, AllServices(cache.project, shown, facts, files[i..]))
    {
      DropOne(files, i);
      if cache.project.isShared(facts, files[i]) {
        var one := FileServicesCached(cache, disk, files[i], shown);
        if one.Err? {
          return Err(one.error);
        }
        ContinueOne(services, one.value, AllServices(cache.project, shown, facts, files[i + 1..]));
        services := services + [one.value];
      }
      i := i + 1;
    }
    AllTaken(files, i, services);
    r := Ok(services);
  }

  /** One file's imports, with cached answers in front of the probing; the answer is kept. */
  method FileImportsCached(cache: GraphCache, disk: Disk, all: set<Path>, path: Path, text: Text, ghost shown: Disk)
    returns (r: FileImports)
    requires cache.Valid() && cache.fileSet == cache.project.fileSetHash(all) && Read(shown, path) == Readable(text)
    modifies cache`keyed, cache`resolved, cache`origins, cache`stats
    ensures cache.Valid()
    ensures r == ImportsOf(cache.project, disk, old(cache.resolved), all, path, text)
    ensures cache.resolved == Recorded(cache.project, old(cache.resolved), disk, all, path, text)
    ensures KeptOrMade(old(cache.origins), cache.origins, shown, disk, all)
  {
    var imports := cache.FactFor(StaticImports, path, text);
    var resolved: seq<Option<Path>> := [];
    if imports.Ok? {
      resolved := cache.Resolutions(disk, path, text, imports.value, all);
    }
    r := FileImports(path, imports, resolved);
  }

  /** Every cached answer was there before, or was made on this disk for these files and the text shown because
      none had been. */
  ghost predicate KeptOrMade(before: map<Path, Origin>, after: map<Path, Origin>, shown: Disk, disk: Disk,
                             all: set<Path>) {
    forall p {:trigger IsKeptOrMade(before, after, shown, disk, all, p)} ::
          IsKeptOrMade(before, after, shown, disk, all, p)
  }

  ghost predicate IsKeptOrMade(before: map<Path, Origin>, after: map<Path, Origin>, shown: Disk, disk: Disk,
                               all: set<Path>, path: Path) {
    && (path in before ==> path in after)
    && (path in after ==>
          || (path in before && after[path] == before[path])
          || (&& Read(shown, path) == Readable(after[path].text) && after[path] == Origin(disk, all, after[path].text)
              && !MadeFor(before, all, path, after[path].text)))
  }

  /** The same answers for every file as it is shown. */
  ghost predicate SameAnswers(project: Project, before: Memory, after: Memory,
                              shown: Disk, disk: Disk, all: set<Path>) {
    forall p {:trigger SameAnswer(project, before, after, shown, disk, all, p)} ::
          SameAnswer(project, before, after, shown, disk, all, p)
  }

  ghost predicate SameAnswer(project: Project, before: Memory, after: Memory,
                             shown: Disk, disk: Disk, all: set<Path>, path: Path) {
    var read := Read(shown, path);
    read.Readable? ==>
        ImportsOf(project, disk, after, all, path, read.text) == ImportsOf(project, disk, before, all, path, read.text)
  }

  /** The file was read, and has an answer in the cache if its imports could be listed. */
  ghost predicate Answered(project: Project, memory: Memory, entries: map<Path, ReadResult>, shown: Disk,
                           all: set<Path>, path: Path) {
    var read := Read(shown, path);
    && Normalize(path) in entries && read.Readable?
    && (project.fact(StaticImports, path, read.text).Ok? ==> Hit(project, memory, all, path, read.text))
  }

  /** How far an import pass has come: what it began with, and what it has by now. */
  ghost predicate PassedOver(project: Project, memory: Memory, now: Memory,
                             entries: map<Path, ReadResult>, shown: Disk, disk: Disk, all: set<Path>,
                             files: seq<Path>) {
    && SameAnswers(project, memory, now, shown, disk, all)
    && forall p {:trigger Answered(project, now, entries, shown, all, p)} ::
         p in files ==> Answered(project, now, entries, shown, all, p)
  }

  lemma PassesOver(project: Project, memory: Memory, before: Memory, shown: Disk, disk: Disk,
                   all: set<Path>, files: seq<Path>, path: Path, entries: map<Path, ReadResult>, grown: map<Path,
                   ReadResult>)
    requires PassedOver(project, memory, before, entries, shown, disk, all, files)
    requires Read(shown, path).Readable? && KeepsReads(entries, grown) && Normalize(path) in grown
    ensures PassedOver(project, memory, Recorded(project, before, disk, all, path, Read(shown, path).text), grown,
                       shown, disk, all, files + [path])
    ensures ImportsOf(project, disk, before, all, path, Read(shown, path).text)
            == ImportsOf(project, disk, memory, all, path, Read(shown, path).text)
  {
    var text := Read(shown, path).text;
    var next := Recorded(project, before, disk, all, path, text);
    assert SameAnswer(project, memory, before, shown, disk, all, path);
    forall p
      ensures SameAnswer(project, memory, next, shown, disk, all, p)
    {
      assert SameAnswer(project, memory, before, shown, disk, all, p);
      if Read(shown, p).Readable? {
        RecordingKeepsAnswers(project, before, disk, all, path, text, p, Read(shown, p).text);
      }
    }
    forall p | p in files + [path]
      ensures Answered(project, next, grown, shown, all, p)
    {
      assert p in files ==> Answered(project, before, entries, shown, all, p);
    }
  }

  /** One more file read: what is collected, then the rest. */
  lemma ImportsStep(project: Project, shown: Disk, disk: Disk, memory: Memory, all: set<Path>, files: seq<Path>,
                    i: nat, imports: seq<FileImports>)
    requires i < |files|
    ensures Continue(imports, AllImports(project, shown, disk, memory, all, files[i..]))
            == if Read(shown, files[i]).Readable?
               then Continue(imports + [ImportsOf(project, disk, memory, all, files[i], Read(shown, files[i]).text)],
                             AllImports(project, shown, disk, memory, all, files[i + 1..]))
               else Err(ReadError(Read(shown, files[i])))
  {
    assert files[i..][0] == files[i] && files[i..][1..] == files[i + 1..];
    if Read(shown, files[i]).Readable? {
      var one := ImportsOf(project, disk, memory, all, files[i], Read(shown, files[i]).text);
      ContinueOne(imports, one, AllImports(project, shown, disk, memory, all, files[i + 1..]));
    }
  }

  /** One file read and its imports resolved. */
  method ImportFile(cache: GraphCache, disk: Disk, all: set<Path>, path: Path, ghost shown: Disk, ghost pass: Pass)
    returns (r: Result<FileImports, string>)
    requires cache.Valid() && cache.Shown(disk) == shown && cache.fileSet == cache.project.fileSetHash(all)
    requires pass.Reached(cache.project, cache.resolved, cache.origins, cache.sources.entries, shown, disk, all)
    modifies cache`keyed, cache`resolved, cache`origins, cache`stats, cache.sources
    ensures cache.Valid() && cache.Shown(disk) == shown
    ensures if Read(shown, path).Readable?
            then && r == Ok(ImportsOf(cache.project, disk, pass.memory, all, path, Read(shown, path).text))
                 && pass.(files := pass.files + [path]).Reached(cache.project, cache.resolved, cache.origins,
                                                                cache.sources.entries,
                                                                shown, disk, all)
            else && r == Err(ReadError(Read(shown, path)))
                 && pass.(files := []).Reached(cache.project, cache.resolved, cache.origins, cache.sources.entries,
                                               shown, disk, all)
  {
    ghost var before, entries := cache.resolved, cache.sources.entries;
    var source := cache.sources.Get(disk, path);
    if !source.Readable? {
      return Err(ReadError(source));
    }
    PassesOver(cache.project, pass.memory, before, shown, disk, all, pass.files, path, entries, cache.sources.entries);
    ghost var origins := cache.origins;
    var one := FileImportsCached(cache, disk, all, path, source.text, shown);
    KeptOrMadeTwice(pass.origins, origins, cache.origins, shown, disk, all);
    r := Ok(one);
  }

  lemma KeptOrMadeTwice(first: map<Path, Origin>, second: map<Path, Origin>, third: map<Path, Origin>, shown: Disk,
                        disk: Disk,
                       all: set<Path>)
    requires KeptOrMade(first, second, shown, disk, all) && KeptOrMade(second, third, shown, disk, all)
    ensures KeptOrMade(first, third, shown, disk, all)
  {
    forall p
      ensures IsKeptOrMade(first, third, shown, disk, all, p)
    {
      assert IsKeptOrMade(first, second, shown, disk, all, p) && IsKeptOrMade(second, third, shown, disk, all, p);
    }
  }

  /** An import pass: the cached answers it began with, and the files it has been over. */
  datatype Pass = Pass(memory: Memory, origins: map<Path, Origin>, files: seq<Path>) {
    ghost predicate Reached(project: Project, resolved: Memory, made: map<Path, Origin>, entries: map<Path, ReadResult>,
                            shown: Disk, disk: Disk, all: set<Path>) {
      && PassedOver(project, memory, resolved, entries, shown, disk, all, files)
      && KeptOrMade(origins, made, shown, disk, all)
    }
  }

  lemma TakeOneMore<T>(s: seq<T>, i: nat)
    requires i < |s|
    ensures s[..i + 1] == s[..i] + [s[i]]
  {
  }

  lemma NothingPassed(project: Project, memory: Memory, origins: map<Path, Origin>, entries: map<Path, ReadResult>,
                      shown: Disk, disk: Disk, all: set<Path>)
    ensures Pass(memory, origins, []).Reached(project, memory, origins, entries, shown, disk, all)
  {
  }

  /** The cache is in order, shows what it showed, is set to these files, and has come so far. */
  ghost predicate InPass(cache: GraphCache, disk: Disk, all: set<Path>, shown: Disk, pass: Pass)
    reads cache, cache.sources
  {
    && cache.Valid() && cache.Shown(disk) == shown && cache.fileSet == cache.project.fileSetHash(all)
    && pass.Reached(cache.project, cache.resolved, cache.origins, cache.sources.entries, shown, disk, all)
  }

  /** The next file of a pass: what is collected, and the rest. */
  method NextImports(cache: GraphCache, disk: Disk, all: set<Path>, files: seq<Path>, i: nat, ghost shown: Disk,
                     ghost begun: Pass,
                     ghost imports: seq<FileImports>)
    returns (r: Result<FileImports, string>)
    requires i < |files| && InPass(cache, disk, all, shown, begun.(files := files[..i]))
    modifies cache`keyed, cache`resolved, cache`origins, cache`stats, cache.sources
    ensures InPass(cache, disk, all, shown, begun.(files := if r.Ok? then files[..i + 1] else []))
    ensures Continue(imports, AllImports(cache.project, shown, disk, begun.memory, all, files[i..]))
            == if r.Err? then Err(r.error)
               else Continue(imports + [r.value],
                             AllImports(cache.project, shown, disk, begun.memory, all, files[i + 1..]))
  {
    ImportsStep(cache.project, shown, disk, begun.memory, all, files, i, imports);
    TakeOneMore(files, i);
    r := ImportFile(cache, disk, all, files[i], shown, begun.(files := files[..i]));
  }

  method ImportsCached(cache: GraphCache, disk: Disk, all: set<Path>, files: seq<Path>)
    returns (r: Result<seq<FileImports>, string>)
    requires cache.Valid() && cache.fileSet == cache.project.fileSetHash(all)
    modifies cache`keyed, cache`resolved, cache`origins, cache`stats, cache.sources
    ensures cache.Valid() && cache.Shown(disk) == old(cache.Shown(disk))
    ensures r == AllImports(cache.project, old(cache.Shown(disk)), disk, old(cache.resolved), all, files)
    ensures Pass(old(cache.resolved), old(cache.origins), if r.Ok? then files else []).Reached(
              cache.project, cache.resolved, cache.origins, cache.sources.entries, old(cache.Shown(disk)), disk, all)
  {
    ghost var shown, begun := cache.Shown(disk), Pass(cache.resolved, cache.origins, []);
    NothingPassed(cache.project, cache.resolved, cache.origins, cache.sources.entries, shown, disk, all);
    ghost var whole := AllImports(cache.project, shown, disk, begun.memory, all, files);
    var imports: seq<FileImports> := [];
    var i := 0;
    NothingDone(files, whole);
    while i < |files|
      invariant 0 <= i <= |files|
      invariant InPass(cache, disk, all, shown, begun.(files := files[..i]))
      invariant whole == Continue(imports, AllImports(cache.project, shown, disk, begun.memory, all, files[i..]))
    {
      var one := NextImports(cache, disk, all, files, i, shown, begun, imports);
      if one.Err? {
        return Err(one.error);
      }
      imports := imports + [one.value];
      i := i + 1;
    }
    AllTaken(files, i, imports);
    r := Ok(imports);
  }

  /** The discovery passes and, where it is wanted, the service pass. */
  method PassesCached(cache: GraphCache, disk: Disk, files: seq<Path>)
    returns (r: Result<(seq<FileFacts>, seq<(Path, Fact)>), string>)
    requires cache.Valid()
    modifies cache`keyed, cache`discoveries, cache`stats, cache.sources
    ensures cache.Valid() && cache.Shown(disk) == old(cache.Shown(disk))
    ensures r == Passes(cache.project, old(cache.Shown(disk)), files)
  {
    var facts := FactsCached(cache, disk, files);
    if facts.Err? {
      return Err(facts.error);
    }
    var services: Result<seq<(Path, Fact)>, string> := Ok([]);
    if cache.project.sharedSafety {
      services := ServicesCached(cache, disk, facts.value, files);
    }
    if services.Err? {
      return Err(services.error);
    }
    r := Ok((facts.value, services.value));
  }

  /** The graph of `files`, from what the cache shows and with its cached resolutions in front of the probing.
      What the cache shows does not change. */
  method Build(cache: GraphCache, disk: Disk, files: seq<Path>) returns (r: Result<Graph, string>)
    requires cache.Valid()
    modifies cache, cache.sources
    ensures cache.Valid() && cache.Shown(disk) == old(cache.Shown(disk))
    ensures r == GraphOf(cache.project, old(cache.Shown(disk)), disk, old(cache.resolved), files)
    ensures Pass(old(cache.resolved), old(cache.origins), if r.Ok? then files else []).Reached(
              cache.project, cache.resolved, cache.origins, cache.sources.entries, old(cache.Shown(disk)), disk,
                FileSet(files))
  {
    var all := FileSet(files);
    cache.SetFileSet(all);
    var classes := ClassesCached(cache, files);
    var found := PassesCached(cache, disk, files);
    if found.Err? {
      NothingPassed(cache.project, cache.resolved, cache.origins, cache.sources.entries, cache.Shown(disk), disk, all);
      return Err(found.error);
    }
    var imports := ImportsCached(cache, disk, all, files);
    r := match imports case Err(error) => Err(error)
      case Ok(list) => Ok(Graph(classes, found.value.0, found.value.1, list));
  }

  // ----- What is remembered matters -----

  /** Two memories answer alike for a file as it is on disk. */
  ghost predicate AlikeFor(project: Project, disk: Disk, onDisk: Disk, one: Memory, other: Memory, all: set<Path>,
                           path: Path) {
    Read(disk, path).Readable? ==>
      ImportsOf(project, onDisk, one, all, path, Read(disk, path).text)
        == ImportsOf(project, onDisk, other, all, path, Read(disk, path).text)
  }

  lemma {:induction false} ImportsAlike(project: Project, disk: Disk, onDisk: Disk, one: Memory, other: Memory,
                                        all: set<Path>, files: seq<Path>)
    ensures AllImports(project, disk, onDisk, one, all, files) == AllImports(project, disk, onDisk, other, all, files)
            <==> AllImports(project, disk, onDisk, other, all, files).Err?
                 || forall p :: p in files ==> AlikeFor(project, disk, onDisk, one, other, all, p)
    ensures AllImports(project, disk, onDisk, one, all, files).Err?
            <==> AllImports(project, disk, onDisk, other, all, files).Err?
    decreases |files|
  {
    if files != [] && Read(disk, files[0]).Readable? {
      ImportsAlike(project, disk, onDisk, one, other, all, files[1..]);
      var first := ImportsOf(project, onDisk, one, all, files[0], Read(disk, files[0]).text);
      var second := ImportsOf(project, onDisk, other, all, files[0], Read(disk, files[0]).text);
      var rest, others := AllImports(project, disk, onDisk, one, all, files[1..]),
        AllImports(project, disk, onDisk, other, all, files[1..]);
      if rest.Ok? && others.Ok? {
        SameCons(first, rest.value, second, others.value);
        assert AlikeFor(project, disk, onDisk, one, other, all, files[0]) <==> first == second;
        assert AllImports(project, disk, onDisk, one, all, files) == Ok([first] + rest.value);
        assert AllImports(project, disk, onDisk, other, all, files) == Ok([second] + others.value);
        assert forall p :: p in files <==> p == files[0] || p in files[1..];
      }
    }
  }

  lemma SameCons<T>(x: T, xs: seq<T>, y: T, ys: seq<T>)
    ensures [x] + xs == [y] + ys <==> x == y && xs == ys
  {
    assert ([x] + xs)[0] == x && ([y] + ys)[0] == y && ([x] + xs)[1..] == xs && ([y] + ys)[1..] == ys;
  }

  /** Two memories give one graph exactly when they answer alike for every file, or no graph is made. */
  lemma GraphsAlike(project: Project, disk: Disk, onDisk: Disk, one: Memory, other: Memory, files: seq<Path>)
    ensures GraphOf(project, disk, onDisk, one, files) == GraphOf(project, disk, onDisk, other, files)
            <==> GraphOf(project, disk, onDisk, other, files).Err?
                 || forall p :: p in files ==> AlikeFor(project, disk, onDisk, one, other, FileSet(files), p)
  {
    ImportsAlike(project, disk, onDisk, one, other, FileSet(files), files);
  }
}
