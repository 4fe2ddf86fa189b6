/** The import boundary rules, and what following them edge by edge gives along whole import paths. */
module Boundaries {
  import opened Bytes
  import opened Wrappers

  /** A module's path in the project. */
  type Name = Text

  datatype ModuleKind = Client | Server | Shared | ClientEntry | ServerEntry | ServerAction | ServerStore | Test
      | Unknown

  datatype Import = Import(from: Name, to: Option<Name>, resolved: bool, typeOnly: bool,
                           importerKind: ModuleKind, importedKind: Option<ModuleKind>)

  datatype Diagnostic = Diagnostic(code: nat, importer: Name, importerKind: ModuleKind, importedKind: ModuleKind)

  // ----- The rules -----

  function NormalizeBoundaryKind(kind: ModuleKind): ModuleKind {
    match kind
    case Client | ClientEntry => Client
    case Server | ServerEntry | ServerAction | ServerStore => Server
    case Shared => Shared
    case Test => Shared
    case Unknown => Shared
  }

  /** The number of the diagnostic an import between modules of these kinds gets. */
  function BoundaryCode(importer: ModuleKind, imported: ModuleKind): Option<nat> {
    if imported.Test? && !importer.Test? then Some(305)
    else if importer.Test? then None
    else if (importer.Client? || importer.ClientEntry?) && imported.ServerAction? then Some(556)
    else if (importer.Client? || importer.ClientEntry?) && imported.ServerStore? then Some(574)
    else
      match (NormalizeBoundaryKind(importer), NormalizeBoundaryKind(imported))
      case (Client, Server) => Some(300)
      case (Server, Client) => Some(301)
      case (Shared, Client) => Some(302)
      case (Shared, Server) => Some(303)
      case _ => None
  }

  function BoundaryDiagnostic(edge: Import): Option<Diagnostic> {
    if !edge.resolved || edge.typeOnly || edge.importedKind.None? then None
    else
      match BoundaryCode(edge.importerKind, edge.importedKind.value)
      case None => None
      case Some(code) => Some(Diagnostic(code, edge.from, edge.importerKind, edge.importedKind.value))
  }

  function BoundaryDiagnosticsOf(imports: seq<Import>): seq<Diagnostic> {
    if imports == [] then []
    else
      var last := |imports| - 1;
      BoundaryDiagnosticsOf(imports[..last])
      + (match BoundaryDiagnostic(imports[last]) case None => [] case Some(d) => [d])
  }

  method BoundaryDiagnostics(imports: seq<Import>) returns (diagnostics: seq<Diagnostic>)
    ensures diagnostics == BoundaryDiagnosticsOf(imports)
    ensures diagnostics == [] <==> forall edge :: edge in imports ==> BoundaryDiagnostic(edge).None?
  {
    diagnostics := [];
    for i := 0 to |imports|
      invariant diagnostics == BoundaryDiagnosticsOf(imports[..i])
      invariant diagnostics == [] <==> forall edge :: edge in imports[..i] ==> BoundaryDiagnostic(edge).None?
    {
      assert imports[..i + 1][..i] == imports[..i];
      var boundary := BoundaryDiagnostic(imports[i]);
      if boundary.Some? {
        diagnostics := diagnostics + [boundary.value];
      }
    }
    assert imports[..|imports|] == imports;
  }

  // ----- Sides -----

  datatype Side = ServerSide | ClientSide

  function SideOf(kind: ModuleKind): Option<Side> {
    match kind
    case Server | ServerEntry | ServerAction | ServerStore => Some(ServerSide)
    case Client | ClientEntry => Some(ClientSide)
    case _ => None
  }

  predicate IsSharedLike(kind: ModuleKind) {
    kind.Shared? || kind.Unknown?
  }

  /** What code of one kind may load: a spec anything, everything else no spec, nothing of a side other
      than its own, and code of no side nothing of either. */
  predicate MayLoad(importer: ModuleKind, imported: ModuleKind) {
    importer.Test? || (!imported.Test? && (SideOf(imported).None? || SideOf(imported) == SideOf(importer)))
  }

  lemma CodesForbidExactly(importer: ModuleKind, imported: ModuleKind)
    ensures BoundaryCode(importer, imported).None? <==> MayLoad(importer, imported)
  {
  }

  /** Each code names the crossing it reports. */
  lemma CodesNameTheCrossing(importer: ModuleKind, imported: ModuleKind, code: nat)
    requires BoundaryCode(importer, imported) == Some(code)
    ensures code == 305 <==> imported.Test?
    ensures code == 301 <==> SideOf(importer) == Some(ServerSide) && SideOf(imported) == Some(ClientSide)
    ensures code == 302 <==> IsSharedLike(importer) && SideOf(imported) == Some(ClientSide)
    ensures code == 303 <==> IsSharedLike(importer) && SideOf(imported) == Some(ServerSide)
    ensures code in {300, 556, 574} <==> SideOf(importer) == Some(ClientSide) && SideOf(imported) == Some(ServerSide)
    ensures SideOf(importer) == Some(ClientSide) ==>
              (code == 556 <==> imported.ServerAction?) && (code == 574 <==> imported.ServerStore?)
  {
  }

  // ----- Along paths -----

  /** Every importer is a module, and the kinds an edge carries are those of the modules it joins. */
  ghost predicate FromGraph(kinds: map<Name, ModuleKind>, edge: Import) {
    && edge.from in kinds && edge.importerKind == kinds[edge.from]
    && edge.importedKind
       == (if edge.resolved && edge.to.Some? && edge.to.value in kinds then Some(kinds[edge.to.value]) else None)
  }

  ghost predicate IsGraph(kinds: map<Name, ModuleKind>, imports: seq<Import>) {
    forall edge :: edge in imports ==> FromGraph(kinds, edge)
  }

  predicate Joins(kinds: map<Name, ModuleKind>, edge: Import, a: Name, b: Name) {
    edge.resolved && !edge.typeOnly && edge.from == a && edge.to == Some(b) && b in kinds
  }

  /** One module loads another: an import that was resolved to it and is not erased. */
  ghost predicate Loads(kinds: map<Name, ModuleKind>, imports: seq<Import>, a: Name, b: Name) {
    a in kinds && exists edge :: edge in imports && Joins(kinds, edge, a, b)
  }

  /** A module, one it loads, one that loads, ... */
  ghost predicate IsPath(kinds: map<Name, ModuleKind>, imports: seq<Import>, path: seq<Name>)
    ensures IsPath(kinds, imports, path) ==> |path| >= 2 && path[0] in kinds && path[|path| - 1] in kinds
    decreases |path|
  {
    && |path| >= 2
    && Loads(kinds, imports, path[0], path[1])
    && (|path| > 2 ==> IsPath(kinds, imports, path[1..]))
  }

  ghost predicate Isolated(kinds: map<Name, ModuleKind>, imports: seq<Import>) {
    forall path :: IsPath(kinds, imports, path) ==> MayLoad(kinds[path[0]], kinds[path[|path| - 1]])
  }

  lemma LoadsAllowed(kinds: map<Name, ModuleKind>, imports: seq<Import>, a: Name, b: Name)
    requires IsGraph(kinds, imports) && Loads(kinds, imports, a, b)
    requires forall edge :: edge in imports ==> BoundaryDiagnostic(edge).None?
    ensures MayLoad(kinds[a], kinds[b])
  {
    var edge :| edge in imports && Joins(kinds, edge, a, b);
    assert FromGraph(kinds, edge);
    CodesForbidExactly(kinds[a], kinds[b]);
  }

  lemma {:induction false} PathAllowed(kinds: map<Name, ModuleKind>, imports: seq<Import>, path: seq<Name>)
    requires IsGraph(kinds, imports) && IsPath(kinds, imports, path)
    requires forall edge :: edge in imports ==> BoundaryDiagnostic(edge).None?
    ensures MayLoad(kinds[path[0]], kinds[path[|path| - 1]])
    decreases |path|
  {
    LoadsAllowed(kinds, imports, path[0], path[1]);
    if |path| > 2 {
      PathAllowed(kinds, imports, path[1..]);
    }
  }

  /** No edge of the import graph is reported exactly when no import path of any length leads from client code to
      server code, from server code to client code, from code of neither side to either, or from game code to a spec. */
  lemma LocalRulesIsolate(kinds: map<Name, ModuleKind>, imports: seq<Import>)
    requires IsGraph(kinds, imports)
    ensures (forall edge :: edge in imports ==> BoundaryDiagnostic(edge).None?) <==> Isolated(kinds, imports)
  {
    if forall edge :: edge in imports ==> BoundaryDiagnostic(edge).None? {
      forall path | IsPath(kinds, imports, path)
        ensures MayLoad(kinds[path[0]], kinds[path[|path| - 1]])
      {
        PathAllowed(kinds, imports, path);
      }
    }
    if Isolated(kinds, imports) {
      forall edge | edge in imports
        ensures BoundaryDiagnostic(edge).None?
      {
        assert FromGraph(kinds, edge);
        CodesForbidExactly(edge.importerKind, if edge.importedKind.Some? then edge.importedKind.value else Unknown);
        if edge.resolved && !edge.typeOnly && edge.importedKind.Some? {
          var path := [edge.from, edge.to.value];
          assert Joins(kinds, edge, path[0], path[1]);
          assert IsPath(kinds, imports, path);
        }
      }
    }
  }
}
