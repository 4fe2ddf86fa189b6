/** Which shared modules load server (or client) code through other shared modules, and by which shortest chain. */
module SharedSafety {
  import opened Boundaries
  import opened Order
  import opened Wrappers

  datatype Module = Module(path: Name, kind: ModuleKind)

  datatype Transitive = Transitive(side: Side, chain: seq<Name>, firstEdge: Option<Import>)

  type Kinds = map<Name, ModuleKind>

  /** Kinds by path; a later record of a path wins. */
  function KindsOf(modules: seq<Module>): Kinds {
    if modules == [] then map[]
    else
      var last := |modules| - 1;
      KindsOf(modules[..last])[modules[last].path := modules[last].kind]
  }

  // ----- Edges and chains -----

  /** The first import by which one module loads another. */
  function FirstJoin(kinds: Kinds, imports: seq<Import>, a: Name, b: Name): Option<Import> {
    if imports == [] then None
    else
      var last := |imports| - 1;
      var earlier := FirstJoin(kinds, imports[..last], a, b);
      if earlier.Some? then earlier
      else if Joins(kinds, imports[last], a, b) then Some(imports[last])
      else None
  }

  predicate Edge(kinds: Kinds, imports: seq<Import>, a: Name, b: Name) {
    a in kinds && a != b && FirstJoin(kinds, imports, a, b).Some?
  }

  lemma {:induction false} FirstJoinFinds(kinds: Kinds, imports: seq<Import>, a: Name, b: Name)
    ensures FirstJoin(kinds, imports, a, b).Some? <==> exists edge :: edge in imports && Joins(kinds, edge, a, b)
    ensures FirstJoin(kinds, imports, a, b).Some? ==>
              var edge := FirstJoin(kinds, imports, a, b).value; edge in imports && Joins(kinds, edge, a, b)
  {
    if imports != [] {
      var last := |imports| - 1;
      FirstJoinFinds(kinds, imports[..last], a, b);
      assert imports == imports[..last] + [imports[last]];
    }
  }

  lemma EdgeLoads(kinds: Kinds, imports: seq<Import>, a: Name, b: Name)
    ensures Edge(kinds, imports, a, b) <==> Loads(kinds, imports, a, b) && a != b
  {
    FirstJoinFinds(kinds, imports, a, b);
  }

  /** A shared module, one it loads, ... and at the end a module of the side: all but the last shared or unclassified.
      */
  ghost predicate IsChain(kinds: Kinds, imports: seq<Import>, side: Side, chain: seq<Name>)
    decreases |chain|
  {
    && chain != [] && chain[0] in kinds
    && if |chain| == 1 then SideOf(kinds[chain[0]]) == Some(side)
       else
         && IsSharedLike(kinds[chain[0]])
         && Edge(kinds, imports, chain[0], chain[1])
         && IsChain(kinds, imports, side, chain[1..])
  }

  ghost predicate IsShortest(kinds: Kinds, imports: seq<Import>, side: Side, chain: seq<Name>) {
    && IsChain(kinds, imports, side, chain)
    && forall other :: IsChain(kinds, imports, side, other) && other[0] == chain[0] ==> |chain| <= |other|
  }

  /** It reaches the side, but never by one import alone. */
  ghost predicate ReachesThroughOthers(kinds: Kinds, imports: seq<Import>, side: Side, path: Name) {
    && path in kinds && IsSharedLike(kinds[path])
    && (exists chain :: IsChain(kinds, imports, side, chain) && chain[0] == path)
    && (forall chain :: IsChain(kinds, imports, side, chain) && chain[0] == path ==> |chain| >= 3)
  }

  // ----- Building the edges -----

  datatype Target = Target(to: Name, edge: Import)

  function Find(targets: seq<Target>, to: Name): Option<Import> {
    if targets == [] then None
    else
      var last := |targets| - 1;
      var earlier := Find(targets[..last], to);
      if earlier.Some? then earlier else if targets[last].to == to then Some(targets[last].edge) else None
  }

  function Targets(forward: map<Name, seq<Target>>, from: Name): seq<Target> {
    if from in forward then forward[from] else []
  }

  function Importers(reverse: map<Name, set<Name>>, to: Name): set<Name> {
    if to in reverse then reverse[to] else {}
  }

  ghost predicate IsForward(kinds: Kinds, imports: seq<Import>, forward: map<Name, seq<Target>>) {
    forall a, b :: a != b ==> Find(Targets(forward, a), b) == FirstJoin(kinds, imports, a, b)
  }

  ghost predicate IsReverse(kinds: Kinds, imports: seq<Import>, reverse: map<Name, set<Name>>) {
    forall a, b :: a in Importers(reverse, b) <==> a != b && FirstJoin(kinds, imports, a, b).Some?
  }

  lemma JoinOne(kinds: Kinds, imports: seq<Import>, edge: Import, a: Name, b: Name)
    ensures FirstJoin(kinds, imports + [edge], a, b) ==
            if FirstJoin(kinds, imports, a, b).Some? then FirstJoin(kinds, imports, a, b)
            else if Joins(kinds, edge, a, b) then Some(edge) else None
  {
    assert (imports + [edge])[..|imports|] == imports;
  }

  lemma FindOne(targets: seq<Target>, target: Target, to: Name)
    ensures Find(targets + [target], to) ==
            if Find(targets, to).Some? then Find(targets, to) else if target.to == to then Some(target.edge) else None
  {
    assert (targets + [target])[..|targets|] == targets;
  }

  lemma SkipEdge(kinds: Kinds, imports: seq<Import>, edge: Import, forward: map<Name, seq<Target>>,
                 reverse: map<Name, set<Name>>)
    requires IsForward(kinds, imports, forward) && IsReverse(kinds, imports, reverse)
    requires forall a, b :: a != b ==> !Joins(kinds, edge, a, b)
    ensures IsForward(kinds, imports + [edge], forward) && IsReverse(kinds, imports + [edge], reverse)
  {
    forall a, b ensures a != b ==> FirstJoin(kinds, imports + [edge], a, b) == FirstJoin(kinds, imports, a, b) {
      JoinOne(kinds, imports, edge, a, b);
    }
  }

  lemma AddForward(kinds: Kinds, imports: seq<Import>, edge: Import, forward: map<Name, seq<Target>>, to: Name)
    requires IsForward(kinds, imports, forward) && Joins(kinds, edge, edge.from, to) && edge.from != to
    ensures var targets := Targets(forward, edge.from);
            IsForward(kinds, imports + [edge],
                      forward[edge.from := if Find(targets, to).None? then targets + [Target(to, edge)] else targets])
  {
    var targets := Targets(forward, edge.from);
    forall b ensures Find(targets + [Target(to, edge)], b) ==
                     if Find(targets, b).Some? then Find(targets, b) else if b == to then Some(edge) else None {
      FindOne(targets, Target(to, edge), b);
    }
    forall a, b ensures FirstJoin(kinds, imports + [edge], a, b) ==
                        if FirstJoin(kinds, imports, a, b).Some? then FirstJoin(kinds, imports, a, b)
                        else if Joins(kinds, edge, a, b) then Some(edge) else None {
      JoinOne(kinds, imports, edge, a, b);
    }
  }

  lemma AddReverse(kinds: Kinds, imports: seq<Import>, edge: Import, reverse: map<Name, set<Name>>, to: Name)
    requires IsReverse(kinds, imports, reverse) && Joins(kinds, edge, edge.from, to) && edge.from != to
    ensures IsReverse(kinds, imports + [edge], reverse[to := Importers(reverse, to) + {edge.from}])
  {
    forall a, b ensures FirstJoin(kinds, imports + [edge], a, b).Some? <==>
                        FirstJoin(kinds, imports, a, b).Some? || Joins(kinds, edge, a, b) {
      JoinOne(kinds, imports, edge, a, b);
    }
    var added := reverse[to := Importers(reverse, to) + {edge.from}];
    forall a, b ensures a in Importers(added, b) <==> a in Importers(reverse, b) || (a == edge.from && b == to) {
    }
  }

  /** Runtime edges between project modules, each pair once. */
  method RuntimeEdges(kinds: Kinds, imports: seq<Import>)
    returns (forward: map<Name, seq<Target>>, reverse: map<Name, set<Name>>)
    ensures IsForward(kinds, imports, forward) && IsReverse(kinds, imports, reverse)
  {
    forward, reverse := map[], map[];
    for i := 0 to |imports|
      invariant IsForward(kinds, imports[..i], forward) && IsReverse(kinds, imports[..i], reverse)
    {
      var edge := imports[i];
      assert imports[..i + 1] == imports[..i] + [edge];
      if !edge.resolved || edge.typeOnly || edge.to.None? || edge.to.value !in kinds || edge.to.value == edge.from {
        SkipEdge(kinds, imports[..i], edge, forward, reverse);
        continue;
      }
      var to := edge.to.value;
      var targets := Targets(forward, edge.from);
      AddForward(kinds, imports[..i], edge, forward, to);
      AddReverse(kinds, imports[..i], edge, reverse, to);
      forward := forward[edge.from := if Find(targets, to).None? then targets + [Target(to, edge)] else targets];
      reverse := reverse[to := Importers(reverse, to) + {edge.from}];
    }
    assert imports[..|imports|] == imports;
  }

  // ----- The search -----

  /** A module is labelled as one of the side, at distance zero, or as shared and one step behind the module after it.
      */
  ghost predicate LabelHolds(kinds: Kinds, imports: seq<Import>, side: Side, distance: map<Name, nat>,
                             next: map<Name, Name>, m: Name)
    requires m in distance
  {
    && m in kinds
    && if distance[m] == 0 then SideOf(kinds[m]) == Some(side) && m !in next
       else
         && IsSharedLike(kinds[m]) && m in next && next[m] in distance
         && distance[next[m]] + 1 == distance[m] && Edge(kinds, imports, m, next[m])
  }

  ghost predicate Labelled(kinds: Kinds, imports: seq<Import>, side: Side, distance: map<Name, nat>,
                           next: map<Name, Name>) {
    && next.Keys <= distance.Keys
    && forall m {:trigger LabelHolds(kinds, imports, side, distance, next, m)} ::
         m in distance ==> LabelHolds(kinds, imports, side, distance, next, m)
  }

  ghost predicate HasSources(kinds: Kinds, side: Side, distance: map<Name, nat>) {
    forall m :: m in kinds && SideOf(kinds[m]) == Some(side) ==> m in distance && distance[m] == 0
  }

  ghost predicate InQueueOrder(distance: map<Name, nat>, queue: seq<Name>) {
    && (forall i :: 0 <= i < |queue| ==> queue[i] in distance)
    && (forall i, j :: 0 <= i < j < |queue| ==> queue[i] != queue[j] && distance[queue[i]] <= distance[queue[j]])
  }

  ghost predicate Within(distance: map<Name, nat>, limit: nat) {
    forall m :: m in distance ==> distance[m] <= limit
  }

  ghost predicate Extends(distance: map<Name, nat>, before: map<Name, nat>) {
    forall m :: m in before ==> m in distance && distance[m] == before[m]
  }

  /** All shared importers of a module have been labelled. */
  ghost predicate Expanded(kinds: Kinds, imports: seq<Import>, distance: map<Name, nat>, v: Name) {
    && v in distance
    && forall u ::
         Edge(kinds, imports, u, v) && IsSharedLike(kinds[u]) ==> u in distance && distance[u] <= distance[v] + 1
  }

  /** The side's modules among the paths seen are labelled and queued. */
  ghost predicate SourcesAmong(kinds: Kinds, side: Side, paths: seq<Name>, distance: map<Name, nat>, queue: seq<Name>) {
    && InQueueOrder(distance, queue)
    && (forall m :: m in distance <==> m in queue)
    && (forall m :: m in distance <==> m in paths && m in kinds && SideOf(kinds[m]) == Some(side))
    && (forall m :: m in distance ==> distance[m] == 0)
  }

  lemma OneSource(kinds: Kinds, side: Side, paths: seq<Name>, distance: map<Name, nat>, queue: seq<Name>, path: Name)
    requires SourcesAmong(kinds, side, paths, distance, queue) && path in kinds && path !in paths
    ensures if SideOf(kinds[path]) == Some(side)
            then SourcesAmong(kinds, side, paths + [path], distance[path := 0], queue + [path])
            else SourcesAmong(kinds, side, paths + [path], distance, queue)
  {
  }

  method Sources(kinds: Kinds, side: Side) returns (distance: map<Name, nat>, queue: seq<Name>)
    ensures HasSources(kinds, side, distance) && InQueueOrder(distance, queue)
    ensures forall m :: m in distance <==> m in queue
    ensures forall m :: m in distance ==> m in kinds && SideOf(kinds[m]) == Some(side) && distance[m] == 0
  {
    distance, queue := map[], [];
    var paths := Sorted(kinds.Keys);
    for i := 0 to |paths|
      invariant SourcesAmong(kinds, side, paths[..i], distance, queue)
    {
      assert paths[i] in Elements(paths);
      Ascends(paths, i);
      OneSource(kinds, side, paths[..i], distance, queue, paths[i]);
      if SideOf(kinds[paths[i]]) == Some(side) {
        distance := distance[paths[i] := 0];
        queue := queue + [paths[i]];
      }
    }
    forall m | m in kinds ensures m in paths[..|paths|] {
      assert m in Elements(paths);
    }
  }

  lemma Ascends(paths: seq<Name>, i: nat)
    requires Ascending(paths) && i < |paths|
    ensures paths[i] !in paths[..i] && paths[..i + 1] == paths[..i] + [paths[i]]
  {
    BeforeIsTotal(paths[i], paths[i]);
  }

  lemma LabelOne(kinds: Kinds, imports: seq<Import>, side: Side, distance: map<Name, nat>, next: map<Name, Name>,
                 current: Name, steps: nat, importer: Name)
    requires Labelled(kinds, imports, side, distance, next) && current in distance && distance[current] == steps
    requires importer !in distance && Edge(kinds, imports, importer, current) && IsSharedLike(kinds[importer])
    ensures Labelled(kinds, imports, side, distance[importer := steps + 1], next[importer := current])
  {
    var labelled, onward := distance[importer := steps + 1], next[importer := current];
    forall m | m in labelled
      ensures LabelHolds(kinds, imports, side, labelled, onward, m)
    {
      if m in distance {
        assert LabelHolds(kinds, imports, side, distance, next, m);
      }
    }
  }

  ghost predicate AllHandled(kinds: Kinds, distance: map<Name, nat>, importers: seq<Name>) {
    forall u :: u in importers ==> u in kinds && (IsSharedLike(kinds[u]) ==> u in distance)
  }

  lemma HandleOne(kinds: Kinds, distance: map<Name, nat>, importers: seq<Name>, importer: Name, steps: nat)
    requires AllHandled(kinds, distance, importers) && importer in kinds
    ensures AllHandled(kinds, distance[importer := steps], importers + [importer])
  {
  }

  /** The queue holds what it held and what was labelled since, none of it nearer than `steps`. */
  ghost predicate QueuedSince(before: map<Name, nat>, queue: seq<Name>, distance: map<Name, nat>, now: seq<Name>,
                              steps: nat) {
    && InQueueOrder(distance, now)
    && (forall i :: 0 <= i < |now| ==> steps <= distance[now[i]])
    && (forall m :: m in now <==> m in queue || (m in distance && m !in before))
  }

  lemma QueueOne(before: map<Name, nat>, queue: seq<Name>, distance: map<Name, nat>, now: seq<Name>, steps: nat,
                 importer: Name)
    requires QueuedSince(before, queue, distance, now, steps) && Within(distance, steps + 1)
    requires importer !in distance && Extends(distance, before)
    ensures QueuedSince(before, queue, distance[importer := steps + 1], now + [importer], steps)
  {
    var labelled, queued := distance[importer := steps + 1], now + [importer];
    forall i | 0 <= i < |queued| ensures queued[i] in labelled && steps <= labelled[queued[i]] <= steps + 1 {
    }
    forall m ensures m in queued <==> m in queue || (m in labelled && m !in before) {
      assert m in queued <==> m in now || m == importer;
    }
  }

  lemma HandledIsExpanded(kinds: Kinds, imports: seq<Import>, distance: map<Name, nat>, importers: seq<Name>,
                          current: Name)
    requires current in distance && Within(distance, distance[current] + 1)
    requires forall u :: u in importers <==> Edge(kinds, imports, u, current)
    requires AllHandled(kinds, distance, importers)
    ensures Expanded(kinds, imports, distance, current)
  {
    forall u | Edge(kinds, imports, u, current) && IsSharedLike(kinds[u])
      ensures u in distance && distance[u] <= distance[current] + 1
    {
      assert u in importers;
    }
  }

  /** The importers of one module, labelled one step further than it and queued. */
  method Visit(kinds: Kinds, ghost imports: seq<Import>, ghost side: Side, importers: seq<Name>, current: Name,
               before: map<Name, nat>, after: map<Name, Name>, queue: seq<Name>)
    returns (distance: map<Name, nat>, next: map<Name, Name>, queued: seq<Name>)
    requires Labelled(kinds, imports, side, before, after) && current in before && Within(before, before[current] + 1)
    requires QueuedSince(before, queue, before, queue, before[current])
    requires forall u :: u in importers <==> Edge(kinds, imports, u, current)
    ensures Labelled(kinds, imports, side, distance, next) && Extends(distance, before)
    ensures Within(distance, before[current] + 1) && QueuedSince(before, queue, distance, queued, before[current])
    ensures Expanded(kinds, imports, distance, current)
  {
    distance, next, queued := before, after, queue;
    var steps := before[current];
    for i := 0 to |importers|
      invariant Labelled(kinds, imports, side, distance, next) && Extends(distance, before)
      invariant Within(distance, steps + 1) && QueuedSince(before, queue, distance, queued, steps)
      invariant AllHandled(kinds, distance, importers[..i])
    {
      var importer := importers[i];
      assert importer in importers;
      assert importers[..i + 1] == importers[..i] + [importer];
      if importer in distance || !IsSharedLike(kinds[importer]) {
        continue;
      }
      LabelOne(kinds, imports, side, distance, next, current, steps, importer);
      QueueOne(before, queue, distance, queued, steps, importer);
      HandleOne(kinds, distance, importers[..i], importer, steps + 1);
      distance := distance[importer := steps + 1];
      next := next[importer := current];
      queued := queued + [importer];
    }
    assert importers[..|importers|] == importers;
    HandledIsExpanded(kinds, imports, distance, importers, current);
  }

  /** Between visits: the modules labelled are those queued, in order of distance, and those done with. */
  ghost predicate Searching(kinds: Kinds, imports: seq<Import>, distance: map<Name, nat>, queue: seq<Name>,
                            done: set<Name>) {
    && InQueueOrder(distance, queue)
    && (queue != [] ==> Within(distance, distance[queue[0]] + 1))
    && (forall m :: m in distance <==> m in queue || m in done)
    && (forall m :: m in done ==> m !in queue && Expanded(kinds, imports, distance, m))
  }

  lemma FirstInQueue(kinds: Kinds, imports: seq<Import>, distance: map<Name, nat>, queue: seq<Name>, done: set<Name>)
    requires Searching(kinds, imports, distance, queue, done) && queue != []
    ensures queue[0] in distance && queue[0] !in done
    ensures QueuedSince(distance, queue[1..], distance, queue[1..], distance[queue[0]])
  {
    assert queue[0] in queue;
  }

  lemma AfterVisit(kinds: Kinds, imports: seq<Import>, before: map<Name, nat>, queue: seq<Name>, done: set<Name>,
                   distance: map<Name, nat>, queued: seq<Name>)
    requires Searching(kinds, imports, before, queue, done) && queue != [] && Extends(distance, before)
    requires Within(distance, before[queue[0]] + 1)
             && QueuedSince(before, queue[1..], distance, queued, before[queue[0]])
    requires Expanded(kinds, imports, distance, queue[0])
    ensures Searching(kinds, imports, distance, queued, done + {queue[0]})
  {
    KeepsExpanded(kinds, imports, before, distance, done);
    var current := queue[0];
    assert current in queue;
    assert queue == [current] + queue[1..];
    assert forall m :: m in queue <==> m == current || m in queue[1..];
  }

  /** One search per side, backwards from the side's modules through shared ones. */
  method Search(kinds: Kinds, ghost imports: seq<Import>, reverse: map<Name, set<Name>>, side: Side)
    returns (distance: map<Name, nat>, next: map<Name, Name>)
    requires IsReverse(kinds, imports, reverse) && ImportersKnown(kinds, imports)
    ensures Labelled(kinds, imports, side, distance, next) && HasSources(kinds, side, distance)
    ensures forall v :: v in distance ==> Expanded(kinds, imports, distance, v)
  {
    var queue;
    distance, queue := Sources(kinds, side);
    next := map[];
    ghost var done: set<Name> := {};
    while queue != []
      invariant Labelled(kinds, imports, side, distance, next) && HasSources(kinds, side, distance)
      invariant Searching(kinds, imports, distance, queue, done)
      invariant done <= kinds.Keys
      decreases kinds.Keys - done
    {
      var current := queue[0];
      FirstInQueue(kinds, imports, distance, queue, done);
      assert LabelHolds(kinds, imports, side, distance, next, current);
      var importers := Sorted(Importers(reverse, current));
      ImportersAreEdges(kinds, imports, reverse, current, importers);
      var labelled, after, queued := Visit(kinds, imports, side, importers, current, distance, next, queue[1..]);
      AfterVisit(kinds, imports, distance, queue, done, labelled, queued);
      done := done + {current};
      distance, next, queue := labelled, after, queued;
    }
  }

  ghost predicate ImportersKnown(kinds: Kinds, imports: seq<Import>) {
    forall edge :: edge in imports ==> edge.from in kinds
  }

  lemma ImportersAreEdges(kinds: Kinds, imports: seq<Import>, reverse: map<Name, set<Name>>, current: Name,
                          importers: seq<Name>)
    requires IsReverse(kinds, imports, reverse) && ImportersKnown(kinds, imports)
    requires Elements(importers) == Importers(reverse, current)
    ensures forall u :: u in importers <==> Edge(kinds, imports, u, current)
  {
    forall u ensures u in importers <==> Edge(kinds, imports, u, current) {
      assert u in importers <==> u in Elements(importers);
      FirstJoinFinds(kinds, imports, u, current);
    }
  }

  lemma KeepsExpanded(kinds: Kinds, imports: seq<Import>, before: map<Name, nat>, distance: map<Name, nat>,
                      done: set<Name>)
    requires Extends(distance, before) && forall m :: m in done ==> Expanded(kinds, imports, before, m)
    ensures forall m :: m in done ==> Expanded(kinds, imports, distance, m)
  {
  }

  // ----- What the labels say -----

  /** What a finished search leaves. */
  ghost predicate Searched(kinds: Kinds, imports: seq<Import>, side: Side, distance: map<Name, nat>,
                           next: map<Name, Name>) {
    && Labelled(kinds, imports, side, distance, next) && HasSources(kinds, side, distance)
    && forall v :: v in distance ==> Expanded(kinds, imports, distance, v)
  }

  /** From a module along `next`. */
  ghost function Trail(kinds: Kinds, imports: seq<Import>, side: Side, distance: map<Name, nat>, next: map<Name, Name>,
                       m: Name): (trail: seq<Name>)
    requires Labelled(kinds, imports, side, distance, next) && m in distance
    ensures IsChain(kinds, imports, side, trail) && trail[0] == m && |trail| == distance[m] + 1
    decreases distance[m]
  {
    assert LabelHolds(kinds, imports, side, distance, next, m);
    if distance[m] == 0 then [m]
    else
      var rest := Trail(kinds, imports, side, distance, next, next[m]);
      assert ([m] + rest)[1..] == rest;
      [m] + rest
  }

  /** No chain is shorter than its first module's label says, and every chain's first module has one. */
  lemma {:induction false} LabelsAreLeast(kinds: Kinds, imports: seq<Import>, side: Side, distance: map<Name, nat>,
                                          next: map<Name, Name>,
                                          chain: seq<Name>)
    requires Searched(kinds, imports, side, distance, next) && IsChain(kinds, imports, side, chain)
    ensures chain[0] in distance && distance[chain[0]] + 1 <= |chain|
    decreases |chain|
  {
    if |chain| > 1 {
      LabelsAreLeast(kinds, imports, side, distance, next, chain[1..]);
      assert Expanded(kinds, imports, distance, chain[1]);
    }
  }

  lemma TrailIsShortest(kinds: Kinds, imports: seq<Import>, side: Side, distance: map<Name, nat>,
                        next: map<Name, Name>, m: Name)
    requires Searched(kinds, imports, side, distance, next) && m in distance
    ensures IsShortest(kinds, imports, side, Trail(kinds, imports, side, distance, next, m))
  {
    forall other | IsChain(kinds, imports, side, other) && other[0] == m
      ensures distance[m] + 1 <= |other|
    {
      LabelsAreLeast(kinds, imports, side, distance, next, other);
    }
  }

  /** A shared module is to be reported exactly when its label is two or more. */
  lemma LabelsDecide(kinds: Kinds, imports: seq<Import>, side: Side, distance: map<Name, nat>, next: map<Name, Name>,
                     m: Name)
    requires Searched(kinds, imports, side, distance, next)
    ensures ReachesThroughOthers(kinds, imports, side, m) <==> m in distance && distance[m] >= 2
  {
    forall chain | IsChain(kinds, imports, side, chain) && chain[0] == m
      ensures m in distance && distance[m] + 1 <= |chain|
    {
      LabelsAreLeast(kinds, imports, side, distance, next, chain);
    }
    if m in distance {
      assert LabelHolds(kinds, imports, side, distance, next, m);
      var trail := Trail(kinds, imports, side, distance, next, m);
      assert IsChain(kinds, imports, side, trail) && trail[0] == m;
    }
  }

  // ----- Reporting -----

  lemma TrailStep(kinds: Kinds, imports: seq<Import>, side: Side, distance: map<Name, nat>, next: map<Name, Name>,
                  before: seq<Name>, cursor: Name)
    requires Labelled(kinds, imports, side, distance, next) && cursor in distance
    ensures if cursor in next then
              && next[cursor] in distance && distance[next[cursor]] < distance[cursor]
              && before + Trail(kinds, imports, side, distance, next, cursor)
                 == (before + [cursor]) + Trail(kinds, imports, side, distance, next, next[cursor])
            else Trail(kinds, imports, side, distance, next, cursor) == [cursor]
  {
    assert LabelHolds(kinds, imports, side, distance, next, cursor);
  }

  method ChainFrom(kinds: Kinds, ghost imports: seq<Import>, ghost side: Side, distance: map<Name, nat>,
                   next: map<Name, Name>, path: Name)
    returns (chain: seq<Name>)
    requires Labelled(kinds, imports, side, distance, next) && path in distance
    ensures chain == Trail(kinds, imports, side, distance, next, path)
  {
    chain := [path];
    var cursor := path;
    ghost var before: seq<Name> := [];
    while cursor in next
      invariant cursor in distance && chain == before + [cursor]
      invariant before + Trail(kinds, imports, side, distance, next, cursor)
                == Trail(kinds, imports, side, distance, next, path)
      decreases distance[cursor]
    {
      TrailStep(kinds, imports, side, distance, next, before, cursor);
      var step := next[cursor];
      before := chain;
      chain := chain + [step];
      cursor := step;
    }
    TrailStep(kinds, imports, side, distance, next, before, cursor);
  }

  /** A report of the first module of a shortest chain of two imports or more, with the first of them. */
  ghost predicate IsReport(kinds: Kinds, imports: seq<Import>, side: Side, d: Transitive) {
    && d.side == side && |d.chain| >= 3 && IsShortest(kinds, imports, side, d.chain)
    && d.firstEdge == FirstJoin(kinds, imports, d.chain[0], d.chain[1]) && d.firstEdge.Some?
  }

  ghost predicate Reported(diagnostics: seq<Transitive>, m: Name) {
    exists d :: d in diagnostics && d.chain != [] && d.chain[0] == m
  }

  /** The reports of one side: in order of module, and of exactly the modules that reach it through others. */
  ghost predicate AreReports(kinds: Kinds, imports: seq<Import>, side: Side, diagnostics: seq<Transitive>) {
    && (forall d :: d in diagnostics ==> IsReport(kinds, imports, side, d))
    && InModuleOrder(diagnostics)
    && (forall m :: Reported(diagnostics, m) <==> ReachesThroughOthers(kinds, imports, side, m))
  }

  lemma NewReport(kinds: Kinds, imports: seq<Import>, side: Side, distance: map<Name, nat>, next: map<Name, Name>,
                  forward: map<Name, seq<Target>>, path: Name)
    requires Searched(kinds, imports, side, distance, next) && IsForward(kinds, imports, forward)
    requires path in distance && distance[path] >= 2
    ensures var chain := Trail(kinds, imports, side, distance, next, path);
            IsReport(kinds, imports, side, Transitive(side, chain, Find(Targets(forward, path), chain[1])))
  {
    TrailIsShortest(kinds, imports, side, distance, next, path);
  }

  /** The reports on the modules looked at so far. */
  ghost predicate ReportsUpTo(kinds: Kinds, imports: seq<Import>, side: Side, paths: seq<Name>,
                              diagnostics: seq<Transitive>) {
    && (forall d :: d in diagnostics ==> IsReport(kinds, imports, side, d) && d.chain[0] in paths)
    && InModuleOrder(diagnostics)
    && (forall m :: m in paths && ReachesThroughOthers(kinds, imports, side, m) ==> Reported(diagnostics, m))
  }

  ghost predicate InModuleOrder(diagnostics: seq<Transitive>) {
    forall i, j :: 0 <= i < j < |diagnostics| && diagnostics[i].chain != [] && diagnostics[j].chain != [] ==>
      Before(diagnostics[i].chain[0], diagnostics[j].chain[0])
  }

  lemma NoReport(kinds: Kinds, imports: seq<Import>, side: Side, paths: seq<Name>, diagnostics: seq<Transitive>,
                 path: Name)
    requires ReportsUpTo(kinds, imports, side, paths, diagnostics) && !ReachesThroughOthers(kinds, imports, side, path)
    ensures ReportsUpTo(kinds, imports, side, paths + [path], diagnostics)
  {
  }

  lemma OneReport(kinds: Kinds, imports: seq<Import>, side: Side, paths: seq<Name>, diagnostics: seq<Transitive>,
                  d: Transitive)
    requires ReportsUpTo(kinds, imports, side, paths, diagnostics) && IsReport(kinds, imports, side, d)
    requires Ascending(paths + [d.chain[0]])
    ensures ReportsUpTo(kinds, imports, side, paths + [d.chain[0]], diagnostics + [d])
  {
    var path := d.chain[0];
    forall i | 0 <= i < |diagnostics| ensures Before(diagnostics[i].chain[0], path) {
      assert diagnostics[i] in diagnostics;
      var k :| 0 <= k < |paths| && paths[k] == diagnostics[i].chain[0];
      assert Before((paths + [path])[k], (paths + [path])[|paths|]);
    }
    forall m | m in paths + [path] && ReachesThroughOthers(kinds, imports, side, m)
      ensures Reported(diagnostics + [d], m)
    {
      if m in paths {
        assert Reported(diagnostics, m);
        var e :| e in diagnostics && e.chain != [] && e.chain[0] == m;
        assert e in diagnostics + [d];
      } else {
        assert d in diagnostics + [d];
      }
    }
  }

  lemma AllReports(kinds: Kinds, imports: seq<Import>, side: Side, paths: seq<Name>, diagnostics: seq<Transitive>)
    requires ReportsUpTo(kinds, imports, side, paths, diagnostics) && Elements(paths) == kinds.Keys
    ensures AreReports(kinds, imports, side, diagnostics)
  {
    forall m ensures Reported(diagnostics, m) <==> ReachesThroughOthers(kinds, imports, side, m) {
      if Reported(diagnostics, m) {
        var d :| d in diagnostics && d.chain != [] && d.chain[0] == m;
        assert IsReport(kinds, imports, side, d);
      }
      if ReachesThroughOthers(kinds, imports, side, m) {
        assert m in Elements(paths);
      }
    }
  }

  method SideReports(kinds: Kinds, imports: seq<Import>, forward: map<Name, seq<Target>>,
                     reverse: map<Name, set<Name>>, side: Side)
    returns (diagnostics: seq<Transitive>)
    requires IsForward(kinds, imports, forward) && IsReverse(kinds, imports, reverse) && ImportersKnown(kinds, imports)
    ensures AreReports(kinds, imports, side, diagnostics)
  {
    var distance, next := Search(kinds, imports, reverse, side);
    diagnostics := [];
    var paths := Sorted(kinds.Keys);
    for i := 0 to |paths|
      invariant ReportsUpTo(kinds, imports, side, paths[..i], diagnostics)
    {
      var path := paths[i];
      Ascends(paths, i);
      LabelsDecide(kinds, imports, side, distance, next, path);
      if path !in kinds || !IsSharedLike(kinds[path]) || path !in distance || distance[path] < 2 {
        NoReport(kinds, imports, side, paths[..i], diagnostics, path);
        continue;
      }
      var chain := ChainFrom(kinds, imports, side, distance, next, path);
      var d := Transitive(side, chain, Find(Targets(forward, path), chain[1]));
      NewReport(kinds, imports, side, distance, next, forward, path);
      OneReport(kinds, imports, side, paths[..i], diagnostics, d);
      diagnostics := diagnostics + [d];
    }
    assert paths[..|paths|] == paths;
    AllReports(kinds, imports, side, paths, diagnostics);
  }

  /** Every shared or unclassified module that loads server code, then every one that loads client code, through at
      least one other such module, each with a shortest chain. */
  method TransitiveDiagnostics(modules: seq<Module>, imports: seq<Import>) returns (diagnostics: seq<Transitive>)
    requires ImportersKnown(KindsOf(modules), imports)
    ensures exists server, client ::
              && diagnostics == server + client
              && AreReports(KindsOf(modules), imports, ServerSide, server)
              && AreReports(KindsOf(modules), imports, ClientSide, client)
  {
    var kinds := KindsOf(modules);
    var forward, reverse := RuntimeEdges(kinds, imports);
    var server := SideReports(kinds, imports, forward, reverse, ServerSide);
    var client := SideReports(kinds, imports, forward, reverse, ClientSide);
    diagnostics := server + client;
  }

  // ----- With the direct rules -----

  /** The last import of a chain is one the boundary rules report. */
  lemma {:induction false} ChainEndsInViolation(kinds: Kinds, imports: seq<Import>, side: Side, chain: seq<Name>)
    requires IsGraph(kinds, imports) && IsChain(kinds, imports, side, chain) && |chain| >= 2
    ensures exists edge :: edge in imports && Joins(kinds, edge, chain[|chain| - 2], chain[|chain| - 1])
              && BoundaryDiagnostic(edge).Some?
              && BoundaryDiagnostic(edge).value.code == (if side.ClientSide? then 302 else 303)
    decreases |chain|
  {
    if |chain| > 2 {
      ChainEndsInViolation(kinds, imports, side, chain[1..]);
      assert chain[1..][|chain| - 3] == chain[|chain| - 2] && chain[1..][|chain| - 2] == chain[|chain| - 1];
    } else {
      EdgeLoads(kinds, imports, chain[0], chain[1]);
      var edge :| edge in imports && Joins(kinds, edge, chain[0], chain[1]);
      assert FromGraph(kinds, edge);
    }
  }

  /** And the whole chain is an import path from a module that may not load where it leads. */
  lemma {:induction false} ChainIsForbiddenPath(kinds: Kinds, imports: seq<Import>, side: Side, chain: seq<Name>)
    requires IsChain(kinds, imports, side, chain) && |chain| >= 2
    ensures IsPath(kinds, imports, chain) && !MayLoad(kinds[chain[0]], kinds[chain[|chain| - 1]])
    decreases |chain|
  {
    EdgeLoads(kinds, imports, chain[0], chain[1]);
    if |chain| > 2 {
      ChainIsForbiddenPath(kinds, imports, side, chain[1..]);
    }
  }

  /** So where no import path crosses sides, as the direct rules ensure, there is no transitive report. */
  lemma NothingTransitiveAlone(kinds: Kinds, imports: seq<Import>, side: Side, diagnostics: seq<Transitive>)
    requires IsGraph(kinds, imports) && AreReports(kinds, imports, side, diagnostics)
    ensures (forall edge :: edge in imports ==> BoundaryDiagnostic(edge).None?) || Isolated(kinds, imports) ==>
              diagnostics == []
  {
    LocalRulesIsolate(kinds, imports);
    if diagnostics != [] && Isolated(kinds, imports) {
      assert IsReport(kinds, imports, side, diagnostics[0]);
      ChainIsForbiddenPath(kinds, imports, side, diagnostics[0].chain);
    }
  }
}
