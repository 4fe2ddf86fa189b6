/** The binding's queue and the session's histories together: the disk changes, paths are reported from outside, and
    runs take, deliver and check, in any order the locks allow. */
module BindingHistories {
  import opened Analysis
  import opened Caches
  import opened Histories
  import P = PendingReports
  import opened Paths
  import opened Session
  import opened Wrappers

  /** The binding, and what the session has been through so far. */
  datatype Joint = Joint(binding: P.State, events: seq<Event>)

  const START := Joint(P.INITIAL, [])

  datatype Happening = DiskChange(after: Disk) | Step(step: P.Step)

  predicate Enabled(s: Joint, happening: Happening) {
    happening.Step? ==> P.Enabled(s.binding, happening.step)
  }

  /** What the session sees of a step: delivering reports what was taken, and finishing is a check. */
  function Seen(s: Joint, happening: Happening): seq<Event>
    requires Enabled(s, happening)
  {
    match happening
    case DiskChange(after) => [Edit(after)]
    case Step(Deliver) => [Report(s.binding.phase.paths)]
    case Step(Finish) => [Check]
    case Step(_) => []
  }

  function Next(s: Joint, happening: Happening): Joint
    requires Enabled(s, happening)
  {
    Joint(if happening.Step? then P.Next(s.binding, happening.step) else s.binding, s.events + Seen(s, happening))
  }

  ghost predicate Reaches(s: Joint, happenings: seq<Happening>, t: Joint)
    decreases |happenings|
  {
    if happenings == [] then s == t
    else Enabled(s, happenings[0]) && Reaches(Next(s, happenings[0]), happenings[1..], t)
  }

  // ----- Nothing reported is lost to the session -----

  /** Every path the session was given, in order. */
  function Given(events: seq<Event>): seq<Path> {
    if events == [] then []
    else
      var last := |events| - 1;
      Given(events[..last]) + if events[last].Report? then events[last].paths else []
  }

  lemma GivenOne(events: seq<Event>, event: Event)
    ensures Given(events + [event]) == Given(events) + if event.Report? then event.paths else []
  {
    assert (events + [event])[..|events|] == events;
  }

  /** The session has been given what the binding has delivered, and nothing reported is lost. */
  ghost predicate InStep(s: Joint) {
    Given(s.events) == s.binding.delivered && P.NothingLost(s.binding)
  }

  lemma StaysInStep(s: Joint, happening: Happening)
    requires InStep(s) && Enabled(s, happening)
    ensures InStep(Next(s, happening))
  {
    if happening.Step? {
      P.StepLosesNothing(s.binding, happening.step);
    }
    var seen := Seen(s, happening);
    if seen == [] {
      assert s.events + seen == s.events;
    } else {
      GivenOne(s.events, seen[0]);
    }
  }

  /** In every interleaving, what was reported is what the session was given, what a run holds, and what is queued. */
  lemma {:induction false} EveryReportArrives(s: Joint, happenings: seq<Happening>, t: Joint)
    requires InStep(s) && Reaches(s, happenings, t)
    ensures InStep(t) && t.binding.reported == Given(t.events) + P.InHand(t.binding) + t.binding.pending
    decreases |happenings|
  {
    if happenings != [] {
      StaysInStep(s, happenings[0]);
      EveryReportArrives(Next(s, happenings[0]), happenings[1..], t);
    }
  }

  // ----- A run's check -----

  /** Only reports come in. */
  ghost predicate OnlyReports(happenings: seq<Happening>) {
    forall h :: h in happenings ==> h.Step? && h.step.Report?
  }

  lemma {:induction false} ReportsQueue(s: Joint, happenings: seq<Happening>, t: Joint)
    requires Reaches(s, happenings, t) && OnlyReports(happenings)
    ensures t.events == s.events && t.binding.phase == s.binding.phase
    decreases |happenings|
  {
    if happenings != [] {
      assert happenings[0] in happenings && forall h :: h in happenings[1..] ==> h in happenings;
      assert s.events + [] == s.events;
      ReportsQueue(Next(s, happenings[0]), happenings[1..], t);
    }
  }

  /** Taking the queue, whatever is reported meanwhile, delivering and checking. */
  function AfterRun(t: Joint): Joint
    requires t.binding.phase.Taken?
  {
    Next(Next(t, Step(P.Deliver)), Step(P.Finish))
  }

  lemma RunIsReportAndCheck(s: Joint, reports: seq<Happening>, t: Joint)
    requires Enabled(s, Step(P.Take)) && Reaches(Next(s, Step(P.Take)), reports, t) && OnlyReports(reports)
    ensures t.binding.phase == P.Taken(s.binding.pending)
    ensures AfterRun(t).events == s.events + [Report(s.binding.pending)] + [Check]
  {
    assert s.events + [] == s.events;
    ReportsQueue(Next(s, Step(P.Take)), reports, t);
  }

  lemma {:induction false} WorldOfPrefix(project: Project, root: Path, disk: Disk, events: seq<Event>,
                                         more: seq<Event>, k: nat)
    requires k <= |events|
    ensures WorldAt(project, root, disk, events + more, k) == WorldAt(project, root, disk, events, k)
  {
    if k > 0 {
      WorldOfPrefix(project, root, disk, events, more, k - 1);
    }
  }

  lemma WorldAtCheck(project: Project, root: Path, disk: Disk, events: seq<Event>, taken: seq<Path>)
    ensures var w := WorldAt(project, root, disk, events, |events|);
            WorldAt(project, root, disk, events + [Report(taken)] + [Check], |events| + 1)
            == Histories.Next(project, root, w, Report(taken))
  {
    var all := events + [Report(taken)] + [Check];
    assert all == events + [Report(taken), Check];
    WorldOfPrefix(project, root, disk, events, [Report(taken), Check], |events|);
  }

  /** In every interleaving, a run's check has been given every path reported before the run took the queue. */
  lemma RunIsGivenEveryReport(happenings: seq<Happening>, s: Joint, reports: seq<Happening>, t: Joint)
    requires Reaches(START, happenings, s) && Enabled(s, Step(P.Take))
    requires Reaches(Next(s, Step(P.Take)), reports, t) && OnlyReports(reports)
    ensures t.binding.phase.Taken? && AfterRun(t).events == s.events + [Report(s.binding.pending)] + [Check]
    ensures Given(AfterRun(t).events) == s.binding.reported
  {
    EveryReportArrives(START, happenings, s);
    RunIsReportAndCheck(s, reports, t);
    GivenOne(s.events, Report(s.binding.pending));
    GivenOne(s.events + [Report(s.binding.pending)], Check);
    Unpadded(Given(s.events), s.binding.pending);
  }

  lemma Unpadded(a: seq<Path>, b: seq<Path>)
    ensures a + [] + b == a + b && (a + b) + [] == a + b
  {
  }

  /** The check is right exactly when nothing remembered misleads. */
  ghost predicate CheckIsRightExactly(project: Project, disk: Disk, files: set<Path>, memory: Remembered,
                                      output: Option<Result<Graph, string>>) {
    output == Some(CleanCheck(project, disk)) <==>
      CleanCheck(project, disk).Err? || forall p :: p in files ==> !Misleads(project, memory.origins, disk, files, p)
  }

  lemma ReportThenCheck(project: Project, root: Path, disk: Disk, events: seq<Event>, taken: seq<Path>, all: seq<Event>,
                        outputs: seq<Option<Result<Graph, string>>>, memory: seq<Remembered>)
    requires IsProject(project) && all == events + [Report(taken)] + [Check]
    requires |outputs| == |all| && Follows(project, root, disk, all, outputs, memory)
    requires var w := WorldAt(project, root, disk, events, |events|); UncoveredByAll(w.stale, w.disk, root, taken) == {}
    ensures var w := Histories.Next(project, root, WorldAt(project, root, disk, events, |events|), Report(taken));
            CheckIsRightExactly(project, w.disk, Listing(project, w), memory[|events| + 1], outputs[|events| + 1])
  {
    WorldAtCheck(project, root, disk, events, taken);
    assert all[|events| + 1] == Check;
    HistoriesAreRightExactly(project, root, disk, all, outputs, memory, |events| + 1);
  }

  /** And if what the run took covers every change not reported before, its check is right exactly when nothing the
      session remembers misleads, or there is no graph to be had. */
  lemma RunsAreRightExactly(project: Project, root: Path, disk: Disk, happenings: seq<Happening>, s: Joint,
                            reports: seq<Happening>, t: Joint, outputs: seq<Option<Result<Graph, string>>>,
                            memory: seq<Remembered>)
    requires IsProject(project) && Reaches(START, happenings, s) && Enabled(s, Step(P.Take))
    requires Reaches(Next(s, Step(P.Take)), reports, t) && OnlyReports(reports) && t.binding.phase.Taken?
    requires |outputs| == |AfterRun(t).events| && Follows(project, root, disk, AfterRun(t).events, outputs, memory)
    requires var w := WorldAt(project, root, disk, s.events, |s.events|);
             UncoveredByAll(w.stale, w.disk, root, s.binding.pending) == {}
    ensures |outputs| == |s.events| + 2
    ensures var w :=
              Histories.Next(project, root, WorldAt(project, root, disk, s.events, |s.events|),
                             Report(s.binding.pending));
            CheckIsRightExactly(project, w.disk, Listing(project, w), memory[|s.events| + 1], outputs[|s.events| + 1])
  {
    RunIsReportAndCheck(s, reports, t);
    ReportThenCheck(project, root, disk, s.events, s.binding.pending, AfterRun(t).events, outputs, memory);
  }
}
