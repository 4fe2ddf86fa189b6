/** The binding around a session: reports queue behind their own lock, so that reporting never waits for
    a running check, and a check takes the queue once it holds the session. */
module PendingReports {
  import opened Paths

  datatype Phase =
    | Idle
    | Taken(paths: seq<Path>)   // the session is held, the queue has been taken
    | Checking                  // what was taken is in the session, the check runs

  /** `reported` and `delivered` are histories: every path `update` was given, and every path the session got. */
  datatype State = State(pending: seq<Path>, phase: Phase, disposed: bool, reported: seq<Path>, delivered: seq<Path>)

  /** The steps the two locks allow: a report at any time, the session's own steps in order, disposal
      when no run holds the session. */
  datatype Step = Report(paths: seq<Path>) | Take | Deliver | Finish | Dispose

  const INITIAL := State([], Idle, false, [], [])

  predicate Enabled(s: State, step: Step) {
    match step
    case Report(_) => true
    case Take => s.phase.Idle? && !s.disposed
    case Deliver => s.phase.Taken?
    case Finish => s.phase.Checking?
    case Dispose => s.phase.Idle?
  }

  function Next(s: State, step: Step): State
    requires Enabled(s, step)
  {
    match step
    case Report(paths) => s.(pending := s.pending + paths, reported := s.reported + paths)
    case Take => s.(pending := [], phase := Taken(s.pending))
    case Deliver => s.(phase := Checking, delivered := s.delivered + s.phase.paths)
    case Finish => s.(phase := Idle)
    case Dispose => s.(disposed := true)
  }

  ghost predicate Reaches(s: State, steps: seq<Step>, t: State)
    decreases |steps|
  {
    if steps == [] then s == t
    else Enabled(s, steps[0]) && Reaches(Next(s, steps[0]), steps[1..], t)
  }

  function InHand(s: State): seq<Path> {
    if s.phase.Taken? then s.phase.paths else []
  }

  /** Every reported path is with the session, in the hands of a run, or queued: once each and in order. */
  ghost predicate NothingLost(s: State) {
    s.reported == s.delivered + InHand(s) + s.pending
  }

  lemma StepLosesNothing(s: State, step: Step)
    requires NothingLost(s) && Enabled(s, step)
    ensures NothingLost(Next(s, step))
  {
    var t := Next(s, step);
    match step {
      case Report(paths) =>
        assert s.delivered + InHand(s) + s.pending + paths == t.delivered + InHand(t) + t.pending;
      case Take =>
        assert s.delivered + [] + s.pending == t.delivered + s.pending + [];
      case Deliver =>
        assert s.delivered + s.phase.paths + s.pending == t.delivered + [] + t.pending;
      case Finish =>
      case Dispose =>
    }
  }

  lemma {:induction false} RunLosesNothing(s: State, steps: seq<Step>, t: State)
    requires NothingLost(s) && Reaches(s, steps, t)
    ensures NothingLost(t)
    decreases |steps|
  {
    if steps != [] {
      StepLosesNothing(s, steps[0]);
      RunLosesNothing(Next(s, steps[0]), steps[1..], t);
    }
  }

  /** What a run holds does not change while reports arrive. */
  lemma {:induction false} ReportsQueueBehind(s: State, reports: seq<Step>, t: State)
    requires Reaches(s, reports, t) && forall step :: step in reports ==> step.Report?
    ensures t.phase == s.phase && t.delivered == s.delivered && t.disposed == s.disposed
    ensures s.reported <= t.reported && s.pending <= t.pending
    decreases |reports|
  {
    if reports != [] {
      ReportsQueueBehind(Next(s, reports[0]), reports[1..], t);
    }
  }

  /** A check runs over exactly the paths reported before it took the queue, whatever is reported while it
      takes and delivers them; those later reports are what the next check will take. */
  lemma CheckGetsEveryEarlierReport(steps: seq<Step>, s: State, reports: seq<Step>, t: State)
    requires Reaches(INITIAL, steps, s) && Enabled(s, Take)
    requires Reaches(Next(s, Take), reports, t) && forall step :: step in reports ==> step.Report?
    ensures Enabled(t, Deliver) && Next(t, Deliver).delivered == s.reported
    ensures t.reported == s.reported + Next(t, Deliver).pending
  {
    RunLosesNothing(INITIAL, steps, s);
    StepLosesNothing(s, Take);
    RunLosesNothing(Next(s, Take), reports, t);
    ReportsQueueBehind(Next(s, Take), reports, t);
    assert s.reported == s.delivered + s.pending;
  }
}
