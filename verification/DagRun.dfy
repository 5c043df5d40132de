/** The concurrent DAG run of internal/engine/dag.go as a step relation over all interleavings. */
module DagRun {
  import opened Basics
  import opened Graph
  import opened Listing

  /** Where one job's goroutine stands. */
  datatype Pc =
    | Waiting(cursor: nat)   // about to receive from the done channel of dependency `cursor`
    | Starting               // dependencies passed and the run was not cancelled
    | Running                // JobStarted emitted
    | Reporting(ok: bool)    // JobFinished emitted, result not stored yet
    | Closing                // result stored, done channel still open
    | Closed

  datatype DagResult = DagResult(failed: bool, skipped: bool) {
    predicate Passed() { !failed && !skipped }
  }

  const Pending := DagResult(false, false)
  const Skipped := DagResult(false, true)

  /** One job's goroutine, its result entry, and how often its done channel was closed. */
  datatype Local = Local(pc: Pc, result: DagResult, closes: nat) {
    predicate PassedAndClosed() { closes > 0 && result.Passed() }
    predicate ClosedWithoutPass() { closes > 0 && !result.Passed() }
  }

  const Fresh := Local(Waiting(0), Pending, 0)

  datatype Event = Started(job: string) | Finished(job: string, ok: bool)

  /** `log` holds the job events in bus order. */
  datatype State = State(jobs: map<string, Local>, cancelled: bool, log: seq<Event>) {
    function At(j: string): Local {
      if j in jobs then jobs[j] else Fresh
    }
  }

  /** `jobs` are the prepared names in order, `deps` their dependency lists,
      `passes` whether a job that runs undisturbed succeeds. */
  datatype Instance = Instance(jobs: seq<string>, deps: Digraph, passes: map<string, bool>) {
    function Deps(j: string): seq<string> {
      if j in deps then deps[j] else []
    }
  }

  ghost predicate WellFormed(inst: Instance) {
    && Distinct(inst.jobs)
    && inst.deps.Keys == Elements(inst.jobs) == inst.passes.Keys
    && ClosedGraph(inst.deps)
  }

  datatype Action = Await | Check | Start | Finish(ok: bool) | Report | Close

  datatype Step = Act(job: string, action: Action) | Cancel

  ghost function Init(inst: Instance): State {
    State(map j | j in inst.deps :: Fresh, false, [])
  }

  /** A receive on a done channel is possible once it is closed. */
  ghost predicate CanAct(inst: Instance, s: State, j: string, action: Action) {
    && j in inst.deps && j in s.jobs && j in inst.passes
    && var pc := s.jobs[j].pc;
       match action
       case Await => pc.Waiting? && pc.cursor < |inst.deps[j]| && s.At(inst.deps[j][pc.cursor]).closes > 0
       case Check => pc.Waiting? && pc.cursor >= |inst.deps[j]|
       case Start => pc.Starting?
       case Finish(ok) => pc.Running? && (ok == inst.passes[j] || s.cancelled)
       case Report => pc.Reporting?
       case Close => pc.Closing?
  }

  ghost function After(inst: Instance, s: State, j: string, action: Action): Local
    requires CanAct(inst, s, j, action)
  {
    var l := s.jobs[j];
    match action
    case Await =>
      if s.At(inst.deps[j][l.pc.cursor]).result.Passed() then l.(pc := Waiting(l.pc.cursor + 1))
      else l.(pc := Closing, result := Skipped)
    case Check => if s.cancelled then l.(pc := Closing, result := Skipped) else l.(pc := Starting)
    case Start => l.(pc := Running)
    case Finish(ok) => l.(pc := Reporting(ok))
    case Report => l.(pc := Closing, result := DagResult(!l.pc.ok, false))
    case Close => l.(pc := Closed, closes := l.closes + 1)
  }

  function Emits(j: string, action: Action): seq<Event> {
    match action
    case Start => [Started(j)]
    case Finish(ok) => [Finished(j, ok)]
    case _ => []
  }

  ghost predicate Enabled(inst: Instance, s: State, step: Step) {
    match step
    case Act(j, action) => CanAct(inst, s, j, action)
    case Cancel => !s.cancelled
  }

  ghost function Apply(inst: Instance, s: State, step: Step): State
    requires Enabled(inst, s, step)
  {
    match step
    case Act(j, action) => State(s.jobs[j := After(inst, s, j, action)], s.cancelled, s.log + Emits(j, action))
    case Cancel => s.(cancelled := true)
  }

  /** The state a schedule leads to, or None when the schedule takes a step that is not enabled. */
  ghost function Run(inst: Instance, steps: seq<Step>): Option<State> {
    if steps == [] then Some(Init(inst))
    else
      var before := Run(inst, steps[..|steps| - 1]);
      if before.Some? && Enabled(inst, before.value, Last(steps)) then Some(Apply(inst, before.value, Last(steps)))
      else None
  }

  ghost predicate AllClosed(inst: Instance, s: State) {
    forall j :: j in inst.deps ==> s.At(j).pc.Closed?
  }

  // ---- What every step keeps -------------------------------------------------

  ghost predicate DepsPassed(s: State, deps: seq<string>) {
    forall i :: 0 <= i < |deps| ==> s.At(deps[i]).PassedAndClosed()
  }

  ghost predicate Blocked(s: State, deps: seq<string>) {
    exists i :: 0 <= i < |deps| && s.At(deps[i]).ClosedWithoutPass()
  }

  /** A settled result: skipped only for a cause, otherwise run with all dependencies passed. */
  ghost predicate Justified(inst: Instance, s: State, j: string, r: DagResult) {
    if r.skipped then !r.failed && (s.cancelled || Blocked(s, inst.Deps(j)))
    else DepsPassed(s, inst.Deps(j)) && (s.cancelled || (j in inst.passes && r.failed == !inst.passes[j]))
  }

  ghost predicate LocalInv(inst: Instance, s: State, j: string, l: Local) {
    && l.closes == (if l.pc.Closed? then 1 else 0)
    && match l.pc
       case Waiting(k) => l.result == Pending && k <= |inst.Deps(j)| && DepsPassed(s, inst.Deps(j)[..k])
       case Reporting(ok) => l.result == Pending && Justified(inst, s, j, DagResult(!ok, false))
       case Closing => Justified(inst, s, j, l.result)
       case Closed => Justified(inst, s, j, l.result)
       case _ => l.result == Pending && DepsPassed(s, inst.Deps(j))
  }

  /** The bus events of one job. */
  ghost function EventsOf(log: seq<Event>, j: string): seq<Event> {
    if log == [] then []
    else EventsOf(log[..|log| - 1], j) + if Last(log).job == j then [Last(log)] else []
  }

  /** What a job has emitted is determined by where it stands. */
  ghost function Emitted(l: Local, j: string): seq<Event> {
    match l.pc
    case Waiting(_) => []
    case Starting => []
    case Running => [Started(j)]
    case Reporting(ok) => [Started(j), Finished(j, ok)]
    case _ => if l.result.skipped then [] else [Started(j), Finished(j, !l.result.failed)]
  }

  ghost predicate StartsAfterDeps(inst: Instance, log: seq<Event>) {
    forall p :: 0 <= p < |log| && log[p].Started? ==>
      forall d :: d in inst.Deps(log[p].job) ==> Finished(d, true) in log[..p]
  }

  ghost predicate JobInv(inst: Instance, s: State, j: string) {
    LocalInv(inst, s, j, s.At(j)) && EventsOf(s.log, j) == Emitted(s.At(j), j)
  }

  ghost predicate Inv(inst: Instance, s: State) {
    && s.jobs.Keys == inst.deps.Keys
    && (forall j :: j in inst.deps ==> JobInv(inst, s, j))
    && StartsAfterDeps(inst, s.log)
  }

  /** Closed entries are final and cancellation is never withdrawn. */
  ghost predicate Later(s: State, s': State) {
    && (forall d :: s.At(d).closes > 0 ==> s'.At(d) == s.At(d))
    && (s.cancelled ==> s'.cancelled)
  }

  lemma LaterKeepsDeps(s: State, s': State, deps: seq<string>)
    requires Later(s, s')
    ensures DepsPassed(s, deps) ==> DepsPassed(s', deps)
    ensures Blocked(s, deps) ==> Blocked(s', deps)
  {
    if Blocked(s, deps) {
      var i :| 0 <= i < |deps| && s.At(deps[i]).ClosedWithoutPass();
      assert s'.At(deps[i]).ClosedWithoutPass();
    }
  }

  lemma LaterKeepsLocal(inst: Instance, s: State, s': State, j: string, l: Local)
    requires Later(s, s') && LocalInv(inst, s, j, l)
    ensures LocalInv(inst, s', j, l)
  {
    LaterKeepsDeps(s, s', inst.Deps(j));
    if l.pc.Waiting? {
      LaterKeepsDeps(s, s', inst.Deps(j)[..l.pc.cursor]);
    }
  }

  lemma StepIsLater(inst: Instance, s: State, step: Step)
    requires Inv(inst, s) && Enabled(inst, s, step)
    ensures Later(s, Apply(inst, s, step))
  {
    if step.Act? {
      assert JobInv(inst, s, step.job);
    }
  }

  lemma ActKeepsLocal(inst: Instance, s: State, j: string, action: Action)
    requires CanAct(inst, s, j, action) && LocalInv(inst, s, j, s.At(j))
    ensures LocalInv(inst, s, j, After(inst, s, j, action))
  {
    var l := s.jobs[j];
    var deps := inst.Deps(j);
    if action.Await? {
      var k := l.pc.cursor;
      assert deps[..k + 1] == deps[..k] + [deps[k]];
      if !s.At(deps[k]).result.Passed() {
        assert s.At(deps[k]).ClosedWithoutPass();
      }
    } else if action.Check? {
      assert deps[..l.pc.cursor] == deps;
    }
  }

  lemma ActKeepsEvents(inst: Instance, s: State, j: string, action: Action, k: string)
    requires CanAct(inst, s, j, action) && EventsOf(s.log, k) == Emitted(s.At(k), k)
    requires LocalInv(inst, s, j, s.At(j))
    ensures EventsOf(s.log + Emits(j, action), k) == Emitted(if j == k then After(inst, s, j, action) else s.At(k), k)
  {
    EventsOfAppend(s.log, Emits(j, action), k);
    if k == j {
      EmittedGrows(inst, s, j, action);
    } else {
      assert forall e :: e in Emits(j, action) ==> e.job == j;
    }
  }

  lemma EmittedGrows(inst: Instance, s: State, j: string, action: Action)
    requires CanAct(inst, s, j, action) && LocalInv(inst, s, j, s.At(j))
    ensures Emitted(After(inst, s, j, action), j) == Emitted(s.At(j), j) + Emits(j, action)
  {
    match action
    case Await =>
    case Check =>
    case Start =>
    case Finish(ok) =>
    case Report =>
    case Close =>
  }

  lemma EventsOfAppend(log: seq<Event>, more: seq<Event>, k: string)
    requires |more| <= 1
    ensures EventsOf(log + more, k) == EventsOf(log, k) + if |more| == 1 && more[0].job == k then more else []
  {
    if more == [] {
      assert log + more == log;
    } else {
      assert (log + more)[..|log|] == log && more == [more[0]];
    }
  }

  lemma {:induction false} EventIsLogged(log: seq<Event>, j: string, e: Event)
    requires e in EventsOf(log, j)
    ensures e in log
  {
    var front := log[..|log| - 1];
    if e in EventsOf(front, j) {
      EventIsLogged(front, j, e);
    }
  }

  /** A passed, closed job has its success on the bus. */
  lemma PassIsLogged(inst: Instance, s: State, d: string)
    requires JobInv(inst, s, d) && s.At(d).PassedAndClosed()
    ensures Finished(d, true) in s.log
  {
    assert Emitted(s.At(d), d)[1] == Finished(d, true);
    EventIsLogged(s.log, d, Finished(d, true));
  }

  lemma ActKeepsOrder(inst: Instance, s: State, j: string, action: Action)
    requires WellFormed(inst) && Inv(inst, s) && CanAct(inst, s, j, action)
    ensures StartsAfterDeps(inst, s.log + Emits(j, action))
  {
    if action.Start? {
      StartFollowsDeps(inst, s, j);
    }
    LogStaysOrdered(inst, s.log, Emits(j, action));
  }

  lemma StartFollowsDeps(inst: Instance, s: State, j: string)
    requires WellFormed(inst) && Inv(inst, s) && CanAct(inst, s, j, Start)
    ensures forall d :: d in inst.Deps(j) ==> Finished(d, true) in s.log
  {
    assert JobInv(inst, s, j);
    forall d | d in inst.Deps(j) ensures Finished(d, true) in s.log {
      assert Edge(inst.deps, j, d);
      PassIsLogged(inst, s, d);
    }
  }

  lemma LogStaysOrdered(inst: Instance, log: seq<Event>, more: seq<Event>)
    requires StartsAfterDeps(inst, log) && |more| <= 1
    requires forall e :: e in more && e.Started? ==> forall d :: d in inst.Deps(e.job) ==> Finished(d, true) in log
    ensures StartsAfterDeps(inst, log + more)
  {
    var log' := log + more;
    forall p | 0 <= p < |log'| && log'[p].Started?
      ensures forall d :: d in inst.Deps(log'[p].job) ==> Finished(d, true) in log'[..p]
    {
      if p < |log| {
        assert log'[..p] == log[..p];
      } else {
        assert log'[..p] == log && log'[p] in more;
      }
    }
  }

  lemma StepKeepsInv(inst: Instance, s: State, step: Step)
    requires WellFormed(inst) && Inv(inst, s) && Enabled(inst, s, step)
    ensures Inv(inst, Apply(inst, s, step))
  {
    var s' := Apply(inst, s, step);
    StepIsLater(inst, s, step);
    if step.Act? {
      ActKeepsOrder(inst, s, step.job, step.action);
    }
    forall k | k in inst.deps ensures JobInv(inst, s', k) {
      assert JobInv(inst, s, k);
      if step.Act? {
        assert JobInv(inst, s, step.job);
        ActKeepsEvents(inst, s, step.job, step.action, k);
        ActKeepsLocal(inst, s, step.job, step.action);
      }
      LaterKeepsLocal(inst, s, s', k, if step.Act? && step.job == k then After(inst, s, k, step.action) else s.At(k));
    }
  }

  lemma {:induction false} ReachableInv(inst: Instance, steps: seq<Step>)
    requires WellFormed(inst) && Run(inst, steps).Some?
    ensures Inv(inst, Run(inst, steps).value)
  {
    if steps != [] {
      var front := steps[..|steps| - 1];
      ReachableInv(inst, front);
      StepKeepsInv(inst, Run(inst, front).value, Last(steps));
    }
  }

  // ---- No deadlock -----------------------------------------------------------

  /** An unfinished job can step, or some job it waits for can. */
  lemma {:induction false} JobProgress(inst: Instance, s: State, rank: string -> nat, j: string) returns (step: Step)
    requires WellFormed(inst) && Inv(inst, s) && RanksDown(inst.deps, rank)
    requires j in inst.deps && !s.At(j).pc.Closed?
    ensures step.Act? && Enabled(inst, s, step)
    decreases rank(j)
  {
    assert JobInv(inst, s, j);
    match s.At(j).pc
    case Waiting(k) =>
      if k < |inst.deps[j]| {
        var d := inst.deps[j][k];
        assert Edge(inst.deps, j, d);
        if s.At(d).pc.Closed? {
          assert JobInv(inst, s, d);
          step := Act(j, Await);
        } else {
          step := JobProgress(inst, s, rank, d);
        }
      } else {
        step := Act(j, Check);
      }
    case Starting => step := Act(j, Start);
    case Running => step := Act(j, Finish(inst.passes[j]));
    case Reporting(_) => step := Act(j, Report);
    case Closing => step := Act(j, Close);
  }

  /** Every reachable state with an open done channel has a job that can move. */
  lemma NoDeadlock(inst: Instance, steps: seq<Step>, rank: string -> nat)
    requires WellFormed(inst) && RanksDown(inst.deps, rank)
    requires Run(inst, steps).Some? && !AllClosed(inst, Run(inst, steps).value)
    ensures exists step :: Enabled(inst, Run(inst, steps).value, step) && step.Act?
  {
    ReachableInv(inst, steps);
    var s := Run(inst, steps).value;
    var j :| j in inst.deps && !s.At(j).pc.Closed?;
    var step := JobProgress(inst, s, rank, j);
  }

  // ---- Termination -----------------------------------------------------------

  ghost function StepsLeft(inst: Instance, s: State, j: string): int {
    match s.At(j).pc
    case Waiting(k) => |inst.Deps(j)| - k + 5
    case Starting => 4
    case Running => 3
    case Reporting(_) => 2
    case Closing => 1
    case Closed => 0
  }

  ghost function TotalLeft(inst: Instance, s: State, jobs: seq<string>): int {
    if jobs == [] then 0 else StepsLeft(inst, s, jobs[0]) + TotalLeft(inst, s, jobs[1..])
  }

  ghost function Measure(inst: Instance, s: State): int {
    TotalLeft(inst, s, inst.jobs) + if s.cancelled then 0 else 1
  }

  lemma {:induction false} TotalDrops(inst: Instance, s: State, s': State, jobs: seq<string>)
    requires forall j :: j in jobs ==> StepsLeft(inst, s', j) <= StepsLeft(inst, s, j)
    ensures TotalLeft(inst, s', jobs) <= TotalLeft(inst, s, jobs)
    ensures (exists j :: j in jobs && StepsLeft(inst, s', j) < StepsLeft(inst, s, j)) ==>
              TotalLeft(inst, s', jobs) < TotalLeft(inst, s, jobs)
  {
    if jobs != [] {
      TotalDrops(inst, s, s', jobs[1..]);
      assert jobs == [jobs[0]] + jobs[1..];
    }
  }

  lemma StepShrinks(inst: Instance, s: State, step: Step)
    requires WellFormed(inst) && Inv(inst, s) && Enabled(inst, s, step)
    ensures Measure(inst, Apply(inst, s, step)) < Measure(inst, s)
  {
    if step.Act? {
      assert JobInv(inst, s, step.job);
      assert step.job in Elements(inst.jobs);
      ActShrinks(inst, s, step.job, step.action);
    }
    TotalDrops(inst, s, Apply(inst, s, step), inst.jobs);
  }

  lemma ActShrinks(inst: Instance, s: State, j: string, action: Action)
    requires CanAct(inst, s, j, action) && LocalInv(inst, s, j, s.At(j))
    ensures forall k :: StepsLeft(inst, Apply(inst, s, Act(j, action)), k) <= StepsLeft(inst, s, k)
    ensures StepsLeft(inst, Apply(inst, s, Act(j, action)), j) < StepsLeft(inst, s, j)
  {
    var s' := Apply(inst, s, Act(j, action));
    assert forall k :: k != j ==> s'.At(k) == s.At(k);
  }

  lemma {:induction false} TotalNonNegative(inst: Instance, s: State, jobs: seq<string>)
    requires Inv(inst, s) && forall j :: j in jobs ==> j in inst.deps
    ensures TotalLeft(inst, s, jobs) >= 0
  {
    if jobs != [] {
      assert JobInv(inst, s, jobs[0]);
      TotalNonNegative(inst, s, jobs[1..]);
    }
  }

  lemma {:induction false} StepsSpendMeasure(inst: Instance, steps: seq<Step>)
    requires WellFormed(inst) && Run(inst, steps).Some?
    ensures |steps| + Measure(inst, Run(inst, steps).value) <= Measure(inst, Init(inst))
  {
    if steps != [] {
      var front := steps[..|steps| - 1];
      StepsSpendMeasure(inst, front);
      ReachableInv(inst, front);
      StepShrinks(inst, Run(inst, front).value, Last(steps));
    }
  }

  /** No schedule is longer than the initial measure: a step per dependency, five per job, one cancellation. */
  lemma RunsAreBounded(inst: Instance, steps: seq<Step>)
    requires WellFormed(inst) && Run(inst, steps).Some?
    ensures |steps| <= Measure(inst, Init(inst))
  {
    StepsSpendMeasure(inst, steps);
    ReachableInv(inst, steps);
    assert forall j :: j in inst.jobs ==> j in Elements(inst.jobs);
    TotalNonNegative(inst, Run(inst, steps).value, inst.jobs);
  }

  // ---- Outcome ---------------------------------------------------------------

  /** The schedule-free reading: a job passes iff all it waits for pass and it succeeds itself. */
  ghost predicate Passes(inst: Instance, rank: string -> nat, j: string)
    requires RanksDown(inst.deps, rank)
    decreases rank(j), 1
  {
    j in inst.passes && inst.passes[j] && Ready(inst, rank, j)
  }

  ghost predicate Ready(inst: Instance, rank: string -> nat, j: string)
    requires RanksDown(inst.deps, rank)
    decreases rank(j), 0
  {
    forall d :: Edge(inst.deps, j, d) ==> Passes(inst, rank, d)
  }

  ghost function Outcome(inst: Instance, rank: string -> nat, j: string): DagResult
    requires RanksDown(inst.deps, rank)
  {
    if Ready(inst, rank, j) then DagResult(!Passes(inst, rank, j), false) else Skipped
  }

  /** In an uncancelled state every settled job has the schedule-free outcome. */
  lemma {:induction false} SettledOutcome(inst: Instance, s: State, rank: string -> nat, j: string)
    requires WellFormed(inst) && Inv(inst, s) && RanksDown(inst.deps, rank) && !s.cancelled
    requires j in inst.deps && s.At(j).closes > 0
    ensures s.At(j).result == Outcome(inst, rank, j)
    decreases rank(j)
  {
    assert JobInv(inst, s, j);
    forall d | Edge(inst.deps, j, d) && s.At(d).closes > 0 ensures s.At(d).result.Passed() <==> Passes(inst, rank, d) {
      SettledOutcome(inst, s, rank, d);
    }
    if s.At(j).result.skipped {
      var i :| 0 <= i < |inst.deps[j]| && s.At(inst.deps[j][i]).ClosedWithoutPass();
      assert Edge(inst.deps, j, inst.deps[j][i]);
    } else {
      forall d | Edge(inst.deps, j, d) ensures Passes(inst, rank, d) {
        assert s.At(d).PassedAndClosed();
      }
    }
  }

  /** Whatever the interleaving, an uncancelled complete run ends with the schedule-free outcome of
      every job, each done channel closed exactly once. */
  lemma ScheduleIndependent(inst: Instance, steps: seq<Step>, rank: string -> nat)
    requires WellFormed(inst) && RanksDown(inst.deps, rank)
    requires Run(inst, steps).Some? && AllClosed(inst, Run(inst, steps).value)
    requires !Run(inst, steps).value.cancelled
    ensures Run(inst, steps).value.jobs == map j | j in inst.deps :: Local(Closed, Outcome(inst, rank, j), 1)
  {
    ReachableInv(inst, steps);
    var s := Run(inst, steps).value;
    forall j | j in inst.deps ensures s.jobs[j] == Local(Closed, Outcome(inst, rank, j), 1) {
      assert JobInv(inst, s, j) && s.At(j).pc.Closed?;
      SettledOutcome(inst, s, rank, j);
    }
  }

  /** At every moment of every run, cancelled or not: no done channel is closed twice, a job's events
      are a prefix of started-finished, and a start follows the successful finish of all it waits for. */
  lemma EventOrder(inst: Instance, steps: seq<Step>, j: string)
    requires WellFormed(inst) && Run(inst, steps).Some? && j in inst.deps
    ensures Run(inst, steps).value.At(j).closes <= 1
    ensures EventsOf(Run(inst, steps).value.log, j) == []
            || EventsOf(Run(inst, steps).value.log, j) == [Started(j)]
            || exists ok :: EventsOf(Run(inst, steps).value.log, j) == [Started(j), Finished(j, ok)]
    ensures StartsAfterDeps(inst, Run(inst, steps).value.log)
  {
    ReachableInv(inst, steps);
    assert JobInv(inst, Run(inst, steps).value, j);
  }

  // ---- The returned error ----------------------------------------------------

  datatype RunError = JobFailed(job: string) | SkippedCount(count: nat)

  function FailedJobs(s: State, jobs: seq<string>): seq<RunError> {
    if jobs == [] then []
    else FailedJobs(s, jobs[..|jobs| - 1]) + if s.At(Last(jobs)).result.failed then [JobFailed(Last(jobs))] else []
  }

  function SkippedJobs(s: State, jobs: seq<string>): nat {
    if jobs == [] then 0
    else SkippedJobs(s, jobs[..|jobs| - 1]) + if s.At(Last(jobs)).result.skipped then 1 else 0
  }

  /** One error per failed job in order, then a summary of the skips if anything failed. */
  function JoinedErrors(s: State, jobs: seq<string>): seq<RunError> {
    var failed, skipped := FailedJobs(s, jobs), SkippedJobs(s, jobs);
    failed + if skipped > 0 && |failed| > 0 then [SkippedCount(skipped)] else []
  }

  ghost function FailureOf(jobs: seq<string>): seq<RunError> {
    seq(|jobs|, i requires 0 <= i < |jobs| => JobFailed(jobs[i]))
  }

  /** The failed jobs in job order and, if there are any, how many jobs were skipped. */
  ghost predicate TellsFailures(s: State, jobs: seq<string>, errs: seq<RunError>) {
    exists failed, skipped ::
      && Selects(jobs, failed, (j: string) => s.At(j).result.failed)
      && Selects(jobs, skipped, (j: string) => s.At(j).result.skipped)
      && errs == FailureOf(failed) + if failed != [] && skipped != [] then [SkippedCount(|skipped|)] else []
  }

  lemma {:induction false} FailedJobsSelect(s: State, jobs: seq<string>) returns (failed: seq<string>)
    ensures Selects(jobs, failed, (j: string) => s.At(j).result.failed) && FailedJobs(s, jobs) == FailureOf(failed)
  {
    var keep := (j: string) => s.At(j).result.failed;
    if jobs == [] {
      failed := [];
      SelectsNone(keep);
    } else {
      var front, last := jobs[..|jobs| - 1], Last(jobs);
      var before := FailedJobsSelect(s, front);
      SelectsSnoc(front, before, last, keep);
      FrontLast(jobs);
      failed := before + if keep(last) then [last] else [];
      assert FailureOf(before + [last]) == FailureOf(before) + [JobFailed(last)];
      AppendNothing(before);
      AppendNothing(FailureOf(before));
    }
  }

  lemma {:induction false} SkippedJobsSelect(s: State, jobs: seq<string>) returns (skipped: seq<string>)
    ensures Selects(jobs, skipped, (j: string) => s.At(j).result.skipped) && SkippedJobs(s, jobs) == |skipped|
  {
    var keep := (j: string) => s.At(j).result.skipped;
    if jobs == [] {
      skipped := [];
      SelectsNone(keep);
    } else {
      var front, last := jobs[..|jobs| - 1], Last(jobs);
      var before := SkippedJobsSelect(s, front);
      SelectsSnoc(front, before, last, keep);
      FrontLast(jobs);
      skipped := before + if keep(last) then [last] else [];
    }
  }

  lemma JoinedErrorsTell(s: State, jobs: seq<string>)
    ensures TellsFailures(s, jobs, JoinedErrors(s, jobs))
  {
    var failed := FailedJobsSelect(s, jobs);
    var skipped := SkippedJobsSelect(s, jobs);
    assert |FailureOf(failed)| == |failed|;
  }

  /** The joined errors the run returns; none means nil. */
  method JoinErrors(s: State, jobs: seq<string>) returns (errs: seq<RunError>)
    ensures errs == JoinedErrors(s, jobs)
    ensures TellsFailures(s, jobs, errs)
    ensures errs == [] <==> forall j :: j in jobs ==> !s.At(j).result.failed
  {
    JoinedErrorsTell(s, jobs);
    errs := [];
    var skipped := 0;
    for i := 0 to |jobs|
      invariant errs == FailedJobs(s, jobs[..i])
      invariant skipped == SkippedJobs(s, jobs[..i])
    {
      assert jobs[..i + 1][..i] == jobs[..i];
      if s.At(jobs[i]).result.failed {
        errs := errs + [JobFailed(jobs[i])];
      }
      if s.At(jobs[i]).result.skipped {
        skipped := skipped + 1;
      }
    }
    assert jobs[..|jobs|] == jobs;
    FailedJobsEmpty(s, jobs);
    if skipped > 0 && |errs| > 0 {
      errs := errs + [SkippedCount(skipped)];
    }
  }

  lemma {:induction false} FailedJobsEmpty(s: State, jobs: seq<string>)
    ensures FailedJobs(s, jobs) == [] <==> forall j :: j in jobs ==> !s.At(j).result.failed
  {
    if jobs != [] {
      FailedJobsEmpty(s, jobs[..|jobs| - 1]);
      assert jobs == jobs[..|jobs| - 1] + [Last(jobs)];
    }
  }

  /** A job that does not pass traces back to one that fails by itself. */
  lemma {:induction false} SkipHasFailure(inst: Instance, rank: string -> nat, j: string) returns (f: string)
    requires WellFormed(inst) && RanksDown(inst.deps, rank) && j in inst.deps
    requires !Passes(inst, rank, j)
    ensures f in inst.deps && Outcome(inst, rank, f).failed && !inst.passes[f]
    decreases rank(j)
  {
    if Ready(inst, rank, j) {
      f := j;
    } else {
      var d :| Edge(inst.deps, j, d) && !Passes(inst, rank, d);
      f := SkipHasFailure(inst, rank, d);
    }
  }

  /** Without cancellation, the run returns nil exactly when every job passed, that is,
      exactly when every job succeeds on its own. */
  lemma NilMeansAllPassed(inst: Instance, steps: seq<Step>, rank: string -> nat)
    requires WellFormed(inst) && RanksDown(inst.deps, rank)
    requires Run(inst, steps).Some? && AllClosed(inst, Run(inst, steps).value)
    requires !Run(inst, steps).value.cancelled
    ensures JoinedErrors(Run(inst, steps).value, inst.jobs) == [] <==>
              forall j :: j in inst.deps ==> Run(inst, steps).value.At(j).result.Passed()
    ensures JoinedErrors(Run(inst, steps).value, inst.jobs) == [] <==> forall j :: j in inst.deps ==> inst.passes[j]
  {
    ScheduleIndependent(inst, steps, rank);
    var s := Run(inst, steps).value;
    FailedJobsEmpty(s, inst.jobs);
    assert forall j :: j in inst.jobs <==> j in Elements(inst.jobs);
    if j :| j in inst.deps && !Passes(inst, rank, j) {
      var f := SkipHasFailure(inst, rank, j);
      assert s.At(f).result.failed;
    }
  }

  /** A cancelled run may return nil although no job ran. */
  lemma CancelledRunReturnsNil(name: string) returns (inst: Instance, steps: seq<Step>)
    ensures WellFormed(inst) && inst.jobs == [name] && Run(inst, steps).Some?
    ensures AllClosed(inst, Run(inst, steps).value)
    ensures JoinedErrors(Run(inst, steps).value, inst.jobs) == []
    ensures Run(inst, steps).value.At(name).result == Skipped
  {
    inst := Instance([name], map[name := []], map[name := true]);
    assert name in Elements(inst.jobs);
    var cancel, check, close := Cancel, Act(name, Check), Act(name, Close);
    var s1 := RunSnoc(inst, [], cancel);
    var s2 := RunSnoc(inst, [cancel], check);
    var s3 := RunSnoc(inst, [cancel, check], close);
    steps := [cancel, check, close];
    assert [] + [cancel] == [cancel] && [cancel] + [check] == [cancel, check] && [cancel, check] + [close] == steps;
    FailedJobsEmpty(s3, inst.jobs);
  }

  lemma RunSnoc(inst: Instance, steps: seq<Step>, step: Step) returns (s': State)
    requires Run(inst, steps).Some? && Enabled(inst, Run(inst, steps).value, step)
    ensures s' == Apply(inst, Run(inst, steps).value, step)
    ensures Run(inst, steps + [step]) == Some(s')
  {
    assert (steps + [step])[..|steps|] == steps;
    s' := Apply(inst, Run(inst, steps).value, step);
  }
}
