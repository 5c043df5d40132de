/** The UI's fold of the wire stream: web/src/lib/events.ts. */
module LiveState {
  import opened Basics
  import opened Wire

  datatype LiveJob = LiveJob(
    name: string,
    stage: string,
    execKind: string,
    status: string,
    startedAt: Option<int>,
    durationMs: int,
    exitCode: int,
    error: Option<string>)

  datatype LogEntry = LogEntry(seqNo: nat, job: string, data: string)

  datatype LiveData = LiveData(
    mode: string,
    status: string,
    startedAt: Option<int>,
    durationMs: int,
    error: Option<string>,
    configPath: Option<string>,
    projectPath: Option<string>,
    commit: Option<string>,
    branch: Option<string>,
    hasMatrix: bool,
    hasDetached: bool,
    order: seq<string>,
    jobs: seq<LiveJob>,
    log: seq<LogEntry>,
    finished: bool)

  const NewState := LiveData("", "running", None, 0, None, None, None, None, None, false, false, [], [], [], false)

  function NewJob(name: string): LiveJob {
    LiveJob(name, "", "", "running", None, 0, 0, None)
  }

  /** Position of the first job of that name, or the length. */
  function Find(jobs: seq<LiveJob>, name: string): (i: nat)
    ensures i <= |jobs| && (i < |jobs| ==> jobs[i].name == name)
    ensures forall k :: 0 <= k < i ==> jobs[k].name != name
  {
    if jobs == [] then 0
    else if jobs[0].name == name then 0
    else
      var i := Find(jobs[1..], name);
      assert forall k :: 0 < k < i + 1 ==> jobs[k] == jobs[1..][k - 1];
      i + 1
  }

  function Upserted(jobs: seq<LiveJob>, name: string): seq<LiveJob> {
    if Find(jobs, name) < |jobs| then jobs else jobs + [NewJob(name)]
  }

  // ---- Which fields an event writes ------------------------------------------

  datatype Outcome = Outcome(exitCode: int, durationMs: int, error: Option<string>)

  /** The fields a job event overwrites; None leaves a field alone. */
  datatype Patch = Patch(stage: Option<string>, execKind: Option<string>, startedAt: Option<int>,
                         status: Option<string>, outcome: Option<Outcome>)

  const NoPatch := Patch(None, None, None, None, None)

  function Or<T>(later: Option<T>, earlier: Option<T>): Option<T> {
    if later.Some? then later else earlier
  }

  function Then(p: Patch, q: Patch): Patch {
    Patch(Or(q.stage, p.stage), Or(q.execKind, p.execKind), Or(q.startedAt, p.startedAt),
          Or(q.status, p.status), Or(q.outcome, p.outcome))
  }

  function Patched(p: Patch, j: LiveJob): LiveJob {
    LiveJob(
      j.name,
      if p.stage.Some? then p.stage.value else j.stage,
      if p.execKind.Some? then p.execKind.value else j.execKind,
      if p.status.Some? then p.status.value else j.status,
      Or(p.startedAt, j.startedAt),
      if p.outcome.Some? then p.outcome.value.durationMs else j.durationMs,
      if p.outcome.Some? then p.outcome.value.exitCode else j.exitCode,
      if p.outcome.Some? then p.outcome.value.error else j.error)
  }

  predicate IsJobEvent(e: WireEvent) {
    e.kind == "job_started" || e.kind == "job_finished"
  }

  /** An absent or empty text counts as no value. */
  function Truthy(text: Option<string>): Option<string> {
    if text == Some("") then None else text
  }

  function StatusOf(err: Option<string>): string {
    if Truthy(err).Some? then "failed" else "passed"
  }

  function PatchOf(e: WireEvent): Patch {
    if e.kind == "job_started" then Patch(Truthy(e.stage), Truthy(e.exec), Some(e.time), Some("running"), None)
    else
      Patch(Truthy(e.stage), None, None, Some(StatusOf(e.err)),
            Some(Outcome(IntOr(e.exitCode), IntOr(e.durationMs), e.err)))
  }

  function AppliedJobs(jobs: seq<LiveJob>, e: WireEvent): seq<LiveJob> {
    if !IsJobEvent(e) then jobs
    else
      var name := TextOr(e.job);
      var all := Upserted(jobs, name);
      var i := Find(jobs, name);
      all[i := Patched(PatchOf(e), all[i])]
  }

  function Applied(s: LiveData, e: WireEvent): LiveData {
    if e.kind == "run_started" then
      s.(mode := if Truthy(e.mode).Some? then e.mode.value else s.mode,
         startedAt := Some(e.time), configPath := e.configPath, projectPath := e.projectPath,
         commit := e.commit, branch := e.branch, hasMatrix := e.hasMatrix, hasDetached := e.hasDetached,
         order := if e.order.Some? then e.order.value else s.order)
    else if IsJobEvent(e) then s.(jobs := AppliedJobs(s.jobs, e))
    else if e.kind == "log_line" then
      if Truthy(e.data).Some? then s.(log := s.log + [LogEntry(e.seqNo, TextOr(e.job), e.data.value)]) else s
    else if e.kind == "diagnostic" then
      if Truthy(e.data).Some? then s.(log := s.log + [LogEntry(e.seqNo, "pipeline", e.data.value)]) else s
    else if e.kind == "run_finished" then
      s.(status := StatusOf(e.err),
         durationMs := if IntOr(e.durationMs) != 0 then IntOr(e.durationMs) else s.durationMs,
         error := e.err, finished := true)
    else s
  }

  /** The reactive state object, folded in place. */
  class State {
    var value: LiveData

    constructor ()
      ensures value == NewState
    {
      value := NewState;
    }

    method UpsertJob(name: string) returns (i: nat)
      modifies this
      ensures value == old(value).(jobs := Upserted(old(value.jobs), name))
      ensures i == Find(old(value.jobs), name) && i < |value.jobs|
    {
      i := 0;
      while i < |value.jobs| && value.jobs[i].name != name
        invariant 0 <= i <= |value.jobs| && value == old(value)
        invariant forall k :: 0 <= k < i ==> value.jobs[k].name != name
      {
        i := i + 1;
      }
      if i == |value.jobs| {
        value := value.(jobs := value.jobs + [NewJob(name)]);
      }
    }

    method OnJobStarted(e: WireEvent)
      requires e.kind == "job_started"
      modifies this
      ensures value == Applied(old(value), e)
    {
      var i := UpsertJob(TextOr(e.job));
      var j := value.jobs[i];
      if Truthy(e.stage).Some? {
        j := j.(stage := e.stage.value);
      }
      if Truthy(e.exec).Some? {
        j := j.(execKind := e.exec.value);
      }
      j := j.(startedAt := Some(e.time), status := "running");
      value := value.(jobs := value.jobs[i := j]);
    }

    method OnJobFinished(e: WireEvent)
      requires e.kind == "job_finished"
      modifies this
      ensures value == Applied(old(value), e)
    {
      var i := UpsertJob(TextOr(e.job));
      var j := value.jobs[i];
      if Truthy(e.stage).Some? {
        j := j.(stage := e.stage.value);
      }
      j := j.(status := if Truthy(e.err).Some? then "failed" else "passed", exitCode := IntOr(e.exitCode),
              durationMs := IntOr(e.durationMs), error := e.err);
      value := value.(jobs := value.jobs[i := j]);
    }

    method ApplyEvent(e: WireEvent)
      modifies this
      ensures value == Applied(old(value), e)
    {
      match e.kind {
        case "run_started" =>
          if Truthy(e.mode).Some? {
            value := value.(mode := e.mode.value);
          }
          value := value.(startedAt := Some(e.time), configPath := e.configPath, projectPath := e.projectPath,
                          commit := e.commit, branch := e.branch, hasMatrix := e.hasMatrix,
                          hasDetached := e.hasDetached);
          if e.order.Some? {
            value := value.(order := e.order.value);
          }
        case "job_started" => OnJobStarted(e);
        case "job_finished" => OnJobFinished(e);
        case "log_line" =>
          if Truthy(e.data).Some? {
            value := value.(log := value.log + [LogEntry(e.seqNo, TextOr(e.job), e.data.value)]);
          }
        case "diagnostic" =>
          if Truthy(e.data).Some? {
            value := value.(log := value.log + [LogEntry(e.seqNo, "pipeline", e.data.value)]);
          }
        case "run_finished" =>
          value := value.(status := if Truthy(e.err).Some? then "failed" else "passed");
          if IntOr(e.durationMs) != 0 {
            value := value.(durationMs := IntOr(e.durationMs));
          }
          value := value.(error := e.err, finished := true);
        case _ =>
      }
    }
  }

  // ---- Replaying a stream changes no job ---------------------------------------

  function FoldJobs(jobs: seq<LiveJob>, es: seq<WireEvent>): seq<LiveJob> {
    if es == [] then jobs else AppliedJobs(FoldJobs(jobs, es[..|es| - 1]), Last(es))
  }

  function Fold(s: LiveData, es: seq<WireEvent>): LiveData {
    if es == [] then s else Applied(Fold(s, es[..|es| - 1]), Last(es))
  }

  lemma {:induction false} FoldProjectsJobs(s: LiveData, es: seq<WireEvent>)
    ensures Fold(s, es).jobs == FoldJobs(s.jobs, es)
  {
    if es != [] {
      FoldProjectsJobs(s, es[..|es| - 1]);
    }
  }

  /** All a stream writes to one job: for each field, the last write. */
  function Effect(es: seq<WireEvent>, name: string): Patch {
    if es == [] then NoPatch
    else
      var before := Effect(es[..|es| - 1], name);
      if IsJobEvent(Last(es)) && TextOr(Last(es).job) == name then Then(before, PatchOf(Last(es))) else before
  }

  lemma PatchTwice(p: Patch, q: Patch, j: LiveJob)
    ensures Patched(q, Patched(p, j)) == Patched(Then(p, q), j)
    ensures Patched(p, Patched(p, j)) == Patched(p, j)
    ensures Patched(NoPatch, j) == j
  {
  }

  function JobNames(jobs: seq<LiveJob>): (names: seq<string>)
    ensures |names| == |jobs| && forall i :: 0 <= i < |jobs| ==> names[i] == jobs[i].name
  {
    seq(|jobs|, i requires 0 <= i < |jobs| => jobs[i].name)
  }

  /** A list as seen through its lookup: the job of a name, or a fresh one. */
  function Get(jobs: seq<LiveJob>, name: string): LiveJob {
    var i := Find(jobs, name);
    if i < |jobs| then jobs[i] else NewJob(name)
  }

  lemma FindFirst(jobs: seq<LiveJob>, i: nat)
    requires Distinct(JobNames(jobs)) && i < |jobs|
    ensures Find(jobs, jobs[i].name) == i
  {
    assert JobNames(jobs)[Find(jobs, jobs[i].name)] == JobNames(jobs)[i];
  }

  lemma FindNames(jobs: seq<LiveJob>, name: string)
    ensures Find(jobs, name) < |jobs| <==> name in JobNames(jobs)
  {
    if name in JobNames(jobs) {
      var i :| 0 <= i < |jobs| && JobNames(jobs)[i] == name;
    }
  }

  lemma EventNames(jobs: seq<LiveJob>, e: WireEvent)
    requires IsJobEvent(e) && Distinct(JobNames(jobs))
    ensures var name := TextOr(e.job);
            JobNames(AppliedJobs(jobs, e)) == if name in JobNames(jobs) then JobNames(jobs) else JobNames(jobs) + [name]
    ensures Distinct(JobNames(AppliedJobs(jobs, e)))
  {
    FindNames(jobs, TextOr(e.job));
  }

  /** The lookup of a name is its position in the list of names. */
  lemma GetAt(jobs: seq<LiveJob>, i: nat)
    requires Distinct(JobNames(jobs)) && i < |jobs|
    ensures Get(jobs, jobs[i].name) == jobs[i]
  {
    FindFirst(jobs, i);
  }

  lemma EventGetSelf(jobs: seq<LiveJob>, e: WireEvent)
    requires IsJobEvent(e) && Distinct(JobNames(jobs))
    ensures Get(AppliedJobs(jobs, e), TextOr(e.job)) == Patched(PatchOf(e), Get(jobs, TextOr(e.job)))
  {
    EventNames(jobs, e);
    GetAt(AppliedJobs(jobs, e), Find(jobs, TextOr(e.job)));
  }

  lemma EventGetOther(jobs: seq<LiveJob>, e: WireEvent, other: string)
    requires IsJobEvent(e) && Distinct(JobNames(jobs)) && other != TextOr(e.job)
    ensures Get(AppliedJobs(jobs, e), other) == Get(jobs, other)
  {
    EventNames(jobs, e);
    var after, i := AppliedJobs(jobs, e), Find(jobs, other);
    FindNames(jobs, other);
    FindNames(after, other);
    if i < |jobs| {
      assert after[i] == jobs[i];
      GetAt(after, i);
    }
  }

  /** A job event patches the job it names and appends at most that name. */
  lemma JobEvent(jobs: seq<LiveJob>, e: WireEvent, other: string)
    requires IsJobEvent(e) && Distinct(JobNames(jobs))
    ensures var name, after := TextOr(e.job), AppliedJobs(jobs, e);
            && JobNames(after) == (if name in JobNames(jobs) then JobNames(jobs) else JobNames(jobs) + [name])
            && Distinct(JobNames(after))
            && Get(after, other) == if other == name then Patched(PatchOf(e), Get(jobs, name)) else Get(jobs, other)
  {
    EventNames(jobs, e);
    if other == TextOr(e.job) {
      EventGetSelf(jobs, e);
    } else {
      EventGetOther(jobs, e, other);
    }
  }

  ghost predicate Touches(es: seq<WireEvent>, name: string) {
    exists e :: e in es && IsJobEvent(e) && TextOr(e.job) == name
  }

  lemma TouchesSnoc(es: seq<WireEvent>, e: WireEvent, name: string)
    ensures Touches(es + [e], name) <==> Touches(es, name) || (IsJobEvent(e) && TextOr(e.job) == name)
  {
    if IsJobEvent(e) && TextOr(e.job) == name {
      assert e in es + [e];
    }
  }

  /** Folding a stream patches each job with the stream's effect on it; order is kept, new names go to the end. */
  lemma {:induction false} FoldIsEffect(jobs: seq<LiveJob>, es: seq<WireEvent>, name: string)
    requires Distinct(JobNames(jobs))
    ensures var after := FoldJobs(jobs, es);
            && Distinct(JobNames(after)) && JobNames(jobs) <= JobNames(after)
            && (name in JobNames(after) <==> name in JobNames(jobs) || Touches(es, name))
            && Get(after, name) == Patched(Effect(es, name), Get(jobs, name))
  {
    if es == [] {
      PatchTwice(NoPatch, NoPatch, Get(jobs, name));
    } else {
      var front, e := es[..|es| - 1], Last(es);
      FoldIsEffect(jobs, front, name);
      FoldOneMore(jobs, es, name);
    }
  }

  lemma FoldOneMore(jobs: seq<LiveJob>, es: seq<WireEvent>, name: string)
    requires es != [] && Distinct(JobNames(FoldJobs(jobs, es[..|es| - 1])))
    requires var before := FoldJobs(jobs, es[..|es| - 1]);
             && JobNames(jobs) <= JobNames(before)
             && (name in JobNames(before) <==> name in JobNames(jobs) || Touches(es[..|es| - 1], name))
             && Get(before, name) == Patched(Effect(es[..|es| - 1], name), Get(jobs, name))
    ensures var after := FoldJobs(jobs, es);
            && Distinct(JobNames(after)) && JobNames(jobs) <= JobNames(after)
            && (name in JobNames(after) <==> name in JobNames(jobs) || Touches(es, name))
            && Get(after, name) == Patched(Effect(es, name), Get(jobs, name))
  {
    var front, e := es[..|es| - 1], Last(es);
    FrontLast(es);
    TouchesSnoc(front, e, name);
    if IsJobEvent(e) {
      JobEvent(FoldJobs(jobs, front), e, name);
      PatchTwice(Effect(front, name), PatchOf(e), Get(jobs, name));
    }
  }

  /** A stream whose names are all listed adds none. */
  lemma {:induction false} FoldAddsNone(jobs: seq<LiveJob>, es: seq<WireEvent>)
    requires Distinct(JobNames(jobs)) && forall n :: Touches(es, n) ==> n in JobNames(jobs)
    ensures JobNames(FoldJobs(jobs, es)) == JobNames(jobs)
  {
    if es != [] {
      var front, e := es[..|es| - 1], Last(es);
      assert es == front + [e];
      forall n | Touches(front, n) ensures n in JobNames(jobs) {
        TouchesSnoc(front, e, n);
      }
      FoldAddsNone(jobs, front);
      if IsJobEvent(e) {
        TouchesSnoc(front, e, TextOr(e.job));
        JobEvent(FoldJobs(jobs, front), e, TextOr(e.job));
      }
    }
  }

  lemma SameLookups(a: seq<LiveJob>, b: seq<LiveJob>)
    requires Distinct(JobNames(a)) && JobNames(a) == JobNames(b)
    requires forall n :: Get(a, n) == Get(b, n)
    ensures a == b
  {
    forall i | 0 <= i < |a| ensures a[i] == b[i] {
      assert JobNames(a)[i] == JobNames(b)[i];
      FindFirst(a, i);
      FindFirst(b, i);
      assert Get(a, a[i].name) == Get(b, a[i].name);
    }
  }

  /** Replaying any stream on top of the state it produced leaves the jobs as they are: order and every field. */
  lemma ReplayIsIdempotent(s: LiveData, es: seq<WireEvent>)
    requires Distinct(JobNames(s.jobs))
    ensures Fold(Fold(s, es), es).jobs == Fold(s, es).jobs
  {
    FoldProjectsJobs(s, es);
    FoldProjectsJobs(Fold(s, es), es);
    var once := FoldJobs(s.jobs, es);
    FoldIsEffect(s.jobs, es, "");
    forall n | Touches(es, n) ensures n in JobNames(once) {
      FoldIsEffect(s.jobs, es, n);
    }
    FoldAddsNone(once, es);
    forall n ensures Get(FoldJobs(once, es), n) == Get(once, n) {
      FoldIsEffect(s.jobs, es, n);
      FoldIsEffect(once, es, n);
      PatchTwice(Effect(es, n), NoPatch, Get(s.jobs, n));
    }
    SameLookups(FoldJobs(once, es), once);
  }
}
