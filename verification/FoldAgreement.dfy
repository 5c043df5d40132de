/** Two independent folds of one event stream, the stored rows and the UI state, tell the same story. */
module FoldAgreement {
  import opened Basics
  import opened EngineEvents
  import opened Wire
  import LS = LiveState
  import RC = Recorder

  // ---- The shape of a run's stream ---------------------------------------------

  /** What has been emitted so far: whether the run started, and the jobs, each with its stage, that are still open. */
  datatype Shape = Shape(started: bool, finished: bool, names: seq<string>, open: map<string, string>)

  const NoShape := Shape(false, false, [], map[])

  /** The engine's stream: one run start with an id, then each job starts once under a new name
      and finishes at most once, later, with the stage it started with. */
  function NextShape(sh: Shape, e: Event): Option<Shape> {
    match e.kind
    case RunStarted => if sh.started || e.runId == "" then None else Some(sh.(started := true))
    case JobStarted =>
      if !sh.started || sh.finished || e.job in sh.names then None
      else Some(sh.(names := sh.names + [e.job], open := sh.open[e.job := e.stage]))
    case JobFinished =>
      if sh.finished || e.job !in sh.open || sh.open[e.job] != e.stage then None
      else Some(sh.(open := sh.open - {e.job}))
    case RunFinished => if sh.started && !sh.finished then Some(sh.(finished := true)) else None
    case _ => Some(sh)
  }

  function ShapeOf(es: seq<Event>): Option<Shape> {
    if es == [] then Some(NoShape)
    else
      var before := ShapeOf(es[..|es| - 1]);
      if before.None? then None else NextShape(before.value, Last(es))
  }

  function Rows(es: seq<Event>): RC.Records {
    if es == [] then RC.NoRecords else RC.Recorded(Rows(es[..|es| - 1]), Last(es))
  }

  function View(es: seq<Event>): LS.LiveData {
    if es == [] then LS.NewState else LS.Applied(View(es[..|es| - 1]), ToWire(Last(es)))
  }

  // ---- Agreement ----------------------------------------------------------------

  ghost predicate RowAgrees(row: RC.JobRow, j: LS.LiveJob) {
    && row.name == j.name && row.stage == j.stage && row.execKind == j.execKind && row.status == j.status
    && j.startedAt.Some? && row.startedAt == UnixMilli(j.startedAt.value)
    && IntOr(row.exitCode) == j.exitCode && IntOr(row.durationMs) == j.durationMs
    && row.error == TextOr(j.error)
  }

  ghost predicate RunAgrees(r: RC.Records, u: LS.LiveData) {
    if r.run.None? then u.status == "running" && u.error.None? && u.durationMs == 0 && !u.finished
    else
      && r.run.value.status == u.status && r.run.value.error == TextOr(u.error)
      && r.run.value.mode == u.mode
      && r.run.value.projectPath == TextOr(u.projectPath) && r.run.value.configPath == TextOr(u.configPath)
      && r.run.value.commit == TextOr(u.commit) && r.run.value.branch == TextOr(u.branch)
      && (r.run.value.finishedAt.Some? <==> u.finished) && IntOr(r.run.value.durationMs) == u.durationMs
      && u.startedAt.Some? && r.run.value.startedAt == UnixMilli(u.startedAt.value)
  }

  ghost predicate RowsAgree(rows: seq<RC.JobRow>, jobs: seq<LS.LiveJob>) {
    |rows| == |jobs| && forall i :: 0 <= i < |rows| ==> RowAgrees(rows[i], jobs[i])
  }

  /** Bookkeeping: the run row exists once the run started; the recorder's open ids point at the rows of the open
      jobs. */
  ghost predicate Tracks(sh: Shape, r: RC.Records) {
    && (sh.started <==> r.run.Some?) && (sh.finished ==> sh.started)
    && (sh.started ==> (sh.finished <==> r.run.value.finishedAt.Some?))
    && (sh.started && !sh.finished ==> r.run.value.durationMs.None?)
    && (sh.started ==> r.run.value.id == r.runId && r.runId != "")
    && |r.rows| == |sh.names| && Distinct(sh.names)
    && (forall i :: 0 <= i < |r.rows| ==> r.rows[i].name == sh.names[i])
    && r.jobIds.Keys == sh.open.Keys
    && (forall n :: n in r.jobIds ==>
          r.jobIds[n] < |r.rows| && sh.names[r.jobIds[n]] == n && r.rows[r.jobIds[n]].stage == sh.open[n])
  }

  lemma FindTracked(sh: Shape, r: RC.Records, jobs: seq<LS.LiveJob>, name: string)
    requires Tracks(sh, r) && RowsAgree(r.rows, jobs)
    ensures name !in sh.names ==> LS.Find(jobs, name) == |jobs|
    ensures name in r.jobIds ==> LS.Find(jobs, name) == r.jobIds[name]
  {
    var k := LS.Find(jobs, name);
    if k < |jobs| {
      assert RowAgrees(r.rows[k], jobs[k]);
      assert sh.names[k] == name;
    }
    if name in r.jobIds {
      assert RowAgrees(r.rows[r.jobIds[name]], jobs[r.jobIds[name]]);
    }
  }

  lemma StartRowAgrees(e: Event)
    requires e.kind == JobStarted
    ensures LS.IsJobEvent(ToWire(e)) && TextOr(ToWire(e).job) == e.job
    ensures RowAgrees(RC.StartRow(e), LS.Patched(LS.PatchOf(ToWire(e)), LS.NewJob(e.job)))
  {
  }

  lemma FinishedRowAgrees(row: RC.JobRow, j: LS.LiveJob, e: Event)
    requires e.kind == JobFinished && RowAgrees(row, j) && row.stage == e.stage
    ensures LS.IsJobEvent(ToWire(e)) && TextOr(ToWire(e).job) == e.job
    ensures RowAgrees(RC.Finished(row, e), LS.Patched(LS.PatchOf(ToWire(e)), j))
    ensures RC.Finished(row, e).name == row.name && RC.Finished(row, e).stage == row.stage
  {
  }

  lemma StartTracks(sh: Shape, r: RC.Records, e: Event)
    requires Tracks(sh, r) && e.kind == JobStarted && NextShape(sh, e).Some?
    ensures Tracks(NextShape(sh, e).value, RC.Recorded(r, e))
    ensures RC.Recorded(r, e).rows == r.rows + [RC.StartRow(e)] && RC.Recorded(r, e).run == r.run
  {
  }

  lemma FinishTracks(sh: Shape, r: RC.Records, e: Event)
    requires Tracks(sh, r) && e.kind == JobFinished && NextShape(sh, e).Some?
    ensures Tracks(NextShape(sh, e).value, RC.Recorded(r, e))
    ensures RC.Recorded(r, e).rows == r.rows[r.jobIds[e.job] := RC.Finished(r.rows[r.jobIds[e.job]], e)]
    ensures RC.Recorded(r, e).run == r.run
  {
  }

  lemma StartAgrees(sh: Shape, r: RC.Records, jobs: seq<LS.LiveJob>, e: Event)
    requires Tracks(sh, r) && RowsAgree(r.rows, jobs)
    requires e.kind == JobStarted && NextShape(sh, e).Some?
    ensures RowsAgree(r.rows + [RC.StartRow(e)], LS.AppliedJobs(jobs, ToWire(e)))
  {
    FindTracked(sh, r, jobs, e.job);
    StartRowAgrees(e);
    assert LS.AppliedJobs(jobs, ToWire(e)) == jobs + [LS.Patched(LS.PatchOf(ToWire(e)), LS.NewJob(e.job))];
  }

  lemma FinishAgrees(sh: Shape, r: RC.Records, jobs: seq<LS.LiveJob>, e: Event)
    requires Tracks(sh, r) && RowsAgree(r.rows, jobs)
    requires e.kind == JobFinished && NextShape(sh, e).Some?
    ensures RowsAgree(r.rows[r.jobIds[e.job] := RC.Finished(r.rows[r.jobIds[e.job]], e)],
                      LS.AppliedJobs(jobs, ToWire(e)))
  {
    FindTracked(sh, r, jobs, e.job);
    var i := r.jobIds[e.job];
    var job := LS.Patched(LS.PatchOf(ToWire(e)), jobs[i]);
    assert RowAgrees(r.rows[i], jobs[i]);
    FinishedRowAgrees(r.rows[i], jobs[i], e);
    assert LS.AppliedJobs(jobs, ToWire(e)) == jobs[i := job];
    RowsAgreeUpdated(r.rows, jobs, i, RC.Finished(r.rows[i], e), job);
  }

  lemma RowsAgreeUpdated(rows: seq<RC.JobRow>, jobs: seq<LS.LiveJob>, i: nat, row: RC.JobRow, job: LS.LiveJob)
    requires RowsAgree(rows, jobs) && i < |rows| && RowAgrees(row, job)
    ensures RowsAgree(rows[i := row], jobs[i := job])
  {
  }

  lemma JobEventAgrees(sh: Shape, r: RC.Records, u: LS.LiveData, e: Event)
    requires Tracks(sh, r) && RowsAgree(r.rows, u.jobs) && RunAgrees(r, u)
    requires (e.kind == JobStarted || e.kind == JobFinished) && NextShape(sh, e).Some?
    ensures Tracks(NextShape(sh, e).value, RC.Recorded(r, e))
    ensures RowsAgree(RC.Recorded(r, e).rows, LS.Applied(u, ToWire(e)).jobs)
    ensures RunAgrees(RC.Recorded(r, e), LS.Applied(u, ToWire(e)))
  {
    if e.kind == JobStarted {
      StartTracks(sh, r, e);
      StartAgrees(sh, r, u.jobs, e);
    } else {
      FinishTracks(sh, r, e);
      FinishAgrees(sh, r, u.jobs, e);
    }
  }

  lemma RunEventAgrees(sh: Shape, r: RC.Records, u: LS.LiveData, e: Event)
    requires Tracks(sh, r) && RunAgrees(r, u)
    requires (e.kind == RunStarted || e.kind == RunFinished) && NextShape(sh, e).Some?
    ensures RunAgrees(RC.Recorded(r, e), LS.Applied(u, ToWire(e)))
  {
  }

  /** Output is only logged, group events are not shown at all. */
  lemma OutputApplied(u: LS.LiveData, e: Event)
    requires e.kind == LogLine || e.kind == Diagnostic
    ensures LS.Applied(u, ToWire(e)) == u.(log := LS.Applied(u, ToWire(e)).log)
  {
  }

  lemma GroupApplied(u: LS.LiveData, e: Event)
    requires e.kind == GroupStarted || e.kind == GroupFinished
    ensures LS.Applied(u, ToWire(e)) == u
  {
  }

  lemma KeepsJobs(u: LS.LiveData, e: Event)
    requires e.kind == RunStarted || e.kind == RunFinished
    ensures LS.Applied(u, ToWire(e)).jobs == u.jobs
  {
  }

  lemma OtherTracks(sh: Shape, r: RC.Records, e: Event)
    requires Tracks(sh, r) && e.kind != JobStarted && e.kind != JobFinished && NextShape(sh, e).Some?
    ensures Tracks(NextShape(sh, e).value, RC.Recorded(r, e)) && RC.Recorded(r, e).rows == r.rows
  {
  }

  lemma OtherAgrees(sh: Shape, r: RC.Records, u: LS.LiveData, e: Event)
    requires Tracks(sh, r) && RunAgrees(r, u)
    requires e.kind != JobStarted && e.kind != JobFinished && NextShape(sh, e).Some?
    ensures LS.Applied(u, ToWire(e)).jobs == u.jobs
    ensures RunAgrees(RC.Recorded(r, e), LS.Applied(u, ToWire(e)))
  {
    if e.kind == RunStarted || e.kind == RunFinished {
      KeepsJobs(u, e);
      RunEventAgrees(sh, r, u, e);
    } else if e.kind == LogLine || e.kind == Diagnostic {
      OutputApplied(u, e);
    } else {
      GroupApplied(u, e);
    }
  }

  /** After every prefix of a run's stream the stored job rows and the UI's jobs agree in order and on
      name, stage, execution kind, status, start to the millisecond, exit code, duration and error, and so
      do the run's mode, start, status and error. */
  lemma {:induction false} FoldsAgree(es: seq<Event>)
    requires ShapeOf(es).Some?
    ensures Tracks(ShapeOf(es).value, Rows(es))
    ensures RowsAgree(Rows(es).rows, View(es).jobs)
    ensures RunAgrees(Rows(es), View(es))
  {
    if es != [] {
      var front, e := es[..|es| - 1], Last(es);
      FoldsAgree(front);
      var sh, r, u := ShapeOf(front).value, Rows(front), View(front);
      if e.kind == JobStarted || e.kind == JobFinished {
        JobEventAgrees(sh, r, u, e);
      } else {
        OtherTracks(sh, r, e);
        OtherAgrees(sh, r, u, e);
      }
    }
  }
}
