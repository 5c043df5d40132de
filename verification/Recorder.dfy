/** The persistence sink's fold of the event stream (internal/sink/recorder/recorder.go) into one run's rows. */
module Recorder {
  import opened Basics
  import opened EngineEvents
  import opened Wire

  /** Columns unknown until a job or run finishes are None. */
  datatype JobRow = JobRow(name: string, stage: string, execKind: string, groupLabel: string, status: string,
                           startedAt: int, finishedAt: Option<int>, durationMs: Option<int>, exitCode: Option<int>,
                           error: string)

  datatype RunRow = RunRow(id: string, projectPath: string, configPath: string, mode: string, status: string,
                           startedAt: int, finishedAt: Option<int>, durationMs: Option<int>, error: string,
                           commit: string, branch: string)

  /** The run's row, its job rows in row-id order, and the recorder's own fields. */
  datatype Records = Records(runId: string, run: Option<RunRow>, rows: seq<JobRow>, jobIds: map<string, nat>)

  const NoRecords := Records("", None, [], map[])

  /** The recorder's own reading of modes and execution kinds. */
  function ModeColumn(m: RunMode): string {
    match m
    case ModeParallel => "parallel"
    case ModeParallelStages => "parallel-stages"
    case ModeSequential => "sequential"
  }

  function ExecKindColumn(k: ExecKind): string {
    match k
    case Concurrent => "concurrent"
    case Detached => "detached"
    case Standalone => "standalone"
  }

  function StatusFromErr(err: string): string {
    if err == "" then "passed" else "failed"
  }

  /** A second row of the same id is refused by the store. */
  function OnRunStarted(r: Records, e: Event): Records {
    r.(runId := e.runId,
       run := if r.run.Some? && r.run.value.id == e.runId then r.run
              else Some(RunRow(e.runId, e.projectPath, e.configPath, ModeColumn(e.mode), "running", UnixMilli(e.time),
                                None, None, "", e.commit, e.branch)))
  }

  function StartRow(e: Event): JobRow {
    JobRow(e.job, e.stage, ExecKindColumn(e.exec), e.groupId, "running", UnixMilli(e.time), None, None, None, "")
  }

  /** A job row must refer to an existing run; otherwise the insert fails and is only warned about. */
  function OnJobStarted(r: Records, e: Event): Records {
    if r.run.None? || r.run.value.id != r.runId then r
    else
      r.(rows := r.rows + [StartRow(e)],
         jobIds := r.jobIds[e.job := |r.rows|])
  }

  function Finished(row: JobRow, e: Event): JobRow {
    row.(status := StatusFromErr(e.err), finishedAt := Some(UnixMilli(e.time)), durationMs := Some(Millis(e.duration)),
         exitCode := Some(e.exitCode), error := e.err)
  }

  function OnJobFinished(r: Records, e: Event): Records {
    if e.job !in r.jobIds then r
    else
      var id := r.jobIds[e.job];
      r.(rows := if id < |r.rows| then r.rows[id := Finished(r.rows[id], e)] else r.rows, jobIds := r.jobIds - {e.job})
  }

  function OnRunFinished(r: Records, e: Event): Records {
    if r.runId == "" || r.run.None? || r.run.value.id != r.runId then r
    else
      r.(run := Some(r.run.value.(status := StatusFromErr(e.err), finishedAt := Some(UnixMilli(e.time)),
                                  durationMs := Some(Millis(e.duration)), error := e.err)))
  }

  function Recorded(r: Records, e: Event): Records {
    match e.kind
    case RunStarted => OnRunStarted(r, e)
    case JobStarted => OnJobStarted(r, e)
    case JobFinished => OnJobFinished(r, e)
    case RunFinished => OnRunFinished(r, e)
    case _ => r
  }

  /** The recorder over its store: row ids are positions in `rows`. */
  class Sink {
    var runId: string
    var jobIds: map<string, nat>
    var run: Option<RunRow>
    var rows: seq<JobRow>

    constructor ()
      ensures Value() == NoRecords
    {
      runId, jobIds, run, rows := "", map[], None, [];
    }

    function Value(): Records
      reads this
    {
      Records(runId, run, rows, jobIds)
    }

    method Emit(e: Event)
      modifies this
      ensures Value() == Recorded(old(Value()), e)
    {
      match e.kind {
        case RunStarted =>
          runId := e.runId;
          if run.None? || run.value.id != e.runId {
            run := Some(RunRow(e.runId, e.projectPath, e.configPath, ModeColumn(e.mode), "running", UnixMilli(e.time),
                                None, None, "", e.commit, e.branch));
          }
        case JobStarted =>
          if run.Some? && run.value.id == runId {
            jobIds := jobIds[e.job := |rows|];
            rows := rows + [StartRow(e)];
          }
        case JobFinished =>
          if e.job in jobIds {
            var id := jobIds[e.job];
            if id < |rows| {
              rows := rows[id := rows[id].(status := StatusFromErr(e.err), finishedAt := Some(UnixMilli(e.time)),
                                           durationMs := Some(Millis(e.duration)), exitCode := Some(e.exitCode),
                                           error := e.err)];
            }
            jobIds := jobIds - {e.job};
          }
        case RunFinished =>
          if runId != "" && run.Some? && run.value.id == runId {
            run := Some(run.value.(status := StatusFromErr(e.err), finishedAt := Some(UnixMilli(e.time)),
                                   durationMs := Some(Millis(e.duration)), error := e.err));
          }
        case _ =>
      }
    }
  }
}
