/** The engine's event stream: internal/engine/event.go. */
module EngineEvents {

  datatype EventType =
    | RunStarted | RunFinished | GroupStarted | GroupFinished
    | JobStarted | JobFinished | LogLine | Diagnostic

  datatype ExecKind = Standalone | Concurrent | Detached
  datatype GroupKind = GroupParallelAll | GroupStage | GroupMatrix
  datatype RunMode = ModeSequential | ModeParallelStages | ModeParallel
  datatype StreamKind = StreamStdout | StreamStderr

  /** One item of the stream; only the fields of its kind are meaningful. Durations are in nanoseconds. */
  datatype Event = Event(
    kind: EventType,
    time: int,
    runId: string,
    seqNo: nat,
    job: string,
    stage: string,
    exec: ExecKind,
    groupId: string,
    groupKind: GroupKind,
    groupLabel: string,
    mode: RunMode,
    hasMatrix: bool,
    hasDetached: bool,
    configPath: string,
    projectPath: string,
    commit: string,
    branch: string,
    order: seq<string>,
    exitCode: int,
    duration: int,
    err: string,
    stream: StreamKind,
    data: string)
}
