/** The JSON form of events: internal/engine/wire.go. An omitted field is None. */
module Wire {
  import opened Basics
  import opened EngineEvents

  datatype WireEvent = WireEvent(
    seqNo: nat,
    kind: string,
    time: int,
    runId: Option<string>,
    job: Option<string>,
    stage: Option<string>,
    exec: Option<string>,
    groupId: Option<string>,
    groupKind: Option<string>,
    groupLabel: Option<string>,
    mode: Option<string>,
    hasMatrix: bool,
    hasDetached: bool,
    order: Option<seq<string>>,
    configPath: Option<string>,
    projectPath: Option<string>,
    commit: Option<string>,
    branch: Option<string>,
    exitCode: Option<int>,
    durationMs: Option<int>,
    err: Option<string>,
    stream: Option<string>,
    data: Option<string>)

  function Text(s: string): Option<string> {
    if s == "" then None else Some(s)
  }

  function List(s: seq<string>): Option<seq<string>> {
    if s == [] then None else Some(s)
  }

  function Int(n: int): Option<int> {
    if n == 0 then None else Some(n)
  }

  function TextOr(o: Option<string>): string {
    if o.Some? then o.value else ""
  }

  function IntOr(o: Option<int>): int {
    if o.Some? then o.value else 0
  }

  /** Whole milliseconds of a duration in nanoseconds, truncated toward zero. */
  function Millis(nanos: int): int {
    if nanos >= 0 then nanos / 1_000_000 else -((-nanos) / 1_000_000)
  }

  /** Whole milliseconds of a point in time in nanoseconds since the epoch. */
  function UnixMilli(time: int): int {
    time / 1_000_000
  }

  /** Both lose only what is below a millisecond. */
  lemma MillisExactly(nanos: int)
    ensures nanos >= 0 ==> Millis(nanos) * 1_000_000 <= nanos < (Millis(nanos) + 1) * 1_000_000
    ensures Millis(-nanos) == -Millis(nanos)
    ensures UnixMilli(nanos) * 1_000_000 <= nanos < (UnixMilli(nanos) + 1) * 1_000_000
  {
  }

  /** An omitted field reads as the empty value. */
  lemma OmittedIsEmpty(text: string, n: int)
    ensures TextOr(Text(text)) == text && IntOr(Int(n)) == n
    ensures Text(text).None? <==> text == ""
    ensures Int(n).None? <==> n == 0
  {
  }

  function TypeString(t: EventType): string {
    match t
    case RunStarted => "run_started"
    case RunFinished => "run_finished"
    case GroupStarted => "group_started"
    case GroupFinished => "group_finished"
    case JobStarted => "job_started"
    case JobFinished => "job_finished"
    case LogLine => "log_line"
    case Diagnostic => "diagnostic"
  }

  function ModeString(m: RunMode): string {
    match m
    case ModeParallel => "parallel"
    case ModeParallelStages => "parallel-stages"
    case ModeSequential => "sequential"
  }

  function ExecString(k: ExecKind): string {
    match k
    case Concurrent => "concurrent"
    case Detached => "detached"
    case Standalone => "standalone"
  }

  function GroupKindString(k: GroupKind): string {
    match k
    case GroupStage => "stage"
    case GroupMatrix => "matrix"
    case GroupParallelAll => "parallel"
  }

  function StreamString(s: StreamKind): string {
    match s
    case StreamStderr => "stderr"
    case StreamStdout => "stdout"
  }

  function Bare(e: Event): WireEvent {
    WireEvent(e.seqNo, TypeString(e.kind), e.time, Text(e.runId), None, None, None, None, None, None, None,
              false, false, None, None, None, None, None, None, None, None, None, None)
  }

  function ToWire(e: Event): WireEvent {
    var w := Bare(e);
    match e.kind
    case RunStarted =>
      w.(mode := Some(ModeString(e.mode)), hasMatrix := e.hasMatrix, hasDetached := e.hasDetached,
         order := List(e.order), configPath := Text(e.configPath), projectPath := Text(e.projectPath),
         commit := Text(e.commit), branch := Text(e.branch))
    case RunFinished => w.(durationMs := Int(Millis(e.duration)), err := Text(e.err))
    case GroupStarted =>
      w.(groupKind := Some(GroupKindString(e.groupKind)), groupLabel := Text(e.groupLabel),
         groupId := Text(e.groupId), order := List(e.order))
    case GroupFinished =>
      w.(groupKind := Some(GroupKindString(e.groupKind)), groupLabel := Text(e.groupLabel),
         groupId := Text(e.groupId), order := List(e.order))
    case JobStarted =>
      w.(job := Text(e.job), stage := Text(e.stage), exec := Some(ExecString(e.exec)), groupId := Text(e.groupId))
    case JobFinished =>
      w.(job := Text(e.job), stage := Text(e.stage), exec := Some(ExecString(e.exec)), groupId := Text(e.groupId),
         exitCode := Int(e.exitCode), durationMs := Int(Millis(e.duration)), err := Text(e.err))
    case LogLine =>
      w.(job := Text(e.job), exec := Some(ExecString(e.exec)), stream := Some(StreamString(e.stream)),
         data := Text(e.data))
    case Diagnostic => w.(data := Text(e.data))
  }

  /** Nothing an event means is lost on the wire: each field of its kind can be read back. */
  lemma WireCarries(e: Event)
    ensures var w := ToWire(e);
            && w.seqNo == e.seqNo && w.time == e.time && w.kind == TypeString(e.kind) && TextOr(w.runId) == e.runId
            && match e.kind
               case RunStarted =>
                 && w.mode == Some(ModeString(e.mode)) && w.hasMatrix == e.hasMatrix && w.hasDetached == e.hasDetached
                 && (if w.order.Some? then w.order.value else []) == e.order
                 && TextOr(w.configPath) == e.configPath && TextOr(w.projectPath) == e.projectPath
                 && TextOr(w.commit) == e.commit && TextOr(w.branch) == e.branch
               case RunFinished => IntOr(w.durationMs) == Millis(e.duration) && TextOr(w.err) == e.err
               case GroupStarted => GroupCarried(w, e)
               case GroupFinished => GroupCarried(w, e)
               case JobStarted => JobCarried(w, e)
               case JobFinished =>
                 && JobCarried(w, e) && IntOr(w.exitCode) == e.exitCode
                 && IntOr(w.durationMs) == Millis(e.duration) && TextOr(w.err) == e.err
               case LogLine =>
                 && TextOr(w.job) == e.job && w.exec == Some(ExecString(e.exec)) && TextOr(w.data) == e.data
                 && w.stream == Some(StreamString(e.stream))
               case Diagnostic => TextOr(w.data) == e.data
  {
  }

  predicate GroupCarried(w: WireEvent, e: Event) {
    && w.groupKind == Some(GroupKindString(e.groupKind)) && TextOr(w.groupLabel) == e.groupLabel
    && TextOr(w.groupId) == e.groupId && (if w.order.Some? then w.order.value else []) == e.order
  }

  predicate JobCarried(w: WireEvent, e: Event) {
    && TextOr(w.job) == e.job && TextOr(w.stage) == e.stage && w.exec == Some(ExecString(e.exec))
    && TextOr(w.groupId) == e.groupId
  }

  /** Different kinds and modes read differently. */
  lemma StringsDiffer(t: EventType, t': EventType, m: RunMode, m': RunMode, k: ExecKind, k': ExecKind,
                      g: GroupKind, g': GroupKind, s: StreamKind, s': StreamKind)
    ensures TypeString(t) == TypeString(t') ==> t == t'
    ensures ModeString(m) == ModeString(m') ==> m == m'
    ensures ExecString(k) == ExecString(k') ==> k == k'
    ensures GroupKindString(g) == GroupKindString(g') ==> g == g'
    ensures StreamString(s) == StreamString(s') ==> s == s'
  {
  }
}
