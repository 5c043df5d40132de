/** What each fold keeps beside what the two agree on, event by event. */
module FoldDetails {
  import opened Basics
  import opened Listing
  import opened EngineEvents
  import opened Wire
  import opened FoldAgreement
  import LS = LiveState
  import RC = Recorder

  // ---- The live log ------------------------------------------------------------------

  predicate IsOutput(e: Event) {
    (e.kind == LogLine || e.kind == Diagnostic) && e.data != ""
  }

  function Entry(e: Event): LS.LogEntry {
    LS.LogEntry(e.seqNo, if e.kind == LogLine then e.job else "pipeline", e.data)
  }

  function Entries(es: seq<Event>): seq<LS.LogEntry> {
    seq(|es|, i requires 0 <= i < |es| => Entry(es[i]))
  }

  // -- What each kind of event does to the live state --

  lemma OutputLogged(u: LS.LiveData, e: Event)
    requires e.kind == LogLine || e.kind == Diagnostic
    ensures LS.Applied(u, ToWire(e)).log == u.log + if IsOutput(e) then [Entry(e)] else []
  {
    AppendNothing(u.log);
  }

  lemma JobApplied(u: LS.LiveData, e: Event)
    requires e.kind == JobStarted || e.kind == JobFinished
    ensures LS.Applied(u, ToWire(e)) == u.(jobs := LS.Applied(u, ToWire(e)).jobs)
  {
  }

  lemma EndApplied(u: LS.LiveData, e: Event)
    requires e.kind == RunFinished
    ensures var v := LS.Applied(u, ToWire(e));
            v == u.(status := v.status, durationMs := v.durationMs, error := v.error, finished := true)
  {
  }

  lemma StartApplied(u: LS.LiveData, e: Event)
    requires e.kind == RunStarted
    ensures LS.Applied(u, ToWire(e)).log == u.log && LS.Applied(u, ToWire(e)).finished == u.finished
    ensures u.order == [] ==> ShowsStart(LS.Applied(u, ToWire(e)), e)
  {
  }

  lemma EntryIsLogged(u: LS.LiveData, e: Event)
    ensures LS.Applied(u, ToWire(e)).log == u.log + if IsOutput(e) then [Entry(e)] else []
    ensures LS.Applied(u, ToWire(e)).finished == (u.finished || e.kind == RunFinished)
  {
    AppendNothing(u.log);
    match e.kind
    case RunStarted => StartApplied(u, e);
    case RunFinished => EndApplied(u, e);
    case GroupStarted => GroupApplied(u, e);
    case GroupFinished => GroupApplied(u, e);
    case JobStarted => JobApplied(u, e);
    case JobFinished => JobApplied(u, e);
    case LogLine =>
      OutputApplied(u, e);
      OutputLogged(u, e);
    case Diagnostic =>
      OutputApplied(u, e);
      OutputLogged(u, e);
  }

  /** The live log is the stream's non-empty output in order, and the state is finished once the run's end was seen. */
  lemma {:induction false} LogIsOutput(es: seq<Event>) returns (outs: seq<Event>)
    ensures Selects(es, outs, IsOutput) && View(es).log == Entries(outs)
    ensures View(es).finished <==> exists e :: e in es && e.kind == RunFinished
  {
    if es == [] {
      outs := [];
      SelectsNone(IsOutput);
    } else {
      var front, e := es[..|es| - 1], Last(es);
      var before := LogIsOutput(front);
      SelectsSnoc(front, before, e, IsOutput);
      FrontLast(es);
      EntryIsLogged(View(front), e);
      outs := before + if IsOutput(e) then [e] else [];
      EntriesSnoc(before, e);
      AppendNothing(before);
      AppendNothing(Entries(before));
    }
  }

  lemma EntriesSnoc(es: seq<Event>, e: Event)
    ensures Entries(es + [e]) == Entries(es) + [Entry(e)]
  {
  }

  // ---- The run's start -----------------------------------------------------------------

  /** What only the live state keeps of the run's start. */
  ghost predicate ShowsStart(u: LS.LiveData, e: Event) {
    && u.hasMatrix == e.hasMatrix && u.hasDetached == e.hasDetached && u.order == e.order
    && u.mode == ModeString(e.mode) && u.startedAt == Some(e.time)
    && TextOr(u.configPath) == e.configPath && TextOr(u.projectPath) == e.projectPath
    && TextOr(u.commit) == e.commit && TextOr(u.branch) == e.branch
  }

  /** Seen from the event: it started the run that is shown and stored. */
  ghost predicate StartTold(es: seq<Event>, p: nat)
    requires p < |es|
  {
    es[p].kind == RunStarted ==>
      && ShowsStart(View(es), es[p])
      && Rows(es).run.Some? && Rows(es).run.value.id == es[p].runId
      && Rows(es).run.value.startedAt == UnixMilli(es[p].time)
  }

  ghost predicate SameStart(u: LS.LiveData, v: LS.LiveData) {
    && u.hasMatrix == v.hasMatrix && u.hasDetached == v.hasDetached && u.order == v.order && u.mode == v.mode
    && u.startedAt == v.startedAt && u.configPath == v.configPath && u.projectPath == v.projectPath
    && u.commit == v.commit && u.branch == v.branch
  }

  lemma StartStaysShown(u: LS.LiveData, e: Event)
    requires e.kind != RunStarted
    ensures SameStart(u, LS.Applied(u, ToWire(e)))
  {
    match e.kind
    case RunFinished => EndApplied(u, e);
    case GroupStarted => GroupApplied(u, e);
    case GroupFinished => GroupApplied(u, e);
    case JobStarted => JobApplied(u, e);
    case JobFinished => JobApplied(u, e);
    case LogLine => OutputApplied(u, e);
    case Diagnostic => OutputApplied(u, e);
  }

  lemma StartIsStored(r: RC.Records, e: Event)
    requires (e.kind == RunStarted ==> r.run.None?) && (r.run.Some? ==> r.run.value.id == r.runId)
    ensures e.kind == RunStarted ==>
              RC.Recorded(r, e).run.Some? && RC.Recorded(r, e).run.value.id == e.runId
              && RC.Recorded(r, e).run.value.startedAt == UnixMilli(e.time)
    ensures e.kind != RunStarted && r.run.Some? ==>
              RC.Recorded(r, e).run.Some? && RC.Recorded(r, e).run.value.id == r.run.value.id
              && RC.Recorded(r, e).run.value.startedAt == r.run.value.startedAt
  {
  }

  ghost predicate AllStartsTold(es: seq<Event>) {
    forall p :: 0 <= p < |es| ==> StartTold(es, p)
  }

  ghost predicate NotBegun(es: seq<Event>) {
    View(es).order == [] && Rows(es).run.None? && NoStart(es)
  }

  ghost predicate NoStart(es: seq<Event>) {
    forall p :: 0 <= p < |es| ==> es[p].kind != RunStarted
  }

  /** The start of the run is what the state shows and the store has, to the end of the stream. */
  lemma {:induction false} StartIsTold(es: seq<Event>)
    requires ShapeOf(es).Some?
    ensures AllStartsTold(es) && (!ShapeOf(es).value.started ==> NotBegun(es))
  {
    if es != [] {
      var front := es[..|es| - 1];
      StartIsTold(front);
      RunIsKnown(front);
      if Last(es).kind == RunStarted {
        StartTakesOver(es);
      } else {
        StartStaysTold(es);
        if NotBegun(front) {
          StillNotBegun(es);
        }
      }
    }
  }

  lemma RunIsKnown(es: seq<Event>)
    requires ShapeOf(es).Some?
    ensures Rows(es).run.Some? ==> Rows(es).run.value.id == Rows(es).runId
  {
    FoldsAgree(es);
  }

  lemma StartTakesOver(es: seq<Event>)
    requires es != [] && Last(es).kind == RunStarted && NotBegun(es[..|es| - 1])
    ensures AllStartsTold(es)
  {
    StartApplied(View(es[..|es| - 1]), Last(es));
    StartIsStored(Rows(es[..|es| - 1]), Last(es));
    forall p | 0 <= p < |es| ensures StartTold(es, p) {
      assert p < |es| - 1 ==> es[..|es| - 1][p].kind != RunStarted;
    }
  }

  lemma StartStaysTold(es: seq<Event>)
    requires es != [] && Last(es).kind != RunStarted && AllStartsTold(es[..|es| - 1])
    requires Rows(es[..|es| - 1]).run.Some? ==> Rows(es[..|es| - 1]).run.value.id == Rows(es[..|es| - 1]).runId
    ensures AllStartsTold(es)
  {
    var front := es[..|es| - 1];
    forall p | 0 <= p < |es| ensures StartTold(es, p) {
      if es[p].kind == RunStarted {
        assert front[p] == es[p] && StartTold(front, p);
        ShownStays(View(front), Last(es), es[p]);
        StartIsStored(Rows(front), Last(es));
      }
    }
  }

  lemma ShownStays(u: LS.LiveData, e: Event, start: Event)
    requires e.kind != RunStarted && ShowsStart(u, start)
    ensures ShowsStart(LS.Applied(u, ToWire(e)), start)
  {
    StartStaysShown(u, e);
  }

  lemma OrderStays(u: LS.LiveData, e: Event)
    requires e.kind != RunStarted
    ensures LS.Applied(u, ToWire(e)).order == u.order
  {
    StartStaysShown(u, e);
  }

  lemma StillNotBegun(es: seq<Event>)
    requires es != [] && Last(es).kind != RunStarted && NotBegun(es[..|es| - 1])
    ensures NotBegun(es)
  {
    var front := es[..|es| - 1];
    assert View(es).order == [] by {
      OrderStays(View(front), Last(es));
    }
    assert Rows(es).run.None? by {
      NoRunFromNothing(Rows(front), Last(es));
    }
    NoneStartedYet(es);
  }

  lemma NoneStartedYet(es: seq<Event>)
    requires es != [] && Last(es).kind != RunStarted && NoStart(es[..|es| - 1])
    ensures NoStart(es)
  {
    forall p | 0 <= p < |es| ensures es[p].kind != RunStarted {
      assert p < |es| - 1 ==> es[..|es| - 1][p].kind != RunStarted;
    }
  }

  lemma NoRunFromNothing(r: RC.Records, e: Event)
    requires e.kind != RunStarted && r.run.None?
    ensures RC.Recorded(r, e).run.None?
  {
  }

  // ---- The rows ---------------------------------------------------------------------------

  /** What the store keeps of a job's start and finish, seen from the events. */
  ghost predicate RowTold(row: RC.JobRow, e: Event) {
    && (e.kind == JobStarted ==> row.groupLabel == e.groupId && row.startedAt == UnixMilli(e.time))
    && (e.kind == JobFinished ==>
          row.finishedAt == Some(UnixMilli(e.time)) && row.durationMs == Some(Millis(e.duration))
          && row.exitCode == Some(e.exitCode))
  }

  ghost predicate IsJobEvent(e: Event) {
    e.kind == JobStarted || e.kind == JobFinished
  }

  ghost predicate EventTold(es: seq<Event>, rows: seq<RC.JobRow>, p: nat, i: nat)
    requires p < |es| && i < |rows|
  {
    IsJobEvent(es[p]) && es[p].job == rows[i].name ==> RowTold(rows[i], es[p])
  }

  /** Every job event so far has its name listed, and is over if it was a finish. */
  ghost predicate EventCounted(sh: Shape, e: Event) {
    IsJobEvent(e) ==> e.job in sh.names && (e.kind == JobFinished ==> e.job !in sh.open)
  }

  lemma NextKeepsCounted(sh: Shape, e: Event, past: Event)
    requires NextShape(sh, e).Some? && EventCounted(sh, past)
    ensures EventCounted(NextShape(sh, e).value, past)
  {
  }

  /** A new job event changes only its own row. */
  lemma RowChanges(sh: Shape, r: RC.Records, e: Event, i: nat)
    requires Tracks(sh, r) && NextShape(sh, e).Some? && i < |r.rows|
    ensures var rows := RC.Recorded(r, e).rows;
            && i < |rows| && rows[i].name == r.rows[i].name
            && (!(IsJobEvent(e) && e.job == r.rows[i].name) ==> rows[i] == r.rows[i])
            && (IsJobEvent(e) && e.job == r.rows[i].name ==>
                  e.kind == JobFinished && e.job in sh.open && RowTold(rows[i], e))
            && rows[i].groupLabel == r.rows[i].groupLabel && rows[i].startedAt == r.rows[i].startedAt
  {
  }

  lemma NewRow(sh: Shape, r: RC.Records, e: Event)
    requires Tracks(sh, r) && NextShape(sh, e).Some?
    ensures |RC.Recorded(r, e).rows| == |r.rows| + if e.kind == JobStarted then 1 else 0
    ensures e.kind == JobStarted ==>
              RowTold(Last(RC.Recorded(r, e).rows), e) && Last(RC.Recorded(r, e).rows).name == e.job
  {
  }

  ghost predicate AllEventsTold(es: seq<Event>, rows: seq<RC.JobRow>) {
    forall p, i :: 0 <= p < |es| && 0 <= i < |rows| ==> EventTold(es, rows, p, i)
  }

  ghost predicate AllCounted(sh: Shape, es: seq<Event>) {
    forall p :: 0 <= p < |es| ==> EventCounted(sh, es[p])
  }

  /** Each row has the group and start of its job's start event, and the times and result of its finish. */
  lemma {:induction false} RowsAreTold(es: seq<Event>)
    requires ShapeOf(es).Some?
    ensures AllCounted(ShapeOf(es).value, es) && AllEventsTold(es, Rows(es).rows)
  {
    if es != [] {
      var front := es[..|es| - 1];
      RowsAreTold(front);
      FoldsAgree(front);
      FrontLast(es);
      CountedNext(ShapeOf(front).value, Rows(front), front, Last(es));
      ToldNext(ShapeOf(front).value, Rows(front), front, Last(es));
    }
  }

  lemma CountedNext(sh: Shape, r: RC.Records, front: seq<Event>, e: Event)
    requires Tracks(sh, r) && NextShape(sh, e).Some? && AllCounted(sh, front)
    ensures AllCounted(NextShape(sh, e).value, front + [e])
  {
    forall p | 0 <= p < |front| + 1 ensures EventCounted(NextShape(sh, e).value, (front + [e])[p]) {
      if p < |front| {
        NextKeepsCounted(sh, e, front[p]);
      }
    }
  }

  lemma ToldNext(sh: Shape, r: RC.Records, front: seq<Event>, e: Event)
    requires Tracks(sh, r) && NextShape(sh, e).Some? && AllCounted(sh, front) && AllEventsTold(front, r.rows)
    ensures AllEventsTold(front + [e], RC.Recorded(r, e).rows)
  {
    var es, rows := front + [e], RC.Recorded(r, e).rows;
    NewRow(sh, r, e);
    forall p, i | 0 <= p < |es| && 0 <= i < |rows| ensures EventTold(es, rows, p, i) {
      if i < |r.rows| {
        RowChanges(sh, r, e, i);
      }
      if p < |front| {
        assert EventCounted(sh, front[p]);
        assert i < |r.rows| ==> EventTold(front, r.rows, p, i);
      }
    }
  }
}
