/** The streams of real runs as their observers see them: every run of either scheduler emits events of
    the shape on which the stored rows and the UI state agree. */
module RunStreams {
  import opened Basics
  import EV = EngineEvents
  import FA = FoldAgreement
  import SG = Segments
  import ST = StagedRun
  import opened DagRun

  // ---- What a stream is -------------------------------------------------------------

  ghost predicate IsJobKind(e: EV.Event) {
    e.kind == EV.JobStarted || e.kind == EV.JobFinished
  }

  ghost predicate Begun(es: seq<EV.Event>) {
    es != [] && (Last(es).kind == EV.RunStarted || Begun(es[..|es| - 1]))
  }

  ghost predicate Over(es: seq<EV.Event>) {
    es != [] && (Last(es).kind == EV.RunFinished || Over(es[..|es| - 1]))
  }

  /** The engine starts the run once, with an id, and ends it once; jobs, each with its stage, come in between.
      Diagnostics, output and group events may come at any time, also before. */
  ghost predicate IsStream(es: seq<EV.Event>, stageOf: string -> string) {
    if es == [] then true
    else
      var front, e := es[..|es| - 1], Last(es);
      && IsStream(front, stageOf)
      && (e.kind == EV.RunStarted ==> e.runId != "" && !Begun(front))
      && (IsJobKind(e) ==> Begun(front) && !Over(front) && e.stage == stageOf(e.job))
      && (e.kind == EV.RunFinished ==> Begun(front) && !Over(front))
  }

  /** The scheduler's reading of a bus stream: its job events. */
  ghost function JobLog(es: seq<EV.Event>): seq<Event> {
    if es == [] then []
    else
      var e, before := Last(es), JobLog(es[..|es| - 1]);
      if e.kind == EV.JobStarted then before + [Started(e.job)]
      else if e.kind == EV.JobFinished then before + [Finished(e.job, e.err == "")]
      else before
  }

  ghost predicate StartThenFinish(events: seq<Event>, j: string) {
    || events == []
    || events == [Started(j)]
    || (|events| == 2 && events[0] == Started(j) && events[1].Finished? && events[1].job == j)
  }

  ghost predicate OncePerName(log: seq<Event>) {
    forall j :: StartThenFinish(EventsOf(log, j), j)
  }

  // ---- Its shape -----------------------------------------------------------------------

  lemma PrefixOnce(log: seq<Event>, e: Event)
    requires OncePerName(log + [e])
    ensures OncePerName(log)
    ensures forall j :: EventsOf(log + [e], j) == EventsOf(log, j) + if e.job == j then [e] else []
    ensures if e.Started? then EventsOf(log, e.job) == [] else EventsOf(log, e.job) == [Started(e.job)]
  {
    forall j ensures EventsOf(log + [e], j) == EventsOf(log, j) + if e.job == j then [e] else [] {
      EventsOfAppend(log, [e], j);
    }
    forall j ensures StartThenFinish(EventsOf(log, j), j) {
      assert StartThenFinish(EventsOf(log + [e], j), j);
      if j == e.job {
        OneLess(EventsOf(log, j), e);
      }
    }
    assert StartThenFinish(EventsOf(log + [e], e.job), e.job);
    OneLess(EventsOf(log, e.job), e);
  }

  lemma OneLess(events: seq<Event>, e: Event)
    requires StartThenFinish(events + [e], e.job)
    ensures StartThenFinish(events, e.job)
    ensures events == if e.Started? then [] else [Started(e.job)]
  {
    var all := events + [e];
    assert all[|all| - 1] == e && events == all[..|all| - 1];
  }

  /** The shape names the started jobs and keeps open those that have not finished. */
  ghost predicate Describes(sh: FA.Shape, log: seq<Event>, stageOf: string -> string) {
    && (forall j :: j in sh.names <==> EventsOf(log, j) != [])
    && (forall j :: j in sh.open <==> EventsOf(log, j) == [Started(j)])
    && (forall j :: j in sh.open ==> sh.open[j] == stageOf(j))
  }

  lemma {:induction false} StreamHasShape(es: seq<EV.Event>, stageOf: string -> string)
    requires IsStream(es, stageOf) && OncePerName(JobLog(es))
    ensures FA.ShapeOf(es).Some?
    ensures (FA.ShapeOf(es).value.started <==> Begun(es)) && (FA.ShapeOf(es).value.finished <==> Over(es))
    ensures Describes(FA.ShapeOf(es).value, JobLog(es), stageOf)
  {
    if es != [] {
      var front, e := es[..|es| - 1], Last(es);
      if IsJobKind(e) {
        PrefixOnce(JobLog(front), Last(JobLog(es)));
      }
      StreamHasShape(front, stageOf);
      var sh := FA.ShapeOf(front).value;
      if e.kind == EV.JobStarted {
        StartDescribes(sh, JobLog(front), e, stageOf);
      } else if e.kind == EV.JobFinished {
        FinishDescribes(sh, JobLog(front), e, stageOf);
      }
    }
  }

  lemma StartDescribes(sh: FA.Shape, log: seq<Event>, e: EV.Event, stageOf: string -> string)
    requires Describes(sh, log, stageOf) && sh.started && !sh.finished && e.kind == EV.JobStarted
             && e.stage == stageOf(e.job)
    requires OncePerName(log + [Started(e.job)])
    ensures FA.NextShape(sh, e).Some? && Describes(FA.NextShape(sh, e).value, log + [Started(e.job)], stageOf)
  {
    PrefixOnce(log, Started(e.job));
  }

  lemma FinishDescribes(sh: FA.Shape, log: seq<Event>, e: EV.Event, stageOf: string -> string)
    requires Describes(sh, log, stageOf) && !sh.finished && e.kind == EV.JobFinished && e.stage == stageOf(e.job)
    requires OncePerName(log + [Finished(e.job, e.err == "")])
    ensures FA.NextShape(sh, e).Some?
    ensures Describes(FA.NextShape(sh, e).value, log + [Finished(e.job, e.err == "")], stageOf)
  {
    PrefixOnce(log, Finished(e.job, e.err == ""));
  }

  /** Row by row and for the run as a whole, the stored rows and the live state tell the same. */
  ghost predicate SameStory(es: seq<EV.Event>) {
    FA.RowsAgree(FA.Rows(es).rows, FA.View(es).jobs) && FA.RunAgrees(FA.Rows(es), FA.View(es))
  }

  lemma OnceAgrees(es: seq<EV.Event>, stageOf: string -> string)
    requires IsStream(es, stageOf) && OncePerName(JobLog(es))
    ensures SameStory(es)
  {
    StreamHasShape(es, stageOf);
    FA.FoldsAgree(es);
  }

  // ---- Runs with needs -------------------------------------------------------------------

  lemma {:induction false} OnlyItsJobs(inst: Instance, steps: seq<Step>, j: string)
    requires Run(inst, steps).Some? && j !in inst.deps
    ensures EventsOf(Run(inst, steps).value.log, j) == []
  {
    if steps != [] {
      var front, step := steps[..|steps| - 1], Last(steps);
      OnlyItsJobs(inst, front, j);
      if step.Act? {
        EventsOfAppend(Run(inst, front).value.log, Emits(step.job, step.action), j);
      }
    }
  }

  lemma RunsEmitOnce(inst: Instance, steps: seq<Step>)
    requires WellFormed(inst) && Run(inst, steps).Some?
    ensures OncePerName(Run(inst, steps).value.log)
  {
    forall j ensures StartThenFinish(EventsOf(Run(inst, steps).value.log, j), j) {
      if j in inst.deps {
        EventOrder(inst, steps, j);
      } else {
        OnlyItsJobs(inst, steps, j);
      }
    }
  }

  /** At every moment of every run of the needs scheduler, the rows stored so far and the live state agree. */
  lemma DagFoldsAgree(inst: Instance, steps: seq<Step>, es: seq<EV.Event>, stageOf: string -> string)
    requires WellFormed(inst) && Run(inst, steps).Some?
    requires IsStream(es, stageOf) && JobLog(es) == Run(inst, steps).value.log
    ensures SameStory(es)
  {
    RunsEmitOnce(inst, steps);
    OnceAgrees(es, stageOf);
  }

  // ---- Runs without needs -----------------------------------------------------------------

  ghost function NameOf(plan: SG.Plan, id: ST.Id): string {
    match id
    case InSegment(k, i) => if ST.Has(plan, id) then plan.segments[k].jobs[i].name else ""
    case Detached(i) => if ST.Has(plan, id) then plan.detached[i].name else ""
  }

  ghost predicate DistinctNames(plan: SG.Plan) {
    forall a, b :: ST.Has(plan, a) && ST.Has(plan, b) && NameOf(plan, a) == NameOf(plan, b) ==> a == b
  }

  ghost predicate Known(plan: SG.Plan, e: ST.Event) {
    e.Started? || e.Finished? ==> ST.Has(plan, e.id)
  }

  /** The job events of a staged run, by name. */
  ghost function Named(plan: SG.Plan, log: seq<ST.Event>): seq<Event> {
    if log == [] then []
    else
      var before := Named(plan, log[..|log| - 1]);
      match Last(log)
      case Started(id) => before + [Started(NameOf(plan, id))]
      case Finished(id, ok) => before + [Finished(NameOf(plan, id), ok)]
      case _ => before
  }

  lemma {:induction false} OnlyPlanned(plan: SG.Plan, steps: seq<ST.Step>)
    requires ST.Run(plan, steps).Some?
    ensures forall e :: e in ST.Run(plan, steps).value.log ==> Known(plan, e)
  {
    if steps != [] {
      OnlyPlanned(plan, steps[..|steps| - 1]);
    }
  }

  /** The events of a place, under its name. */
  ghost function Renamed(name: string, events: seq<ST.Event>): seq<Event> {
    if events == [] then []
    else
      var before := Renamed(name, events[..|events| - 1]);
      match Last(events)
      case Started(_) => before + [Started(name)]
      case Finished(_, ok) => before + [Finished(name, ok)]
      case _ => before
  }

  lemma {:induction false} NamedEvents(plan: SG.Plan, log: seq<ST.Event>, id: ST.Id)
    requires DistinctNames(plan) && ST.Has(plan, id) && forall e :: e in log ==> Known(plan, e)
    ensures EventsOf(Named(plan, log), NameOf(plan, id)) == Renamed(NameOf(plan, id), ST.EventsOf(log, id))
  {
    if log != [] {
      var front, e := log[..|log| - 1], Last(log);
      NamedEvents(plan, front, id);
      assert log == front + [e] && Known(plan, e);
      ST.EventsOfAppend(front, [e], id);
      if e.Started? || e.Finished? {
        NamedEvent(plan, front, e, id);
      } else {
        assert ST.EventsOf(log, id) == ST.EventsOf(front, id) && Named(plan, log) == Named(plan, front);
      }
    }
  }

  lemma NamedEvent(plan: SG.Plan, front: seq<ST.Event>, e: ST.Event, id: ST.Id)
    requires DistinctNames(plan) && ST.Has(plan, id) && Known(plan, e)
    requires e.Started? || e.Finished?
    requires EventsOf(Named(plan, front), NameOf(plan, id)) == Renamed(NameOf(plan, id), ST.EventsOf(front, id))
    ensures EventsOf(Named(plan, front + [e]), NameOf(plan, id)) ==
            Renamed(NameOf(plan, id), ST.EventsOf(front + [e], id))
  {
    var log, name := front + [e], NameOf(plan, id);
    assert log[..|log| - 1] == front;
    var last := if e.Started? then Started(NameOf(plan, e.id)) else Finished(NameOf(plan, e.id), e.ok);
    assert Named(plan, log) == Named(plan, front) + [last];
    EventsOfAppend(Named(plan, front), [last], name);
    ST.EventsOfAppend(front, [e], id);
    var events := ST.EventsOf(front, id);
    assert (events + [e])[..|events|] == events;
    assert NameOf(plan, e.id) == name <==> e.id == id;
    assert ST.EventsOf(log, id) == events + if e.id == id then [e] else [];
    assert events + [] == events;
  }

  lemma {:induction false} NobodyNamed(plan: SG.Plan, log: seq<ST.Event>, j: string)
    requires forall e :: e in log ==> Known(plan, e)
    requires forall id :: ST.Has(plan, id) ==> NameOf(plan, id) != j
    ensures EventsOf(Named(plan, log), j) == []
  {
    if log != [] {
      var front, e := log[..|log| - 1], Last(log);
      NobodyNamed(plan, front, j);
      assert Known(plan, e);
      var named := Named(plan, front);
      assert forall x :: (named + [x])[..|named|] == named;
    }
  }

  lemma StagedEmitOnce(plan: SG.Plan, steps: seq<ST.Step>)
    requires DistinctNames(plan) && ST.Run(plan, steps).Some?
    ensures OncePerName(Named(plan, ST.Run(plan, steps).value.log))
  {
    var s := ST.Run(plan, steps).value;
    OnlyPlanned(plan, steps);
    forall j ensures StartThenFinish(EventsOf(Named(plan, s.log), j), j) {
      if id :| ST.Has(plan, id) && NameOf(plan, id) == j {
        NamedEvents(plan, s.log, id);
        ST.OncePerJob(plan, steps, id);
        RenamedOnce(j, id, s.Of(id));
      } else {
        NobodyNamed(plan, s.log, j);
      }
    }
  }

  lemma RenamedOnce(j: string, id: ST.Id, p: ST.Phase)
    ensures StartThenFinish(Renamed(j, ST.Emitted(id, p)), j)
  {
    var events := ST.Emitted(id, p);
    if |events| == 2 {
      assert events[..1] == [ST.Started(id)] && events[..1][..0] == [];
      assert Renamed(j, events[..1]) == [Started(j)];
    } else if |events| == 1 {
      assert events[..0] == [];
    }
  }

  /** The same in sequential, stage-parallel and parallel mode, when the jobs of the plan have distinct names. */
  lemma StagedFoldsAgree(plan: SG.Plan, steps: seq<ST.Step>, es: seq<EV.Event>, stageOf: string -> string)
    requires DistinctNames(plan) && ST.Run(plan, steps).Some? && IsStream(es, stageOf)
    requires JobLog(es) == Named(plan, ST.Run(plan, steps).value.log)
    ensures SameStory(es)
  {
    StagedEmitOnce(plan, steps);
    OnceAgrees(es, stageOf);
  }
}
