/** A run without needs (internal/engine/runner.go) as a step relation: the chain of segments on the
    calling goroutine, one goroutine per started job, detached jobs from launch. */
module StagedRun {
  import opened Basics
  import opened Listing
  import opened Segments

  /** A job's place in the plan; names need not be distinct. */
  datatype Id = InSegment(segment: nat, index: nat) | Detached(index: nat)

  ghost predicate Has(plan: Plan, id: Id) {
    match id
    case InSegment(k, i) => k < |plan.segments| && i < |plan.segments[k].jobs|
    case Detached(i) => i < |plan.detached|
  }

  datatype Phase =
    | Idle
    | Running             // JobStarted emitted
    | Reported(ok: bool)  // JobFinished emitted, error slot not yet final
    | Joined(ok: bool)    // error slot written, wait group released

  datatype Main =
    | Opening                      // about to start segment `at`, or past the last one
    | Inside                       // waiting for the jobs of segment `at`
    | Draining(errs: seq<Id>)      // chain over with these errors, waiting for detached jobs
    | Returned(errs: seq<Id>)

  datatype Event = Started(id: Id) | Finished(id: Id, ok: bool) | Opened(segment: nat) | Shut(segment: nat)

  datatype State = State(at: nat, main: Main, phases: map<Id, Phase>, log: seq<Event>) {
    function Of(id: Id): Phase {
      if id in phases then phases[id] else Idle
    }
  }

  const Init := State(0, Opening, map[], [])

  // ---- Error slots -------------------------------------------------------------

  /** The places of segment k, and those of the detached jobs. */
  function SegmentIds(plan: Plan, k: nat): seq<Id>
    requires k < |plan.segments|
  {
    seq(|plan.segments[k].jobs|, i requires 0 <= i => InSegment(k, i))
  }

  function DetachedIds(plan: Plan): seq<Id> {
    seq(|plan.detached|, i requires 0 <= i => Detached(i))
  }

  /** The joined error: the failed places in order, none meaning nil. */
  function Failures(s: State, ids: seq<Id>): seq<Id> {
    if ids == [] then []
    else Failures(s, ids[..|ids| - 1]) + if s.Of(Last(ids)) == Joined(false) then [Last(ids)] else []
  }

  /** The failed places, in order. */
  lemma {:induction false} FailuresSelect(s: State, ids: seq<Id>)
    ensures Selects(ids, Failures(s, ids), (id: Id) => s.Of(id) == Joined(false))
  {
    var keep := (id: Id) => s.Of(id) == Joined(false);
    if ids == [] {
      SelectsNone(keep);
    } else {
      var front := ids[..|ids| - 1];
      FailuresSelect(s, front);
      SelectsSnoc(front, Failures(s, front), Last(ids), keep);
      FrontLast(ids);
    }
  }

  ghost predicate AllJoined(s: State, ids: seq<Id>) {
    forall i :: 0 <= i < |ids| ==> s.Of(ids[i]).Joined?
  }

  ghost predicate AllPassed(s: State, ids: seq<Id>) {
    forall i :: 0 <= i < |ids| ==> s.Of(ids[i]) == Joined(true)
  }

  // ---- Steps -------------------------------------------------------------------

  datatype Step = Start(id: Id) | Finish(id: Id, ok: bool) | Join(id: Id) | Open | Leave | Drain | Return

  /** Goroutines of a segment exist once it is open, detached ones from launch. */
  ghost predicate Launched(s: State, id: Id) {
    id.InSegment? ==> s.main.Inside? && id.segment == s.at
  }

  ghost predicate Enabled(plan: Plan, s: State, step: Step) {
    match step
    case Start(id) => Has(plan, id) && Launched(s, id) && s.Of(id).Idle?
    case Finish(id, _) => Has(plan, id) && s.Of(id).Running?
    case Join(id) => Has(plan, id) && s.Of(id).Reported?
    case Open => s.main.Opening? && s.at < |plan.segments|
    case Leave => s.main.Inside? && s.at < |plan.segments| && AllJoined(s, SegmentIds(plan, s.at))
    case Drain => s.main.Opening? && s.at >= |plan.segments|
    case Return => s.main.Draining? && AllJoined(s, DetachedIds(plan))
  }

  function GroupEvent(plan: Plan, k: nat, e: Event): seq<Event>
    requires k < |plan.segments|
  {
    if plan.segments[k].grouped then [e] else []
  }

  ghost function Emits(plan: Plan, s: State, step: Step): seq<Event>
    requires Enabled(plan, s, step)
  {
    match step
    case Start(id) => [Started(id)]
    case Finish(id, ok) => [Finished(id, ok)]
    case Open => GroupEvent(plan, s.at, Opened(s.at))
    case Leave => GroupEvent(plan, s.at, Shut(s.at))
    case _ => []
  }

  ghost function Apply(plan: Plan, s: State, step: Step): State
    requires Enabled(plan, s, step)
  {
    var s1 := s.(log := s.log + Emits(plan, s, step));
    match step
    case Start(id) => s1.(phases := s.phases[id := Running])
    case Finish(id, ok) => s1.(phases := s.phases[id := Reported(ok)])
    case Join(id) => s1.(phases := s.phases[id := Joined(s.Of(id).ok)])
    case Open => s1.(main := Inside)
    case Leave =>
      var errs := Failures(s, SegmentIds(plan, s.at));
      if errs == [] then s1.(main := Opening, at := s.at + 1) else s1.(main := Draining(errs))
    case Drain => s1.(main := Draining([]))
    case Return => s1.(main := Returned(s.main.errs + Failures(s, DetachedIds(plan))))
  }

  ghost function Run(plan: Plan, steps: seq<Step>): Option<State> {
    if steps == [] then Some(Init)
    else
      var before := Run(plan, steps[..|steps| - 1]);
      if before.Some? && Enabled(plan, before.value, Last(steps)) then Some(Apply(plan, before.value, Last(steps)))
      else None
  }

  // ---- What every step keeps -----------------------------------------------------

  ghost predicate About(e: Event, id: Id) {
    (e.Started? || e.Finished?) && e.id == id
  }

  ghost function EventsOf(log: seq<Event>, id: Id): seq<Event> {
    if log == [] then [] else EventsOf(log[..|log| - 1], id) + if About(Last(log), id) then [Last(log)] else []
  }

  ghost function Emitted(id: Id, p: Phase): seq<Event> {
    match p
    case Idle => []
    case Running => [Started(id)]
    case Reported(ok) => [Started(id), Finished(id, ok)]
    case Joined(ok) => [Started(id), Finished(id, ok)]
  }

  /** A chain job has passed before its segment's turn is over, and has not begun before its turn. */
  ghost predicate InTurn(s: State, id: Id, p: Phase) {
    id.InSegment? ==>
      && (id.segment < s.at ==> p == Joined(true))
      && (id.segment > s.at ==> p.Idle?)
      && (id.segment == s.at && s.main.Opening? ==> p.Idle?)
      && (id.segment == s.at && (s.main.Draining? || s.main.Returned?) ==> p.Joined?)
  }

  ghost predicate JobInv(s: State, id: Id) {
    && InTurn(s, id, s.Of(id))
    && EventsOf(s.log, id) == Emitted(id, s.Of(id))
  }

  /** The errors of the segment the chain stopped in, if it stopped. */
  ghost function ChainErrors(plan: Plan, s: State): seq<Id> {
    if s.at < |plan.segments| then Failures(s, SegmentIds(plan, s.at)) else []
  }

  ghost predicate MainInv(plan: Plan, s: State) {
    && s.at <= |plan.segments|
    && match s.main
       case Opening => true
       case Inside => s.at < |plan.segments|
       case Draining(errs) => errs == ChainErrors(plan, s) && (s.at < |plan.segments| ==> errs != [])
       case Returned(errs) =>
         && errs == ChainErrors(plan, s) + Failures(s, DetachedIds(plan))
         && (s.at < |plan.segments| ==> ChainErrors(plan, s) != [])
         && AllJoined(s, DetachedIds(plan))
  }

  /** The segment an event belongs to; None for detached jobs. */
  function SegmentOf(e: Event): Option<nat> {
    match e
    case Opened(k) => Some(k)
    case Shut(k) => Some(k)
    case _ => if e.id.InSegment? then Some(e.id.segment) else None
  }

  ghost predicate PassedBefore(plan: Plan, before: seq<Event>, k: nat) {
    forall id :: Has(plan, id) && id.InSegment? && id.segment < k ==> Finished(id, true) in before
  }

  /** When an event may be emitted: a segment opens, and its jobs start, only after every earlier job
      passed; group events bracket the jobs of their segment. */
  ghost predicate Allowed(plan: Plan, before: seq<Event>, e: Event) {
    match e
    case Opened(k) => PassedBefore(plan, before, k) && e !in before
    case Shut(k) =>
      && Opened(k) in before && e !in before
      && forall id :: Has(plan, id) && id.InSegment? && id.segment == k ==>
           Finished(id, true) in before || Finished(id, false) in before
    case Started(id) =>
      id.InSegment? ==>
        && PassedBefore(plan, before, id.segment)
        && (Has(plan, id) && plan.segments[id.segment].grouped ==>
              Opened(id.segment) in before && Shut(id.segment) !in before)
    case Finished(id, _) => true
  }

  /** Each event came when it was allowed, and segment after segment, up to `at`. */
  ghost predicate LogOrdered(plan: Plan, log: seq<Event>, at: nat) {
    && (forall p :: 0 <= p < |log| ==> Allowed(plan, log[..p], log[p]))
    && (forall p :: 0 <= p < |log| && SegmentOf(log[p]).Some? ==> SegmentOf(log[p]).value <= at)
    && (forall p, q :: 0 <= p < q < |log| && SegmentOf(log[p]).Some? && SegmentOf(log[q]).Some? ==>
          SegmentOf(log[p]).value <= SegmentOf(log[q]).value)
  }

  ghost predicate LogInv(plan: Plan, s: State) {
    && LogOrdered(plan, s.log, s.at)
    && (s.main.Opening? ==> Opened(s.at) !in s.log && Shut(s.at) !in s.log)
    && (s.main.Inside? ==>
          && Shut(s.at) !in s.log
          && (s.at < |plan.segments| && plan.segments[s.at].grouped ==> Opened(s.at) in s.log))
  }

  ghost predicate Inv(plan: Plan, s: State) {
    && (forall id :: Has(plan, id) ==> JobInv(s, id))
    && MainInv(plan, s)
    && LogInv(plan, s)
  }

  lemma EventsOfAppend(log: seq<Event>, more: seq<Event>, id: Id)
    requires |more| <= 1
    ensures EventsOf(log + more, id) == EventsOf(log, id) + if |more| == 1 && About(more[0], id) then more else []
  {
    if more == [] {
      assert log + more == log;
    } else {
      assert (log + more)[..|log|] == log && more == [more[0]];
    }
  }

  lemma {:induction false} EventIsLogged(log: seq<Event>, id: Id, e: Event)
    requires e in EventsOf(log, id)
    ensures e in log
  {
    var front := log[..|log| - 1];
    if e in EventsOf(front, id) {
      EventIsLogged(front, id, e);
    }
  }

  /** A joined job has its result on the bus. */
  lemma JoinIsLogged(s: State, id: Id)
    requires JobInv(s, id) && s.Of(id).Joined?
    ensures Finished(id, s.Of(id).ok) in s.log
  {
    assert Emitted(id, s.Of(id))[1] == Finished(id, s.Of(id).ok);
    EventIsLogged(s.log, id, Finished(id, s.Of(id).ok));
  }

  lemma {:induction false} FailuresEmpty(s: State, ids: seq<Id>)
    requires AllJoined(s, ids)
    ensures Failures(s, ids) == [] <==> AllPassed(s, ids)
  {
    if ids != [] {
      var front := ids[..|ids| - 1];
      FailuresEmpty(s, front);
      assert s.Of(Last(ids)).Joined?;
      assert AllPassed(s, ids) <==> AllPassed(s, front) && s.Of(Last(ids)) == Joined(true) by {
        assert forall i :: 0 <= i < |front| ==> front[i] == ids[i];
      }
    }
  }

  /** Errors are read from joined slots only, which no step changes. */
  lemma {:induction false} FailuresStable(s: State, s': State, ids: seq<Id>)
    requires AllJoined(s, ids) && forall i :: 0 <= i < |ids| ==> s'.Of(ids[i]) == s.Of(ids[i])
    ensures Failures(s', ids) == Failures(s, ids)
  {
    if ids != [] {
      FailuresStable(s, s', ids[..|ids| - 1]);
    }
  }

  lemma StepKeepsEvents(plan: Plan, s: State, step: Step, id: Id)
    requires Enabled(plan, s, step) && EventsOf(s.log, id) == Emitted(id, s.Of(id))
    ensures EventsOf(s.log + Emits(plan, s, step), id) == Emitted(id, Apply(plan, s, step).Of(id))
  {
    EventsOfAppend(s.log, Emits(plan, s, step), id);
    var before, after, more := Emitted(id, s.Of(id)), Apply(plan, s, step).Of(id), Emits(plan, s, step);
    if Mover(step) == Some(id) {
      MoverEmits(plan, s, step, id);
      assert Emitted(id, after) == before + more;
    } else {
      OthersStay(plan, s, step, id);
      assert Emitted(id, after) == before;
    }
  }

  lemma OthersStay(plan: Plan, s: State, step: Step, id: Id)
    requires Enabled(plan, s, step) && Mover(step) != Some(id)
    ensures Apply(plan, s, step).Of(id) == s.Of(id)
    ensures forall e :: e in Emits(plan, s, step) ==> !About(e, id)
  {
  }

  /** The job a step moves; for a step of the chain, no job of the plan is meant. */
  ghost function Mover(step: Step): Option<Id> {
    match step
    case Start(id) => Some(id)
    case Finish(id, _) => Some(id)
    case Join(id) => Some(id)
    case _ => None
  }

  lemma MoverEmits(plan: Plan, s: State, step: Step, id: Id)
    requires Enabled(plan, s, step) && Mover(step) == Some(id)
    ensures Emitted(id, Apply(plan, s, step).Of(id)) == Emitted(id, s.Of(id)) + Emits(plan, s, step)
    ensures forall e :: e in Emits(plan, s, step) ==> About(e, id)
  {
    match step
    case Start(_) =>
    case Finish(_, _) =>
    case Join(_) =>
  }

  lemma StepKeepsTurn(plan: Plan, s: State, step: Step, id: Id)
    requires Enabled(plan, s, step) && Has(plan, id) && InTurn(s, id, s.Of(id))
    ensures InTurn(Apply(plan, s, step), id, Apply(plan, s, step).Of(id))
  {
    if step.Leave? && id.InSegment? && id.segment == s.at {
      var ids := SegmentIds(plan, s.at);
      FailuresEmpty(s, ids);
      assert ids[id.index] == id;
    }
  }

  lemma StepKeepsMain(plan: Plan, s: State, step: Step)
    requires Inv(plan, s) && Enabled(plan, s, step)
    ensures MainInv(plan, Apply(plan, s, step))
  {
    var s' := Apply(plan, s, step);
    if s.main.Draining? || s.main.Returned? || step.Leave? {
      if s.at < |plan.segments| {
        var ids := SegmentIds(plan, s.at);
        forall i | 0 <= i < |ids| ensures s.Of(ids[i]).Joined? {
          assert ids[i] == InSegment(s.at, i) && Has(plan, ids[i]);
          assert JobInv(s, ids[i]);
        }
        FailuresStable(s, s', ids);
      }
    }
    if s.main.Returned? || step.Return? {
      FailuresStable(s, s', DetachedIds(plan));
    }
  }

  /** Everything before the current segment has its success on the bus. */
  lemma EarlierPassed(plan: Plan, s: State, k: nat)
    requires Inv(plan, s) && k <= s.at
    ensures PassedBefore(plan, s.log, k)
  {
    forall id | Has(plan, id) && id.InSegment? && id.segment < k ensures Finished(id, true) in s.log {
      assert JobInv(s, id);
      JoinIsLogged(s, id);
    }
  }

  lemma EmitIsAllowed(plan: Plan, s: State, step: Step)
    requires Inv(plan, s) && Enabled(plan, s, step)
    ensures forall e :: e in Emits(plan, s, step) ==> Allowed(plan, s.log, e)
  {
    EarlierPassed(plan, s, s.at);
    if step.Leave? {
      forall id | Has(plan, id) && id.InSegment? && id.segment == s.at
        ensures Finished(id, true) in s.log || Finished(id, false) in s.log {
        assert JobInv(s, id);
        assert SegmentIds(plan, s.at)[id.index] == id;
        JoinIsLogged(s, id);
      }
    }
  }

  /** Chain events always belong to the segment whose turn it is. */
  lemma EmitIsCurrent(plan: Plan, s: State, step: Step)
    requires Inv(plan, s) && Enabled(plan, s, step)
    ensures forall e :: e in Emits(plan, s, step) && SegmentOf(e).Some? ==> SegmentOf(e).value == s.at
  {
    if step.Finish? {
      assert JobInv(s, step.id);
    }
  }

  lemma LogGrows(plan: Plan, log: seq<Event>, more: seq<Event>, at: nat)
    requires LogOrdered(plan, log, at) && |more| <= 1
    requires forall e :: e in more ==> Allowed(plan, log, e) && (SegmentOf(e).Some? ==> SegmentOf(e).value == at)
    ensures LogOrdered(plan, log + more, at) && LogOrdered(plan, log + more, at + 1)
  {
    var longer := log + more;
    forall p | 0 <= p < |longer| ensures Allowed(plan, longer[..p], longer[p]) {
      if p < |log| {
        assert longer[..p] == log[..p];
      } else {
        assert longer[..p] == log && longer[p] in more;
      }
    }
    forall p | 0 <= p < |longer| && SegmentOf(longer[p]).Some? ensures SegmentOf(longer[p]).value <= at {
      assert p >= |log| ==> longer[p] in more;
    }
    forall p, q | 0 <= p < q < |longer| && SegmentOf(longer[p]).Some? && SegmentOf(longer[q]).Some?
      ensures SegmentOf(longer[p]).value <= SegmentOf(longer[q]).value
    {
      assert q >= |log| ==> longer[q] in more;
    }
  }

  /** Nothing of a segment that is yet to come is on the bus. */
  lemma FutureIsSilent(plan: Plan, s: State, k: nat)
    requires LogInv(plan, s) && k > s.at
    ensures Opened(k) !in s.log && Shut(k) !in s.log
  {
    assert forall p :: 0 <= p < |s.log| && SegmentOf(s.log[p]).Some? ==> SegmentOf(s.log[p]).value != k;
  }

  lemma StepKeepsLog(plan: Plan, s: State, step: Step)
    requires Inv(plan, s) && Enabled(plan, s, step)
    ensures LogInv(plan, Apply(plan, s, step))
  {
    EmitIsAllowed(plan, s, step);
    EmitIsCurrent(plan, s, step);
    LogGrows(plan, s.log, Emits(plan, s, step), s.at);
    FutureIsSilent(plan, s, s.at + 1);
  }

  lemma StepKeepsInv(plan: Plan, s: State, step: Step)
    requires Inv(plan, s) && Enabled(plan, s, step)
    ensures Inv(plan, Apply(plan, s, step))
  {
    StepKeepsLog(plan, s, step);
    StepKeepsMain(plan, s, step);
    forall id | Has(plan, id) ensures JobInv(Apply(plan, s, step), id) {
      assert JobInv(s, id);
      StepKeepsEvents(plan, s, step, id);
      StepKeepsTurn(plan, s, step, id);
    }
  }

  lemma {:induction false} ReachableInv(plan: Plan, steps: seq<Step>)
    requires Run(plan, steps).Some?
    ensures Inv(plan, Run(plan, steps).value)
  {
    if steps != [] {
      var front := steps[..|steps| - 1];
      ReachableInv(plan, front);
      StepKeepsInv(plan, Run(plan, front).value, Last(steps));
    }
  }

  // ---- Order, at every moment of every run -----------------------------------------

  /** Segments take their turns strictly in order, each only after every earlier job passed, group
      events bracket their jobs, and every job starts at most once and finishes at most once after. */
  lemma SegmentsInOrder(plan: Plan, steps: seq<Step>)
    requires Run(plan, steps).Some?
    ensures var log := Run(plan, steps).value.log;
            && (forall q :: 0 <= q < |log| ==> Allowed(plan, log[..q], log[q]))
            && (forall p, q :: 0 <= p < q < |log| && SegmentOf(log[p]).Some? && SegmentOf(log[q]).Some? ==>
                  SegmentOf(log[p]).value <= SegmentOf(log[q]).value)
  {
    ReachableInv(plan, steps);
  }

  lemma OncePerJob(plan: Plan, steps: seq<Step>, id: Id)
    requires Run(plan, steps).Some? && Has(plan, id)
    ensures EventsOf(Run(plan, steps).value.log, id) == Emitted(id, Run(plan, steps).value.Of(id))
  {
    ReachableInv(plan, steps);
    assert JobInv(Run(plan, steps).value, id);
  }

  // ---- Outcome ------------------------------------------------------------------------

  ghost predicate Ran(s: State, id: Id, ok: bool) {
    EventsOf(s.log, id) == [Started(id), Finished(id, ok)]
  }

  ghost predicate NeverStarted(s: State, id: Id) {
    EventsOf(s.log, id) == []
  }

  /** After a run returned: jobs of segments before the stop passed, those of the segment it stopped in
      all ran and one failed, later ones never started, and every detached job ran. */
  lemma ReturnedOutcome(plan: Plan, steps: seq<Step>)
    requires Run(plan, steps).Some? && Run(plan, steps).value.main.Returned?
    ensures var s := Run(plan, steps).value;
            && s.at <= |plan.segments|
            && (forall id :: Has(plan, id) && id.InSegment? && id.segment < s.at ==> Ran(s, id, true))
            && (forall id :: Has(plan, id) && id.InSegment? && id.segment == s.at ==>
                  Ran(s, id, true) || Ran(s, id, false))
            && (s.at < |plan.segments| ==>
                  exists id :: Has(plan, id) && id.InSegment? && id.segment == s.at && Ran(s, id, false))
            && (forall id :: Has(plan, id) && id.InSegment? && id.segment > s.at ==> NeverStarted(s, id))
            && (forall id :: Has(plan, id) && id.Detached? ==> Ran(s, id, true) || Ran(s, id, false))
  {
    ReachableInv(plan, steps);
    var s := Run(plan, steps).value;
    forall id | Has(plan, id) && id.Detached? ensures s.Of(id).Joined? {
      assert DetachedIds(plan)[id.index] == id;
    }
    forall id | Has(plan, id) ensures EventsOf(s.log, id) == Emitted(id, s.Of(id)) && InTurn(s, id, s.Of(id)) {
      assert JobInv(s, id);
    }
    if s.at < |plan.segments| {
      var id := StoppedByFailure(plan, s);
    }
  }

  lemma StoppedByFailure(plan: Plan, s: State) returns (id: Id)
    requires Inv(plan, s) && s.main.Returned? && s.at < |plan.segments|
    ensures Has(plan, id) && id.InSegment? && id.segment == s.at && Ran(s, id, false)
  {
    var ids := SegmentIds(plan, s.at);
    forall i | 0 <= i < |ids| ensures s.Of(ids[i]).Joined? {
      assert Has(plan, ids[i]) && JobInv(s, ids[i]);
    }
    FailuresEmpty(s, ids);
    var i :| 0 <= i < |ids| && s.Of(ids[i]) != Joined(true);
    id := ids[i];
    assert JobInv(s, id);
  }

  /** The run returns nil exactly when every job of the plan ran and passed. */
  lemma NilMeansAllPassed(plan: Plan, steps: seq<Step>)
    requires Run(plan, steps).Some? && Run(plan, steps).value.main.Returned?
    ensures var s := Run(plan, steps).value;
            s.main.errs == [] <==> forall id :: Has(plan, id) ==> Ran(s, id, true)
  {
    ReachableInv(plan, steps);
    ReturnedOutcome(plan, steps);
    var s := Run(plan, steps).value;
    FailuresEmpty(s, DetachedIds(plan));
    DetachedPassed(plan, s);
  }

  lemma DetachedPassed(plan: Plan, s: State)
    requires Inv(plan, s) && AllJoined(s, DetachedIds(plan))
    ensures AllPassed(s, DetachedIds(plan)) <==> forall id :: Has(plan, id) && id.Detached? ==> Ran(s, id, true)
  {
    var ids := DetachedIds(plan);
    forall i | 0 <= i < |ids|
      ensures ids[i] == Detached(i) && (s.Of(ids[i]) == Joined(true) <==> Ran(s, ids[i], true))
    {
      assert Has(plan, ids[i]) && JobInv(s, ids[i]);
    }
    forall id | Has(plan, id) && id.Detached? ensures id == ids[id.index] {
    }
  }

  // ---- Every schedule ends alike -----------------------------------------------------

  /** Every result in the log is the one the job has by itself. */
  ghost predicate Faithful(log: seq<Event>, passes: Id -> bool) {
    forall p :: 0 <= p < |log| && log[p].Finished? ==> log[p].ok == passes(log[p].id)
  }

  ghost predicate SegmentPasses(plan: Plan, passes: Id -> bool, k: nat) {
    forall id :: Has(plan, id) && id.InSegment? && id.segment == k ==> passes(id)
  }

  /** The first segment with a failing job, or the number of segments. */
  ghost predicate StopsAt(plan: Plan, passes: Id -> bool, k: nat) {
    && k <= |plan.segments|
    && (forall l :: 0 <= l < k ==> SegmentPasses(plan, passes, l))
    && (k < |plan.segments| ==> !SegmentPasses(plan, passes, k))
  }

  /** The schedule-free events of a job. */
  ghost function EventsDue(passes: Id -> bool, stop: nat, id: Id): seq<Event> {
    if id.InSegment? && id.segment > stop then [] else [Started(id), Finished(id, passes(id))]
  }

  lemma RanFaithfully(s: State, id: Id, ok: bool, passes: Id -> bool)
    requires Faithful(s.log, passes) && Ran(s, id, ok)
    ensures ok == passes(id)
  {
    assert EventsOf(s.log, id)[1] == Finished(id, ok);
    EventIsLogged(s.log, id, Finished(id, ok));
    var p :| 0 <= p < |s.log| && s.log[p] == Finished(id, ok);
  }

  /** The joined error of jobs that all ran. */
  function Failing(passes: Id -> bool, ids: seq<Id>): seq<Id> {
    if ids == [] then []
    else Failing(passes, ids[..|ids| - 1]) + if passes(Last(ids)) then [] else [Last(ids)]
  }

  lemma {:induction false} FailuresAreFailing(s: State, passes: Id -> bool, ids: seq<Id>)
    requires forall i :: 0 <= i < |ids| ==> s.Of(ids[i]) == Joined(passes(ids[i]))
    ensures Failures(s, ids) == Failing(passes, ids)
  {
    if ids != [] {
      FailuresAreFailing(s, passes, ids[..|ids| - 1]);
    }
  }

  lemma JoinedFaithfully(plan: Plan, s: State, passes: Id -> bool, ids: seq<Id>)
    requires Inv(plan, s) && Faithful(s.log, passes)
    requires forall i :: 0 <= i < |ids| ==> Has(plan, ids[i]) && s.Of(ids[i]).Joined?
    ensures Failures(s, ids) == Failing(passes, ids)
  {
    forall i | 0 <= i < |ids| ensures s.Of(ids[i]) == Joined(passes(ids[i])) {
      assert JobInv(s, ids[i]);
      RanFaithfully(s, ids[i], s.Of(ids[i]).ok, passes);
    }
    FailuresAreFailing(s, passes, ids);
  }

  lemma ErrorsDetermined(plan: Plan, s: State, passes: Id -> bool)
    requires Inv(plan, s) && s.main.Returned? && Faithful(s.log, passes)
    ensures s.main.errs == ErrorsDue(plan, passes, s.at)
  {
    JoinedFaithfully(plan, s, passes, DetachedIds(plan));
    if s.at < |plan.segments| {
      var ids := SegmentIds(plan, s.at);
      forall i | 0 <= i < |ids| ensures s.Of(ids[i]).Joined? {
        assert Has(plan, ids[i]) && JobInv(s, ids[i]);
      }
      JoinedFaithfully(plan, s, passes, ids);
    }
  }

  ghost function ErrorsDue(plan: Plan, passes: Id -> bool, stop: nat): seq<Id> {
    (if stop < |plan.segments| then Failing(passes, SegmentIds(plan, stop)) else []) +
    Failing(passes, DetachedIds(plan))
  }

  /** Which jobs run, their events and the returned errors depend only on the jobs themselves. */
  lemma ScheduleIndependent(plan: Plan, steps: seq<Step>, passes: Id -> bool, stop: nat)
    requires Run(plan, steps).Some? && Run(plan, steps).value.main.Returned?
    requires Faithful(Run(plan, steps).value.log, passes) && StopsAt(plan, passes, stop)
    ensures Run(plan, steps).value.at == stop
    ensures Run(plan, steps).value.main.errs == ErrorsDue(plan, passes, stop)
    ensures forall id :: Has(plan, id) ==> EventsOf(Run(plan, steps).value.log, id) == EventsDue(passes, stop, id)
  {
    ReturnedOutcome(plan, steps);
    var s := Run(plan, steps).value;
    forall id, ok | Has(plan, id) && Ran(s, id, ok) ensures ok == passes(id) {
      RanFaithfully(s, id, ok, passes);
    }
    assert forall l :: 0 <= l < s.at ==> SegmentPasses(plan, passes, l);
    assert s.at < |plan.segments| ==> !SegmentPasses(plan, passes, s.at);
    ReachableInv(plan, steps);
    ErrorsDetermined(plan, s, passes);
  }

  // ---- Progress and termination ---------------------------------------------------------

  /** A job that is launched but not joined can move. */
  lemma JobProgress(plan: Plan, s: State, id: Id) returns (step: Step)
    requires Has(plan, id) && Launched(s, id) && !s.Of(id).Joined?
    ensures Enabled(plan, s, step)
  {
    step := match s.Of(id)
      case Idle => Start(id)
      case Running => Finish(id, true)
      case Reported(_) => Join(id)
      case _ => Open;
  }

  /** Until the run returns, some step is enabled. */
  lemma NoDeadlock(plan: Plan, steps: seq<Step>)
    requires Run(plan, steps).Some? && !Run(plan, steps).value.main.Returned?
    ensures exists step :: Enabled(plan, Run(plan, steps).value, step)
  {
    ReachableInv(plan, steps);
    var s := Run(plan, steps).value;
    match s.main
    case Opening => assert Enabled(plan, s, if s.at < |plan.segments| then Open else Drain);
    case Inside =>
      var ids := SegmentIds(plan, s.at);
      if !AllJoined(s, ids) {
        var i :| 0 <= i < |ids| && !s.Of(ids[i]).Joined?;
        var step := JobProgress(plan, s, ids[i]);
      } else {
        assert Enabled(plan, s, Leave);
      }
    case Draining(_) =>
      var ids := DetachedIds(plan);
      if !AllJoined(s, ids) {
        var i :| 0 <= i < |ids| && !s.Of(ids[i]).Joined?;
        var step := JobProgress(plan, s, ids[i]);
      } else {
        assert Enabled(plan, s, Return);
      }
    case Returned(_) =>
  }

  ghost function AllIds(plan: Plan, k: nat): seq<Id>
    requires k <= |plan.segments|
  {
    if k == 0 then DetachedIds(plan) else AllIds(plan, k - 1) + SegmentIds(plan, k - 1)
  }

  ghost function PhaseLeft(p: Phase): nat {
    match p case Idle => 3 case Running => 2 case Reported(_) => 1 case Joined(_) => 0
  }

  ghost function TotalLeft(s: State, ids: seq<Id>): nat {
    if ids == [] then 0 else TotalLeft(s, ids[..|ids| - 1]) + PhaseLeft(s.Of(Last(ids)))
  }

  ghost function MainLeft(plan: Plan, s: State): int {
    match s.main
    case Opening => 2 * (|plan.segments| - s.at) + 2
    case Inside => 2 * (|plan.segments| - s.at) + 1
    case Draining(_) => 1
    case Returned(_) => 0
  }

  ghost function Measure(plan: Plan, s: State): int {
    TotalLeft(s, AllIds(plan, |plan.segments|)) + MainLeft(plan, s)
  }

  lemma {:induction false} AllIdsComplete(plan: Plan, k: nat, id: Id)
    requires k <= |plan.segments| && Has(plan, id) && (id.InSegment? ==> id.segment < k)
    ensures id in AllIds(plan, k)
  {
    if k == 0 {
      assert DetachedIds(plan)[id.index] == id;
    } else if id.InSegment? && id.segment == k - 1 {
      assert SegmentIds(plan, k - 1)[id.index] == id;
    } else {
      AllIdsComplete(plan, k - 1, id);
    }
  }

  lemma {:induction false} TotalDrops(s: State, s': State, ids: seq<Id>)
    requires forall id :: PhaseLeft(s'.Of(id)) <= PhaseLeft(s.Of(id))
    ensures TotalLeft(s', ids) <= TotalLeft(s, ids)
    ensures (exists id :: id in ids && PhaseLeft(s'.Of(id)) < PhaseLeft(s.Of(id))) ==>
                TotalLeft(s', ids) < TotalLeft(s, ids)
  {
    if ids != [] {
      TotalDrops(s, s', ids[..|ids| - 1]);
      assert ids == ids[..|ids| - 1] + [Last(ids)];
    }
  }

  /** Only the moved job's phase advances. */
  lemma PhasesAdvance(plan: Plan, s: State, step: Step, id: Id)
    requires Enabled(plan, s, step)
    ensures PhaseLeft(Apply(plan, s, step).Of(id)) <= PhaseLeft(s.Of(id))
    ensures Mover(step) == Some(id) ==> PhaseLeft(Apply(plan, s, step).Of(id)) < PhaseLeft(s.Of(id))
  {
  }

  lemma MainAdvances(plan: Plan, s: State, step: Step)
    requires MainInv(plan, s) && Enabled(plan, s, step)
    ensures if Mover(step).Some? then MainLeft(plan, Apply(plan, s, step)) == MainLeft(plan, s)
            else MainLeft(plan, Apply(plan, s, step)) < MainLeft(plan, s)
  {
  }

  lemma StepShrinks(plan: Plan, s: State, step: Step)
    requires Inv(plan, s) && Enabled(plan, s, step)
    ensures Measure(plan, Apply(plan, s, step)) < Measure(plan, s)
  {
    var s', mover, ids := Apply(plan, s, step), Mover(step), AllIds(plan, |plan.segments|);
    MainAdvances(plan, s, step);
    forall id ensures PhaseLeft(s'.Of(id)) <= PhaseLeft(s.Of(id)) {
      PhasesAdvance(plan, s, step, id);
    }
    TotalDrops(s, s', ids);
    if mover.Some? {
      AllIdsComplete(plan, |plan.segments|, mover.value);
      PhasesAdvance(plan, s, step, mover.value);
    }
  }

  lemma {:induction false} StepsSpendMeasure(plan: Plan, steps: seq<Step>)
    requires Run(plan, steps).Some?
    ensures |steps| + Measure(plan, Run(plan, steps).value) <= Measure(plan, Init)
  {
    if steps != [] {
      var front := steps[..|steps| - 1];
      StepsSpendMeasure(plan, front);
      ReachableInv(plan, front);
      StepShrinks(plan, Run(plan, front).value, Last(steps));
    }
  }

  lemma {:induction false} InitialTotal(ids: seq<Id>)
    ensures TotalLeft(Init, ids) == 3 * |ids|
  {
    if ids != [] {
      InitialTotal(ids[..|ids| - 1]);
    }
  }

  /** No run is longer than three steps a job, two a segment, and two more. */
  lemma RunsAreBounded(plan: Plan, steps: seq<Step>)
    requires Run(plan, steps).Some?
    ensures |steps| <= 3 * |AllIds(plan, |plan.segments|)| + 2 * |plan.segments| + 2
  {
    StepsSpendMeasure(plan, steps);
    ReachableInv(plan, steps);
    InitialTotal(AllIds(plan, |plan.segments|));
  }

  // ---- The attempts of one job -------------------------------------------------------------

  /** What one attempt did: whether it succeeded, and whether the run was cancelled by its end. */
  datatype Attempt = Attempt(ok: bool, cancelled: bool) {
    predicate Settles() { ok || cancelled }
  }

  /** Up to 1 + retry attempts; `script(n)` is what attempt n would do. Not even one for a negative retry. */
  method RunAttempts(retry: int, script: int -> Attempt) returns (ok: bool, made: nat)
    ensures made == 0 <==> retry < 0
    ensures made <= retry + 1 || made == 0
    ensures forall n :: 1 <= n < made ==> !script(n).Settles()
    ensures 0 < made <= retry ==> script(made).Settles()
    ensures ok <==> made == 0 || script(made).ok
  {
    var attempts := retry + 1;
    ok, made := true, 0;
    var attempt := 1;
    while attempt <= attempts
      invariant attempt == made + 1 && (made == 0 || made <= attempts)
      invariant forall n :: 1 <= n <= made ==> !script(n).Settles()
      invariant ok <==> made == 0
    {
      var outcome := script(attempt);
      ok, made := outcome.ok, attempt;
      if outcome.Settles() {
        break;
      }
      attempt := attempt + 1;
    }
  }
}
