/** What the clients of the event stream get: whole, in order, and across reconnects. */
module SseClients {
  import opened Basics
  import opened EngineEvents
  import opened Sse
  import opened SseViews

  // ---- What the clients get --------------------------------------------------

  /** In every interleaving, every session has delivered exactly the events after + 1, after + 2, ..., in order. */
  lemma DeliveryIsContiguous(steps: seq<Step>, id: nat)
    requires Run(steps).Some? && id in Run(steps).value.sessions
    ensures Contiguous(Run(steps).value.emitted, Run(steps).value.sessions[id])
  {
    ReachableInv(steps);
    SliceIsContiguous(ViewOf(Run(steps).value, id));
  }

  /** The session came to a natural end: the file was the whole stream, or its channel was closed without it lagging. */
  ghost predicate EndedWhole(s: System, id: nat) {
    id in s.sessions && (s.sessions[id].phase == Ended(FileEnded)
                         || (s.sessions[id].phase == Ended(StreamEnded) && id !in s.lagged))
  }

  /** Such a session ended only after the run, and delivered everything after its resume point. */
  lemma WholeSessionsComplete(steps: seq<Step>, id: nat)
    requires Run(steps).Some? && EndedWhole(Run(steps).value, id)
    ensures var s := Run(steps).value;
            && s.returned && (forall e :: !Enabled(s, Emit(e)))
            && s.sessions[id].out == Slice(s.emitted, s.sessions[id].after, |s.emitted|)
  {
    ReachableInv(steps);
    assert ViewInv(ViewOf(Run(steps).value, id));
  }

  // -- Which sessions are told that there is no such run --

  /** The events the recorder has seen. */
  ghost function Seen(s: System): seq<Event> {
    if s.emitter.ToRecord? && s.emitted != [] then s.emitted[..|s.emitted| - 1] else s.emitted
  }

  ghost predicate HasStart(es: seq<Event>) {
    exists k :: 0 <= k < |es| && es[k].kind == RunStarted
  }

  /** The store has the run exactly when its start was recorded; a session told otherwise came too late to see one. */
  ghost predicate KnownRun(s: System) {
    && (s.recorded <==> HasStart(Seen(s)))
    && forall id :: id in s.sessions ==> ToldRight(s, s.sessions[id])
  }

  ghost predicate ToldRight(s: System, se: Session) {
    match se.phase
    case Connecting => true
    case Found => true
    case Ended(NotFound) => s.returned && !s.recorded
    case Draining => se.live
    case Ended(StreamEnded) => se.live
    case _ => se.live || s.recorded
  }

  lemma StartSnoc(es: seq<Event>, e: Event)
    ensures HasStart(es + [e]) <==> HasStart(es) || e.kind == RunStarted
  {
    var longer := es + [e];
    if HasStart(es) {
      var k :| 0 <= k < |es| && es[k].kind == RunStarted;
      assert longer[k].kind == RunStarted;
    }
    if e.kind == RunStarted {
      assert longer[|es|].kind == RunStarted;
    }
  }

  lemma StepKeepsSeen(s: System, step: Step)
    requires Shared(s) && Enabled(s, step) && (s.recorded <==> HasStart(Seen(s)))
    ensures Apply(s, step).recorded <==> HasStart(Seen(Apply(s, step)))
    ensures s.recorded ==> Apply(s, step).recorded
    ensures s.returned ==> Apply(s, step).returned && Apply(s, step).recorded == s.recorded
  {
    var s' := Apply(s, step);
    if step.Emit? {
      assert s'.emitted[..|s'.emitted| - 1] == s.emitted;
    } else if step.Record? {
      assert s.emitted == Seen(s) + [Last(s.emitted)];
      StartSnoc(Seen(s), Last(s.emitted));
    }
  }

  lemma StepTellsRight(s: System, step: Step, id: nat)
    requires Shared(s) && KnownRun(s) && Enabled(s, step) && id in Apply(s, step).sessions
    ensures ToldRight(Apply(s, step), Apply(s, step).sessions[id])
  {
    StepKeepsSeen(s, step);
    if step.Act? && step == Act(id, step.move) {
      OwnMoveTellsRight(s, id, step.move);
    } else {
      assert ToldRight(s, s.sessions[id]);
    }
  }

  lemma OwnMoveTellsRight(s: System, id: nat, move: Move)
    requires Shared(s) && KnownRun(s) && Enabled(s, Act(id, move))
    ensures ToldRight(s, SessionAfter(s, id, move))
  {
    if !move.Connect? {
      assert ToldRight(s, s.sessions[id]);
    }
  }

  lemma {:induction false} ReachableKnownRun(steps: seq<Step>)
    requires Run(steps).Some?
    ensures KnownRun(Run(steps).value)
  {
    if steps != [] {
      var front := steps[..|steps| - 1];
      var s, s' := Run(front).value, Run(steps).value;
      ReachableKnownRun(front);
      ReachableInv(front);
      StepKeepsSeen(s, Last(steps));
      forall id | id in s'.sessions ensures ToldRight(s', s'.sessions[id]) {
        StepTellsRight(s, Last(steps), id);
      }
    }
  }

  /** The session ended without ever having been subscribed. */
  ghost predicate EndedInactive(s: System, id: nat) {
    id in s.sessions && s.sessions[id].phase.Ended? && !s.sessions[id].live
  }

  /** A session that finds the run inactive is refused exactly when the run never emitted its start;
      otherwise it is served from the file, and complete unless the client leaves. */
  lemma NotFoundExactly(steps: seq<Step>, id: nat)
    requires Run(steps).Some? && EndedInactive(Run(steps).value, id)
    ensures var s := Run(steps).value;
            && (s.sessions[id].phase == Ended(NotFound) <==> !HasStart(s.emitted))
            && (s.sessions[id].phase in [Ended(NotFound), Ended(Disconnected)] || EndedWhole(s, id))
  {
    ReachableKnownRun(steps);
    ReachableInv(steps);
    InactiveIsTold(Run(steps).value, id);
  }

  lemma InactiveIsTold(s: System, id: nat)
    requires Shared(s) && KnownRun(s) && EndedInactive(s, id)
    ensures s.sessions[id].phase == Ended(NotFound) <==> !HasStart(s.emitted)
    ensures s.sessions[id].phase in [Ended(NotFound), Ended(Disconnected)] || EndedWhole(s, id)
  {
    SeenIsEmitted(s);
    var se := s.sessions[id];
    assert ToldRight(s, se);
    match se.phase.cause
    case NotFound =>
    case Disconnected =>
    case FileEnded =>
    case StreamEnded =>
  }

  lemma SeenIsEmitted(s: System)
    requires Shared(s)
    ensures HasStart(Seen(s)) ==> HasStart(s.emitted)
    ensures s.returned ==> Seen(s) == s.emitted
  {
    if k :| 0 <= k < |Seen(s)| && Seen(s)[k].kind == RunStarted {
      assert s.emitted[k].kind == RunStarted;
    }
  }

  /** A step of the emitter itself. */
  ghost predicate EmitterStep(s: System, step: Step) {
    Enabled(s, step) && !step.Act? && Apply(s, step).emitter != s.emitter
  }

  /** No client can stall the engine: an event being emitted always has a next step of the emitter itself. */
  lemma EmitterNeverBlocks(steps: seq<Step>)
    requires Run(steps).Some? && !Run(steps).value.emitter.Idle?
    ensures exists step :: EmitterStep(Run(steps).value, step)
  {
    var s := Run(steps).value;
    match s.emitter
    case ToRecord => assert EmitterStep(s, Record);
    case ToFile => assert EmitterStep(s, Append);
    case ToFan => assert EmitterStep(s, FanStart);
    case Fanning(pending) =>
      if pending == {} {
        assert EmitterStep(s, FanEnd);
      } else {
        var id :| id in pending;
        assert EmitterStep(s, FanSend(id));
      }
  }

  // ---- Reconnecting ----------------------------------------------------------

  /** The id a client sends when it reconnects after receiving `got` frames of a session. */
  ghost function LastId(se: Session, got: nat): nat
    requires got <= |se.out|
  {
    if got == 0 then se.after else se.out[got - 1].seqNo
  }

  /** Successive sessions of one client: each resumes from the last frame received of the one before. */
  ghost predicate Chain(s: System, ids: seq<nat>, got: seq<nat>) {
    && |ids| == |got| > 0
    && (forall k :: 0 <= k < |ids| ==> ids[k] in s.sessions && got[k] <= |s.sessions[ids[k]].out|)
    && (forall k, n :: 0 <= k && n == k + 1 && n < |ids| ==>
          s.sessions[ids[n]].after == LastId(s.sessions[ids[k]], got[k]))
  }

  ghost function Received(s: System, ids: seq<nat>, got: seq<nat>): seq<Event>
    requires |ids| == |got|
    requires forall k :: 0 <= k < |ids| ==> ids[k] in s.sessions && got[k] <= |s.sessions[ids[k]].out|
  {
    if ids == [] then []
    else Received(s, ids[..|ids| - 1], got[..|ids| - 1]) + s.sessions[Last(ids)].out[..Last(got)]
  }

  ghost predicate AllContiguous(s: System) {
    forall id :: id in s.sessions ==> Contiguous(s.emitted, s.sessions[id])
  }

  lemma InvContiguous(s: System)
    requires Inv(s)
    ensures AllContiguous(s)
  {
    forall id | id in s.sessions ensures Contiguous(s.emitted, s.sessions[id]) {
      SliceIsContiguous(ViewOf(s, id));
    }
  }

  lemma ChainFront(s: System, ids: seq<nat>, got: seq<nat>)
    requires Chain(s, ids, got) && |ids| > 1
    ensures Chain(s, ids[..|ids| - 1], got[..|ids| - 1])
    ensures s.sessions[Last(ids)].after == LastId(s.sessions[Last(ids[..|ids| - 1])], Last(got[..|ids| - 1]))
  {
    var n := |ids| - 1;
    assert forall k :: 0 <= k < n ==> ids[..n][k] == ids[k] && got[..n][k] == got[k];
  }

  /** Appending what was received of one session to a stretch that ends at its resume point. */
  lemma LegExtends(s: System, id: nat, got: nat, first: nat, before: seq<Event>)
    requires AllContiguous(s) && id in s.sessions && got <= |s.sessions[id].out|
    requires first <= s.sessions[id].after && before == Slice(s.emitted, first, s.sessions[id].after)
    requires first < s.sessions[id].after ==> s.sessions[id].after <= |s.emitted|
    ensures var end := LastId(s.sessions[id], got);
            first <= end && before + s.sessions[id].out[..got] == Slice(s.emitted, first, end)
            && (first < end ==> end <= |s.emitted|)
  {
    assert Contiguous(s.emitted, s.sessions[id]);
    JoinSlices(s.emitted, first, s.sessions[id].after, s.sessions[id].out[..got]);
  }

  lemma {:induction false} ChainReceives(s: System, ids: seq<nat>, got: seq<nat>)
    requires AllContiguous(s) && Chain(s, ids, got)
    ensures var first, end := s.sessions[ids[0]].after, LastId(s.sessions[Last(ids)], Last(got));
            first <= end && Received(s, ids, got) == Slice(s.emitted, first, end)
            && (first < end ==> end <= |s.emitted|)
  {
    var n := |ids| - 1;
    if n > 0 {
      ChainFront(s, ids, got);
      ChainReceives(s, ids[..n], got[..n]);
    }
    LegExtends(s, Last(ids), Last(got), s.sessions[ids[0]].after, Received(s, ids[..n], got[..n]));
  }

  lemma JoinSlices(es: seq<Event>, a: nat, b: nat, more: seq<Event>)
    requires a <= b && (a < b ==> b <= |es|)
    requires more != [] ==> b + |more| <= |es|
    requires forall k :: 0 <= k < |more| ==> more[k] == es[b + k]
    ensures Slice(es, a, b) + more == Slice(es, a, b + |more|)
  {
    if more != [] {
      assert es[a..b + |more|] == es[a..b] + es[b..b + |more|];
    }
  }

  /** Over any number of reconnects the client has received one contiguous stretch of the stream, duplicate-free. */
  lemma ReconnectsAreSeamless(steps: seq<Step>, ids: seq<nat>, got: seq<nat>)
    requires Run(steps).Some? && Chain(Run(steps).value, ids, got)
    ensures var s := Run(steps).value;
            var first, end := s.sessions[ids[0]].after, LastId(s.sessions[Last(ids)], Last(got));
            && Received(s, ids, got) == Slice(s.emitted, first, end)
            && |Received(s, ids, got)| == end - first
  {
    ReachableInv(steps);
    InvContiguous(Run(steps).value);
    ChainReceives(Run(steps).value, ids, got);
  }

  /** If the last session ended whole and was received in full, the client has everything after its first resume
      point. */
  lemma ReconnectsComplete(steps: seq<Step>, ids: seq<nat>, got: seq<nat>)
    requires Run(steps).Some? && Chain(Run(steps).value, ids, got)
    requires EndedWhole(Run(steps).value, Last(ids)) && Last(got) == |Run(steps).value.sessions[Last(ids)].out|
    ensures var s := Run(steps).value;
            Received(s, ids, got) == Slice(s.emitted, s.sessions[ids[0]].after, |s.emitted|)
  {
    ReconnectsAreSeamless(steps, ids, got);
    WholeSessionsComplete(steps, Last(ids));
    DeliveryIsContiguous(steps, Last(ids));
  }
}
