/** What every step of the streaming system keeps of what each session sees. */
module SseViews {
  import opened Basics
  import opened EngineEvents
  import opened Hub
  import opened Sse

  // ---- Invariant: one session at a time --------------------------------------

  /** All that matters to one session: the events, how many are filed and offered to it, its
      registration and channel, whether the run is over, and the session itself. */
  datatype View = View(
    es: seq<Event>,
    filed: nat,
    offered: int,
    registered: bool,
    chan: Chan,
    over: bool,
    shut: bool,
    lagged: bool,
    se: Session)

  ghost function ViewOf(s: System, id: nat): View
    requires id in s.sessions
  {
    View(s.emitted, |s.file|, Offered(s, id), id in s.hub.subs, s.hub.At(id), s.returned, s.hub.closed,
         id in s.lagged, s.sessions[id])
  }

  /** The channel holds the events after the last one taken; if open, up to the last one offered;
      if closed without the subscriber lagging, up to the end of the run. */
  ghost predicate ChanInv(v: View) {
    var through := v.se.taken + |v.chan.buf|;
    && through <= |v.es| && v.chan.buf == v.es[v.se.taken..through]
    && (v.registered ==> !v.chan.closed && through == v.offered)
    && (!v.registered ==> v.chan.closed)
    && (!v.registered && !v.lagged ==> v.shut && through == |v.es|)
  }

  ghost predicate Complete(v: View) {
    v.over && v.se.out == Slice(v.es, v.se.after, |v.es|)
  }

  ghost predicate PhaseInv(v: View) {
    var se := v.se;
    match se.phase
    case Connecting => !se.live && se.out == [] && se.maxSeq == se.after
    case Found => !se.live && se.out == [] && se.maxSeq == se.after
    case Replaying(pos) =>
      && pos <= v.filed && se.maxSeq == Max(se.after, pos) && se.out == Slice(v.es, se.after, pos)
      && (if se.live then ChanInv(v) && se.taken <= v.filed else v.over)
    case Draining =>
      && se.live && ChanInv(v)
      && se.after <= se.maxSeq && (se.maxSeq == se.after || se.maxSeq <= |v.es|)
      && se.out == Slice(v.es, se.after, Max(se.maxSeq, se.taken))
    case Ended(FileEnded) => Complete(v)
    case Ended(StreamEnded) => se.out == Slice(v.es, se.after, se.after + |se.out|) && (v.lagged || Complete(v))
    case Ended(_) => se.out == Slice(v.es, se.after, se.after + |se.out|)
  }

  ghost predicate ViewInv(v: View) {
    && Numbered(v.es) && v.filed <= |v.es|
    && v.offered <= v.filed && v.offered >= |v.es| - 1
    && (v.over ==> v.filed == |v.es| && v.offered == |v.es|)
    && (v.shut ==> v.over)
    && (v.registered ==> v.se.live)
    && PhaseInv(v)
  }

  /** At every moment a session has delivered the events right after its resume point: in order,
      without gap or duplicate. */
  ghost predicate Contiguous(es: seq<Event>, se: Session) {
    && (se.out != [] ==> se.after + |se.out| <= |es|)
    && forall k :: 0 <= k < |se.out| ==> se.out[k] == es[se.after + k] && se.out[k].seqNo == se.after + k + 1
  }

  lemma SliceIsContiguous(v: View)
    requires ViewInv(v)
    ensures Contiguous(v.es, v.se)
  {
  }

  // -- Moves of the surroundings --

  lemma ViewEmit(v: View, e: Event)
    requires ViewInv(v) && !v.over && v.offered == |v.es| && e.seqNo == |v.es| + 1
    ensures ViewInv(v.(es := v.es + [e]))
  {
    var es' := v.es + [e];
    assert forall a, b :: 0 <= a <= b <= |v.es| ==> es'[a..b] == v.es[a..b];
  }

  lemma ViewFile(v: View)
    requires ViewInv(v) && v.filed < |v.es|
    ensures ViewInv(v.(filed := v.filed + 1))
  {
  }

  /** The hub moves past this session's subscriber: sent, dropped, or not registered at all. */
  ghost predicate OfferMove(v: View, v': View) {
    && v.es != []
    && v' == v.(offered := |v.es|, registered := v'.registered, chan := v'.chan, lagged := v'.lagged)
    && if !v.registered then v'.registered == v.registered && v'.chan == v.chan && v'.lagged == v.lagged
       else if |v.chan.buf| < SUB_BUFFER then
         v'.registered && v'.chan == v.chan.(buf := v.chan.buf + [Last(v.es)]) && v'.lagged == v.lagged
       else !v'.registered && v'.chan == v.chan.(closed := true) && v'.lagged
  }

  lemma OfferKeepsChan(v: View, v': View)
    requires OfferMove(v, v') && ChanInv(v) && v.offered == |v.es| - 1
    ensures ChanInv(v')
  {
  }

  lemma ViewOffer(v: View, v': View)
    requires ViewInv(v) && v.filed == |v.es| && v.offered == |v.es| - 1 && OfferMove(v, v')
    ensures ViewInv(v')
  {
    if ChanInv(v) {
      OfferKeepsChan(v, v');
    }
  }

  lemma ViewReturn(v: View)
    requires ViewInv(v) && v.filed == v.offered == |v.es|
    ensures ViewInv(v.(over := true))
  {
  }

  lemma ViewShut(v: View)
    requires ViewInv(v) && v.over
    ensures ViewInv(v.(shut := true, registered := false,
                       chan := if v.registered then v.chan.(closed := true) else v.chan))
  {
  }

  // -- Moves of the session --

  ghost function ReadMove(v: View, line: Event): View
    requires v.se.phase.Replaying?
  {
    var r := ReplayLine(v.se.after, Replay(v.se.out, v.se.maxSeq), line);
    v.(se := v.se.(phase := Replaying(v.se.phase.pos + 1), out := r.out, maxSeq := r.maxSeq))
  }

  lemma ViewRead(v: View, line: Event)
    requires ViewInv(v) && v.se.phase.Replaying? && v.se.phase.pos < v.filed && line == v.es[v.se.phase.pos]
    ensures ViewInv(ReadMove(v, line))
  {
    ReadSlice(v.es, v.se.after, v.se.phase.pos);
  }

  lemma ReadSlice(es: seq<Event>, after: nat, pos: nat)
    requires pos < |es|
    ensures Slice(es, after, pos + 1) == Slice(es, after, pos) + (if pos < after then [] else [es[pos]])
  {
    if pos >= after {
      assert es[after..pos + 1] == es[after..pos] + [es[pos]];
    }
  }

  ghost function EofMove(v: View): View {
    v.(se := v.se.(phase := if v.se.live then Draining else Ended(FileEnded)))
  }

  lemma ViewEof(v: View)
    requires ViewInv(v) && v.se.phase.Replaying? && v.se.phase.pos >= v.filed
    ensures ViewInv(EofMove(v))
  {
  }

  ghost function ReceiveMove(v: View): View
    requires v.chan.buf != []
  {
    var e := v.chan.buf[0];
    v.(chan := v.chan.(buf := v.chan.buf[1..]),
       se := v.se.(taken := e.seqNo, out := if e.seqNo <= v.se.maxSeq then v.se.out else v.se.out + [e]))
  }

  lemma ViewReceive(v: View)
    requires ViewInv(v) && v.se.phase.Draining? && v.chan.buf != []
    ensures ViewInv(ReceiveMove(v))
  {
    assert v.chan.buf[0] == v.es[v.se.taken];
    ReceivedSlice(v.es, v.se.after, v.se.maxSeq, v.se.taken);
    ReceiveKeepsChan(v);
  }

  /** What was replayed is skipped; the next event extends the delivered slice. */
  lemma ReceivedSlice(es: seq<Event>, after: nat, maxSeq: nat, taken: nat)
    requires after <= maxSeq && (maxSeq == after || maxSeq <= |es|) && taken < |es|
    ensures Slice(es, after, Max(maxSeq, taken + 1)) ==
              Slice(es, after, Max(maxSeq, taken)) + if taken + 1 <= maxSeq then [] else [es[taken]]
  {
    if taken >= maxSeq {
      assert es[after..taken + 1] == es[after..taken] + [es[taken]];
    }
  }

  lemma ReceiveKeepsChan(v: View)
    requires Numbered(v.es) && ChanInv(v) && v.chan.buf != []
    ensures ChanInv(ReceiveMove(v))
  {
    assert v.chan.buf[0] == v.es[v.se.taken];
  }

  ghost function EndMove(v: View, cause: Cause): View {
    v.(se := v.se.(phase := Ended(cause)))
  }

  lemma ViewEnd(v: View, cause: Cause)
    requires ViewInv(v) && (v.se.phase.Draining? || v.se.phase.Replaying?) && !cause.FileEnded?
    requires cause.StreamEnded? ==> v.se.phase.Draining? && v.chan == Chan([], true)
    ensures ViewInv(EndMove(v, cause))
  {
    SliceIsContiguous(v);
  }

  lemma ViewUnsubscribe(v: View, chan: Chan)
    requires ViewInv(v) && v.se.phase.Ended?
    ensures ViewInv(v.(registered := false, chan := chan))
  {
  }

  // ---- Invariant: the whole system -------------------------------------------

  ghost predicate Inv(s: System) {
    Shared(s) && forall id :: id in s.sessions ==> ViewInv(ViewOf(s, id))
  }

  /** How an emitter step looks to one session. */
  lemma EmitterMovesView(s: System, step: Step, id: nat)
    requires Shared(s) && Enabled(s, step) && id in s.sessions
    ensures step.Emit? ==>
              ViewOf(Apply(s, step), id) ==
              ViewOf(s, id).(es := s.emitted + [step.event.(seqNo := |s.emitted| + 1)])
    ensures step.Append? ==> ViewOf(Apply(s, step), id) == ViewOf(s, id).(filed := |s.file| + 1)
    ensures step.Record? || step.FanEnd? ==> ViewOf(Apply(s, step), id) == ViewOf(s, id)
  {
  }

  lemma FanMovesView(s: System, step: Step, id: nat)
    requires Shared(s) && Enabled(s, step) && id in s.sessions
    ensures step.FanStart? ==>
              if id in s.hub.subs then ViewOf(Apply(s, step), id) == ViewOf(s, id)
              else OfferMove(ViewOf(s, id), ViewOf(Apply(s, step), id))
    ensures step.FanSend? ==>
              if step.id != id then ViewOf(Apply(s, step), id) == ViewOf(s, id)
              else OfferMove(ViewOf(s, id), ViewOf(Apply(s, step), id))
  {
  }

  lemma EmitterKeepsView(s: System, step: Step, id: nat)
    requires Inv(s) && Enabled(s, step) && id in s.sessions
    requires step.Emit? || step.Record? || step.Append? || step.FanStart? || step.FanSend? || step.FanEnd?
    ensures ViewInv(ViewOf(Apply(s, step), id))
  {
    EmitterMovesView(s, step, id);
    FanMovesView(s, step, id);
    var v, v' := ViewOf(s, id), ViewOf(Apply(s, step), id);
    if step.Emit? {
      ViewEmit(v, step.event.(seqNo := |s.emitted| + 1));
    } else if step.Append? {
      ViewFile(v);
    } else if OfferMove(v, v') && v.offered == |v.es| - 1 {
      ViewOffer(v, v');
    }
  }

  lemma RunEndKeepsView(s: System, step: Step, id: nat)
    requires Inv(s) && Enabled(s, step) && id in s.sessions
    requires step.Return? || step.Deregister? || step.CloseHub?
    ensures ViewInv(ViewOf(Apply(s, step), id))
  {
    var v, v' := ViewOf(s, id), ViewOf(Apply(s, step), id);
    match step
    case Return =>
      ViewReturn(v);
    case Deregister =>
      assert v' == v;
    case CloseHub =>
      ViewShut(v);
      assert v'.chan == if v.registered then v.chan.(closed := true) else v.chan;
  }

  /** A session step replaces one session and touches one channel; all that another session sees stays. */
  lemma OtherSessionsKeepView(s: System, id: nat, move: Move, other: nat)
    requires Enabled(s, Act(id, move)) && other in s.sessions && other != id
    ensures ViewOf(Apply(s, Act(id, move)), other) == ViewOf(s, other)
  {
    assert HubAfter(s, id, move).At(other) == s.hub.At(other);
  }

  lemma JoiningKeepsView(s: System, id: nat, move: Move)
    requires Shared(s) && Enabled(s, Act(id, move)) && (move.Connect? || move.Lookup? || move.Subscribe?)
    requires id in s.sessions ==> ViewInv(ViewOf(s, id))
    ensures ViewInv(ViewOf(Apply(s, Act(id, move)), id))
  {
    match move
    case Connect(_) =>
    case Lookup =>
    case Subscribe =>
  }

  lemma ReplayKeepsView(s: System, id: nat, move: Move)
    requires Enabled(s, Act(id, move)) && (move.ReadLine? || move.ReadEof?)
    requires ViewInv(ViewOf(s, id)) && s.file <= s.emitted
    ensures ViewInv(ViewOf(Apply(s, Act(id, move)), id))
  {
    var v := ViewOf(s, id);
    if move.ReadLine? {
      ReadMovesView(s, id);
      ViewRead(v, s.file[v.se.phase.pos]);
    } else {
      EofMovesView(s, id);
      ViewEof(v);
    }
  }

  lemma ReadMovesView(s: System, id: nat)
    requires Enabled(s, Act(id, ReadLine))
    ensures ViewOf(Apply(s, Act(id, ReadLine)), id) == ReadMove(ViewOf(s, id), s.file[s.sessions[id].phase.pos])
  {
  }

  lemma EofMovesView(s: System, id: nat)
    requires Enabled(s, Act(id, ReadEof))
    ensures ViewOf(Apply(s, Act(id, ReadEof)), id) == EofMove(ViewOf(s, id))
  {
  }

  lemma ReceiveKeepsView(s: System, id: nat)
    requires Shared(s) && Enabled(s, Act(id, Receive)) && ViewInv(ViewOf(s, id))
    ensures ViewInv(ViewOf(Apply(s, Act(id, Receive)), id))
  {
    assert ViewOf(Apply(s, Act(id, Receive)), id) == ReceiveMove(ViewOf(s, id));
    ViewReceive(ViewOf(s, id));
  }

  lemma LeavingKeepsView(s: System, id: nat, move: Move)
    requires Enabled(s, Act(id, move)) && (move.SeeClose? || move.Disconnect?)
    requires ViewInv(ViewOf(s, id))
    ensures ViewInv(ViewOf(Apply(s, Act(id, move)), id))
  {
    var v, cause := ViewOf(s, id), if move.SeeClose? then StreamEnded else Disconnected;
    assert ViewOf(Apply(s, Act(id, move)), id) == EndMove(v, cause);
    ViewEnd(v, cause);
  }

  lemma UnsubscribeKeepsView(s: System, id: nat)
    requires Shared(s) && Enabled(s, Act(id, Unsubscribe)) && ViewInv(ViewOf(s, id))
    ensures ViewInv(ViewOf(Apply(s, Act(id, Unsubscribe)), id))
  {
    var v, c := ViewOf(s, id), Removed(s.hub, id).At(id);
    assert ViewOf(Apply(s, Act(id, Unsubscribe)), id) == v.(registered := false, chan := c);
    ViewUnsubscribe(v, c);
  }

  lemma OwnViewKept(s: System, id: nat, move: Move)
    requires Shared(s) && Enabled(s, Act(id, move))
    requires id in s.sessions ==> ViewInv(ViewOf(s, id))
    ensures ViewInv(ViewOf(Apply(s, Act(id, move)), id))
  {
    if move.Connect? || move.Lookup? || move.Subscribe? {
      JoiningKeepsView(s, id, move);
    } else if move.ReadLine? || move.ReadEof? {
      ReplayKeepsView(s, id, move);
    } else if move.Receive? {
      ReceiveKeepsView(s, id);
    } else if move.Unsubscribe? {
      UnsubscribeKeepsView(s, id);
    } else {
      LeavingKeepsView(s, id, move);
    }
  }

  lemma ActKeepsInv(s: System, id: nat, move: Move)
    requires Inv(s) && Enabled(s, Act(id, move))
    ensures Inv(Apply(s, Act(id, move)))
  {
    if move.Subscribe? || move.Unsubscribe? {
      assert ViewInv(ViewOf(s, id));
      SharedKeptBySubscription(s, id, move);
    } else {
      SharedKeptBySession(s, id, move);
    }
    OwnViewKept(s, id, move);
    forall other | other in s.sessions && other != id {
      OtherSessionsKeepView(s, id, move, other);
    }
  }

  lemma StepKeepsInv(s: System, step: Step)
    requires Inv(s) && Enabled(s, step)
    ensures Inv(Apply(s, step))
  {
    if step.Act? {
      ActKeepsInv(s, step.session, step.move);
    } else if step.Return? || step.Deregister? || step.CloseHub? {
      SharedKeptByRun(s, step);
      forall id | id in s.sessions {
        RunEndKeepsView(s, step, id);
      }
    } else {
      SharedKeptByEmitter(s, step);
      forall id | id in s.sessions {
        EmitterKeepsView(s, step, id);
      }
    }
  }

  lemma {:induction false} ReachableInv(steps: seq<Step>)
    requires Run(steps).Some?
    ensures Inv(Run(steps).value)
  {
    if steps != [] {
      var front := steps[..|steps| - 1];
      ReachableInv(front);
      StepKeepsInv(Run(front).value, Last(steps));
    }
  }
}
