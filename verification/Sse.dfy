/** Replay, then live: how a run's events reach SSE clients. The emitter (internal/engine/event.go with the
    recorder, event-log and hub sinks in that order), the run's registration (internal/runmanager/manager.go)
    and any number of sessions (internal/server/sse.go) are interleaved step by step. */
module Sse {
  import opened Basics
  import opened EngineEvents
  import opened Listing
  import opened Hub

  // ---- Replaying the file ----------------------------------------------------

  datatype Replay = Replay(out: seq<Event>, maxSeq: nat)

  function ReplayLine(after: nat, r: Replay, line: Event): Replay {
    if line.seqNo <= after then r
    else Replay(r.out + [line], if line.seqNo > r.maxSeq then line.seqNo else r.maxSeq)
  }

  function ReplayLines(after: nat, lines: seq<Event>): Replay {
    if lines == [] then Replay([], after) else ReplayLine(after, ReplayLines(after, lines[..|lines| - 1]), Last(lines))
  }

  /** One pass over a file that is not being appended to; lines that do not parse are passed over. */
  method ReplayEventFile(file: seq<Option<Event>>, after: nat) returns (r: Replay)
    ensures r == ReplayLines(after, Parsed(file))
  {
    r := Replay([], after);
    for i := 0 to |file|
      invariant r == ReplayLines(after, Parsed(file[..i]))
    {
      assert file[..i + 1][..i] == file[..i];
      if file[i].Some? {
        assert Parsed(file[..i + 1]) == Parsed(file[..i]) + [file[i].value];
        ReplayOneMore(after, Parsed(file[..i]), file[i].value);
        r := ReplayLine(after, r, file[i].value);
      }
    }
    assert file[..|file|] == file;
  }

  /** Whatever the file holds: the frames are the parsed lines numbered past the resume point, in file order,
      and the highest number seen is remembered. */
  lemma {:induction false} ReplaySelects(after: nat, lines: seq<Event>)
    ensures var r := ReplayLines(after, lines);
            && Selects(lines, r.out, (line: Event) => line.seqNo > after)
            && (forall line :: line in r.out ==> line.seqNo <= r.maxSeq)
            && (r.maxSeq == after || (r.maxSeq > after && exists line :: line in r.out && line.seqNo == r.maxSeq))
  {
    var keep := (line: Event) => line.seqNo > after;
    if lines == [] {
      SelectsNone(keep);
    } else {
      var front, last := lines[..|lines| - 1], Last(lines);
      var before := ReplayLines(after, front);
      ReplaySelects(after, front);
      SelectsSnoc(front, before.out, last, keep);
      FrontLast(lines);
      AppendNothing(before.out);
      LineIsReplayed(after, before, last);
    }
  }

  lemma LineIsReplayed(after: nat, r: Replay, line: Event)
    requires forall l :: l in r.out ==> l.seqNo <= r.maxSeq
    requires r.maxSeq == after || (r.maxSeq > after && exists l :: l in r.out && l.seqNo == r.maxSeq)
    ensures var r' := ReplayLine(after, r, line);
            && r'.out == r.out + (if line.seqNo > after then [line] else [])
            && (forall l :: l in r'.out ==> l.seqNo <= r'.maxSeq)
            && (r'.maxSeq == after || (r'.maxSeq > after && exists l :: l in r'.out && l.seqNo == r'.maxSeq))
  {
    AppendNothing(r.out);
    if line.seqNo > r.maxSeq && line.seqNo > after {
      assert line in r.out + [line];
    }
  }

  /** The lines that parse, in file order. */
  lemma {:induction false} ParsedSelects(file: seq<Option<Event>>) returns (good: seq<Option<Event>>)
    ensures Selects(file, good, (line: Option<Event>) => line.Some?) && |Parsed(file)| == |good|
    ensures forall i :: 0 <= i < |good| ==> good[i] == Some(Parsed(file)[i])
  {
    var keep := (line: Option<Event>) => line.Some?;
    if file == [] {
      good := [];
      SelectsNone(keep);
    } else {
      var front, last := file[..|file| - 1], Last(file);
      var before := ParsedSelects(front);
      SelectsSnoc(front, before, last, keep);
      FrontLast(file);
      good := before + if keep(last) then [last] else [];
    }
  }

  function Parsed(file: seq<Option<Event>>): seq<Event> {
    if file == [] then []
    else if Last(file).Some? then Parsed(file[..|file| - 1]) + [Last(file).value]
    else Parsed(file[..|file| - 1])
  }

  lemma ReplayOneMore(after: nat, lines: seq<Event>, line: Event)
    ensures ReplayLines(after, lines + [line]) == ReplayLine(after, ReplayLines(after, lines), line)
  {
    assert (lines + [line])[..|lines|] == lines;
  }

  /** The bus numbers events 1, 2, 3, ... in emission order. */
  ghost predicate Numbered(es: seq<Event>) {
    forall k :: 0 <= k < |es| ==> es[k].seqNo == k + 1
  }

  /** Events a+1 .. b by number; nothing when b does not lie beyond a. */
  ghost function Slice(es: seq<Event>, a: nat, b: nat): seq<Event> {
    if a < b <= |es| then es[a..b] else []
  }

  function Max(a: nat, b: nat): nat {
    if a >= b then a else b
  }

  /** Replaying a numbered prefix delivers exactly the events past the resume point. */
  lemma {:induction false} ReplayIsSlice(after: nat, lines: seq<Event>)
    requires Numbered(lines)
    ensures ReplayLines(after, lines) == Replay(Slice(lines, after, |lines|), Max(after, |lines|))
  {
    if lines != [] {
      var front := lines[..|lines| - 1];
      ReplayIsSlice(after, front);
      if |lines| > after {
        assert lines[after..|lines|] == Slice(front, after, |front|) + [Last(lines)];
      }
    }
  }

  // ---- The system ------------------------------------------------------------

  /** What the emitting goroutine has left to do for the last numbered event, under the bus lock. */
  datatype Emitter =
    | Idle
    | ToRecord                       // numbered, next the recorder
    | ToFile                         // next the event-log file
    | ToFan                          // next the hub
    | Fanning(pending: set<nat>)     // inside the hub, under the hub lock

  datatype Cause = NotFound | FileEnded | StreamEnded | Disconnected

  datatype Phase =
    | Connecting                     // before the run is looked up
    | Found                          // run looked up as active, hub not asked yet
    | Replaying(pos: nat)            // lines read so far
    | Draining
    | Ended(cause: Cause)

  /** A session resuming after event `after`; `taken` counts the events up to the last one
      received from the channel (initially, up to the subscription). */
  datatype Session = Session(after: nat, live: bool, phase: Phase, maxSeq: nat, taken: nat, out: seq<Event>)

  datatype System = System(
    emitted: seq<Event>,
    emitter: Emitter,
    recorded: bool,                  // the store has the run
    file: seq<Event>,
    logOpen: bool,
    returned: bool,                  // the run function returned
    active: bool,                    // the manager still lists the run
    hub: HubState,
    lagged: set<nat>,                // subscribers dropped for a full buffer
    sessions: map<nat, Session>)

  const Start := System([], Idle, false, [], true, false, true, HubState({}, map[], false), {}, map[])

  datatype Step =
    | Emit(event: Event)
    | Record
    | Append
    | FanStart
    | FanSend(id: nat)
    | FanEnd
    | Return
    | Deregister
    | CloseHub
    | Act(session: nat, move: Move)  // one session's handler

  datatype Move =
    | Connect(after: nat)
    | Lookup
    | Subscribe
    | ReadLine
    | ReadEof
    | Receive
    | SeeClose
    | Disconnect
    | Unsubscribe

  ghost predicate RunFinishedEmitted(es: seq<Event>) {
    es != [] && Last(es).kind == RunFinished
  }

  /** Nothing is emitted after RunFinished or after the run function returned; the hub lock is free unless fanning. */
  ghost predicate Enabled(s: System, step: Step) {
    match step
    case Emit(_) => s.emitter.Idle? && !s.returned && !RunFinishedEmitted(s.emitted)
    case Record => s.emitter.ToRecord?
    case Append => s.emitter.ToFile?
    case FanStart => s.emitter.ToFan?
    case FanSend(id) => s.emitter.Fanning? && id in s.emitter.pending
    case FanEnd => s.emitter.Fanning? && s.emitter.pending == {}
    case Return => s.emitter.Idle? && !s.returned
    case Deregister => s.returned && s.active
    case CloseHub => !s.active && !s.hub.closed && !s.emitter.Fanning?
    case Act(id, move) => if move.Connect? then id !in s.sessions else id in s.sessions && CanMove(s, id, move)
  }

  ghost predicate CanMove(s: System, id: nat, move: Move)
    requires id in s.sessions
  {
    var phase := s.sessions[id].phase;
    match move
    case Connect(_) => false
    case Lookup => phase.Connecting?
    case Subscribe => phase.Found? && !s.emitter.Fanning?
    case ReadLine => phase.Replaying? && phase.pos < |s.file|
    case ReadEof => phase.Replaying? && phase.pos >= |s.file|
    case Receive => phase.Draining? && s.hub.At(id).buf != []
    case SeeClose => phase.Draining? && s.hub.At(id) == Chan([], true)
    case Disconnect => phase.Replaying? || phase.Draining?
    case Unsubscribe => phase.Ended? && s.sessions[id].live && !s.emitter.Fanning?
  }

  /** Neither listed nor subscribable: replay the file if the store knows the run, otherwise 404. */
  ghost function Inactive(s: System, se: Session): Session {
    se.(phase := if s.recorded then Replaying(0) else Ended(NotFound))
  }

  /** Events the hub is done offering to a subscriber that is registered now. */
  ghost function Offered(s: System, id: nat): int {
    match s.emitter
    case Idle => |s.emitted|
    case Fanning(pending) => if id in pending then |s.emitted| - 1 else |s.emitted|
    case _ => |s.emitted| - 1
  }

  /** A receive from a channel with something buffered. */
  ghost function Taken(h: HubState, id: nat): HubState {
    if h.At(id).buf == [] then h else h.(chans := h.chans[id := h.At(id).(buf := h.At(id).buf[1..])])
  }

  ghost function Put(s: System, id: nat, se: Session): System {
    s.(sessions := s.sessions[id := se])
  }

  ghost function Apply(s: System, step: Step): System
    requires Enabled(s, step)
  {
    match step
    case Emit(e) => s.(emitted := s.emitted + [e.(seqNo := |s.emitted| + 1)], emitter := ToRecord)
    case Record => s.(recorded := s.recorded || RunStartedLast(s.emitted), emitter := ToFile)
    case Append =>
      s.(file := if s.logOpen && s.emitted != [] then s.file + [Last(s.emitted)] else s.file,
         logOpen := s.logOpen && !RunFinishedEmitted(s.emitted),
         emitter := ToFan)
    case FanStart => s.(emitter := Fanning(s.hub.subs))
    case FanSend(id) =>
      s.(emitter := Fanning(s.emitter.pending - {id}),
         hub := if s.emitted != [] then Sent(s.hub, id, Last(s.emitted)) else s.hub,
         lagged := if |s.hub.At(id).buf| < SUB_BUFFER then s.lagged else s.lagged + {id})
    case FanEnd => s.(emitter := Idle)
    case Return => s.(returned := true)
    case Deregister => s.(active := false)
    case CloseHub => s.(hub := Shut(s.hub))
    case Act(id, move) => Put(s.(hub := HubAfter(s, id, move)), id, SessionAfter(s, id, move))
  }

  ghost function HubAfter(s: System, id: nat, move: Move): HubState {
    match move
    case Subscribe => Subscribed(s.hub, id)
    case Receive => Taken(s.hub, id)
    case Unsubscribe => Removed(s.hub, id)
    case _ => s.hub
  }

  ghost function SessionAfter(s: System, id: nat, move: Move): Session
    requires Enabled(s, Act(id, move))
  {
    if move.Connect? then Session(move.after, false, Connecting, move.after, 0, [])
    else
      var se := s.sessions[id];
      match move
      case Lookup => if s.active then se.(phase := Found) else Inactive(s, se)
      case Subscribe =>
        if s.hub.closed then Inactive(s, se)
        else se.(live := true, phase := Replaying(0), taken := if Offered(s, id) >= 0 then Offered(s, id) else 0)
      case ReadLine =>
        var r := ReplayLine(se.after, Replay(se.out, se.maxSeq), s.file[se.phase.pos]);
        se.(phase := Replaying(se.phase.pos + 1), out := r.out, maxSeq := r.maxSeq)
      case ReadEof => se.(phase := if se.live then Draining else Ended(FileEnded))
      case Receive =>
        var e := s.hub.At(id).buf[0];
        se.(taken := e.seqNo, out := if e.seqNo <= se.maxSeq then se.out else se.out + [e])
      case SeeClose => se.(phase := Ended(StreamEnded))
      case Disconnect => se.(phase := Ended(Disconnected))
      case Unsubscribe => se
  }

  ghost predicate RunStartedLast(es: seq<Event>) {
    es != [] && Last(es).kind == RunStarted
  }

  ghost function Run(steps: seq<Step>): Option<System> {
    if steps == [] then Some(Start)
    else
      var before := Run(steps[..|steps| - 1]);
      if before.Some? && Enabled(before.value, Last(steps)) then Some(Apply(before.value, Last(steps))) else None
  }

  // ---- Invariant: the shared part --------------------------------------------

  ghost predicate LogPart(es: seq<Event>, emitter: Emitter, file: seq<Event>, logOpen: bool, returned: bool) {
    && Numbered(es)
    && (emitter.Idle? || es != [])
    && file == (if emitter.ToRecord? || emitter.ToFile? then es[..|es| - 1] else es)
    && (logOpen || RunFinishedEmitted(es))
    && (emitter.ToRecord? || emitter.ToFile? ==> logOpen)
    && (returned ==> emitter.Idle?)
  }

  ghost predicate HubPart(h: HubState, emitter: Emitter, active: bool, sessions: map<nat, Session>) {
    && ValidHub(h)
    && (emitter.Fanning? ==> emitter.pending <= h.subs)
    && (h.closed ==> !active)
    && (forall id :: id in h.chans ==> id in sessions && sessions[id].live)
  }

  ghost predicate Shared(s: System) {
    && LogPart(s.emitted, s.emitter, s.file, s.logOpen, s.returned)
    && HubPart(s.hub, s.emitter, s.active, s.sessions)
    && (!s.active ==> s.returned)
  }

  lemma SharedKeptByEmitter(s: System, step: Step)
    requires Shared(s) && Enabled(s, step)
    requires step.Emit? || step.Record? || step.Append? || step.FanStart? || step.FanSend? || step.FanEnd?
    ensures Shared(Apply(s, step))
  {
    if step.FanSend? {
      HubStepsValid(s.hub, step.id);
    }
  }

  lemma SharedKeptByRun(s: System, step: Step)
    requires Shared(s) && Enabled(s, step)
    requires step.Return? || step.Deregister? || step.CloseHub?
    ensures Shared(Apply(s, step))
  {
    HubStepsValid(s.hub, 0);
  }

  lemma PutKeepsHub(s: System, id: nat, se: Session)
    requires HubPart(s.hub, s.emitter, s.active, s.sessions)
    requires id in s.hub.chans ==> se.live
    ensures HubPart(s.hub, s.emitter, s.active, s.sessions[id := se])
  {
  }

  lemma TakeKeepsHub(s: System, id: nat)
    requires HubPart(s.hub, s.emitter, s.active, s.sessions) && s.hub.At(id).buf != []
    ensures HubPart(Taken(s.hub, id), s.emitter, s.active, s.sessions)
  {
  }

  lemma SharedKeptBySession(s: System, id: nat, move: Move)
    requires Shared(s) && Enabled(s, Act(id, move)) && !move.Subscribe? && !move.Unsubscribe?
    ensures Shared(Apply(s, Act(id, move)))
  {
    if move.Receive? {
      TakeKeepsHub(s, id);
    }
    PutKeepsHub(s.(hub := HubAfter(s, id, move)), id, SessionAfter(s, id, move));
  }

  lemma SharedKeptBySubscription(s: System, id: nat, move: Move)
    requires Shared(s) && Enabled(s, Act(id, move)) && (move.Subscribe? || move.Unsubscribe?)
    requires move.Subscribe? ==> id !in s.hub.chans
    ensures Shared(Apply(s, Act(id, move)))
  {
    HubStepsValid(s.hub, id);
  }
}
