/** The live fan-out of internal/runmanager/hub.go: bounded channels, laggards dropped. */
module Hub {
  import opened EngineEvents

  const SUB_BUFFER: nat := 1024

  /** A subscriber's channel: what is buffered, and whether it is closed. */
  datatype Chan = Chan(buf: seq<Event>, closed: bool)

  const Opened := Chan([], false)

  /** `subs` are the registered subscribers; `chans` also remembers the removed ones. */
  datatype HubState = HubState(subs: set<nat>, chans: map<nat, Chan>, closed: bool) {
    function At(id: nat): Chan {
      if id in chans then chans[id] else Chan([], true)
    }
  }

  /** A registered channel is open, every other one closed: none is closed twice, none is sent to after its close. */
  ghost predicate ValidChans(h: HubState) {
    && (forall id :: id in h.subs <==> id in h.chans && !h.chans[id].closed)
    && (forall id :: id in h.chans ==> |h.chans[id].buf| <= SUB_BUFFER)
  }

  ghost predicate ValidHub(h: HubState) {
    ValidChans(h) && (h.closed ==> h.subs == {})
  }

  function Removed(h: HubState, id: nat): HubState {
    if id in h.subs && id in h.chans then
      h.(subs := h.subs - {id}, chans := h.chans[id := h.chans[id].(closed := true)])
    else h
  }

  /** A non-blocking send: buffered if there is room, otherwise the subscriber is dropped. */
  function Sent(h: HubState, id: nat, e: Event): HubState {
    if id !in h.subs || id !in h.chans then h
    else if |h.chans[id].buf| < SUB_BUFFER then h.(chans := h.chans[id := h.chans[id].(buf := h.chans[id].buf + [e])])
    else Removed(h, id)
  }

  function Subscribed(h: HubState, id: nat): HubState {
    if h.closed then h else h.(subs := h.subs + {id}, chans := h.chans[id := Opened])
  }

  /** All registered channels closed, what they buffer kept for their readers. */
  function Shut(h: HubState): HubState {
    HubState({}, map id | id in h.chans :: if id in h.subs then h.chans[id].(closed := true) else h.chans[id], true)
  }

  /** An event offered to the subscribers in `done`, described subscriber by subscriber. */
  ghost function FannedTo(h: HubState, e: Event, done: set<nat>): HubState {
    HubState(
      set id | id in h.subs && (id in done ==> |h.At(id).buf| < SUB_BUFFER),
      map id | id in h.chans ::
        if id !in h.subs || id !in done then h.chans[id]
        else if |h.chans[id].buf| < SUB_BUFFER then h.chans[id].(buf := h.chans[id].buf + [e])
        else h.chans[id].(closed := true),
      h.closed)
  }

  /** Offering to one more subscriber, whichever it is. */
  lemma FannedToOneMore(h: HubState, e: Event, done: set<nat>, id: nat)
    requires ValidHub(h) && id in h.subs && id !in done
    ensures Sent(FannedTo(h, e, done), id, e) == FannedTo(h, e, done + {id})
  {
  }

  /** A channel takes 1024 events; the next one offered finds it full, and its subscriber is dropped. */
  lemma OfferExactly(h: HubState, id: nat, e: Event)
    requires ValidHub(h) && id in h.subs
    ensures var h' := Sent(h, id, e);
            if |h.At(id).buf| < 1024 then
              h'.subs == h.subs && h'.At(id) == Chan(h.At(id).buf + [e], false)
            else
              |h.At(id).buf| == 1024 && h'.subs == h.subs - {id} && h'.At(id) == Chan(h.At(id).buf, true)
    ensures Sent(h, id, e).closed == h.closed
    ensures forall other :: other != id ==> Sent(h, id, e).At(other) == h.At(other)
  {
  }

  lemma HubStepsValid(h: HubState, id: nat)
    requires ValidHub(h)
    ensures ValidHub(Removed(h, id)) && ValidHub(Shut(h))
    ensures forall e :: ValidHub(Sent(h, id, e))
    ensures id !in h.chans ==> ValidHub(Subscribed(h, id))
  {
  }

  class LiveHub {
    var subs: set<nat>
    var chans: map<nat, Chan>
    var closed: bool

    constructor ()
      ensures State() == HubState({}, map[], false) && Valid()
    {
      subs, chans, closed := {}, map[], false;
    }

    function State(): HubState
      reads this
    {
      HubState(subs, chans, closed)
    }

    ghost predicate Valid()
      reads this
    {
      ValidHub(State())
    }

    /** Registers a new subscriber, or refuses once the run has finished. */
    method Subscribe(id: nat) returns (ok: bool)
      requires Valid() && id !in chans
      modifies this
      ensures Valid() && State() == Subscribed(old(State()), id)
      ensures ok <==> id in subs
      ensures ok ==> State().At(id) == Opened
    {
      if closed {
        return false;
      }
      subs := subs + {id};
      chans := chans[id := Opened];
      return true;
    }

    method RemoveLocked(id: nat)
      requires ValidChans(State())
      modifies this
      ensures ValidChans(State()) && State() == Removed(old(State()), id)
      ensures id !in subs
    {
      if id !in subs {
        return;
      }
      subs := subs - {id};
      if !chans[id].closed {
        chans := chans[id := chans[id].(closed := true)];
      }
    }

    /** Whatever order the subscribers are visited in, each one's fate depends on its own buffer only. */
    method Emit(e: Event)
      requires Valid()
      modifies this
      ensures Valid() && State() == FannedTo(old(State()), e, old(subs))
    {
      ghost var h, done := State(), {};
      var pending := subs;
      assert FannedTo(h, e, done) == h;
      while pending != {}
        invariant Valid() && pending <= subs && pending <= h.subs && ValidHub(h)
        invariant done !! pending && done + pending == h.subs
        invariant State() == FannedTo(h, e, done)
      {
        var id :| id in pending;
        FannedToOneMore(h, e, done, id);
        Offer(id, e);
        pending, done := pending - {id}, done + {id};
      }
    }

    method Offer(id: nat, e: Event)
      requires Valid() && id in subs
      modifies this
      ensures Valid() && State() == Sent(old(State()), id, e)
      ensures subs >= old(subs) - {id}
    {
      if |chans[id].buf| < SUB_BUFFER {
        chans := chans[id := chans[id].(buf := chans[id].buf + [e])];
      } else {
        RemoveLocked(id);
      }
    }

    /** Ends the hub once: every open channel is closed, later subscribers are refused. */
    method Close()
      requires Valid()
      modifies this
      ensures Valid() && closed
      ensures State() == if old(closed) then old(State()) else Shut(old(State()))
    {
      if closed {
        return;
      }
      ghost var h := State();
      closed := true;
      var pending := subs;
      while pending != {}
        invariant pending == subs && closed && ValidChans(State())
        invariant chans.Keys == h.chans.Keys && subs <= h.subs
        invariant forall id :: id in chans ==>
                    chans[id] == if id in h.subs && id !in pending then h.chans[id].(closed := true) else h.chans[id]
      {
        var id :| id in pending;
        RemoveLocked(id);
        pending := pending - {id};
      }
    }
  }
}
