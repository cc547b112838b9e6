/**
  The gamepad producer: it samples a button, keeps a journal of edges, and offers one pending packet to a
  link that may push back.  Four strategies differ in what they keep and what they replace.
 */
module InputDelivery {
  import opened Wrappers

  const SNAPSHOT_MS := 16
  const OLD_HEARTBEAT_MS := 250
  const TRANSITION_TTL_MS := 50
  const MAX_TRANSITIONS := 29

  datatype Strategy = Old | Complex | Green | Hybrid

  datatype Transition = Transition(ident: nat, state: bool, occurredMs: int)

  datatype Packet = Packet(
    frames: seq<bool>, transitions: seq<Transition>, lastTransitionId: nat, latestGeneration: nat, includesLatest: bool)
  {
    function Revision(): (nat, nat, bool) {
      (lastTransitionId, latestGeneration, includesLatest)
    }
  }

  // ----- The producer on values -----

  datatype State = State(
    strategy: Strategy, sampledState: bool, hasSample: bool, snapshotState: bool, hasSnapshot: bool,
    latestState: bool, latestDirty: bool, latestGeneration: nat, latestTransition: Option<Transition>,
    transitions: seq<Transition>, nextTransitionId: nat, nextSnapshotMs: int, nextHeartbeatMs: int,
    pending: Option<Packet>)

  function Initial(strategy: Strategy): State {
    State(strategy, false, false, false, false, false, false, 0, None, [], 1, 0, 0, None)
  }

  function Event(s: State, now: int, physical: bool): Option<Transition> {
    if s.hasSample && physical != s.sampledState then Some(Transition(s.nextTransitionId, physical, now)) else None
  }

  function Dirty(s: State): State {
    s.(latestDirty := true, latestGeneration := s.latestGeneration + 1)
  }

  /** The sample is taken over, and an edge gets the next identifier. */
  function Noticed(s: State, now: int, physical: bool): State {
    s.(nextTransitionId := if Event(s, now, physical).Some? then s.nextTransitionId + 1 else s.nextTransitionId,
       latestState := physical, sampledState := physical, hasSample := true)
  }

  function Journaled(s: State, event: Option<Transition>): State {
    if event.Some? then s.(transitions := s.transitions + [event.value]) else s
  }

  function Sampled(s: State, now: int, physical: bool): State {
    var event := Event(s, now, physical);
    var t := Noticed(s, now, physical);
    match s.strategy
    case Green => Dirty(t).(latestTransition := event)
    case Hybrid => Journaled(Dirty(t).(latestTransition := event), event)
    case _ => SnapshotTaken(Journaled(t, event), now, physical, event.Some?)
  }

  /** The two older strategies mark the state as new on edges, at snapshots and at heartbeats. */
  predicate Marks(s: State, now: int, physical: bool, transition: bool) {
    transition
    || (now >= s.nextSnapshotMs && (s.strategy.Complex? || !s.hasSnapshot || physical != s.snapshotState))
    || (now >= s.nextHeartbeatMs && s.strategy.Old?)
  }

  function SnapshotTaken(s: State, now: int, physical: bool, transition: bool): State {
    Scheduled(if Marks(s, now, physical, transition) then Dirty(s) else s, now, physical)
  }

  /** The snapshot and the heartbeat that are due are noted. */
  function Scheduled(s: State, now: int, physical: bool): State {
    var t := if now >= s.nextSnapshotMs then s.(snapshotState := physical, hasSnapshot := true, nextSnapshotMs := now + SNAPSHOT_MS) else s;
    if now >= s.nextHeartbeatMs then t.(nextHeartbeatMs := now + OLD_HEARTBEAT_MS) else t
  }

  /** The journal without the edges in front that are too old. */
  function Expired(transitions: seq<Transition>, now: int): seq<Transition> {
    if transitions != [] && now - transitions[0].occurredMs > TRANSITION_TTL_MS then Expired(transitions[1..], now)
    else transitions
  }

  function AfterExpiry(s: State, now: int): State {
    if s.strategy.Hybrid? then s.(transitions := Expired(s.transitions, now)) else s
  }

  function States(transitions: seq<Transition>): (r: seq<bool>)
    ensures |r| == |transitions| && forall i :: 0 <= i < |r| ==> r[i] == transitions[i].state
  {
    seq(|transitions|, i requires 0 <= i < |transitions| => transitions[i].state)
  }

  /** The packet that a producer without expired edges has to offer. */
  function Offer(s: State): Option<Packet> {
    if s.strategy.Hybrid? && s.transitions != [] then
      Some(Packet([s.transitions[0].state], [s.transitions[0]], s.transitions[0].ident, 0, false))
    else if s.strategy.Green? || s.strategy.Hybrid? then
      if !s.latestDirty then None
      else
        var transitions := if s.latestTransition.Some? then [s.latestTransition.value] else [];
        Some(Packet([s.latestState], transitions, 0, s.latestGeneration, true))
    else if s.transitions == [] && !s.latestDirty then None
    else
      var transitions := if |s.transitions| > MAX_TRANSITIONS then s.transitions[..MAX_TRANSITIONS] else s.transitions;
      var frames := States(transitions);
      var includesLatest := |transitions| == |s.transitions|;
      var more := includesLatest && s.latestDirty && (frames == [] || frames[|frames| - 1] != s.latestState);
      Some(Packet(
        if more then frames + [s.latestState] else frames, transitions,
        if transitions == [] then 0 else transitions[|transitions| - 1].ident,
        if includesLatest then s.latestGeneration else 0, includesLatest))
  }

  /** A pending packet whose first edge is too old is given up. */
  function AfterGivingUp(s: State, now: int): State {
    if s.strategy.Hybrid? && s.pending.Some? && s.pending.value.transitions != []
       && now - s.pending.value.transitions[0].occurredMs > TRANSITION_TTL_MS
    then s.(pending := None)
    else s
  }

  predicate Replaces(strategy: Strategy, pending: Packet, candidate: Packet) {
    if strategy.Hybrid? then
      pending.transitions == [] && (candidate.transitions != [] || candidate.Revision() != pending.Revision())
    else !strategy.Old? && candidate.Revision() != pending.Revision()
  }

  function Refreshed(s: State, now: int): State {
    var t := AfterExpiry(AfterGivingUp(s, now), now);
    var candidate := Offer(t);
    if candidate.None? then t
    else if t.pending.None? || Replaces(t.strategy, t.pending.value, candidate.value) then t.(pending := candidate)
    else t
  }

  /** The edges behind an identifier. */
  function After(transitions: seq<Transition>, ident: nat): seq<Transition> {
    if transitions == [] then []
    else (if transitions[0].ident > ident then [transitions[0]] else []) + After(transitions[1..], ident)
  }

  function Committed(s: State): State
    requires s.pending.Some?
  {
    var sent := s.pending.value;
    var t :=
      if s.strategy != Green && sent.lastTransitionId != 0
      then s.(transitions := After(s.transitions, sent.lastTransitionId)) else s;
    var u := if sent.includesLatest && sent.latestGeneration == t.latestGeneration then t.(latestDirty := false) else t;
    u.(pending := None)
  }

  lemma DirtyFields(s: State)
    ensures Dirty(s) == s.(latestDirty := true, latestGeneration := Dirty(s).latestGeneration)
  {}

  // ----- The producer -----

  class Producer {
    const strategy: Strategy
    var sampledState: bool
    var hasSample: bool
    var snapshotState: bool
    var hasSnapshot: bool
    var latestState: bool
    var latestDirty: bool
    var latestGeneration: nat
    var latestTransition: Option<Transition>
    var transitions: seq<Transition>
    var nextTransitionId: nat
    var nextSnapshotMs: int
    var nextHeartbeatMs: int
    var pending: Option<Packet>

    ghost function Current(): State
      reads this
    {
      State(
        strategy, sampledState, hasSample, snapshotState, hasSnapshot, latestState, latestDirty, latestGeneration,
        latestTransition, transitions, nextTransitionId, nextSnapshotMs, nextHeartbeatMs, pending)
    }

    constructor (strategy: Strategy)
      ensures Current() == Initial(strategy)
    {
      this.strategy := strategy;
      sampledState, hasSample, snapshotState, hasSnapshot := false, false, false, false;
      latestState, latestDirty, latestGeneration, latestTransition := false, false, 0, None;
      transitions, nextTransitionId, nextSnapshotMs, nextHeartbeatMs, pending := [], 1, 0, 0, None;
    }

    method Sample(now: int, physical: bool)
      modifies this
      ensures Current() == Sampled(old(Current()), now, physical)
    {
      hide SnapshotTaken, Noticed, Event, Dirty;

      var event := Notice(now, physical);
      if strategy == Green || strategy == Hybrid {
        MarkLatest();
        latestTransition := event;
        if strategy == Hybrid && event.Some? {
          transitions := transitions + [event.value];
        }
        return;
      }
      if event.Some? {
        transitions := transitions + [event.value];
      }
      TakeSnapshot(now, physical, event.Some?);
    }

    method Notice(now: int, physical: bool) returns (event: Option<Transition>)
      modifies this`nextTransitionId, this`latestState, this`sampledState, this`hasSample
      ensures event == Event(old(Current()), now, physical)
      ensures Current() == Noticed(old(Current()), now, physical)
    {
      var transition := hasSample && physical != sampledState;
      event := None;
      if transition {
        event := Some(Transition(nextTransitionId, physical, now));
        nextTransitionId := nextTransitionId + 1;
      }
      latestState := physical;
      sampledState := physical;
      hasSample := true;
    }

    method MarkLatest()
      modifies this`latestDirty, this`latestGeneration
      ensures Current() == Dirty(old(Current()))
    {
      latestDirty := true;
      latestGeneration := latestGeneration + 1;
    }

    method TakeSnapshot(now: int, physical: bool, transition: bool)
      modifies this`latestDirty, this`latestGeneration, this`snapshotState, this`hasSnapshot,
        this`nextSnapshotMs, this`nextHeartbeatMs
      ensures Current() == SnapshotTaken(old(Current()), now, physical, transition)
    {
      hide Dirty, Scheduled;
      DirtyFields(Current());
      var snapshotDue, heartbeatDue := now >= nextSnapshotMs, now >= nextHeartbeatMs;
      var snapshotChanged := !hasSnapshot || physical != snapshotState;
      var markLatest := snapshotDue && (strategy == Complex || snapshotChanged);
      var forceLatest := heartbeatDue && strategy == Old;
      if transition || markLatest || forceLatest {
        MarkLatest();
      }
      Schedule(now, physical, snapshotDue, heartbeatDue);
    }

    method Schedule(now: int, physical: bool, snapshotDue: bool, heartbeatDue: bool)
      requires snapshotDue == (now >= nextSnapshotMs) && heartbeatDue == (now >= nextHeartbeatMs)
      modifies this`snapshotState, this`hasSnapshot, this`nextSnapshotMs, this`nextHeartbeatMs
      ensures Current() == Scheduled(old(Current()), now, physical)
    {
      if snapshotDue {
        snapshotState := physical;
        hasSnapshot := true;
        nextSnapshotMs := now + SNAPSHOT_MS;
      }
      if heartbeatDue {
        nextHeartbeatMs := now + OLD_HEARTBEAT_MS;
      }
    }

    /** What there is to send; edges that are too old are dropped on the way. */
    method MakePacket(now: int) returns (packet: Option<Packet>)
      modifies this`transitions
      ensures Current() == AfterExpiry(old(Current()), now) && packet == Offer(Current())
    {
      if strategy == Hybrid {
        ghost var journal := transitions;
        while transitions != [] && now - transitions[0].occurredMs > TRANSITION_TTL_MS
          invariant Expired(transitions, now) == Expired(journal, now)
          decreases |transitions|
        {
          transitions := transitions[1..];
        }
        if transitions != [] {
          var transition := transitions[0];
          return Some(Packet([transition.state], [transition], transition.ident, 0, false));
        }
      }
      if strategy == Green || strategy == Hybrid {
        if !latestDirty {
          return None;
        }
        var carried := if latestTransition.Some? then [latestTransition.value] else [];
        return Some(Packet([latestState], carried, 0, latestGeneration, true));
      }
      if transitions == [] && !latestDirty {
        return None;
      }
      var sent := if |transitions| > MAX_TRANSITIONS then transitions[..MAX_TRANSITIONS] else transitions;
      var frames := States(sent);
      var includesLatest := |sent| == |transitions|;
      if includesLatest && latestDirty {
        if frames == [] || frames[|frames| - 1] != latestState {
          frames := frames + [latestState];
        }
      }
      packet := Some(Packet(
        frames, sent, if sent == [] then 0 else sent[|sent| - 1].ident,
        if includesLatest then latestGeneration else 0, includesLatest));
    }

    method RefreshPending(now: int)
      modifies this`transitions, this`pending
      ensures Current() == Refreshed(old(Current()), now)
    {
      hide Offer, Expired;
      if strategy == Hybrid && pending.Some? && pending.value.transitions != []
        && now - pending.value.transitions[0].occurredMs > TRANSITION_TTL_MS
      {
        pending := None;
      }
      var candidate := MakePacket(now);
      if candidate.None? {
        return;
      }
      if pending.None? {
        pending := candidate;
      } else if strategy == Hybrid {
        var pendingTransition, candidateTransition := pending.value.transitions != [], candidate.value.transitions != [];
        if (!pendingTransition && candidateTransition)
          || (!pendingTransition && candidate.value.Revision() != pending.value.Revision())
        {
          pending := candidate;
        }
      } else if strategy != Old && candidate.value.Revision() != pending.value.Revision() {
        pending := candidate;
      }
    }

    method CommitPending() returns (sent: Packet)
      requires pending.Some?
      modifies this`transitions, this`latestDirty, this`pending
      ensures Current() == Committed(old(Current())) && sent == old(pending).value
    {
      sent := pending.value;
      if strategy != Green && sent.lastTransitionId != 0 {
        transitions := After(transitions, sent.lastTransitionId);
      }
      if sent.includesLatest && sent.latestGeneration == latestGeneration {
        latestDirty := false;
      }
      pending := None;
    }
  }
}
