/**
  What the two older strategies put into the frames of their packets, the only thing that the receiver applies: delivered
  in order, the frames take the receiver through every sampled edge and leave it at the newest sample.
 */
module InputOlder {
  import opened Wrappers
  import opened InputDelivery
  import opened InputRuns

  /** The button after the first k edges. */
  function StateAfter(samples: seq<Reading>, k: nat): bool
    requires samples != [] && k <= |Edges(samples)|
  {
    if k == 0 then samples[0].state else Edges(samples)[k - 1].state
  }

  /**
    A packet with edges carries the next edges in order, and their states and nothing else as frames; one without edges
    carries the state that the edges before it have led to.
   */
  ghost predicate Continues(samples: seq<Reading>, k: nat, p: Packet) {
    var n := |p.transitions|;
    samples != [] && k + n <= |Edges(samples)| && p.transitions == Edges(samples)[k..k + n]
    && p.frames == if n == 0 then [StateAfter(samples, k)] else States(p.transitions)
  }

  ghost predicate AllContinue(w: World) {
    forall i :: 0 <= i < |w.sent| ==> Continues(w.samples, |Carried(w.sent[..i])|, w.sent[i].packet)
  }

  ghost predicate PendingContinues(w: World) {
    w.producer.pending.Some? ==> Continues(w.samples, |Carried(w.sent)|, w.producer.pending.value)
  }

  ghost predicate Older(w: World) {
    Conserved(w) && AllContinue(w) && PendingContinues(w) && (w.producer.latestDirty ==> w.samples != [])
  }

  // ----- Edges and states -----

  lemma {:induction false} LastEdge(samples: seq<Reading>)
    requires samples != []
    ensures StateAfter(samples, |Edges(samples)|) == samples[|samples| - 1].state
  {
    if |samples| > 1 {
      var front := samples[..|samples| - 1];
      LastEdge(front);
    }
  }

  lemma NoSamplesNoEdges(samples: seq<Reading>)
    requires Edges(samples) != []
    ensures samples != []
  {}

  lemma ContinuesStable(samples: seq<Reading>, r: Reading, k: nat, p: Packet)
    requires Continues(samples, k, p)
    ensures Continues(samples + [r], k, p)
  {
    hide Edges, States;
    EdgesAppend(samples, r);
    var n := |p.transitions|;
    assert Edges(samples + [r])[k..k + n] == Edges(samples)[k..k + n];
  }

  // ----- Another sample -----

  /** A sample first notes the edge and then takes the snapshot. */
  lemma SampledParts(s: State, now: int, physical: bool) returns (u: State)
    requires s.strategy.Old? || s.strategy.Complex?
    ensures Sampled(s, now, physical) == SnapshotTaken(u, now, physical, Event(s, now, physical).Some?)
    ensures u.strategy == s.strategy && u.latestDirty == s.latestDirty && u.latestGeneration == s.latestGeneration
    ensures u.nextSnapshotMs == s.nextSnapshotMs && u.nextHeartbeatMs == s.nextHeartbeatMs && u.hasSnapshot == s.hasSnapshot
  {
    hide SnapshotTaken, Event;
    u := Journaled(Noticed(s, now, physical), Event(s, now, physical));
  }

  lemma SnapshotMarks(s: State, now: int, physical: bool, transition: bool)
    ensures
      var t := SnapshotTaken(s, now, physical, transition);
      if Marks(s, now, physical, transition) then t.latestDirty && t.latestGeneration == s.latestGeneration + 1
      else t.latestDirty == s.latestDirty && t.latestGeneration == s.latestGeneration
    ensures
      var t := SnapshotTaken(s, now, physical, transition);
      t.nextSnapshotMs == (if now >= s.nextSnapshotMs then now + 16 else s.nextSnapshotMs)
      && t.nextHeartbeatMs == (if now >= s.nextHeartbeatMs then now + 250 else s.nextHeartbeatMs)
  {
    hide Marks;
  }

  lemma OlderSampled(s: State, now: int, physical: bool)
    requires s.strategy.Old? || s.strategy.Complex?
    ensures
      var t := Sampled(s, now, physical);
      t.latestGeneration >= s.latestGeneration && (s.latestDirty ==> t.latestDirty)
      && (t.latestGeneration > s.latestGeneration ==> t.latestDirty)
  {
    hide Event, Sampled, SnapshotTaken, Marks;
    var u := SampledParts(s, now, physical);
    SnapshotMarks(u, now, physical, Event(s, now, physical).Some?);
  }

  lemma OlderSample(w: World, now: int, physical: bool)
    requires Older(w) && w.clock <= now
    ensures Older(Step(w, Take(now, physical)))
  {
    hide Sampled, Edges, Sampling, Continues, Carried, Conserved;
    ConservedSample(w, now, physical);
    assert w.producer.strategy.Old? || w.producer.strategy.Complex? by { OlderStrategy(w); }
    SampledFields(w.producer, now, physical);
    var r := Reading(now, physical);
    forall i | 0 <= i < |w.sent|
      ensures Continues(w.samples + [r], |Carried(w.sent[..i])|, w.sent[i].packet)
    {
      ContinuesStable(w.samples, r, |Carried(w.sent[..i])|, w.sent[i].packet);
    }
    if w.producer.pending.Some? {
      ContinuesStable(w.samples, r, |Carried(w.sent)|, w.producer.pending.value);
    }
  }

  lemma OlderStrategy(w: World)
    requires Conserved(w)
    ensures w.producer.strategy.Old? || w.producer.strategy.Complex?
  {}

  // ----- A turn of the pump -----

  /** What is offered goes on where the edges that were sent end; the state alone is added only if there is no edge. */
  lemma OfferContinues(w: World, candidate: Packet)
    requires Older(w) && Offer(w.producer) == Some(candidate)
    ensures Continues(w.samples, |Carried(w.sent)|, candidate)
  {
    hide Edges, States, Carried, Offer;
    var s, k, all := w.producer, |Carried(w.sent)|, Edges(w.samples);
    var n := |candidate.transitions|;
    OfferParts(s, candidate);
    assert all[k..] == s.transitions;
    assert candidate.transitions == all[k..k + n];
    if all != [] {
      NoSamplesNoEdges(w.samples);
    }
    LastEdge(w.samples);
    if n > 0 && n == |s.transitions| {
      assert s.transitions[n - 1] == all[|all| - 1];
    }
  }

  /** The first edges of the journal, 29 at most; the latest state goes in if no edge is left behind. */
  lemma OfferParts(s: State, p: Packet)
    requires (s.strategy.Old? || s.strategy.Complex?) && Offer(s) == Some(p)
    ensures
      var n := |p.transitions|;
      n == (if |s.transitions| > 29 then 29 else |s.transitions|) && p.transitions == s.transitions[..n]
      && p.includesLatest == (n == |s.transitions|) && (n == 0 ==> s.latestDirty && p.frames == [s.latestState])
      && (n > 0 ==>
          p.frames == States(p.transitions)
          || (n == |s.transitions| && s.transitions[n - 1].state != s.latestState))
      && (p.includesLatest ==> p.latestGeneration == s.latestGeneration)
  {
    hide States;
  }

  lemma OlderRefresh(w: World, now: int)
    requires Older(w)
    ensures Older(w.(producer := Refreshed(w.producer, now)))
  {
    hide Edges, Carried, Continues, Offer, Replaces, Sampling;
    RefreshedPrefix(w.producer, now);
    RefreshedFields(w.producer, now);
    var s, t := w.producer, Refreshed(w.producer, now);
    assert Sampling(w.(producer := t)) by { SamplingKept(w, t); }
    if Offer(s).Some? {
      OfferContinues(w, Offer(s).value);
    }
  }

  lemma SamplingKept(w: World, t: State)
    requires Sampling(w) && SameSamples(w.producer, t)
    ensures Sampling(w.(producer := t))
  {
    hide Edges;
  }

  lemma AllContinueAppend(w: World, x: Sent)
    requires AllContinue(w) && Continues(w.samples, |Carried(w.sent)|, x.packet)
    ensures AllContinue(w.(sent := w.sent + [x]))
  {
    hide Continues, Carried;
    var sent := w.sent + [x];
    forall i | 0 <= i < |sent|
      ensures Continues(w.samples, |Carried(sent[..i])|, sent[i].packet)
    {
      assert sent[..i] == w.sent[..i];
      assert w.sent[..|w.sent|] == w.sent;
    }
  }

  lemma OlderPump(w: World, now: int, blocked: bool)
    requires Older(w) && w.clock <= now
    ensures Older(Step(w, Pump(now, blocked)))
  {
    hide Refreshed, Committed, Edges, Sampling, Continues, Carried, Conserved, AllContinue;
    OlderRefresh(w, now);
    ConservedPump(w, now, blocked);
    RefreshedFields(w.producer, now);
    var t := Refreshed(w.producer, now);
    SameWorld(w, t, now);
    if t.pending.Some? && !blocked {
      AllContinueAppend(w, Sent(t.pending.value, now, Stamp(w.samples, t.pending.value)));
      CommittedFields(t);
      OlderStrategy(w);
      CommittedJournal(t);
      SameWorld(w.(sent := w.sent + [Sent(t.pending.value, now, Stamp(w.samples, t.pending.value))]), Committed(t), now);
    }
  }

  lemma SameWorld(w: World, t: State, now: int)
    ensures AllContinue(w.(producer := t, clock := now)) == AllContinue(w)
  {}

  lemma {:induction false} RunOlder(w: World, actions: seq<Action>)
    requires Older(w) && Timely(w.clock, actions)
    ensures Older(Run(w, actions))
    decreases |actions|
  {
    hide Older, Step;
    if actions != [] {
      StepClock(w, actions[0]);
      match actions[0] {
        case Take(now, physical) => OlderSample(w, now, physical);
        case Pump(now, blocked) => OlderPump(w, now, blocked);
      }
      RunOlder(Step(w, actions[0]), actions[1..]);
    }
  }

  /** In every run, every packet goes on where the one before it ended. */
  lemma OlderRuns(strategy: Strategy, clock: int, actions: seq<Action>)
    requires (strategy.Old? || strategy.Complex?) && Timely(clock, actions)
    ensures
      var w := Run(Start(strategy, clock), actions);
      AllContinue(w) && Carried(w.sent) + w.producer.transitions == Edges(w.samples)
  {
    hide Run, AllContinue;
    assert Older(Start(strategy, clock)) by { NothingYet(strategy, clock); }
    RunOlder(Start(strategy, clock), actions);
  }

  lemma NothingYet(strategy: Strategy, clock: int)
    requires strategy.Old? || strategy.Complex?
    ensures Older(Start(strategy, clock))
  {}

  // ----- The receiver, in order -----

  /** All frames of the packets, in the order of sending. */
  function Shown(sent: seq<Sent>): seq<bool> {
    if sent == [] then [] else Shown(sent[..|sent| - 1]) + sent[|sent| - 1].packet.frames
  }

  /** The frames that change the state. */
  function Changes(state: bool, frames: seq<bool>): seq<bool>
    decreases |frames|
  {
    if frames == [] then []
    else (if frames[0] != state then [frames[0]] else []) + Changes(frames[0], frames[1..])
  }

  function Last(state: bool, frames: seq<bool>): bool {
    if frames == [] then state else frames[|frames| - 1]
  }

  lemma ChangesCons(state: bool, frames: seq<bool>)
    requires frames != []
    ensures Changes(state, frames) == (if frames[0] != state then [frames[0]] else []) + Changes(frames[0], frames[1..])
    ensures Last(state, frames) == Last(frames[0], frames[1..])
  {}

  lemma {:induction false} ChangesAppend(state: bool, a: seq<bool>, b: seq<bool>)
    ensures Changes(state, a + b) == Changes(state, a) + Changes(Last(state, a), b)
    decreases |a|
  {
    hide Changes, Last;
    NothingShown(state);
    if a == [] {
      assert a + b == b;
    } else {
      ChangesAppend(a[0], a[1..], b);
      ChangesCons(state, a);
      ChangesCons(state, a + b);
      assert (a + b)[1..] == a[1..] + b;
      var head := if a[0] != state then [a[0]] else [];
      assert head + (Changes(a[0], a[1..]) + Changes(Last(state, a), b)) == head + Changes(a[0], a[1..]) + Changes(Last(state, a), b);
    }
  }

  /** Every edge changes the state. */
  lemma {:induction false} EdgesAlternate(samples: seq<Reading>, k: nat)
    requires samples != [] && k < |Edges(samples)|
    ensures Edges(samples)[k].state != StateAfter(samples, k)
  {
    var front := samples[..|samples| - 1];
    LastEdge(front);
    if k < |Edges(front)| {
      EdgesAlternate(front, k);
    }
  }

  /** Frames of edges one after the other change the state each time. */
  lemma {:induction false} EdgesChange(samples: seq<Reading>, k: nat, n: nat)
    requires samples != [] && k + n <= |Edges(samples)|
    ensures
      var frames := States(Edges(samples)[k..k + n]);
      Changes(StateAfter(samples, k), frames) == frames && Last(StateAfter(samples, k), frames) == StateAfter(samples, k + n)
    decreases n
  {
    hide Edges, Changes, Last;
    var edges := Edges(samples)[k..k + n];
    NothingShown(StateAfter(samples, k));
    if n > 0 {
      EdgesAlternate(samples, k);
      EdgesChange(samples, k + 1, n - 1);
      assert edges[1..] == Edges(samples)[k + 1..k + 1 + (n - 1)];
      assert States(edges)[1..] == States(edges[1..]);
      assert StateAfter(samples, k + 1) == edges[0].state == States(edges)[0];
      ChangesCons(StateAfter(samples, k), States(edges));
      assert [States(edges)[0]] + States(edges)[1..] == States(edges);
    } else {
      assert edges == [];
    }
  }

  lemma StatesAppend(a: seq<Transition>, b: seq<Transition>)
    ensures States(a + b) == States(a) + States(b)
  {}

  lemma ShownNext(sent: seq<Sent>, i: nat)
    requires i < |sent|
    ensures Shown(sent[..i + 1]) == Shown(sent[..i]) + sent[i].packet.frames
    ensures Carried(sent[..i + 1]) == Carried(sent[..i]) + sent[i].packet.transitions
  {
    assert sent[..i + 1][..i] == sent[..i];
  }

  /** The frames show the edges so far, and leave the state that those lead to. */
  ghost predicate ShowsEdges(samples: seq<Reading>, shown: seq<bool>, carried: seq<Transition>)
    requires samples != []
  {
    |carried| <= |Edges(samples)| && Changes(samples[0].state, shown) == States(carried)
    && Last(samples[0].state, shown) == StateAfter(samples, |carried|)
  }

  lemma ShowsNext(samples: seq<Reading>, shown: seq<bool>, carried: seq<Transition>, p: Packet)
    requires samples != [] && ShowsEdges(samples, shown, carried) && Continues(samples, |carried|, p)
    ensures ShowsEdges(samples, shown + p.frames, carried + p.transitions) && p.frames != []
  {
    hide Edges, Changes, States, StateAfter;
    var s0, k := samples[0].state, |carried|;
    ChangesAppend(s0, shown, p.frames);
    StatesAppend(carried, p.transitions);
    EdgesChange(samples, k, |p.transitions|);
    SameFrame(StateAfter(samples, k));
    NoStates(p.transitions);
    if p.transitions == [] {
      assert States(carried) + [] == States(carried) && carried + p.transitions == carried;
    }
  }

  /** The changes that i packets show are the edges that they carry, and they leave the state that those lead to. */
  lemma {:induction false} ShownEdges(w: World, i: nat)
    requires AllContinue(w) && i <= |w.sent| && w.samples != []
    ensures ShowsEdges(w.samples, Shown(w.sent[..i]), Carried(w.sent[..i])) && (i > 0 ==> Shown(w.sent[..i]) != [])
  {
    hide Edges, Carried, Shown, Changes, States, ShowsEdges, Continues;
    if i == 0 {
      NothingShown(w.samples[0].state);
      assert w.sent[..0] == [];
      assert ShowsEdges(w.samples, [], []) by { NoneShown(w.samples); }
    } else {
      ShownEdges(w, i - 1);
      ShownNext(w.sent, i - 1);
      ShowsNext(w.samples, Shown(w.sent[..i - 1]), Carried(w.sent[..i - 1]), w.sent[i - 1].packet);
    }
  }

  lemma NoneShown(samples: seq<Reading>)
    requires samples != []
    ensures ShowsEdges(samples, [], [])
  {
    NothingShown(samples[0].state);
  }

  lemma NoStates(t: seq<Transition>)
    ensures |States(t)| == |t|
  {}

  lemma SameFrame(state: bool)
    ensures Changes(state, [state]) == []
  {
    assert Changes(state, []) == [];
  }

  lemma NothingShown(state: bool)
    ensures Carried([]) == [] && Shown([]) == [] && Changes(state, []) == [] && Last(state, []) == state && States([]) == []
  {}

  /**
    Delivered in order, the frames of a run change the receiver's state exactly at the sampled edges that were sent, all
    of them and in order.
   */
  lemma FramesFollowEdges(strategy: Strategy, clock: int, actions: seq<Action>)
    requires (strategy.Old? || strategy.Complex?) && Timely(clock, actions)
    ensures
      var w := Run(Start(strategy, clock), actions);
      w.sent != [] ==> w.samples != [] && Changes(w.samples[0].state, Shown(w.sent)) + States(w.producer.transitions) == States(Edges(w.samples))
  {
    hide Run, AllContinue, Edges, Carried, Shown, States, Changes;
    var w := Run(Start(strategy, clock), actions);
    OlderRuns(strategy, clock, actions);
    if w.sent != [] {
      SentSampled(w);
      ShownEdges(w, |w.sent|);
      assert w.sent[..|w.sent|] == w.sent;
      StatesAppend(Carried(w.sent), w.producer.transitions);
    }
  }

  lemma SentSampled(w: World)
    requires AllContinue(w) && w.sent != []
    ensures w.samples != []
  {
    hide Carried, Edges;
    assert Continues(w.samples, |Carried(w.sent[..0])|, w.sent[0].packet);
  }

  // ----- In step -----

  /** From time 0 on the first sample is marked as new, and only sending takes the mark off. */
  ghost predicate Begun(w: World) {
    var s := w.producer;
    w.clock >= 0 && (s.strategy.Old? || s.strategy.Complex?)
    && (w.samples == [] ==> s.nextSnapshotMs == 0 && !s.hasSnapshot)
    && (w.samples != [] && w.sent == [] ==> s.latestDirty)
  }

  lemma FirstSampleMarks(s: State, now: int, physical: bool)
    requires (s.strategy.Old? || s.strategy.Complex?) && s.nextSnapshotMs <= now && !s.hasSnapshot
    ensures Sampled(s, now, physical).latestDirty
  {
    hide Event, Sampled, SnapshotTaken;
    var u := SampledParts(s, now, physical);
    SnapshotMarks(u, now, physical, Event(s, now, physical).Some?);
  }

  lemma RefreshedSchedule(s: State, now: int)
    ensures
      var t := Refreshed(s, now);
      t == s.(pending := t.pending, transitions := t.transitions)
  {
    hide Offer, Replaces, AfterExpiry, AfterGivingUp;
    GivingUpFields(s, now);
    ExpiryFields(AfterGivingUp(s, now), now);
  }

  lemma CommittedSchedule(s: State)
    requires s.pending.Some?
    ensures
      var t := Committed(s);
      t.nextSnapshotMs == s.nextSnapshotMs && t.nextHeartbeatMs == s.nextHeartbeatMs && t.hasSnapshot == s.hasSnapshot
      && t.strategy == s.strategy
  {
    hide After;
    var sent := s.pending.value;
    var t :=
      if s.strategy != Green && sent.lastTransitionId != 0
      then s.(transitions := After(s.transitions, sent.lastTransitionId)) else s;
    if sent.includesLatest && sent.latestGeneration == t.latestGeneration {
      assert Committed(s) == t.(latestDirty := false).(pending := None);
    } else {
      assert Committed(s) == t.(pending := None);
    }
  }

  lemma BegunStep(w: World, action: Action)
    requires Begun(w) && w.clock <= action.now
    ensures Begun(Step(w, action))
  {
    hide Sampled, Refreshed, Committed;
    match action
    case Take(now, physical) =>
      SampledFields(w.producer, now, physical);
      OlderSampled(w.producer, now, physical);
      if w.samples == [] {
        FirstSampleMarks(w.producer, now, physical);
      }
    case Pump(now, blocked) =>
      RefreshedFields(w.producer, now);
      RefreshedSchedule(w.producer, now);
      var t := Refreshed(w.producer, now);
      if t.pending.Some? {
        CommittedSchedule(t);
        CommittedFields(t);
      }
  }

  lemma {:induction false} RunBegun(w: World, actions: seq<Action>)
    requires Begun(w) && Timely(w.clock, actions)
    ensures Begun(Run(w, actions))
    decreases |actions|
  {
    hide Begun, Step;
    if actions != [] {
      StepClock(w, actions[0]);
      BegunStep(w, actions[0]);
      RunBegun(Step(w, actions[0]), actions[1..]);
    }
  }

  /** Once no edge waits and nothing is new, a receiver that got every packet in order shows the newest sample. */
  lemma InStep(strategy: Strategy, clock: nat, actions: seq<Action>)
    requires (strategy.Old? || strategy.Complex?) && Timely(clock, actions)
    ensures
      var w := Run(Start(strategy, clock), actions);
      w.samples != [] && w.producer.transitions == [] && !w.producer.latestDirty ==>
      Shown(w.sent) != [] && Last(false, Shown(w.sent)) == w.samples[|w.samples| - 1].state
  {
    hide Run, AllContinue, Edges, Carried, Shown, States, Changes;
    var w := Run(Start(strategy, clock), actions);
    OlderRuns(strategy, clock, actions);
    assert Begun(Start(strategy, clock));
    RunBegun(Start(strategy, clock), actions);
    if w.samples != [] && w.producer.transitions == [] && !w.producer.latestDirty {
      ShownEdges(w, |w.sent|);
      assert w.sent[..|w.sent|] == w.sent;
      LastEdge(w.samples);
      assert Carried(w.sent) + [] == Carried(w.sent);
    }
  }

  /** The loop over packets that arrive in the order of sending: every frame is applied. */
  method DeliverAll(receiver: Receiver, sent: seq<Sent>, first: nat)
    requires receiver.lastServerSequence < first
    modifies receiver
    ensures receiver.serverState == Last(old(receiver.serverState), Shown(sent))
    ensures receiver.lastServerSequence == if sent == [] then old(receiver.lastServerSequence) else first + |sent| - 1
  {
    assert sent[..0] == [];
    for i := 0 to |sent|
      invariant receiver.serverState == Last(old(receiver.serverState), Shown(sent[..i]))
      invariant receiver.lastServerSequence == if i == 0 then old(receiver.lastServerSequence) else first + i - 1
    {
      ShownNext(sent, i);
      receiver.Deliver(sent[i].packet, first + i);
    }
    assert sent[..|sent|] == sent;
  }

  // ----- What is sent, and when -----

  lemma OfferMade(s: State, now: int)
    requires s.strategy.Old? || s.strategy.Complex?
    ensures Offer(s).Some? <==> s.transitions != [] || s.latestDirty
    ensures Refreshed(s, now).pending.Some? <==> s.pending.Some? || Offer(s).Some?
  {
    hide States, Replaces;
  }

  /** A free pump sends exactly when a packet or an edge waits or something is new. */
  lemma OlderPumpSends(w: World, now: int)
    requires w.producer.strategy.Old? || w.producer.strategy.Complex?
    ensures
      var s := w.producer;
      |Step(w, Pump(now, false)).sent| > |w.sent| <==> s.pending.Some? || s.transitions != [] || s.latestDirty
  {
    hide Refreshed, Committed, Offer, Stamp;
    OfferMade(w.producer, now);
  }

  /** The older of the two never touches what is pending ... */
  lemma OldKeepsPending(w: World, now: int)
    requires w.producer.strategy.Old? && w.producer.pending.Some?
    ensures Refreshed(w.producer, now).pending == w.producer.pending
  {
    hide Offer;
  }

  /** Packets of one revision, both going on after k edges, carry the same edges and frames. */
  lemma SameRevision(samples: seq<Reading>, k: nat, p: Packet, c: Packet)
    requires Continues(samples, k, p) && Continues(samples, k, c) && p.lastTransitionId == c.lastTransitionId
    requires p.lastTransitionId == if p.transitions == [] then 0 else p.transitions[|p.transitions| - 1].ident
    requires c.lastTransitionId == if c.transitions == [] then 0 else c.transitions[|c.transitions| - 1].ident
    ensures p.transitions == c.transitions && p.frames == c.frames
  {
    hide Edges, States, StateAfter;
    var all := Edges(samples);
    EdgesNumbered(samples);
    assert p.transitions != [] ==> p.transitions[|p.transitions| - 1] == all[k + |p.transitions| - 1];
    assert c.transitions != [] ==> c.transitions[|c.transitions| - 1] == all[k + |c.transitions| - 1];
  }

  /** ... and the newer one sends what a packet made at this moment would say. */
  lemma ComplexUpToDate(w: World, now: int)
    requires Older(w) && w.producer.strategy.Complex? && Offer(w.producer).Some?
    ensures
      var p, c := Refreshed(w.producer, now).pending, Offer(w.producer).value;
      p.Some? && p.value.Revision() == c.Revision() && p.value.transitions == c.transitions && p.value.frames == c.frames
  {
    hide Offer, Edges, Carried, Sampling, Refreshed, Continues;
    var c := Offer(w.producer).value;
    OfferContinues(w, c);
    OlderRefresh(w, now);
    OfferRevision(w.producer, c);
    RefreshedPrefix(w.producer, now);
    SameRevision(w.samples, |Carried(w.sent)|, Refreshed(w.producer, now).pending.value, c);
  }

  lemma OfferRevision(s: State, p: Packet)
    requires (s.strategy.Old? || s.strategy.Complex?) && Offer(s) == Some(p)
    ensures p.lastTransitionId == if p.transitions == [] then 0 else p.transitions[|p.transitions| - 1].ident
    ensures s.strategy.Complex? ==> forall now :: Refreshed(s, now).pending.Some? && Refreshed(s, now).pending.value.Revision() == p.Revision()
  {
    hide States;
  }

  // ----- Heartbeats -----

  /** The period of repeated states: 250 ms, or 16 ms. */
  function Period(strategy: Strategy): int {
    if strategy.Old? then 250 else 16
  }

  /** When the next repetition is due. */
  function Due(s: State): int {
    if s.strategy.Old? then s.nextHeartbeatMs else s.nextSnapshotMs
  }

  /** A sample marks the state as new when a repetition is due, and else leaves the time as it is. */
  lemma SampleBeats(s: State, now: int, physical: bool)
    requires s.strategy.Old? || s.strategy.Complex?
    ensures
      var t := Sampled(s, now, physical);
      if now >= Due(s) then t.latestDirty && t.latestGeneration > s.latestGeneration && Due(t) == now + Period(s.strategy)
      else Due(t) == Due(s)
  {
    hide Event, Sampled, SnapshotTaken;
    var u := SampledParts(s, now, physical);
    SampledFields(s, now, physical);
    SnapshotMarks(u, now, physical, Event(s, now, physical).Some?);
  }

  lemma PumpBeats(s: State, now: int)
    requires s.strategy.Old? || s.strategy.Complex?
    ensures
      var t := Refreshed(s, now);
      Due(t) == Due(s) && (t.pending.Some? ==> Due(Committed(t)) == Due(s))
  {
    hide Refreshed, Committed;
    RefreshedSchedule(s, now);
    if Refreshed(s, now).pending.Some? {
      CommittedSchedule(Refreshed(s, now));
    }
  }

  lemma BeatStep(w: World, action: Action)
    requires w.producer.strategy.Old? || w.producer.strategy.Complex?
    ensures
      var v := Step(w, action);
      v.producer.strategy == w.producer.strategy && v.producer.latestGeneration >= w.producer.latestGeneration
      && (if action.Take? && action.now >= Due(w.producer) then v.producer.latestGeneration > w.producer.latestGeneration
          else Due(v.producer) == Due(w.producer))
  {
    hide Sampled, Refreshed, Committed, Due, Stamp;
    match action
    case Take(now, physical) =>
      SampledFields(w.producer, now, physical);
      OlderSampled(w.producer, now, physical);
      SampleBeats(w.producer, now, physical);
    case Pump(now, blocked) =>
      RefreshedFields(w.producer, now);
      PumpBeats(w.producer, now);
      var t := Refreshed(w.producer, now);
      if t.pending.Some? {
        CommittedFields(t);
      }
  }

  /** After every mark the state is marked as new again by the time that a sample is one period older. */
  lemma {:induction false} Repeats(w: World, actions: seq<Action>)
    requires (w.producer.strategy.Old? || w.producer.strategy.Complex?)
    requires exists i :: 0 <= i < |actions| && actions[i].Take? && actions[i].now >= Due(w.producer)
    ensures Run(w, actions).producer.latestGeneration > w.producer.latestGeneration
    decreases |actions|
  {
    hide Step, Due;
    var i :| 0 <= i < |actions| && actions[i].Take? && actions[i].now >= Due(w.producer);
    var v := Step(w, actions[0]);
    BeatStep(w, actions[0]);
    if v.producer.latestGeneration > w.producer.latestGeneration {
      NeverFewer(v, actions[1..]);
    } else {
      assert actions[1..][i - 1] == actions[i];
      Repeats(v, actions[1..]);
    }
  }

  lemma {:induction false} NeverFewer(w: World, actions: seq<Action>)
    requires w.producer.strategy.Old? || w.producer.strategy.Complex?
    ensures Run(w, actions).producer.latestGeneration >= w.producer.latestGeneration
    decreases |actions|
  {
    hide Step, Due;
    if actions != [] {
      BeatStep(w, actions[0]);
      NeverFewer(Step(w, actions[0]), actions[1..]);
    }
  }
}
