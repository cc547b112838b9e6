/**
  Whole runs of the gamepad producer and a lossy, reordering channel: which edges are delivered, in which
  order, how old they are, and what the receiver makes of them.
 */
module InputRuns {
  import opened Wrappers
  import opened InputDelivery

  // ----- Samples and their edges -----

  datatype Reading = Reading(now: int, state: bool)

  /** All edges of a sequence of samples, numbered from 1. */
  function Edges(samples: seq<Reading>): seq<Transition> {
    var n := |samples|;
    if n <= 1 then []
    else
      var rest := Edges(samples[..n - 1]);
      if samples[n - 1].state != samples[n - 2].state
      then rest + [Transition(|rest| + 1, samples[n - 1].state, samples[n - 1].now)] else rest
  }

  /** How many edges the first g samples hold. */
  function EdgeCount(samples: seq<Reading>, g: nat): nat
    requires g <= |samples|
  {
    |Edges(samples[..g])|
  }

  lemma {:induction false} EdgesPrefix(samples: seq<Reading>, g: nat)
    requires g <= |samples|
    ensures Edges(samples[..g]) <= Edges(samples)
  {
    if g < |samples| {
      EdgesPrefix(samples[..|samples| - 1], g);
      assert samples[..|samples| - 1][..g] == samples[..g];
    } else {
      assert samples[..g] == samples;
    }
  }

  lemma {:induction false} EdgesNumbered(samples: seq<Reading>)
    ensures forall i :: 0 <= i < |Edges(samples)| ==> Edges(samples)[i].ident == i + 1
  {
    if |samples| > 1 {
      EdgesNumbered(samples[..|samples| - 1]);
    }
  }

  lemma EdgesAppend(samples: seq<Reading>, x: Reading)
    ensures Edges(samples + [x]) ==
      if samples != [] && x.state != samples[|samples| - 1].state
      then Edges(samples) + [Transition(|Edges(samples)| + 1, x.state, x.now)] else Edges(samples)
  {
    assert (samples + [x])[..|samples|] == samples;
  }

  /** The number of samples up to and including the edge with this identifier. */
  function EdgeGeneration(samples: seq<Reading>, ident: nat): (g: nat)
    requires 1 <= ident <= |Edges(samples)|
    ensures 2 <= g <= |samples| && EdgeCount(samples, g) == ident && EdgeCount(samples, g - 1) == ident - 1
    ensures Edges(samples)[ident - 1] == Transition(ident, samples[g - 1].state, samples[g - 1].now)
  {
    var front := samples[..|samples| - 1];
    if ident <= |Edges(front)| then
      var g := EdgeGeneration(front, ident);
      assert front[..g] == samples[..g] && front[..g - 1] == samples[..g - 1];
      assert front[g - 1] == samples[g - 1];
      g
    else
      assert samples[..|samples|] == samples;
      |samples|
  }

  /** The edge that the g-th sample is, if it is one. */
  function EdgeAt(samples: seq<Reading>, g: nat): seq<Transition>
    requires g <= |samples|
  {
    if g >= 2 && samples[g - 1].state != samples[g - 2].state
    then [Transition(EdgeCount(samples, g), samples[g - 1].state, samples[g - 1].now)] else []
  }

  // ----- Runs -----

  /** A packet that was sent, when, and the number of the sample whose state it carries. */
  datatype Sent = Sent(packet: Packet, at: int, stamp: nat)

  datatype World = World(producer: State, samples: seq<Reading>, sent: seq<Sent>, clock: int)

  datatype Action = Take(now: int, physical: bool) | Pump(now: int, blocked: bool)

  function Start(strategy: Strategy, clock: int): World {
    World(Initial(strategy), [], [], clock)
  }

  function Stamp(samples: seq<Reading>, packet: Packet): nat {
    if packet.includesLatest then packet.latestGeneration
    else if 1 <= packet.lastTransitionId <= |Edges(samples)| then EdgeGeneration(samples, packet.lastTransitionId)
    else 0
  }

  /** One turn of the pump: the pending packet is brought up to date and sent unless the link is blocked. */
  function Pumped(s: State, now: int, blocked: bool): (State, Option<Packet>) {
    var t := Refreshed(s, now);
    if t.pending.Some? && !blocked then (Committed(t), t.pending) else (t, None)
  }

  function Step(w: World, action: Action): World {
    match action
    case Take(now, physical) =>
      World(Sampled(w.producer, now, physical), w.samples + [Reading(now, physical)], w.sent, now)
    case Pump(now, blocked) =>
      var (s, packet) := Pumped(w.producer, now, blocked);
      World(s, w.samples,
            if packet.Some? then w.sent + [Sent(packet.value, now, Stamp(w.samples, packet.value))] else w.sent, now)
  }

  /** Time does not run backwards. */
  predicate Timely(clock: int, actions: seq<Action>)
    decreases |actions|
  {
    actions == [] || (clock <= actions[0].now && Timely(actions[0].now, actions[1..]))
  }

  function Run(w: World, actions: seq<Action>): World
    decreases |actions|
  {
    if actions == [] then w else Run(Step(w, actions[0]), actions[1..])
  }

  method PumpOnce(producer: Producer, now: int, blocked: bool) returns (sent: Option<Packet>)
    modifies producer
    ensures (producer.Current(), sent) == Pumped(old(producer.Current()), now, blocked)
  {
    hide Refreshed, Committed;
    producer.RefreshPending(now);
    sent := None;
    if producer.pending.Some? && !blocked {
      var packet := producer.CommitPending();
      sent := Some(packet);
    }
  }

  // ----- What all strategies keep -----

  /** The producer has seen the samples, and numbers the edges as Edges does. */
  ghost predicate Sampling(w: World) {
    var s, n := w.producer, |w.samples|;
    (s.hasSample <==> n > 0) && (n > 0 ==> s.sampledState == w.samples[n - 1].state == s.latestState)
    && s.nextTransitionId == |Edges(w.samples)| + 1
    && (forall i :: 0 <= i < n ==> w.samples[i].now <= w.clock)
    && (forall i, j :: 0 <= i < j < n ==> w.samples[i].now <= w.samples[j].now)
  }

  /** The journal holds the last of all edges. */
  ghost predicate Journal(w: World) {
    var e, k := Edges(w.samples), |w.producer.transitions|;
    k <= |e| && w.producer.transitions == e[|e| - k..]
  }

  /** The fields that snapshots and heartbeats leave alone. */
  predicate SameJournal(s: State, t: State) {
    t.strategy == s.strategy && t.hasSample == s.hasSample && t.sampledState == s.sampledState
    && t.latestState == s.latestState && t.nextTransitionId == s.nextTransitionId
    && t.latestTransition == s.latestTransition && t.transitions == s.transitions && t.pending == s.pending
  }

  lemma ScheduledFields(s: State, now: int, physical: bool)
    ensures SameJournal(s, Scheduled(s, now, physical))
  {}

  lemma SnapshotFields(s: State, now: int, physical: bool, transition: bool)
    ensures SameJournal(s, SnapshotTaken(s, now, physical, transition))
  {
    hide Scheduled, Marks;
    ScheduledFields(s, now, physical);
    ScheduledFields(Dirty(s), now, physical);
  }

  lemma SampledFields(s: State, now: int, physical: bool)
    ensures
      var t, event := Sampled(s, now, physical), Event(s, now, physical);
      t.strategy == s.strategy && t.hasSample && t.sampledState == physical == t.latestState && t.pending == s.pending
      && t.nextTransitionId == (if event.Some? then s.nextTransitionId + 1 else s.nextTransitionId)
      && t.transitions == if event.Some? && s.strategy != Green then s.transitions + [event.value] else s.transitions
  {
    hide SnapshotTaken, Event;
    var event := Event(s, now, physical);
    SnapshotFields(Journaled(Noticed(s, now, physical), event), now, physical, event.Some?);
  }

  /** What the pump leaves alone. */
  predicate SameSamples(s: State, t: State) {
    t.strategy == s.strategy && t.hasSample == s.hasSample && t.sampledState == s.sampledState
    && t.latestState == s.latestState && t.nextTransitionId == s.nextTransitionId
    && t.latestTransition == s.latestTransition && t.latestGeneration == s.latestGeneration
  }

  lemma RefreshedFields(s: State, now: int)
    ensures SameSamples(s, Refreshed(s, now)) && Refreshed(s, now).latestDirty == s.latestDirty
  {
    hide Offer, Replaces, AfterExpiry, AfterGivingUp;
    var t := AfterGivingUp(s, now);
    assert t == s.(pending := t.pending) by { GivingUpFields(s, now); }
    ExpiryFields(t, now);
  }

  lemma GivingUpFields(s: State, now: int)
    ensures AfterGivingUp(s, now) == s.(pending := AfterGivingUp(s, now).pending)
  {}

  lemma ExpiryFields(s: State, now: int)
    ensures AfterExpiry(s, now) == s.(transitions := AfterExpiry(s, now).transitions)
  {}

  lemma CommittedFields(s: State)
    requires s.pending.Some?
    ensures SameSamples(s, Committed(s)) && Committed(s).pending == None
  {
    hide After;
  }

  lemma SamplingSample(w: World, now: int, physical: bool)
    requires Sampling(w) && w.clock <= now
    ensures Sampling(Step(w, Take(now, physical)))
  {
    hide Sampled, Edges;
    EdgesAppend(w.samples, Reading(now, physical));
    SampledFields(w.producer, now, physical);
  }

  lemma SamplingPump(w: World, now: int, blocked: bool)
    requires Sampling(w) && w.clock <= now
    ensures Sampling(Step(w, Pump(now, blocked)))
  {
    hide Refreshed, Committed, Edges;
    RefreshedFields(w.producer, now);
    if Refreshed(w.producer, now).pending.Some? {
      CommittedFields(Refreshed(w.producer, now));
    }
  }

  // ----- Journals that forget nothing -----

  function Carried(sent: seq<Sent>): seq<Transition> {
    if sent == [] then [] else Carried(sent[..|sent| - 1]) + sent[|sent| - 1].packet.transitions
  }

  ghost predicate PrefixPending(s: State) {
    s.pending.Some? ==>
      var p := s.pending.value;
      p.transitions <= s.transitions
      && p.lastTransitionId == if p.transitions == [] then 0 else p.transitions[|p.transitions| - 1].ident
  }

  /** What was sent and the journal together are all edges, in order. */
  ghost predicate Conserved(w: World) {
    (w.producer.strategy.Old? || w.producer.strategy.Complex?)
    && Sampling(w) && PrefixPending(w.producer)
    && Carried(w.sent) + w.producer.transitions == Edges(w.samples)
  }

  lemma {:induction false} AfterNone(t: seq<Transition>, ident: nat)
    requires forall i :: 0 <= i < |t| ==> t[i].ident > ident
    ensures After(t, ident) == t
  {
    if t != [] {
      AfterNone(t[1..], ident);
    }
  }

  /** Forgetting everything up to the last edge of a prefix leaves the rest. */
  lemma {:induction false} AfterPrefix(t: seq<Transition>, k: nat)
    requires 0 < k <= |t| && forall i, j :: 0 <= i < j < |t| ==> t[i].ident < t[j].ident
    ensures After(t, t[k - 1].ident) == t[k..]
  {
    if k == 1 {
      AfterNone(t[1..], t[0].ident);
    } else {
      AfterPrefix(t[1..], k - 1);
      assert t[1..][k - 2] == t[k - 1];
    }
  }

  lemma ConservedSample(w: World, now: int, physical: bool)
    requires Conserved(w) && w.clock <= now
    ensures Conserved(Step(w, Take(now, physical)))
  {
    hide Sampled, Carried, Edges, Sampling;
    SamplingSample(w, now, physical);
    EdgesAppend(w.samples, Reading(now, physical));
    SampledFields(w.producer, now, physical);
    SampledEvent(w, now, physical);
    assert Carried(w.sent) + (w.producer.transitions + [Transition(|Edges(w.samples)| + 1, physical, now)])
      == Edges(w.samples) + [Transition(|Edges(w.samples)| + 1, physical, now)];
  }

  /** The edge that a sample makes has the next number. */
  lemma SampledEvent(w: World, now: int, physical: bool)
    requires Sampling(w)
    ensures Event(w.producer, now, physical) ==
      if w.samples != [] && physical != w.samples[|w.samples| - 1].state
      then Some(Transition(|Edges(w.samples)| + 1, physical, now)) else None
  {
    hide Edges;
  }

  lemma RefreshedPrefix(s: State, now: int)
    requires (s.strategy.Old? || s.strategy.Complex?) && PrefixPending(s)
    ensures Refreshed(s, now).transitions == s.transitions && PrefixPending(Refreshed(s, now))
  {
    hide States;
  }

  lemma CommittedPrefix(s: State, samples: seq<Reading>, front: seq<Transition>)
    requires (s.strategy.Old? || s.strategy.Complex?) && PrefixPending(s) && s.pending.Some?
    requires front + s.transitions == Edges(samples)
    ensures s.pending.value.transitions + Committed(s).transitions == s.transitions
  {
    hide Committed, Edges, After;
    var t := s.pending.value.transitions;
    EdgesNumbered(samples);
    forall i | 0 <= i < |s.transitions|
      ensures s.transitions[i].ident == |front| + i + 1
    {
      assert s.transitions[i] == Edges(samples)[|front| + i];
    }
    CommittedJournal(s);
    if t != [] {
      AfterPrefix(s.transitions, |t|);
      assert s.transitions[|t| - 1] == t[|t| - 1];
    }
  }

  lemma ConservedPump(w: World, now: int, blocked: bool)
    requires Conserved(w) && w.clock <= now
    ensures Conserved(Step(w, Pump(now, blocked)))
  {
    hide Refreshed, Committed, Edges, Sampling;
    SamplingPump(w, now, blocked);
    RefreshedPrefix(w.producer, now);
    RefreshedFields(w.producer, now);
    var t := Refreshed(w.producer, now);
    if t.pending.Some? && !blocked {
      CommittedPrefix(t, w.samples, Carried(w.sent));
      var next := Step(w, Pump(now, blocked));
      assert next.sent[..|w.sent|] == w.sent;
      assert Carried(next.sent) == Carried(w.sent) + t.pending.value.transitions;
      CommittedFields(t);
    }
  }

  lemma ConservedStep(w: World, action: Action)
    requires Conserved(w) && w.clock <= action.now
    ensures Conserved(Step(w, action))
  {
    hide Conserved, Step;
    match action
    case Take(now, physical) => ConservedSample(w, now, physical);
    case Pump(now, blocked) => ConservedPump(w, now, blocked);
  }

  /** The two older strategies lose no edge: what was sent, followed by the journal, is all that was sampled. */
  lemma {:induction false} RunConserves(w: World, actions: seq<Action>)
    requires Conserved(w) && Timely(w.clock, actions)
    ensures Conserved(Run(w, actions))
    decreases |actions|
  {
    hide Conserved, Step;
    if actions != [] {
      StepClock(w, actions[0]);
      ConservedStep(w, actions[0]);
      RunConserves(Step(w, actions[0]), actions[1..]);
    }
  }

  lemma StepClock(w: World, action: Action)
    ensures Step(w, action).clock == action.now
  {
    hide Refreshed, Committed, Sampled;
  }

  lemma AllEdgesConserved(strategy: Strategy, clock: int, actions: seq<Action>)
    requires (strategy.Old? || strategy.Complex?) && Timely(clock, actions)
    ensures
      var w := Run(Start(strategy, clock), actions);
      Carried(w.sent) + w.producer.transitions == Edges(w.samples)
  {
    RunConserves(Start(strategy, clock), actions);
  }

  // ----- The bounded journal -----

  /** The edges that were sent or given up. */
  ghost function Consumed(w: World): int {
    |Edges(w.samples)| - |w.producer.transitions|
  }

  predicate IsEdgePacket(p: Packet, e: Transition) {
    p == Packet([e.state], [e], e.ident, 0, false)
  }

  /** The state of sample g, taken when none of the edges up to it was waiting any more. */
  predicate IsLatestPacket(samples: seq<Reading>, consumed: int, p: Packet) {
    p.lastTransitionId == 0 && p.includesLatest && 1 <= p.latestGeneration <= |samples|
    && p.frames == [samples[p.latestGeneration - 1].state] && p.transitions == EdgeAt(samples, p.latestGeneration)
    && EdgeCount(samples, p.latestGeneration) <= consumed
  }

  ghost predicate PendingFits(w: World) {
    var s := w.producer;
    s.pending.Some? ==>
      || (s.transitions != [] && IsEdgePacket(s.pending.value, s.transitions[0]))
      || (IsLatestPacket(w.samples, Consumed(w), s.pending.value)
          && forall i :: 0 <= i < |w.sent| ==> w.sent[i].stamp <= s.pending.value.latestGeneration)
  }

  /** A packet carries the state of the sample that it is stamped with; an edge was at most 50 ms old. */
  predicate SentFits(samples: seq<Reading>, x: Sent) {
    var p := x.packet;
    1 <= x.stamp <= |samples| && p.frames == [samples[x.stamp - 1].state]
    && if p.includesLatest then
         p.lastTransitionId == 0 && p.latestGeneration == x.stamp && p.transitions == EdgeAt(samples, x.stamp)
       else
         1 <= p.lastTransitionId <= |Edges(samples)| && x.stamp == EdgeGeneration(samples, p.lastTransitionId)
         && p.transitions == [Edges(samples)[p.lastTransitionId - 1]]
         && 0 <= x.at - samples[x.stamp - 1].now <= TRANSITION_TTL_MS
  }

  predicate InOrder(x: Sent, y: Sent) {
    x.stamp <= y.stamp
    && (x.packet.lastTransitionId > 0 && y.packet.lastTransitionId > 0
        ==> x.packet.lastTransitionId < y.packet.lastTransitionId)
  }

  ghost predicate Delivered(samples: seq<Reading>, sent: seq<Sent>, consumed: int) {
    (forall i :: 0 <= i < |sent| ==> SentFits(samples, sent[i]) && EdgeCount(samples, sent[i].stamp) <= consumed)
    && forall i, j :: 0 <= i < j < |sent| ==> InOrder(sent[i], sent[j])
  }

  function AsSeq(event: Option<Transition>): seq<Transition> {
    if event.Some? then [event.value] else []
  }

  ghost predicate Latest(w: World) {
    w.producer.latestGeneration == |w.samples|
    && AsSeq(w.producer.latestTransition) == EdgeAt(w.samples, |w.samples|)
    && (w.producer.latestDirty ==> w.samples != [])
  }

  ghost predicate Hybrid50(w: World) {
    w.producer.strategy.Hybrid? && Sampling(w) && Journal(w) && Latest(w) && PendingFits(w) && Delivered(w.samples, w.sent, Consumed(w))
  }

  // ----- Another sample -----

  lemma CountStable(samples: seq<Reading>, r: Reading, g: nat)
    requires g <= |samples|
    ensures EdgeCount(samples + [r], g) == EdgeCount(samples, g) && EdgeAt(samples + [r], g) == EdgeAt(samples, g)
  {
    hide Edges;
    assert (samples + [r])[..g] == samples[..g];
  }

  lemma GenerationStable(samples: seq<Reading>, r: Reading, ident: nat)
    requires 1 <= ident <= |Edges(samples)|
    ensures ident <= |Edges(samples + [r])| && EdgeGeneration(samples + [r], ident) == EdgeGeneration(samples, ident)
    ensures Edges(samples + [r])[ident - 1] == Edges(samples)[ident - 1]
  {
    EdgesAppend(samples, r);
    assert (samples + [r])[..|samples|] == samples;
  }

  lemma SentStable(samples: seq<Reading>, r: Reading, x: Sent)
    requires SentFits(samples, x)
    ensures x.stamp <= |samples|
    ensures SentFits(samples + [r], x) && EdgeCount(samples + [r], x.stamp) == EdgeCount(samples, x.stamp)
  {
    hide Edges, EdgeGeneration, EdgeCount, EdgeAt;
    CountStable(samples, r, x.stamp);
    if !x.packet.includesLatest {
      GenerationStable(samples, r, x.packet.lastTransitionId);
    }
  }

  lemma LatestStable(samples: seq<Reading>, r: Reading, consumed: int, p: Packet)
    requires IsLatestPacket(samples, consumed, p)
    ensures IsLatestPacket(samples + [r], consumed, p)
  {
    hide Edges, EdgeCount, EdgeAt;
    CountStable(samples, r, p.latestGeneration);
  }

  /** A new edge is the last of the samples, and the state is new in any case. */
  lemma HybridSampled(s: State, now: int, physical: bool)
    requires s.strategy.Hybrid?
    ensures
      var t := Sampled(s, now, physical);
      t.latestDirty && t.latestGeneration == s.latestGeneration + 1 && t.latestTransition == Event(s, now, physical)
  {
    hide Event;
  }

  lemma EdgeOfSample(w: World, now: int, physical: bool)
    requires Sampling(w)
    ensures AsSeq(Event(w.producer, now, physical)) == EdgeAt(w.samples + [Reading(now, physical)], |w.samples| + 1)
  {
    hide Edges;
    var r := Reading(now, physical);
    var all := w.samples + [r];
    SampledEvent(w, now, physical);
    EdgesAppend(w.samples, r);
    assert all[..|all|] == all;
  }

  lemma DeliveredStable(samples: seq<Reading>, r: Reading, sent: seq<Sent>, consumed: int)
    requires Delivered(samples, sent, consumed)
    ensures Delivered(samples + [r], sent, consumed)
  {
    hide Edges, SentFits, EdgeCount;
    forall i | 0 <= i < |sent|
      ensures SentFits(samples + [r], sent[i])
      ensures sent[i].stamp <= |samples| && EdgeCount(samples + [r], sent[i].stamp) <= consumed
    {
      SentStable(samples, r, sent[i]);
    }
  }

  lemma JournalSample(w: World, now: int, physical: bool)
    requires w.producer.strategy.Hybrid? && Sampling(w) && Journal(w)
    ensures
      var next := Step(w, Take(now, physical));
      Journal(next) && Consumed(next) == Consumed(w)
  {
    hide Sampled, Edges, Sampling, Event;
    EdgesAppend(w.samples, Reading(now, physical));
    SampledFields(w.producer, now, physical);
    SampledEvent(w, now, physical);
  }

  lemma LatestSample(w: World, now: int, physical: bool)
    requires w.producer.strategy.Hybrid? && Sampling(w) && Latest(w)
    ensures Latest(Step(w, Take(now, physical)))
  {
    hide Sampled, Sampling, Event, EdgeAt;
    HybridSampled(w.producer, now, physical);
    EdgeOfSample(w, now, physical);
  }

  lemma PendingSample(w: World, now: int, physical: bool)
    requires w.producer.strategy.Hybrid? && PendingFits(w)
    requires Consumed(Step(w, Take(now, physical))) == Consumed(w)
    ensures PendingFits(Step(w, Take(now, physical)))
  {
    hide Sampled, Consumed, IsLatestPacket, IsEdgePacket, Event;
    SampledFields(w.producer, now, physical);
    if w.producer.pending.Some? && IsLatestPacket(w.samples, Consumed(w), w.producer.pending.value) {
      LatestStable(w.samples, Reading(now, physical), Consumed(w), w.producer.pending.value);
    }
  }

  lemma HybridSample(w: World, now: int, physical: bool)
    requires Hybrid50(w) && w.clock <= now
    ensures Hybrid50(Step(w, Take(now, physical)))
  {
    hide Sampled, Sampling, Journal, Consumed, Latest, PendingFits, Delivered;
    SamplingSample(w, now, physical);
    SampledFields(w.producer, now, physical);
    JournalSample(w, now, physical);
    LatestSample(w, now, physical);
    PendingSample(w, now, physical);
    DeliveredStable(w.samples, Reading(now, physical), w.sent, Consumed(w));
  }

  // ----- A turn of the pump -----

  /** Expiry drops edges in front only, and what is left in front is not too old. */
  lemma {:induction false} ExpiredDrops(t: seq<Transition>, now: int) returns (k: nat)
    ensures k <= |t| && Expired(t, now) == t[k..]
    ensures t != [] && now - t[0].occurredMs <= TRANSITION_TTL_MS ==> k == 0
    ensures k < |t| ==> now - t[k].occurredMs <= TRANSITION_TTL_MS
  {
    k := 0;
    if t != [] && now - t[0].occurredMs > TRANSITION_TTL_MS {
      var m := ExpiredDrops(t[1..], now);
      k := m + 1;
    }
  }

  /** An edge in front of the journal, or in the pending packet, is not too old. */
  predicate Young(s: State, now: int) {
    s.transitions != [] ==> now - s.transitions[0].occurredMs <= TRANSITION_TTL_MS
  }

  /** What depends on the samples only. */
  lemma PumpKeeps(w: World, t: State, sent: seq<Sent>)
    requires Sampling(w) && Latest(w) && SameSamples(w.producer, t) && (t.latestDirty ==> w.producer.latestDirty)
    ensures Sampling(w.(producer := t, sent := sent)) && Latest(w.(producer := t, sent := sent))
  {
    hide Edges, EdgeAt;
  }

  lemma MoreConsumed(samples: seq<Reading>, sent: seq<Sent>, consumed: int, more: int)
    requires consumed <= more
    ensures Delivered(samples, sent, consumed) ==> Delivered(samples, sent, more)
    ensures forall p :: IsLatestPacket(samples, consumed, p) ==> IsLatestPacket(samples, more, p)
  {
    hide Edges, EdgeCount, SentFits, InOrder, EdgeAt;
    if Delivered(samples, sent, consumed) {
      forall i | 0 <= i < |sent|
        ensures sent[i].stamp <= |samples|
      {
        SentRange(samples, sent[i]);
      }
    }
  }

  lemma HybridExpires(w: World, now: int)
    requires Hybrid50(w)
    ensures
      var t := AfterExpiry(AfterGivingUp(w.producer, now), now);
      Hybrid50(w.(producer := t)) && Young(t, now)
  {
    hide Edges, Delivered, IsLatestPacket, Sampling, Latest;
    var u := AfterGivingUp(w.producer, now);
    var k := ExpiredDrops(u.transitions, now);
    var t := AfterExpiry(u, now);
    GivingUpFields(w.producer, now);
    ExpiryFields(u, now);
    PumpKeeps(w, t, w.sent);
    JournalDrops(w, t, k, w.sent);
    MoreConsumed(w.samples, w.sent, Consumed(w), Consumed(w) + k);
    PendingExpires(w, now, k);
  }

  lemma JournalDrops(w: World, t: State, k: nat, sent: seq<Sent>)
    requires Journal(w) && k <= |w.producer.transitions| && t.transitions == w.producer.transitions[k..]
    ensures Journal(w.(producer := t, sent := sent)) && Consumed(w.(producer := t, sent := sent)) == Consumed(w) + k
  {
    hide Edges;
  }

  /** A pending edge that is kept is the first of the journal, which is kept then too. */
  lemma PendingExpires(w: World, now: int, k: nat)
    requires w.producer.strategy.Hybrid? && PendingFits(w)
    requires
      var u := AfterGivingUp(w.producer, now);
      k <= |u.transitions| && AfterExpiry(u, now).transitions == u.transitions[k..]
      && (u.transitions != [] && now - u.transitions[0].occurredMs <= TRANSITION_TTL_MS ==> k == 0)
    requires forall p :: IsLatestPacket(w.samples, Consumed(w), p) ==> IsLatestPacket(w.samples, Consumed(w) + k, p)
    ensures PendingFits(w.(producer := AfterExpiry(AfterGivingUp(w.producer, now), now)))
  {
    hide Edges, IsLatestPacket, Expired;
    var u := AfterGivingUp(w.producer, now);
    var t := AfterExpiry(u, now);
    GivingUpFields(w.producer, now);
    ExpiryFields(u, now);
    assert Consumed(w.(producer := t)) == Consumed(w) + k;
  }

  /** The offer of a hybrid producer fits its state. */
  lemma HybridOffer(w: World, candidate: Packet)
    requires Hybrid50(w) && Offer(w.producer) == Some(candidate)
    ensures Hybrid50(w.(producer := w.producer.(pending := Some(candidate))))
  {
    hide Edges, SentFits, EdgeAt;
    var s := w.producer;
    var next := w.(producer := s.(pending := Some(candidate)));
    if s.transitions == [] {
      assert w.samples[..|w.samples|] == w.samples;
      assert IsLatestPacket(w.samples, Consumed(w), candidate);
      forall i | 0 <= i < |w.sent|
        ensures w.sent[i].stamp <= |w.samples|
      {
        SentRange(w.samples, w.sent[i]);
      }
    } else {
      assert IsEdgePacket(candidate, s.transitions[0]);
    }
  }

  lemma HybridRefresh(w: World, now: int)
    requires Hybrid50(w)
    ensures Hybrid50(w.(producer := Refreshed(w.producer, now))) && Young(Refreshed(w.producer, now), now)
  {
    hide Hybrid50, Offer, Replaces, AfterExpiry, AfterGivingUp;
    var t := AfterExpiry(AfterGivingUp(w.producer, now), now);
    HybridExpires(w, now);
    var candidate := Offer(t);
    if candidate.Some? {
      HybridOffer(w.(producer := t), candidate.value);
    }
  }

  /** Counts of edges grow with the number of samples. */
  lemma CountMonotone(samples: seq<Reading>, g: nat, h: nat)
    requires g <= h <= |samples|
    ensures EdgeCount(samples, g) <= EdgeCount(samples, h)
  {
    hide Edges;
    assert samples[..h][..g] == samples[..g];
    EdgesPrefix(samples[..h], g);
  }

  /** A sent edge is numbered by the edges up to its stamp. */
  lemma SentEdge(samples: seq<Reading>, x: Sent)
    requires SentFits(samples, x) && x.packet.lastTransitionId > 0
    ensures x.packet.lastTransitionId == EdgeCount(samples, x.stamp)
  {
    hide Edges, EdgeCount;
  }

  /** The first edge of the journal comes after everything that was sent. */
  lemma EdgeComesNext(samples: seq<Reading>, sent: seq<Sent>, consumed: nat, x: Sent)
    requires Delivered(samples, sent, consumed) && consumed < |Edges(samples)|
    requires x.stamp == EdgeGeneration(samples, consumed + 1) && x.packet.lastTransitionId == consumed + 1
    ensures forall i :: 0 <= i < |sent| ==> InOrder(sent[i], x)
  {
    hide Edges, SentFits, EdgeCount;
    forall i | 0 <= i < |sent|
      ensures InOrder(sent[i], x)
    {
      var g, h := sent[i].stamp, x.stamp;
      assert g <= |samples| by { SentRange(samples, sent[i]); }
      if h < g {
        CountMonotone(samples, h, g);
      }
      if sent[i].packet.lastTransitionId > 0 {
        SentEdge(samples, sent[i]);
      }
    }
  }

  lemma SentRange(samples: seq<Reading>, x: Sent)
    requires SentFits(samples, x)
    ensures 1 <= x.stamp <= |samples|
  {
    hide Edges;
  }

  lemma DeliveredAppend(samples: seq<Reading>, sent: seq<Sent>, consumed: int, x: Sent, after: int)
    requires Delivered(samples, sent, consumed) && consumed <= after
    requires SentFits(samples, x) && EdgeCount(samples, x.stamp) <= after
    requires forall i :: 0 <= i < |sent| ==> InOrder(sent[i], x)
    ensures Delivered(samples, sent + [x], after)
  {
    hide Edges, SentFits, EdgeCount, InOrder;
  }

  /** The first edge of the journal, sent now. */
  lemma EdgeFits(w: World, now: int, x: Sent)
    requires Sampling(w) && Journal(w) && w.clock <= now && Young(w.producer, now) && w.producer.transitions != []
    requires IsEdgePacket(x.packet, w.producer.transitions[0]) && x.packet.lastTransitionId == Consumed(w) + 1
    requires x.at == now && x.stamp == EdgeGeneration(w.samples, Consumed(w) + 1)
    ensures SentFits(w.samples, x)
  {
    hide Edges, EdgeCount;
  }

  lemma HybridCommitEdge(w: World, now: int)
    requires Hybrid50(w) && w.clock <= now && Young(w.producer, now) && w.producer.pending.Some?
    requires w.producer.transitions != [] && IsEdgePacket(w.producer.pending.value, w.producer.transitions[0])
    ensures
      var p := w.producer.pending.value;
      Hybrid50(w.(producer := Committed(w.producer), sent := w.sent + [Sent(p, now, Stamp(w.samples, p))]))
  {
    hide Edges, EdgeCount, EdgeAt, Delivered, Sampling, Latest, Committed, Journal, Consumed, Young, SentFits, InOrder;
    var s, c := w.producer, Consumed(w);
    var p := s.pending.value;
    var x := Sent(p, now, Stamp(w.samples, p));
    FirstOfJournal(w);
    EdgeFits(w, now, x);
    EdgeComesNext(w.samples, w.sent, c, x);
    DeliveredAppend(w.samples, w.sent, c, x, c + 1);
    CommittedFields(s);
    CommittedJournal(s);
    JournalDrops(w, Committed(s), 1, w.sent + [x]);
    PumpKeeps(w, Committed(s), w.sent + [x]);
  }

  /** The first edge of the journal is the first that is not consumed, and is forgotten alone. */
  lemma FirstOfJournal(w: World)
    requires Journal(w) && w.producer.transitions != []
    ensures
      var t := w.producer.transitions;
      t[0].ident == Consumed(w) + 1 && 0 <= Consumed(w) < |Edges(w.samples)| && After(t, t[0].ident) == t[1..]
  {
    hide Edges, After;
    var t, e, c := w.producer.transitions, Edges(w.samples), Consumed(w);
    EdgesNumbered(w.samples);
    assert t[0] == e[c];
    forall i, j | 0 <= i < j < |t|
      ensures t[i].ident < t[j].ident
    {
      assert t[i] == e[c + i] && t[j] == e[c + j];
    }
    AfterPrefix(t, 1);
  }

  lemma CommittedJournal(s: State)
    requires s.pending.Some? && s.strategy != Green
    ensures
      var p := s.pending.value;
      Committed(s).transitions == (if p.lastTransitionId == 0 then s.transitions else After(s.transitions, p.lastTransitionId))
      && (Committed(s).latestDirty ==> s.latestDirty)
  {
    hide After;
  }

  lemma HybridCommitLatest(w: World, now: int)
    requires Hybrid50(w) && w.clock <= now && w.producer.pending.Some?
    requires IsLatestPacket(w.samples, Consumed(w), w.producer.pending.value)
    requires forall i :: 0 <= i < |w.sent| ==> w.sent[i].stamp <= w.producer.pending.value.latestGeneration
    ensures
      var p := w.producer.pending.value;
      Hybrid50(w.(producer := Committed(w.producer), sent := w.sent + [Sent(p, now, Stamp(w.samples, p))]))
  {
    hide Edges, EdgeCount, EdgeAt, Delivered, Sampling, Latest, Committed;
    var s, c := w.producer, Consumed(w);
    var p := s.pending.value;
    var x := Sent(p, now, Stamp(w.samples, p));
    assert SentFits(w.samples, x);
    DeliveredAppend(w.samples, w.sent, c, x, c);
    CommittedFields(s);
    CommittedJournal(s);
    PumpKeeps(w, Committed(s), w.sent + [x]);
  }

  lemma HybridPump(w: World, now: int, blocked: bool)
    requires Hybrid50(w) && w.clock <= now
    ensures Hybrid50(Step(w, Pump(now, blocked)))
  {
    hide Refreshed, Committed, Edges, EdgeCount, IsEdgePacket, IsLatestPacket, Delivered, Sampling, Young, Latest, Journal;
    HybridRefresh(w, now);
    var t := Refreshed(w.producer, now);
    var v := w.(producer := t);
    LaterClock(v, now);
    if t.pending.Some? && !blocked {
      if t.transitions != [] && IsEdgePacket(t.pending.value, t.transitions[0]) {
        HybridCommitEdge(v, now);
      } else {
        HybridCommitLatest(v, now);
      }
      var p := t.pending.value;
      LaterClock(v.(producer := Committed(t), sent := w.sent + [Sent(p, now, Stamp(w.samples, p))]), now);
    }
  }

  lemma LaterClock(w: World, now: int)
    requires Hybrid50(w) && w.clock <= now
    ensures Hybrid50(w.(clock := now))
  {
    hide Edges, Delivered;
  }

  lemma HybridStep(w: World, action: Action)
    requires Hybrid50(w) && w.clock <= action.now
    ensures Hybrid50(Step(w, action))
  {
    hide Hybrid50, Step;
    match action
    case Take(now, physical) => HybridSample(w, now, physical);
    case Pump(now, blocked) => HybridPump(w, now, blocked);
  }

  lemma {:induction false} RunHybrid(w: World, actions: seq<Action>)
    requires Hybrid50(w) && Timely(w.clock, actions)
    ensures Hybrid50(Run(w, actions))
    decreases |actions|
  {
    hide Hybrid50, Step;
    if actions != [] {
      StepClock(w, actions[0]);
      HybridStep(w, actions[0]);
      RunHybrid(Step(w, actions[0]), actions[1..]);
    }
  }

  /**
    Every packet carries the state of the sample it is stamped with, stamps never decrease, and edges go
    out in order and at most once, at most 50 ms old.
   */
  ghost predicate Faithful(w: World) {
    (forall i :: 0 <= i < |w.sent| ==> SentFits(w.samples, w.sent[i]))
    && (forall i, j :: 0 <= i < j < |w.sent| ==> InOrder(w.sent[i], w.sent[j]))
    && (forall i, j :: 0 <= i < j < |w.samples| ==> w.samples[i].now <= w.samples[j].now)
  }

  /** This holds in every run of samples, pumps and backpressure. */
  lemma HybridRuns(clock: int, actions: seq<Action>)
    requires Timely(clock, actions)
    ensures Faithful(Run(Start(Hybrid, clock), actions))
  {
    hide Run, SentFits, InOrder;
    assert Hybrid50(Start(Hybrid, clock));
    RunHybrid(Start(Hybrid, clock), actions);
  }

  // ----- The receiver -----

  /** The sequence numbers that the receiver accepts: each is larger than all before it. */
  function Accepted(arrivals: seq<nat>, last: int): seq<nat> {
    if arrivals == [] then []
    else if arrivals[0] <= last then Accepted(arrivals[1..], last)
    else [arrivals[0]] + Accepted(arrivals[1..], arrivals[0])
  }

  predicate Increasing(a: seq<nat>) {
    forall i, j :: 0 <= i < j < |a| ==> a[i] < a[j]
  }

  lemma {:induction false} AcceptedIncreases(arrivals: seq<nat>, last: int)
    ensures forall x :: x in Accepted(arrivals, last) ==> x > last && x in arrivals
    ensures Increasing(Accepted(arrivals, last))
  {
    if arrivals != [] {
      var x, rest := arrivals[0], arrivals[1..];
      var later := if x <= last then last else x;
      var a, b := Accepted(arrivals, last), Accepted(rest, later);
      AcceptedIncreases(rest, later);
      assert a == if x <= last then b else [x] + b;
      forall y | y in a
        ensures y > last && y in arrivals
      {
        assert y == x || y in b;
      }
      forall i, j | 0 <= i < j < |a|
        ensures a[i] < a[j]
      {
        assert x > last ==> a[j] == b[j - 1] && b[j - 1] in b && (i > 0 ==> a[i] == b[i - 1]);
      }
    }
  }

  /** A packet is applied exactly when nothing newer has arrived before it. */
  lemma {:induction false} AcceptedExactly(arrivals: seq<nat>, last: int, k: nat)
    requires k < |arrivals|
    ensures
      (arrivals[k] > last && forall i :: 0 <= i < k ==> arrivals[i] < arrivals[k]) <==>
      Accepted(arrivals[..k + 1], last) == Accepted(arrivals[..k], last) + [arrivals[k]]
    decreases k
  {
    var x := arrivals[k];
    var front := arrivals[..k];
    assert arrivals[..k + 1] == front + [x];
    AcceptedAppend(front, last, x);
    assert forall i :: 0 <= i < k ==> front[i] == arrivals[i];
  }

  lemma {:induction false} AcceptedAppend(front: seq<nat>, last: int, x: nat)
    ensures
      Accepted(front + [x], last) ==
        if x > last && (forall i :: 0 <= i < |front| ==> front[i] < x) then Accepted(front, last) + [x] else Accepted(front, last)
  {
    if front == [] {
      assert front + [x] == [x];
    } else {
      assert (front + [x])[1..] == front[1..] + [x];
      AcceptedAppend(front[1..], if front[0] <= last then last else front[0], x);
      assert forall i :: 1 <= i < |front| ==> front[i] == front[1..][i - 1];
      assert forall i :: 0 <= i < |front| - 1 ==> front[1..][i] == front[i + 1];
    }
  }

  /** The server with its sequence filter. */
  class Receiver {
    var lastServerSequence: int
    var serverState: bool
    var applied: seq<nat>

    constructor ()
      ensures lastServerSequence == -1 && !serverState && applied == []
    {
      lastServerSequence, serverState, applied := -1, false, [];
    }

    /** Applies the frames of a packet unless a newer one has come before. */
    method Deliver(packet: Packet, sequence: nat)
      modifies this
      ensures applied == old(applied) + Accepted([sequence], old(lastServerSequence))
      ensures lastServerSequence == if sequence > old(lastServerSequence) then sequence else old(lastServerSequence)
      ensures serverState ==
        if sequence > old(lastServerSequence) && packet.frames != [] then packet.frames[|packet.frames| - 1]
        else old(serverState)
    {
      if sequence <= lastServerSequence {
        return;
      }
      lastServerSequence := sequence;
      applied := applied + [sequence];
      for i := 0 to |packet.frames|
        invariant lastServerSequence == sequence && applied == old(applied) + [sequence]
        invariant serverState == if i > 0 then packet.frames[i - 1] else old(serverState)
      {
        serverState := packet.frames[i];
      }
    }
  }

  /**
    Whatever the channel loses, repeats or reorders, the receiver never goes back in time: it applies the
    states of samples, each taken no earlier than the one applied before.
   */
  lemma NeverBack(clock: int, actions: seq<Action>, arrivals: seq<nat>)
    requires Timely(clock, actions)
    requires forall x :: x in arrivals ==> x < |Run(Start(Hybrid, clock), actions).sent|
    ensures AppliesForward(Run(Start(Hybrid, clock), actions), Accepted(arrivals, -1))
  {
    hide Run, SentFits, InOrder, Accepted, AppliedInOrder;
    var w, a := Run(Start(Hybrid, clock), actions), Accepted(arrivals, -1);
    HybridRuns(clock, actions);
    AcceptedIncreases(arrivals, -1);
    forall i | 0 <= i < |a|
      ensures a[i] < |w.sent| && SentFits(w.samples, w.sent[a[i]])
    {
      assert a[i] in a;
    }
    forall i, j | 0 <= i < j < |a|
      ensures AppliedInOrder(w, a[i], a[j])
    {
      SentRange(w.samples, w.sent[a[i]]);
      SentRange(w.samples, w.sent[a[j]]);
      TimesInOrder(w, a[i], a[j]);
    }
  }

  ghost predicate AppliesForward(w: World, a: seq<nat>) {
    (forall i :: 0 <= i < |a| ==> a[i] < |w.sent| && SentFits(w.samples, w.sent[a[i]]))
    && forall i, j :: 0 <= i < j < |a| ==> AppliedInOrder(w, a[i], a[j])
  }

  predicate AppliedInOrder(w: World, x: nat, y: nat) {
    x < |w.sent| && y < |w.sent|
    && 1 <= w.sent[x].stamp <= w.sent[y].stamp <= |w.samples|
    && w.samples[w.sent[x].stamp - 1].now <= w.samples[w.sent[y].stamp - 1].now
  }

  lemma TimesInOrder(w: World, x: nat, y: nat)
    requires x < y < |w.sent| && 1 <= w.sent[x].stamp <= |w.samples| && 1 <= w.sent[y].stamp <= |w.samples|
    requires InOrder(w.sent[x], w.sent[y])
    requires forall i, j :: 0 <= i < j < |w.samples| ==> w.samples[i].now <= w.samples[j].now
    ensures AppliedInOrder(w, x, y)
  {}
}
