/**
  What the hybrid producer promises about its edges: a free pump sends the oldest one that is not too old, or else the
  newest state, and no edge is lost before it is 50 ms old.
 */
module InputHybrid {
  import opened Wrappers
  import opened InputDelivery
  import opened InputRuns

  // ----- What a pump sends -----

  /** The edges of the journal that are not given up at this time. */
  lemma {:induction false} ExpiredOld(t: seq<Transition>, now: int) returns (k: nat)
    ensures k <= |t| && Expired(t, now) == t[k..]
    ensures forall i :: 0 <= i < k ==> now - t[i].occurredMs > 50
    ensures k < |t| ==> now - t[k].occurredMs <= 50
  {
    k := 0;
    if t != [] && now - t[0].occurredMs > TRANSITION_TTL_MS {
      var m := ExpiredOld(t[1..], now);
      k := m + 1;
    }
  }

  lemma RefreshedJournal(s: State, now: int)
    requires s.strategy.Hybrid?
    ensures Refreshed(s, now).transitions == Expired(s.transitions, now)
  {
    hide Offer, Replaces, AfterExpiry, AfterGivingUp;
    GivingUpFields(s, now);
    ExpiredFields(AfterGivingUp(s, now), now);
  }

  lemma ExpiredFields(s: State, now: int)
    requires s.strategy.Hybrid?
    ensures AfterExpiry(s, now) == s.(transitions := Expired(s.transitions, now))
  {
    hide Expired;
  }

  /** The edge packet of a transition, in full. */
  function EdgePacket(e: Transition): Packet {
    Packet([e.state], [e], e.ident, 0, false)
  }

  /** A pending packet that lists an edge is kept for as long as that edge is not too old. */
  predicate KeepsPending(s: State, now: int) {
    s.pending.Some? && s.pending.value.transitions != [] && now - s.pending.value.transitions[0].occurredMs <= 50
  }

  lemma GivenUp(s: State, now: int)
    requires s.strategy.Hybrid?
    ensures
      var t := AfterGivingUp(s, now);
      t.pending == (if s.pending.Some? && s.pending.value.transitions != [] && !KeepsPending(s, now) then None else s.pending)
  {}

  lemma RefreshedParts(s: State, now: int) returns (v: State)
    requires s.strategy.Hybrid?
    ensures v.transitions == Expired(s.transitions, now) && v.latestDirty == s.latestDirty && v.latestGeneration == s.latestGeneration
    ensures v.strategy == s.strategy && (KeepsPending(s, now) ==> v.pending == s.pending)
    ensures !KeepsPending(s, now) && v.pending.Some? ==> v.pending.value.transitions == [] && v.pending == s.pending
    ensures
      Refreshed(s, now).pending ==
        if Offer(v).None? then v.pending
        else if v.pending.None? || Replaces(s.strategy, v.pending.value, Offer(v).value) then Offer(v) else v.pending
  {
    hide Offer, Replaces, AfterExpiry, AfterGivingUp;
    GivingUpFields(s, now);
    GivenUp(s, now);
    ExpiredFields(AfterGivingUp(s, now), now);
    v := AfterExpiry(AfterGivingUp(s, now), now);
  }

  /** What goes into the next packet: what is kept, or else the oldest edge that is not too old, or else the newest state. */
  lemma HybridPending(w: World, now: int)
    requires Hybrid50(w)
    ensures
      var s, t := w.producer, Refreshed(w.producer, now);
      if KeepsPending(s, now) then t.pending == s.pending
      else if t.transitions != [] then t.pending == Some(EdgePacket(t.transitions[0]))
      else s.latestDirty ==> t.pending.Some? && t.pending.value.includesLatest && t.pending.value.latestGeneration == |w.samples|
  {
    hide Edges, Delivered, Sampling, Journal, Expired, Refreshed, Consumed, IsEdgePacket, EdgeAt, EdgeCount;
    var s := w.producer;
    var v := RefreshedParts(s, now);
    RefreshedJournal(s, now);
    assert s.latestGeneration == |w.samples|;
    if v.pending.Some? && v.pending.value.transitions == [] {
      PendingState(w);
    }
  }

  /** A pending packet without edges is a state. */
  lemma PendingState(w: World)
    requires Hybrid50(w) && w.producer.pending.Some? && w.producer.pending.value.transitions == []
    ensures w.producer.pending.value.lastTransitionId == 0 && w.producer.pending.value.includesLatest
  {
    hide Edges, Delivered, Sampling, Journal, Consumed, Latest;
  }

  /** A free pump sends that packet. */
  lemma HybridPumpSends(w: World, now: int)
    requires Hybrid50(w) && w.clock <= now
    ensures
      var s, next := w.producer, Step(w, Pump(now, false));
      var edges := Expired(s.transitions, now);
      if KeepsPending(s, now) then next.sent == w.sent + [Sent(s.pending.value, now, Stamp(w.samples, s.pending.value))]
      else if edges != [] then next.sent == w.sent + [Sent(EdgePacket(edges[0]), now, Stamp(w.samples, EdgePacket(edges[0])))]
      else s.latestDirty ==> |next.sent| == |w.sent| + 1 && next.sent[|w.sent|].stamp == |w.samples|
  {
    hide Edges, Hybrid50, Refreshed, Committed, Expired, EdgePacket;
    HybridPending(w, now);
    assert w.producer.strategy.Hybrid? by { HybridStrategy(w); }
    RefreshedJournal(w.producer, now);
  }

  lemma HybridStrategy(w: World)
    requires Hybrid50(w)
    ensures w.producer.strategy.Hybrid?
  {}

  // ----- No edge is lost early -----

  ghost predicate EdgeSent(sent: seq<Sent>, ident: nat) {
    exists k :: 0 <= k < |sent| && sent[k].packet.lastTransitionId == ident
  }

  /** An edge that is not in the journal any more was sent, or is more than 50 ms old. */
  ghost predicate AllAccounted(w: World) {
    forall i :: 0 <= i < Consumed(w) ==>
      EdgeSent(w.sent, i + 1) || (i < |Edges(w.samples)| && w.clock - Edges(w.samples)[i].occurredMs > 50)
  }

  lemma SentStays(sent: seq<Sent>, x: Sent, ident: nat)
    requires EdgeSent(sent, ident)
    ensures EdgeSent(sent + [x], ident)
  {
    var k :| 0 <= k < |sent| && sent[k].packet.lastTransitionId == ident;
    assert (sent + [x])[k] == sent[k];
  }

  lemma AccountedSample(w: World, now: int, physical: bool)
    requires Hybrid50(w) && AllAccounted(w) && w.clock <= now
    ensures AllAccounted(Step(w, Take(now, physical)))
  {
    hide Sampled, Edges, Sampling, Latest, Delivered, EdgeSent, PendingFits;
    JournalSample(w, now, physical);
    EdgesAppend(w.samples, Reading(now, physical));
    var next := Step(w, Take(now, physical));
    forall i | 0 <= i < Consumed(next)
      ensures EdgeSent(next.sent, i + 1) || (i < |Edges(next.samples)| && next.clock - Edges(next.samples)[i].occurredMs > 50)
    {
      if !EdgeSent(w.sent, i + 1) {
        assert Edges(next.samples)[i] == Edges(w.samples)[i];
      }
    }
  }

  /** Giving up edges that are too old keeps the account. */
  lemma AccountedExpiry(w: World, now: int)
    requires Hybrid50(w) && AllAccounted(w) && w.clock <= now
    ensures AllAccounted(w.(producer := Refreshed(w.producer, now), clock := now))
  {
    hide Refreshed, Edges, Sampling, Latest, Delivered, EdgeSent, PendingFits, Expired;
    var k := ExpiredOld(w.producer.transitions, now);
    RefreshedJournal(w.producer, now);
    var next := w.(producer := Refreshed(w.producer, now), clock := now);
    assert Consumed(next) == Consumed(w) + k;
    var e := Edges(w.samples);
    forall i | 0 <= i < Consumed(next)
      ensures EdgeSent(next.sent, i + 1) || (i < |e| && next.clock - e[i].occurredMs > 50)
    {
      if i < Consumed(w) {
        assert EdgeSent(w.sent, i + 1) || w.clock - e[i].occurredMs > 50;
      } else {
        assert e[i] == w.producer.transitions[i - Consumed(w)];
      }
    }
  }

  lemma AccountedCommit(w: World, now: int)
    requires Hybrid50(w) && AllAccounted(w) && w.producer.pending.Some?
    ensures
      var p := w.producer.pending.value;
      AllAccounted(w.(producer := Committed(w.producer), sent := w.sent + [Sent(p, now, Stamp(w.samples, p))]))
  {
    hide Committed, Edges, Sampling, Latest, Delivered, EdgeSent, Stamp, Journal, IsEdgePacket, IsLatestPacket;
    var p := w.producer.pending.value;
    var x := Sent(p, now, Stamp(w.samples, p));
    var next := w.(producer := Committed(w.producer), sent := w.sent + [x]);
    CommittedJournal(w.producer);
    var edge := w.producer.transitions != [] && IsEdgePacket(p, w.producer.transitions[0]);
    if edge {
      EdgePacketIdent(p, w.producer.transitions[0]);
      FirstOfJournal(w);
      assert Consumed(next) == Consumed(w) + 1;
    } else {
      LatestIdent(w, p);
      assert Consumed(next) == Consumed(w);
    }
    forall i | 0 <= i < Consumed(next)
      ensures EdgeSent(next.sent, i + 1) || (i < |Edges(w.samples)| && w.clock - Edges(w.samples)[i].occurredMs > 50)
    {
      if i < Consumed(w) {
        if EdgeSent(w.sent, i + 1) {
          SentStays(w.sent, x, i + 1);
        }
      } else {
        SentNow(w.sent, x);
      }
    }
  }

  lemma EdgePacketIdent(p: Packet, e: Transition)
    requires IsEdgePacket(p, e)
    ensures p.lastTransitionId == e.ident
  {}

  lemma LatestIdent(w: World, p: Packet)
    requires IsLatestPacket(w.samples, Consumed(w), p)
    ensures p.lastTransitionId == 0
  {}

  lemma SentNow(sent: seq<Sent>, x: Sent)
    ensures EdgeSent(sent + [x], x.packet.lastTransitionId)
  {
    assert (sent + [x])[|sent|] == x;
  }

  lemma AccountedStep(w: World, action: Action)
    requires Hybrid50(w) && AllAccounted(w) && w.clock <= action.now
    ensures AllAccounted(Step(w, action))
  {
    hide Hybrid50, AllAccounted, Refreshed, Committed, Sampled, Stamp;
    match action
    case Take(now, physical) => AccountedSample(w, now, physical);
    case Pump(now, blocked) =>
      AccountedExpiry(w, now);
      HybridRefresh(w, now);
      var v := w.(producer := Refreshed(w.producer, now), clock := now);
      LaterClock(w.(producer := Refreshed(w.producer, now)), now);
      if v.producer.pending.Some? && !blocked {
        AccountedCommit(v, now);
      }
  }

  lemma {:induction false} RunAccounts(w: World, actions: seq<Action>)
    requires Hybrid50(w) && AllAccounted(w) && Timely(w.clock, actions)
    ensures Hybrid50(Run(w, actions)) && AllAccounted(Run(w, actions))
    decreases |actions|
  {
    hide Hybrid50, AllAccounted, Step;
    if actions != [] {
      StepClock(w, actions[0]);
      HybridStep(w, actions[0]);
      AccountedStep(w, actions[0]);
      RunAccounts(Step(w, actions[0]), actions[1..]);
    }
  }

  /** In every run, an edge that is at most 50 ms old was sent or still waits in the journal. */
  lemma YoungEdgesKept(clock: int, actions: seq<Action>, i: nat)
    requires Timely(clock, actions)
    requires var w := Run(Start(Hybrid, clock), actions); i < |Edges(w.samples)| && w.clock - Edges(w.samples)[i].occurredMs <= 50
    ensures
      var w := Run(Start(Hybrid, clock), actions);
      EdgeSent(w.sent, i + 1) || Edges(w.samples)[i] in w.producer.transitions
  {
    hide Run, Edges, EdgeSent, Sampling, Latest, Delivered, PendingFits;
    var start := Start(Hybrid, clock);
    assert Hybrid50(start) && AllAccounted(start) by { NothingStarted(clock); }
    RunAccounts(start, actions);
    var w := Run(start, actions);
    if i >= Consumed(w) {
      assert w.producer.transitions[i - Consumed(w)] == Edges(w.samples)[i];
    }
  }

  lemma NothingStarted(clock: int)
    ensures Hybrid50(Start(Hybrid, clock)) && AllAccounted(Start(Hybrid, clock))
  {
    assert Hybrid50(Start(Hybrid, clock));
    NothingConsumed(clock);
  }

  lemma NothingConsumed(clock: int)
    ensures Consumed(Start(Hybrid, clock)) == 0
  {
    assert Edges([]) == [];
  }
}
