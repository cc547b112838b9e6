/**
  Which packets of a run of the hybrid producer list the same edge: the one that commits it, and the one of the
  state that it leads to, when that state is sent after it.
 */
module InputListings {
  import opened Wrappers
  import opened InputDelivery
  import opened InputRuns

  /** Two packets list the same edge. */
  predicate CommonEdge(p: Packet, q: Packet) {
    exists e :: e in p.transitions && e in q.transitions
  }

  // ----- What a packet lists -----

  lemma EdgeAtCounts(samples: seq<Reading>, g: nat)
    requires 1 <= g <= |samples|
    ensures EdgeCount(samples, g) == EdgeCount(samples, g - 1) + |EdgeAt(samples, g)|
  {
    hide Edges;
    assert samples[..g] == samples[..g - 1] + [samples[g - 1]];
    EdgesAppend(samples[..g - 1], samples[g - 1]);
  }

  /** Every packet, of either kind, lists the edge of the sample that it is stamped with. */
  lemma ListsItsStamp(samples: seq<Reading>, x: Sent)
    requires SentFits(samples, x)
    ensures x.packet.transitions == EdgeAt(samples, x.stamp)
    ensures !x.packet.includesLatest ==> x.packet.lastTransitionId == EdgeCount(samples, x.stamp) && x.packet.transitions != []
  {
    hide Edges, EdgeCount;
    EdgeAtCounts(samples, x.stamp);
  }

  /** Different samples are different edges. */
  lemma EdgesDiffer(samples: seq<Reading>, g: nat, h: nat)
    requires 1 <= g < h <= |samples| && EdgeAt(samples, g) != [] && EdgeAt(samples, h) != []
    ensures EdgeAt(samples, g)[0].ident < EdgeAt(samples, h)[0].ident
  {
    hide EdgeCount;
    EdgeAtCounts(samples, h);
    CountMonotone(samples, g, h - 1);
  }

  lemma CommonExactly(samples: seq<Reading>, x: Sent, y: Sent)
    requires SentFits(samples, x) && SentFits(samples, y)
    ensures CommonEdge(x.packet, y.packet) <==> x.stamp == y.stamp && EdgeAt(samples, x.stamp) != []
  {
    hide SentFits, EdgeAt, EdgeCount;
    SentRange(samples, x);
    SentRange(samples, y);
    ListsItsStamp(samples, x);
    ListsItsStamp(samples, y);
    AtMostOne(samples, x.stamp);
    AtMostOne(samples, y.stamp);
    if EdgeAt(samples, x.stamp) != [] && EdgeAt(samples, y.stamp) != [] {
      if x.stamp < y.stamp {
        EdgesDiffer(samples, x.stamp, y.stamp);
      } else if y.stamp < x.stamp {
        EdgesDiffer(samples, y.stamp, x.stamp);
      } else {
        assert x.packet.transitions[0] in y.packet.transitions;
      }
    }
  }

  lemma AtMostOne(samples: seq<Reading>, g: nat)
    requires g <= |samples|
    ensures |EdgeAt(samples, g)| <= 1
  {
    hide EdgeCount;
  }

  // ----- What every run keeps -----

  /** An edge goes out before any packet of a state that holds it, and states only go out once. */
  predicate Apart(samples: seq<Reading>, x: Sent, y: Sent) {
    x.stamp <= |samples|
    && (y.packet.includesLatest || EdgeCount(samples, x.stamp) < y.packet.lastTransitionId)
    && (x.packet.includesLatest && y.packet.includesLatest ==> x.stamp < y.stamp)
  }

  /** The states that were sent are those of samples before this one. */
  predicate StatesBefore(sent: seq<Sent>, generation: nat) {
    forall i :: 0 <= i < |sent| && sent[i].packet.includesLatest ==> sent[i].stamp < generation
  }

  ghost predicate Separate(w: World) {
    var s := w.producer;
    (forall i, j :: 0 <= i < j < |w.sent| ==> Apart(w.samples, w.sent[i], w.sent[j]))
    && (s.latestDirty ==> StatesBefore(w.sent, |w.samples|))
    && (s.pending.Some? && s.pending.value.includesLatest ==> StatesBefore(w.sent, s.pending.value.latestGeneration))
  }

  lemma SeparateSample(w: World, now: int, physical: bool)
    requires Hybrid50(w) && Separate(w)
    ensures Separate(Step(w, Take(now, physical)))
  {
    hide Sampled, Edges, EdgeCount, EdgeAt, SentFits, Sampling, Journal, Latest, PendingFits;
    SampledFields(w.producer, now, physical);
    var r := Reading(now, physical);
    forall i | 0 <= i < |w.sent|
      ensures w.sent[i].stamp <= |w.samples| && EdgeCount(w.samples + [r], w.sent[i].stamp) == EdgeCount(w.samples, w.sent[i].stamp)
    {
      SentRange(w.samples, w.sent[i]);
      CountStable(w.samples, r, w.sent[i].stamp);
    }
  }

  /** The pump only offers a state that is new. */
  lemma SeparateRefresh(w: World, now: int)
    requires Hybrid50(w) && Separate(w)
    ensures Separate(w.(producer := Refreshed(w.producer, now)))
  {
    hide Apart, Expired, Edges, EdgeCount, EdgeAt, SentFits, Sampling, Journal, PendingFits, Delivered, Replaces;
    RefreshedFields(w.producer, now);
  }

  lemma SeparateCommit(w: World, now: int)
    requires Hybrid50(w) && Separate(w) && w.producer.pending.Some?
    ensures
      var p := w.producer.pending.value;
      Separate(w.(producer := Committed(w.producer), sent := w.sent + [Sent(p, now, Stamp(w.samples, p))]))
  {
    hide Edges, EdgeCount, EdgeAt, SentFits, Sampling, Journal, After;
    var p := w.producer.pending.value;
    var x := Sent(p, now, Stamp(w.samples, p));
    CommittedFields(w.producer);
    CommittedJournal(w.producer);
    if !p.includesLatest {
      FirstOfJournal(w);
    }
    forall i | 0 <= i < |w.sent|
      ensures Apart(w.samples, w.sent[i], x)
    {
      SentRange(w.samples, w.sent[i]);
    }
  }

  lemma SeparateStep(w: World, action: Action)
    requires Hybrid50(w) && Separate(w) && w.clock <= action.now
    ensures Separate(Step(w, action))
  {
    hide Hybrid50, Separate, Refreshed, Committed, Sampled, Stamp;
    match action
    case Take(now, physical) => SeparateSample(w, now, physical);
    case Pump(now, blocked) =>
      var v := w.(producer := Refreshed(w.producer, now));
      HybridRefresh(w, now);
      SeparateRefresh(w, now);
      SeparateClock(v, now);
      if v.producer.pending.Some? && !blocked {
        SeparateCommit(v, now);
        var p := v.producer.pending.value;
        SeparateClock(v.(producer := Committed(v.producer), sent := v.sent + [Sent(p, now, Stamp(v.samples, p))]), now);
      }
  }

  lemma SeparateClock(w: World, now: int)
    requires Separate(w)
    ensures Separate(w.(clock := now))
  {
    hide Apart;
  }

  lemma {:induction false} RunSeparate(w: World, actions: seq<Action>)
    requires Hybrid50(w) && Separate(w) && Timely(w.clock, actions)
    ensures Hybrid50(Run(w, actions)) && Separate(Run(w, actions))
    decreases |actions|
  {
    hide Hybrid50, Separate, Step;
    if actions != [] {
      StepClock(w, actions[0]);
      HybridStep(w, actions[0]);
      SeparateStep(w, actions[0]);
      RunSeparate(Step(w, actions[0]), actions[1..]);
    }
  }

  lemma Reached(clock: int, actions: seq<Action>)
    requires Timely(clock, actions)
    ensures Hybrid50(Run(Start(Hybrid, clock), actions)) && Separate(Run(Start(Hybrid, clock), actions))
  {
    hide Run;
    RunSeparate(Start(Hybrid, clock), actions);
  }

  // ----- When an edge is listed twice -----

  lemma TwiceExactly(w: World, i: nat, j: nat)
    requires Hybrid50(w) && Separate(w) && i < j < |w.sent|
    ensures
      CommonEdge(w.sent[i].packet, w.sent[j].packet) <==>
      !w.sent[i].packet.includesLatest && w.sent[j].packet.includesLatest && w.sent[i].stamp == w.sent[j].stamp
  {
    hide SentFits, EdgeAt, EdgeCount, Edges, CommonEdge;
    var x, y := w.sent[i], w.sent[j];
    CommonExactly(w.samples, x, y);
    ListsItsStamp(w.samples, x);
    ListsItsStamp(w.samples, y);
    assert Apart(w.samples, x, y);
  }

  /**
    In every run two packets list the same edge exactly when the first commits it and the second carries the
    state of the very sample that the edge is.
   */
  lemma EdgeListedTwiceExactly(clock: int, actions: seq<Action>, i: nat, j: nat)
    requires Timely(clock, actions) && i < j < |Run(Start(Hybrid, clock), actions).sent|
    ensures
      var sent := Run(Start(Hybrid, clock), actions).sent;
      CommonEdge(sent[i].packet, sent[j].packet) <==>
      !sent[i].packet.includesLatest && sent[j].packet.includesLatest && sent[i].stamp == sent[j].stamp
  {
    hide Run;
    Reached(clock, actions);
    TwiceExactly(Run(Start(Hybrid, clock), actions), i, j);
  }

  /** No edge is listed by three packets. */
  lemma NeverListedThrice(clock: int, actions: seq<Action>, i: nat, j: nat, k: nat)
    requires Timely(clock, actions) && i < j < k < |Run(Start(Hybrid, clock), actions).sent|
    ensures
      var sent := Run(Start(Hybrid, clock), actions).sent;
      !(CommonEdge(sent[i].packet, sent[j].packet) && CommonEdge(sent[j].packet, sent[k].packet))
  {
    hide Run, CommonEdge;
    EdgeListedTwiceExactly(clock, actions, i, j);
    EdgeListedTwiceExactly(clock, actions, j, k);
  }

  // ----- When a turn of the pump lists an edge again -----

  predicate ListedBefore(sent: seq<Sent>, p: Packet) {
    exists i :: 0 <= i < |sent| && CommonEdge(sent[i].packet, p)
  }

  /** The edge was committed, and not given up. */
  predicate EdgeSent(sent: seq<Sent>, ident: nat) {
    exists i :: 0 <= i < |sent| && !sent[i].packet.includesLatest && sent[i].packet.lastTransitionId == ident
  }

  /** A packet that is sent lists an edge again exactly when it carries a state whose edge was committed before. */
  lemma SentAgainExactly(w: World)
    requires Hybrid50(w) && Separate(w) && w.sent != []
    ensures
      var n := |w.sent| - 1;
      var p := w.sent[n].packet;
      ListedBefore(w.sent[..n], p) <==>
      p.includesLatest && p.transitions != [] && EdgeSent(w.sent[..n], p.transitions[0].ident)
  {
    hide Hybrid50, Separate, CommonEdge;
    var n := |w.sent| - 1;
    var y := w.sent[n];
    forall i | 0 <= i < n
      ensures
        CommonEdge(w.sent[i].packet, y.packet) <==>
        y.packet.includesLatest && y.packet.transitions != []
        && !w.sent[i].packet.includesLatest && w.sent[i].packet.lastTransitionId == y.packet.transitions[0].ident
    {
      TwiceExactly(w, i, n);
      if y.packet.includesLatest && !w.sent[i].packet.includesLatest {
        AgainExactly(w, i, n);
      }
    }
    assert forall i :: 0 <= i < n ==> w.sent[..n][i] == w.sent[i];
  }

  /** For an edge and a state, the same stamp means the same edge. */
  lemma AgainExactly(w: World, i: nat, j: nat)
    requires Hybrid50(w) && i < j < |w.sent| && !w.sent[i].packet.includesLatest && w.sent[j].packet.includesLatest
    ensures
      w.sent[i].stamp == w.sent[j].stamp <==>
      w.sent[j].packet.transitions != [] && w.sent[i].packet.lastTransitionId == w.sent[j].packet.transitions[0].ident
  {
    hide SentFits, Edges, EdgeCount, Sampling, Journal, Latest, PendingFits;
    var x, y := w.sent[i], w.sent[j];
    SentRange(w.samples, x);
    SentRange(w.samples, y);
    ListsItsStamp(w.samples, x);
    ListsItsStamp(w.samples, y);
    if y.packet.transitions != [] {
      if x.stamp < y.stamp {
        EdgesDiffer(w.samples, x.stamp, y.stamp);
      } else if y.stamp < x.stamp {
        EdgesDiffer(w.samples, y.stamp, x.stamp);
      }
    }
  }

  /**
    A free pump with nothing pending lists an edge again exactly when the journal has nothing left that is young
    enough, the state is new, and the edge of the latest sample was committed before.
   */
  lemma PumpListsAgain(w: World, now: int)
    requires Hybrid50(w) && Separate(w) && w.clock <= now && w.producer.pending.None?
    ensures
      var s, next := w.producer, Step(w, Pump(now, false));
      next.sent != w.sent && ListedBefore(w.sent, next.sent[|next.sent| - 1].packet) <==>
      Expired(s.transitions, now) == [] && s.latestDirty
      && s.latestTransition.Some? && EdgeSent(w.sent, s.latestTransition.value.ident)
  {
    hide Hybrid50, Separate, Expired, ListedBefore, EdgeSent, Committed, Stamp;
    var s, next := w.producer, Step(w, Pump(now, false));
    HybridStep(w, Pump(now, false));
    SeparateStep(w, Pump(now, false));
    assert s.strategy.Hybrid? by { IsHybrid(w); }
    OfferedNow(w, now);
    if next.sent != w.sent {
      assert next.sent[..|w.sent|] == w.sent;
      SentAgainExactly(next);
    }
  }

  lemma IsHybrid(w: World)
    requires Hybrid50(w)
    ensures w.producer.strategy.Hybrid?
  {}

  /** What a pump offers that finds nothing pending. */
  lemma RefreshedNow(s: State, now: int)
    requires s.strategy.Hybrid? && s.pending.None?
    ensures Refreshed(s, now).pending == Offer(s.(transitions := Expired(s.transitions, now)))
  {
    hide Expired, Offer, Replaces;
  }

  lemma OfferKind(s: State)
    requires s.strategy.Hybrid?
    ensures Offer(s).None? <==> s.transitions == [] && !s.latestDirty
    ensures Offer(s).Some? ==>
      if s.transitions == [] then Offer(s).value.includesLatest && Offer(s).value.transitions == AsSeq(s.latestTransition)
      else !Offer(s).value.includesLatest
  {}

  /** What such a pump sends. */
  lemma OfferedNow(w: World, now: int)
    requires w.producer.strategy.Hybrid? && w.producer.pending.None?
    ensures
      var s, next := w.producer, Step(w, Pump(now, false));
      var journal := Expired(s.transitions, now);
      if journal == [] && !s.latestDirty then next.sent == w.sent
      else
        next.sent[..|w.sent|] == w.sent && |next.sent| == |w.sent| + 1
        && var p := next.sent[|w.sent|].packet;
           if journal == [] then p.includesLatest && p.transitions == AsSeq(s.latestTransition)
           else !p.includesLatest
  {
    hide Expired, Committed, Stamp, Refreshed, Offer;
    var s := w.producer;
    RefreshedNow(s, now);
    OfferKind(s.(transitions := Expired(s.transitions, now)));
  }

  // ----- A concrete run -----

  /** A hybrid producer that has sampled a press at 8 ms. */
  function Pressed(): State {
    Initial(Hybrid).(
      sampledState := true, hasSample := true, latestState := true, latestDirty := true, latestGeneration := 2,
      latestTransition := Some(Transition(1, true, 8)), transitions := [Transition(1, true, 8)], nextTransitionId := 2)
  }

  lemma PressIsSampled()
    ensures Sampled(Sampled(Initial(Hybrid), 0, false), 8, true) == Pressed()
  {}

  lemma PressIsSent()
    ensures Pumped(Pressed(), 8, false) ==
      (Pressed().(transitions := []), Some(Packet([true], [Transition(1, true, 8)], 1, 0, false)))
  {
    hide After;
    AfterPrefix([Transition(1, true, 8)], 1);
  }

  lemma PressIsListedAgain()
    ensures Pumped(Pressed().(transitions := []), 10, false) ==
      (Pressed().(transitions := [], latestDirty := false), Some(Packet([true], [Transition(1, true, 8)], 0, 2, true)))
  {
    hide After;
  }

  /** An edge is committed once, but the packet of the state that follows it lists the same edge again. */
  lemma EdgeListedTwice()
    ensures
      var w := Run(Start(Hybrid, 0), [Take(0, false), Take(8, true), Pump(8, false), Pump(10, false)]);
      |w.sent| == 2 && w.sent[0].packet.transitions == w.sent[1].packet.transitions == [Transition(1, true, 8)]
  {
    hide Sampled, Pumped, Pressed, Stamp;
    PressIsSampled();
    PressIsSent();
    PressIsListedAgain();
    var w0 := Start(Hybrid, 0);
    var w1 := Step(w0, Take(0, false));
    var w2 := Step(w1, Take(8, true));
    var w3 := Step(w2, Pump(8, false));
    var w4 := Step(w3, Pump(10, false));
    assert Run(w3, [Pump(10, false)]) == w4;
    assert Run(w2, [Pump(8, false), Pump(10, false)]) == w4;
    assert Run(w1, [Take(8, true), Pump(8, false), Pump(10, false)]) == w4;
  }
}
