/**
  Whole runs of the green producer, which keeps no journal: every packet carries the state of the newest sample, no
  sample is sent twice, and the receiver applies states in the order of their samples.
 */
module InputGreen {
  import opened Wrappers
  import opened InputDelivery
  import opened InputRuns
  import opened InputListings

  /** A packet with the state of a sample. */
  predicate IsState(samples: seq<Reading>, p: Packet) {
    p.lastTransitionId == 0 && p.includesLatest && 1 <= p.latestGeneration <= |samples|
    && p.frames == [samples[p.latestGeneration - 1].state] && p.transitions == EdgeAt(samples, p.latestGeneration)
  }

  /** Every packet carries the state of the sample it is stamped with. */
  ghost predicate StatesSent(samples: seq<Reading>, sent: seq<Sent>) {
    forall i :: 0 <= i < |sent| ==> SentFits(samples, sent[i]) && sent[i].packet.includesLatest
  }

  predicate StampsIncrease(sent: seq<Sent>) {
    forall i, j :: 0 <= i < j < |sent| ==> sent[i].stamp < sent[j].stamp
  }

  /** What is pending is a state that is still marked as new, and newer than all that were sent. */
  ghost predicate PendingIsNew(w: World) {
    w.producer.pending.Some? ==>
      var p := w.producer.pending.value;
      w.producer.latestDirty && IsState(w.samples, p) && StatesBefore(w.sent, p.latestGeneration)
  }

  ghost predicate Green8(w: World) {
    w.producer.strategy.Green? && Sampling(w) && Latest(w) && StatesSent(w.samples, w.sent) && StampsIncrease(w.sent)
    && PendingIsNew(w) && (w.producer.latestDirty ==> StatesBefore(w.sent, |w.samples|))
  }

  // ----- Another sample -----

  lemma GreenSampled(s: State, now: int, physical: bool)
    requires s.strategy.Green?
    ensures
      var t := Sampled(s, now, physical);
      t.latestDirty && t.latestGeneration == s.latestGeneration + 1 && t.latestTransition == Event(s, now, physical)
  {
    hide Event;
  }

  lemma StatesStable(samples: seq<Reading>, r: Reading, sent: seq<Sent>)
    requires StatesSent(samples, sent)
    ensures StatesSent(samples + [r], sent) && StatesBefore(sent, |samples| + 1)
  {
    hide SentFits;
    forall i | 0 <= i < |sent|
      ensures SentFits(samples + [r], sent[i]) && sent[i].stamp <= |samples|
    {
      SentStable(samples, r, sent[i]);
    }
  }

  lemma StateStable(samples: seq<Reading>, r: Reading, p: Packet)
    requires IsState(samples, p)
    ensures IsState(samples + [r], p)
  {
    hide EdgeAt, EdgeCount;
    CountStable(samples, r, p.latestGeneration);
  }

  lemma GreenSample(w: World, now: int, physical: bool)
    requires Green8(w) && w.clock <= now
    ensures Green8(Step(w, Take(now, physical)))
  {
    hide Sampled, Sampling, Event, EdgeAt, StatesSent, IsState, Edges;
    SamplingSample(w, now, physical);
    SampledFields(w.producer, now, physical);
    GreenSampled(w.producer, now, physical);
    EdgeOfSample(w, now, physical);
    StatesStable(w.samples, Reading(now, physical), w.sent);
    if w.producer.pending.Some? {
      StateStable(w.samples, Reading(now, physical), w.producer.pending.value);
    }
  }

  // ----- A turn of the pump -----

  /** An older state that is pending gives way to the newest one. */
  lemma GreenRefreshed(s: State, now: int)
    requires s.strategy.Green?
    ensures
      var t := Refreshed(s, now);
      t == s.(pending := t.pending)
      && (!s.latestDirty ==> t.pending == s.pending)
      && (s.latestDirty ==>
          t.pending == Some(Packet([s.latestState], AsSeq(s.latestTransition), 0, s.latestGeneration, true))
          || (t.pending == s.pending && s.pending.Some? && s.pending.value.latestGeneration == s.latestGeneration))
  {}

  lemma GreenRefresh(w: World, now: int)
    requires Green8(w)
    ensures
      var t := Refreshed(w.producer, now);
      Green8(w.(producer := t)) && (t.pending.Some? <==> w.producer.latestDirty)
      && (t.pending.Some? ==> t.pending.value.latestGeneration == |w.samples|)
  {
    hide Refreshed, EdgeAt, StatesSent, Edges;
    GreenRefreshed(w.producer, now);
  }

  /** A packet that is sent leaves nothing to send. */
  lemma GreenCommitted(s: State)
    requires s.strategy.Green? && s.pending.Some?
    requires s.pending.value.includesLatest && s.pending.value.latestGeneration == s.latestGeneration
    ensures Committed(s) == s.(latestDirty := false, pending := None)
  {
    hide After;
  }

  lemma StateFits(samples: seq<Reading>, p: Packet, now: int)
    requires IsState(samples, p)
    ensures SentFits(samples, Sent(p, now, Stamp(samples, p))) && Stamp(samples, p) == p.latestGeneration
  {
    hide EdgeAt, Edges;
  }

  /** A free pump sends the newest sample, exactly when it was not sent before. */
  lemma GreenPump(w: World, now: int, blocked: bool)
    requires Green8(w) && w.clock <= now
    ensures
      var next := Step(w, Pump(now, blocked));
      Green8(next)
      && if w.producer.latestDirty && !blocked
         then |next.sent| == |w.sent| + 1 && next.sent[..|w.sent|] == w.sent && next.sent[|w.sent|].stamp == |w.samples|
         else next.sent == w.sent
  {
    hide Refreshed, Committed, EdgeAt, StatesSent, Edges, IsState, Sampling, Stamp;
    SamplingPump(w, now, blocked);
    GreenRefresh(w, now);
    var t := Refreshed(w.producer, now);
    GreenRefreshed(w.producer, now);
    if t.pending.Some? && !blocked {
      var p := t.pending.value;
      assert p.includesLatest by { StateIsLatest(w.samples, p); }
      GreenCommitted(t);
      StateFits(w.samples, p, now);
      StatesAppend(w.samples, w.sent, Sent(p, now, Stamp(w.samples, p)));
    }
  }

  lemma StateIsLatest(samples: seq<Reading>, p: Packet)
    requires IsState(samples, p)
    ensures p.includesLatest
  {}

  lemma StatesAppend(samples: seq<Reading>, sent: seq<Sent>, x: Sent)
    requires StatesSent(samples, sent) && StampsIncrease(sent) && StatesBefore(sent, x.stamp)
    requires SentFits(samples, x) && x.packet.includesLatest
    ensures StatesSent(samples, sent + [x]) && StampsIncrease(sent + [x])
  {
    hide SentFits;
  }

  lemma GreenStep(w: World, action: Action)
    requires Green8(w) && w.clock <= action.now
    ensures Green8(Step(w, action))
  {
    hide Green8, Step;
    match action
    case Take(now, physical) => GreenSample(w, now, physical);
    case Pump(now, blocked) => GreenPump(w, now, blocked);
  }

  lemma {:induction false} RunGreen(w: World, actions: seq<Action>)
    requires Green8(w) && Timely(w.clock, actions)
    ensures Green8(Run(w, actions))
    decreases |actions|
  {
    hide Green8, Step;
    if actions != [] {
      StepClock(w, actions[0]);
      GreenStep(w, actions[0]);
      RunGreen(Step(w, actions[0]), actions[1..]);
    }
  }

  /** In every run each packet carries the state of its sample, and later packets carry later samples. */
  lemma GreenRuns(clock: int, actions: seq<Action>)
    requires Timely(clock, actions)
    ensures
      var w := Run(Start(Green, clock), actions);
      StatesSent(w.samples, w.sent) && StampsIncrease(w.sent)
      && forall i, j :: 0 <= i < j < |w.samples| ==> w.samples[i].now <= w.samples[j].now
  {
    hide Run, StatesSent;
    NothingSent(clock);
    RunGreen(Start(Green, clock), actions);
  }

  lemma NothingSent(clock: int)
    ensures Green8(Start(Green, clock))
  {}

  /** The packets that the receiver applies carry ever later samples. */
  ghost predicate AppliesLater(w: World, a: seq<nat>) {
    (forall i :: 0 <= i < |a| ==> a[i] < |w.sent| && SentFits(w.samples, w.sent[a[i]]))
    && forall i, j :: 0 <= i < j < |a| ==> w.sent[a[i]].stamp < w.sent[a[j]].stamp && AppliedInOrder(w, a[i], a[j])
  }

  /** Whatever the channel loses, repeats or reorders, the receiver applies states in the order of their samples. */
  lemma GreenNeverBack(clock: int, actions: seq<Action>, arrivals: seq<nat>)
    requires Timely(clock, actions)
    requires forall x :: x in arrivals ==> x < |Run(Start(Green, clock), actions).sent|
    ensures AppliesLater(Run(Start(Green, clock), actions), Accepted(arrivals, -1))
  {
    hide Run, SentFits, Accepted, AppliedInOrder;
    var w, a := Run(Start(Green, clock), actions), Accepted(arrivals, -1);
    GreenRuns(clock, actions);
    AcceptedIncreases(arrivals, -1);
    forall i | 0 <= i < |a|
      ensures a[i] < |w.sent| && SentFits(w.samples, w.sent[a[i]])
    {
      assert a[i] in a;
    }
    forall i, j | 0 <= i < j < |a|
      ensures w.sent[a[i]].stamp < w.sent[a[j]].stamp && AppliedInOrder(w, a[i], a[j])
    {
      assert a[i] < a[j];
      SentRange(w.samples, w.sent[a[i]]);
      SentRange(w.samples, w.sent[a[j]]);
      StatesInOrder(w, a[i], a[j]);
    }
  }

  lemma StatesInOrder(w: World, x: nat, y: nat)
    requires x < |w.sent| && y < |w.sent| && 1 <= w.sent[x].stamp < w.sent[y].stamp <= |w.samples|
    requires forall i, j :: 0 <= i < j < |w.samples| ==> w.samples[i].now <= w.samples[j].now
    ensures AppliedInOrder(w, x, y)
  {}
}
