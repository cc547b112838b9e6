/**
  What the diagnostic writer takes and what ends up in the log, in terms of the calls alone: which offers are dropped,
  what is kept of the others, and what the reports say.
 */
module DiagnosticOffers {
  import opened Wrappers
  import opened DiagnosticQueue

  // ----- Offers -----

  /** An offer is refused when no worker runs, when it is being stopped, or when 64 entries wait. */
  predicate Refused(s: State) {
    !s.running || s.stopping || |s.queue| >= 64
  }

  /** The longest beginning of a text that is no longer than 4095 bytes. */
  ghost predicate IsLongest(text: string, kept: string) {
    kept <= text && |kept| <= 4095 && forall other: string :: other <= text && |other| <= 4095 ==> |other| <= |kept|
  }

  predicate IsOffer(e: Event) {
    e.Enqueue? && e.text.Some? && e.text.value != ""
  }

  /** An offer is dropped and counted exactly when it is refused; otherwise its beginning waits behind all others. */
  lemma OfferTaken(s: State, text: string, urgent: bool)
    requires text != ""
    ensures
      var t := Enqueued(s, Some(text), urgent);
      if Refused(s) then t == s.(dropped := s.dropped + 1)
      else
        |t.queue| == |s.queue| + 1 && t.queue[..|s.queue|] == s.queue && t.dropped == s.dropped && t.enqueued == s.enqueued + 1
        && t.queue[|s.queue|].urgent == urgent && IsLongest(text, t.queue[|s.queue|].text)
  {
    if !Refused(s) {
      var n := if |text| < 4095 then |text| else 4095;
      assert text[..n] == Kept(text);
      forall other: string | other <= text && |other| <= 4095
        ensures |other| <= n
      {}
    }
  }

  /** The offer that an event makes, if it is not refused. */
  function TakenNow(s: State, e: Event): seq<(string, bool)> {
    if IsOffer(e) && !Refused(s) then [(e.text.value, e.urgent)] else []
  }

  /** The offers of a run that are not refused, in order. */
  function TakenOffers(s: State, events: seq<Event>): seq<(string, bool)>
    requires Possible(s, events)
    decreases |events|
  {
    if events == [] then [] else TakenNow(s, events[0]) + TakenOffers(Step(s, events[0]), events[1..])
  }

  /** Entry by entry, the beginnings of the offers with their urgency. */
  ghost predicate AreOffers(entries: seq<Entry>, offers: seq<(string, bool)>) {
    |entries| == |offers|
    && forall i :: 0 <= i < |entries| ==> entries[i].urgent == offers[i].1 && IsLongest(offers[i].0, entries[i].text)
  }

  lemma OffersAppend(a: seq<Entry>, b: seq<Entry>, x: seq<(string, bool)>, y: seq<(string, bool)>)
    requires AreOffers(a, x) && AreOffers(b, y)
    ensures AreOffers(a + b, x + y)
  {
    hide IsLongest;
  }

  lemma OfferAccepted(s: State, e: Event)
    requires Enabled(s, e)
    ensures s.accepted <= Step(s, e).accepted && AreOffers(Step(s, e).accepted[|s.accepted|..], TakenNow(s, e))
  {
    hide Texts, Reports, HasUrgent, TextBytes, IsLongest, Opened, Counted;
    if IsOffer(e) {
      OfferTaken(s, e.text.value, e.urgent);
    }
  }

  /** What a run accepts are the offers that were not refused. */
  lemma {:induction false} AcceptedAreOffers(s: State, events: seq<Event>)
    requires Possible(s, events)
    ensures s.accepted <= Run(s, events).accepted
    ensures AreOffers(Run(s, events).accepted[|s.accepted|..], TakenOffers(s, events))
    decreases |events|
  {
    hide Step, AreOffers, TakenNow;
    if events == [] {
      assert AreOffers([], []) by { NoOffers(); }
      assert s.accepted[|s.accepted|..] == [] && TakenOffers(s, []) == [];
    } else {
      var t := Step(s, events[0]);
      OfferAccepted(s, events[0]);
      AcceptedAreOffers(t, events[1..]);
      var all := Run(s, events).accepted;
      var here := t.accepted[|s.accepted|..];
      OffersAppend(here, all[|t.accepted|..], TakenNow(s, events[0]), TakenOffers(t, events[1..]));
      assert all == t.accepted + all[|t.accepted|..];
      assert all[|s.accepted|..] == here + all[|t.accepted|..];
    }
  }

  lemma NoOffers()
    ensures AreOffers([], [])
  {}

  /** When stop returns, the log holds the offers that were not refused, all of them, in order and on disk. */
  lemma LogHoldsOffers(events: seq<Event>)
    requires Possible(Initial(), events) && Enabled(Run(Initial(), events), EndStop)
    ensures
      var t := Step(Run(Initial(), events), EndStop);
      AreOffers(EntriesOf(t.log), TakenOffers(Initial(), events)) && t.flushed == |t.log|
  {
    hide Run, EntriesOf, AreOffers, TakenOffers;
    StopWritesAll(events);
    AcceptedAreOffers(Initial(), events);
    var s := Run(Initial(), events);
    assert s.accepted[0..] == s.accepted;
  }

  /** How many offers of a run are refused. */
  function RefusedOffers(s: State, events: seq<Event>): nat
    requires Possible(s, events)
    decreases |events|
  {
    if events == [] then 0
    else (if IsOffer(events[0]) && Refused(s) then 1 else 0) + RefusedOffers(Step(s, events[0]), events[1..])
  }

  /** Those are the ones counted as dropped. */
  lemma {:induction false} DropsAreRefusals(s: State, events: seq<Event>)
    requires Possible(s, events)
    ensures Run(s, events).dropped == s.dropped + RefusedOffers(s, events)
    decreases |events|
  {
    hide Step, Refused;
    if events != [] {
      StepDrops(s, events[0]);
      DropsAreRefusals(Step(s, events[0]), events[1..]);
    }
  }

  lemma StepDrops(s: State, e: Event)
    requires Enabled(s, e)
    ensures Step(s, e).dropped == s.dropped + if IsOffer(e) && Refused(s) then 1 else 0
  {
    hide Texts, Reports, HasUrgent, TextBytes, Opened, Counted, Kept;
  }

  // ----- Batches and flushes -----

  /** The worker takes everything that waits. */
  lemma DrainTakesAll(s: State)
    requires Enabled(s, Drain)
    ensures
      var t := Step(s, Drain);
      t.queue == [] && t.worker == Writing(s.queue, s.stopping) && t.log == s.log
  {}

  /** A batch is flushed exactly when an entry is urgent, the worker stops, or a second has passed. */
  lemma BatchFlushed(s: State, due: bool)
    requires Enabled(s, Write(due))
    ensures
      var t := Step(s, Write(due));
      var flush := due || s.worker.shouldStop || exists i :: 0 <= i < |s.worker.batch| && s.worker.batch[i].urgent;
      t.flushed == (if flush then |t.log| else s.flushed) && t.file.flushes == s.file.flushes + (if flush then 1 else 0)
      && t.worker == if s.worker.shouldStop then Finished else Waiting
  {
    hide Texts, Reports, TextBytes;
  }

  // ----- Reports -----

  /** The numbers that the reports of a log give. */
  function ReportsOf(log: seq<Line>): seq<nat> {
    if log == [] then []
    else ReportsOf(log[..|log| - 1]) + (if log[|log| - 1].Report? then [log[|log| - 1].dropped] else [])
  }

  function LastReport(reports: seq<nat>): nat {
    if reports == [] then 0 else reports[|reports| - 1]
  }

  ghost predicate Growing(reports: seq<nat>) {
    (forall i :: 0 <= i < |reports| ==> reports[i] > 0) && forall i, j :: 0 <= i < j < |reports| ==> reports[i] < reports[j]
  }

  /** Reports give ever larger numbers, the last of them the one reported, and never more than were dropped. */
  ghost predicate ReportsTrue(s: State) {
    Growing(ReportsOf(s.log)) && LastReport(ReportsOf(s.log)) == s.reportedDrops <= s.dropped
  }

  lemma {:induction false} ReportsAppend(log: seq<Line>, more: seq<Line>)
    ensures ReportsOf(log + more) == ReportsOf(log) + ReportsOf(more)
  {
    if more == [] {
      assert log + more == log;
    } else {
      var k := |more| - 1;
      ReportsAppend(log, more[..k]);
      assert (log + more)[..|log| + k] == log + more[..k];
    }
  }

  lemma {:induction false} NoReports(batch: seq<Entry>)
    ensures ReportsOf(Texts(batch)) == []
  {
    if batch != [] {
      var k := |batch| - 1;
      NoReports(batch[..k]);
      assert Texts(batch)[..k] == Texts(batch[..k]);
    }
  }

  lemma WriteReports(s: State, due: bool)
    requires s.worker.Writing?
    ensures ReportsOf(Written(s, due).log) == ReportsOf(s.log) + (if s.dropped != s.reportedDrops then [s.dropped] else [])
    ensures Written(s, due).reportedDrops == s.dropped
  {
    hide Texts, HasUrgent, TextBytes, Opened, Counted;
    ReportsAppend(s.log + Reports(s.dropped, s.reportedDrops), Texts(s.worker.batch));
    ReportsAppend(s.log, Reports(s.dropped, s.reportedDrops));
    NoReports(s.worker.batch);
  }

  lemma ReportsStep(s: State, e: Event)
    requires ReportsTrue(s) && Enabled(s, e)
    ensures ReportsTrue(Step(s, e)) && (e.Write? ==> LastReport(ReportsOf(Step(s, e).log)) == s.dropped)
  {
    hide Written, ReportsOf, Kept;
    if e.Write? {
      WriteReports(s, e.flushDue);
      WrittenKeeps(s, e.flushDue);
    }
  }

  /** In every interleaving the reports are true, and every batch leaves the latest number in the log. */
  lemma {:induction false} ReportsInRuns(s: State, events: seq<Event>)
    requires ReportsTrue(s) && Possible(s, events)
    ensures ReportsTrue(Run(s, events))
    decreases |events|
  {
    hide ReportsTrue, Step;
    if events != [] {
      ReportsStep(s, events[0]);
      ReportsInRuns(Step(s, events[0]), events[1..]);
    }
  }
}
