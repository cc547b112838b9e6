/**
  The asynchronous diagnostic writer: producers put lines into a bounded ring, a worker takes them out in
  batches and writes them, and one owner starts and stops the worker.  Every step happens under the lock.
 */
module DiagnosticQueue {
  import opened Wrappers

  const QUEUE_CAPACITY := 64
  const LINE_BYTES := 4096

  datatype Entry = Entry(text: string, urgent: bool)

  /** A line of the log: a report of how many were dropped so far, or an entry. */
  datatype Line = Report(dropped: nat) | Text(entry: Entry)

  datatype Worker = Absent | Waiting | Writing(batch: seq<Entry>, shouldStop: bool) | Finished

  // ----- The protocol on values -----

  /** Whether the worker has the file open, and what it has counted. */
  datatype FileState = FileState(open: bool, batches: nat, bytesWritten: nat, fileOpens: nat, flushes: nat)

  /** `accepted` is the history of what enqueue has accepted; the first `flushed` lines of the log are on disk. */
  datatype State = State(
    queue: seq<Entry>, running: bool, stopping: bool, joining: bool, worker: Worker, log: seq<Line>, flushed: nat,
    enqueued: nat, dropped: nat, highWatermark: nat, reportedDrops: nat, file: FileState,
    accepted: seq<Entry>)

  datatype Event =
    | Start
    | BeginStop
    | EndStop
    | Enqueue(text: Option<string>, urgent: bool)
    | Drain
    | Write(flushDue: bool)

  function Initial(): State {
    State([], false, false, false, Absent, [], 0, 0, 0, 0, 0, FileState(false, 0, 0, 0, 0), [])
  }

  /** The owner makes one call after the other; the worker waits for something to do, and stop for the worker. */
  predicate Enabled(s: State, e: Event) {
    match e
    case Start => !s.joining
    case BeginStop => !s.joining
    case EndStop => s.joining && s.worker.Finished?
    case Enqueue(_, _) => true
    case Drain => s.worker.Waiting? && (s.stopping || s.queue != [])
    case Write(_) => s.worker.Writing?
  }

  function Started(s: State): State {
    if s.running then s else s.(stopping := false, worker := Waiting, running := true)
  }

  function StopBegun(s: State): State {
    if s.running then s.(stopping := true, joining := true) else s
  }

  function StopEnded(s: State): State {
    s.(running := false, stopping := false, joining := false, worker := Absent, queue := [])
  }

  predicate Accepts(s: State) {
    s.running && !s.stopping && |s.queue| < QUEUE_CAPACITY
  }

  /** What is kept of a text; one byte of the line is left for the terminator. */
  function Kept(text: string): string {
    if |text| < LINE_BYTES then text else text[..LINE_BYTES - 1]
  }

  function Max(a: nat, b: nat): nat {
    if a < b then b else a
  }

  function Enqueued(s: State, text: Option<string>, urgent: bool): State {
    if text.None? || text.value == [] then s
    else if !Accepts(s) then s.(dropped := s.dropped + 1)
    else
      var entry := Entry(Kept(text.value), urgent);
      s.(queue := s.queue + [entry], accepted := s.accepted + [entry], enqueued := s.enqueued + 1,
         highWatermark := Max(s.highWatermark, |s.queue| + 1))
  }

  function Drained(s: State): State {
    s.(worker := Writing(s.queue, s.stopping), queue := [])
  }

  predicate HasUrgent(entries: seq<Entry>) {
    exists i :: 0 <= i < |entries| && entries[i].urgent
  }

  function Texts(batch: seq<Entry>): (lines: seq<Line>)
    ensures |lines| == |batch| && forall i :: 0 <= i < |lines| ==> lines[i] == Text(batch[i])
  {
    seq(|batch|, i requires 0 <= i < |batch| => Text(batch[i]))
  }

  /** A report when more were dropped than the last one said. */
  function Reports(dropped: nat, reportedDrops: nat): seq<Line> {
    if dropped != reportedDrops then [Report(dropped)] else []
  }

  function Written(s: State, flushDue: bool): State
    requires s.worker.Writing?
  {
    var log := s.log + Reports(s.dropped, s.reportedDrops) + Texts(s.worker.batch);
    var flush := HasUrgent(s.worker.batch) || s.worker.shouldStop || flushDue;
    s.(log := log, reportedDrops := s.dropped, flushed := if flush then |log| else s.flushed,
       file := Counted(Opened(s.file), TextBytes(s.worker.batch), flush, s.worker.shouldStop),
       worker := if s.worker.shouldStop then Finished else Waiting)
  }

  function Opened(file: FileState): FileState {
    if file.open then file else file.(open := true, fileOpens := file.fileOpens + 1)
  }

  /** A batch is written and counted; the file is closed when the worker stops. */
  function Counted(file: FileState, bytes: nat, flush: bool, shouldStop: bool): FileState {
    file.(open := file.open && !shouldStop, batches := file.batches + 1, bytesWritten := file.bytesWritten + bytes,
          flushes := if flush then file.flushes + 1 else file.flushes)
  }

  /** The length of all texts. */
  function TextBytes(entries: seq<Entry>): nat {
    if entries == [] then 0 else TextBytes(entries[..|entries| - 1]) + |entries[|entries| - 1].text|
  }

  function Step(s: State, e: Event): State
    requires Enabled(s, e)
  {
    match e
    case Start => Started(s)
    case BeginStop => StopBegun(s)
    case EndStop => StopEnded(s)
    case Enqueue(text, urgent) => Enqueued(s, text, urgent)
    case Drain => Drained(s)
    case Write(flushDue) => Written(s, flushDue)
  }

  predicate Possible(s: State, events: seq<Event>)
    decreases |events|
  {
    events == [] || (Enabled(s, events[0]) && Possible(Step(s, events[0]), events[1..]))
  }

  function Run(s: State, events: seq<Event>): State
    requires Possible(s, events)
    decreases |events|
  {
    if events == [] then s else Run(Step(s, events[0]), events[1..])
  }

  // ----- What every interleaving keeps -----

  /** The entries in a log. */
  function EntriesOf(log: seq<Line>): seq<Entry> {
    if log == [] then []
    else EntriesOf(log[..|log| - 1]) + (if log[|log| - 1].Text? then [log[|log| - 1].entry] else [])
  }

  function InFlight(worker: Worker): seq<Entry> {
    if worker.Writing? then worker.batch else []
  }

  /** What was accepted is what was written, then what is being written, then what waits, in order. */
  ghost predicate Conserved(s: State) {
    s.accepted == EntriesOf(s.log) + InFlight(s.worker) + s.queue
    && s.enqueued == |s.accepted| && s.file.bytesWritten == TextBytes(EntriesOf(s.log))
    && |s.queue| <= s.highWatermark <= QUEUE_CAPACITY
  }

  /** How far starting and stopping has come. */
  ghost predicate Phases(s: State) {
    (s.running <==> !s.worker.Absent?)
    && (s.stopping <==> s.joining) && (s.stopping ==> s.running)
    && (s.worker.Finished? ==> s.stopping && s.queue == [])
    && (s.worker.Writing? && s.worker.shouldStop ==> s.stopping && s.queue == [])
    && (s.file.open ==> (s.worker.Waiting? || s.worker.Writing?) && s.file.fileOpens > 0)
  }

  /** No urgent entry waits in a buffer once it is written, and nothing at all once the worker is done. */
  ghost predicate Flushed(s: State) {
    s.flushed <= |s.log|
    && (forall i :: s.flushed <= i < |s.log| && s.log[i].Text? ==> !s.log[i].entry.urgent)
    && (s.worker.Finished? ==> s.flushed == |s.log|)
  }

  ghost predicate Sound(s: State) {
    Conserved(s) && Phases(s) && Flushed(s)
  }

  lemma {:induction false} EntriesAppend(log: seq<Line>, more: seq<Line>)
    ensures EntriesOf(log + more) == EntriesOf(log) + EntriesOf(more)
  {
    if more == [] {
      assert log + more == log;
    } else {
      var k := |more| - 1;
      EntriesAppend(log, more[..k]);
      assert (log + more)[..|log| + k] == log + more[..k];
    }
  }

  lemma {:induction false} EntriesOfTexts(batch: seq<Entry>)
    ensures EntriesOf(Texts(batch)) == batch
  {
    if batch != [] {
      var k := |batch| - 1;
      EntriesOfTexts(batch[..k]);
      assert Texts(batch)[..k] == Texts(batch[..k]);
    }
  }

  lemma WrittenEntries(s: State)
    requires s.worker.Writing?
    ensures EntriesOf(s.log + Reports(s.dropped, s.reportedDrops) + Texts(s.worker.batch)) == EntriesOf(s.log) + s.worker.batch
  {
    EntriesAppend(s.log + Reports(s.dropped, s.reportedDrops), Texts(s.worker.batch));
    EntriesAppend(s.log, Reports(s.dropped, s.reportedDrops));
    EntriesOfTexts(s.worker.batch);
    assert EntriesOf(Reports(s.dropped, s.reportedDrops)) == [];
  }

  lemma {:induction false} BytesAppend(x: seq<Entry>, y: seq<Entry>)
    ensures TextBytes(x + y) == TextBytes(x) + TextBytes(y)
  {
    if y == [] {
      assert x + y == x;
    } else {
      var k := |y| - 1;
      BytesAppend(x, y[..k]);
      assert (x + y)[..|x| + k] == x + y[..k];
    }
  }

  lemma WriteSound(s: State, flushDue: bool)
    requires Sound(s) && s.worker.Writing?
    ensures Sound(Written(s, flushDue))
  {
    hide EntriesOf, TextBytes;
    WrittenEntries(s);
    BytesAppend(EntriesOf(s.log), s.worker.batch);
    var t := Written(s, flushDue);
    if t.flushed != |t.log| {
      assert !HasUrgent(s.worker.batch);
    }
  }

  lemma StepSound(s: State, e: Event)
    requires Sound(s) && Enabled(s, e)
    ensures Sound(Step(s, e))
  {
    hide EntriesOf, Written, TextBytes;
    if e.Write? {
      WriteSound(s, e.flushDue);
    }
  }

  /** Every interleaving of producers, worker and owner conserves the entries and their order. */
  lemma {:induction false} RunSound(s: State, events: seq<Event>)
    requires Sound(s) && Possible(s, events)
    ensures Sound(Run(s, events))
    decreases |events|
  {
    hide Sound, Step;
    if events != [] {
      StepSound(s, events[0]);
      RunSound(Step(s, events[0]), events[1..]);
    }
  }

  /** When stop returns, every accepted entry is in the log, in order, and on disk. */
  lemma StopWritesAll(events: seq<Event>)
    requires Possible(Initial(), events)
    requires var s := Run(Initial(), events); Enabled(s, EndStop)
    ensures
      var s := Run(Initial(), events);
      var t := Step(s, EndStop);
      EntriesOf(t.log) == t.accepted && t.flushed == |t.log| && t.accepted == s.accepted && s.queue == []
  {
    hide Run, EntriesOf;
    NothingWritten();
    assert Sound(Initial());
    RunSound(Initial(), events);
  }

  lemma NothingWritten()
    ensures EntriesOf([]) == []
  {}

  // ----- Stopping ends -----

  /** The steps that the worker has before it once it is told to stop. */
  function StepsLeft(worker: Worker): nat {
    match worker
    case Writing(_, shouldStop) => if shouldStop then 1 else 3
    case Waiting => 2
    case _ => 0
  }

  /** A stop cannot get stuck: the worker can always go on, and is done after three steps at most. */
  lemma StopProgresses(s: State)
    requires Sound(s) && s.joining
    ensures s.worker.Finished? <==> StepsLeft(s.worker) == 0
    ensures s.worker.Finished? ==> Enabled(s, EndStop)
    ensures s.worker.Waiting? ==> Enabled(s, Drain) && StepsLeft(Step(s, Drain).worker) < StepsLeft(s.worker)
    ensures
      s.worker.Writing? ==>
        forall due :: Enabled(s, Write(due)) && StepsLeft(Step(s, Write(due)).worker) < StepsLeft(s.worker)
  {
    hide EntriesOf, Conserved, Flushed, Texts, Reports;
  }

  // ----- Counters -----

  /** The largest depth of the queue in a run. */
  function MaxDepth(s: State, events: seq<Event>): nat
    requires Possible(s, events)
    decreases |events|
  {
    if events == [] then |s.queue| else Max(|s.queue|, MaxDepth(Step(s, events[0]), events[1..]))
  }

  lemma StepHigh(s: State, e: Event)
    requires Sound(s) && Enabled(s, e)
    ensures Step(s, e).highWatermark == Max(s.highWatermark, |Step(s, e).queue|)
  {
    hide EntriesOf, Written, Flushed, Phases, TextBytes;
    if e.Write? {
      WrittenKeeps(s, e.flushDue);
    }
  }

  lemma WrittenKeeps(s: State, flushDue: bool)
    requires s.worker.Writing?
    ensures
      var t := Written(s, flushDue);
      t.highWatermark == s.highWatermark && t.queue == s.queue && t.enqueued == s.enqueued && t.dropped == s.dropped
  {
    hide Texts, Reports, HasUrgent;
  }

  /** The high watermark is the true maximum of the depth. */
  lemma {:induction false} HighWatermarkTrue(s: State, events: seq<Event>)
    requires Sound(s) && Possible(s, events)
    ensures Run(s, events).highWatermark == Max(s.highWatermark, MaxDepth(s, events))
    decreases |events|
  {
    hide Sound, Step;
    SoundDepth(s);
    if events != [] {
      StepHigh(s, events[0]);
      StepSound(s, events[0]);
      HighWatermarkTrue(Step(s, events[0]), events[1..]);
    }
  }

  lemma SoundDepth(s: State)
    requires Sound(s)
    ensures |s.queue| <= s.highWatermark <= QUEUE_CAPACITY
  {}

  /** The calls of enqueue that had something to say. */
  function Offers(events: seq<Event>): nat {
    if events == [] then 0
    else (if events[0].Enqueue? && events[0].text.Some? && events[0].text.value != [] then 1 else 0) + Offers(events[1..])
  }

  /** Each of them is counted once, as enqueued or as dropped. */
  lemma {:induction false} EveryOfferCounted(s: State, events: seq<Event>)
    requires Possible(s, events)
    ensures
      var t := Run(s, events);
      t.enqueued + t.dropped == s.enqueued + s.dropped + Offers(events)
    decreases |events|
  {
    hide Written;
    if events != [] {
      if events[0].Write? {
        WrittenKeeps(s, events[0].flushDue);
      }
      EveryOfferCounted(Step(s, events[0]), events[1..]);
    }
  }

  /** The writes in a run, and how many of them were the first of a worker. */
  function Writes(events: seq<Event>): nat {
    if events == [] then 0 else (if events[0].Write? then 1 else 0) + Writes(events[1..])
  }

  function FirstWrites(s: State, events: seq<Event>): nat
    requires Possible(s, events)
    decreases |events|
  {
    if events == [] then 0
    else (if events[0].Write? && !s.file.open then 1 else 0) + FirstWrites(Step(s, events[0]), events[1..])
  }

  /** Batches are the writes; the file is opened for the first one of every worker, and closed when it stops. */
  lemma {:induction false} EveryWriteCounted(s: State, events: seq<Event>)
    requires Possible(s, events)
    ensures
      var t := Run(s, events);
      t.file.batches == s.file.batches + Writes(events) && t.file.fileOpens == s.file.fileOpens + FirstWrites(s, events)
      && s.file.flushes <= t.file.flushes <= s.file.flushes + Writes(events)
    decreases |events|
  {
    hide Texts, Reports, HasUrgent, TextBytes, Enqueued;
    if events != [] {
      if events[0].Enqueue? {
        EnqueuedFile(s, events[0].text, events[0].urgent);
      }
      EveryWriteCounted(Step(s, events[0]), events[1..]);
    }
  }

  lemma EnqueuedFile(s: State, text: Option<string>, urgent: bool)
    ensures Enqueued(s, text, urgent).file == s.file
  {}

  // ----- The writer -----

  /** A place in the ring, counted from its start. */
  function Wrap(i: nat): (r: nat)
    requires i < 2 * QUEUE_CAPACITY
    ensures r == i % QUEUE_CAPACITY
  {
    if i < QUEUE_CAPACITY then i else i - QUEUE_CAPACITY
  }

  /** The contents of a ring that starts at head. */
  ghost function Ring(entries: seq<Entry>, head: nat, count: nat): (r: seq<Entry>)
    requires count == 0 || (count <= |entries| == QUEUE_CAPACITY && head < QUEUE_CAPACITY)
    ensures |r| == count && forall k :: 0 <= k < count ==> r[k] == entries[Wrap(head + k)]
  {
    seq(count, k requires 0 <= k < count => entries[Wrap(head + k)])
  }

  lemma RingPush(entries: seq<Entry>, head: nat, count: nat, entry: Entry)
    requires count < |entries| == QUEUE_CAPACITY && head < QUEUE_CAPACITY
    ensures Ring(entries[Wrap(head + count) := entry], head, count + 1) == Ring(entries, head, count) + [entry]
  {
    hide Ring;
    var r := Ring(entries[Wrap(head + count) := entry], head, count + 1);
    forall k | 0 <= k < count
      ensures r[k] == Ring(entries, head, count)[k]
    {
      assert Wrap(head + k) != Wrap(head + count);
    }
  }

  lemma RingPop(entries: seq<Entry>, head: nat, count: nat)
    requires 0 < count <= |entries| == QUEUE_CAPACITY && head < QUEUE_CAPACITY
    ensures Ring(entries, head, count) == [entries[head]] + Ring(entries, Wrap(head + 1), count - 1)
  {
    hide Ring;
    var rest := Ring(entries, Wrap(head + 1), count - 1);
    forall k | 0 < k < count
      ensures Ring(entries, head, count)[k] == rest[k - 1]
    {
      assert Wrap(head + k) == Wrap(Wrap(head + 1) + (k - 1));
    }
  }

  class DropDiagnosticWriter {
    var entries: array<Entry>
    var head: nat
    var count: nat
    var running: bool
    var stopping: bool
    var joining: bool
    var worker: Worker
    var log: seq<Line>
    var flushed: nat
    var enqueued: nat
    var dropped: nat
    var queueHighWatermark: nat
    var reportedDrops: nat
    var open: bool
    var batches: nat
    var bytesWritten: nat
    var fileOpens: nat
    var flushes: nat
    ghost var accepted: seq<Entry>

    /** Either the ring has not been set up, or it has its capacity. */
    ghost predicate Valid()
      reads this`entries, this`running, this`head, this`count
    {
      (entries.Length == 0 && !running && head == count == 0)
      || (entries.Length == QUEUE_CAPACITY && head < QUEUE_CAPACITY && count <= QUEUE_CAPACITY)
    }

    ghost function Queue(): seq<Entry>
      requires Valid()
      reads this`entries, this`running, this`head, this`count, entries
    {
      Ring(entries[..], head, count)
    }

    ghost function File(): FileState
      reads this`open, this`batches, this`bytesWritten, this`fileOpens, this`flushes
    {
      FileState(open, batches, bytesWritten, fileOpens, flushes)
    }

    ghost function Current(): State
      requires Valid()
      reads this, entries
    {
      State(Queue(), running, stopping, joining, worker, log, flushed, enqueued, dropped, queueHighWatermark,
            reportedDrops, File(), accepted)
    }

    constructor ()
      ensures Valid() && Current() == Initial() && fresh(entries)
    {
      entries := new Entry[0];
      head, count, running, stopping, joining, worker := 0, 0, false, false, false, Absent;
      log, flushed, enqueued, dropped, queueHighWatermark, reportedDrops := [], 0, 0, 0, 0, 0;
      open, batches, bytesWritten, fileOpens, flushes := false, 0, 0, 0, 0;
      accepted := [];
    }

    method StartWorker()
      requires Valid() && Enabled(Current(), Start) && Phases(Current())
      modifies this`entries, this`stopping, this`worker, this`running
      ensures Valid() && Current() == Started(old(Current()))
      ensures entries == old(entries) || fresh(entries)
    {
      if running {
        return;
      }
      if entries.Length == 0 {
        entries := new Entry[QUEUE_CAPACITY](_ => Entry("", false));
      }
      stopping := false;
      worker := Waiting;
      running := true;
    }

    method BeginStopping()
      requires Valid() && Enabled(Current(), BeginStop)
      modifies this`stopping, this`joining
      ensures Valid() && Current() == StopBegun(old(Current()))
    {
      if !running {
        return;
      }
      stopping := true;
      joining := true;
    }

    method EndStopping()
      requires Valid() && Enabled(Current(), EndStop)
      modifies this`worker, this`joining, this`running, this`stopping, this`head, this`count
      ensures Valid() && Current() == StopEnded(old(Current())) && entries == old(entries)
    {
      hide Ring, File;
      EmptyRing(entries[..], 0);
      worker := Absent;
      joining := false;
      running := false;
      stopping := false;
      head := 0;
      count := 0;
    }

    method EnqueueText(text: Option<string>, urgent: bool) returns (ok: bool)
      requires Valid()
      modifies this`dropped, this`enqueued, this`queueHighWatermark, this`count, this`accepted, entries
      ensures Valid() && entries == old(entries)
      ensures Current() == Enqueued(old(Current()), text, urgent)
      ensures ok <==> text.Some? && text.value != [] && Accepts(old(Current()))
    {
      hide Ring, File;
      if text.None? || text.value == [] {
        return false;
      }
      if !running || stopping || count >= entries.Length {
        dropped := dropped + 1;
        return false;
      }
      var length := if |text.value| < LINE_BYTES - 1 then |text.value| else LINE_BYTES - 1;
      assert text.value[..length] == Kept(text.value);
      PushEntry(Entry(text.value[..length], urgent));
      enqueued := enqueued + 1;
      if count > queueHighWatermark {
        queueHighWatermark := count;
      }
      ok := true;
    }

    /** Stores an entry behind the last one. */
    method PushEntry(entry: Entry)
      requires Valid() && entries.Length == QUEUE_CAPACITY && count < QUEUE_CAPACITY
      modifies this`count, this`accepted, entries
      ensures Valid() && Queue() == old(Queue()) + [entry] && accepted == old(accepted) + [entry]
    {
      hide Ring;
      ghost var before := entries[..];
      var index := (head + count) % entries.Length;
      RingPush(before, head, count, entry);
      entries[index] := entry;
      assert entries[..] == before[index := entry];
      count := count + 1;
      accepted := accepted + [entry];
    }

    /** Takes the first entry out. */
    method PopEntry() returns (entry: Entry)
      requires Valid() && count > 0
      modifies this`head, this`count
      ensures Valid() && old(Queue()) == [entry] + Queue() && count == old(count) - 1
    {
      hide Ring;
      RingPop(entries[..], head, count);
      entry := entries[head];
      head := (head + 1) % entries.Length;
      count := count - 1;
    }

    method HasUrgentLocked() returns (urgent: bool)
      requires Valid()
      ensures urgent == HasUrgent(Queue())
    {
      var offset := 0;
      while offset < count
        invariant offset <= count
        invariant forall k :: 0 <= k < offset ==> !Queue()[k].urgent
      {
        var index := (head + offset) % entries.Length;
        assert Queue()[offset] == entries[..][Wrap(head + offset)];
        if entries[index].urgent {
          return true;
        }
        offset := offset + 1;
      }
      urgent := false;
    }

    /** The worker empties the ring under the lock. */
    method DrainQueue() returns (batchUrgent: bool)
      requires Valid() && Enabled(Current(), Drain) && Phases(Current())
      modifies this`head, this`count, this`worker
      ensures Valid() && Current() == Drained(old(Current()))
      ensures batchUrgent == HasUrgent(worker.batch)
    {
      hide Ring, HasUrgent;
      ghost var all := Queue();
      NoneUrgent();
      var batch := [];
      batchUrgent := false;
      while count > 0
        invariant Valid() && batch + Queue() == all
        invariant batchUrgent == HasUrgent(batch)
      {
        var entry := PopEntry();
        UrgentAppend(batch, entry);
        batchUrgent := batchUrgent || entry.urgent;
        batch := batch + [entry];
      }
      assert Queue() == [] && batch == all;
      worker := Writing(batch, stopping);
    }

    /** The worker writes its batch outside the lock of the queue, and closes the file when it stops. */
    method WriteBatch(batchUrgent: bool, flushDue: bool)
      requires Valid() && Enabled(Current(), Write(flushDue)) && batchUrgent == HasUrgent(worker.batch)
      modifies this`log, this`flushed, this`reportedDrops, this`worker, this`open, this`batches, this`bytesWritten,
        this`fileOpens, this`flushes
      ensures Valid() && Current() == Written(old(Current()), flushDue)
    {
      hide Ring, HasUrgent, TextBytes, Opened, Counted, Texts, Queue, Reports, Written, File, Valid;
      WrittenFields(Current(), flushDue);
      var batch, shouldStop := worker.batch, worker.shouldStop;
      WriteOut(batch, batchUrgent || shouldStop || flushDue, shouldStop);
    }

    method WriteOut(batch: seq<Entry>, flush: bool, shouldStop: bool)
      modifies this`log, this`flushed, this`reportedDrops, this`worker, this`open, this`batches, this`bytesWritten,
        this`fileOpens, this`flushes
      ensures log == old(log + Reports(dropped, reportedDrops)) + Texts(batch) && reportedDrops == dropped
      ensures flushed == (if flush then |log| else old(flushed)) && worker == if shouldStop then Finished else Waiting
      ensures File() == Counted(Opened(old(File())), TextBytes(batch), flush, shouldStop)
    {
      hide TextBytes, Texts, Reports, Opened, Counted;
      OpenLog();
      var batchBytes := WriteLines(batch);
      FinishBatch(batchBytes, flush, shouldStop);
    }

    /** Flushes if that is due, counts, and goes back to waiting or ends. */
    method FinishBatch(batchBytes: nat, flush: bool, shouldStop: bool)
      modifies this`flushed, this`worker, this`open, this`batches, this`bytesWritten, this`flushes
      ensures File() == Counted(old(File()), batchBytes, flush, shouldStop)
      ensures flushed == (if flush then |log| else old(flushed)) && worker == if shouldStop then Finished else Waiting
    {
      if flush {
        flushed := |log|;
        flushes := flushes + 1;
      }
      batches := batches + 1;
      bytesWritten := bytesWritten + batchBytes;
      if shouldStop {
        open := false;
      }
      worker := if shouldStop then Finished else Waiting;
    }

    method OpenLog()
      modifies this`open, this`fileOpens
      ensures File() == Opened(old(File()))
    {
      if !open {
        open := true;
        fileOpens := fileOpens + 1;
      }
    }

    /** A report of drops if there were new ones, and the entries. */
    method WriteLines(batch: seq<Entry>) returns (batchBytes: nat)
      modifies this`log, this`reportedDrops
      ensures log == old(log + Reports(dropped, reportedDrops)) + Texts(batch)
      ensures reportedDrops == dropped && batchBytes == TextBytes(batch)
    {
      if dropped != reportedDrops {
        log := log + [Report(dropped)];
        reportedDrops := dropped;
      }
      batchBytes := WriteEntries(batch);
    }

    method WriteEntries(batch: seq<Entry>) returns (batchBytes: nat)
      modifies this`log
      ensures log == old(log) + Texts(batch) && batchBytes == TextBytes(batch)
    {
      batchBytes := 0;
      for i := 0 to |batch|
        invariant log == old(log) + Texts(batch[..i]) && batchBytes == TextBytes(batch[..i])
      {
        assert Texts(batch[..i + 1]) == Texts(batch[..i]) + [Text(batch[i])];
        assert batch[..i + 1][..i] == batch[..i];
        log := log + [Text(batch[i])];
        batchBytes := batchBytes + |batch[i].text|;
      }
      assert batch[..|batch|] == batch;
    }
  }

  lemma WrittenFields(s: State, flushDue: bool)
    requires s.worker.Writing?
    ensures
      var flush := HasUrgent(s.worker.batch) || s.worker.shouldStop || flushDue;
      var log := s.log + Reports(s.dropped, s.reportedDrops) + Texts(s.worker.batch);
      Written(s, flushDue) == State(
        s.queue, s.running, s.stopping, s.joining, if s.worker.shouldStop then Finished else Waiting, log,
        if flush then |log| else s.flushed, s.enqueued, s.dropped, s.highWatermark, s.dropped,
        Counted(Opened(s.file), TextBytes(s.worker.batch), flush, s.worker.shouldStop), s.accepted)
  {}

  lemma EmptyRing(entries: seq<Entry>, head: nat)
    ensures Ring(entries, head, 0) == []
  {}

  lemma NoneUrgent()
    ensures !HasUrgent([])
  {}

  lemma UrgentAppend(entries: seq<Entry>, entry: Entry)
    ensures HasUrgent(entries + [entry]) <==> HasUrgent(entries) || entry.urgent
  {
    if HasUrgent(entries) {
      var i :| 0 <= i < |entries| && entries[i].urgent;
      assert (entries + [entry])[i].urgent;
    }
    if entry.urgent {
      assert (entries + [entry])[|entries|].urgent;
    }
    if HasUrgent(entries + [entry]) && !entry.urgent {
      var i :| 0 <= i < |entries + [entry]| && (entries + [entry])[i].urgent;
      assert entries[i].urgent;
    }
  }
}
