/**
  What every run of the bitrate controller keeps, how fast it recovers, and where a counter's wrap-around
  gets in the way.
 */
module AdaptiveBitrateRuns {
  import opened AdaptiveBitrate

  const WRAP := 0x1_0000_0000

  // ----- The invariant -----

  /** The order of the limits, and the ranges of the counters. */
  ghost predicate Safe(s: State) {
    1 <= s.minimum <= s.target <= s.receiverCeiling <= s.configuredMax
    && s.minimum == Min(FLOOR_KBPS, s.configuredMax)
    && s.congestedWindows < 3 && s.stableWindows < 6 && s.probeWindows < 2
    && s.cooldown <= 15 && (s.cooldown > 0 ==> s.stableWindows == 0)
    && (s.latched ==> s.bestInflation >= 25)
    && (s.receiverCeiling == s.configuredMax || s.receiverCeiling == Min(s.configuredMax, OVERSIZED_CLOUD_CEILING_KBPS))
  }

  /** An episode is open exactly when the target is below its ceiling. */
  ghost predicate Episode(s: State) {
    s.reductions > 0 <==> s.target < s.episodeCeiling
  }

  lemma InitialSafe(mode: Mode, configuredMax: int)
    ensures Safe(Initial(mode, configuredMax)) && Episode(Initial(mode, configuredMax))
  {}

  lemma LoweredRange(s: State)
    requires Safe(s)
    ensures s.minimum <= Lowered(s) <= s.target && s.minimum <= SeverelyLowered(s) <= s.target
    ensures s.target > s.minimum ==> Lowered(s) < s.target && SeverelyLowered(s) < s.target
  {}

  /** Raising takes a lowering back exactly when the floor did not cut the step short, or the ceiling stops the raise there. */
  lemma RaiseUndoesLower(s: State)
    requires Safe(s)
    ensures
      Raised(s.(target := Lowered(s))) == s.target <==>
      s.target - STEP_KBPS >= s.minimum || s.target == s.receiverCeiling
  {}

  /** Recording a reduction keeps the episode, except when the count of reductions wraps around to zero. */
  lemma ReduceEpisode(s: State, target: int)
    requires Episode(s) && target <= s.target
    ensures Episode(Reduce(s, target)) <==> !(target < s.target && s.reductions == WRAP - 1)
  {}

  /** Lowering the target at the largest count, which wraps it around to zero. */
  predicate Wraps(s: State, t: State) {
    t.target < s.target && s.reductions == WRAP - 1
  }

  /**
    One stage of an observation stays within the limits, counts a reduction when it lowers the target, and keeps
    the episode unless the count wraps around.
   */
  ghost predicate Kept(s: State, t: State) {
    Safe(t) && t.reductions <= s.reductions + (if t.target < s.target then 1 else 0)
    && (Episode(s) ==> (Episode(t) <==> !Wraps(s, t)))
  }

  lemma OversizeKept(s: State, signal: Signal)
    requires Safe(s)
    ensures Kept(s, AfterOversize(s, signal))
  {
    hide Oversized;
  }

  lemma HardRecoveryKept(s: State)
    requires Safe(s)
    ensures Kept(s, AfterHardRecovery(s))
  {
    hide Lowered;
    LoweredRange(s);
  }

  lemma ProbeKept(s: State, p: Path)
    requires Safe(s) && s.latched && RttOnly(s.mode, p)
    ensures Kept(s, AfterProbe(s, p))
  {
    hide StrongCongestion, Raised, Raise;
    var u := s.(probeWindows := s.probeWindows + 1);
    assert Raised(u) == Min(s.receiverCeiling, s.target + STEP_KBPS) by { RaisedTo(s, u); }
    RaiseFields(u);
  }

  lemma RaisedTo(s: State, u: State)
    requires Safe(s) && u.target == s.target && u.configuredMax == s.configuredMax && u.receiverCeiling == s.receiverCeiling
    ensures Raised(u) == Min(s.receiverCeiling, s.target + STEP_KBPS)
  {}

  lemma SevereKept(s: State)
    requires Safe(s)
    ensures Kept(s, AfterSevere(s))
  {
    hide SeverelyLowered;
    LoweredRange(s);
  }

  lemma CongestedKept(s: State, p: Path)
    requires Safe(s)
    ensures Kept(s, AfterCongested(s, p))
  {
    hide StrongCongestion, Lowered, Reduce, Latched;
    var u := s.(stableWindows := 0, congestedWindows := s.congestedWindows + 1);
    assert Lowered(u) == Lowered(s) by { SameLowered(s, u); }
    LoweredRange(s);
    ReduceFields(u, Lowered(u));
    var t := Reduce(u, Lowered(u)).(cooldown := CloudCooldown(u), everCongested := true);
    if u.congestedWindows >= if RttOnly(s.mode, p) then RTT_ONLY_WINDOWS_TO_LOWER else CONGESTED_WINDOWS_TO_LOWER {
      LatchedKept(s, t, p, RttOnly(s.mode, p));
    }
  }

  lemma LatchedKept(s: State, t: State, p: Path, rttOnly: bool)
    requires Kept(s, t.(congestedWindows := 0)) && (rttOnly ==> p.rttInflationMs >= 25)
    ensures Kept(s, Latched(t, p, rttOnly))
  {}

  lemma ReduceFields(s: State, target: int)
    requires target <= s.target
    ensures
      var t := Reduce(s, target);
      t == s.(target := target, episodeCeiling := t.episodeCeiling, reductions := t.reductions)
      && t.reductions <= s.reductions + (if t.target < s.target then 1 else 0)
      && (Episode(s) ==> (Episode(t) <==> !Wraps(s, t)))
  {}

  lemma RaiseFields(s: State)
    requires s.target <= Raised(s)
    ensures
      var t := Raise(s);
      t == s.(target := Raised(s), episodeCeiling := t.episodeCeiling, reductions := t.reductions)
      && t.reductions <= s.reductions && (Episode(s) ==> Episode(t))
  {
    hide Raised;
  }

  lemma SameLowered(s: State, u: State)
    requires u.target == s.target && u.minimum == s.minimum
    ensures Lowered(u) == Lowered(s)
  {}

  lemma StableKept(s: State)
    requires Safe(s)
    ensures Kept(s, AfterStable(s))
  {
    hide Raised, Raise;
    var u := s.(congestedWindows := 0, latched := false, stableWindows := s.stableWindows + 1);
    RaisedTo(s, u);
    RaiseFields(u);
  }

  lemma OrdinaryKept(s: State, p: Path, hardRecovery: bool)
    requires Safe(s)
    ensures Kept(s, AfterOrdinary(s, p, hardRecovery))
  {
    hide StrongCongestion, Severe, RttOnly, StableWindow, AfterSevere, AfterCongested, AfterStable;
    SevereKept(s);
    CongestedKept(s, p);
    StableKept(s);
  }

  lemma WindowKept(s: State, p: Path, hardRecovery: bool)
    requires Safe(s)
    ensures Kept(s, AfterWindow(s, p, hardRecovery))
  {
    hide StrongCongestion, RttOnly, AfterOrdinary, AfterProbe;
    var t := s.(lastSequence := p.sequence);
    OrdinaryKept(t.(latched := false, probeWindows := 0), p, hardRecovery);
    OrdinaryKept(t, p, hardRecovery);
    if s.latched && RttOnly(s.mode, p) {
      ProbeKept(t, p);
    }
  }

  /** Nothing but the size of the stream touches the ceiling. */
  predicate SameLimits(s: State, t: State) {
    t.oversized == s.oversized && t.receiverCeiling == s.receiverCeiling && t.configuredMax == s.configuredMax && t.mode == s.mode
  }

  lemma HardRecoveryLimits(s: State)
    ensures SameLimits(s, AfterHardRecovery(s))
  {
    hide Lowered;
  }

  lemma OrdinaryLimits(s: State, p: Path, hardRecovery: bool)
    ensures SameLimits(s, AfterOrdinary(s, p, hardRecovery))
  {
    hide StrongCongestion, RttOnly, StableWindow, Severe, AfterCongested, AfterStable, AfterSevere;
    CongestedLimits(s, p);
    StableLimits(s);
    assert SameLimits(s, AfterSevere(s)) by { SevereLimits(s); }
  }

  lemma CongestedLimits(s: State, p: Path)
    ensures SameLimits(s, AfterCongested(s, p))
  {
    hide RttOnly, Lowered;
  }

  lemma SevereLimits(s: State)
    ensures SameLimits(s, AfterSevere(s))
  {
    hide SeverelyLowered;
  }

  lemma StableLimits(s: State)
    ensures SameLimits(s, AfterStable(s))
  {
    hide Raised;
  }

  lemma ProbeLimits(s: State, p: Path)
    ensures SameLimits(s, AfterProbe(s, p))
  {
    hide Raised, Improved;
  }

  lemma WindowLimits(s: State, p: Path, hardRecovery: bool)
    ensures SameLimits(s, AfterWindow(s, p, hardRecovery))
  {
    hide StrongCongestion, RttOnly, AfterOrdinary, AfterProbe;
    var t := s.(lastSequence := p.sequence);
    OrdinaryLimits(t.(latched := false, probeWindows := 0), p, hardRecovery);
    OrdinaryLimits(t, p, hardRecovery);
    ProbeLimits(t, p);
  }

  /** Whether an oversized stream can still bring the ceiling down, which may cost a reduction of its own. */
  function OversizeAhead(s: State): nat {
    if s.mode.Cloud? && s.receiverCeiling != Min(s.configuredMax, OVERSIZED_CLOUD_CEILING_KBPS) then 1 else 0
  }

  lemma OversizeAheadStage(s: State, signal: Signal)
    requires Safe(s)
    ensures
      var t := AfterOversize(s, signal);
      OversizeAhead(t) <= OversizeAhead(s) && (t.target < s.target ==> OversizeAhead(t) < OversizeAhead(s))
  {}

  lemma HardRecoveryAhead(s: State)
    ensures OversizeAhead(AfterHardRecovery(s)) == OversizeAhead(s)
  {
    hide Lowered;
  }

  lemma WindowAhead(s: State, p: Path, hardRecovery: bool)
    ensures OversizeAhead(AfterWindow(s, p, hardRecovery)) == OversizeAhead(s)
  {
    hide AfterWindow;
    WindowLimits(s, p, hardRecovery);
  }

  /** The stages of an observation: the size of the stream, the rest of the signal, the window. */
  lemma StagesKept(s: State, p: Path, signal: Signal)
    requires Safe(s)
    ensures Kept(s, AfterOversize(s, signal))
    ensures Kept(AfterOversize(s, signal), AfterSignal(s, signal))
    ensures Kept(AfterSignal(s, signal), Observed(s, p, signal))
  {
    hide AfterOversize, AfterHardRecovery, AfterWindow, Safe;
    OversizeKept(s, signal);
    if signal.hardRecovery {
      HardRecoveryKept(AfterOversize(s, signal));
    }
    if Fresh(AfterSignal(s, signal), p) {
      WindowKept(AfterSignal(s, signal), p, signal.hardRecovery);
    }
  }

  /**
    One observation counts at most one reduction, and another one when the ceiling comes down for an oversized
    stream; it keeps the invariant while the count does not wrap around.
   */
  lemma ObservedInvariant(s: State, p: Path, signal: Signal)
    requires Safe(s)
    ensures
      var t := Observed(s, p, signal);
      Safe(t) && t.reductions + OversizeAhead(t) <= s.reductions + OversizeAhead(s) + 1
      && (Episode(s) && s.reductions + OversizeAhead(s) + 1 < WRAP ==> Episode(t))
  {
    hide AfterOversize, AfterHardRecovery, AfterWindow, Safe, Episode, OversizeAhead;
    var t, u := AfterOversize(s, signal), AfterSignal(s, signal);
    StagesKept(s, p, signal);
    OversizeAheadStage(s, signal);
    HardRecoveryAhead(t);
    WindowAhead(u, p, signal.hardRecovery);
    if signal.hardRecovery {
      HardWindow(u, p);
      HardWindowRaises(u, p);
    }
  }

  /** In every run: minimum <= target <= receiver ceiling <= configured maximum. */
  lemma {:induction false} RunSafe(s: State, inputs: seq<Input>)
    requires Safe(s)
    ensures Safe(Run(s, inputs))
    decreases |inputs|
  {
    hide Safe, Observed, Episode;
    if inputs != [] {
      ObservedInvariant(s, inputs[0].path, inputs[0].signal);
      RunSafe(Observed(s, inputs[0].path, inputs[0].signal), inputs[1..]);
    }
  }

  /**
    An episode is open exactly below its ceiling for as long as the count cannot wrap around: one reduction an
    observation, and one for an oversized stream.
   */
  lemma {:induction false} RunEpisode(s: State, inputs: seq<Input>)
    requires Safe(s) && Episode(s) && s.reductions + |inputs| + OversizeAhead(s) < WRAP
    ensures Episode(Run(s, inputs))
    decreases |inputs|
  {
    hide Safe, Observed, Episode, OversizeAhead;
    if inputs != [] {
      ObservedInvariant(s, inputs[0].path, inputs[0].signal);
      RunEpisode(Observed(s, inputs[0].path, inputs[0].signal), inputs[1..]);
    }
  }

  /** Both, for a controller that has just been created or reset. */
  lemma ReachableStates(mode: Mode, configuredMax: int, inputs: seq<Input>)
    ensures Safe(Run(Initial(mode, configuredMax), inputs))
    ensures |inputs| + OversizeAhead(Initial(mode, configuredMax)) < WRAP ==> Episode(Run(Initial(mode, configuredMax), inputs))
  {
    hide Run, Safe, Episode;
    InitialSafe(mode, configuredMax);
    RunSafe(Initial(mode, configuredMax), inputs);
    if |inputs| + OversizeAhead(Initial(mode, configuredMax)) < WRAP {
      RunEpisode(Initial(mode, configuredMax), inputs);
    }
  }

  // ----- Exactly when an episode breaks -----

  /** All states of a run, with the two stages inside each observation. */
  function Trace(s: State, inputs: seq<Input>): (r: seq<State>)
    ensures |r| == 3 * |inputs| + 1 && r[0] == s
    decreases |inputs|
  {
    if inputs == [] then [s]
    else
      var signal := inputs[0].signal;
      [s, AfterOversize(s, signal), AfterSignal(s, signal)] + Trace(Observed(s, inputs[0].path, signal), inputs[1..])
  }

  /** Every third state of the trace is the state after so many observations. */
  lemma {:induction false} TraceRuns(s: State, inputs: seq<Input>, k: nat)
    requires k <= |inputs|
    ensures Trace(s, inputs)[3 * k] == Run(s, inputs[..k])
    decreases k
  {
    hide Observed, AfterSignal, AfterOversize;
    if k > 0 {
      var t := Observed(s, inputs[0].path, inputs[0].signal);
      TraceRuns(t, inputs[1..], k - 1);
      assert inputs[..k][1..] == inputs[1..][..k - 1];
      assert Trace(s, inputs)[3 * k] == Trace(t, inputs[1..])[3 * (k - 1)];
    }
  }

  lemma {:induction false} TraceKept(s: State, inputs: seq<Input>, i: nat)
    requires Safe(s) && i + 1 < |Trace(s, inputs)|
    ensures Safe(Trace(s, inputs)[i]) && Kept(Trace(s, inputs)[i], Trace(s, inputs)[i + 1])
    decreases |inputs|
  {
    hide Observed, AfterSignal, AfterOversize, Kept, Safe;
    var p, signal := inputs[0].path, inputs[0].signal;
    var rest := Trace(Observed(s, p, signal), inputs[1..]);
    assert Trace(s, inputs) == [s, AfterOversize(s, signal), AfterSignal(s, signal)] + rest;
    StagesKept(s, p, signal);
    KeptSafe(s, AfterOversize(s, signal));
    KeptSafe(AfterOversize(s, signal), AfterSignal(s, signal));
    KeptSafe(AfterSignal(s, signal), Observed(s, p, signal));
    if i >= 3 {
      TraceKept(Observed(s, p, signal), inputs[1..], i - 3);
      assert Trace(s, inputs)[i] == rest[i - 3] && Trace(s, inputs)[i + 1] == rest[i - 2];
    }
  }

  lemma KeptSafe(s: State, t: State)
    requires Kept(s, t)
    ensures Safe(t)
  {}

  ghost predicate EpisodeThroughout(trace: seq<State>) {
    forall i :: 0 <= i < |trace| ==> Episode(trace[i])
  }

  predicate NeverWraps(trace: seq<State>) {
    forall i :: 0 <= i < |trace| - 1 ==> !Wraps(trace[i], trace[i + 1])
  }

  lemma {:induction false} EpisodeWhile(trace: seq<State>, n: nat)
    requires n < |trace| && Episode(trace[0]) && NeverWraps(trace)
    requires forall i :: 0 <= i < |trace| - 1 ==> Kept(trace[i], trace[i + 1])
    ensures Episode(trace[n])
  {
    hide Safe, Episode, Wraps;
    if n > 0 {
      EpisodeWhile(trace, n - 1);
      assert Kept(trace[n - 1], trace[n - 1 + 1]);
      assert !Wraps(trace[n - 1], trace[n - 1 + 1]);
    }
  }

  /**
    A run keeps the episode throughout exactly when the target is never lowered while the count of reductions
    stands at its largest value.
   */
  lemma EpisodeExact(s: State, inputs: seq<Input>)
    requires Safe(s) && Episode(s)
    ensures EpisodeThroughout(Trace(s, inputs)) <==> NeverWraps(Trace(s, inputs))
  {
    hide Safe, Episode, Wraps, Trace;
    var trace := Trace(s, inputs);
    forall i | 0 <= i < |trace| - 1
      ensures Kept(trace[i], trace[i + 1])
    {
      TraceKept(s, inputs, i);
    }
    if NeverWraps(trace) {
      forall n | 0 <= n < |trace|
        ensures Episode(trace[n])
      {
        EpisodeWhile(trace, n);
      }
    }
  }

  // ----- Runs in general -----

  lemma {:induction false} RunAppend(s: State, front: seq<Input>, back: seq<Input>)
    ensures Run(s, front + back) == Run(Run(s, front), back)
    decreases |front|
  {
    hide Observed;
    if front == [] {
      assert front + back == back;
    } else {
      assert (front + back)[1..] == front[1..] + back;
      RunAppend(Observed(s, front[0].path, front[0].signal), front[1..], back);
    }
  }

  // ----- A run whose count wraps around -----

  /** A window with a dropped packet, which is severe, and one without any trouble. */
  function DropWindow(sequence: nat): Input {
    Input(Path(true, sequence, 300, 0, 0, 1, 0, 0), NO_SIGNAL)
  }

  function CleanWindow(sequence: nat): Input {
    Input(Path(true, sequence, 300, 0, 0, 0, 0, 0), NO_SIGNAL)
  }

  /** One step above the floor, deep in an episode of n reductions. */
  function Swinging(n: uint32, sequence: nat): State {
    State(Home, 50000, 10000, 15000, 0, 0, true, n, 50000, false, 0, 0, 0, 50000, false, sequence)
  }

  /** Down to the floor in one window, and up again in five. */
  function Swing(q: nat): seq<Input> {
    [DropWindow(q + 1), CleanWindow(q + 2), CleanWindow(q + 3), CleanWindow(q + 4), CleanWindow(q + 5), CleanWindow(q + 6)]
  }

  function Swings(q: nat, k: nat): seq<Input>
    decreases k
  {
    if k == 0 then [] else Swing(q) + Swings(q + 6, k - 1)
  }

  lemma RunOne(s: State, input: Input)
    ensures Run(s, [input]) == Observed(s, input.path, input.signal)
  {
    hide Observed;
  }

  lemma SwingDown(n: uint32, q: nat)
    requires 1 <= n < WRAP - 1
    ensures
      Observed(Swinging(n, q), DropWindow(q + 1).path, NO_SIGNAL)
      == Swinging(n + 1, q + 1).(target := 10000, stableWindows := 0)
  {
    assert (n + 1) % WRAP == n + 1;
  }

  lemma SwingUp(n: uint32, q: nat, k: nat)
    requires 2 <= n && k < 5
    ensures
      var s := Swinging(n, q).(target := 10000, stableWindows := k);
      Observed(s, CleanWindow(q + 1).path, NO_SIGNAL)
      == if k < 4 then Swinging(n, q + 1).(target := 10000, stableWindows := k + 1) else Swinging(n, q + 1)
  {}

  lemma SwingCounts(n: uint32, q: nat)
    requires 1 <= n < WRAP - 1
    ensures Run(Swinging(n, q), Swing(q)) == Swinging(n + 1, q + 6)
  {
    hide Observed;
    SwingDown(n, q);
    for k := 0 to 5
      invariant
        Run(Swinging(n, q), Swing(q)[..k + 1])
        == if k < 5 then Swinging(n + 1, q + k + 1).(target := 10000, stableWindows := k) else Swinging(n + 1, q + 6)
    {
      SwingUp(n + 1, q + k + 1, k);
      assert Swing(q)[..k + 2] == Swing(q)[..k + 1] + [CleanWindow(q + k + 2)];
      RunAppend(Swinging(n, q), Swing(q)[..k + 1], [CleanWindow(q + k + 2)]);
      RunOne(Swinging(n + 1, q + k + 1).(target := 10000, stableWindows := k), CleanWindow(q + k + 2));
    }
    assert Swing(q)[..6] == Swing(q);
  }

  lemma {:induction false} SwingsCount(n: uint32, q: nat, k: nat)
    requires 1 <= n && n + k < WRAP
    ensures Run(Swinging(n, q), Swings(q, k)) == Swinging(n + k, q + 6 * k)
    decreases k
  {
    hide Run, Swing;
    if k == 0 {
      assert Run(Swinging(n, q), []) == Swinging(n, q) by { RunNothing(Swinging(n, q)); }
    } else {
      SwingCounts(n, q);
      SwingsCount(n + 1, q + 6, k - 1);
      RunAppend(Swinging(n, q), Swing(q), Swings(q + 6, k - 1));
    }
  }

  lemma RunNothing(s: State)
    ensures Run(s, []) == s
  {}

  /** Four severe windows bring a fresh controller down to 15000. */
  function FourDrops(): seq<Input> {
    [DropWindow(1), DropWindow(2), DropWindow(3), DropWindow(4)]
  }

  lemma FourDropsSwing()
    ensures Run(Initial(Home, 50000), FourDrops()) == Swinging(4, 4)
  {
    var s0 := Initial(Home, 50000);
    var s1 := s0.(target := 35000, everCongested := true, reductions := 1, lastSequence := 1);
    var s2 := s1.(target := 25000, reductions := 2, lastSequence := 2);
    var s3 := s2.(target := 20000, reductions := 3, lastSequence := 3);
    assert Observed(s0, DropWindow(1).path, NO_SIGNAL) == s1;
    assert Observed(s1, DropWindow(2).path, NO_SIGNAL) == s2;
    assert Observed(s2, DropWindow(3).path, NO_SIGNAL) == s3;
    assert Observed(s3, DropWindow(4).path, NO_SIGNAL) == Swinging(4, 4);
    hide Observed;
    assert FourDrops()[1..] == [DropWindow(2), DropWindow(3), DropWindow(4)];
    assert Run(s3, [DropWindow(4)]) == Swinging(4, 4);
    assert Run(s2, [DropWindow(3), DropWindow(4)]) == Swinging(4, 4);
    assert Run(s1, [DropWindow(2), DropWindow(3), DropWindow(4)]) == Swinging(4, 4);
  }

  /**
    The largest count is reached from a fresh controller without leaving the episode, and the next severe window
    breaks it: the target is at the floor, below the ceiling of the episode, and the count is zero.
   */
  lemma EpisodeBreaks()
    ensures
      var front := FourDrops() + Swings(4, WRAP - 5);
      var s := Run(Initial(Home, 50000), front);
      var t := Run(Initial(Home, 50000), front + [DropWindow(s.lastSequence + 1)]);
      Episode(s) && s.reductions == WRAP - 1
      && !Episode(t) && t.reductions == 0 && t.target == 10000 && t.episodeCeiling == 50000
  {
    hide Run, Observed, Swings;
    var s0, swings := Initial(Home, 50000), Swings(4, WRAP - 5);
    FourDropsSwing();
    SwingsCount(4, 4, WRAP - 5);
    RunAppend(s0, FourDrops(), swings);
    var s := Run(s0, FourDrops() + swings);
    assert s == Swinging(WRAP - 1, 4 + 6 * (WRAP - 5));
    LastSwing(s.lastSequence);
    RunAppend(s0, FourDrops() + swings, [DropWindow(s.lastSequence + 1)]);
    RunOne(s, DropWindow(s.lastSequence + 1));
  }

  lemma LastSwing(q: nat)
    ensures Observed(Swinging(WRAP - 1, q), DropWindow(q + 1).path, NO_SIGNAL) == Swinging(0, q + 1).(target := 10000)
  {}

  // ----- Calls that signal nothing new -----

  /** The ceiling of an oversized cloud stream is in place, so that reporting the same stream again is idempotent. */
  predicate OversizeNoted(s: State) {
    s.oversized && s.receiverCeiling == Min(s.configuredMax, OVERSIZED_CLOUD_CEILING_KBPS) && s.target <= s.receiverCeiling
  }

  /** No recovery, and no stream size that changes anything; an oversized stream may be reported with every call. */
  predicate Quiet(s: State, signal: Signal) {
    !signal.hardRecovery && (Oversized(s.mode, signal) ==> OversizeNoted(s))
  }

  /** An oversized stream is noted when it is reported, and it stays noted. */
  lemma OversizeStays(s: State, p: Path, signal: Signal)
    requires Safe(s) && (Oversized(s.mode, signal) || OversizeNoted(s))
    ensures OversizeNoted(Observed(s, p, signal))
  {
    hide AfterOversize, AfterHardRecovery, AfterWindow, Safe, Oversized;
    OversizeKept(s, signal);
    var t := AfterOversize(s, signal);
    assert OversizeNoted(t) by { NotesOversize(s, signal); }
    HardRecoveryLimits(t);
    WindowLimits(AfterSignal(s, signal), p, signal.hardRecovery);
    ObservedInvariant(s, p, signal);
    SafeTarget(Observed(s, p, signal));
  }

  lemma NotesOversize(s: State, signal: Signal)
    requires Safe(s) && (Oversized(s.mode, signal) || OversizeNoted(s))
    ensures OversizeNoted(AfterOversize(s, signal))
  {
    hide Oversized;
  }

  /** Steps of 5000 that cover a gap. */
  function Steps(gap: int): nat
    requires gap >= 0
  {
    (gap + STEP_KBPS - 1) / STEP_KBPS
  }

  // ----- Probing on RTT alone -----

  predicate ProbeWindow(s: State, input: Input) {
    Quiet(s, input.signal) && Fresh(s, input.path) && RttOnly(s.mode, input.path)
  }

  predicate ProbeRun(s: State, inputs: seq<Input>)
    decreases |inputs|
  {
    inputs == [] ||
    (ProbeWindow(s, inputs[0]) && ProbeRun(Observed(s, inputs[0].path, inputs[0].signal), inputs[1..]))
  }

  /** No inflation in the run is so large that the sum with the improvement wraps around. */
  predicate Unwrapped(inputs: seq<Input>) {
    forall i :: 0 <= i < |inputs| ==> inputs[i].path.rttInflationMs + RTT_PROBE_IMPROVEMENT_MS < WRAP
  }

  /** What is left to improve or to raise. */
  function ProbeMeasure(s: State): int
    requires s.target <= s.receiverCeiling
  {
    2 * (s.bestInflation / 10) + 2 * Steps(s.receiverCeiling - s.target) - s.probeWindows
  }

  /** While latched, an RTT-only window never lowers the target, and brings it nearer to the ceiling. */
  lemma ProbeStep(s: State, input: Input)
    requires Safe(s) && s.latched && ProbeWindow(s, input)
    ensures
      var t := Observed(s, input.path, input.signal);
      Safe(t) && t.latched && t.receiverCeiling == s.receiverCeiling && t.mode == s.mode && s.target <= t.target
    ensures
      var t := Observed(s, input.path, input.signal);
      input.path.rttInflationMs + RTT_PROBE_IMPROVEMENT_MS < WRAP && s.target < s.receiverCeiling
      ==> t.target == t.receiverCeiling || ProbeMeasure(t) < ProbeMeasure(s)
    ensures
      var t := Observed(s, input.path, input.signal);
      input.path.rttInflationMs + RTT_PROBE_IMPROVEMENT_MS >= WRAP ==> t.target == s.target
  {
    hide StrongCongestion, Raised, AfterProbe, Safe, Kept, RttOnly, Improved;
    ProbeObserved(s, input);
    SafeTarget(s);
    ProbeEffect(s.(lastSequence := input.path.sequence), input.path);
    ObservedInvariant(s, input.path, input.signal);
    ImprovedMeans(s, input);
  }

  lemma ProbeObserved(s: State, input: Input)
    requires s.latched && ProbeWindow(s, input)
    ensures Observed(s, input.path, input.signal) == AfterProbe(s.(lastSequence := input.path.sequence), input.path)
  {
    hide AfterProbe, Oversized, StrongCongestion;
  }

  lemma ProbeEffect(s: State, p: Path)
    requires s.target <= s.receiverCeiling <= s.configuredMax
    ensures
      var t := AfterProbe(s, p);
      t.latched == s.latched && t.mode == s.mode && t.receiverCeiling == s.receiverCeiling
    ensures
      var t := AfterProbe(s, p);
      if Improved(s, p) then t.target == s.target && t.bestInflation == p.rttInflationMs && t.probeWindows == 0
      else if s.probeWindows == 0 then t.target == s.target && t.bestInflation == s.bestInflation && t.probeWindows == 1
      else
        t.target == Min(s.receiverCeiling, s.target + STEP_KBPS)
        && t.bestInflation == s.bestInflation && t.probeWindows == 0
  {
    hide Improved;
  }

  lemma ImprovedMeans(s: State, input: Input)
    requires Safe(s) && s.latched
    ensures
      var rtt := input.path.rttInflationMs;
      if rtt + RTT_PROBE_IMPROVEMENT_MS < WRAP then
        Improved(s.(lastSequence := input.path.sequence), input.path) <==> rtt + RTT_PROBE_IMPROVEMENT_MS <= s.bestInflation
      else Improved(s.(lastSequence := input.path.sequence), input.path)
  {}

  /** Once the probing reduction is made, the stream climbs back to its ceiling within the measure. */
  lemma {:induction false} ProbeRecovers(s: State, inputs: seq<Input>)
    requires Safe(s) && s.latched && ProbeRun(s, inputs) && Unwrapped(inputs)
    ensures s.target <= Run(s, inputs).target
    ensures |inputs| >= ProbeMeasure(s) || s.target == s.receiverCeiling ==> Run(s, inputs).target == s.receiverCeiling
    decreases |inputs|
  {
    hide Safe, Observed, RttOnly;
    SafeTarget(s);
    if inputs != [] {
      ProbeStep(s, inputs[0]);
      var t := Observed(s, inputs[0].path, inputs[0].signal);
      SafeTarget(t);
      ProbeRecovers(t, inputs[1..]);
    }
  }

  lemma SafeTarget(s: State)
    requires Safe(s)
    ensures s.minimum <= s.target <= s.receiverCeiling <= s.configuredMax && s.probeWindows < 2 && s.congestedWindows < 3
  {}

  /** Before the latch is set, the third RTT-only window in a row makes the one reduction. */
  lemma UnlatchedStep(s: State, input: Input)
    requires Safe(s) && !s.latched && ProbeWindow(s, input)
    ensures
      var t := Observed(s, input.path, input.signal);
      Safe(t) && t.receiverCeiling == s.receiverCeiling && t.minimum == s.minimum
      && (if s.congestedWindows < 2 then !t.latched && t.target == s.target && t.congestedWindows == s.congestedWindows + 1
          else t.latched && t.target == Lowered(s) && t.bestInflation == input.path.rttInflationMs && t.probeWindows == 0)
  {
    hide Lowered, Safe;
    var v := s.(lastSequence := input.path.sequence);
    assert Observed(s, input.path, input.signal) == AfterCongested(v, input.path) by {
      UnlatchedObserved(s, input);
    }
    ObservedInvariant(s, input.path, input.signal);
    SafeTarget(s);
    CongestedEffect(v, input.path);
    SameLowered(s, v);
  }

  lemma UnlatchedObserved(s: State, input: Input)
    requires !s.latched && ProbeWindow(s, input)
    ensures Observed(s, input.path, input.signal) == AfterCongested(s.(lastSequence := input.path.sequence), input.path)
  {
    hide AfterCongested, Oversized, RttCongested;
  }

  lemma CongestedEffect(s: State, p: Path)
    requires RttOnly(s.mode, p) && s.congestedWindows < 3
    ensures
      var t := AfterCongested(s, p);
      t.receiverCeiling == s.receiverCeiling && t.minimum == s.minimum
      && (if s.congestedWindows < 2 then t.latched == s.latched && t.target == s.target && t.congestedWindows == s.congestedWindows + 1
          else t.latched && t.target == Lowered(s) && t.bestInflation == p.rttInflationMs && t.probeWindows == 0)
  {
    hide StrongCongestion, RttOnly, Lowered;
    SameLowered(s, s.(stableWindows := 0, congestedWindows := s.congestedWindows + 1));
  }

  /** RTT alone costs at most one step, and none once the latch is set. */
  lemma {:induction false} ProbeDropsOnce(s: State, inputs: seq<Input>)
    requires Safe(s) && ProbeRun(s, inputs)
    ensures Run(s, inputs).target >= if s.latched then s.target else Lowered(s)
    decreases |inputs|
  {
    hide Safe, Observed, RttOnly, Lowered;
    LoweredRange(s);
    if inputs != [] {
      var t := Observed(s, inputs[0].path, inputs[0].signal);
      if s.latched {
        ProbeStep(s, inputs[0]);
      } else {
        UnlatchedStep(s, inputs[0]);
        if s.congestedWindows < 2 {
          SameLowered(s, t);
        }
      }
      ProbeDropsOnce(t, inputs[1..]);
    }
  }

  lemma {:induction false} ProbeSplit(s: State, front: seq<Input>, back: seq<Input>)
    requires Safe(s) && ProbeRun(s, front + back)
    ensures Safe(Run(s, front)) && ProbeRun(Run(s, front), back)
    decreases |front|
  {
    hide Safe, Observed, ProbeWindow;
    if front == [] {
      assert front + back == back;
    } else {
      assert (front + back)[1..] == front[1..] + back;
      ObservedInvariant(s, front[0].path, front[0].signal);
      ProbeSplit(Observed(s, front[0].path, front[0].signal), front[1..], back);
    }
  }

  /** After the one reduction the target never drops again for as long as RTT alone is high. */
  lemma ProbeNeverDropsAgain(s: State, front: seq<Input>, back: seq<Input>)
    requires Safe(s) && ProbeRun(s, front + back) && Run(s, front).latched
    ensures Run(s, front + back).target >= Run(s, front).target
  {
    hide Safe, Run, ProbeRun;
    ProbeSplit(s, front, back);
    RunAppend(s, front, back);
    ProbeDropsOnce(Run(s, front), back);
  }

  // ----- Probing among neutral windows -----

  /** Neither congested nor stable. */
  predicate NeutralWindow(mode: Mode, p: Path) {
    !StrongCongestion(mode, p) && !RttOnly(mode, p) && !StableWindow(mode, p)
  }

  /** Nothing new, or a window that RTT alone makes congested, or a neutral one. */
  predicate CalmWindow(s: State, input: Input) {
    Quiet(s, input.signal)
    && (Fresh(s, input.path) ==> RttOnly(s.mode, input.path) || NeutralWindow(s.mode, input.path))
  }

  predicate CalmRun(s: State, inputs: seq<Input>)
    decreases |inputs|
  {
    inputs == [] ||
    (CalmWindow(s, inputs[0]) && CalmRun(Observed(s, inputs[0].path, inputs[0].signal), inputs[1..]))
  }

  /** How many windows of a run lower the target. */
  function Drops(s: State, inputs: seq<Input>): nat
    decreases |inputs|
  {
    if inputs == [] then 0
    else
      var t := Observed(s, inputs[0].path, inputs[0].signal);
      (if t.target < s.target then 1 else 0) + Drops(t, inputs[1..])
  }

  lemma NeutralObserved(s: State, input: Input)
    requires Quiet(s, input.signal) && Fresh(s, input.path) && NeutralWindow(s.mode, input.path)
    ensures Observed(s, input.path, input.signal) == AfterNeutral(s.(lastSequence := input.path.sequence))
  {
    hide AfterNeutral, Oversized, RttCongested, StableWindow;
  }

  /** The latch holds, and only setting it lowers the target, by one step. */
  lemma CalmStep(s: State, input: Input)
    requires Safe(s) && CalmWindow(s, input)
    ensures
      var t := Observed(s, input.path, input.signal);
      Safe(t) && t.minimum == s.minimum
      && if s.latched then t.latched && s.target <= t.target
         else if t.latched then t.target == Lowered(s) else t.target == s.target
  {
    hide Safe, RttOnly, StableWindow, StrongCongestion, Quiet, Lowered;
    ObservedInvariant(s, input.path, input.signal);
    if !Fresh(s, input.path) {
      RepeatedWindow(s, input.path, input.signal);
    } else if RttOnly(s.mode, input.path) {
      if s.latched {
        ProbeStep(s, input);
        ProbeMinimum(s, input);
      } else {
        UnlatchedStep(s, input);
      }
    } else {
      NeutralObserved(s, input);
    }
  }

  lemma ProbeMinimum(s: State, input: Input)
    requires s.latched && ProbeWindow(s, input)
    ensures Observed(s, input.path, input.signal).minimum == s.minimum
  {
    hide Improved, Raised, RttOnly, Quiet;
    ProbeObserved(s, input);
  }

  /**
    Over any mix of RTT-only and neutral windows at most one window lowers the target, by one step, and none does once
    the latch is set; only a stable or strongly congested window takes the latch off.
   */
  lemma {:induction false} CalmDropsOnce(s: State, inputs: seq<Input>)
    requires Safe(s) && CalmRun(s, inputs)
    ensures Drops(s, inputs) <= if s.latched then 0 else 1
    ensures Run(s, inputs).target >= if s.latched then s.target else Lowered(s)
    ensures s.latched ==> Run(s, inputs).latched
    decreases |inputs|
  {
    hide Safe, Observed, CalmWindow, Lowered;
    LoweredRange(s);
    if inputs != [] {
      var t := Observed(s, inputs[0].path, inputs[0].signal);
      CalmStep(s, inputs[0]);
      CalmDropsOnce(t, inputs[1..]);
      if !s.latched && !t.latched {
        SameLowered(s, t);
      }
    }
  }

  /** A new window takes the latch off exactly when it is stable or strongly congested. */
  lemma LatchEnds(s: State, input: Input)
    requires s.latched && Quiet(s, input.signal) && Fresh(s, input.path)
    ensures
      !Observed(s, input.path, input.signal).latched <==>
      StrongCongestion(s.mode, input.path) || StableWindow(s.mode, input.path)
  {
    hide StrongCongestion, RttCongested, StableWindow, Oversized, Severe, Improved, Raised, Lowered, SeverelyLowered, AfterSevere,
      AfterCongested, AfterStable;
    var p := input.path;
    var u := s.(lastSequence := p.sequence);
    if StableWindow(s.mode, p) {
      StableIsNoCongestion(s.mode, p);
    }
    if Severe(p) {
      SevereIsStrong(s.mode, p);
    }
    StrongUnlatched(u.(latched := false, probeWindows := 0), p);
    StableUnlatched(u);
  }

  lemma SevereIsStrong(mode: Mode, p: Path)
    requires Severe(p)
    ensures StrongCongestion(mode, p)
  {}

  lemma StrongUnlatched(s: State, p: Path)
    requires !s.latched
    ensures !AfterSevere(s).latched && (StrongCongestion(s.mode, p) ==> !AfterCongested(s, p).latched)
  {
    hide StrongCongestion, RttCongested, SeverelyLowered, Lowered;
  }

  lemma StableUnlatched(s: State)
    ensures !AfterStable(s).latched
  {
    hide Raised;
  }

  /** From any state a run of RTT-only windows is back at the ceiling after a number of windows known in advance. */
  lemma {:induction false} ProbeReturns(s: State, inputs: seq<Input>)
    requires Safe(s) && !s.latched && ProbeRun(s, inputs) && Unwrapped(inputs)
    requires
      var n := 3 - s.congestedWindows;
      var gap := Max(0, s.receiverCeiling - Lowered(s));
      |inputs| >= n && |inputs| >= n + 2 * (inputs[n - 1].path.rttInflationMs / 10) + 2 * Steps(gap)
    ensures Run(s, inputs).target == s.receiverCeiling
    decreases |inputs|
  {
    hide Safe, Observed, RttOnly, Lowered;
    SafeTarget(s);
    var t := Observed(s, inputs[0].path, inputs[0].signal);
    UnlatchedStep(s, inputs[0]);
    SafeTarget(t);
    if s.congestedWindows < 2 {
      SameLowered(s, t);
      assert inputs[1..][2 - t.congestedWindows] == inputs[2 - s.congestedWindows];
      ProbeReturns(t, inputs[1..]);
    } else {
      ProbeRecovers(t, inputs[1..]);
    }
  }

  predicate AllInflations(inputs: seq<Input>, rtt: uint32) {
    forall i :: 0 <= i < |inputs| ==> inputs[i].path.rttInflationMs == rtt
  }

  /** A window whose sum wraps around counts as an improvement: the target stays, and the probe starts over. */
  lemma WrappedStep(s: State, input: Input)
    requires Safe(s) && s.latched && ProbeWindow(s, input) && input.path.rttInflationMs + RTT_PROBE_IMPROVEMENT_MS >= WRAP
    ensures
      var t := Observed(s, input.path, input.signal);
      Safe(t) && t.latched && t.receiverCeiling == s.receiverCeiling && t.target == s.target
      && t.bestInflation == input.path.rttInflationMs && t.probeWindows == 0
  {
    hide StrongCongestion, Raised, AfterProbe, Safe, Kept, RttOnly, Improved;
    ProbeObserved(s, input);
    SafeTarget(s);
    ProbeEffect(s.(lastSequence := input.path.sequence), input.path);
    ObservedInvariant(s, input.path, input.signal);
    ImprovedMeans(s, input);
  }

  /** The first window after an improvement only starts the count. */
  lemma FirstStep(s: State, input: Input)
    requires Safe(s) && s.latched && ProbeWindow(s, input) && s.probeWindows == 0
    ensures
      var t := Observed(s, input.path, input.signal);
      Safe(t) && t.latched && t.receiverCeiling == s.receiverCeiling && t.target == s.target
  {
    hide StrongCongestion, Raised, AfterProbe, Safe, Kept, RttOnly, Improved;
    ProbeObserved(s, input);
    SafeTarget(s);
    ProbeEffect(s.(lastSequence := input.path.sequence), input.path);
    ObservedInvariant(s, input.path, input.signal);
  }

  predicate WrapsAt(inputs: seq<Input>, i: nat)
    requires i < |inputs|
  {
    inputs[i].path.rttInflationMs + RTT_PROBE_IMPROVEMENT_MS >= WRAP
  }

  /** Of any two windows in a row one wraps around. */
  predicate WrapsOften(inputs: seq<Input>) {
    forall i :: 0 <= i < |inputs| - 1 ==> WrapsAt(inputs, i) || WrapsAt(inputs, i + 1)
  }

  /** While of any two windows in a row one wraps around, the probing reduction is never rolled back. */
  lemma {:induction false} WrapNeverRecovers(s: State, inputs: seq<Input>)
    requires Safe(s) && s.latched && ProbeRun(s, inputs) && WrapsOften(inputs)
    requires s.probeWindows == 0 || inputs == [] || WrapsAt(inputs, 0)
    ensures Run(s, inputs).target == s.target
    decreases |inputs|
  {
    hide Safe, Observed, RttOnly;
    if inputs != [] {
      var t := Observed(s, inputs[0].path, inputs[0].signal);
      if WrapsAt(inputs, 0) {
        WrappedStep(s, inputs[0]);
      } else {
        FirstStep(s, inputs[0]);
        assert |inputs| > 1 ==> WrapsAt(inputs, 0 + 1);
      }
      assert forall i :: 0 <= i < |inputs| - 1 ==> WrapsAt(inputs[1..], i) == WrapsAt(inputs, i + 1);
      WrapNeverRecovers(t, inputs[1..]);
    }
  }

  /** A long enough probe at one inflation recovers exactly when adding 10 to that inflation does not wrap around. */
  lemma ProbeExact(s: State, inputs: seq<Input>, rtt: uint32)
    requires Safe(s) && s.latched && s.target < s.receiverCeiling
    requires ProbeRun(s, inputs) && AllInflations(inputs, rtt) && |inputs| >= ProbeMeasure(s)
    ensures Run(s, inputs).target == s.receiverCeiling <==> rtt + RTT_PROBE_IMPROVEMENT_MS < WRAP
  {
    hide Safe, Observed, RttOnly, ProbeRun, Run;
    if rtt + RTT_PROBE_IMPROVEMENT_MS < WRAP {
      ProbeRecovers(s, inputs);
    } else {
      WrapNeverRecovers(s, inputs);
    }
  }

  lemma {:induction false} ProbeStays(s: State, inputs: seq<Input>)
    requires Safe(s) && s.latched && ProbeRun(s, inputs)
    ensures
      var t := Run(s, inputs);
      Safe(t) && t.latched && t.receiverCeiling == s.receiverCeiling && s.target <= t.target
    decreases |inputs|
  {
    hide Safe, Observed, RttOnly;
    if inputs != [] {
      ProbeStep(s, inputs[0]);
      ProbeStays(Observed(s, inputs[0].path, inputs[0].signal), inputs[1..]);
    }
  }

  lemma WrappedMeasure(s: State, u: State)
    requires Safe(s) && Safe(u) && u.receiverCeiling == s.receiverCeiling && s.target <= u.target && u.probeWindows == 0
    ensures ProbeMeasure(u) <= 2 * (u.bestInflation / 10) + 2 * Steps(Max(0, s.receiverCeiling - s.target))
  {
    hide Safe;
    SafeTarget(s);
    SafeTarget(u);
    GapSteps(s, u);
  }

  /** A run that begins with a window whose sum wraps around, and has none after it. */
  predicate WrapsFirst(inputs: seq<Input>) {
    inputs != [] && inputs[0].path.rttInflationMs + RTT_PROBE_IMPROVEMENT_MS >= WRAP && Unwrapped(inputs[1..])
  }

  lemma ProbeFromWrap(s: State, inputs: seq<Input>)
    requires Safe(s) && s.latched && ProbeRun(s, inputs) && WrapsFirst(inputs)
    requires |inputs| > 2 * (inputs[0].path.rttInflationMs / 10) + 2 * Steps(Max(0, s.receiverCeiling - s.target))
    ensures Run(s, inputs).target == s.receiverCeiling
  {
    hide Safe, Observed, ProbeMeasure, Steps, ProbeWindow, Unwrapped;
    var u := Observed(s, inputs[0].path, inputs[0].signal);
    WrappedStep(s, inputs[0]);
    WrappedMeasure(s, u);
    SafeTarget(u);
    ProbeRecovers(u, inputs[1..]);
  }

  /**
    Inflations may differ and sums may wrap around: what counts is the last window that wraps, and from there on
    this many windows lead back to the ceiling.
   */
  lemma ProbeAfterWrap(s: State, front: seq<Input>, back: seq<Input>)
    requires Safe(s) && s.latched && ProbeRun(s, front + back) && WrapsFirst(back)
    requires |back| > 2 * (back[0].path.rttInflationMs / 10) + 2 * Steps(Max(0, s.receiverCeiling - s.target))
    ensures Run(s, front + back).target == s.receiverCeiling
  {
    hide Safe, Observed, ProbeRun, Run, Steps, ProbeWindow, Unwrapped, Max;
    ProbeSplit(s, front, back);
    RunAppend(s, front, back);
    ProbeFront(s, front, back);
    ProbeStays(s, front);
    GapSteps(s, Run(s, front));
    ProbeFromWrap(Run(s, front), back);
  }

  lemma GapSteps(s: State, t: State)
    requires s.receiverCeiling == t.receiverCeiling && s.target <= t.target
    ensures Steps(Max(0, t.receiverCeiling - t.target)) <= Steps(Max(0, s.receiverCeiling - s.target))
  {}

  lemma {:induction false} ProbeFront(s: State, front: seq<Input>, back: seq<Input>)
    requires ProbeRun(s, front + back)
    ensures ProbeRun(s, front)
    decreases |front|
  {
    hide Observed, ProbeWindow;
    if front != [] {
      assert (front + back)[1..] == front[1..] + back;
      ProbeFront(Observed(s, front[0].path, front[0].signal), front[1..], back);
    }
  }

  /** Five windows at the largest inflation of the path estimator: the probing reduction is made and stays. */
  lemma WrappedProbe()
    ensures
      var s := Initial(Home, 50000);
      var inputs := seq(5, i requires 0 <= i < 5 => Input(Path(true, i + 1, 300, 0, 0, 0, 0, WRAP - 2), NO_SIGNAL));
      ProbeRun(s, inputs) && Run(s, inputs).target == 45000 && Run(s, inputs).latched
  {
    var inputs := seq(5, i requires 0 <= i < 5 => Input(Path(true, i + 1, 300, 0, 0, 0, 0, WRAP - 2), NO_SIGNAL));
    var s0 := Initial(Home, 50000);
    var s1 := Observed(s0, inputs[0].path, NO_SIGNAL);
    var s2 := Observed(s1, inputs[1].path, NO_SIGNAL);
    var s3 := Observed(s2, inputs[2].path, NO_SIGNAL);
    var s4 := Observed(s3, inputs[3].path, NO_SIGNAL);
    var s5 := Observed(s4, inputs[4].path, NO_SIGNAL);
    assert inputs == [inputs[0], inputs[1], inputs[2], inputs[3], inputs[4]];
    assert Run(s4, [inputs[4]]) == s5 && ProbeRun(s4, [inputs[4]]);
    assert Run(s3, [inputs[3], inputs[4]]) == s5 && ProbeRun(s3, [inputs[3], inputs[4]]);
    assert Run(s2, [inputs[2], inputs[3], inputs[4]]) == s5 && ProbeRun(s2, [inputs[2], inputs[3], inputs[4]]);
    var rest := [inputs[1], inputs[2], inputs[3], inputs[4]];
    assert Run(s1, rest) == s5 && ProbeRun(s1, rest);
    assert inputs[1..] == rest;
  }

  // ----- Recovery in stable windows -----

  predicate StableInput(s: State, input: Input) {
    Quiet(s, input.signal) && Fresh(s, input.path) && StableWindow(s.mode, input.path)
  }

  predicate StableRun(s: State, inputs: seq<Input>)
    decreases |inputs|
  {
    inputs == [] ||
    (StableInput(s, inputs[0]) && StableRun(Observed(s, inputs[0].path, inputs[0].signal), inputs[1..]))
  }

  lemma StableObserved(s: State, input: Input)
    requires StableInput(s, input)
    ensures Observed(s, input.path, input.signal) == AfterStable(s.(lastSequence := input.path.sequence))
  {
    hide AfterStable, Oversized;
    assert !RttCongested(s.mode, input.path);
  }

  /** Cooldown first, then six windows for each step, of which some may have passed. */
  function StableMeasure(s: State): int
    requires s.target <= s.receiverCeiling
  {
    s.cooldown + 6 * Steps(s.receiverCeiling - s.target) - s.stableWindows
  }

  lemma StableEffect(s: State)
    requires Safe(s)
    ensures
      var t := AfterStable(s);
      t.receiverCeiling == s.receiverCeiling && t.mode == s.mode && s.target <= t.target <= t.receiverCeiling
    ensures
      var t := AfterStable(s);
      s.target < s.receiverCeiling ==> t.target == t.receiverCeiling || StableMeasure(t) < StableMeasure(s)
  {
    hide Raised;
    var u := s.(congestedWindows := 0, latched := false, stableWindows := s.stableWindows + 1);
    RaisedTo(s, u);
  }

  lemma {:induction false} StableMeasureRecovers(s: State, inputs: seq<Input>)
    requires Safe(s) && StableRun(s, inputs)
    ensures |inputs| >= StableMeasure(s) || s.target == s.receiverCeiling ==> Run(s, inputs).target == s.receiverCeiling
    decreases |inputs|
  {
    hide Safe, Observed, StableWindow, AfterStable;
    SafeRange(s);
    if inputs != [] {
      StableObserved(s, inputs[0]);
      ObservedInvariant(s, inputs[0].path, inputs[0].signal);
      SafeSequence(s, inputs[0].path.sequence);
      StableEffect(s.(lastSequence := inputs[0].path.sequence));
      StableMeasureRecovers(Observed(s, inputs[0].path, inputs[0].signal), inputs[1..]);
    }
  }

  lemma SafeSequence(s: State, sequence: nat)
    requires Safe(s)
    ensures Safe(s.(lastSequence := sequence))
  {}

  lemma SafeRange(s: State)
    requires Safe(s)
    ensures s.minimum <= s.target <= s.receiverCeiling <= s.configuredMax && s.stableWindows < 6
  {}

  /** From every reachable state: the cooldown and six windows for each missing step lead back to the ceiling. */
  lemma StableRecovers(s: State, inputs: seq<Input>)
    requires Safe(s) && StableRun(s, inputs)
    requires |inputs| >= s.cooldown + 6 * Steps(Max(0, s.receiverCeiling - s.target))
    ensures Run(s, inputs).target == s.receiverCeiling == Min(s.configuredMax, s.receiverCeiling)
  {
    hide Run, StableRun;
    StableMeasureRecovers(s, inputs);
  }

  // ----- After a hard recovery -----

  /** The windows that count towards an increase. */
  predicate StableBranch(s: State, input: Input) {
    Fresh(s, input.path) && !input.signal.hardRecovery && StableWindow(s.mode, input.path)
  }

  /** The stable branch raises the target. */
  predicate StableRaise(s: State, input: Input) {
    StableBranch(s, input) && Observed(s, input.path, input.signal).target > AfterSignal(s, input.signal).target
  }

  function StableCount(s: State, inputs: seq<Input>): nat
    decreases |inputs|
  {
    if inputs == [] then 0
    else
      (if StableBranch(s, inputs[0]) then 1 else 0)
      + StableCount(Observed(s, inputs[0].path, inputs[0].signal), inputs[1..])
  }

  /** How many stable windows are missing at least before the stable branch can raise. */
  function Needed(s: State): nat {
    if s.cooldown > 0 then s.cooldown + 2 else if s.stableWindows < 2 then 2 - s.stableWindows else 0
  }

  lemma NeededStep(s: State, input: Input)
    requires Safe(s)
    ensures Needed(Observed(s, input.path, input.signal)) + (if StableBranch(s, input) then 1 else 0) >= Needed(s)
    ensures StableRaise(s, input) ==> Needed(s) <= 1
  {
    hide Safe, Needed, AfterSignal, AfterWindow, StableWindow;
    var t := AfterSignal(s, input.signal);
    NeededSignal(s, input.signal);
    if Fresh(t, input.path) {
      NeededWindow(t, input.path, input.signal.hardRecovery);
    }
  }

  lemma NeededSignal(s: State, signal: Signal)
    requires Safe(s)
    ensures
      var t := AfterSignal(s, signal);
      Safe(t) && Needed(t) >= Needed(s) && t.mode == s.mode && t.lastSequence == s.lastSequence
  {
    hide Lowered, Oversized;
    OversizeKept(s, signal);
    HardRecoveryKept(AfterOversize(s, signal));
  }

  lemma NeededWindow(s: State, p: Path, hardRecovery: bool)
    requires Safe(s)
    ensures
      var t := AfterWindow(s, p, hardRecovery);
      var stable := !hardRecovery && StableWindow(s.mode, p);
      Needed(t) + (if stable then 1 else 0) >= Needed(s)
      && (stable && t.target > s.target ==> Needed(s) <= 1)
  {
    hide Needed, Safe, AfterOrdinary, AfterProbe, StrongCongestion, StableWindow, RttCongested;
    var u := s.(lastSequence := p.sequence);
    SafeSequence(s, p.sequence);
    NeededFields(s, u);
    NeededFields(s, u.(latched := false, probeWindows := 0));
    NeededOrdinary(u, p, hardRecovery);
    NeededOrdinary(u.(latched := false, probeWindows := 0), p, hardRecovery);
    NeededProbe(u, p);
    if StableWindow(s.mode, p) {
      StableIsNoCongestion(s.mode, p);
    }
  }

  lemma NeededFields(s: State, t: State)
    requires t.cooldown == s.cooldown && t.stableWindows == s.stableWindows
    ensures Needed(t) == Needed(s)
  {}

  lemma StableIsNoCongestion(mode: Mode, p: Path)
    requires StableWindow(mode, p)
    ensures !StrongCongestion(mode, p) && !RttCongested(mode, p) && !Severe(p)
  {}

  lemma NeededProbe(s: State, p: Path)
    ensures Needed(AfterProbe(s, p)) >= Needed(s)
  {
    hide Improved, Raised;
  }

  lemma NeededOrdinary(s: State, p: Path, hardRecovery: bool)
    requires s.cooldown > 0 ==> s.stableWindows == 0
    ensures
      var t := AfterOrdinary(s, p, hardRecovery);
      var stable := !hardRecovery && StableWindow(s.mode, p);
      Needed(t) + (if stable then 1 else 0) >= Needed(s)
      && (stable && t.target > s.target ==> Needed(s) <= 1)
  {
    hide AfterStable, AfterCongested, AfterSevere, StrongCongestion, RttCongested, StableWindow, Severe;
    NeededCongested(s, p);
    NeededSevere(s);
    if StableWindow(s.mode, p) {
      StableIsNoCongestion(s.mode, p);
      StableNeeds(s);
    }
  }

  lemma NeededCongested(s: State, p: Path)
    ensures Needed(AfterCongested(s, p)) >= Needed(s)
  {
    hide RttOnly, Lowered;
  }

  lemma NeededSevere(s: State)
    ensures Needed(AfterSevere(s)) >= Needed(s)
  {
    hide SeverelyLowered;
  }

  lemma StableNeeds(s: State)
    requires s.cooldown > 0 ==> s.stableWindows == 0
    ensures Needed(AfterStable(s)) + 1 >= Needed(s)
    ensures AfterStable(s).target > s.target ==> Needed(s) <= 1
  {
    hide Raised;
  }

  lemma {:induction false} NeededRun(s: State, inputs: seq<Input>)
    requires Safe(s)
    ensures Needed(Run(s, inputs)) + StableCount(s, inputs) >= Needed(s)
    decreases |inputs|
  {
    hide Safe, Observed, Needed, StableBranch;
    if inputs != [] {
      ObservedInvariant(s, inputs[0].path, inputs[0].signal);
      NeededStep(s, inputs[0]);
      NeededRun(Observed(s, inputs[0].path, inputs[0].signal), inputs[1..]);
    }
  }

  /** After a hard recovery in the cloud the stable branch does not raise before the 17th stable window. */
  lemma CloudHardRecoveryWaits(s: State, recovery: Input, inputs: seq<Input>, next: Input)
    requires Safe(s) && s.mode.Cloud? && recovery.signal.hardRecovery
    requires
      var t := Observed(s, recovery.path, recovery.signal);
      StableRaise(Run(t, inputs), next)
    ensures
      var t := Observed(s, recovery.path, recovery.signal);
      StableCount(t, inputs) + 1 >= 17
  {
    hide Safe, Run, StableCount, StableRaise;
    var t := Observed(s, recovery.path, recovery.signal);
    ObservedInvariant(s, recovery.path, recovery.signal);
    RecoveryNeeds(s, recovery);
    NeededRun(t, inputs);
    RunSafe(t, inputs);
    NeededStep(Run(t, inputs), next);
  }

  lemma RecoveryNeeds(s: State, recovery: Input)
    requires s.mode.Cloud? && recovery.signal.hardRecovery
    ensures Needed(Observed(s, recovery.path, recovery.signal)) >= 17
  {
    hide AfterSignal, AfterWindow;
    var t := AfterSignal(s, recovery.signal);
    assert t.cooldown >= 15 by { RecoveryCooldown(s, recovery.signal); }
    HardWindow(t, recovery.path);
  }

  lemma RecoveryCooldown(s: State, signal: Signal)
    requires s.mode.Cloud? && signal.hardRecovery
    ensures AfterSignal(s, signal).cooldown >= 15
  {
    hide Oversized, Lowered;
  }

  /** The window that comes with a hard recovery changes the target only by rolling a probe back. */
  lemma HardWindow(s: State, p: Path)
    ensures
      var t := AfterWindow(s, p, true);
      t.cooldown == s.cooldown && (!(s.latched && RttOnly(s.mode, p)) ==> t.target == s.target)
  {
    hide Improved, StrongCongestion, RttCongested, Raised;
  }

  lemma HardWindowRaises(s: State, p: Path)
    requires Safe(s)
    ensures AfterWindow(s, p, true).target >= s.target
  {
    hide Safe, AfterWindow, AfterProbe, RttOnly;
    HardWindow(s, p);
    if s.latched && RttOnly(s.mode, p) {
      ProbingWindow(s, p, true);
      SafeTarget(s);
      ProbeEffect(s.(lastSequence := p.sequence), p);
    }
  }

  // ----- One observation -----

  /** A window that was seen before, without a signal, changes nothing. */
  lemma RepeatedWindow(s: State, p: Path, signal: Signal)
    requires Quiet(s, signal) && (!p.valid || p.sequence == 0 || p.sequence == s.lastSequence)
    ensures Observed(s, p, signal) == s
  {}

  /**
    A hard recovery lowers the target by one step, from the ceiling that the size of the stream leaves, unless the
    window of the same observation is the one that rolls a probe back: then the step is taken back at once.
   */
  lemma HardRecoveryExact(s: State, p: Path, signal: Signal)
    requires Safe(s) && signal.hardRecovery
    ensures
      var t := AfterOversize(s, signal);
      var rollback := Fresh(s, p) && s.latched && RttOnly(s.mode, p) && !Improved(s, p) && s.probeWindows == 1;
      Observed(s, p, signal).target == Lowered(t) <==> !(rollback && Lowered(t) < t.receiverCeiling)
  {
    hide AfterOversize, StrongCongestion, RttOnly, AfterWindow, AfterProbe, Lowered, Safe;
    var t := AfterOversize(s, signal);
    OversizeFields(s, signal);
    var u := AfterSignal(s, signal);
    assert u.target == Lowered(t) && u.latched == s.latched;
    StagesKept(s, p, signal);
    LoweredRange(t);
    HardWindow(u, p);
    if s.latched && RttOnly(s.mode, p) {
      ProbingWindow(u, p, true);
      SafeTarget(u);
      ProbeEffect(u.(lastSequence := p.sequence), p);
    }
  }

  /** The fifth window of a probe comes with a hard recovery, which is taken back at once. */
  lemma HardRecoveryUndone()
    ensures
      var windows := seq(4, i requires 0 <= i < 4 => Input(Path(true, i + 1, 300, 0, 0, 0, 0, 30), NO_SIGNAL));
      var s := Run(Initial(Home, 50000), windows);
      var t := Observed(s, Path(true, 5, 300, 0, 0, 0, 0, 30), NO_SIGNAL.(hardRecovery := true));
      s.target == t.target == 45000 && Lowered(s) == 40000
  {
    var windows := seq(4, i requires 0 <= i < 4 => Input(Path(true, i + 1, 300, 0, 0, 0, 0, 30), NO_SIGNAL));
    var s1 := Observed(Initial(Home, 50000), windows[0].path, NO_SIGNAL);
    var s2 := Observed(s1, windows[1].path, NO_SIGNAL);
    var s3 := Observed(s2, windows[2].path, NO_SIGNAL);
    var s4 := Observed(s3, windows[3].path, NO_SIGNAL);
    assert windows == [windows[0], windows[1], windows[2], windows[3]];
    assert Run(s3, [windows[3]]) == s4;
    assert Run(s2, [windows[2], windows[3]]) == s4;
    assert windows[1..] == [windows[1], windows[2], windows[3]];
    assert Run(s1, windows[1..]) == s4;
  }

  lemma OversizeFields(s: State, signal: Signal)
    ensures
      var t := AfterOversize(s, signal);
      t.mode == s.mode && t.latched == s.latched && t.probeWindows == s.probeWindows
      && t.bestInflation == s.bestInflation && t.lastSequence == s.lastSequence
  {
    hide Oversized;
  }

  lemma ProbingWindow(s: State, p: Path, hardRecovery: bool)
    requires s.latched && RttOnly(s.mode, p)
    ensures AfterWindow(s, p, hardRecovery) == AfterProbe(s.(lastSequence := p.sequence), p)
  {
    hide AfterProbe;
  }
}
