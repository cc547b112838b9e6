/**
  What each kind of window does to the bitrate, in kbit/s, windows and thresholds of the controller's description:
  congestion lowers the target down to the minimum, stability raises it again, and neither does so early.
 */
module AdaptiveBitrateEffects {
  import opened AdaptiveBitrate
  import opened AdaptiveBitrateRuns

  // ----- Kinds of windows, in numbers -----

  /** Queue drops, or five percent of the packets lost for good. */
  predicate HeavyLoss(p: Path) {
    p.queueDrops > 0 || p.unrecoveredLossPpm >= 50000
  }

  predicate FullQueue(p: Path) {
    p.queueDepth >= 1024
  }

  predicate Slow(mode: Mode, p: Path) {
    match mode
    case Home => p.rttInflationMs >= 25
    case Cloud => p.rttInflationMs >= 60
  }

  /** Loss alone counts only when the queue or the round trip confirms it. */
  predicate Congested(mode: Mode, p: Path) {
    HeavyLoss(p) || FullQueue(p) || (p.unrecoveredLossPpm >= 3000 && Slow(mode, p))
  }

  predicate SlowOnly(mode: Mode, p: Path) {
    Slow(mode, p) && !Congested(mode, p)
  }

  predicate Settled(mode: Mode, p: Path) {
    p.windowPackets >= 200 && p.detectedLossPpm < 2000 && p.unrecoveredLossPpm < 500 && p.queueDrops == 0 && p.queueDepth < 512
    && match mode
       case Home => p.rttInflationMs <= 12
       case Cloud => p.rttInflationMs <= 30
  }

  lemma KindsAgree(mode: Mode, p: Path)
    ensures Severe(p) == HeavyLoss(p) && StrongCongestion(mode, p) == Congested(mode, p)
    ensures RttOnly(mode, p) == SlowOnly(mode, p) && StableWindow(mode, p) == Settled(mode, p)
  {}

  /** A window that was not seen before, with a signal that asks for nothing. */
  ghost predicate NewWindow(s: State, p: Path, signal: Signal) {
    Safe(s) && Quiet(s, signal) && p.valid && p.sequence != 0 && p.sequence != s.lastSequence
  }

  // ----- Steps, in kbit/s -----

  function StepDown(target: int, minimum: int): int {
    if target - 5000 >= minimum then target - 5000 else minimum
  }

  function StepUp(target: int, ceiling: int): int {
    if target + 5000 <= ceiling then target + 5000 else ceiling
  }

  /** Seventy percent, rounded to whole steps, but at least one step and not below the minimum. */
  function Cut(target: int, minimum: int): int {
    var rounded := (target * 70 / 100 + 2500) / 5000 * 5000;
    var cut := if rounded <= target - 5000 then rounded else target - 5000;
    if cut >= minimum then cut else minimum
  }

  lemma StepsAgree(s: State)
    requires Safe(s)
    ensures Lowered(s) == StepDown(s.target, s.minimum) && Raised(s) == StepUp(s.target, s.receiverCeiling)
    ensures SeverelyLowered(s) == Cut(s.target, s.minimum)
  {}

  /** Limits that no window touches. */
  predicate SameBounds(s: State, t: State) {
    t.mode == s.mode && t.minimum == s.minimum && t.receiverCeiling == s.receiverCeiling && t.configuredMax == s.configuredMax
  }

  lemma QuietSignal(s: State, signal: Signal)
    requires Quiet(s, signal)
    ensures AfterSignal(s, signal) == s
  {
    hide Oversized;
  }

  /** A session starts at its maximum, in the cloud at no more than 20000 kbit/s, and never goes below 10000 or its maximum. */
  lemma Start(mode: Mode, configuredMax: int)
    requires configuredMax >= 1
    ensures
      var s := Initial(mode, configuredMax);
      s.configuredMax == s.receiverCeiling == configuredMax
      && s.minimum == (if configuredMax <= 10000 then configuredMax else 10000)
      && s.target == (if mode.Cloud? && configuredMax > 20000 then 20000 else configuredMax)
  {}

  // ----- One window -----

  /** The second congested window in a row lowers the target by one step; the first one waits. */
  lemma CongestedWindow(s: State, p: Path, signal: Signal)
    requires NewWindow(s, p, signal) && Congested(s.mode, p) && !HeavyLoss(p)
    ensures
      var t := Observed(s, p, signal);
      t.target == (if s.congestedWindows >= 1 then StepDown(s.target, s.minimum) else s.target)
      && t.congestedWindows == (if s.congestedWindows >= 1 then 0 else 1)
      && t.stableWindows == 0 && !t.latched && SameBounds(s, t) && t.everCongested == (s.everCongested || s.congestedWindows >= 1)
    ensures
      var t := Observed(s, p, signal);
      t.cooldown == if s.mode.Cloud? && s.congestedWindows >= 1 && s.cooldown == 0 then 1 else s.cooldown
  {
    hide StrongCongestion, RttOnly, RttCongested, Severe, StableWindow, Lowered, Safe, Oversized, Congested, SlowOnly;
    KindsAgree(s.mode, p);
    QuietSignal(s, signal);
    StepsAgree(s);
    var u := s.(lastSequence := p.sequence, latched := false, probeWindows := 0);
    var v := u.(stableWindows := 0, congestedWindows := u.congestedWindows + 1);
    SameLowered(s, v);
    assert RttOnly(s.mode, p) ==> !StrongCongestion(s.mode, p) by { StrongExcludes(s.mode, p); }
  }

  lemma StrongExcludes(mode: Mode, p: Path)
    ensures RttOnly(mode, p) ==> !StrongCongestion(mode, p)
  {}

  /** A window with heavy loss cuts the target at once. */
  lemma HeavyWindow(s: State, p: Path, signal: Signal)
    requires NewWindow(s, p, signal) && HeavyLoss(p)
    ensures
      var t := Observed(s, p, signal);
      t.target == Cut(s.target, s.minimum) && t.congestedWindows == 0 && t.stableWindows == 0 && !t.latched && SameBounds(s, t)
      && t.everCongested && t.cooldown == (if s.mode.Cloud? && s.cooldown == 0 then 1 else s.cooldown)
    ensures s.target > s.minimum ==> Observed(s, p, signal).target <= StepDown(s.target, s.minimum) < s.target
  {
    hide StrongCongestion, RttOnly, StableWindow, SeverelyLowered, Safe, Oversized;
    KindsAgree(s.mode, p);
    QuietSignal(s, signal);
    SevereIsStrong(s.mode, p);
    StepsAgree(s);
    SafeTarget(s);
    var u := s.(lastSequence := p.sequence, latched := false, probeWindows := 0);
    assert SeverelyLowered(u) == SeverelyLowered(s) by { SameCut(s, u); }
  }

  lemma SameCut(s: State, u: State)
    requires u.target == s.target && u.minimum == s.minimum
    ensures SeverelyLowered(u) == SeverelyLowered(s)
  {}

  /** The third slow window in a row lowers the target by one step and starts a probe; the first two wait. */
  lemma SlowWindow(s: State, p: Path, signal: Signal)
    requires NewWindow(s, p, signal) && SlowOnly(s.mode, p) && !s.latched
    ensures
      var t := Observed(s, p, signal);
      t.target == (if s.congestedWindows >= 2 then StepDown(s.target, s.minimum) else s.target)
      && t.latched == (s.congestedWindows >= 2) && SameBounds(s, t)
      && (t.latched ==> t.bestInflation == p.rttInflationMs && t.probeWindows == 0)
      && (!t.latched ==> t.congestedWindows == s.congestedWindows + 1)
  {
    hide StrongCongestion, RttOnly, Lowered, Safe, Quiet, Observed, SlowOnly;
    KindsAgree(s.mode, p);
    StepsAgree(s);
    SafeTarget(s);
    UnlatchedStep(s, Input(p, signal));
    UnlatchedBounds(s, Input(p, signal));
  }

  lemma UnlatchedBounds(s: State, input: Input)
    requires !s.latched && ProbeWindow(s, input)
    ensures SameBounds(s, Observed(s, input.path, input.signal))
  {
    hide StrongCongestion, RttOnly, Lowered, Quiet, Observed;
    UnlatchedObserved(s, input);
  }

  /**
    During a probe every second window in a row without an improvement by 10 ms gives the step back. (An inflation near
    2^32 ms makes the sum wrap around and counts as an improvement.)
   */
  lemma ProbedWindow(s: State, p: Path, signal: Signal)
    requires NewWindow(s, p, signal) && SlowOnly(s.mode, p) && s.latched
    ensures
      var t := Observed(s, p, signal);
      var better := (p.rttInflationMs + 10) % 0x1_0000_0000 <= s.bestInflation;
      t.target == (if !better && s.probeWindows == 1 then StepUp(s.target, s.receiverCeiling) else s.target)
      && t.probeWindows == (if better || s.probeWindows == 1 then 0 else 1)
      && t.bestInflation == (if better then p.rttInflationMs else s.bestInflation)
      && t.latched && t.congestedWindows == 0 && t.stableWindows == 0 && SameBounds(s, t)
  {
    hide StrongCongestion, RttOnly, Raised, Safe, Quiet, Observed, SlowOnly;
    KindsAgree(s.mode, p);
    StepsAgree(s);
    SafeTarget(s);
    ProbeObserved(s, Input(p, signal));
    var u := s.(lastSequence := p.sequence, probeWindows := s.probeWindows + 1);
    RaisedTo(s, u);
  }

  /** How many stable windows in a row raise the target. */
  function StableNeeded(s: State): nat {
    if s.reductions == 1 && s.target < s.episodeCeiling then 2
    else match s.mode
      case Home => 5
      case Cloud => if s.everCongested then 6 else 2
  }

  /** A stable window counts the cooldown down, or the windows up to the next step. */
  lemma SettledWindow(s: State, p: Path, signal: Signal)
    requires NewWindow(s, p, signal) && Settled(s.mode, p)
    ensures
      var t := Observed(s, p, signal);
      var raise := s.cooldown == 0 && s.stableWindows + 1 >= StableNeeded(s);
      t.target == (if raise then StepUp(s.target, s.receiverCeiling) else s.target)
      && t.cooldown == (if s.cooldown > 0 then s.cooldown - 1 else 0)
      && t.stableWindows == (if s.cooldown > 0 || raise then 0 else s.stableWindows + 1)
      && t.congestedWindows == 0 && !t.latched && SameBounds(s, t) && t.everCongested == s.everCongested
      && (!raise ==> t.reductions == s.reductions && t.episodeCeiling == s.episodeCeiling)
  {
    hide StableWindow, Raised, Safe, Quiet, Observed, Settled;
    KindsAgree(s.mode, p);
    StepsAgree(s);
    StableObserved(s, Input(p, signal));
    var u := s.(lastSequence := p.sequence, congestedWindows := 0, latched := false, stableWindows := s.stableWindows + 1);
    RaisedTo(s, u);
  }

  /** Any other window leaves the target alone and takes one stable window back. */
  lemma OtherWindow(s: State, p: Path, signal: Signal)
    requires NewWindow(s, p, signal) && !Congested(s.mode, p) && !SlowOnly(s.mode, p) && !Settled(s.mode, p)
    ensures
      var t := Observed(s, p, signal);
      t == s.(lastSequence := p.sequence, congestedWindows := 0, stableWindows := if s.stableWindows > 0 then s.stableWindows - 1 else 0)
  {
    hide StableWindow, StrongCongestion, RttOnly, Safe, Quiet, Observed, Settled, Congested, SlowOnly;
    KindsAgree(s.mode, p);
    NeutralObserved(s, Input(p, signal));
  }

  // ----- Signals -----

  /** A hard recovery between windows lowers the target by one step and holds it for 2 stable windows, or 15 in the cloud. */
  lemma HardRecoveryAlone(s: State, p: Path, signal: Signal)
    requires Safe(s) && Quiet(s, signal.(hardRecovery := false)) && signal.hardRecovery && !Fresh(s, p)
    ensures
      var t := Observed(s, p, signal);
      var wait := match s.mode case Home => 2 case Cloud => 15;
      t.target == StepDown(s.target, s.minimum) && t.everCongested
      && t.cooldown == (if s.cooldown > wait then s.cooldown else wait)
      && t.congestedWindows == 0 && t.stableWindows == 0 && SameBounds(s, t)
  {
    hide Safe, Oversized, Lowered;
    StepsAgree(s);
    assert AfterOversize(s, signal) == s by { QuietSignal(s, signal.(hardRecovery := false)); SameSize(s, signal); }
  }

  lemma SameSize(s: State, signal: Signal)
    ensures Oversized(s.mode, signal.(hardRecovery := false)) == Oversized(s.mode, signal)
    ensures AfterOversize(s, signal.(hardRecovery := false)) == AfterOversize(s, signal)
  {}

  /** A cloud stream larger than asked for is held at 20000 kbit/s. */
  lemma OversizedStream(s: State, p: Path, signal: Signal)
    requires Safe(s) && !Fresh(s, p) && !signal.hardRecovery && s.mode.Cloud?
    requires signal.requestedWidth > 0 && signal.requestedHeight > 0 && signal.decodedWidth > 0 && signal.decodedHeight > 0
    requires signal.decodedWidth * signal.decodedHeight > signal.requestedWidth * signal.requestedHeight
    ensures
      var t := Observed(s, p, signal);
      var ceiling := if s.configuredMax <= 20000 then s.configuredMax else 20000;
      t.receiverCeiling == ceiling && t.oversized && t.target == if s.target <= ceiling then s.target else ceiling
  {
    hide Safe;
  }

  // ----- Runs -----

  predicate CongestedInput(s: State, input: Input) {
    Quiet(s, input.signal) && Fresh(s, input.path) && Congested(s.mode, input.path)
  }

  predicate CongestedRun(s: State, inputs: seq<Input>)
    decreases |inputs|
  {
    inputs == [] ||
    (CongestedInput(s, inputs[0]) && CongestedRun(Observed(s, inputs[0].path, inputs[0].signal), inputs[1..]))
  }

  /** Two windows for each missing step, of which one may have passed. */
  function CongestionMeasure(s: State): int
    requires s.minimum <= s.target
  {
    2 * ((s.target - s.minimum + 4999) / 5000) - if s.congestedWindows > 0 then 1 else 0
  }

  lemma CongestedStep(s: State, input: Input)
    requires Safe(s) && CongestedInput(s, input)
    ensures
      var t := Observed(s, input.path, input.signal);
      Safe(t) && t.minimum == s.minimum <= t.target <= s.target && (s.target > s.minimum ==> CongestionMeasure(t) < CongestionMeasure(s))
  {
    hide Safe, Quiet, Observed, Congested, HeavyLoss, Cut;
    ObservedInvariant(s, input.path, input.signal);
    SafeTarget(s);
    SafeTarget(Observed(s, input.path, input.signal));
    if HeavyLoss(input.path) {
      HeavyWindow(s, input.path, input.signal);
      SafeCut(s, input.path, input.signal);
    } else {
      CongestedWindow(s, input.path, input.signal);
    }
  }

  lemma SafeCut(s: State, p: Path, signal: Signal)
    requires NewWindow(s, p, signal) && HeavyLoss(p)
    ensures s.target == s.minimum ==> Observed(s, p, signal).target == s.minimum
  {
    hide Observed, Quiet, HeavyLoss;
    HeavyWindow(s, p, signal);
  }

  /** Congestion never raises the target, and brings it down to the minimum within two windows for each step. */
  lemma {:induction false} CongestionReachesMinimum(s: State, inputs: seq<Input>)
    requires Safe(s) && CongestedRun(s, inputs)
    ensures s.minimum <= Run(s, inputs).target <= s.target
    ensures |inputs| >= 2 * ((s.target - s.minimum + 4999) / 5000) ==> Run(s, inputs).target == s.minimum
    decreases |inputs|
  {
    hide Safe, Observed, CongestedInput;
    CongestionDone(s, inputs);
  }

  lemma {:induction false} CongestionDone(s: State, inputs: seq<Input>)
    requires Safe(s) && CongestedRun(s, inputs)
    ensures s.minimum <= Run(s, inputs).target <= s.target
    ensures |inputs| >= CongestionMeasure(s) || s.target == s.minimum ==> Run(s, inputs).target == s.minimum
    decreases |inputs|
  {
    hide Safe, Observed, CongestedInput;
    SafeTarget(s);
    if inputs != [] {
      CongestedStep(s, inputs[0]);
      CongestionDone(Observed(s, inputs[0].path, inputs[0].signal), inputs[1..]);
    }
  }

  /** In a run of stable windows the target stays until the last window that is needed, and is then raised by one step. */
  lemma {:induction false} RaisedOnTime(s: State, inputs: seq<Input>)
    requires Safe(s) && StableRun(s, inputs) && s.cooldown == 0 && s.stableWindows < StableNeeded(s)
    ensures s.stableWindows + |inputs| < StableNeeded(s) ==> Run(s, inputs).target == s.target
    ensures s.stableWindows + |inputs| == StableNeeded(s) ==> Run(s, inputs).target == StepUp(s.target, s.receiverCeiling)
    decreases |inputs|
  {
    hide Safe, Observed, Quiet, StableWindow, Settled;
    if inputs != [] {
      var p, signal := inputs[0].path, inputs[0].signal;
      var t := Observed(s, p, signal);
      KindsAgree(s.mode, p);
      SettledWindow(s, p, signal);
      ObservedInvariant(s, p, signal);
      if s.stableWindows + 1 < StableNeeded(s) {
        RaisedOnTime(t, inputs[1..]);
      }
    }
  }

  /** The cooldown passes one stable window at a time, without a raise. */
  lemma {:induction false} CooldownPasses(s: State, inputs: seq<Input>)
    requires Safe(s) && StableRun(s, inputs) && |inputs| <= s.cooldown
    ensures Run(s, inputs).target == s.target && Run(s, inputs).cooldown == s.cooldown - |inputs|
    decreases |inputs|
  {
    hide Safe, Observed, Quiet, StableWindow, Settled;
    if inputs != [] {
      var p, signal := inputs[0].path, inputs[0].signal;
      KindsAgree(s.mode, p);
      SettledWindow(s, p, signal);
      ObservedInvariant(s, p, signal);
      CooldownPasses(Observed(s, p, signal), inputs[1..]);
    }
  }
}
