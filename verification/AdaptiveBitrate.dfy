/**
  The receiver-side bitrate controller: what one observation does to its state, the controller that does
  it field by field, and what every run of observations keeps.
 */
module AdaptiveBitrate {
  type uint32 = x: nat | x < 0x1_0000_0000

  // ----- Inputs -----

  datatype Mode = Home | Cloud

  /** One window of the path estimator, with the fields that the controller reads. */
  datatype Path = Path(
    valid: bool, sequence: nat, windowPackets: nat, detectedLossPpm: nat, unrecoveredLossPpm: nat,
    queueDrops: nat, queueDepth: nat, rttInflationMs: uint32)

  datatype Signal = Signal(
    requestedWidth: int, requestedHeight: int, decodedWidth: int, decodedHeight: int, hardRecovery: bool)

  const NO_SIGNAL := Signal(0, 0, 0, 0, false)

  // ----- Constants -----

  const FLOOR_KBPS := 10000
  const CLOUD_STARTUP_KBPS := 20000
  const STEP_KBPS := 5000
  const MINIMUM_PACKETS_PER_WINDOW := 200
  const CONGESTED_LOSS_PPM := 3000
  const SEVERE_LOSS_PPM := 50000
  const STABLE_DETECTED_LOSS_PPM := 2000
  const STABLE_FINAL_LOSS_PPM := 500
  const STABLE_QUEUE_DEPTH := 512
  const CONGESTED_QUEUE_DEPTH := 1024
  const CONGESTED_WINDOWS_TO_LOWER := 2
  const RTT_ONLY_WINDOWS_TO_LOWER := 3
  const RTT_PROBE_EVALUATION_WINDOWS := 2
  const RTT_PROBE_IMPROVEMENT_MS := 10
  const CLOUD_STARTUP_WINDOWS_TO_RAISE := 2
  const SINGLE_EVENT_STABLE_WINDOWS_TO_RAISE := 2
  const HOME_STABLE_WINDOWS_TO_RAISE := 5
  const CLOUD_STABLE_WINDOWS_TO_RAISE := 6
  const CLOUD_COOLDOWN_WINDOWS := 1
  const HOME_HARD_RECOVERY_COOLDOWN_WINDOWS := 2
  const CLOUD_HARD_RECOVERY_COOLDOWN_WINDOWS := 15
  const OVERSIZED_CLOUD_CEILING_KBPS := 20000

  function Min(a: int, b: int): int {
    if a < b then a else b
  }

  function Max(a: int, b: int): int {
    if a < b then b else a
  }

  // ----- Kinds of windows -----

  predicate Severe(p: Path) {
    p.queueDrops > 0 || p.unrecoveredLossPpm >= SEVERE_LOSS_PPM
  }

  predicate RttCongested(mode: Mode, p: Path) {
    p.rttInflationMs >= if mode.Home? then 25 else 60
  }

  predicate StrongCongestion(mode: Mode, p: Path) {
    Severe(p) || p.queueDepth >= CONGESTED_QUEUE_DEPTH
    || (p.unrecoveredLossPpm >= CONGESTED_LOSS_PPM && RttCongested(mode, p))
  }

  predicate RttOnly(mode: Mode, p: Path) {
    RttCongested(mode, p) && !StrongCongestion(mode, p)
  }

  predicate StableWindow(mode: Mode, p: Path) {
    p.windowPackets >= MINIMUM_PACKETS_PER_WINDOW
    && p.detectedLossPpm < STABLE_DETECTED_LOSS_PPM && p.unrecoveredLossPpm < STABLE_FINAL_LOSS_PPM
    && p.queueDrops == 0 && p.queueDepth < STABLE_QUEUE_DEPTH
    && p.rttInflationMs <= if mode.Home? then 12 else 30
  }

  /** The stream is larger than asked for; only the cloud is asked for a size. */
  predicate Oversized(mode: Mode, signal: Signal) {
    mode.Cloud? && signal.requestedWidth > 0 && signal.requestedHeight > 0
    && signal.decodedWidth > 0 && signal.decodedHeight > 0
    && signal.decodedWidth * signal.decodedHeight > signal.requestedWidth * signal.requestedHeight
  }

  // ----- State -----

  datatype State = State(
    mode: Mode, configuredMax: int, minimum: int, target: int, congestedWindows: nat, stableWindows: nat,
    everCongested: bool, reductions: uint32, episodeCeiling: int, latched: bool, probeWindows: nat,
    bestInflation: uint32, cooldown: nat, receiverCeiling: int, oversized: bool, lastSequence: nat)

  function Initial(mode: Mode, configuredMax: int): State {
    var top := Max(1, configuredMax);
    var target := if mode.Cloud? then Min(CLOUD_STARTUP_KBPS, top) else top;
    State(mode, top, Min(FLOOR_KBPS, top), target, 0, 0, false, 0, target, false, 0, 0, 0, top, false, 0)
  }

  function Lowered(s: State): int {
    if s.target <= s.minimum then s.target else Max(s.minimum, s.target - STEP_KBPS)
  }

  /** Apart by at most a distance. */
  predicate Near(a: int, b: int, distance: nat) {
    a - distance <= b <= a + distance
  }

  function Raised(s: State): int {
    var ceiling := Min(s.configuredMax, s.receiverCeiling);
    if s.target >= ceiling then s.target else Min(ceiling, s.target + STEP_KBPS)
  }

  function SeverelyLowered(s: State): int {
    if s.target <= s.minimum then s.target
    else
      var reduced := s.target * 70 / 100;
      Max(s.minimum, Min(s.target - STEP_KBPS, (reduced + STEP_KBPS / 2) / STEP_KBPS * STEP_KBPS))
  }

  /** A new target; if it is lower, the reduction is counted in the episode, which it may open. */
  function Reduce(s: State, target: int): State {
    if target >= s.target then s.(target := target)
    else
      s.(target := target,
         episodeCeiling := if s.reductions == 0 then s.target else s.episodeCeiling,
         reductions := (s.reductions + 1) % 0x1_0000_0000)
  }

  /** One step up; the episode ends when its ceiling is reached. */
  function Raise(s: State): State {
    var t := s.(target := Raised(s));
    if t.reductions == 0 || t.target < t.episodeCeiling then t
    else t.(reductions := 0, episodeCeiling := t.target)
  }

  function AfterOversize(s: State, signal: Signal): State {
    if !Oversized(s.mode, signal) then s
    else
      var ceiling := Min(s.configuredMax, OVERSIZED_CLOUD_CEILING_KBPS);
      var t := s.(oversized := true, receiverCeiling := ceiling);
      if t.target <= ceiling then t
      else Reduce(t, ceiling).(everCongested := true, stableWindows := 0)
  }

  function AfterHardRecovery(s: State): State {
    var cooldown :=
      if s.mode.Cloud? then CLOUD_HARD_RECOVERY_COOLDOWN_WINDOWS else HOME_HARD_RECOVERY_COOLDOWN_WINDOWS;
    Reduce(s, Lowered(s)).(
      everCongested := true, congestedWindows := 0, stableWindows := 0, cooldown := Max(s.cooldown, cooldown))
  }

  function AfterSignal(s: State, signal: Signal): State {
    var t := AfterOversize(s, signal);
    if signal.hardRecovery then AfterHardRecovery(t) else t
  }

  /** Whether the window has something new to say. */
  predicate Fresh(s: State, p: Path) {
    p.valid && p.sequence != 0 && p.sequence != s.lastSequence
  }

  /** The sum wraps around. */
  predicate Improved(s: State, p: Path) {
    (p.rttInflationMs + RTT_PROBE_IMPROVEMENT_MS) % 0x1_0000_0000 <= s.bestInflation
  }

  function AfterProbe(s: State, p: Path): State {
    var t :=
      if Improved(s, p) then s.(bestInflation := p.rttInflationMs, probeWindows := 0)
      else
        var u := s.(probeWindows := s.probeWindows + 1);
        if u.probeWindows >= RTT_PROBE_EVALUATION_WINDOWS then Raise(u).(probeWindows := 0) else u;
    t.(congestedWindows := 0, stableWindows := 0)
  }

  function CloudCooldown(s: State): nat {
    if s.mode.Cloud? then Max(s.cooldown, CLOUD_COOLDOWN_WINDOWS) else s.cooldown
  }

  function AfterSevere(s: State): State {
    Reduce(s, SeverelyLowered(s)).(
      cooldown := CloudCooldown(s), everCongested := true, congestedWindows := 0, stableWindows := 0)
  }

  function AfterCongested(s: State, p: Path): State {
    var rttOnly := RttOnly(s.mode, p);
    var t := s.(stableWindows := 0, congestedWindows := s.congestedWindows + 1);
    if t.congestedWindows < if rttOnly then RTT_ONLY_WINDOWS_TO_LOWER else CONGESTED_WINDOWS_TO_LOWER then t
    else Latched(Reduce(t, Lowered(t)).(cooldown := CloudCooldown(t), everCongested := true), p, rttOnly)
  }

  /** A reduction for RTT alone is a probe. */
  function Latched(s: State, p: Path, rttOnly: bool): State {
    if rttOnly then s.(latched := true, probeWindows := 0, bestInflation := p.rttInflationMs, congestedWindows := 0)
    else s.(congestedWindows := 0)
  }

  function WindowsToRaise(s: State): nat {
    if s.reductions == 1 && s.target < s.episodeCeiling then SINGLE_EVENT_STABLE_WINDOWS_TO_RAISE
    else if s.mode.Cloud? && !s.everCongested then CLOUD_STARTUP_WINDOWS_TO_RAISE
    else if s.mode.Cloud? then CLOUD_STABLE_WINDOWS_TO_RAISE
    else HOME_STABLE_WINDOWS_TO_RAISE
  }

  function AfterStable(s: State): State {
    var t := s.(congestedWindows := 0, latched := false);
    if t.cooldown > 0 then t.(cooldown := t.cooldown - 1, stableWindows := 0)
    else
      var u := t.(stableWindows := t.stableWindows + 1);
      if u.stableWindows >= WindowsToRaise(u) then Raise(u).(stableWindows := 0) else u
  }

  function AfterNeutral(s: State): State {
    s.(congestedWindows := 0, stableWindows := if s.stableWindows > 0 then s.stableWindows - 1 else 0)
  }

  /** A window that is no follow-up of a probe. */
  function AfterOrdinary(s: State, p: Path, hardRecovery: bool): State {
    if hardRecovery then s.(congestedWindows := 0, stableWindows := 0)
    else if Severe(p) then AfterSevere(s)
    else if StrongCongestion(s.mode, p) || (RttOnly(s.mode, p) && !s.latched) then AfterCongested(s, p)
    else if StableWindow(s.mode, p) then AfterStable(s)
    else AfterNeutral(s)
  }

  function AfterWindow(s: State, p: Path, hardRecovery: bool): State {
    var t := s.(lastSequence := p.sequence);
    if StrongCongestion(s.mode, p) then AfterOrdinary(t.(latched := false, probeWindows := 0), p, hardRecovery)
    else if s.latched && RttOnly(s.mode, p) then AfterProbe(t, p)
    else AfterOrdinary(t, p, hardRecovery)
  }

  /** One observation. */
  function Observed(s: State, p: Path, signal: Signal): State {
    var t := AfterSignal(s, signal);
    if Fresh(t, p) then AfterWindow(t, p, signal.hardRecovery) else t
  }

  datatype Input = Input(path: Path, signal: Signal)

  function Run(s: State, inputs: seq<Input>): State
    decreases |inputs|
  {
    if inputs == [] then s else Run(Observed(s, inputs[0].path, inputs[0].signal), inputs[1..])
  }

  // ----- The controller -----

  class AdaptiveBitrateController {
    var mode: Mode
    var configuredMaxKbps: int
    var minimumKbps: int
    var targetKbps: int
    var congestedWindows: nat
    var stableWindows: nat
    var everCongested: bool
    var congestionEpisodeReductions: uint32
    var congestionEpisodeCeilingKbps: int
    var rttOnlyReductionLatched: bool
    var rttProbeWindows: nat
    var rttProbeBestInflationMs: uint32
    var recoveryCooldownWindows: nat
    var receiverCeilingKbps: int
    var oversizedStreamLatched: bool
    var lastSequence: nat

    ghost function Current(): State
      reads this
    {
      State(
        mode, configuredMaxKbps, minimumKbps, targetKbps, congestedWindows, stableWindows, everCongested,
        congestionEpisodeReductions, congestionEpisodeCeilingKbps, rttOnlyReductionLatched, rttProbeWindows,
        rttProbeBestInflationMs, recoveryCooldownWindows, receiverCeilingKbps, oversizedStreamLatched, lastSequence)
    }

    constructor (mode: Mode, configuredMaxKbps: int)
      ensures Current() == Initial(mode, configuredMaxKbps)
    {
      new;
      Reset(mode, configuredMaxKbps);
    }

    method Reset(mode: Mode, configuredMaxKbps: int)
      modifies this
      ensures Current() == Initial(mode, configuredMaxKbps)
    {
      this.mode := mode;
      this.configuredMaxKbps := Max(1, configuredMaxKbps);
      minimumKbps := Min(FLOOR_KBPS, this.configuredMaxKbps);
      targetKbps := if mode == Cloud then Min(CLOUD_STARTUP_KBPS, this.configuredMaxKbps) else this.configuredMaxKbps;
      congestionEpisodeCeilingKbps := targetKbps;
      receiverCeilingKbps := this.configuredMaxKbps;
      ResetEvidence();
    }

    /** Nothing has been observed. */
    method ResetEvidence()
      modifies this`congestedWindows, this`stableWindows, this`everCongested, this`congestionEpisodeReductions,
        this`rttOnlyReductionLatched, this`rttProbeWindows, this`rttProbeBestInflationMs,
        this`recoveryCooldownWindows, this`oversizedStreamLatched, this`lastSequence
      ensures congestedWindows == 0 && stableWindows == 0 && !everCongested && congestionEpisodeReductions == 0
      ensures !rttOnlyReductionLatched && rttProbeWindows == 0 && rttProbeBestInflationMs == 0
      ensures recoveryCooldownWindows == 0 && !oversizedStreamLatched && lastSequence == 0
    {
      congestedWindows := 0;
      stableWindows := 0;
      everCongested := false;
      congestionEpisodeReductions := 0;
      rttOnlyReductionLatched := false;
      rttProbeWindows := 0;
      rttProbeBestInflationMs := 0;
      recoveryCooldownWindows := 0;
      oversizedStreamLatched := false;
      lastSequence := 0;
    }

    method Observe(path: Path, signal: Signal) returns (target: int)
      modifies this
      ensures Current() == Observed(old(Current()), path, signal)
      ensures target == targetKbps
    {
      hide AfterSignal, AfterWindow;
      ApplyReceiverSignal(signal);
      if !path.valid || path.sequence == 0 || path.sequence == lastSequence {
        return targetKbps;
      }
      ObserveWindow(path, signal.hardRecovery);
      target := targetKbps;
    }

    method ObserveWindow(path: Path, hardRecovery: bool)
      modifies this
      ensures Current() == AfterWindow(old(Current()), path, hardRecovery)
    {
      hide AfterOrdinary, AfterProbe;
      lastSequence := path.sequence;
      var strongCongestion := StrongCongestion(mode, path);
      if strongCongestion {
        rttOnlyReductionLatched := false;
        rttProbeWindows := 0;
      } else if rttOnlyReductionLatched && RttOnly(mode, path) {
        EvaluateProbe(path);
        return;
      }
      ObserveOrdinaryWindow(path, hardRecovery);
    }

    /** Two windows without improvement roll the probing reduction back. */
    method EvaluateProbe(path: Path)
      modifies this
      ensures Current() == AfterProbe(old(Current()), path)
    {
      hide Raise;
      if (path.rttInflationMs + RTT_PROBE_IMPROVEMENT_MS) % 0x1_0000_0000 <= rttProbeBestInflationMs {
        rttProbeBestInflationMs := path.rttInflationMs;
        rttProbeWindows := 0;
      } else {
        rttProbeWindows := rttProbeWindows + 1;
        if rttProbeWindows >= RTT_PROBE_EVALUATION_WINDOWS {
          RaiseAndFinish();
          rttProbeWindows := 0;
        }
      }
      congestedWindows := 0;
      stableWindows := 0;
    }

    method ObserveOrdinaryWindow(path: Path, hardRecovery: bool)
      modifies this
      ensures Current() == AfterOrdinary(old(Current()), path, hardRecovery)
    {
      hide StrongCongestion, RttCongested, StableWindow, AfterCongested, AfterStable, Reduce, SeverelyLowered;
      var rttOnlyCongestion := RttOnly(mode, path);
      var congested := StrongCongestion(mode, path) || (rttOnlyCongestion && !rttOnlyReductionLatched);
      if hardRecovery {
        congestedWindows := 0;
        stableWindows := 0;
      } else if Severe(path) {
        LowerForCongestion(true);
        congestedWindows := 0;
        stableWindows := 0;
      } else if congested {
        ObserveCongestion(path, rttOnlyCongestion);
      } else if StableWindow(mode, path) {
        ObserveStability();
      } else {
        congestedWindows := 0;
        if stableWindows > 0 {
          stableWindows := stableWindows - 1;
        }
      }
    }

    method ObserveCongestion(path: Path, rttOnlyCongestion: bool)
      requires rttOnlyCongestion == RttOnly(mode, path)
      modifies this
      ensures Current() == AfterCongested(old(Current()), path)
    {
      hide RttOnly, Reduce, Lowered, Latched;
      stableWindows := 0;
      var windowsToLower := if rttOnlyCongestion then RTT_ONLY_WINDOWS_TO_LOWER else CONGESTED_WINDOWS_TO_LOWER;
      congestedWindows := congestedWindows + 1;
      if congestedWindows >= windowsToLower {
        LowerForCongestion(false);
        Latch(path, rttOnlyCongestion);
      }
    }

    method Latch(path: Path, rttOnlyCongestion: bool)
      modifies this`rttOnlyReductionLatched, this`rttProbeWindows, this`rttProbeBestInflationMs, this`congestedWindows
      ensures Current() == Latched(old(Current()), path, rttOnlyCongestion)
    {
      if rttOnlyCongestion {
        rttOnlyReductionLatched := true;
        rttProbeWindows := 0;
        rttProbeBestInflationMs := path.rttInflationMs;
      }
      congestedWindows := 0;
    }

    /** The reduction is recorded, and in the cloud it is followed by a window of cooldown. */
    method LowerForCongestion(severe: bool)
      modifies this`targetKbps, this`congestionEpisodeCeilingKbps, this`congestionEpisodeReductions,
        this`recoveryCooldownWindows, this`everCongested
      ensures
        var s := old(Current());
        Current() == Reduce(s, if severe then SeverelyLowered(s) else Lowered(s)).(
          cooldown := CloudCooldown(s), everCongested := true)
    {
      hide SeverelyLowered, Lowered;
      var previousTarget := targetKbps;
      if severe {
        LowerSeverely();
      } else {
        LowerOneStep();
      }
      RecordCongestionReduction(previousTarget);
      if mode == Cloud {
        recoveryCooldownWindows := Max(recoveryCooldownWindows, CLOUD_COOLDOWN_WINDOWS);
      }
      everCongested := true;
    }

    method RaiseAndFinish()
      modifies this`targetKbps, this`congestionEpisodeCeilingKbps, this`congestionEpisodeReductions
      ensures Current() == Raise(old(Current()))
    {
      hide Raised;
      RaiseOneStep();
      FinishCongestionEpisodeIfRecovered();
    }

    method ObserveStability()
      modifies this
      ensures Current() == AfterStable(old(Current()))
    {
      hide Raise;
      congestedWindows := 0;
      rttOnlyReductionLatched := false;
      if recoveryCooldownWindows > 0 {
        recoveryCooldownWindows := recoveryCooldownWindows - 1;
        stableWindows := 0;
        return;
      }
      var stableWindowsToRaise :=
        if congestionEpisodeReductions == 1 && targetKbps < congestionEpisodeCeilingKbps then
          SINGLE_EVENT_STABLE_WINDOWS_TO_RAISE
        else if mode == Cloud && !everCongested then CLOUD_STARTUP_WINDOWS_TO_RAISE
        else if mode == Cloud then CLOUD_STABLE_WINDOWS_TO_RAISE
        else HOME_STABLE_WINDOWS_TO_RAISE;
      stableWindows := stableWindows + 1;
      if stableWindows >= stableWindowsToRaise {
        RaiseAndFinish();
        stableWindows := 0;
      }
    }

    method ApplyReceiverSignal(signal: Signal)
      modifies this
      ensures Current() == AfterSignal(old(Current()), signal)
    {
      hide AfterOversize, Reduce, Lowered;
      ApplyStreamSize(signal);
      if !signal.hardRecovery {
        return;
      }
      var previousTarget := targetKbps;
      LowerOneStep();
      RecordCongestionReduction(previousTarget);
      everCongested := true;
      congestedWindows := 0;
      stableWindows := 0;
      recoveryCooldownWindows := Max(
        recoveryCooldownWindows,
        if mode == Cloud then CLOUD_HARD_RECOVERY_COOLDOWN_WINDOWS else HOME_HARD_RECOVERY_COOLDOWN_WINDOWS);
    }

    method ApplyStreamSize(signal: Signal)
      modifies this
      ensures Current() == AfterOversize(old(Current()), signal)
    {
      if mode == Cloud && signal.requestedWidth > 0 && signal.requestedHeight > 0
        && signal.decodedWidth > 0 && signal.decodedHeight > 0
      {
        var requestedPixels := signal.requestedWidth * signal.requestedHeight;
        var decodedPixels := signal.decodedWidth * signal.decodedHeight;
        if decodedPixels > requestedPixels {
          oversizedStreamLatched := true;
          receiverCeilingKbps := Min(configuredMaxKbps, OVERSIZED_CLOUD_CEILING_KBPS);
          if targetKbps > receiverCeilingKbps {
            var previousTarget := targetKbps;
            targetKbps := receiverCeilingKbps;
            RecordCongestionReduction(previousTarget);
            everCongested := true;
            stableWindows := 0;
          }
        }
      }
    }

    /** Down by at most one step, and by less only onto the floor, below which the target is never brought. */
    method LowerOneStep()
      modifies this`targetKbps
      ensures old(targetKbps) - STEP_KBPS <= targetKbps <= old(targetKbps)
      ensures targetKbps == old(targetKbps) <==> old(targetKbps) <= minimumKbps
      ensures old(targetKbps) > minimumKbps ==> targetKbps >= minimumKbps
      ensures old(targetKbps) - STEP_KBPS < targetKbps < old(targetKbps) ==> targetKbps == minimumKbps
      ensures targetKbps == Lowered(old(Current()))
    {
      if targetKbps <= minimumKbps {
        return;
      }
      targetKbps := Max(minimumKbps, targetKbps - STEP_KBPS);
    }

    /** Up by at most one step, and by less only onto the lower ceiling, above which the target is never brought. */
    method RaiseOneStep()
      modifies this`targetKbps
      ensures old(targetKbps) <= targetKbps <= old(targetKbps) + STEP_KBPS
      ensures targetKbps == old(targetKbps) <==> old(targetKbps) >= configuredMaxKbps || old(targetKbps) >= receiverCeilingKbps
      ensures targetKbps > old(targetKbps) ==> targetKbps <= configuredMaxKbps && targetKbps <= receiverCeilingKbps
      ensures old(targetKbps) < targetKbps < old(targetKbps) + STEP_KBPS
        ==> targetKbps == configuredMaxKbps || targetKbps == receiverCeilingKbps
      ensures targetKbps == Raised(old(Current()))
    {
      var ceilingKbps := Min(configuredMaxKbps, receiverCeilingKbps);
      if targetKbps >= ceilingKbps {
        return;
      }
      targetKbps := Min(ceilingKbps, targetKbps + STEP_KBPS);
    }

    /**
      Above the floor: a whole step at least unless the floor is met, and otherwise a multiple of the step within
      half a step of 70%.
     */
    method LowerSeverely()
      modifies this`targetKbps
      ensures targetKbps == old(targetKbps) <==> old(targetKbps) <= minimumKbps
      ensures old(targetKbps) > minimumKbps ==> targetKbps >= minimumKbps
      ensures minimumKbps < targetKbps < old(targetKbps) ==> targetKbps <= old(targetKbps) - STEP_KBPS
      ensures minimumKbps < targetKbps < old(targetKbps) - STEP_KBPS
        ==> targetKbps % STEP_KBPS == 0 && Near(10 * targetKbps, 7 * old(targetKbps), 5 * STEP_KBPS)
      ensures old(targetKbps) > minimumKbps && minimumKbps < targetKbps
        ==> 10 * targetKbps <= 7 * old(targetKbps) + 5 * STEP_KBPS
      ensures targetKbps == SeverelyLowered(old(Current()))
    {
      if targetKbps <= minimumKbps {
        return;
      }
      var reduced := targetKbps * 70 / 100;
      var rounded := (reduced + STEP_KBPS / 2) / STEP_KBPS * STEP_KBPS;
      targetKbps := Max(minimumKbps, Min(targetKbps - STEP_KBPS, rounded));
    }

    method RecordCongestionReduction(previousTargetKbps: int)
      modifies this`congestionEpisodeCeilingKbps, this`congestionEpisodeReductions
      ensures Current() == Reduce(old(Current()).(target := previousTargetKbps), targetKbps)
    {
      if targetKbps >= previousTargetKbps {
        return;
      }
      if congestionEpisodeReductions == 0 {
        congestionEpisodeCeilingKbps := previousTargetKbps;
      }
      congestionEpisodeReductions := (congestionEpisodeReductions + 1) % 0x1_0000_0000;
    }

    /**
      Afterwards no episode is open at or above its ceiling; one below its ceiling goes on unchanged.  Together with
      RaiseOneStep before it this is Raise.
     */
    method FinishCongestionEpisodeIfRecovered()
      modifies this`congestionEpisodeCeilingKbps, this`congestionEpisodeReductions
      ensures congestionEpisodeReductions > 0 ==> targetKbps < congestionEpisodeCeilingKbps
      ensures old(targetKbps < congestionEpisodeCeilingKbps) ==> Current() == old(Current())
      ensures old(congestionEpisodeReductions > 0 && targetKbps >= congestionEpisodeCeilingKbps)
        ==> congestionEpisodeReductions == 0 && congestionEpisodeCeilingKbps == targetKbps
      ensures
        var s := old(Current());
        Current() ==
          if s.reductions == 0 || s.target < s.episodeCeiling then s
          else s.(reductions := 0, episodeCeiling := s.target)
    {
      if congestionEpisodeReductions == 0 || targetKbps < congestionEpisodeCeilingKbps {
        return;
      }
      congestionEpisodeReductions := 0;
      congestionEpisodeCeilingKbps := targetKbps;
    }
  }
}
