/**
  The memory brake as a plain state machine over its samples (internal/membrake/brake.go):
  where the code keeps two deques, this keeps every sample and takes minima the naive way.
  Its runs are what the properties below are about; `Brake` refines it.

  Times are nanoseconds, memory is bytes.
 */
module BrakeSpec {
  import opened MinRing
  import opened Basics

  const SECOND := 1_000_000_000
  const MINUTE := 60 * SECOND
  const KILL_EXIT_WAIT := 30 * SECOND
  const RE_EVICT_EVERY := 15 * SECOND
  const DRAIN_SETTLE := 60 * SECOND
  const QUIET_BACKOFF_RESET := 30 * MINUTE
  const MAX_QUIET_WINDOW := 60 * MINUTE
  const SPLASH_REPROBE := 30 * SECOND

  datatype Config = Config(
    window: int, interval: int, armAfter: int, threshold: int, splashThreshold: int,
    confirmSamples: int, drainBelow: int, purgeAfter: int)

  /** What the config loader enforces (internal/config/load.go); windowMinutes fits a Duration. */
  predicate Loaded(cfg: Config) {
    && cfg.interval > 0 && 0 < cfg.window < INT64
    && cfg.armAfter >= 0 && cfg.confirmSamples >= 1 && cfg.drainBelow >= 0
  }

  const INT64 := 0x8000_0000_0000_0000

  /** One sample: file-backed bytes, the live process groups, whether one is starting or stopping,
      which groups still exist, and which would answer a Splash probe. */
  datatype Tick = Tick(ts: int, m: int, kids: seq<int>, loading: bool, alive: set<int>, splash: set<int>)

  function SampleOf(tick: Tick): Sample {
    Sample(tick.ts, tick.m)
  }

  // ---- the growth threshold ----

  /** The probe cache: process groups known to run Splash, and when others last did not. */
  datatype Probe = Probe(known: set<int>, negativeAt: map<int, int>)

  /** thresholdFor: the Splash threshold only when it is set and every child is a Splash engine. */
  function ThresholdFor(cfg: Config, probe: Probe, kids: seq<int>, now: int, splash: set<int>): (int, Probe) {
    if cfg.splashThreshold <= 0 || kids == [] then (cfg.threshold, probe)
    else ProbeAll(cfg, probe, kids, now, splash)
  }

  function ProbeAll(cfg: Config, probe: Probe, kids: seq<int>, now: int, splash: set<int>): (int, Probe)
    decreases |kids|
  {
    if kids == [] then (cfg.splashThreshold, probe)
    else
      var pgid := kids[0];
      if pgid in probe.known then ProbeAll(cfg, probe, kids[1..], now, splash)
      else if pgid in probe.negativeAt && now - probe.negativeAt[pgid] < SPLASH_REPROBE then (cfg.threshold, probe)
      else if pgid in splash then
        ProbeAll(cfg, Probe(probe.known + {pgid}, probe.negativeAt - {pgid}), kids[1..], now, splash)
      else (cfg.threshold, probe.(negativeAt := probe.negativeAt[pgid := now]))
  }

  // ---- the detector ----

  /** `since` holds every sample since the last reset of the window. */
  datatype Detector = Detector(started: bool, since: seq<Sample>, lastDisarm: int, consec: nat)

  predicate Disarms(det: Detector, tick: Tick) {
    !det.started || tick.loading || tick.kids == []
  }

  /** The detector with this sample in its window. */
  function Observed(det: Detector, tick: Tick): (r: Detector)
    ensures r.since != [] && r.since[|r.since| - 1] == SampleOf(tick)
  {
    if Disarms(det, tick) then Detector(true, [SampleOf(tick)], tick.ts, 0)
    else det.(since := det.since + [SampleOf(tick)])
  }

  predicate Armed(cfg: Config, det: Detector, tick: Tick) {
    tick.ts - Observed(det, tick).lastDisarm >= cfg.armAfter
  }

  /** Growth above the minimum of the trailing window since the last reset. */
  ghost function Growth(cfg: Config, det: Detector, tick: Tick): int {
    tick.m - WindowMin(Observed(det, tick).since, cfg.window)
  }

  /** The sample is armed and stands at least its threshold above the window's minimum. */
  ghost predicate Hot(cfg: Config, det: Detector, probe: Probe, tick: Tick) {
    Armed(cfg, det, tick) && Growth(cfg, det, tick) >= ThresholdFor(cfg, probe, tick.kids, tick.ts, tick.splash).0
  }

  ghost predicate Trips(cfg: Config, det: Detector, probe: Probe, tick: Tick) {
    Hot(cfg, det, probe, tick) && Observed(det, tick).consec + 1 >= cfg.confirmSamples
  }

  ghost function NextDetector(cfg: Config, det: Detector, probe: Probe, tick: Tick): Detector {
    if Trips(cfg, det, probe, tick) then Detector(true, [], tick.ts, 0)
    else
      var seen := Observed(det, tick);
      seen.(consec := if Hot(cfg, det, probe, tick) then seen.consec + 1 else 0)
  }

  function NextProbe(cfg: Config, det: Detector, probe: Probe, tick: Tick): Probe {
    if Armed(cfg, det, tick) then ThresholdFor(cfg, probe, tick.kids, tick.ts, tick.splash).1 else probe
  }

  // ---- the gate ----

  /** The evict-then-drain sequence after a kill; `seen` holds every sample since the eviction. */
  datatype Gate = Gate(
    holding: bool, active: bool, killedAt: int, pgids: seq<int>, evicted: bool, lastEvict: int,
    belowSince: Option<int>, lastRise: Option<int>, seen: seq<Sample>,
    lastRelease: Option<int>, backoff: nat)

  function Pow2(n: nat): nat {
    if n == 0 then 1 else 2 * Pow2(n - 1)
  }

  /** Go's `w << k` on an int64. */
  function ShiftLeft(w: int, k: nat): int {
    (w * Pow2(k) + INT64) % (2 * INT64) - INT64
  }

  function QuietWindow(cfg: Config, backoff: nat): (w: int)
    ensures 0 < w <= MAX_QUIET_WINDOW
  {
    var w := ShiftLeft(cfg.window, backoff);
    if w > MAX_QUIET_WINDOW || w <= 0 then MAX_QUIET_WINDOW else w
  }

  /** Post-eviction sample j stands at least growthGB above the minimum of its trailing quiet window. */
  ghost predicate RisesAt(cfg: Config, seen: seq<Sample>, j: nat, quiet: int)
    requires j < |seen|
  {
    seen[j].v - WindowMin(seen[..j + 1], quiet) >= cfg.threshold
  }

  ghost function TrackRise(cfg: Config, gate: Gate, tick: Tick): Gate {
    var seen := gate.seen + [SampleOf(tick)];
    var rises := RisesAt(cfg, seen, |seen| - 1, QuietWindow(cfg, gate.backoff));
    gate.(seen := seen, lastRise := if rises then Some(tick.ts) else gate.lastRise)
  }

  predicate QuietSatisfied(cfg: Config, gate: Gate, ts: int) {
    gate.lastRise.None? || ts - gate.lastRise.value >= QuietWindow(cfg, gate.backoff)
  }

  predicate AnyIn(pgids: seq<int>, alive: set<int>) {
    exists i :: 0 <= i < |pgids| && pgids[i] in alive
  }

  /** drain still waits for the killed groups to exit. */
  predicate AwaitsExit(gate: Gate, tick: Tick) {
    !gate.evicted && tick.ts - gate.killedAt < KILL_EXIT_WAIT && AnyIn(gate.pgids, tick.alive)
  }

  predicate IsBelow(cfg: Config, tick: Tick) {
    tick.m < cfg.drainBelow || cfg.drainBelow == 0
  }

  /** How long the level has been below, this sample included. */
  function BelowSince(gate: Gate, tick: Tick): int {
    if gate.belowSince.Some? then gate.belowSince.value else tick.ts
  }

  /** drain */
  ghost function Drain(cfg: Config, gate: Gate, tick: Tick): Gate {
    if AwaitsExit(gate, tick) then gate
    else if !gate.evicted then
      TrackRise(cfg, gate.(evicted := true, lastEvict := tick.ts), tick)
    else
      var tracked := TrackRise(cfg, gate, tick);
      if IsBelow(cfg, tick) then
        var below := tracked.(belowSince := Some(BelowSince(gate, tick)));
        if cfg.drainBelow == 0
           || (tick.ts - below.belowSince.value >= DRAIN_SETTLE && QuietSatisfied(cfg, below, tick.ts))
        then Released(below, tick.ts)
        else below
      else
        tracked.(belowSince := None,
                 lastEvict := if tick.ts - gate.lastEvict >= RE_EVICT_EVERY then tick.ts else gate.lastEvict)
  }

  /** releaseAfterDrain */
  function Released(gate: Gate, ts: int): Gate {
    if gate.holding then gate.(active := false, holding := false, lastRelease := Some(ts))
    else gate.(active := false)
  }

  function NextBackoff(cfg: Config, gate: Gate, ts: int): nat {
    if gate.lastRelease.None? then gate.backoff
    else if ts - gate.lastRelease.value >= QUIET_BACKOFF_RESET then 0
    else if ShiftLeft(cfg.window, gate.backoff) < MAX_QUIET_WINDOW then gate.backoff + 1
    else gate.backoff
  }

  /** trip, as far as the gate is concerned. */
  function Trip(cfg: Config, gate: Gate, tick: Tick): Gate {
    Gate(gate.holding || cfg.drainBelow > 0, true, tick.ts, tick.kids, false, 0, None, None, [],
         gate.lastRelease, NextBackoff(cfg, gate, tick.ts))
  }

  // ---- the purge valve ----

  /** The flags of the purge valve, and when a purge was launched; `running` is cleared only when the
      purge itself has returned. */
  datatype Purge = Purge(running: bool, lastAttempt: int, startedAt: int, lastStuck: int, launches: seq<int>)

  predicate PurgeDue(cfg: Config, purge: Purge, ts: int) {
    && cfg.purgeAfter > 0
    && ts - purge.lastAttempt >= cfg.purgeAfter
    && ts - purge.lastStuck >= cfg.purgeAfter
  }

  /** startPurge: the flags are set and one purge is launched. */
  function StartPurge(purge: Purge, ts: int): Purge {
    Purge(true, ts, ts, purge.lastStuck, purge.launches + [ts])
  }

  /** maybePurge: start an attempt when one is due and none is in flight; report one that still is. */
  function MaybePurge(cfg: Config, purge: Purge, ts: int): Purge {
    if !PurgeDue(cfg, purge, ts) then purge
    else if purge.running then purge.(lastStuck := ts)
    else StartPurge(purge, ts)
  }

  /** drain looks at the valve only while the level stands above the drain level. */
  predicate ReachesPurge(cfg: Config, gate: Gate, tick: Tick) {
    gate.active && gate.evicted && !IsBelow(cfg, tick)
  }

  ghost function NextPurge(cfg: Config, core: Core, purge: Purge, tick: Tick): Purge {
    var after := if ReachesPurge(cfg, core.gate, tick) then MaybePurge(cfg, purge, tick.ts) else purge;
    if Trips(cfg, core.det, core.probe, tick) then after.(lastAttempt := tick.ts, lastStuck := 0) else after
  }

  // ---- one sample, and runs of samples ----

  datatype Core = Core(det: Detector, probe: Probe, gate: Gate)

  /** The gate after the drain part of a sample. */
  ghost function Drained(cfg: Config, gate: Gate, tick: Tick): Gate {
    if gate.active then Drain(cfg, gate, tick) else gate
  }

  /** observe */
  ghost function Step(cfg: Config, core: Core, tick: Tick): Core {
    var gate := Drained(cfg, core.gate, tick);
    Core(NextDetector(cfg, core.det, core.probe, tick),
         NextProbe(cfg, core.det, core.probe, tick),
         if Trips(cfg, core.det, core.probe, tick) then Trip(cfg, gate, tick) else gate)
  }

  ghost function Run(cfg: Config, start: Core, ticks: seq<Tick>): Core {
    if ticks == [] then start
    else Step(cfg, Run(cfg, start, ticks[..|ticks| - 1]), ticks[|ticks| - 1])
  }

  /** The gate lets parked loads through on this sample. */
  ghost predicate Opens(cfg: Config, core: Core, tick: Tick) {
    core.gate.holding && !Drained(cfg, core.gate, tick).holding
  }

  const FRESH_DETECTOR := Detector(false, [], 0, 0)
  const FRESH_GATE := Gate(false, false, 0, [], false, 0, None, None, [], None, 0)

  /** New: with no hold to restore, or with one that survived a restart (only kept when drainBelow > 0). */
  predicate IsStart(cfg: Config, core: Core) {
    Unused(core.det, core.probe) && StartGate(cfg, core.gate)
  }

  predicate Unused(det: Detector, probe: Probe) {
    det == FRESH_DETECTOR && probe == Probe({}, map[])
  }

  predicate StartGate(cfg: Config, gate: Gate) {
    || gate == FRESH_GATE
    || (cfg.drainBelow > 0
        && gate == FRESH_GATE.(holding := true, active := true, killedAt := gate.killedAt, evicted := true))
  }

  /** The clock: positive and non-decreasing. */
  predicate WellTimed(ticks: seq<Tick>) {
    && (forall i :: 0 <= i < |ticks| ==> ticks[i].ts > 0)
    && (forall i, j :: 0 <= i < j < |ticks| ==> ticks[i].ts <= ticks[j].ts)
  }
}
