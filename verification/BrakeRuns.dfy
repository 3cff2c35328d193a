/**
  Properties of every run of the memory brake: when it trips, when the gate opens, and that the
  quiet-window arithmetic stays in range.
 */
module BrakeRuns {
  import opened MinRing
  import opened BrakeSpec
  import opened Basics

  lemma RunSnoc(cfg: Config, start: Core, ticks: seq<Tick>, tick: Tick)
    ensures Run(cfg, start, ticks + [tick]) == Step(cfg, Run(cfg, start, ticks), tick)
  {
    assert (ticks + [tick])[..|ticks|] == ticks;
  }

  /** The state in front of sample i. */
  ghost function Before(cfg: Config, start: Core, ticks: seq<Tick>, i: nat): Core
    requires i <= |ticks|
  {
    Run(cfg, start, ticks[..i])
  }

  lemma BeforeSnoc(cfg: Config, start: Core, ticks: seq<Tick>, tick: Tick, i: nat)
    requires i <= |ticks|
    ensures Before(cfg, start, ticks + [tick], i) == Before(cfg, start, ticks, i)
    ensures Before(cfg, start, ticks + [tick], |ticks|) == Run(cfg, start, ticks)
  {
    assert (ticks + [tick])[..i] == ticks[..i];
    assert (ticks + [tick])[..|ticks|] == ticks;
  }

  // ---- the quiet window ----

  ghost predicate BackoffBounded(cfg: Config, backoff: nat) {
    backoff == 0 || cfg.window * Pow2(backoff) < 2 * MAX_QUIET_WINDOW
  }

  lemma ShiftIsExact(cfg: Config, backoff: nat)
    requires Loaded(cfg) && BackoffBounded(cfg, backoff)
    ensures ShiftLeft(cfg.window, backoff) == cfg.window * Pow2(backoff)
  {
    PowPositive(backoff);
    var w := cfg.window * Pow2(backoff);
    assert 0 <= w < INT64 by {
      if backoff == 0 {
        assert w == cfg.window;
      }
    }
    Unwrapped(w);
  }

  lemma Unwrapped(w: int)
    requires 0 <= w < INT64
    ensures (w + INT64) % (2 * INT64) - INT64 == w
  {
  }

  lemma PowPositive(n: nat)
    ensures Pow2(n) >= 1
  {
  }

  lemma BackoffStaysBounded(cfg: Config, gate: Gate, ts: int)
    requires Loaded(cfg) && BackoffBounded(cfg, gate.backoff)
    ensures BackoffBounded(cfg, NextBackoff(cfg, gate, ts))
  {
    ShiftIsExact(cfg, gate.backoff);
    Doubled(cfg.window, Pow2(gate.backoff));
  }

  lemma Doubled(w: int, p: int)
    ensures w * (2 * p) == 2 * (w * p)
  {
  }

  /** In every run the backoff shift never overflows an int64, so the quiet window is windowMinutes
      doubled once per level, capped at 60 minutes. */
  lemma {:induction false} QuietWindowInRange(cfg: Config, start: Core, ticks: seq<Tick>)
    requires Loaded(cfg) && IsStart(cfg, start)
    ensures var backoff := Run(cfg, start, ticks).gate.backoff;
            && ShiftLeft(cfg.window, backoff) == cfg.window * Pow2(backoff)
            && QuietWindow(cfg, backoff)
               == (if cfg.window * Pow2(backoff) > MAX_QUIET_WINDOW then MAX_QUIET_WINDOW
                   else cfg.window * Pow2(backoff))
            && 0 < QuietWindow(cfg, backoff) <= MAX_QUIET_WINDOW
  {
    BackoffBoundedInRuns(cfg, start, ticks);
    var backoff := Run(cfg, start, ticks).gate.backoff;
    hide Run, IsStart, BackoffBounded;
    ShiftIsExact(cfg, backoff);
    PowPositive(backoff);
    ScaledUp(cfg.window, Pow2(backoff));
    hide Pow2, ShiftLeft;
  }

  lemma ScaledUp(w: int, p: int)
    requires w >= 0 && p >= 1
    ensures w * p >= w
  {
  }

  lemma {:induction false} BackoffBoundedInRuns(cfg: Config, start: Core, ticks: seq<Tick>)
    requires Loaded(cfg) && IsStart(cfg, start)
    ensures BackoffBounded(cfg, Run(cfg, start, ticks).gate.backoff)
  {
    if ticks != [] {
      var front, tick := ticks[..|ticks| - 1], ticks[|ticks| - 1];
      BackoffBoundedInRuns(cfg, start, front);
      BackoffStaysBounded(cfg, Drained(cfg, Run(cfg, start, front).gate, tick), tick.ts);
    }
  }

  function Samples(ticks: seq<Tick>): (r: seq<Sample>)
    ensures |r| == |ticks|
    ensures forall i :: 0 <= i < |ticks| ==> r[i] == SampleOf(ticks[i])
  {
    seq(|ticks|, i requires 0 <= i < |ticks| => SampleOf(ticks[i]))
  }

  // ---- the detector ----

  ghost predicate HotAt(cfg: Config, start: Core, ticks: seq<Tick>, i: nat)
    requires i < |ticks|
  {
    var core := Before(cfg, start, ticks, i);
    Hot(cfg, core.det, core.probe, ticks[i])
  }

  ghost predicate TripsAt(cfg: Config, start: Core, ticks: seq<Tick>, i: nat)
    requires i < |ticks|
  {
    var core := Before(cfg, start, ticks, i);
    Trips(cfg, core.det, core.probe, ticks[i])
  }

  ghost predicate DisarmsAt(cfg: Config, start: Core, ticks: seq<Tick>, i: nat)
    requires i < |ticks|
  {
    Disarms(Before(cfg, start, ticks, i).det, ticks[i])
  }

  /** The last c samples are hot, the window is not reset between them, and none of those before `last` tripped. */
  ghost predicate Streak(cfg: Config, start: Core, ticks: seq<Tick>, c: nat, last: nat) {
    && c <= |ticks| && last <= |ticks|
    && (forall i :: |ticks| - c <= i < |ticks| ==> HotAt(cfg, start, ticks, i))
    && (forall i :: |ticks| - c < i < |ticks| ==> !DisarmsAt(cfg, start, ticks, i))
    && (forall i :: |ticks| - c <= i < last ==> !TripsAt(cfg, start, ticks, i))
  }

  /** What is said of sample i does not depend on what comes after it. */
  lemma AtSnoc(cfg: Config, start: Core, ticks: seq<Tick>, tick: Tick, i: nat)
    requires i < |ticks|
    ensures HotAt(cfg, start, ticks + [tick], i) == HotAt(cfg, start, ticks, i)
    ensures TripsAt(cfg, start, ticks + [tick], i) == TripsAt(cfg, start, ticks, i)
    ensures DisarmsAt(cfg, start, ticks + [tick], i) == DisarmsAt(cfg, start, ticks, i)
  {
    hide Hot, Trips, Disarms, Run;
    BeforeSnoc(cfg, start, ticks, tick, i);
    assert (ticks + [tick])[i] == ticks[i];
  }

  /** What is said of the last sample. */
  lemma AtLast(cfg: Config, start: Core, ticks: seq<Tick>, tick: Tick)
    ensures var core := Run(cfg, start, ticks);
            && HotAt(cfg, start, ticks + [tick], |ticks|) == Hot(cfg, core.det, core.probe, tick)
            && TripsAt(cfg, start, ticks + [tick], |ticks|) == Trips(cfg, core.det, core.probe, tick)
            && DisarmsAt(cfg, start, ticks + [tick], |ticks|) == Disarms(core.det, tick)
  {
    hide Hot, Trips, Disarms, Run;
    BeforeSnoc(cfg, start, ticks, tick, |ticks|);
    assert (ticks + [tick])[|ticks|] == tick;
  }

  lemma StreakSnoc(cfg: Config, start: Core, ticks: seq<Tick>, tick: Tick, c: nat, last: nat)
    requires last <= |ticks|
    ensures Streak(cfg, start, ticks + [tick], c + 1, last)
       <==> && c + 1 <= |ticks| + 1
            && Hot(cfg, Run(cfg, start, ticks).det, Run(cfg, start, ticks).probe, tick)
            && (c > 0 ==> !Disarms(Run(cfg, start, ticks).det, tick))
            && Streak(cfg, start, ticks, c, last)
  {
    hide Hot, Trips, Disarms, Run, HotAt, TripsAt, DisarmsAt;
    forall i: nat | i < |ticks|
      ensures HotAt(cfg, start, ticks + [tick], i) == HotAt(cfg, start, ticks, i)
      ensures TripsAt(cfg, start, ticks + [tick], i) == TripsAt(cfg, start, ticks, i)
      ensures DisarmsAt(cfg, start, ticks + [tick], i) == DisarmsAt(cfg, start, ticks, i)
    {
      AtSnoc(cfg, start, ticks, tick, i);
    }
    AtLast(cfg, start, ticks, tick);
  }

  /** The counter is the length of the longest streak without a trip that ends here. */
  lemma {:induction false} ConsecIsLongestStreak(cfg: Config, start: Core, ticks: seq<Tick>)
    requires IsStart(cfg, start)
    ensures forall c: nat :: Streak(cfg, start, ticks, c, |ticks|) <==> c <= Run(cfg, start, ticks).det.consec
  {
    if ticks == [] {
    } else {
      var front, tick := ticks[..|ticks| - 1], ticks[|ticks| - 1];
      assert ticks == front + [tick];
      ConsecIsLongestStreak(cfg, start, front);
      RunSnoc(cfg, start, front, tick);
      forall c: nat
        ensures Streak(cfg, start, ticks, c, |ticks|) <==> c <= Run(cfg, start, ticks).det.consec
      {
        if c > 0 {
          StreakSnoc(cfg, start, front, tick, c - 1, |front|);
          LastTrip(cfg, start, front, tick, c);
          hide Hot, Streak;
          assert Streak(cfg, start, front, c - 1, |front|) <==> c - 1 <= Run(cfg, start, front).det.consec;
        }
      }
    }
  }

  lemma LastTrip(cfg: Config, start: Core, ticks: seq<Tick>, tick: Tick, c: nat)
    requires c > 0
    ensures Streak(cfg, start, ticks + [tick], c, |ticks| + 1)
       <==> && Streak(cfg, start, ticks + [tick], c, |ticks|)
            && !Trips(cfg, Run(cfg, start, ticks).det, Run(cfg, start, ticks).probe, tick)
  {
    BeforeSnoc(cfg, start, ticks, tick, |ticks|);
    assert TripsAt(cfg, start, ticks + [tick], |ticks|)
        == Trips(cfg, Run(cfg, start, ticks).det, Run(cfg, start, ticks).probe, tick);
  }

  /** The detector trips exactly when its own count says so. */
  lemma TripsOnStreak(cfg: Config, start: Core, ticks: seq<Tick>, tick: Tick)
    requires Loaded(cfg) && IsStart(cfg, start)
    ensures Trips(cfg, Run(cfg, start, ticks).det, Run(cfg, start, ticks).probe, tick)
       <==> Streak(cfg, start, ticks + [tick], cfg.confirmSamples, |ticks|)
  {
    ConsecIsLongestStreak(cfg, start, ticks);
    StreakSnoc(cfg, start, ticks, tick, cfg.confirmSamples - 1, |ticks|);
    hide Hot, Streak;
    var core := Run(cfg, start, ticks);
    assert Streak(cfg, start, ticks, cfg.confirmSamples - 1, |ticks|) <==> cfg.confirmSamples - 1 <= core.det.consec;
    assert Streak(cfg, start, ticks, 0, |ticks|) by {
      assert 0 <= core.det.consec;
    }
  }

  // ---- what the detector's fields mean in the run ----

  /** A sample the detector cannot judge: the first one, or one where a child is starting or stopping, or
      there is none. */
  predicate Unsettled(ticks: seq<Tick>, i: nat)
    requires i < |ticks|
  {
    i == 0 || ticks[i].loading || ticks[i].kids == []
  }

  /** The window sample i is judged in starts at sample r: r is unsettled or follows a trip, and neither
      has happened since. */
  ghost predicate OpenedAt(cfg: Config, start: Core, ticks: seq<Tick>, i: nat, r: nat)
    requires i < |ticks|
  {
    && r <= i
    && (Unsettled(ticks, r) || TripsAt(cfg, start, ticks, r - 1))
    && (forall k :: r < k <= i ==> !Unsettled(ticks, k))
    && (forall k :: r <= k < i ==> !TripsAt(cfg, start, ticks, k))
  }

  /** When the arming clock of a window that starts at r was last reset. */
  function ClockStart(ticks: seq<Tick>, r: nat): int
    requires r < |ticks|
  {
    if Unsettled(ticks, r) then ticks[r].ts else ticks[r - 1].ts
  }

  /** With sample i taken in, the detector holds exactly the samples of its window, and the clock runs
      from the window's start. */
  lemma {:induction false} DetectorInRuns(cfg: Config, start: Core, ticks: seq<Tick>, tick: Tick) returns (r: nat)
    requires IsStart(cfg, start)
    ensures OpenedAt(cfg, start, ticks + [tick], |ticks|, r)
    ensures Observed(Run(cfg, start, ticks).det, tick).since == Samples(ticks + [tick])[r..]
    ensures Observed(Run(cfg, start, ticks).det, tick).lastDisarm == ClockStart(ticks + [tick], r)
    ensures Disarms(Run(cfg, start, ticks).det, tick) <==> Unsettled(ticks + [tick], |ticks|)
  {
    var all, det := ticks + [tick], Run(cfg, start, ticks).det;
    assert Samples(all)[|ticks|..] == [SampleOf(tick)];
    if ticks == [] {
      r := 0;
    } else {
      var front, last := ticks[..|ticks| - 1], ticks[|ticks| - 1];
      assert ticks == front + [last];
      var q := DetectorInRuns(cfg, start, front, last);
      AtLast(cfg, start, front, last);
      AtSnoc(cfg, start, ticks, tick, |front|);
      if Unsettled(all, |ticks|) {
        r := |ticks|;
      } else if TripsAt(cfg, start, ticks, |front|) {
        r := |ticks|;
      } else {
        r := q;
        WindowGrows(cfg, start, ticks, tick, q);
      }
    }
  }

  /** Nothing resets the window at this sample or the one before. */
  lemma WindowGrows(cfg: Config, start: Core, ticks: seq<Tick>, tick: Tick, q: nat)
    requires ticks != [] && OpenedAt(cfg, start, ticks, |ticks| - 1, q)
    requires !Unsettled(ticks + [tick], |ticks|) && !TripsAt(cfg, start, ticks, |ticks| - 1)
    ensures OpenedAt(cfg, start, ticks + [tick], |ticks|, q)
    ensures Samples(ticks + [tick])[q..] == Samples(ticks)[q..] + [SampleOf(tick)]
    ensures ClockStart(ticks + [tick], q) == ClockStart(ticks, q)
  {
    hide TripsAt;
    forall k: nat | k < |ticks|
      ensures (ticks + [tick])[k] == ticks[k] && Unsettled(ticks + [tick], k) == Unsettled(ticks, k)
      ensures TripsAt(cfg, start, ticks + [tick], k) == TripsAt(cfg, start, ticks, k)
    {
      AtSnoc(cfg, start, ticks, tick, k);
    }
    assert Samples(ticks + [tick]) == Samples(ticks) + [SampleOf(tick)];
  }

  /** A window starts at one place. */
  lemma OpenedOnce(cfg: Config, start: Core, ticks: seq<Tick>, i: nat, q: nat, r: nat)
    requires i < |ticks| && q < r && OpenedAt(cfg, start, ticks, i, q)
    ensures !OpenedAt(cfg, start, ticks, i, r)
  {
    hide TripsAt, Unsettled;
  }

  /** Sample i is armed, and stands at least its threshold above the true minimum of the trailing window
      since the last reset. */
  ghost predicate StandsAt(cfg: Config, start: Core, ticks: seq<Tick>, i: nat)
    requires i < |ticks|
  {
    exists r: nat, low: int :: StandsOver(cfg, start, ticks, i, r, low)
  }

  /** The window starts at sample r and its minimum is low. */
  ghost predicate StandsOver(cfg: Config, start: Core, ticks: seq<Tick>, i: nat, r: nat, low: int)
    requires i < |ticks|
  {
    && OpenedAt(cfg, start, ticks, i, r)
    && IsWindowMin(low, Samples(ticks)[r..i + 1], ticks[i].ts, cfg.window)
    && ticks[i].ts - ClockStart(ticks, r) >= cfg.armAfter
    && ticks[i].m - low >= ThresholdAt(cfg, start, ticks, i)
  }

  ghost function ThresholdAt(cfg: Config, start: Core, ticks: seq<Tick>, i: nat): int
    requires i < |ticks|
  {
    ThresholdFor(cfg, Before(cfg, start, ticks, i).probe, ticks[i].kids, ticks[i].ts, ticks[i].splash).0
  }

  /** The growth that counts is measured from the true minimum of the trailing window since the last reset. */
  lemma {:induction false} GrowthIsAboveWindowMin(cfg: Config, start: Core, ticks: seq<Tick>, tick: Tick)
    returns (r: nat)
    requires Loaded(cfg) && IsStart(cfg, start)
    ensures OpenedAt(cfg, start, ticks + [tick], |ticks|, r)
    ensures IsWindowMin(tick.m - Growth(cfg, Run(cfg, start, ticks).det, tick), Samples(ticks + [tick])[r..], tick.ts,
              cfg.window)
    ensures Armed(cfg, Run(cfg, start, ticks).det, tick) <==> tick.ts - ClockStart(ticks + [tick], r) >= cfg.armAfter
  {
    r := DetectorInRuns(cfg, start, ticks, tick);
    WindowMinIsMin(Observed(Run(cfg, start, ticks).det, tick).since, cfg.window);
  }

  /** The window and its minimum being what they are, the rest of the judgement is two comparisons. */
  lemma StandsExactly(cfg: Config, start: Core, ticks: seq<Tick>, i: nat, r: nat, low: int)
    requires i < |ticks| && OpenedAt(cfg, start, ticks, i, r)
    requires IsWindowMin(low, Samples(ticks)[r..i + 1], ticks[i].ts, cfg.window)
    ensures StandsAt(cfg, start, ticks, i) <==>
              ticks[i].ts - ClockStart(ticks, r) >= cfg.armAfter
                  && ticks[i].m - low >= ThresholdAt(cfg, start, ticks, i)
  {
    hide OpenedAt, ThresholdAt, ClockStart, IsWindowMin, Samples;
    OpenedInside(cfg, start, ticks, i, r);
    forall q: nat, l: int | StandsOver(cfg, start, ticks, i, q, l)
      ensures q == r && l == low
    {
      if q < r {
        OpenedOnce(cfg, start, ticks, i, q, r);
      } else if r < q {
        OpenedOnce(cfg, start, ticks, i, r, q);
      } else {
        OneMinimum(l, low, Samples(ticks)[r..i + 1], ticks[i].ts, cfg.window);
      }
    }
    assert StandsAt(cfg, start, ticks, i) <==> StandsOver(cfg, start, ticks, i, r, low);
  }

  /** The detector's judgement of its newest sample is the run's. */
  lemma HotIsStanding(cfg: Config, start: Core, ticks: seq<Tick>, tick: Tick)
    requires Loaded(cfg) && IsStart(cfg, start)
    ensures Hot(cfg, Run(cfg, start, ticks).det, Run(cfg, start, ticks).probe, tick)
       <==> StandsAt(cfg, start, ticks + [tick], |ticks|)
  {
    hide OpenedAt, Run, ThresholdFor, Armed, ClockStart, IsWindowMin, Growth, Samples, StandsAt, IsStart;
    var all, core := ticks + [tick], Run(cfg, start, ticks);
    var r := GrowthIsAboveWindowMin(cfg, start, ticks, tick);
    BeforeSnoc(cfg, start, ticks, tick, |ticks|);
    OpenedInside(cfg, start, all, |ticks|, r);
    assert Samples(all)[r..|ticks| + 1] == Samples(all)[r..];
    StandsExactly(cfg, start, all, |ticks|, r, tick.m - Growth(cfg, core.det, tick));
  }

  lemma OpenedInside(cfg: Config, start: Core, ticks: seq<Tick>, i: nat, r: nat)
    requires i < |ticks| && OpenedAt(cfg, start, ticks, i, r)
    ensures r <= i
  {
  }

  lemma OneMinimum(m: int, n: int, hist: seq<Sample>, now: int, win: int)
    requires IsWindowMin(m, hist, now, win) && IsWindowMin(n, hist, now, win)
    ensures m == n
  {
  }

  /** The same at any sample of a run. */
  lemma HotMeans(cfg: Config, start: Core, ticks: seq<Tick>, i: nat)
    requires Loaded(cfg) && IsStart(cfg, start) && i < |ticks|
    ensures HotAt(cfg, start, ticks, i) <==> StandsAt(cfg, start, ticks, i)
    ensures DisarmsAt(cfg, start, ticks, i) <==> Unsettled(ticks, i)
  {
    var front := ticks[..i];
    assert ticks[..i + 1] == front + [ticks[i]];
    HotIsStanding(cfg, start, front, ticks[i]);
    var _ := DetectorInRuns(cfg, start, front, ticks[i]);
    StandsInPrefix(cfg, start, ticks, i);
  }

  lemma StandsInPrefix(cfg: Config, start: Core, ticks: seq<Tick>, i: nat)
    requires i < |ticks|
    ensures StandsAt(cfg, start, ticks[..i + 1], i) <==> StandsAt(cfg, start, ticks, i)
    ensures Unsettled(ticks[..i + 1], i) <==> Unsettled(ticks, i)
  {
    var part := ticks[..i + 1];
    forall r: nat, low: int
      ensures StandsOver(cfg, start, part, i, r, low) == StandsOver(cfg, start, ticks, i, r, low)
    {
      if r <= i {
        OpenedInPrefix(cfg, start, ticks, i, r);
        assert part[..i] == ticks[..i];
        hide OpenedAt, Run, ThresholdFor, IsWindowMin, ClockStart;
      }
    }
  }

  lemma OpenedInPrefix(cfg: Config, start: Core, ticks: seq<Tick>, i: nat, r: nat)
    requires r <= i < |ticks|
    ensures OpenedAt(cfg, start, ticks[..i + 1], i, r) == OpenedAt(cfg, start, ticks, i, r)
    ensures ClockStart(ticks[..i + 1], r) == ClockStart(ticks, r)
    ensures Samples(ticks[..i + 1])[r..i + 1] == Samples(ticks)[r..i + 1]
  {
    hide TripsAt;
    var part := ticks[..i + 1];
    TripsInPrefix(cfg, start, ticks, i + 1);
    assert forall k: nat :: k <= i ==> part[k] == ticks[k] && Unsettled(part, k) == Unsettled(ticks, k);
  }

  lemma TripsInPrefix(cfg: Config, start: Core, ticks: seq<Tick>, n: nat)
    requires n <= |ticks|
    ensures forall k: nat :: k < n ==> TripsAt(cfg, start, ticks[..n], k) == TripsAt(cfg, start, ticks, k)
  {
    hide Trips, Run;
    forall k: nat | k < n
      ensures TripsAt(cfg, start, ticks[..n], k) == TripsAt(cfg, start, ticks, k)
    {
      assert ticks[..n][..k] == ticks[..k];
    }
  }

  /** The last c samples all stand, with no reset between them and no trip before the last. */
  ghost predicate Confirmed(cfg: Config, start: Core, ticks: seq<Tick>, c: nat) {
    && 0 < c <= |ticks|
    && (forall i :: |ticks| - c <= i < |ticks| ==> StandsAt(cfg, start, ticks, i))
    && (forall i :: |ticks| - c < i < |ticks| ==> !Unsettled(ticks, i))
    && (forall i :: |ticks| - c <= i < |ticks| - 1 ==> !TripsAt(cfg, start, ticks, i))
  }

  /** In every run, a sample trips the brake exactly when it completes confirmSamples consecutive armed
      samples that each stand at least their threshold above the true minimum of their window. */
  lemma TripsExactly(cfg: Config, start: Core, ticks: seq<Tick>, tick: Tick)
    requires Loaded(cfg) && IsStart(cfg, start)
    ensures Trips(cfg, Run(cfg, start, ticks).det, Run(cfg, start, ticks).probe, tick)
       <==> Confirmed(cfg, start, ticks + [tick], cfg.confirmSamples)
  {
    TripsOnStreak(cfg, start, ticks, tick);
    var all := ticks + [tick];
    hide Trips, Run, HotAt, StandsAt, DisarmsAt, Unsettled, TripsAt;
    forall i: nat | i < |all|
      ensures HotAt(cfg, start, all, i) == StandsAt(cfg, start, all, i)
      ensures DisarmsAt(cfg, start, all, i) == Unsettled(all, i)
    {
      HotMeans(cfg, start, all, i);
    }
  }

  // ---- the threshold ----

  /** A process group counts as Splash: known to be, or answering a probe that is not held off. */
  predicate CountsAsSplash(probe: Probe, pgid: int, now: int, splash: set<int>) {
    || pgid in probe.known
    || (pgid in splash && !(pgid in probe.negativeAt && now - probe.negativeAt[pgid] < SPLASH_REPROBE))
  }

  predicate AllSplash(probe: Probe, kids: seq<int>, now: int, splash: set<int>) {
    forall i :: 0 <= i < |kids| ==> CountsAsSplash(probe, kids[i], now, splash)
  }

  /** The Splash threshold applies exactly when it is set, a child runs, and every child counts as Splash. */
  lemma ThresholdMeans(cfg: Config, probe: Probe, kids: seq<int>, now: int, splash: set<int>)
    ensures ThresholdFor(cfg, probe, kids, now, splash).0 ==
              if cfg.splashThreshold > 0 && kids != [] && AllSplash(probe, kids, now, splash)
              then cfg.splashThreshold else cfg.threshold
  {
    ProbeAllMeans(cfg, probe, kids, now, splash);
  }

  lemma {:induction false} ProbeAllMeans(cfg: Config, probe: Probe, kids: seq<int>, now: int, splash: set<int>)
    ensures ProbeAll(cfg, probe, kids, now, splash).0 ==
              if AllSplash(probe, kids, now, splash) then cfg.splashThreshold else cfg.threshold
    decreases |kids|
  {
    if kids != [] {
      var pgid, rest := kids[0], kids[1..];
      var more := Probe(probe.known + {pgid}, probe.negativeAt - {pgid});
      FirstIsSplash(probe, kids, now, splash);
      ProbeAllMeans(cfg, probe, rest, now, splash);
      ProbeAllMeans(cfg, more, rest, now, splash);
      if CountsAsSplash(probe, pgid, now, splash) {
        assert forall kid :: CountsAsSplash(more, kid, now, splash) == CountsAsSplash(probe, kid, now, splash);
      }
    }
  }

  lemma FirstIsSplash(probe: Probe, kids: seq<int>, now: int, splash: set<int>)
    requires kids != []
    ensures AllSplash(probe, kids, now, splash) <==>
              CountsAsSplash(probe, kids[0], now, splash) && AllSplash(probe, kids[1..], now, splash)
  {
    hide CountsAsSplash;
    assert forall i :: 0 < i < |kids| ==> kids[i] == kids[1..][i - 1];
  }

  lemma {:induction false} ThresholdPositive(cfg: Config, probe: Probe, kids: seq<int>, now: int, splash: set<int>)
    requires cfg.threshold > 0 && cfg.splashThreshold > 0
    ensures ProbeAll(cfg, probe, kids, now, splash).0 > 0
    decreases |kids|
  {
    if kids != [] && (kids[0] in probe.known || kids[0] in splash) {
      ThresholdPositive(cfg, probe, kids[1..], now, splash);
      ThresholdPositive(cfg, Probe(probe.known + {kids[0]}, probe.negativeAt - {kids[0]}), kids[1..], now, splash);
    }
  }

  /** With a positive trigger the brake never kills on a sample where a child is starting or stopping,
      or where there is none, even when it arms at once. */
  lemma NeverTripsUnsettled(cfg: Config, det: Detector, probe: Probe, tick: Tick)
    requires Loaded(cfg) && cfg.threshold > 0
    requires tick.loading || tick.kids == []
    ensures !Trips(cfg, det, probe, tick)
  {
    if cfg.splashThreshold > 0 {
      ThresholdPositive(cfg, probe, tick.kids, tick.ts, tick.splash);
    }
    assert Observed(det, tick).since == [SampleOf(tick)];
  }

  // ---- the kill and the eviction ----

  ghost predicate NoTripFrom(cfg: Config, start: Core, ticks: seq<Tick>, from: nat) {
    forall j :: from <= j < |ticks| ==> !TripsAt(cfg, start, ticks, j)
  }

  /** Sample t is the last trip. */
  ghost predicate LastTripAt(cfg: Config, start: Core, ticks: seq<Tick>, t: nat) {
    t < |ticks| && TripsAt(cfg, start, ticks, t) && NoTripFrom(cfg, start, ticks, t + 1)
  }

  /** At sample k a group killed at sample t still exists, and the wait for it is not over. */
  predicate AwaitsAt(ticks: seq<Tick>, t: nat, k: nat)
    requires t < |ticks| && k < |ticks|
  {
    ticks[k].ts - ticks[t].ts < KILL_EXIT_WAIT && exists pgid <- ticks[t].kids :: pgid in ticks[k].alive
  }

  /** Sample e is the eviction that follows the last trip: the first sample after it at which the killed
      groups were gone or KILL_EXIT_WAIT was over.  Or nothing has tripped since a start that restored a
      hold, which is already evicted. */
  ghost predicate EvictionAt(cfg: Config, start: Core, ticks: seq<Tick>, e: nat) {
    || (e == 0 && start.gate.evicted && NoTripFrom(cfg, start, ticks, 0))
    || exists t: nat ::
         && t < e < |ticks| && LastTripAt(cfg, start, ticks, t)
         && !AwaitsAt(ticks, t, e) && forall k :: t < k < e ==> AwaitsAt(ticks, t, k)
  }

  ghost predicate KillInv(cfg: Config, start: Core, ticks: seq<Tick>, gate: Gate) {
    gate.active ==>
      if gate.evicted then |gate.seen| <= |ticks| && EvictionAt(cfg, start, ticks, |ticks| - |gate.seen|)
      else
        && gate.seen == []
        && exists t: nat ::
             && LastTripAt(cfg, start, ticks, t) && gate.killedAt == ticks[t].ts && gate.pgids == ticks[t].kids
             && forall k :: t < k < |ticks| ==> AwaitsAt(ticks, t, k)
  }

  /** In every run, an active gate stands for the last trip, and once evicted for the eviction after it. */
  lemma {:induction false} KillInRuns(cfg: Config, start: Core, ticks: seq<Tick>)
    requires IsStart(cfg, start)
    ensures KillInv(cfg, start, ticks, Run(cfg, start, ticks).gate)
  {
    if ticks == [] {
    } else {
      var front, tick := ticks[..|ticks| - 1], ticks[|ticks| - 1];
      assert ticks == front + [tick];
      KillInRuns(cfg, start, front);
      var core := Run(cfg, start, front);
      AtLast(cfg, start, front, tick);
      RunSnoc(cfg, start, front, tick);
      hide Run, Trips, TripsAt, Drained;
      forall j: nat | j < |front|
        ensures TripsAt(cfg, start, ticks, j) == TripsAt(cfg, start, front, j) && ticks[j] == front[j]
      {
        AtSnoc(cfg, start, front, tick, j);
      }
      if Trips(cfg, core.det, core.probe, tick) {
        assert LastTripAt(cfg, start, ticks, |front|);
      } else if core.gate.active {
        DrainedFields(cfg, core.gate, tick);
        KillStays(cfg, start, front, tick, core.gate, Drained(cfg, core.gate, tick));
      } else {
        assert Drained(cfg, core.gate, tick) == core.gate by { InactiveStays(cfg, core.gate, tick); }
      }
    }
  }

  lemma InactiveStays(cfg: Config, gate: Gate, tick: Tick)
    requires !gate.active
    ensures Drained(cfg, gate, tick) == gate
  {
  }

  lemma DrainedFields(cfg: Config, gate: Gate, tick: Tick)
    requires gate.active
    ensures var drained := Drained(cfg, gate, tick);
            if AwaitsExit(gate, tick) then drained == gate
            else drained.evicted && drained.seen == gate.seen + [SampleOf(tick)]
  {
    hide RisesAt, QuietWindow;
  }

  /** A sample that does not trip keeps what an active gate stands for. */
  lemma KillStays(cfg: Config, start: Core, ticks: seq<Tick>, tick: Tick, gate: Gate, drained: Gate)
    requires KillInv(cfg, start, ticks, gate) && gate.active
    requires forall j: nat :: j < |ticks| ==> TripsAt(cfg, start, ticks + [tick], j) == TripsAt(cfg, start, ticks, j)
    requires !TripsAt(cfg, start, ticks + [tick], |ticks|)
    requires if AwaitsExit(gate, tick) then drained == gate
             else drained.evicted && drained.seen == gate.seen + [SampleOf(tick)]
    ensures KillInv(cfg, start, ticks + [tick], drained)
  {
    hide TripsAt;
    var all := ticks + [tick];
    assert forall j :: 0 <= j < |ticks| ==> all[j] == ticks[j];
    if gate.evicted {
      var e := |ticks| - |gate.seen|;
      if !(e == 0 && start.gate.evicted && NoTripFrom(cfg, start, ticks, 0)) {
        var t: nat :| t < e < |ticks| && LastTripAt(cfg, start, ticks, t)
                      && !AwaitsAt(ticks, t, e) && forall k :: t < k < e ==> AwaitsAt(ticks, t, k);
        LastTripStays(cfg, start, ticks, tick, t);
        assert forall k :: t < k <= e ==> AwaitsAt(all, t, k) == AwaitsAt(ticks, t, k);
      }
    } else {
      var t: nat :| LastTripAt(cfg, start, ticks, t) && gate.killedAt == ticks[t].ts && gate.pgids == ticks[t].kids
                    && forall k :: t < k < |ticks| ==> AwaitsAt(ticks, t, k);
      LastTripStays(cfg, start, ticks, tick, t);
      assert forall k :: t < k < |ticks| ==> AwaitsAt(all, t, k) == AwaitsAt(ticks, t, k);
      AnyInMeans(gate.pgids, tick.alive);
      hide AnyIn;
      assert AwaitsAt(all, t, |ticks|) <==> AwaitsExit(gate, tick);
    }
  }

  lemma AnyInMeans(pgids: seq<int>, alive: set<int>)
    ensures AnyIn(pgids, alive) <==> exists pgid <- pgids :: pgid in alive
  {
    if AnyIn(pgids, alive) {
      var i :| 0 <= i < |pgids| && pgids[i] in alive;
      assert pgids[i] in pgids;
    }
    if exists pgid <- pgids :: pgid in alive {
      var pgid :| pgid in pgids && pgid in alive;
      var i :| 0 <= i < |pgids| && pgids[i] == pgid;
    }
  }

  lemma LastTripStays(cfg: Config, start: Core, ticks: seq<Tick>, tick: Tick, t: nat)
    requires LastTripAt(cfg, start, ticks, t) && !TripsAt(cfg, start, ticks + [tick], |ticks|)
    requires forall j: nat :: j < |ticks| ==> TripsAt(cfg, start, ticks + [tick], j) == TripsAt(cfg, start, ticks, j)
    ensures LastTripAt(cfg, start, ticks + [tick], t)
  {
    hide TripsAt;
  }

  // ---- the gate ----

  /** Every sample of xs from i on is below the drain level. */
  ghost predicate AllBelow(cfg: Config, xs: seq<Sample>, i: nat) {
    forall j :: i <= j < |xs| ==> xs[j].v < cfg.drainBelow || cfg.drainBelow == 0
  }

  ghost predicate BelowExactly(cfg: Config, gate: Gate) {
    gate.belowSince.Some? ==>
      exists i: nat :: i < |gate.seen| && gate.seen[i].t == gate.belowSince.value && AllBelow(cfg, gate.seen, i)
  }

  /** lastRise is the time of the last rise since the eviction, and there is one exactly when something rose. */
  ghost predicate RisesExactly(cfg: Config, gate: Gate) {
    var quiet := QuietWindow(cfg, gate.backoff);
    && (forall j: nat :: j < |gate.seen| && RisesAt(cfg, gate.seen, j, quiet) ==>
          gate.lastRise.Some? && gate.seen[j].t <= gate.lastRise.value)
    && (gate.lastRise.Some? ==>
          exists j: nat :: j < |gate.seen| && RisesAt(cfg, gate.seen, j, quiet)
              && gate.seen[j].t == gate.lastRise.value)
  }

  ghost predicate GateInv(cfg: Config, ticks: seq<Tick>, gate: Gate) {
    && (gate.holding <==> gate.active && cfg.drainBelow > 0)
    && (gate.active ==>
          && |gate.seen| <= |ticks|
          && gate.seen == Samples(ticks)[|ticks| - |gate.seen|..]
          && BelowExactly(cfg, gate) && RisesExactly(cfg, gate)
          && (!gate.evicted ==> gate.seen == [] && gate.belowSince.None? && gate.lastRise.None?))
  }

  lemma {:induction false} GateInvInRuns(cfg: Config, start: Core, ticks: seq<Tick>)
    requires Loaded(cfg) && IsStart(cfg, start) && WellTimed(ticks)
    ensures GateInv(cfg, ticks, Run(cfg, start, ticks).gate)
  {
    if ticks == [] {
    } else {
      var front, tick := ticks[..|ticks| - 1], ticks[|ticks| - 1];
      assert ticks == front + [tick];
      GateInvInRuns(cfg, start, front);
      DrainKeepsGateInv(cfg, front, tick, Run(cfg, start, front).gate);
      assert Samples(ticks)[|ticks|..] == [];
    }
  }

  /** The drain part of one sample keeps the invariant. */
  lemma DrainKeepsGateInv(cfg: Config, ticks: seq<Tick>, tick: Tick, gate: Gate)
    requires WellTimed(ticks + [tick])
    requires GateInv(cfg, ticks, gate)
    ensures GateInv(cfg, ticks + [tick], Drained(cfg, gate, tick))
  {
    var all := ticks + [tick];
    if gate.active && AwaitsExit(gate, tick) {
      assert Samples(all)[|all|..] == [];
    } else if gate.active {
      DrainedInvariant(cfg, ticks, tick, gate);
    }
  }

  /** What drain keeps once the killed groups are gone. */
  lemma DrainedInvariant(cfg: Config, ticks: seq<Tick>, tick: Tick, gate: Gate)
    requires WellTimed(ticks + [tick])
    requires GateInv(cfg, ticks, gate) && gate.active && !AwaitsExit(gate, tick)
    ensures GateInv(cfg, ticks + [tick], Drained(cfg, gate, tick))
    ensures RisesExactly(cfg, Drained(cfg, gate, tick)) && BelowExactly(cfg, Drained(cfg, gate, tick))
    ensures Drained(cfg, gate, tick).seen == Samples(ticks + [tick])[|ticks| - |gate.seen|..]
  {
    hide WellTimed, Samples, BelowExactly, RisesExactly, TrackRise, Drained, AwaitsExit;
    SeenIsTimed(gate.seen, ticks, tick);
    SamplesSnoc(ticks, tick, gate.seen);
    BelowKeeps(cfg, gate, tick);
    DrainTracks(cfg, gate, tick);
    DrainHolds(cfg, gate, tick);
  }

  lemma DrainHolds(cfg: Config, gate: Gate, tick: Tick)
    requires gate.holding <==> gate.active && cfg.drainBelow > 0
    ensures Drained(cfg, gate, tick).holding <==> Drained(cfg, gate, tick).active && cfg.drainBelow > 0
  {
    hide RisesAt, QuietWindow;
  }

  /** drain tracks the rise and, apart from that, leaves the tracked samples alone. */
  lemma DrainTracks(cfg: Config, gate: Gate, tick: Tick)
    requires gate.active && !AwaitsExit(gate, tick)
    requires RisesExactly(cfg, gate) && forall j :: 0 <= j < |gate.seen| ==> gate.seen[j].t <= tick.ts
    ensures RisesExactly(cfg, Drained(cfg, gate, tick))
    ensures Drained(cfg, gate, tick).seen == gate.seen + [SampleOf(tick)]
    ensures Drained(cfg, gate, tick).backoff == gate.backoff && Drained(cfg, gate, tick).evicted
  {
    var evicting := if gate.evicted then gate else gate.(evicted := true, lastEvict := tick.ts);
    TrackRiseKeeps(cfg, evicting, tick);
    var tracked, drained := TrackRise(cfg, evicting, tick), Drained(cfg, gate, tick);
    hide RisesAt, QuietWindow;
    assert drained.seen == tracked.seen && drained.lastRise == tracked.lastRise && drained.backoff == tracked.backoff;
  }

  lemma SeenIsTimed(seen: seq<Sample>, ticks: seq<Tick>, tick: Tick)
    requires WellTimed(ticks + [tick])
    requires |seen| <= |ticks| && seen == Samples(ticks)[|ticks| - |seen|..]
    ensures forall j :: 0 <= j < |seen| ==> seen[j].t <= tick.ts
  {
    forall j | 0 <= j < |seen|
      ensures seen[j].t <= tick.ts
    {
      var k := |ticks| - |seen| + j;
      assert seen[j] == Samples(ticks)[k];
      assert (ticks + [tick])[k] == ticks[k] && (ticks + [tick])[|ticks|] == tick;
    }
  }

  lemma SamplesSnoc(ticks: seq<Tick>, tick: Tick, seen: seq<Sample>)
    requires |seen| <= |ticks| && seen == Samples(ticks)[|ticks| - |seen|..]
    ensures seen + [SampleOf(tick)] == Samples(ticks + [tick])[|ticks| - |seen|..]
  {
    assert Samples(ticks + [tick]) == Samples(ticks) + [SampleOf(tick)];
  }

  lemma RisesAtPrefix(cfg: Config, seen: seq<Sample>, s: Sample, j: nat, quiet: int)
    requires j < |seen|
    ensures RisesAt(cfg, seen + [s], j, quiet) == RisesAt(cfg, seen, j, quiet)
  {
    assert (seen + [s])[..j + 1] == seen[..j + 1];
  }

  lemma TrackRiseKeeps(cfg: Config, gate: Gate, tick: Tick)
    requires RisesExactly(cfg, gate) && forall j :: 0 <= j < |gate.seen| ==> gate.seen[j].t <= tick.ts
    ensures RisesExactly(cfg, TrackRise(cfg, gate, tick))
  {
    hide RisesAt, QuietWindow;
    var tracked, quiet := TrackRise(cfg, gate, tick), QuietWindow(cfg, gate.backoff);
    var n := |gate.seen|;
    forall j: nat | j < n
      ensures RisesAt(cfg, tracked.seen, j, quiet) == RisesAt(cfg, gate.seen, j, quiet)
      ensures tracked.seen[j] == gate.seen[j]
    {
      RisesAtPrefix(cfg, gate.seen, SampleOf(tick), j, quiet);
    }
    assert tracked.seen[n] == SampleOf(tick);
    if tracked.lastRise.Some? && !RisesAt(cfg, tracked.seen, n, quiet) {
      var j: nat :| j < n && RisesAt(cfg, gate.seen, j, quiet) && gate.seen[j].t == gate.lastRise.value;
      assert RisesAt(cfg, tracked.seen, j, quiet) && tracked.seen[j].t == tracked.lastRise.value;
    }
  }

  lemma BelowKeeps(cfg: Config, gate: Gate, tick: Tick)
    requires gate.active && BelowExactly(cfg, gate) && !AwaitsExit(gate, tick)
    requires !gate.evicted ==> gate.belowSince.None?
    ensures BelowExactly(cfg, Drained(cfg, gate, tick))
  {
    var drained, n := Drained(cfg, gate, tick), |gate.seen|;
    assert drained.seen == gate.seen + [SampleOf(tick)];
    if gate.evicted && IsBelow(cfg, tick) {
      if gate.belowSince.Some? {
        var i: nat :| i < n && gate.seen[i].t == gate.belowSince.value && AllBelow(cfg, gate.seen, i);
        assert drained.seen[i] == gate.seen[i] && AllBelow(cfg, drained.seen, i);
      } else {
        assert drained.seen[n].t == tick.ts && AllBelow(cfg, drained.seen, n);
      }
    }
  }

  /** The safety of the gate, in every run: when it opens, the killed model's files were evicted at
      sample e, the eviction that follows the last trip (or nothing has tripped since a restart with a hold
      in force); from some sample i >= e on, at least drainSettle ago, every sample was below the drain
      level; and every rise since e, measured against the true minimum of its trailing quiet window, is at
      least one full quiet window old. */
  lemma {:induction false} GateOpensSafely(cfg: Config, start: Core, ticks: seq<Tick>, tick: Tick)
    returns (e: nat, i: nat)
    requires Loaded(cfg) && IsStart(cfg, start) && WellTimed(ticks + [tick])
    requires Opens(cfg, Run(cfg, start, ticks), tick)
    ensures var all := ticks + [tick];
            var xs := Samples(all);
            var quiet := QuietWindow(cfg, Run(cfg, start, ticks).gate.backoff);
            && cfg.drainBelow > 0 && e <= i < |all|
            && EvictionAt(cfg, start, ticks, e) && NoTripFrom(cfg, start, ticks, e)
            && tick.ts - xs[i].t >= DRAIN_SETTLE && AllBelow(cfg, xs, i)
            && forall j: nat :: j < |all| - e && RisesAt(cfg, xs[e..], j, quiet) ==> tick.ts - xs[e + j].t >= quiet
  {
    hide Run, WellTimed, Drained, RisesAt, QuietWindow, Samples, BelowExactly, RisesExactly, AwaitsExit, TripsAt,
      AwaitsAt, EvictionAt, NoTripFrom, IsStart;
    var gate := Run(cfg, start, ticks).gate;
    PrefixTimed(ticks, tick);
    GateInvInRuns(cfg, start, ticks);
    KillInRuns(cfg, start, ticks);
    OpensDrained(cfg, gate, tick);
    e := |ticks| - |gate.seen|;
    DrainedInvariant(cfg, ticks, tick, gate);
    var k := OpensAfterQuiet(cfg, gate, tick);
    NoTripSinceEviction(cfg, start, ticks, e);
    i := e + k;
    var xs := Samples(ticks + [tick]);
    assert forall j :: i <= j < |xs| ==> xs[j] == xs[e..][j - e];
  }

  lemma NoTripSinceEviction(cfg: Config, start: Core, ticks: seq<Tick>, e: nat)
    requires EvictionAt(cfg, start, ticks, e)
    ensures NoTripFrom(cfg, start, ticks, e)
  {
    hide TripsAt, AwaitsAt;
  }

  lemma OpensDrained(cfg: Config, gate: Gate, tick: Tick)
    requires gate.holding && !Drained(cfg, gate, tick).holding
    ensures gate.active && !AwaitsExit(gate, tick)
  {
  }

  /** What a single opening says about the samples since the eviction. */
  lemma OpensAfterQuiet(cfg: Config, gate: Gate, tick: Tick) returns (k: nat)
    requires gate.active && gate.holding && !Drained(cfg, gate, tick).holding && cfg.drainBelow > 0
    requires RisesExactly(cfg, Drained(cfg, gate, tick)) && BelowExactly(cfg, Drained(cfg, gate, tick))
    ensures var seen := Drained(cfg, gate, tick).seen;
            && gate.evicted && k < |seen| && tick.ts - seen[k].t >= DRAIN_SETTLE && AllBelow(cfg, seen, k)
            && forall j: nat :: j < |seen| && RisesAt(cfg, seen, j, QuietWindow(cfg, gate.backoff)) ==>
                 tick.ts - seen[j].t >= QuietWindow(cfg, gate.backoff)
  {
    hide RisesAt, QuietWindow;
    var drained := Drained(cfg, gate, tick);
    assert gate.evicted && IsBelow(cfg, tick);
    k :| k < |drained.seen| && drained.seen[k].t == drained.belowSince.value && AllBelow(cfg, drained.seen, k);
  }

  lemma PrefixTimed(ticks: seq<Tick>, tick: Tick)
    requires WellTimed(ticks + [tick])
    ensures WellTimed(ticks)
  {
    forall i | 0 <= i < |ticks|
      ensures (ticks + [tick])[i] == ticks[i]
    {
    }
  }

  // ---- when the gate opens ----

  ghost predicate OpensAt(cfg: Config, start: Core, ticks: seq<Tick>, i: nat)
    requires i < |ticks|
  {
    Opens(cfg, Before(cfg, start, ticks, i), ticks[i])
  }

  /** The gate has not opened since sample i. */
  ghost predicate ShutFrom(cfg: Config, start: Core, ticks: seq<Tick>, i: nat) {
    forall j :: i <= j < |ticks| ==> !OpensAt(cfg, start, ticks, j)
  }

  /** Loads are parked: a trip, or a hold restored at the start, after which the gate has not opened. */
  ghost predicate HeldIn(cfg: Config, start: Core, ticks: seq<Tick>) {
    || (start.gate.holding && ShutFrom(cfg, start, ticks, 0))
    || (cfg.drainBelow > 0 &&
        exists t: nat :: t < |ticks| && TripsAt(cfg, start, ticks, t) && ShutFrom(cfg, start, ticks, t + 1))
  }

  lemma {:induction false} HoldingMeans(cfg: Config, start: Core, ticks: seq<Tick>)
    ensures Run(cfg, start, ticks).gate.holding <==> HeldIn(cfg, start, ticks)
  {
    if ticks != [] {
      var front, tick := ticks[..|ticks| - 1], ticks[|ticks| - 1];
      assert ticks == front + [tick];
      HoldingMeans(cfg, start, front);
      AtLast(cfg, start, front, tick);
      OpensLast(cfg, start, front, tick);
      RunSnoc(cfg, start, front, tick);
      var core := Run(cfg, start, front);
      HoldingStep(cfg, core, tick);
      hide Run, Trips, TripsAt, Opens, OpensAt, HeldIn, Step;
      HeldNext(cfg, start, front, tick, Opens(cfg, core, tick), Trips(cfg, core.det, core.probe, tick));
    }
  }

  lemma OpensLast(cfg: Config, start: Core, ticks: seq<Tick>, tick: Tick)
    ensures OpensAt(cfg, start, ticks + [tick], |ticks|) == Opens(cfg, Run(cfg, start, ticks), tick)
  {
    BeforeSnoc(cfg, start, ticks, tick, |ticks|);
    hide Opens, Run;
  }

  lemma HoldingStep(cfg: Config, core: Core, tick: Tick)
    ensures Step(cfg, core, tick).gate.holding <==>
              || (core.gate.holding && !Opens(cfg, core, tick))
              || (Trips(cfg, core.det, core.probe, tick) && cfg.drainBelow > 0)
  {
    NeverSets(cfg, core.gate, tick);
    hide Trips, Drained;
  }

  /** drain never parks loads. */
  lemma NeverSets(cfg: Config, gate: Gate, tick: Tick)
    ensures Drained(cfg, gate, tick).holding ==> gate.holding
  {
    hide RisesAt, QuietWindow;
  }

  lemma HeldNext(cfg: Config, start: Core, ticks: seq<Tick>, tick: Tick, opens: bool, trips: bool)
    requires OpensAt(cfg, start, ticks + [tick], |ticks|) == opens
    requires TripsAt(cfg, start, ticks + [tick], |ticks|) == trips
    ensures HeldIn(cfg, start, ticks + [tick]) <==>
              (HeldIn(cfg, start, ticks) && !opens) || (trips && cfg.drainBelow > 0)
  {
    var all := ticks + [tick];
    forall j: nat | j < |ticks|
      ensures OpensAt(cfg, start, all, j) == OpensAt(cfg, start, ticks, j)
      ensures TripsAt(cfg, start, all, j) == TripsAt(cfg, start, ticks, j)
    {
      hide Opens, Run;
      BeforeSnoc(cfg, start, ticks, tick, j);
      AtSnoc(cfg, start, ticks, tick, j);
      assert all[j] == ticks[j];
    }
    hide OpensAt, TripsAt;
    if trips && cfg.drainBelow > 0 {
      assert ShutFrom(cfg, start, all, |ticks| + 1);
    }
    assert forall i: nat :: i <= |ticks| ==>
        (ShutFrom(cfg, start, all, i) <==> ShutFrom(cfg, start, ticks, i) && !opens);
  }

  /** The quiet window the run asks for. */
  ghost function QuietIn(cfg: Config, start: Core, ticks: seq<Tick>): int {
    var w := cfg.window * Pow2(Escalations(cfg, start, ticks));
    if w > MAX_QUIET_WINDOW then MAX_QUIET_WINDOW else w
  }

  /** Sample j stands at least growthGB above the minimum, since the eviction e, of its trailing quiet window. */
  ghost predicate RoseAt(cfg: Config, xs: seq<Sample>, e: nat, j: nat, quiet: int)
    requires e <= j < |xs|
  {
    StandsAbove(xs[e..j + 1], xs[j].t, quiet, xs[j].v - cfg.threshold)
  }

  /** The minimum of the window is v or less. */
  ghost predicate StandsAbove(hist: seq<Sample>, now: int, win: int, v: int) {
    exists low: int :: IsWindowMin(low, hist, now, win) && low <= v
  }

  lemma RoseMeans(cfg: Config, xs: seq<Sample>, e: nat, j: nat, quiet: int)
    requires e <= j < |xs| && quiet >= 0
    ensures RisesAt(cfg, xs[e..], j - e, quiet) <==> RoseAt(cfg, xs, e, j, quiet)
  {
    var part := xs[e..j + 1];
    assert xs[e..][..j - e + 1] == part && part[|part| - 1] == xs[j];
    WindowMinIsMin(part, quiet);
    hide IsWindowMin;
    forall low: int | IsWindowMin(low, part, xs[j].t, quiet)
      ensures low == WindowMin(part, quiet)
    {
      OneMinimum(low, WindowMin(part, quiet), part, xs[j].t, quiet);
    }
  }

  /** The first sample whose level counts towards the drain: the one after the eviction, or the very first
      one of a run that restored a hold and has not tripped. */
  ghost function FirstCounted(cfg: Config, start: Core, ticks: seq<Tick>): (first: nat)
    ensures first <= 1
  {
    if NoTripFrom(cfg, start, ticks, 0) then 0 else 1
  }

  /** The level has been below since sample i, for DRAIN_SETTLE; and every rise since the eviction e is a
      full quiet window old. */
  ghost predicate IsDrained(cfg: Config, xs: seq<Sample>, e: nat, i: nat, quiet: int)
    requires e <= i < |xs|
  {
    var now := xs[|xs| - 1].t;
    && now - xs[i].t >= DRAIN_SETTLE && (forall j :: i <= j < |xs| ==> xs[j].v < cfg.drainBelow)
    && forall j: nat :: e <= j < |xs| && RoseAt(cfg, xs, e, j, quiet) ==> now - xs[j].t >= quiet
  }

  /** The killed model's files were evicted at sample e, and the memory has drained and is quiet since. */
  ghost predicate MayOpen(cfg: Config, start: Core, ticks: seq<Tick>, tick: Tick) {
    var xs, first := Samples(ticks + [tick]), FirstCounted(cfg, start, ticks);
    exists e: nat, i: nat ::
      && EvictionAt(cfg, start, ticks, e) && e + first <= i < |xs|
      && IsDrained(cfg, xs, e, i, QuietIn(cfg, start, ticks))
  }

  /** The gate exactly: in every run it opens at a sample if and only if loads are parked and, since the
      eviction that followed the last trip, the level has been below the drain level for DRAIN_SETTLE and
      every rise is at least one full quiet window old. */
  lemma {:induction false} GateOpensExactly(cfg: Config, start: Core, ticks: seq<Tick>, tick: Tick)
    requires Loaded(cfg) && IsStart(cfg, start) && WellTimed(ticks + [tick])
    ensures Opens(cfg, Run(cfg, start, ticks), tick) <==> HeldIn(cfg, start, ticks) && MayOpen(cfg, start, ticks, tick)
  {
    var gate := Run(cfg, start, ticks).gate;
    HoldingMeans(cfg, start, ticks);
    if gate.holding {
      PrefixTimed(ticks, tick);
      GateInvInRuns(cfg, start, ticks);
      KillInRuns(cfg, start, ticks);
      BelowInRuns(cfg, start, ticks);
      QuietInMeans(cfg, start, ticks);
      hide Run, WellTimed, RisesAt, QuietWindow, Samples, BelowExactly, RisesExactly, EvictionAt, IsStart, IsDrained,
        QuietIn, HeldIn, BelowMeans, FirstCounted, LastTripAt;
      if gate.evicted {
        OpensFromEviction(cfg, start, ticks, tick, gate);
      } else {
        NotEvictedYet(cfg, start, ticks, gate);
      }
    }
  }

  lemma QuietInMeans(cfg: Config, start: Core, ticks: seq<Tick>)
    requires Loaded(cfg) && IsStart(cfg, start)
    ensures QuietIn(cfg, start, ticks) == QuietWindow(cfg, Run(cfg, start, ticks).gate.backoff)
  {
    QuietWindowEscalates(cfg, start, ticks);
  }

  /** While the killed groups are waited for, nothing has been evicted. */
  lemma NotEvictedYet(cfg: Config, start: Core, ticks: seq<Tick>, gate: Gate)
    requires KillInv(cfg, start, ticks, gate) && gate.active && !gate.evicted
    ensures forall e: nat :: !EvictionAt(cfg, start, ticks, e)
    ensures !NoTripFrom(cfg, start, ticks, 0)
  {
    hide TripsAt, AwaitsAt;
  }

  lemma EvictedOnce(cfg: Config, start: Core, ticks: seq<Tick>, e: nat, f: nat)
    requires EvictionAt(cfg, start, ticks, e) && EvictionAt(cfg, start, ticks, f)
    ensures e == f
  {
    hide TripsAt, AwaitsAt;
  }

  /** The drain part of a sample of a gate that has been evicted, against the samples since. */
  lemma OpensFromEviction(cfg: Config, start: Core, ticks: seq<Tick>, tick: Tick, gate: Gate)
    requires WellTimed(ticks + [tick]) && GateInv(cfg, ticks, gate) && KillInv(cfg, start, ticks, gate)
    requires gate.active && gate.holding && gate.evicted && BelowMeans(cfg, gate, FirstCounted(cfg, start, ticks))
    requires QuietIn(cfg, start, ticks) == QuietWindow(cfg, gate.backoff)
    ensures !Drained(cfg, gate, tick).holding <==> MayOpen(cfg, start, ticks, tick)
  {
    hide WellTimed, RisesAt, QuietWindow, Samples, BelowExactly, RisesExactly, EvictionAt, BelowMeans, FirstCounted,
      Drained, DrainedSince, KillInv, MayOpen, AwaitsExit, QuietIn;
    var e, first, quiet := |ticks| - |gate.seen|, FirstCounted(cfg, start, ticks), QuietIn(cfg, start, ticks);
    AwaitsNothing(gate, tick);
    EvictedCounts(cfg, start, ticks, gate);
    MayOpenMeans(cfg, start, ticks, tick, e);
    DrainedInvariant(cfg, ticks, tick, gate);
    SeenIsTimed(gate.seen, ticks, tick);
    SamplesSnoc(ticks, tick, gate.seen);
    BelowNext(cfg, gate, tick, first);
    OpensValue(cfg, gate, tick, first);
  }

  lemma AwaitsNothing(gate: Gate, tick: Tick)
    requires gate.evicted
    ensures !AwaitsExit(gate, tick)
  {
  }

  lemma EvictedCounts(cfg: Config, start: Core, ticks: seq<Tick>, gate: Gate)
    requires KillInv(cfg, start, ticks, gate) && gate.active && gate.evicted
    ensures |gate.seen| <= |ticks| && EvictionAt(cfg, start, ticks, |ticks| - |gate.seen|)
    ensures FirstCounted(cfg, start, ticks) <= |gate.seen|
  {
    hide AwaitsAt, TripsAt;
  }

  lemma MayOpenMeans(cfg: Config, start: Core, ticks: seq<Tick>, tick: Tick, e: nat)
    requires EvictionAt(cfg, start, ticks, e) && e <= |ticks| && cfg.drainBelow > 0 && QuietIn(cfg, start, ticks) >= 0
    ensures var seen := Samples(ticks + [tick])[e..];
            MayOpen(cfg, start, ticks, tick) <==>
              exists k: nat :: FirstCounted(cfg, start, ticks) <= k < |seen|
                  && DrainedSince(cfg, seen, k, QuietIn(cfg, start, ticks))
  {
    var xs, first, quiet := Samples(ticks + [tick]), FirstCounted(cfg, start, ticks), QuietIn(cfg, start, ticks);
    forall f: nat | EvictionAt(cfg, start, ticks, f)
      ensures f == e
    {
      EvictedOnce(cfg, start, ticks, e, f);
    }
    forall k: nat | k < |xs| - e
      ensures DrainedSince(cfg, xs[e..], k, quiet) <==> IsDrained(cfg, xs, e, e + k, quiet)
    {
      SameDrained(cfg, xs, e, k, quiet);
    }
    hide EvictionAt, FirstCounted, QuietIn, DrainedSince, IsDrained;
    if MayOpen(cfg, start, ticks, tick) {
      var f: nat, i: nat :|
        EvictionAt(cfg, start, ticks, f) && f + first <= i < |xs| && IsDrained(cfg, xs, f, i, quiet);
      assert DrainedSince(cfg, xs[e..], i - e, quiet);
    }
    forall k: nat | first <= k < |xs| - e && DrainedSince(cfg, xs[e..], k, quiet)
      ensures MayOpen(cfg, start, ticks, tick)
    {
      assert IsDrained(cfg, xs, e, e + k, quiet);
    }
  }

  /** The same for the samples since the eviction by themselves. */
  ghost predicate DrainedSince(cfg: Config, seen: seq<Sample>, k: nat, quiet: int)
    requires k < |seen|
  {
    var now := seen[|seen| - 1].t;
    && now - seen[k].t >= DRAIN_SETTLE && AllBelow(cfg, seen, k)
    && forall j: nat :: j < |seen| && RisesAt(cfg, seen, j, quiet) ==> now - seen[j].t >= quiet
  }

  lemma SameDrained(cfg: Config, xs: seq<Sample>, e: nat, k: nat, quiet: int)
    requires cfg.drainBelow > 0 && e + k < |xs| && quiet >= 0
    ensures DrainedSince(cfg, xs[e..], k, quiet) <==> IsDrained(cfg, xs, e, e + k, quiet)
  {
    var seen := xs[e..];
    forall j: nat | j < |seen|
      ensures seen[j] == xs[e + j]
      ensures RisesAt(cfg, seen, j, quiet) <==> RoseAt(cfg, xs, e, e + j, quiet)
    {
      RoseMeans(cfg, xs, e, e + j, quiet);
    }
    hide RisesAt, RoseAt;
    assert seen[|seen| - 1] == xs[|xs| - 1];
    assert forall j :: e + k <= j < |xs| ==> xs[j] == seen[j - e];
    if DrainedSince(cfg, seen, k, quiet) {
      forall j: nat | e <= j < |xs| && RoseAt(cfg, xs, e, j, quiet)
        ensures xs[|xs| - 1].t - xs[j].t >= quiet
      {
        assert RisesAt(cfg, seen, j - e, quiet);
      }
    }
  }

  /** What belowSince means: the level has been below since then, and no longer. */
  ghost predicate BelowMeans(cfg: Config, gate: Gate, first: nat) {
    && (gate.belowSince.Some? ==>
          exists i: nat :: first <= i < |gate.seen| && gate.seen[i].t == gate.belowSince.value
              && AllBelow(cfg, gate.seen, i))
    && (forall i: nat :: first <= i < |gate.seen| && AllBelow(cfg, gate.seen, i) ==>
          gate.belowSince.Some? && gate.belowSince.value <= gate.seen[i].t)
  }

  lemma {:induction false} BelowInRuns(cfg: Config, start: Core, ticks: seq<Tick>)
    requires Loaded(cfg) && IsStart(cfg, start) && WellTimed(ticks)
    ensures Run(cfg, start, ticks).gate.active ==>
              BelowMeans(cfg, Run(cfg, start, ticks).gate, FirstCounted(cfg, start, ticks))
  {
    if ticks != [] {
      var front, tick := ticks[..|ticks| - 1], ticks[|ticks| - 1];
      assert ticks == front + [tick];
      PrefixTimed(front, tick);
      BelowInRuns(cfg, start, front);
      GateInvInRuns(cfg, start, front);
      KillInRuns(cfg, start, front);
      AtLast(cfg, start, front, tick);
      RunSnoc(cfg, start, front, tick);
      var core := Run(cfg, start, front);
      hide Run, IsStart, WellTimed, Trips, BelowMeans, Drained, BelowExactly, RisesExactly, EvictionAt, Samples;
      if Trips(cfg, core.det, core.probe, tick) {
        FreshBelow(cfg, Drained(cfg, core.gate, tick), tick, FirstCounted(cfg, start, ticks));
      } else {
        SameFirst(cfg, start, front, tick);
        BelowStep(cfg, start, front, tick, core.gate);
      }
    }
  }

  lemma FreshBelow(cfg: Config, gate: Gate, tick: Tick, first: nat)
    ensures BelowMeans(cfg, Trip(cfg, gate, tick), first)
  {
  }

  lemma SameFirst(cfg: Config, start: Core, ticks: seq<Tick>, tick: Tick)
    requires !TripsAt(cfg, start, ticks + [tick], |ticks|)
    ensures FirstCounted(cfg, start, ticks + [tick]) == FirstCounted(cfg, start, ticks)
  {
    forall j: nat | j < |ticks|
      ensures TripsAt(cfg, start, ticks + [tick], j) == TripsAt(cfg, start, ticks, j)
    {
      AtSnoc(cfg, start, ticks, tick, j);
    }
    hide TripsAt;
  }

  lemma BelowStep(cfg: Config, start: Core, ticks: seq<Tick>, tick: Tick, gate: Gate)
    requires WellTimed(ticks + [tick]) && GateInv(cfg, ticks, gate) && KillInv(cfg, start, ticks, gate)
    requires gate.active ==> BelowMeans(cfg, gate, FirstCounted(cfg, start, ticks))
    ensures Drained(cfg, gate, tick).active ==>
              BelowMeans(cfg, Drained(cfg, gate, tick), FirstCounted(cfg, start, ticks))
  {
    hide BelowMeans, Drained, BelowExactly, RisesExactly, EvictionAt, FirstCounted, WellTimed, Samples, KillInv;
    if gate.active {
      SeenIsTimed(gate.seen, ticks, tick);
      if !gate.evicted {
        NotEvictedYet(cfg, start, ticks, gate);
        CountedAfter(cfg, start, ticks);
      } else {
        EvictedCounts(cfg, start, ticks, gate);
      }
      BelowNext(cfg, gate, tick, FirstCounted(cfg, start, ticks));
    } else {
      InactiveStays(cfg, gate, tick);
    }
  }

  lemma CountedAfter(cfg: Config, start: Core, ticks: seq<Tick>)
    requires !NoTripFrom(cfg, start, ticks, 0)
    ensures FirstCounted(cfg, start, ticks) == 1
  {
  }

  lemma BelowNext(cfg: Config, gate: Gate, tick: Tick, first: nat)
    requires gate.active && BelowMeans(cfg, gate, first) && first <= 1 && (gate.evicted ==> first <= |gate.seen|)
    requires forall j :: 0 <= j < |gate.seen| ==> gate.seen[j].t <= tick.ts
    requires !gate.evicted ==> gate.seen == [] && gate.belowSince.None? && first == 1
    ensures BelowMeans(cfg, Drained(cfg, gate, tick), first)
  {
    if !AwaitsExit(gate, tick) {
      var drained, n := Drained(cfg, gate, tick), |gate.seen|;
      DrainedBelow(cfg, gate, tick);
      hide Drained;
      assert drained.seen[n] == SampleOf(tick);
      forall i: nat | i <= n
        ensures AllBelow(cfg, drained.seen, i) <==> IsBelow(cfg, tick) && AllBelow(cfg, gate.seen, i)
      {
        assert AllBelow(cfg, drained.seen, i) ==> IsBelow(cfg, tick);
        assert forall j :: i <= j < n ==> drained.seen[j] == gate.seen[j];
      }
      hide AllBelow;
      if drained.belowSince.Some? && gate.belowSince.Some? {
        var i: nat :| first <= i < n && gate.seen[i].t == gate.belowSince.value && AllBelow(cfg, gate.seen, i);
        assert drained.seen[i] == gate.seen[i] && AllBelow(cfg, drained.seen, i);
      } else if drained.belowSince.Some? {
        EndIsBelow(cfg, gate.seen);
        assert AllBelow(cfg, drained.seen, n);
      }
    }
  }

  lemma EndIsBelow(cfg: Config, seen: seq<Sample>)
    ensures AllBelow(cfg, seen, |seen|)
  {
  }

  lemma DrainedBelow(cfg: Config, gate: Gate, tick: Tick)
    requires gate.active && !AwaitsExit(gate, tick)
    ensures Drained(cfg, gate, tick).seen == gate.seen + [SampleOf(tick)]
    ensures Drained(cfg, gate, tick).belowSince ==
              if !gate.evicted then gate.belowSince
              else if IsBelow(cfg, tick) then Some(BelowSince(gate, tick)) else None
  {
    hide RisesAt, QuietWindow;
  }

  /** One sample opens an evicted gate exactly when the samples since the eviction say so. */
  lemma OpensValue(cfg: Config, gate: Gate, tick: Tick, first: nat)
    requires gate.active && gate.holding && gate.evicted && cfg.drainBelow > 0
    requires BelowMeans(cfg, Drained(cfg, gate, tick), first) && RisesExactly(cfg, Drained(cfg, gate, tick))
    requires Drained(cfg, gate, tick).seen == gate.seen + [SampleOf(tick)]
    ensures !Drained(cfg, gate, tick).holding <==>
              exists k: nat :: first <= k <= |gate.seen|
                  && DrainedSince(cfg, gate.seen + [SampleOf(tick)], k, QuietWindow(cfg, gate.backoff))
  {
    var drained, quiet := Drained(cfg, gate, tick), QuietWindow(cfg, gate.backoff);
    var seen := drained.seen;
    OpensWhen(cfg, gate, tick);
    hide RisesAt, QuietWindow, Drained;
    if !drained.holding {
      var k: nat :| first <= k < |seen| && seen[k].t == drained.belowSince.value && AllBelow(cfg, seen, k);
      assert DrainedSince(cfg, seen, k, quiet);
    }
    forall k: nat | first <= k < |seen| && DrainedSince(cfg, seen, k, quiet)
      ensures !drained.holding
    {
      assert seen[|seen| - 1] == SampleOf(tick);
    }
  }

  lemma OpensWhen(cfg: Config, gate: Gate, tick: Tick)
    requires gate.active && gate.holding && gate.evicted && cfg.drainBelow > 0
    ensures var drained := Drained(cfg, gate, tick);
            && drained.backoff == gate.backoff
            && (!drained.holding <==>
                  && tick.m < cfg.drainBelow && drained.belowSince.Some?
                  && tick.ts - drained.belowSince.value >= DRAIN_SETTLE
                  && (drained.lastRise.Some? ==>
                        tick.ts - drained.lastRise.value >= QuietWindow(cfg, gate.backoff)))
  {
    hide RisesAt, QuietWindow;
  }

  // ---- the purge valve ----

  /** A sample; or the purge goroutine: its purge has returned, its flag is cleared, or it reports a purge
      that does not return. */
  datatype PurgeEvent = Ticked(tick: Tick) | Returned | Cleared | ReportedStuck(at: int)

  /** A run of the valve: the machine, its flags, and how many purges are running, and how many goroutines
      have seen theirs return and not cleared the flag yet; and when the brake tripped. */
  datatype Valve = Valve(core: Core, purge: Purge, inFlight: nat, ending: nat, trips: seq<int>)

  ghost function ValveStep(cfg: Config, v: Valve, event: PurgeEvent): Valve {
    match event
    case Ticked(tick) =>
      var purge := NextPurge(cfg, v.core, v.purge, tick);
      // every launch is one more purge, whatever the flags say
      Valve(Step(cfg, v.core, tick), purge, v.inFlight + Launched(v.purge, purge), v.ending,
            if Trips(cfg, v.core.det, v.core.probe, tick) then v.trips + [tick.ts] else v.trips)
    case Returned => if v.inFlight > 0 then v.(inFlight := v.inFlight - 1, ending := v.ending + 1) else v
    case Cleared =>
      if v.ending > 0 then v.(ending := v.ending - 1, purge := v.purge.(running := false)) else v
    case ReportedStuck(at) => v.(purge := v.purge.(lastStuck := at))
  }

  function Launched(before: Purge, after: Purge): nat {
    if |after.launches| > |before.launches| then |after.launches| - |before.launches| else 0
  }

  ghost function ValveRun(cfg: Config, start: Valve, events: seq<PurgeEvent>): Valve {
    if events == [] then start
    else ValveStep(cfg, ValveRun(cfg, start, events[..|events| - 1]), events[|events| - 1])
  }

  /** Samples are not earlier than `from`, and in order. */
  ghost predicate TicksFrom(events: seq<PurgeEvent>, from: int) {
    && (forall i :: 0 <= i < |events| && events[i].Ticked? ==> events[i].tick.ts >= from)
    && (forall i, j :: 0 <= i < j < |events| && events[i].Ticked? && events[j].Ticked? ==>
          events[i].tick.ts <= events[j].tick.ts)
  }

  /** Launches are at least the configured interval apart. */
  ghost predicate SpacedStarts(cfg: Config, starts: seq<int>) {
    forall i, j :: 0 <= i < j < |starts| ==> starts[j] - starts[i] >= cfg.purgeAfter
  }

  /** In every run at most one purge is running, none is launched before the last one has returned and its
      goroutine has cleared the flag, and any two launches are at least purgeAfterMinutes apart. */
  lemma {:induction false} PurgeIsSingleFlight(cfg: Config, start: Valve, events: seq<PurgeEvent>, now: int)
    requires start.purge.launches == [] && start.inFlight == start.ending == 0 && !start.purge.running
    requires TicksFrom(events, start.purge.lastAttempt) && now >= start.purge.lastAttempt
    requires forall i :: 0 <= i < |events| && events[i].Ticked? ==> events[i].tick.ts <= now
    ensures var v := ValveRun(cfg, start, events);
            && v.inFlight + v.ending == (if v.purge.running then 1 else 0)
            && SpacedStarts(cfg, v.purge.launches)
            && v.purge.lastAttempt <= now
            && forall i :: 0 <= i < |v.purge.launches| ==> v.purge.launches[i] <= v.purge.lastAttempt
  {
    if events != [] {
      var front, event := events[..|events| - 1], events[|events| - 1];
      assert forall i :: 0 <= i < |front| ==> front[i] == events[i];
      if event.Ticked? {
        PurgeIsSingleFlight(cfg, start, front, event.tick.ts);
        PurgeNext(cfg, ValveRun(cfg, start, front), event.tick);
      } else {
        PurgeIsSingleFlight(cfg, start, front, now);
      }
    }
  }

  /** A sample launches a purge only when none is running, and then one. */
  lemma PurgeNext(cfg: Config, v: Valve, tick: Tick)
    requires SpacedStarts(cfg, v.purge.launches) && v.purge.lastAttempt <= tick.ts
    requires forall i :: 0 <= i < |v.purge.launches| ==> v.purge.launches[i] <= v.purge.lastAttempt
    ensures var next := NextPurge(cfg, v.core, v.purge, tick);
            && SpacedStarts(cfg, next.launches) && next.lastAttempt <= tick.ts
            && (forall i :: 0 <= i < |next.launches| ==> next.launches[i] <= next.lastAttempt)
            && Launched(v.purge, next) == (if next.running && !v.purge.running then 1 else 0)
            && (v.purge.running ==> next.running && next.launches == v.purge.launches)
  {
    hide Trips;
  }

  ghost predicate AllOld(times: seq<int>, now: int, d: int) {
    forall i :: 0 <= i < |times| ==> now - times[i] >= d
  }

  /** The clock of the purges: no launch and no trip is later, and it is one of them or the start. */
  ghost predicate AttemptMeans(v: Valve, since: int) {
    && since <= v.purge.lastAttempt
    && (forall i :: 0 <= i < |v.purge.launches| ==> v.purge.launches[i] <= v.purge.lastAttempt)
    && (forall i :: 0 <= i < |v.trips| ==> v.trips[i] <= v.purge.lastAttempt)
    && (v.purge.lastAttempt == since || v.purge.lastAttempt in v.purge.launches || v.purge.lastAttempt in v.trips)
  }

  lemma {:induction false} AttemptInRuns(cfg: Config, start: Valve, events: seq<PurgeEvent>)
    requires start.purge.launches == [] && start.trips == [] && TicksFrom(events, start.purge.lastAttempt)
    ensures var v := ValveRun(cfg, start, events);
            && AttemptMeans(v, start.purge.lastAttempt)
            && (v.purge.lastAttempt == start.purge.lastAttempt ||
                exists i :: 0 <= i < |events| && events[i].Ticked? && events[i].tick.ts == v.purge.lastAttempt)
  {
    if events != [] {
      var front, event := events[..|events| - 1], events[|events| - 1];
      assert forall i :: 0 <= i < |front| ==> front[i] == events[i];
      AttemptInRuns(cfg, start, front);
      var v := ValveRun(cfg, start, front);
      hide AttemptMeans, ValveRun;
      if event.Ticked? {
        AttemptNext(cfg, v, event.tick, start.purge.lastAttempt);
      } else {
        SameAttempt(cfg, v, event, start.purge.lastAttempt);
      }
      assert ValveRun(cfg, start, events) == ValveStep(cfg, v, event) by { RunsOn(cfg, start, events); }
    }
  }

  lemma RunsOn(cfg: Config, start: Valve, events: seq<PurgeEvent>)
    requires events != []
    ensures ValveRun(cfg, start, events) ==
              ValveStep(cfg, ValveRun(cfg, start, events[..|events| - 1]), events[|events| - 1])
  {
  }

  lemma SameAttempt(cfg: Config, v: Valve, event: PurgeEvent, since: int)
    requires AttemptMeans(v, since) && !event.Ticked?
    ensures AttemptMeans(ValveStep(cfg, v, event), since)
    ensures ValveStep(cfg, v, event).purge.lastAttempt == v.purge.lastAttempt
  {
  }

  lemma AttemptNext(cfg: Config, v: Valve, tick: Tick, since: int)
    requires AttemptMeans(v, since) && v.purge.lastAttempt <= tick.ts
    ensures AttemptMeans(ValveStep(cfg, v, Ticked(tick)), since)
    ensures ValveStep(cfg, v, Ticked(tick)).purge.lastAttempt in {v.purge.lastAttempt, tick.ts}
  {
    var w := ValveStep(cfg, v, Ticked(tick));
    hide Trips, ReachesPurge, Step;
    if w.purge.lastAttempt == v.purge.lastAttempt && v.purge.lastAttempt in v.purge.launches {
      assert v.purge.lastAttempt in w.purge.launches;
    }
    if |w.trips| > |v.trips| {
      assert w.trips[|v.trips|] == tick.ts;
    } else if |w.purge.launches| > |v.purge.launches| {
      assert w.purge.launches[|v.purge.launches|] == tick.ts;
    }
  }

  /** The next purge is due: the valve is on, and the gate has been shut, evicted and above the drain level;
      the start, every trip, every launch and the last report of a stuck one are an interval old. */
  ghost predicate NextIsDue(cfg: Config, v: Valve, tick: Tick, since: int) {
    && cfg.purgeAfter > 0
    && v.core.gate.active && v.core.gate.evicted && cfg.drainBelow != 0 && tick.m >= cfg.drainBelow
    && tick.ts - since >= cfg.purgeAfter
    && AllOld(v.trips, tick.ts, cfg.purgeAfter) && AllOld(v.purge.launches, tick.ts, cfg.purgeAfter)
    && tick.ts - v.purge.lastStuck >= cfg.purgeAfter
  }

  /** The valve exactly: in every run a sample launches a purge, one, if and only if one is due and none is
      in flight; when one is due and one is still in flight it reports that instead. */
  lemma {:induction false} PurgeLaunchesExactly(cfg: Config, start: Valve, events: seq<PurgeEvent>, tick: Tick)
    requires start.purge.launches == [] && start.inFlight == start.ending == 0 && !start.purge.running
    requires start.trips == [] && TicksFrom(events + [Ticked(tick)], start.purge.lastAttempt)
    ensures var v := ValveRun(cfg, start, events); var w := ValveStep(cfg, v, Ticked(tick));
            var due := NextIsDue(cfg, v, tick, start.purge.lastAttempt);
            && w.purge.launches ==
                 (if due && v.inFlight + v.ending == 0 then v.purge.launches + [tick.ts] else v.purge.launches)
            && (|w.trips| == |v.trips| ==>
                  w.purge.lastStuck == if due && v.inFlight + v.ending > 0 then tick.ts else v.purge.lastStuck)
  {
    var all, v := events + [Ticked(tick)], ValveRun(cfg, start, events);
    assert all[|events|] == Ticked(tick) && forall i :: 0 <= i < |events| ==> all[i] == events[i];
    assert TicksFrom(events, start.purge.lastAttempt);
    PurgeIsSingleFlight(cfg, start, events, tick.ts);
    AttemptInRuns(cfg, start, events);
    hide ValveRun, TicksFrom, SpacedStarts;
    DueMeans(cfg, v, tick, start.purge.lastAttempt);
    LaunchesOnce(cfg, v, tick);
  }

  lemma DueMeans(cfg: Config, v: Valve, tick: Tick, since: int)
    requires AttemptMeans(v, since)
    ensures NextIsDue(cfg, v, tick, since) <==>
              ReachesPurge(cfg, v.core.gate, tick) && PurgeDue(cfg, v.purge, tick.ts)
  {
  }

  lemma LaunchesOnce(cfg: Config, v: Valve, tick: Tick)
    ensures var w := ValveStep(cfg, v, Ticked(tick));
            var due := ReachesPurge(cfg, v.core.gate, tick) && PurgeDue(cfg, v.purge, tick.ts);
            && w.purge.launches ==
                 (if due && !v.purge.running then v.purge.launches + [tick.ts] else v.purge.launches)
            && (|w.trips| == |v.trips| ==>
                  w.purge.lastStuck == if due && v.purge.running then tick.ts else v.purge.lastStuck)
  {
    hide Trips, ReachesPurge, PurgeDue, Step;
  }

  // ---- the evictions ----

  /** Among the samples since the eviction, `first` of them evicting by itself: sample i evicts when it is
      above the drain level and every sample that evicted before it is RE_EVICT_EVERY old; a hold restored at
      the start counts as evicted at time 0. */
  ghost predicate Evicts(cfg: Config, seen: seq<Sample>, first: nat, i: nat)
    decreases i
  {
    && i < |seen|
    && (i < first ||
        (&& cfg.drainBelow != 0 && seen[i].v >= cfg.drainBelow
         && (first == 0 ==> seen[i].t >= RE_EVICT_EVERY)
         && forall k: nat :: k < i && Evicts(cfg, seen, first, k) ==> seen[i].t - seen[k].t >= RE_EVICT_EVERY))
  }

  /** lastEvict is the time of the last sample that evicted. */
  ghost predicate EvictMeans(cfg: Config, gate: Gate, first: nat) {
    && (forall k: nat :: Evicts(cfg, gate.seen, first, k) ==> gate.seen[k].t <= gate.lastEvict)
    && ((exists k: nat :: Evicts(cfg, gate.seen, first, k) && gate.seen[k].t == gate.lastEvict)
        || (first == 0 && gate.lastEvict == 0 && forall k: nat :: !Evicts(cfg, gate.seen, first, k)))
  }

  /** In every run, after the eviction that follows a trip, files are evicted again at every sample above the
      drain level that comes RE_EVICT_EVERY after the last eviction, and at no other. */
  lemma {:induction false} EvictsOnSchedule(cfg: Config, start: Core, ticks: seq<Tick>)
    requires Loaded(cfg) && IsStart(cfg, start) && WellTimed(ticks)
    ensures var gate := Run(cfg, start, ticks).gate;
            gate.active && gate.evicted ==> EvictMeans(cfg, gate, FirstCounted(cfg, start, ticks))
  {
    if ticks == [] {
      assert start.gate.active && start.gate.evicted ==> start.gate.lastEvict == 0 && start.gate.seen == [];
    } else {
      var front, tick := ticks[..|ticks| - 1], ticks[|ticks| - 1];
      assert ticks == front + [tick];
      PrefixTimed(front, tick);
      EvictsOnSchedule(cfg, start, front);
      GateInvInRuns(cfg, start, front);
      KillInRuns(cfg, start, front);
      AtLast(cfg, start, front, tick);
      RunSnoc(cfg, start, front, tick);
      var core := Run(cfg, start, front);
      hide Run, IsStart, WellTimed, Trips, EvictMeans, Drained, BelowExactly, RisesExactly, EvictionAt, Samples;
      if !Trips(cfg, core.det, core.probe, tick) {
        SameFirst(cfg, start, front, tick);
        EvictStep(cfg, start, front, tick, core.gate);
      }
    }
  }

  lemma EvictStep(cfg: Config, start: Core, ticks: seq<Tick>, tick: Tick, gate: Gate)
    requires WellTimed(ticks + [tick]) && GateInv(cfg, ticks, gate) && KillInv(cfg, start, ticks, gate)
    requires gate.active && gate.evicted ==> EvictMeans(cfg, gate, FirstCounted(cfg, start, ticks))
    ensures var drained := Drained(cfg, gate, tick);
            drained.active && drained.evicted ==> EvictMeans(cfg, drained, FirstCounted(cfg, start, ticks))
  {
    hide EvictMeans, Drained, BelowExactly, RisesExactly, EvictionAt, FirstCounted, Samples, KillInv;
    if gate.active {
      SeenIsTimed(gate.seen, ticks, tick);
      assert tick.ts > 0 by { assert (ticks + [tick])[|ticks|] == tick; }
      hide WellTimed;
      if !gate.evicted {
        NotEvictedYet(cfg, start, ticks, gate);
        CountedAfter(cfg, start, ticks);
        FirstEviction(cfg, gate, tick);
      } else {
        EvictedCounts(cfg, start, ticks, gate);
        EvictNext(cfg, gate, tick, FirstCounted(cfg, start, ticks));
      }
    } else {
      InactiveStays(cfg, gate, tick);
    }
  }

  lemma FirstEviction(cfg: Config, gate: Gate, tick: Tick)
    requires gate.active && !gate.evicted && gate.seen == []
    ensures Drained(cfg, gate, tick).evicted ==> EvictMeans(cfg, Drained(cfg, gate, tick), 1)
  {
    hide RisesAt, QuietWindow;
    var drained := Drained(cfg, gate, tick);
    if drained.evicted {
      assert drained.seen == [SampleOf(tick)] && drained.lastEvict == tick.ts;
      assert Evicts(cfg, drained.seen, 1, 0);
    }
  }

  lemma {:induction false} EvictsSnoc(cfg: Config, seen: seq<Sample>, s: Sample, first: nat, i: nat)
    requires i < |seen|
    ensures Evicts(cfg, seen + [s], first, i) == Evicts(cfg, seen, first, i)
    decreases i
  {
    assert (seen + [s])[i] == seen[i];
    forall k: nat | k < i
      ensures Evicts(cfg, seen + [s], first, k) == Evicts(cfg, seen, first, k) && (seen + [s])[k] == seen[k]
    {
      EvictsSnoc(cfg, seen, s, first, k);
    }
  }

  lemma EvictNext(cfg: Config, gate: Gate, tick: Tick, first: nat)
    requires gate.active && gate.evicted && EvictMeans(cfg, gate, first) && first <= |gate.seen| && tick.ts > 0
    requires forall j :: 0 <= j < |gate.seen| ==> gate.seen[j].t <= tick.ts
    ensures EvictMeans(cfg, Drained(cfg, gate, tick), first)
  {
    var drained, n := Drained(cfg, gate, tick), |gate.seen|;
    DrainedEvicts(cfg, gate, tick);
    hide Drained, IsBelow;
    forall k: nat | k < n
      ensures Evicts(cfg, drained.seen, first, k) == Evicts(cfg, gate.seen, first, k)
      ensures drained.seen[k] == gate.seen[k]
    {
      EvictsSnoc(cfg, gate.seen, SampleOf(tick), first, k);
    }
    assert drained.seen[n] == SampleOf(tick);
    NewEviction(cfg, gate, tick, first, drained);
  }

  lemma NewEviction(cfg: Config, gate: Gate, tick: Tick, first: nat, drained: Gate)
    requires EvictMeans(cfg, gate, first) && first <= |gate.seen|
    requires drained.seen == gate.seen + [SampleOf(tick)] && tick.ts >= gate.lastEvict
    requires forall k: nat :: k < |gate.seen| ==>
               Evicts(cfg, drained.seen, first, k) == Evicts(cfg, gate.seen, first, k)
    requires drained.lastEvict ==
               if cfg.drainBelow != 0 && tick.m >= cfg.drainBelow && tick.ts - gate.lastEvict >= RE_EVICT_EVERY
               then tick.ts else gate.lastEvict
    ensures EvictMeans(cfg, drained, first)
  {
    var n := |gate.seen|;
    assert drained.seen[n] == SampleOf(tick) && forall k: nat :: k < n ==> drained.seen[k] == gate.seen[k];
    assert forall k: nat :: Evicts(cfg, gate.seen, first, k) ==> k < n;
    if exists k: nat :: Evicts(cfg, gate.seen, first, k) && gate.seen[k].t == gate.lastEvict {
      var k: nat :| Evicts(cfg, gate.seen, first, k) && gate.seen[k].t == gate.lastEvict;
      assert Evicts(cfg, drained.seen, first, k);
    }
  }

  lemma DrainedEvicts(cfg: Config, gate: Gate, tick: Tick)
    requires gate.active && gate.evicted
    ensures Drained(cfg, gate, tick).seen == gate.seen + [SampleOf(tick)]
    ensures Drained(cfg, gate, tick).lastEvict ==
              if cfg.drainBelow != 0 && tick.m >= cfg.drainBelow && tick.ts - gate.lastEvict >= RE_EVICT_EVERY
              then tick.ts else gate.lastEvict
  {
    hide RisesAt, QuietWindow;
  }

  // ---- the backoff ----

  /** When the gate last opened. */
  ghost function LastOpening(cfg: Config, start: Core, ticks: seq<Tick>): Option<int> {
    if ticks == [] then None
    else if OpensAt(cfg, start, ticks, |ticks| - 1) then Some(ticks[|ticks| - 1].ts)
    else LastOpening(cfg, start, ticks[..|ticks| - 1])
  }

  /** How many trips in a row came within QUIET_BACKOFF_RESET of an opening: one that came later starts
      over, one before any opening does not count. */
  ghost function Escalations(cfg: Config, start: Core, ticks: seq<Tick>): nat {
    if ticks == [] then 0
    else
      var before := Escalations(cfg, start, ticks[..|ticks| - 1]);
      var last := LastOpening(cfg, start, ticks);
      if !TripsAt(cfg, start, ticks, |ticks| - 1) || last.None? then before
      else if ticks[|ticks| - 1].ts - last.value >= QUIET_BACKOFF_RESET then 0
      else before + 1
  }

  /** In every run the quiet window is the configured one doubled for every such trip, capped at 60 minutes. */
  lemma {:induction false} QuietWindowEscalates(cfg: Config, start: Core, ticks: seq<Tick>)
    requires Loaded(cfg) && IsStart(cfg, start)
    ensures var w := cfg.window * Pow2(Escalations(cfg, start, ticks));
            var quiet := QuietWindow(cfg, Run(cfg, start, ticks).gate.backoff);
            quiet == if w > MAX_QUIET_WINDOW then MAX_QUIET_WINDOW else w
  {
    BackoffCounts(cfg, start, ticks);
    QuietWindowInRange(cfg, start, ticks);
    var backoff, n := Run(cfg, start, ticks).gate.backoff, Escalations(cfg, start, ticks);
    hide Run, Escalations, QuietWindow, ShiftLeft, IsStart;
    if backoff < n {
      PowGrows(backoff, n);
      LargerProduct(cfg.window, Pow2(backoff), Pow2(n));
    }
  }

  lemma {:induction false} BackoffCounts(cfg: Config, start: Core, ticks: seq<Tick>)
    requires Loaded(cfg) && IsStart(cfg, start)
    ensures var gate, n := Run(cfg, start, ticks).gate, Escalations(cfg, start, ticks);
            && gate.lastRelease == LastOpening(cfg, start, ticks)
            && gate.backoff <= n && (gate.backoff < n ==> ShiftLeft(cfg.window, gate.backoff) >= MAX_QUIET_WINDOW)
  {
    if ticks != [] {
      var front, tick := ticks[..|ticks| - 1], ticks[|ticks| - 1];
      assert ticks == front + [tick];
      BackoffCounts(cfg, start, front);
      AtLast(cfg, start, front, tick);
      BeforeSnoc(cfg, start, front, tick, |front|);
      RunSnoc(cfg, start, front, tick);
      var core := Run(cfg, start, front);
      OpeningIsRecorded(cfg, core.gate, tick);
      hide Run, Trips, TripsAt, ShiftLeft, Drained;
    }
  }

  lemma OpeningIsRecorded(cfg: Config, gate: Gate, tick: Tick)
    ensures Drained(cfg, gate, tick).backoff == gate.backoff
    ensures Drained(cfg, gate, tick).lastRelease ==
              if gate.holding && !Drained(cfg, gate, tick).holding then Some(tick.ts) else gate.lastRelease
  {
    hide RisesAt, QuietWindow;
  }

  lemma {:induction false} PowGrows(a: nat, b: nat)
    requires a <= b
    ensures Pow2(a) <= Pow2(b)
  {
    if a < b {
      PowGrows(a, b - 1);
    }
  }

  lemma LargerProduct(w: int, p: int, q: int)
    requires w >= 0 && p <= q
    ensures w * p <= w * q
  {
  }

  // ---- the probe cache ----

  /** thresholdFor gets as far as asking about pgid: every child before it counts as Splash. */
  predicate ReachedIn(probe: Probe, kids: seq<int>, pgid: int, now: int, splash: set<int>) {
    exists i :: 0 <= i < |kids| && kids[i] == pgid && AllSplash(probe, kids[..i], now, splash)
  }

  /** pgid is not known, and its last failure is not held against it any more. */
  predicate IsProbed(probe: Probe, pgid: int, now: int) {
    pgid !in probe.known && !(pgid in probe.negativeAt && now - probe.negativeAt[pgid] < SPLASH_REPROBE)
  }

  function FailedSince(probe: Probe, pgid: int): Option<int> {
    if pgid in probe.negativeAt then Some(probe.negativeAt[pgid]) else None
  }

  /** What asking about the children leaves in the cache about one group. */
  lemma {:induction false} ProbeStep(cfg: Config, probe: Probe, kids: seq<int>, now: int, splash: set<int>, pgid: int)
    ensures var next, asked := ProbeAll(cfg, probe, kids, now, splash).1,
                               ReachedIn(probe, kids, pgid, now, splash) && IsProbed(probe, pgid, now);
            && (pgid in next.known <==> pgid in probe.known || (asked && pgid in splash))
            && FailedSince(next, pgid) ==
                 if !asked then FailedSince(probe, pgid) else if pgid in splash then None else Some(now)
    decreases |kids|
  {
    if kids != [] {
      var first, rest := kids[0], kids[1..];
      var more := Probe(probe.known + {first}, probe.negativeAt - {first});
      ReachedFirst(probe, kids, pgid, now, splash);
      if first in probe.known {
        ProbeStep(cfg, probe, rest, now, splash, pgid);
      } else if CountsAsSplash(probe, first, now, splash) {
        ProbeStep(cfg, more, rest, now, splash, pgid);
        SameReach(probe, more, rest, pgid, now, splash);
      }
    }
  }

  lemma ReachedFirst(probe: Probe, kids: seq<int>, pgid: int, now: int, splash: set<int>)
    requires kids != []
    ensures ReachedIn(probe, kids, pgid, now, splash) <==>
              || kids[0] == pgid
              || (CountsAsSplash(probe, kids[0], now, splash) && ReachedIn(probe, kids[1..], pgid, now, splash))
  {
    hide CountsAsSplash;
    forall i | 0 < i < |kids|
      ensures kids[i] == kids[1..][i - 1]
      ensures AllSplash(probe, kids[..i], now, splash) <==>
                CountsAsSplash(probe, kids[0], now, splash) && AllSplash(probe, kids[1..][..i - 1], now, splash)
    {
      FirstIsSplash(probe, kids[..i], now, splash);
      assert kids[..i][1..] == kids[1..][..i - 1];
    }
    if kids[0] == pgid {
      assert AllSplash(probe, kids[..0], now, splash);
    }
    if CountsAsSplash(probe, kids[0], now, splash) && ReachedIn(probe, kids[1..], pgid, now, splash) {
      var i :| 0 <= i < |kids[1..]| && kids[1..][i] == pgid && AllSplash(probe, kids[1..][..i], now, splash);
      assert kids[i + 1] == pgid && AllSplash(probe, kids[..i + 1], now, splash);
    }
  }

  lemma SameReach(probe: Probe, more: Probe, kids: seq<int>, pgid: int, now: int, splash: set<int>)
    requires forall kid :: CountsAsSplash(more, kid, now, splash) == CountsAsSplash(probe, kid, now, splash)
    ensures ReachedIn(more, kids, pgid, now, splash) == ReachedIn(probe, kids, pgid, now, splash)
  {
    hide CountsAsSplash;
    forall i | 0 <= i <= |kids|
      ensures AllSplash(more, kids[..i], now, splash) == AllSplash(probe, kids[..i], now, splash)
    {
    }
  }

  /** Sample i asks whether pgid runs Splash: the sample is armed, a Splash threshold is set, every child
      before pgid counts as Splash, and pgid is neither known nor held off. */
  ghost predicate AskedAt(cfg: Config, start: Core, ticks: seq<Tick>, i: nat, pgid: int)
    requires i < |ticks|
  {
    var core, tick := Before(cfg, start, ticks, i), ticks[i];
    && Armed(cfg, core.det, tick) && cfg.splashThreshold > 0
    && ReachedIn(core.probe, tick.kids, pgid, tick.ts, tick.splash) && IsProbed(core.probe, pgid, tick.ts)
  }

  /** Sample i is the last one that asked, and pgid did not answer. */
  ghost predicate LastFailedAt(cfg: Config, start: Core, ticks: seq<Tick>, i: nat, pgid: int) {
    && i < |ticks| && AskedAt(cfg, start, ticks, i, pgid) && pgid !in ticks[i].splash
    && forall k :: i < k < |ticks| ==> !AskedAt(cfg, start, ticks, k, pgid)
  }

  ghost predicate AnsweredAt(cfg: Config, start: Core, ticks: seq<Tick>, i: nat, pgid: int) {
    i < |ticks| && AskedAt(cfg, start, ticks, i, pgid) && pgid in ticks[i].splash
  }

  /** A group is known as Splash exactly when some sample asked it and it answered, and the cache holds
      against it the time of the last sample that asked it, when it did not answer that one. */
  ghost predicate CacheMeans(cfg: Config, start: Core, ticks: seq<Tick>, probe: Probe, pgid: int) {
    && (pgid in probe.known <==> exists i: nat :: AnsweredAt(cfg, start, ticks, i, pgid))
    && (forall i: nat :: LastFailedAt(cfg, start, ticks, i, pgid) ==> FailedSince(probe, pgid) == Some(ticks[i].ts))
    && (FailedSince(probe, pgid).Some? ==> exists i: nat :: LastFailedAt(cfg, start, ticks, i, pgid))
  }

  lemma {:induction false} ProbeInRuns(cfg: Config, start: Core, ticks: seq<Tick>, pgid: int)
    requires IsStart(cfg, start)
    ensures CacheMeans(cfg, start, ticks, Run(cfg, start, ticks).probe, pgid)
  {
    if ticks != [] {
      var front, tick := ticks[..|ticks| - 1], ticks[|ticks| - 1];
      assert ticks == front + [tick];
      ProbeInRuns(cfg, start, front, pgid);
      RunSnoc(cfg, start, front, tick);
      var core := Run(cfg, start, front);
      ProbeNext(cfg, core, tick, pgid);
      hide Run, Armed, ReachedIn, IsProbed, NextProbe, FailedSince, CacheMeans, Step;
      BeforeSnoc(cfg, start, front, tick, |front|);
      CacheKept(cfg, start, front, tick, core.probe, NextProbe(cfg, core.det, core.probe, tick), pgid);
    }
  }

  lemma AskedSnoc(cfg: Config, start: Core, ticks: seq<Tick>, tick: Tick, i: nat, pgid: int)
    requires i < |ticks|
    ensures AskedAt(cfg, start, ticks + [tick], i, pgid) == AskedAt(cfg, start, ticks, i, pgid)
  {
    hide Armed, ReachedIn, IsProbed, Run;
    BeforeSnoc(cfg, start, ticks, tick, i);
    assert (ticks + [tick])[i] == ticks[i];
  }

  /** One sample more keeps what the cache means. */
  lemma CacheKept(cfg: Config, start: Core, ticks: seq<Tick>, tick: Tick, probe: Probe, next: Probe, pgid: int)
    requires CacheMeans(cfg, start, ticks, probe, pgid)
    requires var asked := AskedAt(cfg, start, ticks + [tick], |ticks|, pgid);
             && (pgid in next.known <==> pgid in probe.known || (asked && pgid in tick.splash))
             && FailedSince(next, pgid) ==
                  if !asked then FailedSince(probe, pgid) else if pgid in tick.splash then None else Some(tick.ts)
    ensures CacheMeans(cfg, start, ticks + [tick], next, pgid)
  {
    var all, n := ticks + [tick], |ticks|;
    forall i: nat
      ensures AnsweredAt(cfg, start, all, i, pgid) ==
                if i == n then AskedAt(cfg, start, all, n, pgid) && pgid in tick.splash
                else AnsweredAt(cfg, start, ticks, i, pgid)
      ensures LastFailedAt(cfg, start, all, i, pgid) ==
                if i == n then AskedAt(cfg, start, all, n, pgid) && pgid !in tick.splash
                else LastFailedAt(cfg, start, ticks, i, pgid) && !AskedAt(cfg, start, all, n, pgid)
    {
      AnswersSnoc(cfg, start, ticks, tick, i, pgid);
    }
    assert all[n] == tick && forall i: nat :: i < n ==> all[i] == ticks[i];
    hide AskedAt, FailedSince, AnsweredAt, LastFailedAt;
    if exists i: nat :: AnsweredAt(cfg, start, ticks, i, pgid) {
      var i: nat :| AnsweredAt(cfg, start, ticks, i, pgid);
      InHistory(cfg, start, ticks, i, pgid);
      assert AnsweredAt(cfg, start, all, i, pgid);
    }
    assert AnsweredAt(cfg, start, all, n, pgid) <==> AskedAt(cfg, start, all, n, pgid) && pgid in tick.splash;
    LastFailedKept(cfg, start, ticks, tick, probe, next, pgid);
  }

  lemma LastFailedKept(cfg: Config, start: Core, ticks: seq<Tick>, tick: Tick, probe: Probe, next: Probe, pgid: int)
    requires CacheMeans(cfg, start, ticks, probe, pgid)
    requires var asked := AskedAt(cfg, start, ticks + [tick], |ticks|, pgid);
             FailedSince(next, pgid) ==
               if !asked then FailedSince(probe, pgid) else if pgid in tick.splash then None else Some(tick.ts)
    requires forall i: nat ::
               LastFailedAt(cfg, start, ticks + [tick], i, pgid) ==
                 if i == |ticks| then AskedAt(cfg, start, ticks + [tick], |ticks|, pgid) && pgid !in tick.splash
                 else LastFailedAt(cfg, start, ticks, i, pgid) && !AskedAt(cfg, start, ticks + [tick], |ticks|, pgid)
    ensures forall i: nat :: LastFailedAt(cfg, start, ticks + [tick], i, pgid) ==>
              i <= |ticks| && FailedSince(next, pgid) == Some((ticks + [tick])[i].ts)
    ensures FailedSince(next, pgid).Some? ==> exists i: nat :: LastFailedAt(cfg, start, ticks + [tick], i, pgid)
  {
    hide AskedAt, FailedSince, AnsweredAt;
    forall i: nat | LastFailedAt(cfg, start, ticks, i, pgid)
      ensures i < |ticks| && (ticks + [tick])[i] == ticks[i]
    {
    }
    hide LastFailedAt;
    if FailedSince(next, pgid).Some? {
      if AskedAt(cfg, start, ticks + [tick], |ticks|, pgid) {
        assert LastFailedAt(cfg, start, ticks + [tick], |ticks|, pgid);
      } else {
        var i: nat :| LastFailedAt(cfg, start, ticks, i, pgid);
        assert LastFailedAt(cfg, start, ticks + [tick], i, pgid);
      }
    }
  }

  lemma InHistory(cfg: Config, start: Core, ticks: seq<Tick>, i: nat, pgid: int)
    requires AnsweredAt(cfg, start, ticks, i, pgid)
    ensures i < |ticks|
  {
  }

  lemma AnswersSnoc(cfg: Config, start: Core, ticks: seq<Tick>, tick: Tick, i: nat, pgid: int)
    ensures AnsweredAt(cfg, start, ticks + [tick], i, pgid) ==
              if i == |ticks| then AskedAt(cfg, start, ticks + [tick], |ticks|, pgid) && pgid in tick.splash
              else AnsweredAt(cfg, start, ticks, i, pgid)
    ensures LastFailedAt(cfg, start, ticks + [tick], i, pgid) ==
              if i == |ticks| then AskedAt(cfg, start, ticks + [tick], |ticks|, pgid) && pgid !in tick.splash
              else LastFailedAt(cfg, start, ticks, i, pgid) && !AskedAt(cfg, start, ticks + [tick], |ticks|, pgid)
  {
    hide AskedAt;
    forall k: nat | k < |ticks|
      ensures AskedAt(cfg, start, ticks + [tick], k, pgid) == AskedAt(cfg, start, ticks, k, pgid)
      ensures (ticks + [tick])[k] == ticks[k]
    {
      AskedSnoc(cfg, start, ticks, tick, k, pgid);
    }
  }

  lemma ProbeNext(cfg: Config, core: Core, tick: Tick, pgid: int)
    ensures var next := NextProbe(cfg, core.det, core.probe, tick);
            var asked := && Armed(cfg, core.det, tick) && cfg.splashThreshold > 0
                         && ReachedIn(core.probe, tick.kids, pgid, tick.ts, tick.splash)
                         && IsProbed(core.probe, pgid, tick.ts);
            && (pgid in next.known <==> pgid in core.probe.known || (asked && pgid in tick.splash))
            && FailedSince(next, pgid) ==
                 if !asked then FailedSince(core.probe, pgid) else if pgid in tick.splash then None else Some(tick.ts)
  {
    ProbeStep(cfg, core.probe, tick.kids, tick.ts, tick.splash, pgid);
    hide ProbeAll;
  }
}
