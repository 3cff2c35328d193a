/**
  The memory brake (internal/membrake/brake.go): the object with its two deque rings and its
  post-kill fields, proved to take exactly the steps of `BrakeSpec`.
 */
module Brake {
  import opened MinRing
  import opened BrakeSpec
  import opened Basics

  /** The channel a parked load waits on. */
  class Channel {
    var closed: bool

    constructor ()
      ensures !closed
    {
      closed := false;
    }
  }

  /** The admission gate. */
  class Hold {
    var holding: bool
    var released: Channel?
    ghost var issued: set<Channel>  // every channel a waiter may be parked on

    ghost predicate Valid()
      reads this, issued
    {
      && (holding <==> released != null)
      && (released != null ==> released in issued && !released.closed)
      && forall ch <- issued :: ch.closed || ch == released
    }

    constructor ()
      ensures Valid() && !holding && issued == {}
    {
      holding, released, issued := false, null, {};
    }

    /** Set: shuts the gate if it is open; waiters already parked keep their channel. */
    method Set()
      requires Valid()
      modifies this
      ensures Valid() && holding && old(issued) <= issued && fresh(issued - old(issued))
      ensures old(holding) ==> released == old(released)
    {
      if !holding {
        released := new Channel();
        holding := true;
        issued := issued + {released};
      }
    }

    /** Release: opens the gate and wakes every parked load. */
    method Release()
      requires Valid()
      modifies this, issued
      ensures Valid() && !holding && issued == old(issued)
      ensures forall ch <- issued :: ch.closed
    {
      if holding {
        released.closed := true;
        released := null;
        holding := false;
      }
    }

    /** The first half of Wait: nil means proceed, else the channel to park on. */
    method Wait() returns (ch: Channel?)
      requires Valid()
      ensures ch == null <==> !holding
      ensures ch != null ==> ch in issued && !ch.closed
    {
      ch := released;
    }
  }

  function RingSize(cfg: Config): (r: nat)
    requires Loaded(cfg)
    ensures r > 0
  {
    RingEntries(cfg.window, cfg.interval)
  }

  function QuietRingSize(cfg: Config): (r: nat)
    requires Loaded(cfg)
    ensures r > 0
  {
    RingEntries(MAX_QUIET_WINDOW, cfg.interval)
  }

  function ToOption(sentinel: int): Option<int> {
    if sentinel == 0 then None else Some(sentinel)
  }

  /** The evict-then-drain record; 0 stands for "not yet" in belowSince and lastRiseAt. */
  datatype PostKill = PostKill(
    active: bool, killedAt: int, pgids: seq<int>, evicted: bool, lastEvict: int, belowSince: int, lastRiseAt: int)

  /** The gate a post-kill record stands for. */
  function GateFrom(holding: bool, post: PostKill, seen: seq<Sample>, lastReleaseAt: int, backoff: nat): Gate {
    Gate(holding, post.active, post.killedAt, post.pgids, post.evicted, post.lastEvict,
         ToOption(post.belowSince), ToOption(post.lastRiseAt), seen, ToOption(lastReleaseAt), backoff)
  }

  const NO_KILL := PostKill(false, 0, [], false, 0, 0, 0)

  lemma FreshGate(cfg: Config)
    ensures StartGate(cfg, GateFrom(false, NO_KILL, [], 0, 0))
  {
  }

  /** The record loadHoldState makes stands for a gate shut after an eviction. */
  lemma RestoredGate(cfg: Config, killedAt: int)
    requires cfg.drainBelow > 0
    ensures StartGate(cfg, GateFrom(true, NO_KILL.(active := true, killedAt := killedAt, evicted := true), [], 0, 0))
  {
  }

  class Brake {
    const cfg: Config
    const hold: Hold

    const ring: Ring  // samples since the last reset of the window
    var started: bool
    var consec: nat
    var lastDisarm: int
    var probe: Probe

    const quietRing: Ring  // samples since the eviction
    var post: PostKill
    var lastReleaseAt: int
    var backoff: nat

    var purge: Purge

    ghost var all: seq<Sample>  // every sample so far

    ghost function DetectorOf(): Detector
      reads this`started, this`consec, this`lastDisarm, ring
    {
      Detector(started, ring.hist, lastDisarm, consec)
    }

    ghost function GateOf(): Gate
      reads this`post, this`lastReleaseAt, this`backoff, hold, quietRing
    {
      GateFrom(hold.holding, post, quietRing.hist, lastReleaseAt, backoff)
    }

    ghost function CoreOf(): Core
      reads this, hold, ring, quietRing
    {
      Core(DetectorOf(), probe, GateOf())
    }

    /** The window ring is exact for the samples since the last reset. */
    ghost predicate WindowValid()
      reads this`all, ring, ring.times, ring.values
    {
      && Loaded(cfg) && ring.Valid() && ring.times.Length >= RingSize(cfg)
      && IsSuffix(ring.hist, all) && ring.Exact(cfg.window)
    }

    /** The quiet ring is exact for the samples since the eviction. */
    ghost predicate QuietValid()
      reads this`all, this`post, this`backoff, quietRing, quietRing.times, quietRing.values
    {
      && Loaded(cfg) && quietRing.Valid() && quietRing.times.Length >= QuietRingSize(cfg)
      && quietRing.Exact(QuietWindow(cfg, backoff))
      && (post.active ==> quietRing.hist == [] || (post.evicted && IsSuffix(quietRing.hist, all)))
    }

    ghost predicate Apart() {
      && ring != quietRing
      && ring.times != quietRing.times && ring.times != quietRing.values
      && ring.values != quietRing.times && ring.values != quietRing.values
    }

    ghost predicate Valid()
      reads this, hold, hold.issued
      reads ring, ring.times, ring.values, quietRing, quietRing.times, quietRing.values
    {
      hold.Valid() && Apart() && WindowValid() && QuietValid()
    }

    /** The clock is positive and non-decreasing, and the ticker never runs ahead of its interval by more than SLACK. */
    ghost predicate InTime(tick: Tick)
      reads this`all
    {
      && tick.ts > 0
      && Ordered(all + [SampleOf(tick)]) && Paced(all + [SampleOf(tick)], cfg.interval, SLACK)
    }

    /** Nothing has happened to the gate yet. */
    ghost predicate Untouched()
      reads this`post, this`lastReleaseAt, this`backoff, this`all, hold, quietRing
    {
      !hold.holding && post == NO_KILL && quietRing.hist == [] && lastReleaseAt == 0 && backoff == 0 && all == []
    }

    /** New, up to loadHoldState. */
    constructor (cfg: Config, hold: Hold)
      requires Loaded(cfg) && hold.Valid() && !hold.holding
      ensures Valid() && this.cfg == cfg && this.hold == hold && all == []
      ensures IsStart(cfg, CoreOf()) && Untouched()
      ensures purge == Purge(false, 0, 0, 0, [])
      ensures fresh(ring) && fresh(ring.times) && fresh(ring.values)
      ensures fresh(quietRing) && fresh(quietRing.times) && fresh(quietRing.values)
    {
      hide RingEntries, IsSuffix, Ring.Exact, QuietWindow, Hold.Valid, Ring.Valid, Ring.Contents, RingSize,
        QuietRingSize;
      this.cfg, this.hold := cfg, hold;
      ring := new Ring(RingSize(cfg));
      quietRing := new Ring(QuietRingSize(cfg));
      started, consec, lastDisarm := false, 0, 0;
      probe := Probe({}, map[]);
      post, lastReleaseAt, backoff := NO_KILL, 0, 0;
      purge := Purge(false, 0, 0, 0, []);
      all := [];
      new;
      EmptySuffix(all);
      ring.EmptyIsExact(cfg.window);
      quietRing.EmptyIsExact(QuietWindow(cfg, backoff));
    }

    /** loadHoldState: the kill time found in the hold-state file keeps the gate shut, already evicted;
        with drainBelow 0 it is ignored. */
    method LoadHoldState(restored: Option<int>)
      requires Valid() && Unused(DetectorOf(), probe) && Untouched()
      modifies this`post, this`purge, hold
      ensures Valid() && all == [] && IsStart(cfg, CoreOf())
      ensures hold.holding <==> restored.Some? && cfg.drainBelow > 0
      ensures hold.holding ==> post.killedAt == restored.value && purge == Purge(false, restored.value, 0, 0, [])
    {
      hide RingEntries, IsSuffix, Hold.Valid, QuietValid, WindowValid, Apart, DetectorOf, GateOf, Unused, StartGate,
        Untouched;
      KeepRestored(restored);
    }

    method KeepRestored(restored: Option<int>)
      requires hold.Valid() && QuietValid() && Untouched()
      modifies this`post, this`purge, hold
      ensures hold.Valid() && QuietValid() && all == [] && StartGate(cfg, GateOf())
      ensures hold.holding <==> restored.Some? && cfg.drainBelow > 0
      ensures hold.holding ==> post.killedAt == restored.value && purge == Purge(false, restored.value, 0, 0, [])
    {
      hide RingEntries, IsSuffix, Hold.Valid, Ring.Valid, Ring.Exact, Ring.Contents, QuietWindow, QuietRingSize,
        GateFrom, StartGate;
      FreshGate(cfg);
      if restored.Some? && cfg.drainBelow > 0 {
        hold.Set();
        RestoredGate(cfg, restored.value);
        post := NO_KILL.(active := true, killedAt := restored.value, evicted := true);
        purge := Purge(false, restored.value, 0, 0, []);
      }
    }

    /** trackRise: feeds the deque and stamps lastRiseAt. */
    method TrackRise(tick: Tick)
      requires QuietValid() && InTime(tick) && post.active
      modifies this`post, quietRing, quietRing.times, quietRing.values
      ensures quietRing.Valid() && quietRing.Exact(QuietWindow(cfg, backoff))
      ensures quietRing.hist == old(quietRing.hist) + [SampleOf(tick)]
      ensures post == if RisesAt(cfg, quietRing.hist, |quietRing.hist| - 1, QuietWindow(cfg, backoff))
                      then old(post).(lastRiseAt := tick.ts) else old(post)
    {
      hide RingEntries, IsSuffix, Ring.Exact, QuietWindow, Ordered, Paced, WindowMin;
      var s, win := SampleOf(tick), QuietWindow(cfg, backoff);
      SuffixPaced(all, quietRing.hist, s, cfg.interval);
      SmallerWindowFits(win, MAX_QUIET_WINDOW, cfg.interval, quietRing.times.Length);
      quietRing.Feed(s, win, cfg.interval);
      assert quietRing.hist[..|quietRing.hist|] == quietRing.hist;
      if tick.m - quietRing.Head() >= cfg.threshold {
        post := post.(lastRiseAt := tick.ts);
      }
    }

    /** releaseAfterDrain */
    method ReleaseAfterDrain(ts: int)
      requires hold.Valid() && ts > 0
      modifies this`post, this`lastReleaseAt, hold, hold.issued
      ensures hold.Valid() && hold.issued == old(hold.issued)
      ensures GateOf() == Released(old(GateOf()), ts)
    {
      hide RingEntries, IsSuffix, Hold.Valid;
      post := post.(active := false);
      if !hold.holding {
        return;
      }
      hold.Release();
      lastReleaseAt := ts;
    }

    /** maybePurge */
    method MaybePurgeNow(ts: int)
      modifies this`purge
      ensures purge == MaybePurge(cfg, old(purge), ts)
    {
      if cfg.purgeAfter <= 0 {
        return;
      }
      var last := if purge.lastStuck > purge.lastAttempt then purge.lastStuck else purge.lastAttempt;
      if ts - last < cfg.purgeAfter {
        return;
      }
      if purge.running {
        purge := purge.(lastStuck := ts);
        return;
      }
      StartPurgeNow(ts);
    }

    /** startPurge: sets the flags and launches the goroutine that purges. */
    method StartPurgeNow(ts: int)
      modifies this`purge
      ensures purge == StartPurge(old(purge), ts)
    {
      purge := purge.(running := true, lastAttempt := ts, startedAt := ts, launches := purge.launches + [ts]);
    }

    /** Some killed process group still exists. */
    method AnyAlive(alive: set<int>) returns (r: bool)
      ensures r <==> AnyIn(post.pgids, alive)
    {
      for i := 0 to |post.pgids|
        invariant forall k :: 0 <= k < i ==> post.pgids[k] !in alive
      {
        if post.pgids[i] in alive {
          return true;
        }
      }
      return false;
    }

    /** drain: runs on every sample after a trip. */
    method DrainNow(tick: Tick)
      requires hold.Valid() && QuietValid() && InTime(tick) && post.active
      modifies this`post, this`lastReleaseAt, this`purge
      modifies quietRing, quietRing.times, quietRing.values, hold, hold.issued
      ensures hold.Valid() && hold.issued == old(hold.issued)
      ensures quietRing.Valid() && quietRing.Exact(QuietWindow(cfg, backoff))
      ensures quietRing.hist == old(quietRing.hist) + [SampleOf(tick)]
              || (quietRing.hist == old(quietRing.hist) == [] && !post.evicted)
      ensures !post.evicted ==> quietRing.hist == []
      ensures GateOf() == Drain(cfg, old(GateOf()), tick)
      ensures purge == if ReachesPurge(cfg, old(GateOf()), tick) then MaybePurge(cfg, old(purge), tick.ts)
                else old(purge)
    {
      hide RingEntries, IsSuffix, Ring.Exact, QuietWindow, Ordered, Paced, RisesAt, Hold.Valid, Ring.Valid,
        Ring.Contents, MaybePurge;
      var ts := tick.ts;
      if !post.evicted {
        if ts - post.killedAt < KILL_EXIT_WAIT {
          var waiting := AnyAlive(tick.alive);
          if waiting {
            return;
          }
        }
        post := post.(evicted := true, lastEvict := ts);
        TrackRise(tick);
        return;
      }
      TrackRise(tick);
      if tick.m < cfg.drainBelow || cfg.drainBelow == 0 {
        if post.belowSince == 0 {
          post := post.(belowSince := ts);
        }
        if cfg.drainBelow == 0
           || (ts - post.belowSince >= DRAIN_SETTLE
               && (post.lastRiseAt == 0 || ts - post.lastRiseAt >= QuietWindow(cfg, backoff))) {
          ReleaseAfterDrain(ts);
        }
        return;
      }
      post := post.(belowSince := 0);
      if ts - post.lastEvict >= RE_EVICT_EVERY {
        post := post.(lastEvict := ts);
      }
      MaybePurgeNow(ts);
    }

    /** trip: kills every live group, shuts the gate and restarts the post-kill sequence. */
    method TripNow(tick: Tick) returns (killed: seq<int>)
      requires hold.Valid() && QuietValid() && tick.ts > 0
      modifies this`post, this`backoff, this`purge, quietRing, hold
      ensures hold.Valid() && old(hold.issued) <= hold.issued && fresh(hold.issued - old(hold.issued))
      ensures quietRing.Valid() && quietRing.Exact(QuietWindow(cfg, backoff)) && quietRing.hist == []
      ensures killed == tick.kids
      ensures GateOf() == Trip(cfg, old(GateOf()), tick)
      ensures purge == old(purge).(lastAttempt := tick.ts, lastStuck := 0)
    {
      hide RingEntries, IsSuffix, QuietWindow, Hold.Valid, ShiftLeft, Ring.Exact, Ring.Contents;
      killed := tick.kids;
      if cfg.drainBelow > 0 {
        hold.Set();
      }
      if lastReleaseAt != 0 {
        if tick.ts - lastReleaseAt < QUIET_BACKOFF_RESET {
          if ShiftLeft(cfg.window, backoff) < MAX_QUIET_WINDOW {
            backoff := backoff + 1;
          }
        } else {
          backoff := 0;
        }
      }
      post := PostKill(true, tick.ts, tick.kids, false, 0, 0, 0);
      quietRing.Clear();
      quietRing.EmptyIsExact(QuietWindow(cfg, backoff));
      purge := purge.(lastAttempt := tick.ts, lastStuck := 0);
    }

    /** thresholdFor */
    method ThresholdNow(tick: Tick) returns (threshold: int)
      modifies this`probe
      ensures (threshold, probe) == ThresholdFor(cfg, old(probe), tick.kids, tick.ts, tick.splash)
    {
      if cfg.splashThreshold <= 0 || |tick.kids| == 0 {
        return cfg.threshold;
      }
      for i := 0 to |tick.kids|
        invariant ProbeAll(cfg, probe, tick.kids[i..], tick.ts, tick.splash)
               == ProbeAll(cfg, old(probe), tick.kids, tick.ts, tick.splash)
      {
        var pgid := tick.kids[i];
        assert tick.kids[i..][0] == pgid && tick.kids[i..][1..] == tick.kids[i + 1..];
        if pgid in probe.known {
          continue;
        }
        if pgid in probe.negativeAt && tick.ts - probe.negativeAt[pgid] < SPLASH_REPROBE {
          return cfg.threshold;
        }
        if pgid in tick.splash {
          probe := Probe(probe.known + {pgid}, probe.negativeAt - {pgid});
          continue;
        }
        probe := probe.(negativeAt := probe.negativeAt[pgid := tick.ts]);
        return cfg.threshold;
      }
      threshold := cfg.splashThreshold;
    }

    /** The head of observe: reset the window when a child is in transition or none is live, then push. */
    method PushNow(tick: Tick)
      requires WindowValid() && InTime(tick)
      modifies this`started, this`consec, this`lastDisarm, this`all, ring, ring.times, ring.values
      ensures WindowValid() && ring.n > 0 && ring.Head() == WindowMin(ring.hist, cfg.window)
      ensures all == old(all) + [SampleOf(tick)]
      ensures DetectorOf() == Observed(old(DetectorOf()), tick)
    {
      hide RingEntries, IsSuffix, Ring.Exact, Ring.Contents, Ordered, Paced, WindowMin;
      if !started || tick.loading || |tick.kids| == 0 {
        started := true;
        ClearWindow(tick.ts);
      }
      var s := SampleOf(tick);
      SuffixPaced(all, ring.hist, s, cfg.interval);
      SuffixGrows(ring.hist, all, s);
      ring.Feed(s, cfg.window, cfg.interval);
      all := all + [s];
    }

    /** resetWindow */
    method ClearWindow(now: int)
      requires WindowValid()
      modifies this`consec, this`lastDisarm, ring
      ensures WindowValid() && ring.hist == [] && consec == 0 && lastDisarm == now
    {
      hide RingEntries, IsSuffix, Ring.Contents, Ring.Exact;
      EmptySuffix(all);
      ring.Clear();
      ring.EmptyIsExact(cfg.window);
      consec, lastDisarm := 0, now;
    }

    /** The detector part of observe; on a trip the window is reset. */
    method DetectNow(tick: Tick) returns (tripped: bool)
      requires WindowValid() && InTime(tick)
      modifies this`started, this`consec, this`lastDisarm, this`probe, this`all, ring, ring.times, ring.values
      ensures WindowValid() && all == old(all) + [SampleOf(tick)]
      ensures tripped == Trips(cfg, old(DetectorOf()), old(probe), tick)
      ensures DetectorOf() == NextDetector(cfg, old(DetectorOf()), old(probe), tick)
      ensures probe == NextProbe(cfg, old(DetectorOf()), old(probe), tick)
    {
      hide RingEntries, IsSuffix, Ring.Exact, Ring.Contents, Ring.Valid, Ordered, Paced, WindowMin, ThresholdFor;
      PushNow(tick);
      tripped := false;
      if tick.ts - lastDisarm < cfg.armAfter {
        consec := 0;
        return;
      }
      var growth := tick.m - ring.Head();
      var threshold := ThresholdNow(tick);
      if growth < threshold {
        consec := 0;
        return;
      }
      consec := consec + 1;
      if consec < cfg.confirmSamples {
        return;
      }
      ClearWindow(tick.ts);
      tripped := true;
    }

    /** The drain part of observe. */
    method DrainPart(tick: Tick)
      requires hold.Valid() && QuietValid() && InTime(tick)
      modifies this`post, this`lastReleaseAt, this`purge
      modifies quietRing, quietRing.times, quietRing.values, hold, hold.issued
      ensures hold.Valid() && hold.issued == old(hold.issued)
      ensures QuietReady(tick)
      ensures GateOf() == Drained(cfg, old(GateOf()), tick)
      ensures purge == if ReachesPurge(cfg, old(GateOf()), tick) then MaybePurge(cfg, old(purge), tick.ts)
                else old(purge)
    {
      hide RingEntries, IsSuffix, Ring.Exact, Ring.Contents, Ring.Valid, Ordered, Paced, QuietWindow, Hold.Valid,
        Drain, MaybePurge;
      if post.active {
        EmptySuffix(all);
        SuffixGrows(quietRing.hist, all, SampleOf(tick));
        DrainNow(tick);
      }
    }

    /** The quiet ring with this sample already in it, before `all` has caught up. */
    ghost predicate QuietReady(tick: Tick)
      reads this`all, this`post, this`backoff, quietRing, quietRing.times, quietRing.values
    {
      var grown := all + [SampleOf(tick)];
      && Loaded(cfg) && quietRing.Valid() && quietRing.times.Length >= QuietRingSize(cfg)
      && quietRing.Exact(QuietWindow(cfg, backoff))
      && (post.active ==>
            quietRing.hist == [] || (post.evicted && IsSuffix(quietRing.hist, grown)))
    }

    /** observe: one sample, exactly one step of the reference machine. */
    method Observe(tick: Tick) returns (tripped: bool, killed: seq<int>)
      requires Valid() && InTime(tick)
      modifies this, hold, hold.issued
      modifies ring, ring.times, ring.values, quietRing, quietRing.times, quietRing.values
      ensures Valid() && all == old(all) + [SampleOf(tick)]
      ensures CoreOf() == Step(cfg, old(CoreOf()), tick)
      ensures purge == NextPurge(cfg, old(CoreOf()), old(purge), tick)
      ensures tripped == Trips(cfg, old(CoreOf()).det, old(CoreOf()).probe, tick)
      ensures killed == if tripped then tick.kids else []
      ensures old(hold.issued) <= hold.issued && fresh(hold.issued - old(hold.issued))
    {
      hide RingEntries, IsSuffix, Ring.Exact, Ring.Contents, Ring.Valid, Ordered, Paced, WindowMin, QuietWindow,
        Hold.Valid,
        Drained, MaybePurge, Trip, Trips, NextDetector, NextProbe, GateFrom, ReachesPurge;
      DrainPart(tick);
      assert DetectorOf() == old(DetectorOf());
      tripped := DetectNow(tick);
      assert GateOf() == Drained(cfg, old(GateOf()), tick);
      killed := [];
      if tripped {
        killed := TripNow(tick);
      }
    }
  }
}
