/**
  The prefill-stall watcher (internal/router/prefillstall.go): a slot whose upstream prefill has not
  moved for a whole budget is cut once, and the child is restarted once if it still does not move.
  Samples are the polls that were answered; a failed poll is no evidence and does not appear.
 */
module PrefillStall {
  import opened Basics

  /** The part of one /slots entry the guard reads. */
  datatype UpstreamSlot = UpstreamSlot(id: int, idTask: int, processing: bool, nPrompt: int, processed: int,
                                       decoded: int) {
    predicate InPrefill() {
      processing && decoded == 0 && (nPrompt == 0 || processed < nPrompt)
    }
  }

  /** What a sample shows of a slot in prefill. */
  datatype Shown = Shown(idTask: int, processed: int)

  datatype Sample = Sample(slots: seq<UpstreamSlot>, now: int)

  /** The last reading of one slot in prefill. */
  datatype SlotTrack = SlotTrack(shown: Shown, since: int, lastSeen: int, cutAt: Option<int>, restarted: bool)

  datatype Config = Config(budget: int, restartAfter: int)

  // ----- What one sample says -----

  /** The last row of slot id in prefill. */
  function Reading(slots: seq<UpstreamSlot>, id: int): Option<Shown> {
    if slots == [] then None
    else
      var s := slots[|slots| - 1];
      if s.InPrefill() && s.id == id then Some(Shown(s.idTask, s.processed)) else Reading(slots[..|slots| - 1], id)
  }

  /** Every row of slot id in prefill shows `shown`, and there is one. */
  predicate Steady(slots: seq<UpstreamSlot>, id: int, shown: Shown) {
    && Reading(slots, id) == Some(shown)
    && forall s <- slots :: s.InPrefill() && s.id == id ==> Shown(s.idTask, s.processed) == shown
  }

  // ----- What the history says -----

  /** From sample j on, the first n samples all show slot id at one task and one count. */
  predicate FlatFrom(h: seq<Sample>, n: nat, id: int, j: nat)
    requires n <= |h|
  {
    && j < n
    && Reading(h[j].slots, id).Some?
    && forall k :: j < k < n ==> Steady(h[k].slots, id, Reading(h[j].slots, id).value)
  }

  /** The first n samples end in a flat span of at least d. */
  ghost predicate Flat(h: seq<Sample>, n: nat, id: int, d: int)
    requires 0 < n <= |h|
  {
    exists j: nat :: FlatFrom(h, n, id, j) && h[n - 1].now - h[j].now >= d
  }

  /** After n samples slot id is a stall candidate: started, flat for the budget, and no other slot in
      prefill changed within the budget. */
  ghost predicate CutDue(c: Config, h: seq<Sample>, n: nat, id: int)
    requires 0 < n <= |h|
  {
    && Flat(h, n, id, c.budget)
    && Reading(h[n - 1].slots, id).value.processed > 0
    && forall o :: o != id && Reading(h[n - 1].slots, o).Some? ==> Flat(h, n, o, c.budget)
  }

  /** The first sample of the span that ends at n. */
  function SpanStart(h: seq<Sample>, n: nat, id: int): (j: nat)
    requires 0 < n <= |h|
    ensures j < n
  {
    if n > 1 && Reading(h[n - 2].slots, id).Some? && Steady(h[n - 1].slots, id, Reading(h[n - 2].slots, id).value)
    then SpanStart(h, n - 1, id)
    else n - 1
  }

  lemma {:induction false} SpanStartIsEarliest(h: seq<Sample>, n: nat, id: int)
    requires 0 < n <= |h| && Reading(h[n - 1].slots, id).Some?
    ensures forall j: nat :: FlatFrom(h, n, id, j) <==> SpanStart(h, n, id) <= j < n
    ensures forall j :: SpanStart(h, n, id) <= j < n ==> Reading(h[j].slots, id) == Reading(h[n - 1].slots, id)
  {
    if SpanStart(h, n, id) < n - 1 {
      SpanStartIsEarliest(h, n - 1, id);
      forall j: nat
        ensures FlatFrom(h, n, id, j) <==> SpanStart(h, n, id) <= j < n
      {
        assert j < n - 1 ==> (FlatFrom(h, n, id, j) <==>
                              FlatFrom(h, n - 1, id, j) && Steady(h[n - 1].slots, id, Reading(h[j].slots, id).value));
      }
    } else if n > 1 {
      forall j: nat | j < n - 1
        ensures !FlatFrom(h, n, id, j)
      {
        assert j < n - 2 && FlatFrom(h, n, id, j) ==> Steady(h[n - 2].slots, id, Reading(h[j].slots, id).value);
      }
    }
  }

  /** Every sample of a span has the same span start. */
  lemma {:induction false} SpanStartSame(h: seq<Sample>, n: nat, id: int, m: nat)
    requires 0 < n <= |h| && SpanStart(h, n, id) < m <= n
    ensures SpanStart(h, m, id) == SpanStart(h, n, id)
  {
    if m < n {
      SpanStartSame(h, n - 1, id, m);
    }
  }

  ghost predicate InOrder(h: seq<Sample>) {
    forall i, j :: 0 <= i < j < |h| ==> h[i].now <= h[j].now
  }

  /** A span is at least d long exactly when it started at least d ago. */
  lemma FlatSinceStart(h: seq<Sample>, n: nat, id: int, d: int)
    requires 0 < n <= |h| && InOrder(h) && Reading(h[n - 1].slots, id).Some?
    ensures Flat(h, n, id, d) <==> h[n - 1].now - h[SpanStart(h, n, id)].now >= d
  {
    SpanStartIsEarliest(h, n, id);
    assert FlatFrom(h, n, id, SpanStart(h, n, id));
  }

  // ----- The watcher, one sample at a time -----

  ghost function Prefilling(slots: seq<UpstreamSlot>): set<int> {
    set s | s in slots && s.InPrefill() :: s.id
  }

  lemma {:induction false} PrefillingIsRead(slots: seq<UpstreamSlot>, id: int)
    ensures id in Prefilling(slots) <==> Reading(slots, id).Some?
    ensures Reading(slots, id).Some? ==>
              exists s :: s in slots && s.InPrefill() && s.id == id
                  && Reading(slots, id).value == Shown(s.idTask, s.processed)
  {
    if slots != [] {
      var rest := slots[..|slots| - 1];
      PrefillingIsRead(rest, id);
      assert forall s :: s in slots <==> s in rest || s == slots[|slots| - 1];
    }
  }

  /** The track of a slot after a sample that reads `shown`, before any verdict. */
  ghost function Folded(tracks: map<int, SlotTrack>, slots: seq<UpstreamSlot>, now: int, id: int): SlotTrack
    requires Reading(slots, id).Some?
  {
    if id in tracks && Steady(slots, id, tracks[id].shown) then tracks[id].(lastSeen := now)
    else SlotTrack(Reading(slots, id).value, now, now, None, false)
  }

  ghost function FoldAll(tracks: map<int, SlotTrack>, slots: seq<UpstreamSlot>, now: int): map<int, SlotTrack> {
    map id | id in Prefilling(slots) :: PrefillingIsRead(slots, id); Folded(tracks, slots, now, id)
  }

  datatype Verdict = Quiet | CutNow | RestartNow

  predicate OtherSlotAdvancing(c: Config, tracks: map<int, SlotTrack>, id: int, now: int) {
    exists other :: other in tracks && other != id && now - tracks[other].since < c.budget
  }

  /** Verdicts do not change what it looks at. */
  lemma SameSince(c: Config, was: map<int, SlotTrack>, tracks: map<int, SlotTrack>, id: int, now: int)
    requires was.Keys == tracks.Keys && forall o <- was :: tracks[o].since == was[o].since
    ensures OtherSlotAdvancing(c, tracks, id, now) == OtherSlotAdvancing(c, was, id, now)
  {
  }

  function Judge(c: Config, tracks: map<int, SlotTrack>, id: int, now: int): Verdict
    requires id in tracks
  {
    var tr := tracks[id];
    if tr.shown.processed <= 0 || tr.lastSeen - tr.since < c.budget then Quiet
    else if tr.cutAt.None? then if OtherSlotAdvancing(c, tracks, id, now) then Quiet else CutNow
    else if c.restartAfter > 0 && !tr.restarted && now - tr.cutAt.value >= c.restartAfter then RestartNow
    else Quiet
  }

  function Marked(tr: SlotTrack, verdict: Verdict, now: int): SlotTrack {
    match verdict
    case Quiet => tr
    case CutNow => tr.(cutAt := Some(now))
    case RestartNow => tr.(restarted := true)
  }

  ghost function Judged(c: Config, tracks: map<int, SlotTrack>, now: int): map<int, SlotTrack> {
    map id | id in tracks :: Marked(tracks[id], Judge(c, tracks, id, now), now)
  }

  /** The tracks after the first n samples, however the maps were iterated. */
  ghost function Tracks(c: Config, h: seq<Sample>, n: nat): map<int, SlotTrack>
    requires n <= |h|
  {
    if n == 0 then map[] else Judged(c, FoldAll(Tracks(c, h, n - 1), h[n - 1].slots, h[n - 1].now), h[n - 1].now)
  }

  /** The verdict on slot id at sample n - 1. */
  ghost function VerdictAt(c: Config, h: seq<Sample>, n: nat, id: int): Verdict
    requires 0 < n <= |h|
  {
    var folded := FoldAll(Tracks(c, h, n - 1), h[n - 1].slots, h[n - 1].now);
    if id in folded then Judge(c, folded, id, h[n - 1].now) else Quiet
  }

  /** Sample m - 1 is the first of the current span at which a cut is due. */
  ghost predicate FirstDue(c: Config, h: seq<Sample>, n: nat, id: int, m: nat)
    requires 0 < n <= |h|
  {
    && SpanStart(h, n, id) < m <= n
    && CutDue(c, h, m, id)
    && forall k :: SpanStart(h, n, id) < k < m ==> !CutDue(c, h, k, id)
  }

  /** At sample n - 1 the span has lasted restartAfter since its cut. */
  ghost predicate RestartDue(c: Config, h: seq<Sample>, n: nat, id: int)
    requires 0 < n <= |h|
  {
    && c.restartAfter > 0
    && exists m: nat :: FirstDue(c, h, n, id, m) && h[n - 1].now - h[m - 1].now >= c.restartAfter
  }

  ghost predicate RestartedBy(c: Config, h: seq<Sample>, n: nat, id: int, last: nat)
    requires 0 < n <= |h| && last <= n
  {
    exists k :: SpanStart(h, n, id) < k <= last && RestartDue(c, h, k, id)
  }

  /** What every track means, after every sequence of samples. */
  ghost predicate TrackMeans(c: Config, h: seq<Sample>, n: nat, id: int, tr: SlotTrack)
    requires 0 < n <= |h|
  {
    && Reading(h[n - 1].slots, id) == Some(tr.shown)
    && tr.since == h[SpanStart(h, n, id)].now
    && tr.lastSeen == h[n - 1].now
    && (tr.cutAt.Some? ==> exists m: nat :: FirstDue(c, h, n, id, m) && h[m - 1].now == tr.cutAt.value)
    && (tr.cutAt.None? ==> forall m :: SpanStart(h, n, id) < m <= n ==> !CutDue(c, h, m, id))
    && (tr.restarted <==> RestartedBy(c, h, n, id, n))
  }

  /** The same, after the sample was folded in and before the verdicts of sample n - 1. */
  ghost predicate FoldMeans(c: Config, h: seq<Sample>, n: nat, id: int, tr: SlotTrack)
    requires 0 < n <= |h|
  {
    && Reading(h[n - 1].slots, id) == Some(tr.shown)
    && tr.since == h[SpanStart(h, n, id)].now
    && tr.lastSeen == h[n - 1].now
    && (tr.cutAt.Some? ==> exists m: nat :: m < n && FirstDue(c, h, n, id, m) && h[m - 1].now == tr.cutAt.value)
    && (tr.cutAt.None? ==> forall m :: SpanStart(h, n, id) < m < n ==> !CutDue(c, h, m, id))
    && (tr.restarted <==> RestartedBy(c, h, n, id, n - 1))
  }

  lemma FoldKeepsMeaning(c: Config, h: seq<Sample>, n: nat, id: int)
    requires 0 < n <= |h| && Reading(h[n - 1].slots, id).Some?
    requires n > 1 ==> (id in Tracks(c, h, n - 1) <==> Reading(h[n - 2].slots, id).Some?)
    requires n > 1 && id in Tracks(c, h, n - 1) ==> TrackMeans(c, h, n - 1, id, Tracks(c, h, n - 1)[id])
    ensures FoldMeans(c, h, n, id, Folded(Tracks(c, h, n - 1), h[n - 1].slots, h[n - 1].now, id))
  {
    hide CutDue, RestartDue;
    if n > 1 && id in Tracks(c, h, n - 1) && Steady(h[n - 1].slots, id, Tracks(c, h, n - 1)[id].shown) {
      var tr := Tracks(c, h, n - 1)[id];
      assert SpanStart(h, n, id) == SpanStart(h, n - 1, id);
      hide Reading, Steady, SpanStart, Tracks;
      if tr.cutAt.Some? {
        var m: nat :| FirstDue(c, h, n - 1, id, m) && h[m - 1].now == tr.cutAt.value;
        assert FirstDue(c, h, n, id, m);
      }
    }
  }

  /** The guard of a verdict, on tracks that mean what they should. */
  lemma CutDueIsJudged(c: Config, h: seq<Sample>, n: nat, folded: map<int, SlotTrack>, id: int)
    requires 0 < n <= |h| && InOrder(h) && id in folded
    requires forall o :: o in folded <==> Reading(h[n - 1].slots, o).Some?
    requires forall o :: o in folded ==> FoldMeans(c, h, n, o, folded[o])
    ensures CutDue(c, h, n, id) <==>
              && folded[id].shown.processed > 0 && folded[id].lastSeen - folded[id].since >= c.budget
              && !OtherSlotAdvancing(c, folded, id, h[n - 1].now)
  {
    forall o | o in folded
      ensures Flat(h, n, o, c.budget) <==> h[n - 1].now - folded[o].since >= c.budget
    {
      FlatSinceStart(h, n, o, c.budget);
    }
  }

  /** A span that was cut is still flat for the budget, still at a positive count. */
  lemma CutSpanStaysFlat(c: Config, h: seq<Sample>, n: nat, id: int, m: nat)
    requires 0 < n <= |h| && InOrder(h) && FirstDue(c, h, n, id, m) && Reading(h[n - 1].slots, id).Some?
    ensures Reading(h[n - 1].slots, id).value.processed > 0
    ensures h[n - 1].now - h[SpanStart(h, n, id)].now >= c.budget
  {
    SpanStartIsEarliest(h, n, id);
    SpanStartSame(h, n, id, m);
    FlatSinceStart(h, m, id, c.budget);
  }

  /** Every track of the fold means what it should. */
  ghost predicate AllFolded(c: Config, h: seq<Sample>, n: nat, folded: map<int, SlotTrack>)
    requires 0 < n <= |h|
  {
    && (forall o :: o in folded <==> Reading(h[n - 1].slots, o).Some?)
    && (forall o :: o in folded ==> FoldMeans(c, h, n, o, folded[o]))
  }

  lemma CutVerdict(c: Config, h: seq<Sample>, n: nat, folded: map<int, SlotTrack>, id: int)
    requires 0 < n <= |h| && InOrder(h) && id in folded && AllFolded(c, h, n, folded)
    ensures Judge(c, folded, id, h[n - 1].now) == CutNow <==> FirstDue(c, h, n, id, n)
  {
    CutDueIsJudged(c, h, n, folded, id);
    hide CutDue, OtherSlotAdvancing;
  }

  lemma RestartVerdict(c: Config, h: seq<Sample>, n: nat, folded: map<int, SlotTrack>, id: int)
    requires 0 < n <= |h| && InOrder(h) && id in folded && AllFolded(c, h, n, folded)
    ensures Judge(c, folded, id, h[n - 1].now) == RestartNow <==>
              RestartDue(c, h, n, id) && !RestartedBy(c, h, n, id, n - 1)
  {
    hide CutDue, OtherSlotAdvancing, RestartedBy;
    var tr := folded[id];
    assert FoldMeans(c, h, n, id, tr);
    if tr.cutAt.Some? {
      var m: nat :| m < n && FirstDue(c, h, n, id, m) && h[m - 1].now == tr.cutAt.value;
      CutSpanStaysFlat(c, h, n, id, m);
      assert forall k: nat :: FirstDue(c, h, n, id, k) ==> k == m;
    }
  }

  lemma MarkedMeans(c: Config, h: seq<Sample>, n: nat, id: int, tr: SlotTrack, verdict: Verdict)
    requires 0 < n <= |h| && FoldMeans(c, h, n, id, tr)
    requires verdict == CutNow <==> FirstDue(c, h, n, id, n)
    requires verdict == RestartNow <==> RestartDue(c, h, n, id) && !RestartedBy(c, h, n, id, n - 1)
    requires verdict == CutNow ==> tr.cutAt.None?
    ensures TrackMeans(c, h, n, id, Marked(tr, verdict, h[n - 1].now))
  {
    hide CutDue;
    assert RestartedBy(c, h, n, id, n) <==> RestartedBy(c, h, n, id, n - 1) || RestartDue(c, h, n, id) by {
      hide RestartDue;
    }
    hide RestartDue, RestartedBy;
    if tr.cutAt.None? && verdict != CutNow {
      assert forall m :: SpanStart(h, n, id) < m < n ==> !CutDue(c, h, m, id);
    }
  }

  lemma {:induction false} TracksMean(c: Config, h: seq<Sample>, n: nat, id: int)
    requires 0 < n <= |h| && InOrder(h) && c.budget > 0
    ensures id in Tracks(c, h, n) <==> Reading(h[n - 1].slots, id).Some?
    ensures id in Tracks(c, h, n) ==> TrackMeans(c, h, n, id, Tracks(c, h, n)[id])
    ensures VerdictAt(c, h, n, id) == CutNow <==> FirstDue(c, h, n, id, n)
    ensures VerdictAt(c, h, n, id) == RestartNow <==>
              RestartDue(c, h, n, id) && !RestartedBy(c, h, n, id, n - 1)
    decreases n, 1
  {
    FoldedMean(c, h, n);
    var folded := FoldAll(Tracks(c, h, n - 1), h[n - 1].slots, h[n - 1].now);
    if id in folded {
      CutVerdict(c, h, n, folded, id);
      RestartVerdict(c, h, n, folded, id);
      MarkedMeans(c, h, n, id, folded[id], Judge(c, folded, id, h[n - 1].now));
    } else {
      assert !FirstDue(c, h, n, id, n);
      assert !RestartDue(c, h, n, id);
    }
  }

  lemma {:induction false} FoldedMean(c: Config, h: seq<Sample>, n: nat)
    requires 0 < n <= |h| && InOrder(h) && c.budget > 0
    ensures AllFolded(c, h, n, FoldAll(Tracks(c, h, n - 1), h[n - 1].slots, h[n - 1].now))
    decreases n, 0
  {
    var folded := FoldAll(Tracks(c, h, n - 1), h[n - 1].slots, h[n - 1].now);
    forall o
      ensures o in folded <==> Reading(h[n - 1].slots, o).Some?
      ensures o in folded ==> FoldMeans(c, h, n, o, folded[o])
    {
      PrefillingIsRead(h[n - 1].slots, o);
      if o in folded {
        if n > 1 {
          TracksMean(c, h, n - 1, o);
        }
        FoldKeepsMeaning(c, h, n, o);
      }
    }
  }

  /** A flat span is cut once and restarted once, the restart at least restartAfter after the cut. */
  lemma OncePerSpan(c: Config, h: seq<Sample>, n: nat, id: int, earlier: nat)
    requires 0 < earlier < n <= |h| && InOrder(h) && c.budget > 0
    requires FlatFrom(h, n, id, earlier - 1)
    ensures VerdictAt(c, h, earlier, id) == CutNow ==> VerdictAt(c, h, n, id) != CutNow
    ensures VerdictAt(c, h, earlier, id) == RestartNow ==> VerdictAt(c, h, n, id) != RestartNow
  {
    TracksMean(c, h, n, id);
    TracksMean(c, h, earlier, id);
    assert Reading(h[n - 1].slots, id).Some?;
    SpanStartIsEarliest(h, n, id);
    SpanStartSame(h, n, id, earlier);
  }

  lemma {:induction false} RestartFollowsCut(c: Config, h: seq<Sample>, n: nat, id: int)
    requires 0 < n <= |h| && InOrder(h) && c.budget > 0 && VerdictAt(c, h, n, id) == RestartNow
    ensures exists m: nat :: 0 < m < n && VerdictAt(c, h, m, id) == CutNow && FlatFrom(h, n, id, m - 1)
                             && h[n - 1].now - h[m - 1].now >= c.restartAfter > 0
  {
    hide CutDue, FlatFrom, VerdictAt, Steady, RestartedBy, SpanStart, Tracks, Reading;
    TracksMean(c, h, n, id);
    var m: nat :| FirstDue(c, h, n, id, m) && h[n - 1].now - h[m - 1].now >= c.restartAfter;
    VerdictNeedsReading(c, h, n, id);
    SpanStartIsEarliest(h, n, id);
    SpanStartSame(h, n, id, m);
    TracksMean(c, h, m, id);
  }

  lemma VerdictNeedsReading(c: Config, h: seq<Sample>, n: nat, id: int)
    requires 0 < n <= |h| && VerdictAt(c, h, n, id) != Quiet
    ensures Reading(h[n - 1].slots, id).Some?
  {
    PrefillingIsRead(h[n - 1].slots, id);
  }

  /** Tracks looks only at the samples it is given. */
  lemma {:induction false} TracksOfPrefix(c: Config, h: seq<Sample>, x: Sample, n: nat)
    requires n <= |h|
    ensures Tracks(c, h + [x], n) == Tracks(c, h, n)
  {
    hide FoldAll, Judged;
    if n > 0 {
      TracksOfPrefix(c, h, x, n - 1);
      assert (h + [x])[n - 1] == h[n - 1];
    }
  }

  lemma TracksNext(c: Config, h: seq<Sample>, x: Sample)
    ensures Tracks(c, h + [x], |h| + 1) == Judged(c, FoldAll(Tracks(c, h, |h|), x.slots, x.now), x.now)
  {
    TracksOfPrefix(c, h, x, |h|);
    hide FoldAll, Judged;
  }

  /** What the last two loops of observe find, put in terms of the history. */
  lemma VerdictsMean(c: Config, h: seq<Sample>, was: map<int, SlotTrack>, id: int)
    requires |h| > 0 && InOrder(h) && c.budget > 0 && was == Tracks(c, h, |h| - 1)
    ensures var folded := FoldAll(was, h[|h| - 1].slots, h[|h| - 1].now);
            && (id in folded ==> folded[id].since == h[SpanStart(h, |h|, id)].now)
            && ((id in folded && Judge(c, folded, id, h[|h| - 1].now) == CutNow) <==> FirstDue(c, h, |h|, id, |h|))
            && ((id in folded && Judge(c, folded, id, h[|h| - 1].now) == RestartNow) <==>
                RestartDue(c, h, |h|, id) && !RestartedBy(c, h, |h|, id, |h| - 1))
  {
    TracksMean(c, h, |h|, id);
    FoldedMean(c, h, |h|);
    hide FirstDue, RestartDue, RestartedBy;
  }

  /** One row more. */
  lemma FoldedStep(tracks: map<int, SlotTrack>, slots: seq<UpstreamSlot>, s: UpstreamSlot, now: int, id: int)
    ensures id in Prefilling(slots + [s]) <==> id in Prefilling(slots) || (s.InPrefill() && s.id == id)
    ensures Reading(slots + [s], id) == if s.InPrefill() && s.id == id then Some(Shown(s.idTask, s.processed))
              else Reading(slots, id)
    ensures Reading(slots, id).Some? && (!s.InPrefill() || s.id != id) ==>
              Folded(tracks, slots + [s], now, id) == Folded(tracks, slots, now, id)
    ensures s.InPrefill() && s.id == id ==>
              var shown := Shown(s.idTask, s.processed);
              var tr := if Reading(slots, id).Some? then Some(Folded(tracks, slots, now, id))
                        else if id in tracks then Some(tracks[id]) else None;
              Folded(tracks, slots + [s], now, id) ==
                if tr.None? || tr.value.shown != shown then SlotTrack(shown, now, now, None, false)
                else tr.value.(lastSeen := now)
  {
    var more := slots + [s];
    assert more[..|more| - 1] == slots;
    PrefillingIsRead(slots, id);
    PrefillingIsRead(more, id);
    assert forall r :: r in more <==> r in slots || r == s;
    forall shown
      ensures Steady(more, id, shown) <==>
                if s.InPrefill() && s.id == id
                then shown == Shown(s.idTask, s.processed) && (Reading(slots, id).None? || Steady(slots, id, shown))
                else Steady(slots, id, shown)
    {
      assert s in more;
      assert Reading(slots, id).None? ==> forall r <- slots :: !(r.InPrefill() && r.id == id);
    }
  }

  /** The rows so far are in the tracks; tracks of slots not seen yet are as they were. */
  ghost predicate RowsFolded(was: map<int, SlotTrack>, rows: seq<UpstreamSlot>, now: int,
                             tracks: map<int, SlotTrack>, present: set<int>) {
    forall id :: SlotFolded(was, rows, now, tracks, present, id)
  }

  /** The same of one slot. */
  ghost predicate SlotFolded(was: map<int, SlotTrack>, rows: seq<UpstreamSlot>, now: int,
                             tracks: map<int, SlotTrack>, present: set<int>, id: int)
  {
    if Reading(rows, id).Some? then id in present && id in tracks && tracks[id] == Folded(was, rows, now, id)
    else id !in present && (id in tracks <==> id in was) && (id in was ==> tracks[id] == was[id])
  }

  lemma RowsDone(was: map<int, SlotTrack>, rows: seq<UpstreamSlot>, now: int, tracks: map<int, SlotTrack>,
                 present: set<int>)
    requires RowsFolded(was, rows, now, tracks, present)
    ensures present == Prefilling(rows) && present <= tracks.Keys
    ensures forall id :: id in present ==> Reading(rows, id).Some? && tracks[id] == Folded(was, rows, now, id)
  {
    var prefilling := Prefilling(rows);
    forall id
      ensures id in present <==> id in prefilling
    {
      assert SlotFolded(was, rows, now, tracks, present, id);
      PrefillingIsRead(rows, id);
    }
    forall id | id in present
      ensures id in tracks && Reading(rows, id).Some? && tracks[id] == Folded(was, rows, now, id)
    {
      assert SlotFolded(was, rows, now, tracks, present, id);
    }
  }

  /** The track a row leaves. */
  function RowTrack(tracks: map<int, SlotTrack>, s: UpstreamSlot, now: int): SlotTrack {
    var shown := Shown(s.idTask, s.processed);
    if s.id !in tracks || tracks[s.id].shown != shown then SlotTrack(shown, now, now, None, false)
    else tracks[s.id].(lastSeen := now)
  }

  /** What one row does to the tracks. */
  lemma NextRow(was: map<int, SlotTrack>, rows: seq<UpstreamSlot>, s: UpstreamSlot, now: int,
                tracks: map<int, SlotTrack>, present: set<int>)
    requires RowsFolded(was, rows, now, tracks, present)
    ensures !s.InPrefill() ==> RowsFolded(was, rows + [s], now, tracks, present)
    ensures s.InPrefill() ==> RowsFolded(was, rows + [s], now, tracks[s.id := RowTrack(tracks, s, now)],
              present + {s.id})
  {
    hide Folded, Reading;
    var next, more := tracks[s.id := RowTrack(tracks, s, now)], present + {s.id};
    forall id
      ensures if s.InPrefill() then SlotFolded(was, rows + [s], now, next, more, id)
              else SlotFolded(was, rows + [s], now, tracks, present, id)
    {
      assert SlotFolded(was, rows, now, tracks, present, id);
      FoldedStep(was, rows, s, now, id);
    }
    hide SlotFolded;
    if s.InPrefill() {
      assert RowsFolded(was, rows + [s], now, next, more);
    }
  }

  // ----- The same in terms of the rows -----

  /** The row says that slot id works on its prompt: it processes, has decoded nothing and has not finished
      the prompt, whose length may not be known yet. */
  predicate WorksOnPrompt(s: UpstreamSlot, id: int) {
    s.id == id && s.processing && s.decoded == 0 && !(s.nPrompt != 0 && s.nPrompt <= s.processed)
  }

  predicate AnyWorks(slots: seq<UpstreamSlot>, id: int) {
    exists i :: 0 <= i < |slots| && WorksOnPrompt(slots[i], id)
  }

  /** The last such row is for this task and count. */
  ghost predicate ShowsLast(slots: seq<UpstreamSlot>, id: int, task: int, count: int) {
    exists i :: 0 <= i < |slots| && WorksOnPrompt(slots[i], id) && slots[i].idTask == task
        && slots[i].processed == count && forall k :: i < k < |slots| ==> !WorksOnPrompt(slots[k], id)
  }

  /** There is such a row, and all of them are for this task and count. */
  predicate ShowsOnly(slots: seq<UpstreamSlot>, id: int, task: int, count: int) {
    && AnyWorks(slots, id)
    && forall i :: 0 <= i < |slots| && WorksOnPrompt(slots[i], id) ==>
         slots[i].idTask == task && slots[i].processed == count
  }

  /** From sample j to sample n - 1 slot id works on one prompt and stands at one count. */
  ghost predicate Stands(h: seq<Sample>, n: nat, id: int, j: nat, task: int, count: int)
    requires n <= |h|
  {
    && j < n && ShowsLast(h[j].slots, id, task, count)
    && forall k :: j < k < n ==> ShowsOnly(h[k].slots, id, task, count)
  }

  ghost predicate ShowsPositive(slots: seq<UpstreamSlot>, id: int) {
    exists task: int, count: int :: ShowsLast(slots, id, task, count) && count > 0
  }

  /** It stands from sample j on, at whatever count. */
  ghost predicate StandsFrom(h: seq<Sample>, n: nat, id: int, j: nat)
    requires n <= |h|
  {
    exists task: int, count: int :: Stands(h, n, id, j, task, count)
  }

  /** It has stood for d. */
  ghost predicate StandsFor(h: seq<Sample>, n: nat, id: int, d: int)
    requires 0 < n <= |h|
  {
    exists j: nat :: j < n && StandsFrom(h, n, id, j) && h[n - 1].now - h[j].now >= d
  }

  /** Slot id has stood for the budget, at a positive count, and so has every other slot that works on a
      prompt, at any count. */
  ghost predicate Stalled(c: Config, h: seq<Sample>, n: nat, id: int)
    requires 0 < n <= |h|
  {
    && StandsFor(h, n, id, c.budget)
    && ShowsPositive(h[n - 1].slots, id)
    && forall o :: AnyWorks(h[n - 1].slots, o) && o != id ==> StandsFor(h, n, o, c.budget)
  }

  lemma {:induction false} ReadingMeans(slots: seq<UpstreamSlot>, id: int)
    ensures Reading(slots, id).Some? <==> AnyWorks(slots, id)
    ensures Reading(slots, id).Some? ==>
              ShowsLast(slots, id, Reading(slots, id).value.idTask, Reading(slots, id).value.processed)
  {
    if slots != [] {
      var front, last := slots[..|slots| - 1], slots[|slots| - 1];
      ReadingMeans(front, id);
      assert forall i :: 0 <= i < |front| ==> front[i] == slots[i];
      if !WorksOnPrompt(last, id) && Reading(slots, id).Some? {
        var shown := Reading(slots, id).value;
        var i :| 0 <= i < |front| && WorksOnPrompt(front[i], id) && front[i].idTask == shown.idTask
          && front[i].processed == shown.processed && forall k :: i < k < |front| ==> !WorksOnPrompt(front[k], id);
        assert WorksOnPrompt(slots[i], id) && forall k :: i < k < |slots| ==> !WorksOnPrompt(slots[k], id);
      }
    }
  }

  lemma ShowsMeans(slots: seq<UpstreamSlot>, id: int, task: int, count: int)
    ensures ShowsLast(slots, id, task, count) <==> Reading(slots, id) == Some(Shown(task, count))
    ensures ShowsOnly(slots, id, task, count) <==> Steady(slots, id, Shown(task, count))
  {
    ReadingMeans(slots, id);
    assert forall s <- slots :: (s.InPrefill() && s.id == id) == WorksOnPrompt(s, id);
    hide Reading, UpstreamSlot.InPrefill, WorksOnPrompt;
    if ShowsOnly(slots, id, task, count) {
      var shown := Reading(slots, id).value;
      assert shown == Shown(task, count);
    }
  }

  lemma StandsMeans(h: seq<Sample>, n: nat, id: int, j: nat)
    requires n <= |h|
    ensures FlatFrom(h, n, id, j) <==> StandsFrom(h, n, id, j)
  {
    hide Reading, Steady, ShowsLast, ShowsOnly;
    forall k: nat, task: int, count: int | k < n
      ensures ShowsLast(h[k].slots, id, task, count) <==> Reading(h[k].slots, id) == Some(Shown(task, count))
      ensures ShowsOnly(h[k].slots, id, task, count) <==> Steady(h[k].slots, id, Shown(task, count))
    {
      ShowsMeans(h[k].slots, id, task, count);
    }
    if FlatFrom(h, n, id, j) {
      var shown := Reading(h[j].slots, id).value;
      assert shown == Shown(shown.idTask, shown.processed);
      assert Stands(h, n, id, j, shown.idTask, shown.processed);
    }
    if StandsFrom(h, n, id, j) {
      var task: int, count: int :| Stands(h, n, id, j, task, count);
      assert Reading(h[j].slots, id) == Some(Shown(task, count));
    }
  }

  lemma FlatMeans(h: seq<Sample>, n: nat, id: int, d: int)
    requires 0 < n <= |h|
    ensures Flat(h, n, id, d) <==> StandsFor(h, n, id, d)
  {
    forall j: nat
      ensures FlatFrom(h, n, id, j) <==> StandsFrom(h, n, id, j)
      ensures FlatFrom(h, n, id, j) ==> j < n
    {
      StandsMeans(h, n, id, j);
    }
    hide FlatFrom, StandsFrom;
  }

  /** A cut is due exactly for a stalled slot, as its rows show it. */
  lemma CutDueMeans(c: Config, h: seq<Sample>, n: nat, id: int)
    requires 0 < n <= |h|
    ensures CutDue(c, h, n, id) <==> Stalled(c, h, n, id)
  {
    var slots := h[n - 1].slots;
    forall o
      ensures Flat(h, n, o, c.budget) <==> StandsFor(h, n, o, c.budget)
      ensures Reading(slots, o).Some? <==> AnyWorks(slots, o)
    {
      FlatMeans(h, n, o, c.budget);
      ReadingMeans(slots, o);
    }
    if Flat(h, n, id, c.budget) {
      FlatIsRead(h, n, id, c.budget);
    }
    forall task: int, count: int
      ensures ShowsLast(slots, id, task, count) <==> Reading(slots, id) == Some(Shown(task, count))
    {
      ShowsMeans(slots, id, task, count);
    }
    hide Flat, StandsFor, Reading, AnyWorks, ShowsLast;
    if Reading(slots, id).Some? {
      var shown := Reading(slots, id).value;
      assert shown == Shown(shown.idTask, shown.processed);
    }
  }

  lemma FlatIsRead(h: seq<Sample>, n: nat, id: int, d: int)
    requires 0 < n <= |h| && Flat(h, n, id, d)
    ensures Reading(h[n - 1].slots, id).Some?
  {
  }

  /** The span of a slot that works on its prompt: by its rows it has done so in every sample of the span,
      standing at one count of one task, and in no longer one. */
  lemma SpanShows(h: seq<Sample>, n: nat, id: int)
    requires 0 < n <= |h| && AnyWorks(h[n - 1].slots, id)
    ensures forall j: nat :: StandsFrom(h, n, id, j) <==> SpanStart(h, n, id) <= j < n
    ensures forall k: nat :: SpanStart(h, n, id) <= k < n ==> AnyWorks(h[k].slots, id)
  {
    ReadingMeans(h[n - 1].slots, id);
    SpanStartIsEarliest(h, n, id);
    forall j: nat
      ensures FlatFrom(h, n, id, j) <==> StandsFrom(h, n, id, j)
    {
      StandsMeans(h, n, id, j);
    }
    forall k: nat | SpanStart(h, n, id) <= k < n
      ensures AnyWorks(h[k].slots, id)
    {
      ReadingMeans(h[k].slots, id);
    }
  }

  lemma TrackedWorks(c: Config, h: seq<Sample>, id: int)
    requires |h| > 0 && InOrder(h) && c.budget > 0
    ensures id in Tracks(c, h, |h|) <==> AnyWorks(h[|h| - 1].slots, id)
    ensures FirstDue(c, h, |h|, id, |h|) ==> Stalled(c, h, |h|, id)
    ensures id in Tracks(c, h, |h|) ==>
              forall k: nat :: SpanStart(h, |h|, id) <= k < |h| ==> AnyWorks(h[k].slots, id)
  {
    hide Tracks, TrackMeans, VerdictAt, AnyWorks, CutDue, Stalled, SpanStart;
    TracksMean(c, h, |h|, id);
    ReadingMeans(h[|h| - 1].slots, id);
    CutDueMeans(c, h, |h|, id);
    if AnyWorks(h[|h| - 1].slots, id) {
      SpanShows(h, |h|, id);
    }
  }

  lemma JudgedKeys(c: Config, tracks: map<int, SlotTrack>, now: int)
    ensures Judged(c, tracks, now).Keys == tracks.Keys
  {
  }

  // ----- The watcher itself -----

  /** A granted request.  One off the stream path has no writer and cannot be cut. */
  datatype Holder = Holder(hasWriter: bool, granted: int)

  class Watch {
    const config: Config
    var holders: map<nat, Holder>
    var running: bool
    var tracks: map<int, SlotTrack>
    ghost var seen: seq<Sample>  // the samples of the running loop

    constructor (config: Config)
      requires config.budget > 0
      ensures Valid() && this.config == config && holders == map[]
    {
      this.config, holders, running, tracks, seen := config, map[], false, map[], [];
    }

    ghost predicate Valid()
      reads this
    {
      && config.budget > 0
      && (running <==> holders != map[])
      && InOrder(seen)
      && tracks == Tracks(config, seen, |seen|)
    }

    /** add: the poll loop starts, knowing nothing, with the first holder. */
    method Add(key: nat, h: Holder)
      requires Valid() && key !in holders
      modifies this`holders, this`running, this`tracks, this`seen
      ensures Valid() && running && holders == old(holders)[key := h]
      ensures old(running) ==> seen == old(seen) && tracks == old(tracks)
      ensures !old(running) ==> seen == [] && tracks == map[]
    {
      holders := holders[key := h];
      assert key in holders;
      if !running {
        running := true;
        tracks, seen := map[], [];
      }
    }

    /** The removal add returns; a second call does nothing. */
    method Remove(key: nat)
      requires Valid()
      modifies this`holders, this`running
      ensures Valid() && holders == old(holders) - {key}
    {
      if key in holders {
        holders := holders - {key};
        if |holders| == 0 && running {
          running := false;
        }
      }
    }

    /** cutHolders: every request without a token yet that was granted no later than flatSince. */
    method CutHolders(flatSince: int, preFirst: set<nat>) returns (cands: set<nat>)
      ensures forall k :: k in cands <==>
                k in holders && holders[k].hasWriter && holders[k].granted <= flatSince && k in preFirst
    {
      cands := {};
      var todo := holders.Keys;
      while todo != {}
        invariant todo <= holders.Keys
        invariant forall k :: k in cands <==>
                    k in holders && k !in todo && holders[k].hasWriter && holders[k].granted <= flatSince
                        && k in preFirst
        decreases |todo|
      {
        var k := AnyOf(todo);
        todo := todo - {k};
        if holders[k].hasWriter && holders[k].granted <= flatSince && k in preFirst {
          cands := cands + {k};
        }
      }
    }

    /** observe: folds one answered sample in.  Maps are iterated in any order. */
    method Observe(slots: seq<UpstreamSlot>, now: int, preFirst: set<nat>)
      returns (cuts: set<int>, restarts: set<int>, victims: set<nat>)
      requires Valid() && running && (seen != [] ==> seen[|seen| - 1].now <= now)
      modifies this`tracks, this`seen
      ensures Valid() && seen == old(seen) + [Sample(slots, now)]
      ensures forall id :: id in cuts <==> FirstDue(config, seen, |seen|, id, |seen|)
      ensures forall id :: id in restarts <==>
                RestartDue(config, seen, |seen|, id) && !RestartedBy(config, seen, |seen|, id, |seen| - 1)
      ensures forall k :: k in victims <==>
                k in holders && holders[k].hasWriter && k in preFirst &&
                exists id :: id in cuts && holders[k].granted <= seen[SpanStart(seen, |seen|, id)].now
      // only slots whose rows show work on a prompt are tracked, and only they are cut or restarted
      ensures forall id :: id in tracks <==> AnyWorks(slots, id)
      ensures forall id :: id in cuts ==> Stalled(config, seen, |seen|, id)
      ensures forall id :: id in cuts + restarts ==>
                forall k: nat :: SpanStart(seen, |seen|, id) <= k < |seen| ==> AnyWorks(seen[k].slots, id)
    {
      hide FoldAll, FirstDue, RestartDue, RestartedBy, SpanStart, Judge, Judged, Tracks, AnyWorks, Stalled;
      ghost var was := tracks;
      Fold(slots, now);
      ghost var folded := tracks;
      cuts, restarts, victims := JudgeAll(now, preFirst);
      seen := seen + [Sample(slots, now)];
      TracksOfPrefix(config, old(seen), Sample(slots, now), |old(seen)|);
      TracksNext(config, old(seen), Sample(slots, now));
      forall id
        ensures id in folded ==> folded[id].since == seen[SpanStart(seen, |seen|, id)].now
        ensures id in folded && Judge(config, folded, id, now) == CutNow <==> FirstDue(config, seen, |seen|, id, |seen|)
        ensures id in folded && Judge(config, folded, id, now) == RestartNow <==>
                  RestartDue(config, seen, |seen|, id) && !RestartedBy(config, seen, |seen|, id, |seen| - 1)
      {
        VerdictsMean(config, seen, was, id);
      }
      forall id
        ensures id in tracks <==> AnyWorks(slots, id)
        ensures FirstDue(config, seen, |seen|, id, |seen|) ==> Stalled(config, seen, |seen|, id)
        ensures id in tracks ==>
                  forall k: nat :: SpanStart(seen, |seen|, id) <= k < |seen| ==> AnyWorks(seen[k].slots, id)
      {
        TrackedWorks(config, seen, id);
      }
      assert forall id :: id in cuts + restarts ==> id in tracks by {
        JudgedKeys(config, folded, now);
      }
    }

    /** The first two loops of observe. */
    method Fold(slots: seq<UpstreamSlot>, now: int)
      modifies this`tracks
      ensures tracks == FoldAll(old(tracks), slots, now)
    {
      var present := FoldRows(slots, now);
      var todo := tracks.Keys;
      ghost var rows := tracks;
      while todo != {}
        invariant tracks.Keys <= rows.Keys && present <= tracks.Keys && tracks.Keys <= present + todo
        invariant forall id :: id in tracks ==> tracks[id] == rows[id]
        decreases |todo|
      {
        var id := AnyOf(todo);
        todo := todo - {id};
        if id !in present {
          tracks := tracks - {id};
        }
      }
    }

    /** The loop over the rows. */
    method FoldRows(slots: seq<UpstreamSlot>, now: int) returns (present: set<int>)
      modifies this`tracks
      ensures present == Prefilling(slots) && present <= tracks.Keys
      ensures forall id :: id in present ==>
                Reading(slots, id).Some? && tracks[id] == Folded(old(tracks), slots, now, id)
    {
      ghost var was := tracks;
      present := {};
      assert RowsFolded(was, slots[..0], now, tracks, present);
      hide RowsFolded;
      for i := 0 to |slots|
        invariant RowsFolded(was, slots[..i], now, tracks, present)
      {
        var s := slots[i];
        assert slots[..i + 1] == slots[..i] + [s];
        NextRow(was, slots[..i], s, now, tracks, present);
        if s.InPrefill() {
          present := present + {s.id};
          var shown := Shown(s.idTask, s.processed);
          if s.id !in tracks || tracks[s.id].shown != shown {
            tracks := tracks[s.id := SlotTrack(shown, now, now, None, false)];
          } else {
            tracks := tracks[s.id := tracks[s.id].(lastSeen := now)];
          }
        }
      }
      assert slots[..|slots|] == slots;
      RowsDone(was, slots, now, tracks, present);
    }

    /** The last loop of observe. */
    method JudgeAll(now: int, preFirst: set<nat>) returns (cuts: set<int>, restarts: set<int>, victims: set<nat>)
      modifies this`tracks
      ensures tracks == Judged(config, old(tracks), now)
      ensures forall id :: id in cuts <==> id in old(tracks) && Judge(config, old(tracks), id, now) == CutNow
      ensures forall id :: id in restarts <==> id in old(tracks) && Judge(config, old(tracks), id, now) == RestartNow
      ensures forall k :: k in victims <==>
                k in holders && holders[k].hasWriter && k in preFirst &&
                exists id :: id in cuts && holders[k].granted <= old(tracks)[id].since
    {
      hide Judge;
      ghost var was := tracks;
      cuts, restarts, victims := {}, {}, {};
      var todo := tracks.Keys;
      while todo != {}
        invariant todo <= tracks.Keys == was.Keys
        invariant forall id :: id in was ==>
                    tracks[id] == if id in todo then was[id] else Marked(was[id], Judge(config, was, id, now), now)
        invariant forall id :: id in cuts <==> id in was && id !in todo && Judge(config, was, id, now) == CutNow
        invariant forall id :: id in restarts <==> id in was && id !in todo && Judge(config, was, id, now) == RestartNow
        invariant forall k :: k in victims <==>
                    k in holders && holders[k].hasWriter && k in preFirst &&
                    exists id :: id in cuts && holders[k].granted <= was[id].since
        decreases |todo|
      {
        var id := AnyOf(todo);
        todo := todo - {id};
        var cut, restart, cands := JudgeOne(id, now, preFirst, was);
        cuts, restarts, victims := if cut then cuts + {id} else cuts,
          if restart then restarts + {id} else restarts, victims + cands;
      }
    }

    /** The verdict on one slot. */
    method JudgeOne(id: int, now: int, preFirst: set<nat>, ghost was: map<int, SlotTrack>)
      returns (cut: bool, restart: bool, cands: set<nat>)
      requires id in tracks && tracks.Keys == was.Keys && tracks[id] == was[id]
      requires forall o <- was :: tracks[o].since == was[o].since
      modifies this`tracks
      ensures tracks == old(tracks)[id := Marked(was[id], Judge(config, was, id, now), now)]
      ensures cut <==> Judge(config, was, id, now) == CutNow
      ensures restart <==> Judge(config, was, id, now) == RestartNow
      ensures forall k :: k in cands <==>
                cut && k in holders && holders[k].hasWriter && k in preFirst && holders[k].granted <= was[id].since
    {
      hide OtherSlotAdvancing;
      cut, restart, cands := false, false, {};
      var tr := tracks[id];
      assert tracks == tracks[id := tr];
      if tr.shown.processed > 0 && tr.lastSeen - tr.since >= config.budget {
        if tr.cutAt.None? {
          var advancing := AnyOtherAdvancing(id, now);
          SameSince(config, was, tracks, id, now);
          if !advancing {
            tracks := tracks[id := tr.(cutAt := Some(now))];
            cut := true;
            cands := CutHolders(tr.since, preFirst);
          }
        } else if config.restartAfter > 0 && !tr.restarted && now - tr.cutAt.value >= config.restartAfter {
          tracks := tracks[id := tr.(restarted := true)];
          restart := true;
        }
      }
    }

    /** otherSlotAdvancing */
    method AnyOtherAdvancing(id: int, now: int) returns (advancing: bool)
      ensures advancing == OtherSlotAdvancing(config, tracks, id, now)
    {
      var todo := tracks.Keys;
      while todo != {}
        invariant todo <= tracks.Keys
        invariant forall o :: o in tracks && o !in todo && o != id ==> now - tracks[o].since >= config.budget
        decreases |todo|
      {
        var o := AnyOf(todo);
        todo := todo - {o};
        if o != id && now - tracks[o].since < config.budget {
          return true;
        }
      }
      return false;
    }
  }
}
