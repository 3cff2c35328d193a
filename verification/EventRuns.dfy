/**
  Runs of a consumer group (internal/event/event.go:183-303): what the mark "stuck" says about the wait
  of the broadcaster that set it, when it is lifted, and that events are lost only while it is in force.
 */
module EventRuns {
  import opened Basics
  import opened EventGroup

  /** `ms` are the moments of a run, `acts[i]` the step from moment i to moment i + 1. */
  ghost predicate IsRun(maxQueue: Positive, ms: seq<Moment>, acts: seq<Act>) {
    && |ms| == |acts| + 1
    && forall i :: 0 <= i < |acts| ==> Acts(maxQueue, ms[i], acts[i], ms[i + 1])
  }

  /** Broadcaster id parks with step i and is still parked at moment j. */
  ghost predicate ParkedFrom(ms: seq<Moment>, acts: seq<Act>, id: nat, i: nat, j: nat)
    requires |ms| == |acts| + 1
  {
    && i < j < |ms|
    && acts[i].Arrived? && acts[i].id == id
    && forall k :: i < k <= j ==> id in ms[k].waits
  }

  ghost predicate FullAt(maxQueue: Positive, ms: seq<Moment>, c: Consumer, k: nat)
    requires k < |ms|
  {
    c in ms[k].views && IsFull(ms[k].views[c], maxQueue)
  }

  /** c is full at every moment of the wait. */
  ghost predicate FullThroughout(maxQueue: Positive, ms: seq<Moment>, c: Consumer, from: nat, last: nat)
    requires last < |ms|
  {
    forall k :: from <= k <= last ==> FullAt(maxQueue, ms, c, k)
  }

  /** c does not take its queue between moments from and to. */
  ghost predicate NotDrained(acts: seq<Act>, c: Consumer, from: nat, last: nat)
    requires last <= |acts|
  {
    forall k :: from <= k < last ==> acts[k] != Swapped(c)
  }

  // ----- One step -----

  /** A consumer stays full but for its own swap and its removal. */
  lemma StaysFull(maxQueue: Positive, m: Moment, act: Act, n: Moment, c: Consumer)
    requires Acts(maxQueue, m, act, n) && c in m.views && act != Swapped(c)
    ensures c in n.views
    ensures m.views[c].stop ==> n.views[c].stop
    ensures IsFull(m.views[c], maxQueue) && !n.views[c].stop ==> IsFull(n.views[c], maxQueue)
  {
  }

  lemma SwapEmpties(maxQueue: Positive, m: Moment, act: Act, n: Moment, c: Consumer)
    requires Acts(maxQueue, m, act, n) && act == Swapped(c)
    ensures !IsFull(n.views[c], maxQueue)
  {
  }

  lemma StopStays(maxQueue: Positive, m: Moment, act: Act, n: Moment, c: Consumer)
    requires Acts(maxQueue, m, act, n) && c in m.views && m.views[c].stop
    ensures c in n.views && n.views[c].stop
  {
  }

  /** Nothing fills a consumer but an event that is sent. */
  lemma FilledBySending(maxQueue: Positive, m: Moment, act: Act, n: Moment, c: Consumer)
    requires Acts(maxQueue, m, act, n)
    ensures m.sent <= n.sent
    ensures n.sent == m.sent && c in n.views && IsFull(n.views[c], maxQueue) ==>
              c in m.views && IsFull(m.views[c], maxQueue)
  {
  }

  lemma WaitStays(maxQueue: Positive, m: Moment, act: Act, n: Moment, id: nat)
    requires Acts(maxQueue, m, act, n) && id in m.waits && id in n.waits
    ensures n.waits[id] == m.waits[id]
  {
  }

  // ----- The wait -----

  /** A consumer that is full when a wait is given up was full all through it if and only if it was full
      when the broadcaster parked and has not taken its queue since. */
  lemma {:induction false} FullThroughoutExactly(maxQueue: Positive, ms: seq<Moment>, acts: seq<Act>, c: Consumer,
                                                 from: nat, last: nat)
    requires IsRun(maxQueue, ms, acts) && from <= last < |ms| && FullAt(maxQueue, ms, c, last)
    ensures FullThroughout(maxQueue, ms, c, from, last) <==>
              FullAt(maxQueue, ms, c, from) && NotDrained(acts, c, from, last)
    decreases |ms| - from
  {
    hide Acts;
    if FullThroughout(maxQueue, ms, c, from, last) {
      forall k | from <= k < last
        ensures acts[k] != Swapped(c)
      {
        assert FullAt(maxQueue, ms, c, k + 1);
        if acts[k] == Swapped(c) {
          SwapEmpties(maxQueue, ms[k], acts[k], ms[k + 1], c);
        }
      }
    }
    if FullAt(maxQueue, ms, c, from) && NotDrained(acts, c, from, last) && from < last {
      StaysFull(maxQueue, ms[from], acts[from], ms[from + 1], c);
      if ms[from + 1].views[c].stop {
        StoppedForGood(maxQueue, ms, acts, c, from + 1, last);
      }
      FullThroughoutExactly(maxQueue, ms, acts, c, from + 1, last);
    }
  }

  lemma {:induction false} StoppedForGood(maxQueue: Positive, ms: seq<Moment>, acts: seq<Act>, c: Consumer, from: nat,
                                          last: nat)
    requires IsRun(maxQueue, ms, acts) && from <= last < |ms| && c in ms[from].views && ms[from].views[c].stop
    ensures c in ms[last].views && ms[last].views[c].stop
    decreases |ms| - from
  {
    hide Acts;
    if from < last {
      StopStays(maxQueue, ms[from], acts[from], ms[from + 1], c);
      StoppedForGood(maxQueue, ms, acts, c, from + 1, last);
    }
  }

  /** When nothing was sent during the wait, as with a sole publisher, whoever is full at its end was full
      all through it. */
  lemma {:induction false} SolePublisher(maxQueue: Positive, ms: seq<Moment>, acts: seq<Act>, c: Consumer, from: nat,
                                         last: nat)
    requires IsRun(maxQueue, ms, acts) && from <= last < |ms| && FullAt(maxQueue, ms, c, last)
              && ms[from].sent == ms[last].sent
    ensures FullThroughout(maxQueue, ms, c, from, last)
    decreases last
  {
    hide Acts;
    if from < last {
      SentGrows(maxQueue, ms, acts, from, last - 1);
      FilledBySending(maxQueue, ms[last - 1], acts[last - 1], ms[last], c);
      SolePublisher(maxQueue, ms, acts, c, from, last - 1);
    }
  }

  lemma {:induction false} SentGrows(maxQueue: Positive, ms: seq<Moment>, acts: seq<Act>, from: nat, last: nat)
    requires IsRun(maxQueue, ms, acts) && from <= last < |ms|
    ensures ms[from].sent <= ms[last].sent
    decreases last
  {
    hide Acts;
    if from < last {
      SentGrows(maxQueue, ms, acts, from, last - 1);
      SentGrowsBy(maxQueue, ms[last - 1], acts[last - 1], ms[last]);
    }
  }

  lemma SentGrowsBy(maxQueue: Positive, m: Moment, act: Act, n: Moment)
    requires Acts(maxQueue, m, act, n)
    ensures m.sent <= n.sent
  {
  }

  /** A parked broadcaster keeps its event and the time it parked. */
  lemma {:induction false} WaitKept(maxQueue: Positive, ms: seq<Moment>, acts: seq<Act>, id: nat, i: nat, j: nat)
    requires IsRun(maxQueue, ms, acts) && ParkedFrom(ms, acts, id, i, j)
    ensures ms[j].waits[id] == Wait(acts[i].ev, acts[i].now)
    decreases j
  {
    if i + 1 < j {
      hide Acts;
      WaitKept(maxQueue, ms, acts, id, i, j - 1);
      WaitStays(maxQueue, ms[j - 1], acts[j - 1], ms[j], id);
    } else {
      assert id in ms[j].waits && Acts(maxQueue, ms[i], acts[i], ms[j]);
    }
  }

  // ----- The mark -----

  /** The meaning of a mark, in every run.  Broadcaster id parked with step i and gives up with step j.
      Exactly the consumers full at j bear the mark then.  One newly marked means that the wait lasted
      STUCK_WAIT.  And it was full all through the wait if and only if it was full when the broadcaster
      parked and never took its queue since; which is so for every one of them when nothing was sent. */
  lemma {:induction false} MarkMeans(maxQueue: Positive, ms: seq<Moment>, acts: seq<Act>, id: nat, i: nat, j: nat,
                                     c: Consumer)
    requires IsRun(maxQueue, ms, acts) && j < |acts| && ParkedFrom(ms, acts, id, i, j)
    requires acts[j].Woke? && acts[j].id == id && !ParksOn(maxQueue, ms[j], id, acts[j].now)
    requires c in ms[j].views && !ms[j].views[c].stuck
    ensures c in ms[j + 1].views && (ms[j + 1].views[c].stuck <==> FullAt(maxQueue, ms, c, j))
    ensures ms[j + 1].views[c].stuck ==> acts[j].now - acts[i].now >= STUCK_WAIT
    ensures ms[j + 1].views[c].stuck ==>
              (FullThroughout(maxQueue, ms, c, i + 1, j) <==>
                 FullAt(maxQueue, ms, c, i + 1) && NotDrained(acts, c, i + 1, j))
    ensures ms[j + 1].views[c].stuck && ms[i + 1].sent == ms[j].sent ==> FullThroughout(maxQueue, ms, c, i + 1, j)
  {
    WaitKept(maxQueue, ms, acts, id, i, j);
    GivenUpMarks(maxQueue, ms[j], acts[j], ms[j + 1], c);
    hide Acts, FullThroughout;
    if FullAt(maxQueue, ms, c, j) {
      FullThroughoutExactly(maxQueue, ms, acts, c, i + 1, j);
      if ms[i + 1].sent == ms[j].sent {
        SolePublisher(maxQueue, ms, acts, c, i + 1, j);
      }
    }
  }

  lemma GivenUpMarks(maxQueue: Positive, m: Moment, act: Act, n: Moment, c: Consumer)
    requires Acts(maxQueue, m, act, n) && act.Woke? && !ParksOn(maxQueue, m, act.id, act.now)
    requires c in m.views && !m.views[c].stuck
    ensures c in n.views && (n.views[c].stuck <==> IsFull(m.views[c], maxQueue))
    ensures n.views[c].stuck ==> act.now - m.waits[act.id].start >= STUCK_WAIT
  {
  }

  // ----- Losses, and the mark in force -----

  /** The step gives a mark to c. */
  ghost predicate NewlyMarks(m: Moment, n: Moment, c: Consumer) {
    c in m.views && c in n.views && !m.views[c].stuck && n.views[c].stuck
  }

  /** Position p of what was sent is dropped from c's queue by the step. */
  ghost predicate Drops(m: Moment, n: Moment, c: Consumer, p: nat) {
    c in m.views && c in n.views && p !in m.views[c].ledger.lost && p in n.views[c].ledger.lost
  }

  /** A step that changes what c has lost drops the oldest event of its full queue, and leaves c marked. */
  lemma LossMeans(maxQueue: Positive, m: Moment, act: Act, n: Moment, c: Consumer)
    requires Acts(maxQueue, m, act, n) && c in m.views
    ensures c in n.views
    ensures var v, w := m.views[c], n.views[c]; var oldest := |v.handled + v.rest|;
            w.ledger.lost != v.ledger.lost ==>
              && IsFull(v, maxQueue) && w.stuck && n.sent == m.sent + 1
              && oldest < |v.ledger.got| && w.ledger.lost == v.ledger.lost + {v.ledger.got[oldest]}
  {
    if !AnyFull(m.views, maxQueue) && IsFull(m.views[c], maxQueue) {
      assert m.views[c].stuck;
    }
  }

  /** A mark is lifted exactly when its consumer takes a queue that is not empty, and set exactly on the
      consumers full when a broadcaster gives up its wait. */
  lemma MarkChanges(maxQueue: Positive, m: Moment, act: Act, n: Moment, c: Consumer)
    requires Acts(maxQueue, m, act, n) && c in m.views
    ensures c in n.views
    ensures m.views[c].stuck ==> (!n.views[c].stuck <==> act == Swapped(c) && m.views[c].queue != [])
    ensures !m.views[c].stuck ==>
              (n.views[c].stuck <==>
                 act.Woke? && !ParksOn(maxQueue, m, act.id, act.now) && IsFull(m.views[c], maxQueue))
    ensures NewlyMarks(m, n, c) ==> act.now - m.waits[act.id].start >= STUCK_WAIT
  {
  }

  /** A marked consumer is full, and stays so until it takes its queue. */
  lemma MarkedStaysFull(maxQueue: Positive, m: Moment, act: Act, n: Moment, c: Consumer)
    requires Acts(maxQueue, m, act, n) && c in m.views && (m.views[c].stuck ==> |m.views[c].queue| >= maxQueue)
    ensures c in n.views && (n.views[c].stuck ==> |n.views[c].queue| >= maxQueue)
  {
  }

  lemma OnlyAddedIsNew(maxQueue: Positive, m: Moment, act: Act, n: Moment, c: Consumer)
    requires Acts(maxQueue, m, act, n) && c !in m.views && c in n.views
    ensures !n.views[c].stuck && n.views[c].ledger.lost == {}
  {
  }

  /** A mark set with step j is in force at moment k: c has not taken its queue in between. */
  ghost predicate InForce(ms: seq<Moment>, acts: seq<Act>, c: Consumer, j: nat, k: nat)
    requires |ms| == |acts| + 1 && k < |ms|
  {
    j < k && NewlyMarks(ms[j], ms[j + 1], c) && NotDrained(acts, c, j + 1, k)
  }

  /** The step j gave up a wait of STUCK_WAIT with c full. */
  ghost predicate GaveUpOn(maxQueue: Positive, ms: seq<Moment>, acts: seq<Act>, c: Consumer, j: nat)
    requires |ms| == |acts| + 1 && j < |acts|
  {
    && FullAt(maxQueue, ms, c, j)
    && acts[j].Woke? && acts[j].id in ms[j].waits && acts[j].now - ms[j].waits[acts[j].id].start >= STUCK_WAIT
  }

  lemma {:induction false} MarkedIsFull(maxQueue: Positive, ms: seq<Moment>, acts: seq<Act>, c: Consumer, k: nat)
    requires IsRun(maxQueue, ms, acts) && c !in ms[0].views && k < |ms|
    ensures c in ms[k].views && ms[k].views[c].stuck ==> |ms[k].views[c].queue| >= maxQueue
  {
    hide Acts;
    if k > 0 {
      MarkedIsFull(maxQueue, ms, acts, c, k - 1);
      if c in ms[k - 1].views {
        MarkedStaysFull(maxQueue, ms[k - 1], acts[k - 1], ms[k], c);
      } else if c in ms[k].views {
        OnlyAddedIsNew(maxQueue, ms[k - 1], acts[k - 1], ms[k], c);
      }
    }
  }

  /** A consumer is marked at moment k exactly when a broadcaster gave up on it, full, after a wait of
      STUCK_WAIT, and it has not taken its queue since: taking it makes it eligible for flow control again. */
  lemma {:induction false} MarkInForce(maxQueue: Positive, ms: seq<Moment>, acts: seq<Act>, c: Consumer, k: nat)
    requires IsRun(maxQueue, ms, acts) && c !in ms[0].views && k < |ms|
    ensures c in ms[k].views && ms[k].views[c].stuck <==> exists j: nat :: InForce(ms, acts, c, j, k)
    ensures forall j: nat :: InForce(ms, acts, c, j, k) ==> GaveUpOn(maxQueue, ms, acts, c, j)
  {
    hide Acts;
    forall j: nat | InForce(ms, acts, c, j, k)
      ensures GaveUpOn(maxQueue, ms, acts, c, j) && c in ms[k].views && ms[k].views[c].stuck
    {
      NewMarkGaveUp(maxQueue, ms, acts, c, j);
      MarkLasts(maxQueue, ms, acts, c, j + 1, k);
    }
    if c in ms[k].views && ms[k].views[c].stuck {
      var j := LatestMark(maxQueue, ms, acts, c, k);
    }
  }

  lemma NewMarkGaveUp(maxQueue: Positive, ms: seq<Moment>, acts: seq<Act>, c: Consumer, j: nat)
    requires IsRun(maxQueue, ms, acts) && j < |acts| && NewlyMarks(ms[j], ms[j + 1], c)
    ensures GaveUpOn(maxQueue, ms, acts, c, j)
  {
    MarkChanges(maxQueue, ms[j], acts[j], ms[j + 1], c);
  }

  lemma {:induction false} MarkLasts(maxQueue: Positive, ms: seq<Moment>, acts: seq<Act>, c: Consumer, from: nat,
                                     last: nat)
    requires IsRun(maxQueue, ms, acts) && from <= last < |ms| && NotDrained(acts, c, from, last)
    requires c in ms[from].views && ms[from].views[c].stuck
    ensures c in ms[last].views && ms[last].views[c].stuck
    decreases |ms| - from
  {
    hide Acts;
    if from < last {
      MarkChanges(maxQueue, ms[from], acts[from], ms[from + 1], c);
      MarkLasts(maxQueue, ms, acts, c, from + 1, last);
    }
  }

  lemma {:induction false} LatestMark(maxQueue: Positive, ms: seq<Moment>, acts: seq<Act>, c: Consumer, k: nat)
    returns (j: nat)
    requires IsRun(maxQueue, ms, acts) && c !in ms[0].views && k < |ms| && c in ms[k].views && ms[k].views[c].stuck
    ensures InForce(ms, acts, c, j, k)
  {
    hide Acts;
    j := k - 1;
    if c !in ms[j].views {
      OnlyAddedIsNew(maxQueue, ms[j], acts[j], ms[k], c);
    } else if ms[j].views[c].stuck {
      MarkedIsFull(maxQueue, ms, acts, c, j);
      MarkChanges(maxQueue, ms[j], acts[j], ms[k], c);
      j := LatestMark(maxQueue, ms, acts, c, k - 1);
    }
  }

  /** The loss promise, in every run and for every event lost: it was dropped with a step k from a full
      consumer, the oldest event it had queued, and a mark was in force right then.  That mark was set by
      a broadcaster that had waited STUCK_WAIT, and the consumer has not taken its queue since. */
  lemma {:induction false} LostUnderMark(maxQueue: Positive, ms: seq<Moment>, acts: seq<Act>, c: Consumer, p: nat,
                                         last: nat)
    returns (j: nat, k: nat)
    requires IsRun(maxQueue, ms, acts) && c !in ms[0].views && last < |ms|
    requires c in ms[last].views && p in ms[last].views[c].ledger.lost
    ensures j <= k < last && Drops(ms[k], ms[k + 1], c, p)
    ensures FullAt(maxQueue, ms, c, k) && InForce(ms, acts, c, j, k + 1) && GaveUpOn(maxQueue, ms, acts, c, j)
    ensures var v := ms[k].views[c]; var oldest := |v.handled + v.rest|;
            oldest < |v.ledger.got| && v.ledger.got[oldest] == p
  {
    hide Acts;
    k := last - 1;
    if c !in ms[k].views {
      OnlyAddedIsNew(maxQueue, ms[k], acts[k], ms[last], c);
    } else if p in ms[k].views[c].ledger.lost {
      j, k := LostUnderMark(maxQueue, ms, acts, c, p, k);
    } else {
      LossMeans(maxQueue, ms[k], acts[k], ms[last], c);
      j := LatestMark(maxQueue, ms, acts, c, last);
      NewMarkGaveUp(maxQueue, ms, acts, c, j);
    }
  }

  /** Nothing is lost between a moment without a mark and the next mark. */
  lemma {:induction false} NoMarkNoLoss(maxQueue: Positive, ms: seq<Moment>, acts: seq<Act>, c: Consumer, from: nat,
                                        last: nat)
    requires IsRun(maxQueue, ms, acts) && from <= last < |ms| && c in ms[from].views && !ms[from].views[c].stuck
    requires forall j :: from <= j < last ==> !NewlyMarks(ms[j], ms[j + 1], c)
    ensures c in ms[last].views && !ms[last].views[c].stuck
    ensures ms[last].views[c].ledger.lost == ms[from].views[c].ledger.lost
    decreases |ms| - from
  {
    hide Acts;
    if from < last {
      LossMeans(maxQueue, ms[from], acts[from], ms[from + 1], c);
      NoMarkNoLoss(maxQueue, ms, acts, c, from + 1, last);
    }
  }

  /** Whoever takes its queue loses nothing until it is marked anew. */
  lemma {:induction false} DrainedIsLossless(maxQueue: Positive, ms: seq<Moment>, acts: seq<Act>, c: Consumer, i: nat,
                                             last: nat)
    requires IsRun(maxQueue, ms, acts) && c !in ms[0].views && i < last < |ms| && acts[i] == Swapped(c)
    requires forall j :: i < j < last ==> !NewlyMarks(ms[j], ms[j + 1], c)
    ensures c in ms[i].views && c in ms[last].views
    ensures !ms[i + 1].views[c].stuck && ms[last].views[c].ledger.lost == ms[i].views[c].ledger.lost
  {
    SwapLosesNothing(maxQueue, ms[i], acts[i], ms[i + 1], c);
    hide Acts;
    MarkedIsFull(maxQueue, ms, acts, c, i);
    MarkChanges(maxQueue, ms[i], acts[i], ms[i + 1], c);
    NoMarkNoLoss(maxQueue, ms, acts, c, i + 1, last);
  }

  lemma SwapLosesNothing(maxQueue: Positive, m: Moment, act: Act, n: Moment, c: Consumer)
    requires Acts(maxQueue, m, act, n) && act == Swapped(c)
    ensures c in m.views && c in n.views && n.views[c].ledger == m.views[c].ledger
  {
  }

  // ----- Room, and parking -----

  /** Some subscribed consumer has no room and is not given up on. */
  ghost predicate HoldsUp(maxQueue: Positive, m: Moment) {
    exists c <- m.views :: !m.views[c].stop && |m.views[c].queue| >= maxQueue && !m.views[c].stuck
  }

  /** A broadcast goes out at once exactly when no such consumer holds it up, and a parked one exactly when
      none does any more or its wait is over. */
  lemma ParksExactly(maxQueue: Positive, m: Moment, act: Act, n: Moment)
    requires Acts(maxQueue, m, act, n) && (act.Arrived? || act.Woke?)
    ensures act.Arrived? ==> (n.sent == m.sent + 1 <==> !HoldsUp(maxQueue, m))
    ensures act.Woke? ==>
              (n.sent == m.sent + 1 <==> !HoldsUp(maxQueue, m) || act.now - m.waits[act.id].start >= STUCK_WAIT)
    ensures act.id in n.waits <==> n.sent == m.sent
  {
    assert HoldsUp(maxQueue, m) ==>
        exists c <- m.views :: IsFull(m.views[c], maxQueue) && !m.views[c].stuck;
  }

  // ----- The end of a listener -----

  /** The step was taken by c's listener. */
  predicate IsOwn(act: Act, c: Consumer) {
    act == Swapped(c) || act == Handled(c)
  }

  /** What one step does to the end of c: only Removed(c) stops it, and its listener ends exactly when it
      comes to the lock with c stopped and nothing queued. */
  lemma EndChanges(maxQueue: Positive, m: Moment, act: Act, n: Moment, c: Consumer)
    requires Acts(maxQueue, m, act, n) && c in m.views
    ensures c in n.views
    ensures n.views[c].stop <==> m.views[c].stop || act == Removed(c)
    ensures n.views[c].exited <==>
              m.views[c].exited || (act == Swapped(c) && m.views[c].stop && m.views[c].queue == [])
  {
  }

  lemma NewIsLive(maxQueue: Positive, m: Moment, act: Act, n: Moment, c: Consumer)
    requires Acts(maxQueue, m, act, n) && c !in m.views
    ensures act != Removed(c) && !IsOwn(act, c)
    ensures c in n.views ==> n.views[c] == NewView(m.sent)
  {
  }

  /** c was removed before moment k. */
  ghost predicate RemovedBefore(acts: seq<Act>, c: Consumer, k: nat)
    requires k <= |acts|
  {
    exists j :: 0 <= j < k && acts[j] == Removed(c)
  }

  /** c's listener came to the lock before moment k, with c removed and nothing queued. */
  ghost predicate EndedBefore(ms: seq<Moment>, acts: seq<Act>, c: Consumer, k: nat)
    requires |ms| == |acts| + 1 && k < |ms|
  {
    exists j: nat :: j < k && EndsWith(ms, acts, c, j)
  }

  ghost predicate EndsWith(ms: seq<Moment>, acts: seq<Act>, c: Consumer, j: nat)
    requires |ms| == |acts| + 1 && j < |acts|
  {
    acts[j] == Swapped(c) && RemovedBefore(acts, c, j) && c in ms[j].views && ms[j].views[c].queue == []
  }

  /** In every run a consumer is stopped exactly when it was removed, and its listener has ended exactly when,
      after that, it came to the lock with nothing queued. */
  lemma {:induction false} EndsExactly(maxQueue: Positive, ms: seq<Moment>, acts: seq<Act>, c: Consumer, k: nat)
    requires IsRun(maxQueue, ms, acts) && c !in ms[0].views && k < |ms|
    ensures c in ms[k].views ==>
              && (ms[k].views[c].stop <==> RemovedBefore(acts, c, k))
              && (ms[k].views[c].exited <==> EndedBefore(ms, acts, c, k))
    ensures c !in ms[k].views ==> !RemovedBefore(acts, c, k) && !EndedBefore(ms, acts, c, k)
  {
    hide Acts;
    if k > 0 {
      EndsExactly(maxQueue, ms, acts, c, k - 1);
      assert RemovedBefore(acts, c, k) <==> RemovedBefore(acts, c, k - 1) || acts[k - 1] == Removed(c);
      EndedNext(ms, acts, c, k);
      hide EndedBefore, RemovedBefore;
      if c in ms[k - 1].views {
        EndChanges(maxQueue, ms[k - 1], acts[k - 1], ms[k], c);
      } else {
        NewIsLive(maxQueue, ms[k - 1], acts[k - 1], ms[k], c);
      }
    }
  }

  lemma EndedNext(ms: seq<Moment>, acts: seq<Act>, c: Consumer, k: nat)
    requires |ms| == |acts| + 1 && 0 < k < |ms|
    ensures EndedBefore(ms, acts, c, k) <==> EndedBefore(ms, acts, c, k - 1) || EndsWith(ms, acts, c, k - 1)
  {
    hide EndsWith;
  }

  /** How many steps of its own a stopped consumer's listener has left. */
  function StepsLeft(v: View): nat {
    if v.exited then 0
    else (if v.handling then |v.rest| + 1 else 0) + (if v.queue == [] then 1 else |v.queue| + 3)
  }

  /** What a listener that has ended, or is between two batches, has left undone. */
  ghost predicate Tidy(v: View) {
    (!v.handling ==> v.rest == []) && (v.exited ==> !v.handling && v.queue == [])
  }

  /** A stopped consumer gets nothing more; each step of its own brings its end nearer by one, and no other
      step touches it. */
  lemma StoppedStep(maxQueue: Positive, m: Moment, act: Act, n: Moment, c: Consumer)
    requires Acts(maxQueue, m, act, n) && c in m.views && m.views[c].stop && Tidy(m.views[c])
    ensures c in n.views && n.views[c].stop && Tidy(n.views[c])
    ensures n.views[c].Backlog() == m.views[c].Backlog()
    ensures !IsOwn(act, c) ==> n.views[c] == m.views[c]
    ensures IsOwn(act, c) ==> StepsLeft(n.views[c]) == StepsLeft(m.views[c]) - 1
  {
    var v := m.views[c];
    if act == Swapped(c) && v.queue != [] {
      assert v.AfterSwap().Backlog() == v.Backlog();
    } else if act == Handled(c) && v.rest != [] {
      assert v.AfterHandling().Backlog() == v.Backlog();
    }
  }

  lemma KeepsTidy(maxQueue: Positive, m: Moment, act: Act, n: Moment, c: Consumer)
    requires Acts(maxQueue, m, act, n) && c in m.views && !m.views[c].stop && Tidy(m.views[c]) && !m.views[c].exited
    ensures c in n.views && Tidy(n.views[c]) && !n.views[c].exited
  {
  }

  function OwnSteps(acts: seq<Act>, c: Consumer, from: nat, last: nat): nat
    requires from <= last <= |acts|
    decreases last - from
  {
    if from == last then 0
    else OwnSteps(acts, c, from, last - 1) + if IsOwn(acts[last - 1], c) then 1 else 0
  }

  /** From its removal on, a consumer's listener takes at most as many steps as it has work left; while it has
      taken fewer it can take one more; and when it has taken them all it has handled its whole backlog, in
      order, and has ended. */
  lemma {:induction false} RemovedDrains(maxQueue: Positive, ms: seq<Moment>, acts: seq<Act>, c: Consumer, from: nat,
                                         last: nat)
    requires IsRun(maxQueue, ms, acts) && c !in ms[0].views && from <= last < |ms|
    requires c in ms[from].views && ms[from].views[c].stop
    ensures c in ms[last].views && OwnSteps(acts, c, from, last) <= StepsLeft(ms[from].views[c])
    ensures OwnSteps(acts, c, from, last) < StepsLeft(ms[from].views[c]) <==> !ms[last].views[c].exited
    ensures !ms[last].views[c].exited ==>
              exists act, n :: IsOwn(act, c) && Acts(maxQueue, ms[last], act, n)
    ensures ms[last].views[c].exited ==>
              var v := ms[last].views[c];
              v.handled == ms[from].views[c].Backlog() && v.rest == v.queue == [] && !v.handling
  {
    StaysTidy(maxQueue, ms, acts, c, from);
    StepsCount(maxQueue, ms, acts, c, from, last);
    var m := ms[last];
    if !m.views[c].exited {
      var act := if m.views[c].handling then Handled(c) else Swapped(c);
      var v := if m.views[c].handling then m.views[c].AfterHandling() else m.views[c].AfterSwap();
      assert Acts(maxQueue, m, act, m.(views := m.views[c := v]));
    }
  }

  lemma {:induction false} StepsCount(maxQueue: Positive, ms: seq<Moment>, acts: seq<Act>, c: Consumer, from: nat,
                                      last: nat)
    requires IsRun(maxQueue, ms, acts) && from <= last < |ms|
    requires c in ms[from].views && ms[from].views[c].stop && Tidy(ms[from].views[c])
    ensures c in ms[last].views && ms[last].views[c].stop && Tidy(ms[last].views[c])
    ensures ms[last].views[c].Backlog() == ms[from].views[c].Backlog()
    ensures StepsLeft(ms[last].views[c]) + OwnSteps(acts, c, from, last) == StepsLeft(ms[from].views[c])
    decreases last
  {
    hide Acts, Tidy, StepsLeft;
    if from < last {
      StepsCount(maxQueue, ms, acts, c, from, last - 1);
      StoppedStep(maxQueue, ms[last - 1], acts[last - 1], ms[last], c);
    }
  }

  lemma {:induction false} StaysTidy(maxQueue: Positive, ms: seq<Moment>, acts: seq<Act>, c: Consumer, k: nat)
    requires IsRun(maxQueue, ms, acts) && c !in ms[0].views && k < |ms|
    ensures c in ms[k].views ==> Tidy(ms[k].views[c]) && (!ms[k].views[c].stop ==> !ms[k].views[c].exited)
  {
    hide Acts;
    if k > 0 {
      StaysTidy(maxQueue, ms, acts, c, k - 1);
      if c !in ms[k - 1].views {
        NewIsLive(maxQueue, ms[k - 1], acts[k - 1], ms[k], c);
      } else if ms[k - 1].views[c].stop {
        StoppedStep(maxQueue, ms[k - 1], acts[k - 1], ms[k], c);
      } else {
        KeepsTidy(maxQueue, ms[k - 1], acts[k - 1], ms[k], c);
      }
    }
  }

  // ----- A mark on a consumer that drained -----

  /** A group of one consumer. */
  lemma Alone(views: map<Consumer, View>, maxQueue: Positive, c: Consumer, v: View)
    requires views == map[c := v]
    ensures AnyFull(views, maxQueue) <==> IsFull(v, maxQueue) && !v.stuck
    ensures forall ev, at: nat :: AfterAll(views, ev, maxQueue, at) == map[c := v.AfterBroadcast(ev, maxQueue, at)]
    ensures forall ev, at: nat :: AfterAll(GivenUp(views, maxQueue), ev, maxQueue, at) ==
              map[c := (if IsFull(v, maxQueue) then v.AfterMark() else v).AfterBroadcast(ev, maxQueue, at)]
  {
    assert IsFull(views[c], maxQueue) == IsFull(v, maxQueue);
  }

  /** A view of a subscribed consumer that has lost nothing. */
  ghost function Lossless(queue: seq<Event>, rest: seq<Event>, got: seq<nat>): View {
    View(queue, rest, rest != [], [], false, false, false, Ledger(0, None, got, {}, false))
  }

  /** One consumer with room for one event, and one event. */
  method OneFull() returns (g: Group, c: Consumer, ghost ms: seq<Moment>, ghost acts: seq<Act>)
    ensures fresh(g) && fresh(c) && fresh(g.owner.Keys) && g.Valid() && g.maxQueue == 1
    ensures g.waits == map[] && g.sent == [Event(0)] && g.views == map[c := Lossless([Event(0)], [], [0])]
    ensures IsRun(1, ms, acts) && ms[|acts|] == g.Now() && acts == [Added(c), Arrived(0, Event(0), 0)]
  {
    hide Group.Valid, AnyFull, AfterAll, GivenUp, IsRun, Acts;
    g := new Group(1);
    ms, acts := Beginning(g.Now());
    c := g.Add();
    ms, acts := Extended(ms, acts, g.Now(), Added(c));
    Alone(g.views, 1, c, NewView(0));
    g.Arrive(0, Event(0), 0);
    ms, acts := Extended(ms, acts, g.Now(), Arrived(0, Event(0), 0));
    assert g.views[c] == Lossless([Event(0)], [], [0]);
  }

  /** Broadcaster 1 parks on the full consumer, which drains while it waits. */
  method OneDrained() returns (g: Group, c: Consumer, ghost ms: seq<Moment>, ghost acts: seq<Act>)
    ensures fresh(g) && fresh(c) && fresh(g.owner.Keys) && g.Valid() && g.maxQueue == 1
    ensures g.waits == map[1 := Wait(Event(1), 0)] && g.sent == [Event(0)]
    ensures g.views == map[c := Lossless([], [Event(0)], [0])]
    ensures IsRun(1, ms, acts) && ms[|acts|] == g.Now()
    ensures acts == [Added(c), Arrived(0, Event(0), 0), Arrived(1, Event(1), 0), Swapped(c)]
    ensures FullAt(1, ms, c, 3) && 1 in ms[3].waits
  {
    hide Group.Valid, AnyFull, AfterAll, GivenUp, IsRun, Acts;
    g, c, ms, acts := OneFull();
    Alone(g.views, 1, c, g.views[c]);
    g.Arrive(1, Event(1), 0);
    ms, acts := Extended(ms, acts, g.Now(), Arrived(1, Event(1), 0));
    g.SwapAt(c);
    ms, acts := Extended(ms, acts, g.Now(), Swapped(c));
  }

  ghost method Beginning(m: Moment) returns (ms: seq<Moment>, acts: seq<Act>)
    ensures IsRun(1, ms, acts) && ms == [m] && acts == []
  {
    ms, acts := [m], [];
  }

  /** And another broadcaster fills it again. */
  method OneRefilled() returns (g: Group, c: Consumer, ghost ms: seq<Moment>, ghost acts: seq<Act>)
    ensures fresh(g) && fresh(c) && fresh(g.owner.Keys) && g.Valid() && g.maxQueue == 1
    ensures g.waits == map[1 := Wait(Event(1), 0)] && g.sent == [Event(0), Event(2)]
    ensures g.views == map[c := Lossless([Event(2)], [Event(0)], [0, 1])]
    ensures IsRun(1, ms, acts) && ms[|acts|] == g.Now() && |acts| == 5 && ParkedFrom(ms, acts, 1, 2, 5)
    ensures FullAt(1, ms, c, 3) && c in ms[4].views && ms[4].views[c].queue == []
  {
    hide Group.Valid, AnyFull, AfterAll, GivenUp, IsRun, Acts;
    g, c, ms, acts := OneDrained();
    Alone(g.views, 1, c, g.views[c]);
    g.Arrive(2, Event(2), 1);
    ms, acts := Extended(ms, acts, g.Now(), Arrived(2, Event(2), 1));
    assert g.views[c] == Lossless([Event(2)], [Event(0)], [0, 1]);
  }

  /** A mark does not mean the consumer was full for the whole wait: between moments 3 and 5 broadcaster 1
      is parked; at 3 the consumer is full, at 4 it has drained, at 5 another broadcaster has filled it
      again; then broadcaster 1 marks it, and an event is lost. */
  method DrainedYetMarked() returns (g: Group, c: Consumer, ghost ms: seq<Moment>, ghost acts: seq<Act>)
    ensures fresh(g) && g.Valid() && IsRun(1, ms, acts) && ms[|acts|] == g.Now() && |acts| == 6
    ensures ParkedFrom(ms, acts, 1, 2, 5) && acts[5] == Woke(1, STUCK_WAIT) && 1 !in ms[6].waits
    ensures FullAt(1, ms, c, 3) && c in ms[4].views && ms[4].views[c].queue == [] && FullAt(1, ms, c, 5)
    ensures !ms[5].views[c].stuck && c in ms[6].views && ms[6].views[c].stuck && ms[6].views[c].ledger.lost == {1}
  {
    hide Group.Valid, AnyFull, AfterAll, GivenUp, IsRun, Acts;
    g, c, ms, acts := OneRefilled();
    Alone(g.views, 1, c, g.views[c]);
    g.Wake(1, STUCK_WAIT);
    ms, acts := Extended(ms, acts, g.Now(), Woke(1, STUCK_WAIT));
  }

  ghost method Extended(ms: seq<Moment>, acts: seq<Act>, n: Moment, act: Act)
    returns (ms': seq<Moment>, acts': seq<Act>)
    requires IsRun(1, ms, acts) && Acts(1, ms[|acts|], act, n)
    ensures IsRun(1, ms', acts') && ms' == ms + [n] && acts' == acts + [act]
  {
    ms', acts' := ms + [n], acts + [act];
  }
}
