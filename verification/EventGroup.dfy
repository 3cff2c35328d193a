/**
  One consumer group of the event dispatcher (internal/event/event.go): bounded queues, a timed wait
  for full consumers, drop-oldest for the stuck ones, and the two swapped buffers of a listener.
  Every method is one step taken under the group's lock, or one event handled outside it; the steps of
  all broadcasters and listeners interleave in any order.
 */
module EventGroup {
  import opened Basics

  /** A queue limit.  With none, dropping the oldest event of an empty queue would panic. */
  type Positive = n: nat | n > 0 witness 1

  /** The event type of the group. */
  datatype Event = Event(payload: int)

  const STUCK_WAIT := 1_000_000_000  // 1 s, in nanoseconds

  // ----- What a consumer has, against what was sent -----

  /** What a consumer has been given since it subscribed: `got` are the positions in `sent` of the
      events it has handled, is handling or has queued, in that order; `lost` the ones dropped. */
  datatype Ledger = Ledger(since: nat, end: Option<nat>, got: seq<nat>, lost: set<nat>, everStuck: bool) {
    function End(sent: nat): nat {
      if end.Some? then end.value else sent
    }
  }

  ghost predicate Delivery(led: Ledger, backlog: seq<Event>, sent: seq<Event>) {
    var end := led.End(|sent|);
    && led.since <= end <= |sent|
    && |led.got| == |backlog|
    && (forall k :: 0 <= k < |led.got| ==> led.since <= led.got[k] < end && backlog[k] == sent[led.got[k]])
    && (forall j, k :: 0 <= j < k < |led.got| ==> led.got[j] < led.got[k])
    && (forall i :: led.since <= i < end ==> (i in led.got <==> i !in led.lost))
    && (forall i <- led.lost :: led.since <= i < end)
    && (led.lost != {} ==> led.everStuck)
  }

  /** A consumer that was never stuck has every event since it subscribed, in order, each once. */
  lemma LosslessUnlessStuck(led: Ledger, backlog: seq<Event>, sent: seq<Event>)
    requires Delivery(led, backlog, sent) && !led.everStuck
    ensures backlog == sent[led.since..led.End(|sent|)]
  {
    var end := led.End(|sent|);
    CountsUp(led.got, led.since, end);
    assert |backlog| == end - led.since;
  }

  lemma {:induction false} CountsUp(got: seq<nat>, from: nat, to: nat)
    requires from <= to
    requires forall k :: 0 <= k < |got| ==> from <= got[k] < to
    requires forall j, k :: 0 <= j < k < |got| ==> got[j] < got[k]
    requires forall i :: from <= i < to ==> i in got
    ensures |got| == to - from && forall k :: 0 <= k < |got| ==> got[k] == from + k
  {
    assert got != [] ==> from <= got[0] < to;
    if from < to {
      assert from in got;
      assert got[0] == from;
      forall i | from + 1 <= i < to
        ensures i in got[1..]
      {
        assert i in got && i != got[0];
      }
      CountsUp(got[1..], from + 1, to);
      forall k | 1 <= k < |got|
        ensures got[k] == from + k
      {
        assert got[k] == got[1..][k - 1];
      }
    }
  }

  function Appended(led: Ledger, at: nat): Ledger {
    led.(got := led.got + [at])
  }

  /** The event at place h of the backlog is dropped, if there is one. */
  function Dropped(led: Ledger, h: nat): Ledger {
    if h >= |led.got| then led else led.(got := led.got[..h] + led.got[h + 1..], lost := led.lost + {led.got[h]})
  }

  lemma AppendDelivers(led: Ledger, backlog: seq<Event>, sent: seq<Event>, ev: Event)
    requires Delivery(led, backlog, sent) && led.end.None?
    ensures Delivery(Appended(led, |sent|), backlog + [ev], sent + [ev])
  {
    var to := Appended(led, |sent|);
    forall i | led.since <= i <= |sent|
      ensures i in to.got <==> i !in to.lost
    {
      if i == |sent| {
        assert to.got[|led.got|] == i;
      }
    }
  }

  lemma DropDelivers(led: Ledger, backlog: seq<Event>, sent: seq<Event>, h: nat)
    requires Delivery(led, backlog, sent) && h < |backlog| && led.everStuck
    ensures Delivery(Dropped(led, h), backlog[..h] + backlog[h + 1..], sent)
  {
    var got, rest := led.got[..h] + led.got[h + 1..], backlog[..h] + backlog[h + 1..];
    KeptExactly(led.got, h);
    KeptInOrder(led.got, h);
    forall k | 0 <= k < |got|
      ensures led.since <= got[k] < led.End(|sent|) && rest[k] == sent[got[k]]
    {
      var j := if k < h then k else k + 1;
      assert got[k] == led.got[j] && rest[k] == backlog[j];
    }
    assert led.got[h] in led.got;
  }

  lemma KeptInOrder(got: seq<nat>, h: nat)
    requires h < |got| && forall j, k :: 0 <= j < k < |got| ==> got[j] < got[k]
    ensures var kept := got[..h] + got[h + 1..]; forall j, k :: 0 <= j < k < |kept| ==> kept[j] < kept[k]
  {
  }

  lemma KeptExactly(got: seq<nat>, h: nat)
    requires h < |got| && forall j, k :: 0 <= j < k < |got| ==> got[j] < got[k]
    ensures forall i :: i in got[..h] + got[h + 1..] <==> i in got && i != got[h]
  {
    var kept := got[..h] + got[h + 1..];
    forall i | i in got && i != got[h]
      ensures i in kept
    {
      var k :| 0 <= k < |got| && got[k] == i;
      assert kept[if k < h then k else k - 1] == i;
    }
  }

  // ----- One consumer, seen as a value -----

  datatype View = View(queue: seq<Event>, rest: seq<Event>, handling: bool, handled: seq<Event>,
                          stop: bool, stuck: bool, exited: bool, ledger: Ledger) {
    /** Handled, then being handled, then queued. */
    function Backlog(): seq<Event> {
      handled + rest + queue
    }

    /** What holds of a consumer between any two steps, when `sent` is what the group has sent. */
    ghost predicate Good(maxQueue: Positive, sent: seq<Event>) {
      && |queue| <= maxQueue
      && Delivery(ledger, Backlog(), sent)
      && (stop <==> ledger.end.Some?)
      && (exited ==> stop && !handling && queue == [])
      && (!handling ==> rest == [])
      && (stuck ==> ledger.everStuck && |queue| >= maxQueue)
    }

    /** Append, or drop the oldest and keep the newest. */
    function AfterEvent(ev: Event, maxQueue: Positive, at: nat): View
    {
      if |queue| < maxQueue then this.(queue := queue + [ev], ledger := Appended(ledger, at))
      else this.(queue := queue[1..] + [ev], ledger := Appended(Dropped(ledger, |handled + rest|), at))
    }

    /** A removed consumer receives nothing more. */
    function AfterBroadcast(ev: Event, maxQueue: Positive, at: nat): View
    {
      if stop then this else AfterEvent(ev, maxQueue, at)
    }

    function AfterSwap(): View {
      if queue == [] then this.(exited := stop) else this.(queue := [], rest := queue, handling := true, stuck := false)
    }

    function AfterHandling(): View {
      if rest == [] then this.(handling := false) else this.(rest := rest[1..], handled := handled + [rest[0]])
    }

    function AfterStop(at: nat): View {
      if stop then this else this.(stop := true, ledger := ledger.(end := Some(at)))
    }

    function AfterMark(): View {
      this.(stuck := true, ledger := ledger.(everStuck := true))
    }
  }

  function NewView(at: nat): View {
    View([], [], false, [], false, false, false, Ledger(at, None, [], {}, false))
  }

  /** An event reaches a subscribed consumer; one that is full must be marked stuck. */
  lemma EventKeepsGood(v: View, maxQueue: Positive, sent: seq<Event>, ev: Event)
    requires v.Good(maxQueue, sent) && !v.stop && (|v.queue| >= maxQueue ==> v.stuck)
    ensures v.AfterEvent(ev, maxQueue, |sent|).Good(maxQueue, sent + [ev])
  {
    var was, after := v.Backlog(), v.AfterEvent(ev, maxQueue, |sent|);
    if |v.queue| < maxQueue {
      AppendDelivers(v.ledger, was, sent, ev);
      assert after.Backlog() == was + [ev];
    } else {
      var h := |v.handled + v.rest|;
      assert was[..h] == v.handled + v.rest && was[h + 1..] == v.queue[1..];
      DropDelivers(v.ledger, was, sent, h);
      AppendDelivers(Dropped(v.ledger, h), was[..h] + was[h + 1..], sent, ev);
      assert after.Backlog() == was[..h] + was[h + 1..] + [ev];
    }
  }

  /** A broadcast keeps every consumer as it should be, when each full one it reaches is marked stuck. */
  lemma BroadcastKeepsGood(v: View, maxQueue: Positive, sent: seq<Event>, ev: Event)
    requires v.Good(maxQueue, sent) && (!v.stop && |v.queue| >= maxQueue ==> v.stuck)
    ensures v.AfterBroadcast(ev, maxQueue, |sent|).Good(maxQueue, sent + [ev])
    ensures v.AfterBroadcast(ev, maxQueue, |sent|).stop == v.stop
    ensures var led, after := v.ledger, v.AfterBroadcast(ev, maxQueue, |sent|).ledger;
            if IsFull(v, maxQueue) then after.lost == led.lost + {led.got[|v.handled + v.rest|]}
            else after.lost == led.lost
  {
    if !v.stop {
      EventKeepsGood(v, maxQueue, sent, ev);
    }
  }

  /** Swapping and handling move events along the backlog without changing it. */
  lemma ListeningKeepsGood(v: View, maxQueue: Positive, sent: seq<Event>)
    requires v.Good(maxQueue, sent) && !v.exited
    ensures !v.handling ==> v.AfterSwap().Good(maxQueue, sent) && v.AfterSwap().Backlog() == v.Backlog()
    ensures v.handling ==> v.AfterHandling().Good(maxQueue, sent) && v.AfterHandling().Backlog() == v.Backlog()
  {
    if !v.handling {
      assert v.AfterSwap().Backlog() == v.Backlog();
    } else {
      assert v.AfterHandling().Backlog() == v.Backlog();
    }
  }

  lemma NewIsGood(maxQueue: Positive, sent: seq<Event>)
    ensures NewView(|sent|).Good(maxQueue, sent) && !NewView(|sent|).stop
  {
  }

  lemma MarkingKeepsGood(v: View, maxQueue: Positive, sent: seq<Event>)
    requires v.Good(maxQueue, sent) && |v.queue| >= maxQueue
    ensures v.AfterMark().Good(maxQueue, sent)
  {
  }

  lemma StoppingKeepsGood(v: View, maxQueue: Positive, sent: seq<Event>)
    requires v.Good(maxQueue, sent)
    ensures v.AfterStop(|sent|).Good(maxQueue, sent) && v.AfterStop(|sent|).stop
  {
  }

  // ----- A consumer and its two buffers -----

  class Buffer {
    var items: seq<Event>

    constructor ()
      ensures items == []
    {
      items := [];
    }
  }

  class Consumer {
    const first: Buffer
    const second: Buffer
    var queue: Buffer    // filled by broadcasters
    var pending: Buffer  // being handled
    var pos: nat            // how far the listener is in pending
    var handling: bool
    var stop: bool
    var stuck: bool
    var exited: bool
    ghost var handled: seq<Event>
    ghost var ledger: Ledger

    constructor (ghost at: nat)
      ensures Valid() && fresh(queue) && fresh(pending) && Seen() == NewView(at)
    {
      var a := new Buffer();
      var b := new Buffer();
      first, second, queue, pending := a, b, a, b;
      pos, handling, stop, stuck, exited := 0, false, false, false, false;
      handled, ledger := [], Ledger(at, None, [], {}, false);
    }

    /** The buffer being filled is never the one being handled. */
    ghost predicate Valid()
      reads this, pending
    {
      && first != second
      && ((queue == first && pending == second) || (queue == second && pending == first))
      && pos <= |pending.items|
    }

    ghost function Seen(): View
      reads this, queue, pending
    {
      View(queue.items, if handling && pos <= |pending.items| then pending.items[pos..] else [],
           handling, handled, stop, stuck, exited, ledger)
    }

    /** The part of Broadcast for one consumer. */
    method Enqueue(ev: Event, maxQueue: Positive, ghost at: nat)
      requires Valid()
      modifies this`ledger, queue`items
      ensures Valid() && Seen() == old(Seen()).AfterEvent(ev, maxQueue, at)
    {
      ghost var v := Seen();
      ledger := v.AfterEvent(ev, maxQueue, at).ledger;
      if |queue.items| >= maxQueue {
        queue.items := queue.items[1..] + [ev];
      } else {
        queue.items := queue.items + [ev];
      }
    }

    /** Listen, with the lock: swaps the buffers when there is work, stops when told to, else waits. */
    method Swap()
      requires Valid() && !handling
      modifies this`queue, this`pending, this`pos, this`handling, this`stuck, this`exited, pending`items
      ensures Valid() && Seen() == old(Seen()).AfterSwap()
      ensures handling ==> queue == old(pending) && pending == old(queue) && pending.items == old(queue.items)
      ensures !handling ==> queue == old(queue) && pending == old(pending)
    {
      if |queue.items| == 0 {
        exited := stop;
        return;
      }
      var temp := queue;
      pending.items := [];
      queue := pending;
      pending := temp;
      pos, handling, stuck := 0, true, false;
    }

    /** Listen, without the lock: hands the next pending event to the handler, or goes back for more. */
    method HandleNext() returns (event: Option<Event>)
      requires Valid() && handling
      modifies this`pos, this`handling, this`handled
      ensures Valid() && Seen() == old(Seen()).AfterHandling()
      ensures event == if old(Seen()).rest == [] then None else Some(old(Seen()).rest[0])
    {
      if pos == |pending.items| {
        handling := false;
        return None;
      }
      event := Some(pending.items[pos]);
      handled := handled + [event.value];
      pos := pos + 1;
    }

    /** The part of Del for the consumer itself. */
    method Stop(ghost at: nat)
      requires Valid()
      modifies this`stop, this`ledger
      ensures Valid() && Seen() == old(Seen()).AfterStop(at)
    {
      if !stop {
        ledger := ledger.(end := Some(at));
      }
      stop := true;
    }

    /** Presumed dead: no broadcaster waits for it until it drains. */
    method MarkStuck()
      requires Valid()
      modifies this`stuck, this`ledger
      ensures Valid() && Seen() == old(Seen()).AfterMark()
    {
      stuck := true;
      ledger := ledger.(everStuck := true);
    }
  }

  // ----- The group -----

  /** A broadcaster parked in flow control. */
  datatype Wait = Wait(ev: Event, start: int)

  /** The group at one moment; `sent` is how many events were sent. */
  datatype Moment = Moment(views: map<Consumer, View>, waits: map<nat, Wait>, sent: nat)

  /** One step of a goroutine. */
  datatype Act =
    | Added(c: Consumer)
    | Removed(c: Consumer)
    | Arrived(id: nat, ev: Event, now: int)
    | Woke(id: nat, now: int)
    | Swapped(c: Consumer)
    | Handled(c: Consumer)

  predicate IsFull(v: View, maxQueue: Positive) {
    !v.stop && |v.queue| >= maxQueue
  }

  /** Some full consumer is one that broadcasters still wait for. */
  ghost predicate AnyFull(views: map<Consumer, View>, maxQueue: Positive) {
    exists c <- views :: IsFull(views[c], maxQueue) && !views[c].stuck
  }

  /** What one event does to the consumers. */
  ghost function AfterAll(was: map<Consumer, View>, ev: Event, maxQueue: Positive, at: nat): map<Consumer, View> {
    map c | c in was :: was[c].AfterBroadcast(ev, maxQueue, at)
  }

  /** What giving up a wait does to the consumers: the full ones are presumed dead. */
  ghost function GivenUp(was: map<Consumer, View>, maxQueue: Positive): map<Consumer, View> {
    map c | c in was :: if IsFull(was[c], maxQueue) then was[c].AfterMark() else was[c]
  }

  /** The step was possible at m, and n is the moment after it. */
  ghost predicate Acts(maxQueue: Positive, m: Moment, act: Act, n: Moment) {
    match act
    case Added(c) => c !in m.views && n == m.(views := m.views[c := NewView(m.sent)])
    case Removed(c) => c in m.views && n == m.(views := m.views[c := m.views[c].AfterStop(m.sent)])
    case Arrived(id, ev, now) =>
      && id !in m.waits
      && n == if AnyFull(m.views, maxQueue) then m.(waits := m.waits[id := Wait(ev, now)])
              else m.(views := AfterAll(m.views, ev, maxQueue, m.sent), sent := m.sent + 1)
    case Woke(id, now) =>
      && id in m.waits
      && n == if ParksOn(maxQueue, m, id, now) then m
              else Moment(AfterAll(GivenUp(m.views, maxQueue), m.waits[id].ev, maxQueue, m.sent), m.waits - {id},
                  m.sent + 1)
    case Swapped(c) =>
      && c in m.views && !m.views[c].handling && !m.views[c].exited
      && n == m.(views := m.views[c := m.views[c].AfterSwap()])
    case Handled(c) =>
      && c in m.views && m.views[c].handling && !m.views[c].exited
      && n == m.(views := m.views[c := m.views[c].AfterHandling()])
  }

  /** A parked broadcaster that runs waits on: an unmarked consumer is full and STUCK_WAIT is not over. */
  ghost predicate ParksOn(maxQueue: Positive, m: Moment, id: nat, now: int)
    requires id in m.waits
  {
    AnyFull(m.views, maxQueue) && now - m.waits[id].start < STUCK_WAIT
  }

  class Group {
    const maxQueue: Positive
    var subs: seq<Consumer>
    var waits: map<nat, Wait>               // by broadcaster
    ghost var sent: seq<Event>              // every event enqueued, in order
    ghost var views: map<Consumer, View>    // every consumer that ever subscribed, as it is now
    ghost var place: map<Consumer, nat>     // where a subscribed consumer is in subs
    ghost var owner: map<Buffer, Consumer>  // no buffer has two

    constructor (maxQueue: Positive)
      ensures Valid() && this.maxQueue == maxQueue && subs == [] && waits == map[]
      ensures sent == [] && views == map[] && owner == map[]
    {
      this.maxQueue, subs, waits, sent, views, place, owner := maxQueue, [], map[], [], map[], map[], map[];
    }

    ghost predicate Valid()
      reads this, views.Keys, owner.Keys
    {
      && Enrolled(subs, views, place)
      && Coupled()
      && (forall c <- views :: views[c].Good(maxQueue, sent))
    }

    /** The consumers subscribed are exactly those not stopped, each once. */
    static ghost predicate Enrolled(subs: seq<Consumer>, views: map<Consumer, View>, place: map<Consumer, nat>) {
      && (forall i :: 0 <= i < |subs| ==> subs[i] in views && !views[subs[i]].stop)
      && (forall i :: 0 <= i < |subs| ==> subs[i] in place && place[subs[i]] == i)
      && (forall c <- views :: !views[c].stop ==> c in place && place[c] < |subs| && subs[place[c]] == c)
    }

    static lemma EnrolMore(subs: seq<Consumer>, views: map<Consumer, View>, place: map<Consumer, nat>,
                           c: Consumer, v: View)
      requires Enrolled(subs, views, place) && c !in views && !v.stop
      ensures Enrolled(subs + [c], views[c := v], place[c := |subs|])
    {
    }

    static lemma EnrolSame(subs: seq<Consumer>, views: map<Consumer, View>, next: map<Consumer, View>,
                           place: map<Consumer, nat>)
      requires Enrolled(subs, views, place) && next.Keys == views.Keys
      requires forall c <- views :: next[c].stop == views[c].stop
      ensures Enrolled(subs, next, place)
    {
    }

    static lemma EnrolFound(subs: seq<Consumer>, views: map<Consumer, View>, place: map<Consumer, nat>, c: Consumer,
                            i: int)
      requires Enrolled(subs, views, place) && c in views
      requires -1 <= i < |subs| && (i >= 0 ==> subs[i] == c) && (i < 0 ==> c !in subs)
      ensures i < 0 <==> views[c].stop
      ensures i >= 0 ==> c in place && place[c] == i
    {
    }

    static lemma EnrolLess(subs: seq<Consumer>, views: map<Consumer, View>, place: map<Consumer, nat>,
                           i: nat, v: View)
      requires Enrolled(subs, views, place) && i < |subs| && v.stop
      ensures Enrolled(subs[..i] + subs[i + 1..], views[subs[i] := v],
                       Closed(place, subs[i], i))
    {
    }

    /** c at place i is gone, the later ones move down. */
    static ghost function Closed(place: map<Consumer, nat>, c: Consumer, i: nat): map<Consumer, nat> {
      map d | d in place && d != c :: if place[d] <= i then place[d] else place[d] - 1
    }

    /** Consumers share no buffer, and `views` tells the truth about them. */
    ghost predicate Coupled()
      reads this`views, this`owner, views.Keys, owner.Keys
    {
      && (forall c <- views :: c.queue in owner && owner[c.queue] == c)
      && (forall c <- views :: c.pending in owner && owner[c.pending] == c)
      && (forall c <- views :: c.Valid() && c.Seen() == views[c])
    }

    ghost function Now(): Moment
      reads this`views, this`waits, this`sent
    {
      Moment(views, waits, |sent|)
    }

    method IsFullActive() returns (full: bool)
      requires Valid()
      ensures full == AnyFull(views, maxQueue)
    {
      hide View.Good;
      for i := 0 to |subs|
        invariant forall k :: 0 <= k < i ==> !(IsFull(views[subs[k]], maxQueue) && !views[subs[k]].stuck)
      {
        var c := subs[i];
        if !c.stuck && |c.queue.items| >= maxQueue {
          return true;
        }
      }
      return false;
    }

    /** Add */
    method Add() returns (c: Consumer)
      requires Valid()
      modifies this`subs, this`views, this`place, this`owner
      ensures Valid() && fresh(c) && subs == old(subs) + [c] && views == old(views)[c := NewView(|sent|)]
      ensures fresh(owner.Keys - old(owner).Keys)
      ensures Acts(maxQueue, old(Now()), Added(c), Now())
    {
      hide View.Good, Consumer.Valid, Consumer.Seen, Coupled, Enrolled, NewView;
      NewIsGood(maxQueue, sent);
      c := new Consumer(|sent|);
      EnrolMore(subs, views, place, c, c.Seen());
      Couple(c);
      place := place[c := |subs|];
      subs := subs + [c];
    }

    method Couple(c: Consumer)
      requires Coupled() && c !in views && c.Valid() && c.queue !in owner && c.pending !in owner
      modifies this`views, this`owner
      ensures Coupled() && views == old(views)[c := c.Seen()]
      ensures owner.Keys == old(owner).Keys + {c.queue, c.pending}
    {
      hide Consumer.Valid, Consumer.Seen;
      ghost var first: map<Buffer, Consumer> := owner[c.queue := c];
      ghost var next: map<Buffer, Consumer> := first[c.pending := c];
      forall d <- views
        ensures d.queue in next && next[d.queue] == d && d.pending in next && next[d.pending] == d
      {
      }
      owner := next;
      Renew(c);
    }

    /** Del */
    method Del(c: Consumer)
      requires Valid() && c in views
      modifies this`subs, this`views, this`place, c`stop, c`ledger
      ensures Valid() && views == old(views)[c := old(views)[c].AfterStop(|sent|)]
      ensures Acts(maxQueue, old(Now()), Removed(c), Now())
      ensures old(views)[c].stop ==> subs == old(subs)
      ensures !old(views)[c].stop ==>
                && c in old(place) && old(place)[c] < |old(subs)| && old(subs)[old(place)[c]] == c
                && subs == old(subs)[..old(place)[c]] + old(subs)[old(place)[c] + 1..]
    {
      hide View.Good, View.Backlog, Coupled, Enrolled, View.AfterStop, View.AfterMark;
      StoppingKeepsGood(views[c], maxQueue, sent);
      ghost var was := views;
      StopAt(c);
      Unlist(c, was);
    }

    /** The rest of Del: c leaves subs, if it is there. */
    method Unlist(c: Consumer, ghost was: map<Consumer, View>)
      requires c in was && Enrolled(subs, was, place) && c in views && views[c].stop && views == was[c := views[c]]
      modifies this`subs, this`place
      ensures Enrolled(subs, views, place)
      ensures was[c].stop ==> subs == old(subs)
      ensures !was[c].stop ==>
                && c in old(place) && old(place)[c] < |old(subs)| && old(subs)[old(place)[c]] == c
                && subs == old(subs)[..old(place)[c]] + old(subs)[old(place)[c] + 1..]
    {
      hide Enrolled, Closed;
      var i := IndexOf(c);
      EnrolFound(subs, was, place, c, i);
      if i < 0 {
        EnrolSame(subs, was, views, place);
      } else {
        EnrolLess(subs, was, place, i, views[c]);
        subs := subs[..i] + subs[i + 1..];
        place := Closed(place, c, i);
      }
    }

    /** The search of Del. */
    method IndexOf(c: Consumer) returns (i: int)
      ensures -1 <= i < |subs| && (i >= 0 ==> subs[i] == c) && (i < 0 ==> c !in subs)
    {
      for k := 0 to |subs|
        invariant c !in subs[..k]
      {
        if subs[k] == c {
          return k;
        }
      }
      return -1;
    }

    method StopAt(c: Consumer)
      requires Coupled() && c in views
      modifies this`views, c`stop, c`ledger
      ensures Coupled() && views == old(views)[c := old(views)[c].AfterStop(|sent|)]
    {
      hide View.AfterStop, Consumer.Valid, Consumer.Seen;
      c.Stop(|sent|);
      Renew(c);
    }

    /** The step of Broadcast for one consumer. */
    method EnqueueAt(c: Consumer, ev: Event)
      requires Coupled() && c in views
      modifies this`views, c`ledger, owner.Keys`items
      ensures Coupled() && views == old(views)[c := old(views)[c].AfterEvent(ev, maxQueue, |sent|)]
    {
      hide View.AfterEvent, Consumer.Valid, Consumer.Seen;
      c.Enqueue(ev, maxQueue, |sent|);
      Renew(c);
    }

    // One loop over the subscribed consumers, each view v becoming f(v).

    /** The consumers below i have been visited. */
    static ghost predicate MappedUpTo(was: map<Consumer, View>, now: map<Consumer, View>, place: map<Consumer, nat>,
                                      i: nat, f: View -> View)
    {
      && now.Keys == was.Keys
      && forall c <- was :: now[c] == if !was[c].stop && c in place && place[c] < i then f(was[c]) else was[c]
    }

    static ghost function Mapped(was: map<Consumer, View>, f: View -> View): map<Consumer, View> {
      map c | c in was :: if was[c].stop then was[c] else f(was[c])
    }

    static lemma MappedNext(subs: seq<Consumer>, was: map<Consumer, View>, now: map<Consumer, View>,
                            place: map<Consumer, nat>,
                            i: nat, f: View -> View)
      requires Enrolled(subs, was, place) && i < |subs| && MappedUpTo(was, now, place, i, f)
      ensures subs[i] in now
      ensures MappedUpTo(was, now[subs[i] := f(now[subs[i]])], place, i + 1, f)
    {
      assert place[subs[i]] == i;
      forall c | c in was && !was[c].stop && place[c] == i
        ensures c == subs[i]
      {
      }
    }

    static lemma MappedAll(subs: seq<Consumer>, was: map<Consumer, View>, now: map<Consumer, View>,
                           place: map<Consumer, nat>,
                           f: View -> View)
      requires Enrolled(subs, was, place) && MappedUpTo(was, now, place, |subs|, f)
      requires forall v: View :: f(v).stop == v.stop
      ensures now == Mapped(was, f) && Enrolled(subs, now, place)
    {
      forall c | c in was
        ensures now[c] == (if was[c].stop then was[c] else f(was[c])) && now[c].stop == was[c].stop
      {
      }
    }

    static lemma MappedNone(was: map<Consumer, View>, place: map<Consumer, nat>, f: View -> View)
      ensures MappedUpTo(was, was, place, 0, f)
    {
    }

    /** What the last loop of Broadcast does to a subscribed consumer. */
    ghost function Taking(ev: Event, at: nat): View -> View {
      (v: View) => v.AfterEvent(ev, maxQueue, at)
    }

    /** What Broadcast does after its wait to a subscribed consumer. */
    ghost function Marking(): View -> View {
      (v: View) => if |v.queue| >= maxQueue then v.AfterMark() else v
    }

    /** The last loop of Broadcast. */
    method EnqueueEach(ev: Event)
      requires Enrolled(subs, views, place) && Coupled()
      modifies this`views, views.Keys`ledger, owner.Keys`items
      ensures Enrolled(subs, views, place) && Coupled() && views == Mapped(old(views), Taking(ev, |sent|))
    {
      hide Coupled, Enrolled, MappedUpTo, Mapped, View.AfterEvent;
      ghost var was, f := views, Taking(ev, |sent|);
      MappedNone(was, place, f);
      for i := 0 to |subs|
        invariant Coupled() && views.Keys == was.Keys && MappedUpTo(was, views, place, i, f)
      {
        MappedNext(subs, was, views, place, i, f);
        EnqueueAt(subs[i], ev);
      }
      StopsKept(ev, |sent|);
      MappedAll(subs, was, views, place, f);
    }

    lemma StopsKept(ev: Event, at: nat)
      ensures forall v: View :: Taking(ev, at)(v).stop == v.stop
      ensures forall v: View :: Marking()(v).stop == v.stop
    {
    }

    /** Broadcast after its wait: anything still full is marked. */
    method MarkEach()
      requires Enrolled(subs, views, place) && Coupled()
      modifies this`views, views.Keys`ledger, views.Keys`stuck
      ensures Enrolled(subs, views, place) && Coupled() && views == Mapped(old(views), Marking())
    {
      hide Coupled, Enrolled, MappedUpTo, Mapped, View.AfterMark;
      ghost var was, f := views, Marking();
      MappedNone(was, place, f);
      for i := 0 to |subs|
        invariant Coupled() && views.Keys == was.Keys && MappedUpTo(was, views, place, i, f)
      {
        MappedNext(subs, was, views, place, i, f);
        MarkAt(subs[i]);
      }
      StopsKept(Event(0), 0);
      MappedAll(subs, was, views, place, f);
    }

    method MarkAt(c: Consumer)
      requires Coupled() && c in views
      modifies this`views, c`stuck, c`ledger
      ensures Coupled() && views == old(views)[c := Marking()(old(views)[c])]
    {
      hide Coupled, View.AfterMark;
      QueueSeen(c);
      if |c.queue.items| >= maxQueue {
        MarkStep(c);
      } else {
        assert views == views[c := Marking()(views[c])];
      }
    }

    method MarkStep(c: Consumer)
      requires Coupled() && c in views
      modifies this`views, c`stuck, c`ledger
      ensures Coupled() && views == old(views)[c := old(views)[c].AfterMark()]
    {
      hide View.AfterMark, Consumer.Valid, Consumer.Seen;
      c.MarkStuck();
      Renew(c);
    }

    /** `views` follows a change of c alone. */
    ghost method Renew(c: Consumer)
      requires OthersCoupled(c) && c.Valid() && c.queue in owner && c.pending in owner
      requires owner[c.queue] == c && owner[c.pending] == c
      modifies this`views
      ensures Coupled() && views == old(views)[c := c.Seen()]
    {
      hide Consumer.Valid, Consumer.Seen;
      views := views[c := c.Seen()];
    }

    ghost predicate OthersCoupled(c: Consumer)
      reads this`views, this`owner, views.Keys, owner.Keys
    {
      && (forall d <- views :: d.queue in owner && owner[d.queue] == d)
      && (forall d <- views :: d.pending in owner && owner[d.pending] == d)
      && (forall d <- views :: d != c ==> d.Valid() && d.Seen() == views[d])
    }

    lemma QueueSeen(c: Consumer)
      requires Coupled() && c in views
      ensures c.queue.items == views[c].queue
    {
    }

    /** The event goes to every consumer subscribed, once no full one is left unmarked. */
    method EnqueueAll(ev: Event)
      requires Valid() && !AnyFull(views, maxQueue)
      modifies this`sent, this`views, views.Keys`ledger, owner.Keys`items
      ensures Valid() && sent == old(sent) + [ev]
      ensures views == AfterAll(old(views), ev, maxQueue, |old(sent)|)
    {
      hide Coupled, Enrolled, Mapped, View.Good, View.AfterBroadcast;
      MappedIsAfter(views, ev, |sent|);
      EnqueueEach(ev);
      sent := sent + [ev];
      forall c | c in views
        ensures views[c].Good(maxQueue, sent)
      {
        BroadcastKeepsGood(old(views)[c], maxQueue, old(sent), ev);
      }
    }

    lemma MappedIsAfter(was: map<Consumer, View>, ev: Event, at: nat)
      ensures Mapped(was, Taking(ev, at)) == AfterAll(was, ev, maxQueue, at)
    {
    }

    lemma MappedIsGivenUp(was: map<Consumer, View>)
      ensures Mapped(was, Marking()) == GivenUp(was, maxQueue)
    {
    }

    method MarkFull()
      requires Valid()
      modifies this`views, views.Keys`ledger, views.Keys`stuck
      ensures Valid() && views == GivenUp(old(views), maxQueue) && views.Keys == old(views).Keys
                && !AnyFull(views, maxQueue)
    {
      hide Coupled, Enrolled, Mapped, View.Good;
      MappedIsGivenUp(views);
      MarkEach();
      forall c | c in views
        ensures views[c].Good(maxQueue, sent)
      {
        if IsFull(old(views)[c], maxQueue) {
          MarkingKeepsGood(old(views)[c], maxQueue, sent);
        }
      }
    }

    // ----- Broadcast, up to its wait and after it -----

    /** Broadcast arrives: the event goes out at once, or the broadcaster parks. */
    method Arrive(id: nat, ev: Event, now: int)
      requires Valid() && id !in waits
      modifies this`waits, this`sent, this`views, views.Keys`ledger, owner.Keys`items
      ensures Valid() && Acts(maxQueue, old(Now()), Arrived(id, ev, now), Now())
      ensures AnyFull(old(views), maxQueue) ==>
                waits == old(waits)[id := Wait(ev, now)] && sent == old(sent) && views == old(views)
      ensures !AnyFull(old(views), maxQueue) ==>
                waits == old(waits) && sent == old(sent) + [ev]
                    && views == AfterAll(old(views), ev, maxQueue, |old(sent)|)
    {
      hide Coupled, Enrolled, View.Good, View.AfterBroadcast, AnyFull, AfterAll;
      var full := IsFullActive();
      if full {
        waits := waits[id := Wait(ev, now)];
      } else {
        EnqueueAll(ev);
      }
    }

    /** A parked broadcaster runs again, for whatever reason: it parks on, or sends after marking the
        consumers it gave up on.  Only a wait of STUCK_WAIT marks a consumer. */
    method Wake(id: nat, now: int)
      requires Valid() && id in waits
      modifies this`waits, this`sent, this`views, views.Keys`ledger, views.Keys`stuck, owner.Keys`items
      ensures Valid() && Acts(maxQueue, old(Now()), Woke(id, now), Now())
      ensures var w := old(waits)[id];
              if AnyFull(old(views), maxQueue) && now - w.start < STUCK_WAIT then
                waits == old(waits) && sent == old(sent) && views == old(views)
              else
                waits == old(waits) - {id} && sent == old(sent) + [w.ev] &&
                views == AfterAll(GivenUp(old(views), maxQueue), w.ev, maxQueue, |old(sent)|)
    {
      hide Coupled, Enrolled, View.Good, View.AfterBroadcast, AnyFull, AfterAll, GivenUp;
      var w := waits[id];
      var full := IsFullActive();
      if full && now - w.start < STUCK_WAIT {
        return;
      }
      MarkFull();
      EnqueueAll(w.ev);
      waits := waits - {id};
    }

    // ----- Listen -----

    method SwapAt(c: Consumer)
      requires Valid() && c in views && !views[c].handling && !views[c].exited
      modifies this`views, c`queue, c`pending, c`pos, c`handling, c`stuck, c`exited, owner.Keys`items
      ensures Valid() && views == old(views)[c := old(views)[c].AfterSwap()]
      ensures Acts(maxQueue, old(Now()), Swapped(c), Now())
    {
      hide Coupled, Enrolled, View.Good;
      ghost var was := views;
      ListeningKeepsGood(was[c], maxQueue, sent);
      Handling(c);
      SwapStep(c);
      EnrolSame(subs, was, views, place);
    }

    lemma Handling(c: Consumer)
      requires Coupled() && c in views
      ensures c.handling == views[c].handling
    {
    }

    method SwapStep(c: Consumer)
      requires Coupled() && c in views && !c.handling
      modifies this`views, c`queue, c`pending, c`pos, c`handling, c`stuck, c`exited, owner.Keys`items
      ensures Coupled() && views == old(views)[c := old(views)[c].AfterSwap()]
    {
      hide View.AfterSwap, Consumer.Valid, Consumer.Seen;
      c.Swap();
      Renew(c);
    }

    method HandleAt(c: Consumer) returns (event: Option<Event>)
      requires Valid() && c in views && views[c].handling && !views[c].exited
      modifies this`views, c`pos, c`handling, c`handled
      ensures Valid() && views == old(views)[c := old(views)[c].AfterHandling()]
      ensures Acts(maxQueue, old(Now()), Handled(c), Now())
      ensures event == if old(views)[c].rest == [] then None else Some(old(views)[c].rest[0])
    {
      hide Coupled, Enrolled, View.Good;
      ghost var was := views;
      ListeningKeepsGood(was[c], maxQueue, sent);
      Handling(c);
      event := HandleStep(c);
      EnrolSame(subs, was, views, place);
    }

    method HandleStep(c: Consumer) returns (event: Option<Event>)
      requires Coupled() && c in views && c.handling
      modifies this`views, c`pos, c`handling, c`handled
      ensures Coupled() && views == old(views)[c := old(views)[c].AfterHandling()]
      ensures event == if old(views)[c].rest == [] then None else Some(old(views)[c].rest[0])
    {
      hide View.AfterHandling, Consumer.Valid, Consumer.Seen;
      event := c.HandleNext();
      Renew(c);
    }
  }
}
