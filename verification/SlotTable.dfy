/**
  Slot binding of one model (internal/router/slotbind.go): which granted request owns which
  upstream slot, and which slots a cut request still occupies.
 */
module SlotTable {
  const SLOT_OBSERVE_STALE := 30_000_000_000  // 30 s, in nanoseconds

  /** A request bound to a slot.  `fired` and `unbound` record what has happened to it. */
  class SlotHolder {
    const slot: nat
    var lastBusy: int
    var released: bool
    ghost var fired: nat      // how often its release callback was launched
    ghost var unbound: bool

    constructor (slot: nat, now: int)
      ensures this.slot == slot && lastBusy == now && !released && !unbound && fired == 0
    {
      this.slot, lastBusy, released, fired, unbound := slot, now, false, 0, false;
    }
  }

  /** The channel that closes when a cut request's slot reads idle. */
  class Orphan {
    var closed: bool

    constructor ()
      ensures !closed
    {
      closed := false;
    }

    /** close(ch): a second close would panic. */
    method Close()
      requires !closed
      modifies this
      ensures closed
    {
      closed := true;
    }
  }

  /** How many of the first n slots are taken, by a request or by an orphan. */
  function Occupied(holders: seq<SlotHolder?>, orphans: seq<Orphan?>, n: nat): (count: nat)
    requires n <= |holders| && n <= |orphans|
    ensures count <= n
  {
    if n == 0 then 0
    else Occupied(holders, orphans, n - 1) + if holders[n - 1] != null || orphans[n - 1] != null then 1 else 0
  }

  /** A free slot exists exactly while fewer than n places are taken: with a cap of n, bind never fails. */
  lemma {:induction false} RoomUnderCap(holders: seq<SlotHolder?>, orphans: seq<Orphan?>, n: nat)
    requires n <= |holders| && n <= |orphans|
    ensures Occupied(holders, orphans, n) < n <==> exists i :: 0 <= i < n && holders[i] == null && orphans[i] == null
  {
    if n > 0 {
      RoomUnderCap(holders, orphans, n - 1);
    }
  }

  class ModelSlots {
    var holders: seq<SlotHolder?>
    var orphans: seq<Orphan?>
    var busy: seq<bool>  // empty when the model is not running
    var lastObserved: int
    ghost var bound: set<SlotHolder>  // every request ever bound
    ghost var cut: set<Orphan>        // every orphan channel ever made

    constructor ()
      ensures Valid() && holders == [] && bound == {} && cut == {}
    {
      holders, orphans, busy, lastObserved, bound, cut := [], [], [], 0, {}, {};
    }

    /** h holds its slot. */
    ghost predicate Live(h: SlotHolder)
      reads this`holders
    {
      h.slot < |holders| && holders[h.slot] == h
    }

    ghost predicate Valid()
      reads this, bound, cut
    {
      InPlace() && Accounted()
    }

    /** An index never has both a holder and an orphan, and a holder sits at its own slot. */
    ghost predicate InPlace()
      reads this`holders, this`orphans, this`bound, this`cut, cut
    {
      && |holders| == |orphans|
      && (forall i :: 0 <= i < |holders| && holders[i] != null ==>
            holders[i] in bound && holders[i].slot == i && orphans[i] == null)
      && (forall i :: 0 <= i < |orphans| && orphans[i] != null ==> orphans[i] in cut && !orphans[i].closed)
      && (forall i, j :: 0 <= i < j < |orphans| && orphans[i] != null ==> orphans[i] != orphans[j])
    }

    /** Every request bound is live, or a phantom that fired once, or unbound; every orphan channel is
        still in the table or has been closed. */
    ghost predicate Accounted()
      reads this`holders, this`orphans, this`bound, this`cut, bound, cut
    {
      && (forall h <- bound :: Live(h) <==> !h.released && !h.unbound)
      && (forall h <- bound :: h.fired == if h.released then 1 else 0)
      && (forall ch <- cut :: ch.closed || ch in orphans)
    }

    predicate Free(i: nat)
      reads this`holders, this`orphans
      requires i < |holders| && |holders| == |orphans|
    {
      holders[i] == null && orphans[i] == null
    }

    /** modelLocked: grows the table to at least n slots. */
    method Grow(n: nat)
      requires Valid()
      modifies this`holders, this`orphans
      ensures Valid() && |holders| >= n && |holders| >= |old(holders)|
      ensures |holders| == if n > |old(holders)| then n else |old(holders)|
      ensures old(holders) <= holders && old(orphans) <= orphans
      ensures forall i :: |old(holders)| <= i < |holders| ==> holders[i] == null && orphans[i] == null
    {
      while |holders| < n
        invariant Valid() && old(holders) <= holders && old(orphans) <= orphans
        invariant |holders| <= if n > |old(holders)| then n else |old(holders)|
        invariant forall i :: |old(holders)| <= i < |holders| ==> holders[i] == null && orphans[i] == null
        decreases n - |holders|
      {
        holders := holders + [null];
        orphans := orphans + [null];
      }
    }

    /** The slot bind picks: the preferred one when it is free, else the lowest free one below n, else -1. */
    method Pick(n: nat, preferred: int) returns (slot: int)
      requires Valid() && n <= |holders|
      ensures -1 <= slot < n && (slot >= 0 ==> Free(slot))
      ensures slot == -1 ==> forall i :: 0 <= i < n ==> holders[i] != null || orphans[i] != null
      ensures 0 <= preferred < n && holders[preferred] == null && orphans[preferred] == null ==> slot == preferred
      ensures slot >= 0 && slot != preferred ==> forall i :: 0 <= i < slot ==> holders[i] != null || orphans[i] != null
    {
      if 0 <= preferred < n && Free(preferred) {
        return preferred;
      }
      for i := 0 to n
        invariant forall k :: 0 <= k < i ==> holders[k] != null || orphans[k] != null
      {
        if Free(i) {
          return i;
        }
      }
      return -1;
    }

    /** bind: the request gets a slot of its own, or nil when none is free. */
    method Bind(n: nat, preferred: int, now: int) returns (h: SlotHolder?)
      requires Valid()
      modifies this`holders, this`orphans, this`bound
      ensures Valid()
      ensures |holders| == if n > |old(holders)| then n else |old(holders)|
      ensures forall i :: 0 <= i < |orphans| ==> orphans[i] == if i < |old(orphans)| then old(orphans)[i] else null
      ensures forall i :: 0 <= i < |holders| && (h == null || i != h.slot) ==>
                holders[i] == if i < |old(holders)| then old(holders)[i] else null
      ensures h == null ==> bound == old(bound) && forall i :: 0 <= i < n ==> holders[i] != null || orphans[i] != null
      ensures h != null ==>
                && fresh(h) && bound == old(bound) + {h} && h.slot < n && Live(h) && h.lastBusy == now
                && (h.slot < |old(holders)| ==> old(holders)[h.slot] == null && old(orphans)[h.slot] == null)
      ensures h != null && h.slot != preferred ==>
                && (forall i :: 0 <= i < h.slot ==> holders[i] != null || orphans[i] != null)
                && (0 <= preferred < n ==> holders[preferred] != null || orphans[preferred] != null)
    {
      hide Accounted;
      Grow(n);
      var slot := Pick(n, preferred);
      if slot < 0 {
        return null;
      }
      h := new SlotHolder(slot, now);
      Place(h);
    }

    /** ms.holders[slot] = h, for a slot that is free. */
    method Place(h: SlotHolder)
      requires Valid() && h !in bound && h.slot < |holders| && Free(h.slot)
      requires !h.released && !h.unbound && h.fired == 0
      modifies this`holders, this`bound
      ensures Valid() && Live(h)
      ensures holders == old(holders)[h.slot := h] && bound == old(bound) + {h}
    {
      holders := holders[h.slot := h];
      bound := bound + {h};
    }

    /** unbind: frees h's slot.  A request cut while the last fresh reading showed its slot busy leaves
        an orphan behind.  A phantom's late unbind changes nothing. */
    method Unbind(h: SlotHolder, wasCut: bool, now: int) returns (idle: Orphan?)
      requires Valid() && h in bound && !h.unbound
      modifies this`holders, this`orphans, this`cut, h`unbound
      ensures Valid() && |holders| == |old(holders)|
      ensures h.released ==> idle == null && holders == old(holders) && orphans == old(orphans) && cut == old(cut)
      ensures !h.released ==> holders == old(holders)[h.slot := null] && h.unbound
      ensures idle != null <==>
                !h.released && wasCut && h.slot < |busy| && busy[h.slot] && now - lastObserved <= SLOT_OBSERVE_STALE
      ensures idle != null ==> fresh(idle) && orphans == old(orphans)[h.slot := idle] && cut == old(cut) + {idle}
      ensures idle == null ==> orphans == old(orphans) && cut == old(cut)
    {
      idle := null;
      if h.released {
        return;
      }
      if holders[h.slot] == h {
        holders := holders[h.slot := null];
      }
      h.unbound := true;
      if !wasCut || h.slot >= |busy| || !busy[h.slot] || now - lastObserved > SLOT_OBSERVE_STALE {
        return;
      }
      idle := new Orphan();
      Occupy(h.slot, idle);
    }

    /** ms.orphans[slot] = ch, for a slot that is free. */
    method Occupy(slot: nat, ch: Orphan)
      requires Valid() && slot < |orphans| && Free(slot) && ch !in cut && !ch.closed
      modifies this`orphans, this`cut
      ensures Valid() && orphans == old(orphans)[slot := ch] && cut == old(cut) + {ch}
    {
      orphans := orphans[slot := ch];
      cut := cut + {ch};
      assert orphans[slot] == ch;
      forall c | c in cut && !c.closed
        ensures c in orphans
      {
        if c != ch {
          var k :| 0 <= k < |old(orphans)| && old(orphans)[k] == c;
          assert orphans[k] == c;
        }
      }
    }

    predicate ReadsBusy(reading: seq<bool>, i: nat) {
      i < |reading| && reading[i]
    }

    predicate LongIdle(isBusy: bool, lastBusy: int, phantomAfter: int, now: int) {
      !isBusy && phantomAfter > 0 && now - lastBusy >= phantomAfter
    }

    /** A bound request whose slot has read idle for phantomAfter. */
    ghost predicate IsPhantom(h: SlotHolder?, reading: seq<bool>, phantomAfter: int, now: int)
      reads h
    {
      h != null && LongIdle(ReadsBusy(reading, h.slot), h.lastBusy, phantomAfter, now)
    }

    /** close(ch); ms.orphans[i] = nil */
    method CloseOrphan(i: nat)
      requires Valid() && i < |orphans| && orphans[i] != null
      modifies this`orphans, orphans[i]
      ensures Valid() && orphans == old(orphans)[i := null] && old(orphans)[i].closed
    {
      var ch := orphans[i];
      ch.Close();
      orphans := orphans[i := null];
      forall c | c in cut && !c.closed
        ensures c in orphans
      {
        var k :| 0 <= k < |old(orphans)| && old(orphans)[k] == c;
        assert orphans[k] == c;
      }
    }

    /** observe with busy == nil, the model is not running: every orphan is let go. */
    method ObserveStopped()
      requires Valid()
      modifies this`orphans, this`busy, cut
      ensures Valid() && |orphans| == |old(orphans)| && busy == []
      ensures forall i :: 0 <= i < |orphans| ==> orphans[i] == null
      ensures forall ch <- cut :: ch.closed
    {
      for i := 0 to |orphans|
        invariant Valid() && |orphans| == |old(orphans)|
        invariant forall k :: 0 <= k < i ==> orphans[k] == null
      {
        if orphans[i] != null {
          CloseOrphan(i);
        }
      }
      busy := [];
    }

    ghost function At(i: nat): set<SlotHolder>
      requires i < |holders|
      reads this`holders
    {
      if holders[i] == null then {} else {holders[i]}
    }

    /** The part of observe for slot i.  `fired` is the phantom whose release it launches, if any. */
    method ObserveSlot(i: nat, isBusy: bool, phantomAfter: int, now: int) returns (fired: SlotHolder?)
      requires Valid() && i < |holders|
      modifies this`holders, this`orphans, At(i)`lastBusy, At(i)`released, At(i)`fired, orphans[i]
      ensures Valid()
      ensures orphans == if isBusy then old(orphans) else old(orphans)[i := null]
      ensures !isBusy && old(orphans)[i] != null ==> old(orphans)[i].closed
      ensures isBusy && old(orphans)[i] != null ==> !old(orphans)[i].closed
      ensures holders == if fired != null then old(holders)[i := null] else old(holders)
      ensures fired != null <==>
                old(holders)[i] != null && LongIdle(isBusy, old(holders[i].lastBusy), phantomAfter, now)
      ensures fired != null ==> fired == old(holders)[i] && fired.released && fired.fired == 1
      ensures old(holders)[i] != null ==>
                && old(holders)[i].lastBusy == (if isBusy then now else old(holders[i].lastBusy))
                && old(holders)[i].released == (fired != null)
    {
      fired := null;
      if orphans[i] != null && !isBusy {
        CloseOrphan(i);
      }
      var h := holders[i];
      if h == null {
        return;
      }
      if isBusy {
        h.lastBusy := now;
        return;
      }
      if phantomAfter > 0 && now - h.lastBusy >= phantomAfter {
        h.released := true;
        h.fired := h.fired + 1;
        holders := holders[i := null];
        fired := h;
      }
    }

    /** observe with a reading of the running model.  `releases` are the phantoms let go, in slot order. */
    method Observe(reading: seq<bool>, phantomAfter: int, now: int) returns (releases: seq<SlotHolder>)
      requires Valid()
      modifies this`holders, this`orphans, this`busy, this`lastObserved
      modifies bound`lastBusy, bound`released, bound`fired, cut
      ensures Valid() && busy == reading && lastObserved == now
      ensures |holders| == if |reading| > |old(holders)| then |reading| else |old(holders)|
      ensures forall i :: |old(holders)| <= i < |holders| ==> holders[i] == null && orphans[i] == null
      // orphans: exactly the channels of slots that read idle close
      ensures forall i :: 0 <= i < |old(orphans)| ==> orphans[i] == if ReadsBusy(reading, i) then old(orphans)[i]
                else null
      ensures forall i :: 0 <= i < |old(orphans)| && old(orphans)[i] != null ==>
                (old(orphans)[i].closed <==> !ReadsBusy(reading, i))
      // holders: exactly the phantoms are let go, each once
      ensures forall i :: 0 <= i < |old(holders)| ==>
                holders[i] == if old(IsPhantom(holders[i], reading, phantomAfter, now)) then null else old(holders)[i]
      ensures forall i :: 0 <= i < |old(holders)| && old(holders)[i] != null ==>
                && old(holders)[i].lastBusy == (if ReadsBusy(reading, i) then now else old(holders[i].lastBusy))
                && (old(holders)[i].released <==> old(IsPhantom(holders[i], reading, phantomAfter, now)))
      // a phantom is a bound request whose slot has not read busy for phantomAfter, when that is set
      ensures forall i :: 0 <= i < |old(holders)| && old(holders)[i] != null ==>
                (holders[i] == null <==>
                   && phantomAfter > 0 && (i >= |reading| || !reading[i])
                   && now - old(holders[i].lastBusy) >= phantomAfter)
      ensures forall i :: 0 <= i < |old(orphans)| && old(orphans)[i] != null ==>
                (orphans[i] == null <==> i >= |reading| || !reading[i])
      ensures forall h <- bound :: !old(Live(h)) ==> h.fired == old(h.fired)
      ensures forall h :: h in releases <==> h in bound && old(Live(h) && IsPhantom(h, reading, phantomAfter, now))
      ensures forall a, b :: 0 <= a < b < |releases| ==> releases[a].slot < releases[b].slot
    {
      Grow(|reading|);
      busy := reading;
      lastObserved := now;
      assert forall h <- bound :: Live(h) <==> old(Live(h));
      releases := Sweep(reading, phantomAfter, now);
    }

    /** The loop of observe over every slot. */
    method Sweep(reading: seq<bool>, phantomAfter: int, now: int) returns (releases: seq<SlotHolder>)
      requires Valid()
      modifies this`holders, this`orphans, bound`lastBusy, bound`released, bound`fired, cut
      ensures Valid() && |holders| == |old(holders)|
      ensures forall i :: 0 <= i < |orphans| ==> orphans[i] == if ReadsBusy(reading, i) then old(orphans)[i] else null
      ensures forall i :: 0 <= i < |orphans| && old(orphans)[i] != null ==>
                (old(orphans)[i].closed <==> !ReadsBusy(reading, i))
      ensures forall i :: 0 <= i < |holders| ==>
                holders[i] == if old(IsPhantom(holders[i], reading, phantomAfter, now)) then null else old(holders)[i]
      ensures forall i :: 0 <= i < |holders| && old(holders)[i] != null ==>
                && old(holders)[i].lastBusy == (if ReadsBusy(reading, i) then now else old(holders[i].lastBusy))
                && (old(holders)[i].released <==> old(IsPhantom(holders[i], reading, phantomAfter, now)))
      ensures forall h <- bound :: !old(Live(h)) ==> h.fired == old(h.fired)
      ensures forall h :: h in releases <==> h in bound && old(Live(h) && IsPhantom(h, reading, phantomAfter, now))
      ensures forall a, b :: 0 <= a < b < |releases| ==> releases[a].slot < releases[b].slot
    {
      assert forall i :: 0 <= i < |holders| && holders[i] != null ==> Live(holders[i]) && !holders[i].released;
      ghost var last, late := Snapshot(reading, phantomAfter, now);
      releases := [];
      ghost var hs, os := holders, orphans;
      for i := 0 to |holders|
        invariant Valid() && |holders| == |hs| == |late| && Distinct(hs, os)
        invariant Swept(i, hs, os, last, late, reading, now)
        invariant Listed(releases, i, hs, late)
        invariant forall h <- bound :: !old(Live(h)) ==> h.fired == old(h.fired)
      {
        hide Accounted, InPlace, LongIdle, IsPhantom, Swept, Listed, Distinct;
        ListNext(releases, i, hs, os, late);
        var fired := SweepAt(i, hs, os, last, late, reading, phantomAfter, now);
        if fired != null {
          releases := releases + [fired];
        }
      }
    }

    method SweepAt(i: nat, ghost hs: seq<SlotHolder?>, ghost os: seq<Orphan?>, ghost last: seq<int>,
                   ghost late: seq<bool>,
                   reading: seq<bool>, phantomAfter: int, now: int)
      returns (fired: SlotHolder?)
      requires Valid() && i < |holders| && Swept(i, hs, os, last, late, reading, now) && Distinct(hs, os)
      requires late[i] == (hs[i] != null && LongIdle(ReadsBusy(reading, i), last[i], phantomAfter, now))
      modifies this`holders, this`orphans, At(i)`lastBusy, At(i)`released, At(i)`fired, orphans[i]
      ensures Valid() && Swept(i + 1, hs, os, last, late, reading, now)
      ensures fired == if late[i] then hs[i] else null
      ensures forall h <- bound :: h != hs[i] ==> h.fired == old(h.fired)
    {
      hide Accounted, InPlace, LongIdle;
      fired := ObserveSlot(i, ReadsBusy(reading, i), phantomAfter, now);
    }

    ghost predicate Distinct(hs: seq<SlotHolder?>, os: seq<Orphan?>) {
      && (forall k :: 0 <= k < |hs| && hs[k] != null ==> hs[k].slot == k)
      && (forall j, k :: 0 <= j < k < |os| && os[j] != null ==> os[j] != os[k])
    }

    lemma ListNext(releases: seq<SlotHolder>, i: nat, hs: seq<SlotHolder?>, os: seq<Orphan?>, late: seq<bool>)
      requires i < |hs| == |late| && Distinct(hs, os) && Listed(releases, i, hs, late) && (late[i] ==> hs[i] != null)
      ensures !late[i] ==> Listed(releases, i + 1, hs, late)
      ensures late[i] ==> Listed(releases + [hs[i]], i + 1, hs, late)
    {
    }

    /** The phantoms among the first i slots, in slot order. */
    ghost predicate Listed(releases: seq<SlotHolder>, i: nat, hs: seq<SlotHolder?>, late: seq<bool>)
      requires i <= |hs| == |late|
    {
      && (forall r :: 0 <= r < |releases| ==>
            releases[r].slot < i && late[releases[r].slot] && hs[releases[r].slot] == releases[r])
      && (forall k :: 0 <= k < i && late[k] ==> hs[k] in releases)
      && (forall a, b :: 0 <= a < b < |releases| ==> releases[a].slot < releases[b].slot)
    }

    /** Slots below i have seen the reading, the others are as they were. */
    ghost predicate Swept(i: nat, hs: seq<SlotHolder?>, os: seq<Orphan?>, last: seq<int>, late: seq<bool>,
                          reading: seq<bool>, now: int)
      reads this`holders, this`orphans, this`bound, this`cut, bound, cut
    {
      && |holders| == |orphans| == |hs| == |os| == |last| == |late|
      && (forall k :: i <= k < |hs| ==> holders[k] == hs[k] && orphans[k] == os[k])
      && (forall k :: 0 <= k < i <= |hs| ==> orphans[k] == if ReadsBusy(reading, k) then os[k] else null)
      && (forall k :: 0 <= k < |os| && os[k] != null ==>
            os[k] in cut && (os[k].closed <==> k < i && !ReadsBusy(reading, k)))
      && (forall k :: 0 <= k < i <= |hs| ==> holders[k] == if late[k] then null else hs[k])
      && (forall k :: 0 <= k < |hs| && hs[k] != null ==>
            && hs[k] in bound
            && hs[k].lastBusy == (if k < i && ReadsBusy(reading, k) then now else last[k])
            && (hs[k].released <==> k < i && late[k]))
    }

    ghost method Snapshot(reading: seq<bool>, phantomAfter: int, now: int) returns (last: seq<int>, late: seq<bool>)
      requires Valid()
      ensures |last| == |late| == |holders|
      ensures forall k :: 0 <= k < |holders| && holders[k] != null ==>
                last[k] == holders[k].lastBusy && late[k] == LongIdle(ReadsBusy(reading, k), last[k], phantomAfter, now)
      ensures forall k :: 0 <= k < |holders| ==> late[k] == IsPhantom(holders[k], reading, phantomAfter, now)
    {
      last, late := [], [];
      while |last| < |holders|
        invariant |last| == |late| <= |holders|
        invariant forall k :: 0 <= k < |last| && holders[k] != null ==>
                    last[k] == holders[k].lastBusy
                        && late[k] == LongIdle(ReadsBusy(reading, k), last[k], phantomAfter, now)
        invariant forall k :: 0 <= k < |last| ==> late[k] == IsPhantom(holders[k], reading, phantomAfter, now)
      {
        var h := holders[|last|];
        late := late + [IsPhantom(h, reading, phantomAfter, now)];
        last := last + [if h == null then 0 else h.lastBusy];
      }
    }
  }
}
