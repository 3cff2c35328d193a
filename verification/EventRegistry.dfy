/**
  The dispatcher's registry of groups (internal/event/event.go:21-153): sorted arrays, searched without
  a lock and replaced as a whole, so a reader's copy never changes under it.
 */
module EventRegistry {
  import opened Basics

  /** A consumer group, known by its number. */
  type GroupId = nat

  predicate Sorted(keys: seq<nat>) {
    forall i, j :: 0 <= i < j < |keys| ==> keys[i] < keys[j]
  }

  /** The group a table lists for an event type. */
  function Lookup(keys: seq<nat>, grps: seq<GroupId>, k: nat): Option<GroupId>
    requires |keys| == |grps|
  {
    if keys == [] then None
    else if keys[0] == k then Some(grps[0])
    else Lookup(keys[1..], grps[1..], k)
  }

  /** In a sorted table the entry is where the search ends, or nowhere. */
  lemma {:induction false} LookupAt(keys: seq<nat>, grps: seq<GroupId>, k: nat, left: nat)
    requires |keys| == |grps| && left <= |keys|
    requires forall i :: 0 <= i < left ==> keys[i] < k
    requires Sorted(keys) && forall i :: left <= i < |keys| ==> keys[i] >= k
    ensures Lookup(keys, grps, k) == if left < |keys| && keys[left] == k then Some(grps[left]) else None
  {
    if keys == [] || keys[0] == k {
    } else if left == 0 {
      LookupAbove(keys[1..], grps[1..], k);
    } else {
      LookupAt(keys[1..], grps[1..], k, left - 1);
    }
  }

  lemma {:induction false} LookupAbove(keys: seq<nat>, grps: seq<GroupId>, k: nat)
    requires |keys| == |grps| && forall i :: 0 <= i < |keys| ==> keys[i] > k
    ensures Lookup(keys, grps, k) == None
  {
    if keys != [] {
      LookupAbove(keys[1..], grps[1..], k);
    }
  }

  /** One more entry, wherever it goes, answers for its own type and no other. */
  lemma {:induction false} LookupInserted(keys: seq<nat>, grps: seq<GroupId>, idx: nat, eventType: nat, g: GroupId,
                                          k: nat)
    requires |keys| == |grps| && idx <= |keys| && eventType !in keys
    ensures Lookup(keys[..idx] + [eventType] + keys[idx..], grps[..idx] + [g] + grps[idx..], k) ==
              if k == eventType then Some(g) else Lookup(keys, grps, k)
  {
    var newKeys, newGrps := keys[..idx] + [eventType] + keys[idx..], grps[..idx] + [g] + grps[idx..];
    if idx == 0 {
      assert newKeys[1..] == keys && newGrps[1..] == grps;
    } else {
      assert newKeys[1..] == keys[1..][..idx - 1] + [eventType] + keys[1..][idx - 1..];
      assert newGrps[1..] == grps[1..][..idx - 1] + [g] + grps[1..][idx - 1..];
      LookupInserted(keys[1..], grps[1..], idx - 1, eventType, g, k);
    }
  }

  class Registry {
    const keys: array<nat>
    const grps: array<GroupId>

    constructor (keys: array<nat>, grps: array<GroupId>)
      requires keys.Length == grps.Length
      ensures this.keys == keys && this.grps == grps
    {
      this.keys, this.grps := keys, grps;
    }

    ghost predicate Valid()
      reads keys, grps
    {
      keys.Length == grps.Length && Sorted(keys[..])
    }

    /** What a lookup of event type k finds. */
    ghost function At(k: nat): Option<GroupId>
      reads keys, grps
      requires Valid()
    {
      Lookup(keys[..], grps[..], k)
    }

    /** The first place whose key is at least eventType. */
    method Search(eventType: nat) returns (left: nat)
      requires Valid()
      ensures left <= keys.Length
      ensures forall i :: 0 <= i < left ==> keys[i] < eventType
      ensures forall i :: left <= i < keys.Length ==> keys[i] >= eventType
    {
      left := 0;
      var right := keys.Length;
      while left < right
        invariant left <= right <= keys.Length
        invariant forall i :: 0 <= i < left ==> keys[i] < eventType
        invariant forall i :: right <= i < keys.Length ==> keys[i] >= eventType
      {
        var mid := left + (right - left) / 2;
        assert forall i :: 0 <= i < keys.Length ==> keys[i] == keys[..][i];
        if keys[mid] < eventType {
          left := mid + 1;
        } else {
          right := mid;
        }
      }
    }

    /** findGroup */
    method FindGroup(eventType: nat) returns (g: Option<GroupId>)
      requires Valid()
      ensures g == At(eventType)
    {
      var left := Search(eventType);
      LookupAt(keys[..], grps[..], eventType, left);
      if left < keys.Length && keys[left] == eventType {
        return Some(grps[left]);
      }
      return None;
    }

    /** The copy SubscribeTo stores: one more entry, in its sorted place. */
    method Insert(eventType: nat, g: GroupId) returns (next: Registry)
      requires Valid() && At(eventType).None?
      ensures fresh(next) && fresh(next.keys) && fresh(next.grps)
      ensures next.Valid()
      ensures forall k :: next.At(k) == if k == eventType then Some(g) else At(k)
    {
      var idx := Search(eventType);
      LookupAt(keys[..], grps[..], eventType, idx);
      assert eventType !in keys[..];
      var newKeys := Spliced(keys, idx, eventType);
      var newGrps := Spliced(grps, idx, g);
      next := new Registry(newKeys, newGrps);
      hide Lookup;
      InsertedSorted(keys[..], idx, eventType, newKeys[..]);
      forall k {
        LookupInserted(keys[..], grps[..], idx, eventType, g, k);
      }
    }
  }

  /** A copy with one more element at idx. */
  method Spliced(a: array<nat>, idx: nat, x: nat) returns (b: array<nat>)
    requires idx <= a.Length
    ensures fresh(b) && b[..] == a[..idx] + [x] + a[idx..]
  {
    b := new nat[a.Length + 1];
    forall i | 0 <= i < idx {
      b[i] := a[i];
    }
    b[idx] := x;
    forall i | idx <= i < a.Length {
      b[i + 1] := a[i];
    }
  }

  lemma InsertedSorted(keys: seq<nat>, idx: nat, eventType: nat, newKeys: seq<nat>)
    requires Sorted(keys) && idx <= |keys| && eventType !in keys
    requires forall i :: 0 <= i < idx ==> keys[i] < eventType
    requires forall i :: idx <= i < |keys| ==> eventType <= keys[i]
    requires newKeys == keys[..idx] + [eventType] + keys[idx..]
    ensures Sorted(newKeys)
  {
  }

  class Dispatcher {
    var subs: Registry
    var closed: bool

    constructor ()
      ensures Valid() && fresh(subs) && fresh(subs.keys) && fresh(subs.grps) && (forall k :: subs.At(k).None?)
                && !closed
    {
      var keys := new nat[0];
      var grps := new GroupId[0];
      subs := new Registry(keys, grps);
      closed := false;
    }

    ghost predicate Valid()
      reads this, subs.keys, subs.grps
    {
      subs.Valid()
    }

    /** SubscribeTo: the event type's group, made on first use.  A closed dispatcher panics. */
    method SubscribeTo(eventType: nat, newGroup: GroupId) returns (g: Option<GroupId>)
      requires Valid()
      modifies this`subs
      ensures Valid() && (subs == old(subs) || fresh(subs))
      ensures g.None? <==> closed
      ensures closed || old(subs.At(eventType)).Some? ==> subs == old(subs)
      ensures !closed ==> g.Some? && g == subs.At(eventType)
      ensures !closed && old(subs.At(eventType)).None? ==> g == Some(newGroup)
      ensures forall k :: k != eventType ==> subs.At(k) == old(subs.At(k))
      // copy-on-write: what a reader loaded before stays as it was
      ensures unchanged(old(subs).keys) && unchanged(old(subs).grps)
    {
      hide Lookup;
      if closed {
        return None;
      }
      g := subs.FindGroup(eventType);
      if g.None? {
        subs := subs.Insert(eventType, newGroup);
        g := Some(newGroup);
      }
    }
  }
}
