/**
  The circular log buffer (internal/logmon/logging.go:26-90): a fixed byte array whose history is always
  the last bytes written, as many as fit.
 */
module CircularBuffer {

  type byte = bv8

  /** The last n elements of s, or all of it. */
  function Last(s: seq<byte>, n: nat): (r: seq<byte>)
    ensures |r| == (if n < |s| then n else |s|) && r <= s[|s| - |r|..]
  {
    if n < |s| then s[|s| - n..] else s
  }

  /** Only the last n elements of what came before matter. */
  lemma LastOfAppend(s: seq<byte>, p: seq<byte>, n: nat)
    ensures Last(s + p, n) == Last(Last(s, n) + p, n)
  {
    if n < |s| {
      assert s + p == s[..|s| - n] + (s[|s| - n..] + p);
    }
  }

  function Joined(writes: seq<seq<byte>>): seq<byte> {
    if writes == [] then [] else Joined(writes[..|writes| - 1]) + writes[|writes| - 1]
  }

  /** A buffer that forgets after every write. */
  function Kept(writes: seq<seq<byte>>, n: nat): seq<byte> {
    if writes == [] then [] else Last(Kept(writes[..|writes| - 1], n) + writes[|writes| - 1], n)
  }

  /** Forgetting as it goes loses nothing that the last n bytes of everything would have. */
  lemma {:induction false} KeptIsLast(writes: seq<seq<byte>>, n: nat)
    ensures Kept(writes, n) == Last(Joined(writes), n)
  {
    if writes != [] {
      var front := writes[..|writes| - 1];
      KeptIsLast(front, n);
      LastOfAppend(Joined(front), writes[|writes| - 1], n);
    }
  }

  /** Go's % on operands that are not negative. */
  function Mod(x: nat, cap: nat): nat
    requires cap > 0
  {
    x % cap
  }

  lemma Wraps(x: nat, cap: nat)
    requires x < 2 * cap
    ensures Mod(x, cap) == if x < cap then x else x - cap
  {
    if x >= cap {
      assert x % cap == (x - cap) % cap;
    }
  }

  class Buffer {
    const data: array<byte>
    var head: nat
    var size: nat
    ghost var written: seq<byte>       // everything ever written
    ghost var writes: seq<seq<byte>>   // the same, call by call

    constructor (capacity: nat)
      ensures Valid() && fresh(data) && data.Length == capacity && written == [] && writes == []
    {
      data := new byte[capacity];
      head, size, written, writes := 0, 0, [], [];
    }

    /** How many bytes were written after the one at place j. */
    ghost function Back(head: nat, j: nat): int {
      if j < head then head - 1 - j else head - 1 - j + data.Length
    }

    ghost predicate Valid()
      reads this, data
    {
      && size == (if |written| < data.Length then |written| else data.Length)
      && (if data.Length == 0 then head == 0 else head < data.Length)
      && written == Joined(writes)
      && forall j :: 0 <= j < data.Length && Back(head, j) < size ==> data[j] == written[|written| - 1 - Back(head, j)]
    }

    /** copy(data[at..], p) */
    method Copy(at: nat, p: seq<byte>)
      requires at + |p| <= data.Length
      modifies data
      ensures forall j :: 0 <= j < data.Length ==> data[j] == if at <= j < at + |p| then p[j - at] else old(data[j])
    {
      forall j | at <= j < at + |p| {
        data[j] := p[j - at];
      }
    }

    method Write(p: seq<byte>)
      requires Valid()
      modifies this`head, this`size, this`written, this`writes, data
      ensures Valid() && written == old(written) + p && writes == old(writes) + [p]
    {
      assert (writes + [p])[..|writes|] == writes;
      writes := writes + [p];
      if |p| == 0 {
        return;
      }
      var cap := data.Length;
      if |p| >= cap {
        written := written + p;
        Copy(0, p[|p| - cap..]);
        head := 0;
        size := cap;
        return;
      }
      Put(p);
      size := size + |p|;
      if size > cap {
        size := cap;
      }
      written := written + p;
    }

    /** The part of Write that copies p, in one piece or two, and moves the head past it. */
    method Put(p: seq<byte>)
      requires 0 < |p| < data.Length && head < data.Length
      modifies this`head, data
      ensures head < data.Length
      // the places p went to are the last |p|, and every other place is |p| further back
      ensures forall j :: 0 <= j < data.Length ==>
                if Back(head, j) < |p| then data[j] == p[|p| - 1 - Back(head, j)]
                else data[j] == old(data[j]) && Back(head, j) == Back(old(head), j) + |p|
    {
      hide Mod;
      var cap := data.Length;
      var firstPart := cap - head;
      if firstPart >= |p| {
        Copy(head, p);
        Wraps(head + |p|, cap);
        head := Mod(head + |p|, cap);
      } else {
        Copy(head, p[..firstPart]);
        Copy(0, p[firstPart..]);
        head := |p| - firstPart;
      }
    }

    method GetHistory() returns (result: seq<byte>)
      requires Valid()
      ensures result == Last(written, data.Length) && written == Joined(writes)
      ensures result == Kept(writes, data.Length)
    {
      hide Joined, Kept, Last;
      KeptIsLast(writes, data.Length);
      if size == 0 {
        NothingKept();
        return [];
      }
      var cap := data.Length;
      Wraps(head - size + cap, cap);
      hide Mod;
      var start := Mod(head - size + cap, cap);
      result := Around(start);
      Oldest(result, start);
    }

    /** The part of GetHistory that copies size bytes from start on, in one piece or two. */
    method Around(start: nat) returns (result: seq<byte>)
      requires start < data.Length && size <= data.Length
      ensures |result| == size
      ensures forall i :: 0 <= i < size ==>
                result[i] == data[if start + i < data.Length then start + i else start + i - data.Length]
    {
      var cap := data.Length;
      if start + size <= cap {
        result := data[start..start + size];
      } else {
        var firstPart := cap - start;
        result := data[start..] + data[..size - firstPart];
      }
    }

    lemma NothingKept()
      requires Valid() && size == 0
      ensures Last(written, data.Length) == []
    {
    }

    /** The bytes from start on, around the end, are the last ones written. */
    lemma Oldest(result: seq<byte>, start: nat)
      requires Valid() && size > 0 && |result| == size
      requires start == if head >= size then head - size else head - size + data.Length
      requires forall i :: 0 <= i < size ==>
                 result[i] == data[if start + i < data.Length then start + i else start + i - data.Length]
      ensures result == Last(written, data.Length)
    {
      forall i | 0 <= i < size
        ensures result[i] == written[|written| - size + i]
      {
        var j := if start + i < data.Length then start + i else start + i - data.Length;
        assert Back(head, j) == size - 1 - i;
      }
    }
  }
}
