/**
  The sliding-window minimum of the memory brake (internal/membrake/brake.go, push and the
  deque inside trackRise): a monotonic deque in a fixed ring, proved against the plain minimum
  of the samples in the trailing window.
 */
module MinRing {

  datatype Sample = Sample(t: int, v: int)

  // ---- the naive minimum ----

  ghost predicate InWindow(s: Sample, now: int, win: int) {
    now - s.t <= win
  }

  /** m is the least value of the samples no older than the window. */
  ghost predicate IsWindowMin(m: int, hist: seq<Sample>, now: int, win: int) {
    && (exists k :: 0 <= k < |hist| && InWindow(hist[k], now, win) && hist[k].v == m)
    && (forall k :: 0 <= k < |hist| && InWindow(hist[k], now, win) ==> m <= hist[k].v)
  }

  ghost predicate Ordered(hist: seq<Sample>) {
    forall i, j :: 0 <= i < j < |hist| ==> hist[i].t <= hist[j].t
  }

  /** Samples never run ahead of one per interval by more than `slack` intervals. */
  ghost predicate Paced(hist: seq<Sample>, interval: int, slack: int) {
    forall i, j :: 0 <= i <= j < |hist| ==> (j - i - slack) * interval <= hist[j].t - hist[i].t
  }

  ghost function Least(hist: seq<Sample>, now: int, win: int, start: int): int {
    if hist == [] then start
    else
      var last := hist[|hist| - 1];
      var before := Least(hist[..|hist| - 1], now, win, start);
      if InWindow(last, now, win) && last.v < before then last.v else before
  }

  /** The minimum of the samples no older than the window, the last one included. */
  ghost function WindowMin(hist: seq<Sample>, win: int): int
    requires hist != []
  {
    var last := hist[|hist| - 1];
    Least(hist[..|hist| - 1], last.t, win, last.v)
  }

  lemma {:induction false} LeastIsLeast(hist: seq<Sample>, now: int, win: int, start: int)
    ensures Least(hist, now, win, start) <= start
    ensures forall k :: 0 <= k < |hist| && InWindow(hist[k], now, win) ==> Least(hist, now, win, start) <= hist[k].v
    ensures Least(hist, now, win, start) == start
            || exists k :: 0 <= k < |hist| && InWindow(hist[k], now, win) && hist[k].v == Least(hist, now, win, start)
  {
    if hist != [] {
      LeastIsLeast(hist[..|hist| - 1], now, win, start);
    }
  }

  lemma WindowMinIsMin(hist: seq<Sample>, win: int)
    requires hist != [] && win >= 0
    ensures IsWindowMin(WindowMin(hist, win), hist, hist[|hist| - 1].t, win)
  {
    var last := hist[|hist| - 1];
    var front := hist[..|hist| - 1];
    LeastIsLeast(front, last.t, win, last.v);
    var m := WindowMin(hist, win);
    forall k | 0 <= k < |hist| && InWindow(hist[k], last.t, win)
      ensures m <= hist[k].v
    {
      if k < |front| {
        assert hist[k] == front[k];
      }
    }
    if m == last.v {
      assert InWindow(hist[|hist| - 1], last.t, win);
    } else {
      var k :| 0 <= k < |front| && InWindow(front[k], last.t, win) && front[k].v == m;
      assert hist[k] == front[k];
    }
  }

  lemma WindowMinUnique(m: int, hist: seq<Sample>, win: int)
    requires hist != [] && win >= 0 && IsWindowMin(m, hist, hist[|hist| - 1].t, win)
    ensures m == WindowMin(hist, win)
  {
    WindowMinIsMin(hist, win);
  }

  // ---- the deque as a sequence ----

  /** Drops from the back every value that is at least v. */
  function PopBack(dq: seq<Sample>, v: int): (r: seq<Sample>)
    ensures r <= dq
  {
    if dq != [] && dq[|dq| - 1].v >= v then PopBack(dq[..|dq| - 1], v) else dq
  }

  /** Drops the entries older than the window, but never the last one. */
  function DropOld(dq: seq<Sample>, now: int, win: int): (r: seq<Sample>)
    ensures |r| <= |dq|
  {
    if |dq| > 1 && now - dq[0].t > win then DropOld(dq[1..], now, win) else dq
  }

  /** What one push makes of the deque in a ring of c entries. */
  function Push(dq: seq<Sample>, c: nat, s: Sample, win: int): (r: seq<Sample>)
    requires c > 0
  {
    var kept := PopBack(dq, s.v);
    var room := if |kept| == c then kept[1..] else kept;
    DropOld(room + [s], s.t, win)
  }

  /** ks are the places in hist of the deque's entries: values rise, the last sample is there,
      everything is in the window, and every windowed sample has an entry at or after it that is no larger. */
  ghost predicate IsChain(dq: seq<Sample>, ks: seq<nat>, hist: seq<Sample>, win: int) {
    && IsRising(dq, ks, hist)
    && (forall i :: 0 <= i < |dq| ==> InWindow(dq[i], hist[|hist| - 1].t, win))
    && (forall k {:trigger HasCover(dq, ks, k, hist[k].v)} ::
          0 <= k < |hist| && InWindow(hist[k], hist[|hist| - 1].t, win) ==> HasCover(dq, ks, k, hist[k].v))
  }

  /** Entries are samples of hist at rising places with rising values, up to the last sample. */
  ghost predicate IsRising(dq: seq<Sample>, ks: seq<nat>, hist: seq<Sample>) {
    && |dq| == |ks| && dq != [] && hist != []
    && (forall i :: 0 <= i < |ks| ==> ks[i] < |hist| && dq[i] == hist[ks[i]])
    && (forall i, j :: 0 <= i < j < |ks| ==> ks[i] < ks[j] && dq[i].v < dq[j].v)
    && ks[|ks| - 1] == |hist| - 1
  }

  ghost predicate HasCover(dq: seq<Sample>, ks: seq<nat>, k: nat, v: int) {
    exists i :: 0 <= i < |ks| && i < |dq| && ks[i] >= k && dq[i].v <= v
  }

  /** The deque belongs to the samples seen since the last reset. */
  ghost predicate IsMinDeque(dq: seq<Sample>, hist: seq<Sample>, win: int) {
    if hist == [] then dq == [] else exists ks :: IsChain(dq, ks, hist, win)
  }

  /** The head of the deque is the minimum of the trailing window. */
  lemma HeadIsWindowMin(dq: seq<Sample>, hist: seq<Sample>, win: int)
    requires IsMinDeque(dq, hist, win) && hist != []
    ensures dq != [] && IsWindowMin(dq[0].v, hist, hist[|hist| - 1].t, win)
  {
    var ks :| IsChain(dq, ks, hist, win);
    var now := hist[|hist| - 1].t;
    forall k | 0 <= k < |hist| && InWindow(hist[k], now, win)
      ensures dq[0].v <= hist[k].v
    {
      assert HasCover(dq, ks, k, hist[k].v);
      var i :| 0 <= i < |ks| && ks[i] >= k && dq[i].v <= hist[k].v;
    }
    assert hist[ks[0]] == dq[0];
  }

  lemma {:induction false} PopBackKeepsSmaller(dq: seq<Sample>, v: int)
    requires forall i, j :: 0 <= i < j < |dq| ==> dq[i].v < dq[j].v
    ensures forall i :: 0 <= i < |dq| ==> (i < |PopBack(dq, v)| <==> dq[i].v < v)
  {
    if dq != [] && dq[|dq| - 1].v >= v {
      PopBackKeepsSmaller(dq[..|dq| - 1], v);
    }
  }

  /** On entries in time order, DropOld keeps exactly the windowed ones, when the last one is in the window. */
  lemma {:induction false} DropOldKeepsWindow(dq: seq<Sample>, now: int, win: int)
    requires dq != [] && Ordered(dq) && InWindow(dq[|dq| - 1], now, win)
    ensures var d := |dq| - |DropOld(dq, now, win)|;
            && d < |dq| && DropOld(dq, now, win) == dq[d..]
            && (forall i :: 0 <= i < d ==> !InWindow(dq[i], now, win))
            && (forall i :: d <= i < |dq| ==> InWindow(dq[i], now, win))
  {
    if |dq| > 1 && now - dq[0].t > win {
      DropOldKeepsWindow(dq[1..], now, win);
    }
  }

  /** With room in the ring, one push keeps the deque exact. */
  lemma PushKeepsMinDeque(dq: seq<Sample>, hist: seq<Sample>, c: nat, s: Sample, win: int)
    requires c > 0 && win >= 0 && |dq| < c
    requires IsMinDeque(dq, hist, win) && Ordered(hist + [s])
    ensures IsMinDeque(Push(dq, c, s, win), hist + [s], win)
  {
    if hist == [] {
      assert Push(dq, c, s, win) == [s];
      assert IsChain([s], [0], [s], win);
      assert hist + [s] == [s];
    } else {
      var ks :| IsChain(dq, ks, hist, win);
      PushKeepsChain(dq, ks, hist, c, s, win);
    }
  }

  lemma PushKeepsChain(dq: seq<Sample>, ks: seq<nat>, hist: seq<Sample>, c: nat, s: Sample, win: int)
    requires c > 0 && win >= 0 && |dq| < c
    requires IsChain(dq, ks, hist, win) && Ordered(hist + [s])
    ensures exists ks' :: IsChain(Push(dq, c, s, win), ks', hist + [s], win)
  {
    var n := |PopBack(dq, s.v)|;
    PopBackKeepsSmaller(dq, s.v);
    assert PopBack(dq, s.v) == dq[..n];
    var full, fullKs := dq[..n] + [s], ks[..n] + [|hist|];
    RisingExtended(dq, ks, hist, s, n);
    var d := |full| - |DropOld(full, s.t, win)|;
    assert Push(dq, c, s, win) == DropOld(full, s.t, win);
    hide *;
    RisingIsOrdered(full, fullKs, hist + [s]);
    WithinZero(s, win);
    DropOldKeepsWindow(full, s.t, win);
    CoversSurvive(dq, ks, hist, s, win, n, d);
    RisingSuffix(full, fullKs, hist + [s], d);
    ChainFrom(full[d..], fullKs[d..], hist, s, win);
  }

  lemma WithinZero(s: Sample, win: int)
    requires win >= 0
    ensures InWindow(s, s.t, win)
  {
  }

  lemma ChainFrom(dq: seq<Sample>, ks: seq<nat>, hist: seq<Sample>, s: Sample, win: int)
    requires IsRising(dq, ks, hist + [s])
    requires forall i :: 0 <= i < |dq| ==> InWindow(dq[i], s.t, win)
    requires forall k :: 0 <= k < |hist| + 1 && InWindow((hist + [s])[k], s.t, win)
              ==> HasCover(dq, ks, k, (hist + [s])[k].v)
    ensures IsChain(dq, ks, hist + [s], win)
  {
    hide IsRising, InWindow, HasCover;
  }

  lemma RisingExtended(dq: seq<Sample>, ks: seq<nat>, hist: seq<Sample>, s: Sample, n: nat)
    requires IsRising(dq, ks, hist) && n <= |dq|
    requires forall i :: 0 <= i < n ==> dq[i].v < s.v
    ensures IsRising(dq[..n] + [s], ks[..n] + [|hist|], hist + [s])
  {
  }

  lemma RisingIsOrdered(dq: seq<Sample>, ks: seq<nat>, hist: seq<Sample>)
    requires IsRising(dq, ks, hist) && Ordered(hist)
    ensures Ordered(dq)
  {
  }

  lemma RisingSuffix(dq: seq<Sample>, ks: seq<nat>, hist: seq<Sample>, d: nat)
    requires IsRising(dq, ks, hist) && d < |dq|
    ensures IsRising(dq[d..], ks[d..], hist)
  {
  }

  lemma CoversSurvive(dq: seq<Sample>, ks: seq<nat>, hist: seq<Sample>, s: Sample, win: int, n: nat, d: nat)
    requires |dq| == |ks| && d <= n <= |dq|
    requires IsChain(dq, ks, hist, win) && Ordered(hist + [s])
    requires forall i :: n <= i < |dq| ==> dq[i].v >= s.v
    requires forall i :: 0 <= i < d ==> !InWindow((dq[..n] + [s])[i], s.t, win)
    ensures forall k :: 0 <= k < |hist| + 1 && InWindow((hist + [s])[k], s.t, win) ==>
              HasCover((dq[..n] + [s])[d..], (ks[..n] + [|hist|])[d..], k, (hist + [s])[k].v)
  {
    forall k | 0 <= k < |hist| + 1 && InWindow((hist + [s])[k], s.t, win)
      ensures HasCover((dq[..n] + [s])[d..], (ks[..n] + [|hist|])[d..], k, (hist + [s])[k].v)
    {
      hide *;
      if k < |hist| {
        var i := CoverOf(dq, ks, hist, s, win, k);
        CoverSurvives(dq, ks, hist, s, win, n, d, i, k);
      } else {
        LastCovers(dq[..n], ks[..n], s, |hist|, d);
      }
    }
  }

  lemma LastCovers(dq: seq<Sample>, ks: seq<nat>, s: Sample, k: nat, d: nat)
    requires |dq| == |ks| && d <= |dq|
    ensures HasCover((dq + [s])[d..], (ks + [k])[d..], k, s.v)
  {
    var dq', ks' := (dq + [s])[d..], (ks + [k])[d..];
    assert ks'[|ks'| - 1] == k && dq'[|dq'| - 1] == s;
  }

  /** A cover stays in the deque, or gives way to the new sample. */
  lemma CoverSurvives(dq: seq<Sample>, ks: seq<nat>, hist: seq<Sample>, s: Sample, win: int, n: nat, d: nat, i: nat,
                      k: nat)
    requires |dq| == |ks| && n <= |dq| && d <= n && i < |dq| && k < |hist|
    requires ks[i] < |hist| && dq[i] == hist[ks[i]] && ks[i] >= k && dq[i].v <= hist[k].v
    requires i >= n ==> dq[i].v >= s.v
    requires Ordered(hist + [s]) && InWindow(hist[k], s.t, win)
    requires forall i :: 0 <= i < d ==> !InWindow((dq[..n] + [s])[i], s.t, win)
    ensures HasCover((dq[..n] + [s])[d..], (ks[..n] + [|hist|])[d..], k, hist[k].v)
  {
    var dq', ks' := (dq[..n] + [s])[d..], (ks[..n] + [|hist|])[d..];
    if i < n {
      var hist' := hist + [s];
      assert hist'[k].t <= hist'[ks[i]].t;
      assert (dq[..n] + [s])[i] == dq[i];
      assert dq'[i - d] == dq[i] && ks'[i - d] == ks[i];
    } else {
      assert dq'[|dq'| - 1] == s && ks'[|ks'| - 1] == |hist|;
    }
  }

  lemma CoverOf(dq: seq<Sample>, ks: seq<nat>, hist: seq<Sample>, s: Sample, win: int, k: nat) returns (i: nat)
    requires IsChain(dq, ks, hist, win) && Ordered(hist + [s])
    requires k < |hist| && InWindow(hist[k], s.t, win)
    ensures i < |ks| == |dq| && ks[i] >= k && dq[i].v <= hist[k].v
    ensures ks[i] < |hist| && dq[i] == hist[ks[i]]
  {
    var hist' := hist + [s];
    assert hist'[|hist| - 1].t <= hist'[|hist|].t;
    assert InWindow(hist[k], hist[|hist| - 1].t, win);
    assert HasCover(dq, ks, k, hist[k].v);
    i :| 0 <= i < |ks| && ks[i] >= k && dq[i].v <= hist[k].v;
  }

  /** The size New gives a ring. */
  function RingEntries(win: int, interval: int): (r: int)
    requires interval > 0
    ensures win >= 0 ==> r >= 8
  {
    win / interval + 8
  }

  /** The slack that `window/interval + 8` entries leave for samples that arrive early. */
  const SLACK := 6

  /** A ring of window/interval + 8 entries never reaches its overflow branch. */
  lemma RingNeverOverflows(dq: seq<Sample>, hist: seq<Sample>, interval: int, win: int, c: nat)
    requires interval > 0 && win >= 0 && c >= RingEntries(win, interval)
    requires IsMinDeque(dq, hist, win) && Paced(hist, interval, SLACK)
    ensures |dq| < c
  {
    if hist != [] {
      var ks :| IsChain(dq, ks, hist, win);
      IncreasingSpread(ks, 0);
      var spread := |hist| - 1 - ks[0];
      ChainSpansWindow(dq, ks, hist, interval, win);
      if spread - SLACK > win / interval {
        BeyondQuotient(win, interval, spread - SLACK);
        assert false;
      }
    }
  }

  lemma ChainSpansWindow(dq: seq<Sample>, ks: seq<nat>, hist: seq<Sample>, interval: int, win: int)
    requires IsChain(dq, ks, hist, win) && Paced(hist, interval, SLACK)
    ensures (|hist| - 1 - ks[0] - SLACK) * interval <= win
  {
    assert InWindow(dq[0], hist[|hist| - 1].t, win);
  }

  lemma BeyondQuotient(a: int, b: int, q: int)
    requires b > 0 && a >= 0 && q > a / b
    ensures q * b > a
  {
    var d := a / b;
    assert a == d * b + a % b;
    ProductNotNegative(q - d - 1, b);
    assert q * b == (q - d - 1) * b + d * b + b;
  }

  lemma ProductNotNegative(x: int, y: int)
    requires x >= 0 && y >= 0
    ensures x * y >= 0
  {
  }

  lemma {:induction false} IncreasingSpread(ks: seq<nat>, i: nat)
    requires i < |ks| && forall i, j :: 0 <= i < j < |ks| ==> ks[i] < ks[j]
    ensures |ks| - i - 1 <= ks[|ks| - 1] - ks[i]
    decreases |ks| - i
  {
    if i < |ks| - 1 {
      IncreasingSpread(ks, i + 1);
    }
  }

  /** One push on a ring that is large enough keeps it exact, and its head is the window minimum. */
  lemma PushIsExact(dq: seq<Sample>, hist: seq<Sample>, s: Sample, interval: int, win: int, c: nat)
    requires interval > 0 && win >= 0 && c >= RingEntries(win, interval)
    requires IsMinDeque(dq, hist, win) && Paced(hist, interval, SLACK) && Ordered(hist + [s])
    ensures IsMinDeque(Push(dq, c, s, win), hist + [s], win)
    ensures Push(dq, c, s, win) != [] && Push(dq, c, s, win)[0].v == WindowMin(hist + [s], win)
  {
    hide IsMinDeque, Paced, Ordered, Push;
    RingNeverOverflows(dq, hist, interval, win, c);
    PushKeepsMinDeque(dq, hist, c, s, win);
    HeadIsWindowMin(Push(dq, c, s, win), hist + [s], win);
    WindowMinUnique(Push(dq, c, s, win)[0].v, hist + [s], win);
  }

  /** part is the last |part| samples of all. */
  ghost predicate IsSuffix(part: seq<Sample>, all: seq<Sample>) {
    |part| <= |all| && forall i :: 0 <= i < |part| ==> part[i] == all[|all| - |part| + i]
  }

  lemma SuffixGrows(part: seq<Sample>, all: seq<Sample>, s: Sample)
    requires IsSuffix(part, all)
    ensures IsSuffix(part + [s], all + [s])
  {
  }

  lemma EmptySuffix(all: seq<Sample>)
    ensures IsSuffix([], all)
  {
  }

  /** A suffix of a paced, ordered history is paced and ordered. */
  lemma SuffixPaced(all: seq<Sample>, part: seq<Sample>, s: Sample, interval: int)
    requires IsSuffix(part, all)
    requires Ordered(all + [s]) && Paced(all + [s], interval, SLACK)
    ensures Ordered(part + [s]) && Paced(part, interval, SLACK)
  {
    var d, whole := |all| - |part|, all + [s];
    assert forall i :: 0 <= i <= |part| ==> (part + [s])[i] == whole[i + d];
    forall i, j | 0 <= i <= j < |part|
      ensures (j - i - SLACK) * interval <= part[j].t - part[i].t
    {
      assert part[i] == whole[i + d] && part[j] == whole[j + d];
      assert ((j + d) - (i + d) - SLACK) * interval <= whole[j + d].t - whole[i + d].t;
      assert (j + d) - (i + d) - SLACK == j - i - SLACK;
    }
  }

  lemma SmallerWindowFits(win: int, most: int, interval: int, c: nat)
    requires interval > 0 && 0 <= win <= most && c >= RingEntries(most, interval)
    ensures c >= RingEntries(win, interval)
  {
    if win / interval > most / interval {
      BeyondQuotient(most, interval, win / interval);
      assert false;
    }
  }

  // ---- the ring ----

  lemma BeyondOne(q: int, c: nat)
    requires q > 1
    ensures q * c >= 2 * c
  {
    assert (q - 2) * c >= 0;
  }

  lemma OneLap(x: nat, c: nat)
    requires 0 < c && x < 2 * c
    ensures x % c == if x < c then x else x - c
  {
    var q, r := x / c, x % c;
    assert x == q * c + r;
    if q > 1 {
      BeyondOne(q, c);
      assert false;
    }
  }

  class Ring {
    const times: array<int>
    const values: array<int>
    var head: nat
    var n: nat
    ghost var hist: seq<Sample>  // every sample pushed since the ring was last cleared

    ghost predicate Valid()
      reads this, times, values
    {
      && times != values && times.Length == values.Length > 0
      && head < times.Length && n <= times.Length
    }

    constructor (capacity: nat)
      requires capacity > 0
      ensures Valid() && fresh(times) && fresh(values)
      ensures times.Length == capacity && n == 0 && hist == []
    {
      times := new int[capacity];
      values := new int[capacity];
      head, n, hist := 0, 0, [];
    }

    /** Where entry i lives. */
    function Slot(i: nat): (r: nat)
      reads this
      requires head < times.Length && i <= times.Length
      ensures r == if head + i < times.Length then head + i else head + i - times.Length
    {
      OneLap(head + i, times.Length);
      (head + i) % times.Length
    }

    ghost function Contents(): (r: seq<Sample>)
      reads this, times, values
      requires Valid()
      ensures |r| == n
    {
      seq(n, i requires 0 <= i < n && Valid() reads this, times, values => Sample(times[Slot(i)], values[Slot(i)]))
    }

    /** resetWindow, for the deque. */
    method Clear()
      requires Valid()
      modifies this
      ensures Valid() && n == 0 && hist == []
    {
      head, n, hist := 0, 0, [];
    }

    function Head(): (v: int)
      reads this, times, values
      requires Valid() && n > 0
      ensures v == Contents()[0].v
    {
      values[head]
    }

    /** `b.n--` */
    method DropLast()
      requires Valid() && n > 0
      modifies this`n
      ensures Valid() && Contents() == old(Contents())[..old(n) - 1]
    {
      n := n - 1;
    }

    /** `b.head = (b.head + 1) % c; b.n--` */
    method DropFirst()
      requires Valid() && n > 0
      modifies this`head, this`n
      ensures Valid() && Contents() == old(Contents())[1..]
    {
      head := Slot(1);
      n := n - 1;
    }

    /** Writes the entry after the last one. */
    method Append(s: Sample)
      requires Valid() && n < times.Length
      modifies this`n, times, values
      ensures Valid() && Contents() == old(Contents()) + [s]
    {
      var i := Slot(n);
      times[i], values[i] := s.t, s.v;
      n := n + 1;
    }

    /** The back loop of push: a value at least v can never be the minimum again. */
    method TrimBack(v: int)
      requires Valid()
      modifies this`n
      ensures Valid() && Contents() == PopBack(old(Contents()), v)
    {
      while n > 0 && values[Slot(n - 1)] >= v
        invariant Valid() && PopBack(Contents(), v) == PopBack(old(Contents()), v)
        decreases n
      {
        assert Contents()[n - 1].v >= v;
        DropLast();
      }
      assert n > 0 ==> Contents()[n - 1].v < v;
    }

    /** The front loop of push. */
    method TrimFront(now: int, win: int)
      requires Valid()
      modifies this`head, this`n
      ensures Valid() && Contents() == DropOld(old(Contents()), now, win)
    {
      while n > 1 && now - times[head] > win
        invariant Valid() && DropOld(Contents(), now, win) == DropOld(old(Contents()), now, win)
        decreases n
      {
        assert Contents()[0].t == times[head];
        DropFirst();
      }
      assert n > 1 ==> Contents()[0].t == times[head];
    }

    /** push: amortised constant time, no allocation. */
    method PushSample(s: Sample, win: int)
      requires Valid()
      modifies this`head, this`n, times, values
      ensures Valid()
      ensures Contents() == Push(old(Contents()), times.Length, s, win)
    {
      hide PopBack, DropOld;
      TrimBack(s.v);
      if n == times.Length {  // only when samples arrive far faster than configured
        DropFirst();
      }
      Append(s);
      TrimFront(s.t, win);
    }

    /** The deque is exact for the samples since the last clear. */
    ghost predicate Exact(win: int)
      reads this, times, values
      requires Valid()
    {
      IsMinDeque(Contents(), hist, win)
    }

    lemma EmptyIsExact(win: int)
      requires Valid() && n == 0 && hist == []
      ensures Exact(win)
    {
    }

    /** push, on samples paced to the interval the ring was sized for: the head is then the minimum
        of all samples no older than the window. */
    method Feed(s: Sample, win: int, ghost interval: int)
      requires Valid() && Exact(win)
      requires interval > 0 && win >= 0 && times.Length >= RingEntries(win, interval)
      requires Ordered(hist + [s]) && Paced(hist, interval, SLACK)
      modifies this, times, values
      ensures Valid() && Exact(win) && hist == old(hist) + [s]
      ensures n > 0 && Head() == WindowMin(hist, win)
    {
      hide IsMinDeque, Paced, Ordered, Push;
      PushIsExact(Contents(), hist, s, interval, win, times.Length);
      PushSample(s, win);
      ghost var pushed := Contents();
      hist := hist + [s];
      assert Contents() == pushed;
    }
  }
}
