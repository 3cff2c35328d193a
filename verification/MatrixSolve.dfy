/**
  The eviction decision (internal/matrix/program.go: Solve, evictionCost, flattenWitness),
  proved to be a cheapest one over every allowed set of every definition.
 */
module MatrixSolve {
  import opened MatrixSpec
  import opened MatrixEvaluator
  import opened MatrixProgram
  import B = BitMask

  type Costs = map<string, int>

  // ---- costs ----

  function EvictionCost(costs: Costs, model: string): int {
    if model in costs then costs[model] else 1
  }

  /** Configured costs are positive (internal/config/matrix.go); nothing below needs more than this. */
  ghost predicate NonNegative(costs: Costs) {
    forall m <- costs :: costs[m] >= 0
  }

  /** What evicting the running models outside `kept` costs; a model listed twice counts twice. */
  function Cost(kept: ModelSet, running: seq<string>, costs: Costs): int {
    if running == [] then 0
    else
      var last := running[|running| - 1];
      Cost(kept, running[..|running| - 1], costs) + if last in kept then 0 else EvictionCost(costs, last)
  }

  /** The running models outside `kept`, in order. */
  function Evicted(kept: ModelSet, running: seq<string>): seq<string> {
    if running == [] then []
    else
      var last := running[|running| - 1];
      Evicted(kept, running[..|running| - 1]) + if last in kept then [] else [last]
  }

  /** `evict` lists what `running` has outside `kept`, in order: its elements are those at the places `at`. */
  ghost predicate ListsEvicted(evict: seq<string>, kept: ModelSet, running: seq<string>, at: seq<nat>) {
    && |at| == |evict|
    && (forall j, k :: 0 <= j < k < |at| ==> at[j] < at[k])
    && (forall k :: 0 <= k < |at| ==> at[k] < |running| && evict[k] == running[at[k]])
    && (forall p: nat :: p < |running| ==> (running[p] !in kept <==> p in at))
  }

  /** What evicting these models costs, each its configured cost, or 1 without one. */
  function Total(evict: seq<string>, costs: Costs): int {
    if evict == [] then 0
    else
      var last := evict[|evict| - 1];
      Total(evict[..|evict| - 1], costs) + if last in costs then costs[last] else 1
  }

  /** Evicted lists exactly the running models outside `kept`. */
  lemma {:induction false} EvictedLists(kept: ModelSet, running: seq<string>) returns (at: seq<nat>)
    ensures ListsEvicted(Evicted(kept, running), kept, running, at)
  {
    at := [];
    if running != [] {
      var front, last := running[..|running| - 1], running[|running| - 1];
      assert running == front + [last];
      at := EvictedLists(kept, front);
      hide ListsEvicted;
      ListsNext(Evicted(kept, front), kept, front, at, last);
      if last !in kept {
        at := at + [|front|];
      } else {
        assert Evicted(kept, running) == Evicted(kept, front);
      }
    }
  }

  /** Cost is what evicting those costs. */
  lemma {:induction false} CostIsTotal(kept: ModelSet, running: seq<string>, costs: Costs)
    ensures Cost(kept, running, costs) == Total(Evicted(kept, running), costs)
  {
    if running != [] {
      var front, last := running[..|running| - 1], running[|running| - 1];
      CostIsTotal(kept, front, costs);
      var evict := Evicted(kept, front);
      assert (evict + [last])[..|evict|] == evict && evict + [] == evict;
    }
  }

  lemma ListsNext(evict: seq<string>, kept: ModelSet, running: seq<string>, at: seq<nat>, last: string)
    requires ListsEvicted(evict, kept, running, at)
    ensures last in kept ==> ListsEvicted(evict, kept, running + [last], at)
    ensures last !in kept ==> ListsEvicted(evict + [last], kept, running + [last], at + [|running|])
  {
    var more := at + [|running|];
    assert more[|at|] == |running|;
    forall p | p in at
      ensures p in more
    {
      var k :| 0 <= k < |at| && at[k] == p;
      assert more[k] == p;
    }
  }

  /** Each running model is evicted as often as it is listed, or not at all. */
  lemma {:induction false} EvictedCounts(kept: ModelSet, running: seq<string>, m: string)
    ensures multiset(Evicted(kept, running))[m] == if m in kept then 0 else multiset(running)[m]
  {
    if running != [] {
      EvictedCounts(kept, running[..|running| - 1], m);
      assert running == running[..|running| - 1] + [running[|running| - 1]];
    }
  }

  lemma {:induction false} CostNonNegative(kept: ModelSet, running: seq<string>, costs: Costs)
    requires NonNegative(costs)
    ensures Cost(kept, running, costs) >= 0
  {
    if running != [] {
      CostNonNegative(kept, running[..|running| - 1], costs);
    }
  }

  /** Keeping more running models never costs more: what makes dropping subsets safe. */
  lemma {:induction false} CostMonotone(less: ModelSet, more: ModelSet, running: seq<string>, costs: Costs)
    requires NonNegative(costs) && forall m <- running :: m in less ==> m in more
    ensures Cost(more, running, costs) <= Cost(less, running, costs)
  {
    if running != [] {
      CostMonotone(less, more, running[..|running| - 1], costs);
    }
  }

  /** Only what a set says about the running models matters. */
  lemma {:induction false} OnlyRunningMatters(kept: ModelSet, other: ModelSet, running: seq<string>, costs: Costs)
    requires forall m <- running :: m in kept <==> m in other
    ensures Cost(kept, running, costs) == Cost(other, running, costs)
    ensures Evicted(kept, running) == Evicted(other, running)
  {
    if running != [] {
      OnlyRunningMatters(kept, other, running[..|running| - 1], costs);
    }
  }

  // ---- flattenWitness ----

  predicate StringLess(a: string, b: string) {
    if b == [] then false
    else if a == [] then true
    else a[0] < b[0] || (a[0] == b[0] && StringLess(a[1..], b[1..]))
  }

  lemma {:induction false} StringLessTotal(a: string, b: string)
    ensures a == b || StringLess(a, b) || StringLess(b, a)
  {
    if a != [] && b != [] {
      StringLessTotal(a[1..], b[1..]);
      assert a == [a[0]] + a[1..] && b == [b[0]] + b[1..];
    }
  }

  lemma {:induction false} StringLessTransitive(a: string, b: string, c: string)
    requires StringLess(a, b) && StringLess(b, c)
    ensures StringLess(a, c)
  {
    if a != [] && a[0] == b[0] == c[0] {
      StringLessTransitive(a[1..], b[1..], c[1..]);
    }
  }

  ghost predicate Increasing(s: seq<string>) {
    forall i, j :: 0 <= i < j < |s| ==> StringLess(s[i], s[j])
  }

  /** One step of sort.Strings on distinct strings. */
  method InsertSorted(s: seq<string>, x: string) returns (r: seq<string>)
    requires Increasing(s) && x !in s
    ensures Increasing(r) && AsSet(r) == AsSet(s) + {x}
  {
    var i := 0;
    while i < |s| && StringLess(s[i], x)
      invariant i <= |s|
      invariant forall k :: 0 <= k < i ==> StringLess(s[k], x)
    {
      i := i + 1;
    }
    r := s[..i] + [x] + s[i..];
    forall k | i <= k < |s|
      ensures StringLess(x, s[k])
    {
      StringLessTotal(s[i], x);
      if k > i {
        StringLessTransitive(x, s[i], s[k]);
      }
    }
    hide StringLess;
    InsertedSet(s, i, x);
  }

  lemma InsertedSet(s: seq<string>, i: nat, x: string)
    requires i <= |s|
    ensures AsSet(s[..i] + [x] + s[i..]) == AsSet(s) + {x}
  {
    var r := s[..i] + [x] + s[i..];
    forall y | y in s
      ensures y in r
    {
      assert s == s[..i] + s[i..];
    }
  }

  /** flattenWitness's visit: left before right, each named model once. */
  method Visit(w: Witness, found: seq<string>) returns (models: seq<string>)
    requires Increasing(found)
    ensures Increasing(models) && AsSet(models) == AsSet(found) + WitnessModels(w)
    decreases w
  {
    match w {
      case Nil =>
        models := found;
      case Choice(model, left, right) =>
        models := found;
        if model != "" && model !in models {
          models := InsertSorted(models, model);
        }
        models := Visit(left, models);
        models := Visit(right, models);
    }
  }

  method FlattenWitness(root: Witness) returns (models: seq<string>)
    ensures Increasing(models) && AsSet(models) == WitnessModels(root)
  {
    models := Visit(root, []);
  }

  // ---- the decision ----

  /** The allowed sets a target may be served from. */
  ghost predicate Candidate(p: Program, target: string, i: nat, s: ModelSet) {
    i < |p.sets| && s in p.Allowed(i) && target in s
  }

  /** d serves the target from the allowed set s of set i. */
  ghost predicate Serves(p: Program, target: string, running: seq<string>, costs: Costs, d: Decision, i: nat,
                         s: ModelSet) {
    && Candidate(p, target, i, s)
    && d.setName == p.sets[i].name && d.dsl == p.sets[i].dsl
    && Increasing(d.targetSet) && AsSet(d.targetSet) == s - {""}
    && (exists at: seq<nat> :: ListsEvicted(d.evict, s, running, at))
    && (forall m :: multiset(d.evict)[m] == if m in s then 0 else multiset(running)[m])
    && d.totalCost == Total(d.evict, costs) == Cost(s, running, costs)
  }

  /** No candidate is cheaper, and none from an earlier set is as cheap. */
  ghost predicate Cheapest(p: Program, target: string, running: seq<string>, costs: Costs, cost: int, i: nat) {
    forall j: nat, s :: Candidate(p, target, j, s) ==>
      Cost(s, running, costs) >= cost && (j < i ==> Cost(s, running, costs) > cost)
  }

  ghost predicate NoCandidate(p: Program, target: string) {
    forall i: nat, s :: !Candidate(p, target, i, s)
  }

  /** Everything the source promises of Solve. */
  ghost predicate IsDecision(p: Program, target: string, running: seq<string>, costs: Costs, d: Decision) {
    if target in running then
      && d.evict == [] && d.targetSet == running && d.totalCost == 0
      && IsContaining(p, running, d.setName, d.dsl)
    else if NoCandidate(p, target) then
      d == Decision(running, [target], "", "", 0)
    else
      exists i: nat, s :: Serves(p, target, running, costs, d, i, s)
                     && Cheapest(p, target, running, costs, d.totalCost, i)
  }

  // ---- from states to allowed sets ----

  /** The models a query distinguishes. */
  function Relevant(target: string, running: seq<string>): ModelSet {
    {target} + AsSet(running)
  }

  function StatesOf(p: Program, target: string, running: seq<string>, i: nat): seq<State>
    requires i < |p.sets|
  {
    Frontier(p.Expanded(i), Relevant(target, running))
  }

  /** State j of set i offers the target. */
  ghost predicate Offers(p: Program, target: string, running: seq<string>, i: nat, j: nat) {
    i < |p.sets| && j < |StatesOf(p, target, running, i)| && target in StatesOf(p, target, running, i)[j].mask
  }

  ghost function StateCost(p: Program, target: string, running: seq<string>, costs: Costs, i: nat, j: nat): int
    requires i < |p.sets| && j < |StatesOf(p, target, running, i)|
  {
    Cost(StatesOf(p, target, running, i)[j].mask, running, costs)
  }

  lemma StateIsCandidate(p: Program, target: string, running: seq<string>, costs: Costs, i: nat, j: nat)
    returns (s: ModelSet)
    requires Offers(p, target, running, i, j)
    ensures Candidate(p, target, i, s)
    ensures Cost(s, running, costs) == StateCost(p, target, running, costs, i, j)
    ensures Evicted(s, running) == Evicted(StatesOf(p, target, running, i)[j].mask, running)
    ensures WitnessModels(StatesOf(p, target, running, i)[j].origin) == s - {""}
  {
    var relevant := Relevant(target, running);
    var state := StatesOf(p, target, running, i)[j];
    FrontierIsExact(p.Expanded(i), relevant);
    assert IsReal(state, p.Allowed(i), relevant);
    s :| s in p.Allowed(i) && Stands(state, s, relevant);
    OnlyRunningMatters(s, state.mask, running, costs);
  }

  lemma CandidateHasState(p: Program, target: string, running: seq<string>, costs: Costs, i: nat, s: ModelSet)
    returns (j: nat)
    requires NonNegative(costs) && Candidate(p, target, i, s)
    ensures Offers(p, target, running, i, j)
    ensures StateCost(p, target, running, costs, i, j) <= Cost(s, running, costs)
  {
    var relevant := Relevant(target, running);
    FrontierIsExact(p.Expanded(i), relevant);
    assert Covered(StatesOf(p, target, running, i), s * relevant);
    j :| 0 <= j < |StatesOf(p, target, running, i)| && s * relevant <= StatesOf(p, target, running, i)[j].mask;
    CostMonotone(s, StatesOf(p, target, running, i)[j].mask, running, costs);
  }

  /** Traversal has passed state (i, j): it is in one of the first n sets, or among the first m states of set n. */
  predicate Passed(i: nat, j: nat, n: nat, m: nat) {
    i < n || (i == n && j < m)
  }

  /** State (i, j) is the first, in traversal order, among the cheapest states passed so far. */
  ghost predicate FirstBest(p: Program, target: string, running: seq<string>, costs: Costs, n: nat, m: nat, i: nat,
                            j: nat) {
    && Passed(i, j, n, m) && Offers(p, target, running, i, j)
    && forall k: nat, l: nat :: Passed(k, l, n, m) && Offers(p, target, running, k, l) ==>
         NotBetter(p, target, running, costs, i, j, k, l)
  }

  /** State (k, l) does not beat (i, j): it is no cheaper, and dearer when it comes first. */
  ghost predicate NotBetter(p: Program, target: string, running: seq<string>, costs: Costs, i: nat, j: nat, k: nat,
                            l: nat)
    requires Offers(p, target, running, i, j) && Offers(p, target, running, k, l)
  {
    && StateCost(p, target, running, costs, k, l) >= StateCost(p, target, running, costs, i, j)
    && (Passed(k, l, i, j) ==> StateCost(p, target, running, costs, k, l) > StateCost(p, target, running, costs, i, j))
  }

  ghost predicate NoneOffered(p: Program, target: string, running: seq<string>, n: nat, m: nat) {
    forall k: nat, l: nat :: Passed(k, l, n, m) ==> !Offers(p, target, running, k, l)
  }

  /** The state Solve keeps is a cheapest candidate of the earliest set that has one. */
  lemma FirstBestIsCheapest(p: Program, target: string, running: seq<string>, costs: Costs, i: nat, j: nat)
    requires NonNegative(costs) && FirstBest(p, target, running, costs, |p.sets|, 0, i, j)
    ensures Cheapest(p, target, running, costs, StateCost(p, target, running, costs, i, j), i)
  {
    forall k: nat, s | Candidate(p, target, k, s)
      ensures Cost(s, running, costs) >= StateCost(p, target, running, costs, i, j)
      ensures k < i ==> Cost(s, running, costs) > StateCost(p, target, running, costs, i, j)
    {
      var l := CandidateHasState(p, target, running, costs, k, s);
      assert Passed(k, l, |p.sets|, 0);
      assert NotBetter(p, target, running, costs, i, j, k, l);
    }
  }

  lemma NoneOfferedNoCandidate(p: Program, target: string, running: seq<string>, costs: Costs)
    requires NonNegative(costs) && NoneOffered(p, target, running, |p.sets|, 0)
    ensures NoCandidate(p, target)
  {
    forall i: nat, j: nat | i < |p.sets|
      ensures !Offers(p, target, running, i, j)
    {
      assert Passed(i, j, |p.sets|, 0);
    }
    forall i: nat, s
      ensures !Candidate(p, target, i, s)
    {
      if Candidate(p, target, i, s) {
        var j := CandidateHasState(p, target, running, costs, i, s);
        assert false;
      }
    }
  }

  /** A set that does not mention the target offers it in no state. */
  lemma UnmentionedOffersNothing(p: Program, target: string, running: seq<string>, costs: Costs, i: nat)
    requires i < |p.sets| && target !in Mentioned(p.Expanded(i))
    ensures forall j: nat :: !Offers(p, target, running, i, j)
  {
    forall j: nat
      ensures !Offers(p, target, running, i, j)
    {
      if Offers(p, target, running, i, j) {
        var s := StateIsCandidate(p, target, running, costs, i, j);
        SupportIsNecessary(p, i, target);
      }
    }
  }

  // ---- Solve ----

  /** `state.mask.has(evaluator.modelBits[model])` */
  function HoldsModel(mask: B.Mask, bits: ModelBits, model: string): (r: bool)
    requires IsIndex(bits) && Fits(mask, bits) && model in bits
    ensures r <==> model in Held(mask, bits)
  {
    FitsBit(bits, model);
    B.Has(mask, bits[model])
  }

  /** The cost loop of Solve. */
  method MaskCost(mask: B.Mask, bits: ModelBits, running: seq<string>, costs: Costs) returns (cost: int)
    requires IsIndex(bits) && Fits(mask, bits) && AsSet(running) <= bits.Keys
    ensures cost == Cost(Held(mask, bits), running, costs)
  {
    hide IsIndex, Fits, Held;
    cost := 0;
    for k := 0 to |running|
      invariant cost == Cost(Held(mask, bits), running[..k], costs)
    {
      assert running[k] in AsSet(running);
      assert running[..k + 1][..k] == running[..k];
      if !HoldsModel(mask, bits, running[k]) {
        cost := cost + EvictionCost(costs, running[k]);
      }
    }
    assert running[..|running|] == running;
  }

  /** The evict loop of Solve. */
  method MaskEvicts(mask: B.Mask, bits: ModelBits, running: seq<string>) returns (evict: seq<string>)
    requires IsIndex(bits) && Fits(mask, bits) && AsSet(running) <= bits.Keys
    ensures evict == Evicted(Held(mask, bits), running)
  {
    hide IsIndex, Fits, Held;
    evict := [];
    for k := 0 to |running|
      invariant evict == Evicted(Held(mask, bits), running[..k])
    {
      assert running[k] in AsSet(running);
      assert running[..k + 1][..k] == running[..k];
      if !HoldsModel(mask, bits, running[k]) {
        evict := evict + [running[k]];
      }
    }
    assert running[..|running|] == running;
  }

  /** What Solve's bestCost (negative for none), bestSet and bestState say; `place` is the state's index. */
  ghost predicate Tracks(p: Program, target: string, running: seq<string>, costs: Costs, bits: ModelBits, n: nat,
                         m: nat,
                         cost: int, best: nat, state: ProjectedState, place: nat)
  {
    if cost < 0 then NoneOffered(p, target, running, n, m)
    else
      && FirstBest(p, target, running, costs, n, m, best, place)
      && cost == StateCost(p, target, running, costs, best, place)
      && Fits(state.mask, bits)
      && Abs(state, bits) == StatesOf(p, target, running, best)[place]
  }

  lemma NextSet(p: Program, target: string, running: seq<string>, costs: Costs, bits: ModelBits, i: nat, m: nat,
                cost: int, best: nat, state: ProjectedState, place: nat)
    requires i < |p.sets| && Tracks(p, target, running, costs, bits, i, m, cost, best, state, place)
    requires m >= |StatesOf(p, target, running, i)| || forall j: nat :: !Offers(p, target, running, i, j)
    ensures Tracks(p, target, running, costs, bits, i + 1, 0, cost, best, state, place)
  {
    forall k: nat, l: nat | Passed(k, l, i + 1, 0) && Offers(p, target, running, k, l)
      ensures Passed(k, l, i, m)
    {
    }
  }

  /** The state at (i, m) is not taken: it does not offer the target, or is no cheaper. */
  lemma PassOver(p: Program, target: string, running: seq<string>, costs: Costs, bits: ModelBits, i: nat, m: nat,
                 cost: int, best: nat, state: ProjectedState, place: nat)
    requires i < |p.sets| && m < |StatesOf(p, target, running, i)|
    requires Tracks(p, target, running, costs, bits, i, m, cost, best, state, place)
    requires !Offers(p, target, running, i, m)
             || (cost >= 0 && StateCost(p, target, running, costs, i, m) >= cost)
    ensures Tracks(p, target, running, costs, bits, i, m + 1, cost, best, state, place)
  {
    forall k: nat, l: nat | Passed(k, l, i, m + 1) && Offers(p, target, running, k, l)
      ensures Passed(k, l, i, m) || (k == i && l == m)
    {
    }
  }

  /** The state at (i, m) is taken: it offers the target and beats everything passed. */
  lemma Take(p: Program, target: string, running: seq<string>, costs: Costs, bits: ModelBits, i: nat, m: nat,
             cost: int, best: nat, state: ProjectedState, place: nat, next: ProjectedState)
    requires i < |p.sets| && m < |StatesOf(p, target, running, i)| && NonNegative(costs)
    requires Tracks(p, target, running, costs, bits, i, m, cost, best, state, place)
    requires Offers(p, target, running, i, m)
    requires Fits(next.mask, bits) && Abs(next, bits) == StatesOf(p, target, running, i)[m]
    requires cost < 0 || StateCost(p, target, running, costs, i, m) < cost
    ensures Tracks(p, target, running, costs, bits, i, m + 1, StateCost(p, target, running, costs, i, m), i, next, m)
  {
    CostNonNegative(StatesOf(p, target, running, i)[m].mask, running, costs);
    forall k: nat, l: nat | Passed(k, l, i, m + 1) && Offers(p, target, running, k, l)
      ensures NotBetter(p, target, running, costs, i, m, k, l)
    {
      if Passed(k, l, i, m) {
        assert NotBetter(p, target, running, costs, best, place, k, l);
      }
    }
  }

  /** Solve's loop over the states of one set. */
  method ScanStates(p: Program, target: string, running: seq<string>, costs: Costs, bits: ModelBits, i: nat,
                    states: Slice,
                    cost: int, best: nat, state: ProjectedState, ghost place: nat)
    returns (cost': int, best': nat, state': ProjectedState, ghost place': nat)
    requires i < |p.sets| && NonNegative(costs)
    requires IsIndex(bits) && bits.Keys == Relevant(target, running)
    requires Represents(states, StatesOf(p, target, running, i), bits)
    requires Tracks(p, target, running, costs, bits, i, 0, cost, best, state, place)
    ensures Tracks(p, target, running, costs, bits, i + 1, 0, cost', best', state', place')
  {
    hide IsIndex, Fits, Held, Tracks, StatesOf;
    cost', best', state', place' := cost, best, state, place;
    ghost var spec := StatesOf(p, target, running, i);
    for m := 0 to states.len
      invariant Tracks(p, target, running, costs, bits, i, m, cost', best', state', place')
    {
      var next := states.arr[m];
      assert next == states.arr[..states.len][m];
      SizedElement(states.arr[..states.len], m, bits);
      assert spec[m] == Abs(next, bits);
      if !HoldsModel(next.mask, bits, target) {
        PassOver(p, target, running, costs, bits, i, m, cost', best', state', place');
        continue;
      }
      var c := MaskCost(next.mask, bits, running, costs);
      if cost' < 0 || c < cost' {
        Take(p, target, running, costs, bits, i, m, cost', best', state', place', next);
        cost', best', state', place' := c, i, next, m;
      } else {
        PassOver(p, target, running, costs, bits, i, m, cost', best', state', place');
      }
    }
    NextSet(p, target, running, costs, bits, i, states.len, cost', best', state', place');
  }

  lemma TracksNothing(p: Program, target: string, running: seq<string>, costs: Costs, bits: ModelBits, best: nat,
                      state: ProjectedState, place: nat)
    ensures Tracks(p, target, running, costs, bits, 0, 0, -1, best, state, place)
  {
  }

  lemma Undecided(p: Program, target: string, running: seq<string>, costs: Costs, bits: ModelBits,
                  cost: int, best: nat, state: ProjectedState, place: nat)
    requires NonNegative(costs) && cost < 0
    requires Tracks(p, target, running, costs, bits, |p.sets|, 0, cost, best, state, place)
    ensures NoCandidate(p, target)
  {
    NoneOfferedNoCandidate(p, target, running, costs);
  }

  /** What the kept state says about the decision made from it. */
  lemma Decided(p: Program, target: string, running: seq<string>, costs: Costs, bits: ModelBits,
                cost: int, best: nat, state: ProjectedState, place: nat) returns (s: ModelSet)
    requires NonNegative(costs) && cost >= 0
    requires Tracks(p, target, running, costs, bits, |p.sets|, 0, cost, best, state, place)
    ensures best < |p.sets| && Fits(state.mask, bits)
    ensures Candidate(p, target, best, s) && !NoCandidate(p, target)
    ensures cost == Cost(s, running, costs) && Evicted(Held(state.mask, bits), running) == Evicted(s, running)
    ensures WitnessModels(state.origin) == s - {""}
    ensures Cheapest(p, target, running, costs, cost, best)
    ensures FirstBest(p, target, running, costs, |p.sets|, 0, best, place)
    ensures WitnessModels(state.origin) == WitnessModels(StatesOf(p, target, running, best)[place].origin)
  {
    s := StateIsCandidate(p, target, running, costs, best, place);
    FirstBestIsCheapest(p, target, running, costs, best, place);
  }

  /** Ties keep traversal order: the target set is read off the first cheapest state. */
  ghost predicate KeepsTraversalOrder(p: Program, target: string, running: seq<string>, costs: Costs, d: Decision) {
    exists i: nat, j: nat ::
      FirstBest(p, target, running, costs, |p.sets|, 0, i, j)
      && AsSet(d.targetSet) == WitnessModels(StatesOf(p, target, running, i)[j].origin)
  }

  lemma CompiledIsLinked(p: Program)
    requires p.Compiled()
    ensures Linked(p.Named())
  {
  }

  /** Solve's loop over the sets. */
  method ScanSets(p: Program, target: string, running: seq<string>, costs: Costs)
    returns (cost: int, best: nat, state: ProjectedState, bits: ModelBits, ghost place: nat)
    requires p.Compiled() && NonNegative(costs)
    ensures IsIndex(bits) && bits.Keys == Relevant(target, running)
    ensures Tracks(p, target, running, costs, bits, |p.sets|, 0, cost, best, state, place)
  {
    hide Represents, IsIndex, Tracks, Linked, Mentioned, Program.Expanded, Frontier, Fits, Held, Offers,
      Evaluator.Valid, Program.Compiled;
    CompiledIsLinked(p);
    var e := new Evaluator(p.Named(), [target] + running);
    bits := e.modelBits;
    assert AsSet([target] + running) == Relevant(target, running);
    cost, best, state, place := -1, 0, ProjectedState([], Nil), 0;
    TracksNothing(p, target, running, costs, bits, best, state, place);
    for i := 0 to |p.sets|
      invariant e.Valid() && e.sets == p.Named() && e.modelBits == bits
      invariant Tracks(p, target, running, costs, bits, i, 0, cost, best, state, place)
    {
      var supported := Supports(p, i, target);
      if supported {
        var states := EvaluateSet(e, p, i);
        cost, best, state, place := ScanStates(p, target, running, costs, bits, i, states, cost, best, state, place);
      } else {
        UnmentionedOffersNothing(p, target, running, costs, i);
        NextSet(p, target, running, costs, bits, i, 0, cost, best, state, place);
      }
    }
  }

  /** Solve: the compatible set with the lowest eviction cost. */
  method Solve(p: Program, target: string, running: seq<string>, costs: Costs) returns (d: Decision)
    requires p.Compiled() && NonNegative(costs)
    ensures IsDecision(p, target, running, costs, d)
    ensures target !in running && !NoCandidate(p, target) ==> KeepsTraversalOrder(p, target, running, costs, d)
  {
    hide IsIndex, Fits, Held, Tracks, Evicted, Cost, Total, ListsEvicted, FirstBest, Cheapest,
      WitnessModels, NoCandidate;
    if target in running {
      var setName, dsl := FindContaining(p, running);
      return Decision([], running, setName, dsl, 0);
    }
    var cost, best, state, bits, place := ScanSets(p, target, running, costs);
    if cost < 0 {
      Undecided(p, target, running, costs, bits, cost, best, state, place);
      return Decision(running, [target], "", "", 0);
    }
    ghost var s := Decided(p, target, running, costs, bits, cost, best, state, place);
    var evict := MaskEvicts(state.mask, bits, running);
    var targetSet := FlattenWitness(state.origin);
    d := Decision(evict, targetSet, p.sets[best].name, p.sets[best].dsl, cost);
    ghost var at := EvictedLists(s, running);
    CostIsTotal(s, running, costs);
    forall m
      ensures multiset(evict)[m] == if m in s then 0 else multiset(running)[m]
    {
      EvictedCounts(s, running, m);
    }
    assert Serves(p, target, running, costs, d, best, s);
  }
}
