/**
  The memoised, pruning evaluator (internal/matrix/program.go, evaluator and addToFrontier),
  on bit masks and on slices that share their backing arrays, proved against `Frontier`.
 */
module MatrixEvaluator {
  import opened MatrixSpec
  import B = BitMask

  // ---- masks and the models they stand for ----

  /** Query-local bit positions: one per relevant model, 0 up to the number of models. */
  type ModelBits = map<string, nat>

  ghost predicate IsIndex(bits: ModelBits) {
    && (forall x <- bits :: bits[x] < |bits|)
    && (forall x, y :: x in bits && y in bits && bits[x] == bits[y] ==> x == y)
    && (forall b: nat :: b < |bits| ==> b in bits.Values)
  }

  ghost predicate Fits(m: B.Mask, bits: ModelBits) {
    && |m| == B.WordsFor(|bits|)
    && forall b <- B.Bits(m) :: b in bits.Values
  }

  /** The models a mask holds. */
  ghost function Held(m: B.Mask, bits: ModelBits): ModelSet {
    set x | x in bits && bits[x] in B.Bits(m)
  }

  lemma HeldSubset(m: B.Mask, other: B.Mask, bits: ModelBits)
    requires Fits(m, bits) && Fits(other, bits)
    ensures B.Bits(m) <= B.Bits(other) <==> Held(m, bits) <= Held(other, bits)
  {
    hide B.Bits;
    if Held(m, bits) <= Held(other, bits) {
      forall b | b in B.Bits(m)
        ensures b in B.Bits(other)
      {
        var x :| x in bits && bits[x] == b;
        assert x in Held(m, bits);
      }
    }
  }

  lemma HeldAll(m: B.Mask, bits: ModelBits)
    requires IsIndex(bits) && |m| == B.WordsFor(|bits|)
    requires forall b: nat :: b in B.Bits(m) <==> b < |bits|
    ensures Fits(m, bits) && Held(m, bits) == bits.Keys
  {
  }

  /** One bit per distinct model, in order of first appearance. */
  method IndexModels(models: seq<string>) returns (bits: ModelBits)
    ensures IsIndex(bits)
    ensures bits.Keys == AsSet(models)
  {
    bits := map[];
    for i := 0 to |models|
      invariant IsIndex(bits)
      invariant bits.Keys == AsSet(models[..i])
    {
      hide IsIndex;
      assert models[..i + 1] == models[..i] + [models[i]];
      if models[i] !in bits {
        NextBit(bits, models[i]);
        bits := bits[models[i] := |bits|];
      }
    }
    assert models[..|models|] == models;
  }

  lemma NextBit(bits: ModelBits, model: string)
    requires IsIndex(bits) && model !in bits
    ensures IsIndex(bits[model := |bits|])
  {
    var r := bits[model := |bits|];
    assert r.Keys == bits.Keys + {model};
    forall b: nat | b < |r|
      ensures b in r.Values
    {
      NextValue(bits, model, b);
    }
  }

  lemma NextValue(bits: ModelBits, model: string, b: nat)
    requires IsIndex(bits) && model !in bits && b <= |bits|
    ensures b in bits[model := |bits|].Values
  {
    var r := bits[model := |bits|];
    if b < |bits| {
      assert b in bits.Values;
      var x :| x in bits && bits[x] == b;
      assert r[x] == b;
    } else {
      assert r[model] == b;
    }
  }

  // ---- slices of projected states ----

  datatype ProjectedState = ProjectedState(mask: B.Mask, origin: Witness)

  /** A Go slice that starts at the front of its backing array. */
  datatype Slice = Slice(arr: array<ProjectedState>, len: nat)

  ghost predicate Sized(states: seq<ProjectedState>, bits: ModelBits) {
    forall i :: 0 <= i < |states| ==> Fits(states[i].mask, bits)
  }

  ghost function Abs(p: ProjectedState, bits: ModelBits): State {
    State(Held(p.mask, bits), p.origin)
  }

  ghost function AbsAll(states: seq<ProjectedState>, bits: ModelBits): (r: seq<State>)
    ensures |r| == |states|
    ensures forall i :: 0 <= i < |states| ==> r[i] == Abs(states[i], bits)
  {
    seq(|states|, i requires 0 <= i < |states| => Abs(states[i], bits))
  }

  lemma AbsAllSnoc(states: seq<ProjectedState>, p: ProjectedState, bits: ModelBits)
    ensures AbsAll(states + [p], bits) == AbsAll(states, bits) + [Abs(p, bits)]
  {
  }

  /** Go's append: in place while there is capacity, else into a larger array. */
  method Append(states: Slice, p: ProjectedState) returns (r: Slice)
    requires states.len <= states.arr.Length
    modifies states.arr
    ensures r.len <= r.arr.Length && (r.arr == states.arr || fresh(r.arr))
    ensures r.arr[..r.len] == old(states.arr[..states.len]) + [p]
  {
    if states.len < states.arr.Length {
      states.arr[states.len] := p;
      r := Slice(states.arr, states.len + 1);
    } else {
      var bigger := new ProjectedState[2 * states.len + 1];
      for i := 0 to states.len
        invariant forall k :: 0 <= k < i ==> bigger[k] == states.arr[k]
        invariant states.arr[..] == old(states.arr[..])
      {
        bigger[i] := states.arr[i];
      }
      bigger[states.len] := p;
      r := Slice(bigger, states.len + 1);
    }
  }

  /** addToFrontier's first loop: is the candidate inside some state already kept? */
  method IsCovered(states: Slice, candidate: ProjectedState, ghost bits: ModelBits) returns (covered: bool)
    requires states.len <= states.arr.Length
    requires Sized(states.arr[..states.len], bits) && Fits(candidate.mask, bits)
    ensures covered <==> Covered(AbsAll(states.arr[..states.len], bits), Held(candidate.mask, bits))
  {
    hide Fits, Held;
    ghost var was := states.arr[..states.len];
    for i := 0 to states.len
      invariant forall k :: 0 <= k < i ==> !(Held(candidate.mask, bits) <= AbsAll(was, bits)[k].mask)
    {
      assert states.arr[i] == was[i];
      SameWidth(candidate.mask, was[i].mask, bits);
      var inside := B.SubsetOf(candidate.mask, states.arr[i].mask);
      HeldSubset(candidate.mask, was[i].mask, bits);
      if inside {
        return true;
      }
    }
    return false;
  }

  /** addToFrontier's second loop: compacts the survivors into `states[:0]`, the same backing array. */
  method Compact(states: Slice, candidate: ProjectedState, ghost bits: ModelBits) returns (kept: nat)
    requires states.len <= states.arr.Length
    requires Sized(states.arr[..states.len], bits) && Fits(candidate.mask, bits)
    modifies states.arr
    ensures kept <= states.len
    ensures Sized(states.arr[..kept], bits)
    ensures AbsAll(states.arr[..kept], bits)
         == Undominated(old(AbsAll(states.arr[..states.len], bits)), Held(candidate.mask, bits))
  {
    hide Fits, Held, Sized, Undominated, AbsAll;
    ghost var was, out := states.arr[..states.len], [];
    ghost var mask := Held(candidate.mask, bits);
    kept := 0;
    NothingKept(was, mask, bits);
    for i := 0 to states.len
      invariant 0 <= kept <= i
      invariant |out| == kept && forall k :: 0 <= k < kept ==> states.arr[k] == out[k]
      invariant forall k :: i <= k < states.len ==> states.arr[k] == was[k]
      invariant Sized(out, bits) && AbsAll(out, bits) == Undominated(AbsAll(was[..i], bits), mask)
    {
      var state := states.arr[i];
      SizedElement(was, i, bits);
      SameWidth(state.mask, candidate.mask, bits);
      var inside := B.SubsetOf(state.mask, candidate.mask);
      HeldSubset(state.mask, candidate.mask, bits);
      KeepStep(was, i, out, mask, bits);
      if !inside {
        states.arr[kept] := state;
        kept := kept + 1;
        out := out + [state];
      }
    }
    assert was[..states.len] == was && states.arr[..kept] == out;
  }

  lemma NothingKept(was: seq<ProjectedState>, mask: ModelSet, bits: ModelBits)
    ensures Sized([], bits) && AbsAll([], bits) == Undominated(AbsAll(was[..0], bits), mask)
  {
    assert was[..0] == [];
  }

  lemma SizedElement(was: seq<ProjectedState>, i: nat, bits: ModelBits)
    requires i < |was| && Sized(was, bits)
    ensures Fits(was[i].mask, bits)
  {
  }

  /** One step of the compaction: state i survives unless the new mask holds it. */
  lemma KeepStep(was: seq<ProjectedState>, i: nat, out: seq<ProjectedState>, mask: ModelSet, bits: ModelBits)
    requires i < |was| && Sized(was, bits) && Sized(out, bits)
    requires AbsAll(out, bits) == Undominated(AbsAll(was[..i], bits), mask)
    ensures Held(was[i].mask, bits) <= mask
        ==> AbsAll(out, bits) == Undominated(AbsAll(was[..i + 1], bits), mask)
    ensures !(Held(was[i].mask, bits) <= mask)
        ==> Sized(out + [was[i]], bits)
            && AbsAll(out + [was[i]], bits) == Undominated(AbsAll(was[..i + 1], bits), mask)
  {
    var all := AbsAll(was[..i + 1], bits);
    assert all[..|all| - 1] == AbsAll(was[..i], bits);
    AbsAllSnoc(out, was[i], bits);
  }

  /** addToFrontier: the result shares the given backing array or is fresh. */
  method AddToFrontier(states: Slice, candidate: ProjectedState, ghost bits: ModelBits) returns (r: Slice)
    requires states.len <= states.arr.Length
    requires Sized(states.arr[..states.len], bits) && Fits(candidate.mask, bits)
    modifies states.arr
    ensures r.len <= r.arr.Length && (r.arr == states.arr || fresh(r.arr))
    ensures Sized(r.arr[..r.len], bits)
    ensures AbsAll(r.arr[..r.len], bits) == Add(old(AbsAll(states.arr[..states.len], bits)), Abs(candidate, bits))
  {
    hide Fits, Held, Undominated, Covered;
    var covered := IsCovered(states, candidate, bits);
    if covered {
      return states;
    }
    var kept := Compact(states, candidate, bits);
    ghost var survivors := states.arr[..kept];
    r := Append(Slice(states.arr, kept), candidate);
    AbsAllSnoc(survivors, candidate, bits);
  }

  lemma SameWidth(m: B.Mask, other: B.Mask, bits: ModelBits)
    requires Fits(m, bits) && Fits(other, bits)
    ensures |m| == |other|
  {
  }

  /** The slice's elements are the given states, mask by mask. */
  ghost predicate Represents(slice: Slice, states: seq<State>, bits: ModelBits)
    reads slice.arr
  {
    && slice.len <= slice.arr.Length
    && Sized(slice.arr[..slice.len], bits)
    && AbsAll(slice.arr[..slice.len], bits) == states
  }

  lemma AddAllStep(states: seq<State>, more: seq<State>, i: nat)
    requires i < |more|
    ensures AddAll(states, more[..i + 1]) == Add(AddAll(states, more[..i]), more[i])
  {
    assert more[..i + 1][..i] == more[..i];
  }

  /** The OR loop over one child's states. */
  method MergeAll(states: Slice, more: Slice, ghost old_: seq<State>, ghost more_: seq<State>, ghost bits: ModelBits)
    returns (r: Slice)
    requires Represents(states, old_, bits) && Represents(more, more_, bits)
    requires states.arr != more.arr
    modifies states.arr
    ensures r.arr == states.arr || fresh(r.arr)
    ensures Represents(r, AddAll(old_, more_), bits)
  {
    hide Add, Sized, Fits;
    r := states;
    for i := 0 to more.len
      invariant r.arr == states.arr || fresh(r.arr)
      invariant Represents(more, more_, bits)
      invariant Represents(r, AddAll(old_, more_[..i]), bits)
    {
      SizedElement(more.arr[..more.len], i, bits);
      r := AddToFrontier(r, more.arr[i], bits);
      AddAllStep(old_, more_, i);
    }
    assert more_[..more.len] == more_;
  }

  /** The AND loop of one left state over the right child's states. */
  method JoinInto(states: Slice, left: ProjectedState, rights: Slice,
                  ghost old_: seq<State>, ghost rights_: seq<State>, ghost bits: ModelBits)
    returns (r: Slice)
    requires Represents(states, old_, bits) && Represents(rights, rights_, bits)
    requires Fits(left.mask, bits)
    requires states.arr != rights.arr
    modifies states.arr
    ensures r.arr == states.arr || fresh(r.arr)
    ensures Represents(r, AddAll(old_, JoinEach(Abs(left, bits), rights_)), bits)
  {
    hide Add, Sized, Fits, Held;
    ghost var joined := JoinEach(Abs(left, bits), rights_);
    r := states;
    for i := 0 to rights.len
      invariant r.arr == states.arr || fresh(r.arr)
      invariant Represents(rights, rights_, bits)
      invariant Represents(r, AddAll(old_, joined[..i]), bits)
    {
      var right := rights.arr[i];
      SizedElement(rights.arr[..rights.len], i, bits);
      SameWidth(left.mask, right.mask, bits);
      var mask := B.UnionMask(left.mask, right.mask);
      UnionHolds(left.mask, right.mask, mask, bits);
      var state := ProjectedState(mask, Choice("", left.origin, right.origin));
      assert joined[i] == Abs(state, bits);
      r := AddToFrontier(r, state, bits);
      AddAllStep(old_, joined, i);
    }
    assert joined[..rights.len] == joined;
  }

  lemma UnionHolds(m: B.Mask, other: B.Mask, union: B.Mask, bits: ModelBits)
    requires Fits(m, bits) && Fits(other, bits)
    requires |union| == |m| && B.Bits(union) == B.Bits(m) + B.Bits(other)
    ensures Fits(union, bits) && Held(union, bits) == Held(m, bits) + Held(other, bits)
  {
    hide B.Bits;
  }

  lemma CombineStep(lefts: seq<State>, rights: seq<State>, i: nat)
    requires i < |lefts|
    ensures Combine(lefts[..i + 1], rights) == AddAll(Combine(lefts[..i], rights), JoinEach(lefts[i], rights))
  {
    assert lefts[..i + 1][..i] == lefts[..i];
  }

  /** The AND loop over one child: every left state joined with every right state. */
  method CombineStates(lefts: Slice, rights: Slice, ghost lefts_: seq<State>, ghost rights_: seq<State>,
                       ghost bits: ModelBits)
    returns (combined: Slice)
    requires Represents(lefts, lefts_, bits) && Represents(rights, rights_, bits)
    ensures fresh(combined.arr)
    ensures Represents(combined, Combine(lefts_, rights_), bits)
  {
    hide Sized, Fits, AddAll;
    combined := EmptySlice(bits);
    for i := 0 to lefts.len
      invariant fresh(combined.arr)
      invariant Represents(lefts, lefts_, bits) && Represents(rights, rights_, bits)
      invariant Represents(combined, Combine(lefts_[..i], rights_), bits)
    {
      SizedElement(lefts.arr[..lefts.len], i, bits);
      CombineStep(lefts_, rights_, i);
      combined := JoinInto(combined, lefts.arr[i], rights, Combine(lefts_[..i], rights_), rights_, bits);
    }
    assert lefts_[..lefts.len] == lefts_;
  }

  /** Go's nil slice. */
  method EmptySlice(ghost bits: ModelBits) returns (r: Slice)
    ensures fresh(r.arr) && Represents(r, [], bits)
  {
    var arr := new ProjectedState[0];
    r := Slice(arr, 0);
  }

  method SingleSlice(p: ProjectedState, ghost bits: ModelBits) returns (r: Slice)
    requires Fits(p.mask, bits)
    ensures fresh(r.arr) && Represents(r, [Abs(p, bits)], bits)
  {
    var arr := new ProjectedState[1];
    arr[0] := p;
    r := Slice(arr, 1);
  }

  /** The mask of one leaf: its own bit when the model is relevant, else nothing. */
  method LeafMask(name: string, bits: ModelBits) returns (mask: B.Mask)
    requires IsIndex(bits)
    ensures Fits(mask, bits) && Held(mask, bits) == {name} * bits.Keys
  {
    mask := B.Zero(B.WordsFor(|bits|));
    if name in bits {
      mask := B.SetBit(mask, bits[name]);
    }
    hide B.Bits;
  }

  lemma ZeroHolds(mask: B.Mask, bits: ModelBits)
    requires |mask| == B.WordsFor(|bits|) && B.Bits(mask) == {}
    ensures Fits(mask, bits) && Held(mask, bits) == {}
  {
  }

  lemma OrFrontierStart(parts: seq<Node>, relevant: ModelSet)
    ensures OrFrontier(parts[..0], relevant) == []
  {
  }

  lemma OrFrontierStep(parts: seq<Node>, i: nat, relevant: ModelSet)
    requires i < |parts|
    ensures OrFrontier(parts[..i + 1], relevant)
         == AddAll(OrFrontier(parts[..i], relevant), Frontier(parts[i], relevant))
  {
    assert parts[..i + 1][..i] == parts[..i];
  }

  lemma AndFrontierStart(parts: seq<Node>, relevant: ModelSet)
    ensures AndFrontier(parts[..0], relevant) == [State({}, Nil)]
  {
  }

  lemma AndFrontierStep(parts: seq<Node>, i: nat, relevant: ModelSet)
    requires i < |parts|
    ensures AndFrontier(parts[..i + 1], relevant)
         == Combine(AndFrontier(parts[..i], relevant), Frontier(parts[i], relevant))
  {
    assert parts[..i + 1][..i] == parts[..i];
  }

  // ---- the evaluator ----

  class Evaluator {
    /** The linked program; a reference points at the set of that name. */
    const sets: seq<NamedSet>
    const modelBits: ModelBits
    const words: nat
    var memo: map<Node, Slice>

    ghost var arrays: set<array<ProjectedState>>  // the backing arrays of the memo

    /** What evaluate must return for n: the frontier of its full expansion. */
    ghost function FrontierOf(n: Node): seq<State> {
      Frontier(Expand(n, sets, |sets|), modelBits.Keys)
    }

    ghost predicate Valid()
      reads this, arrays
    {
      && Linked(sets)
      && IsIndex(modelBits)
      && words == B.WordsFor(|modelBits|)
      && forall n <- memo :: memo[n].arr in arrays && Represents(memo[n], FrontierOf(n), modelBits)
    }

    /** newEvaluator: one bit per distinct relevant model, in order of first appearance. */
    constructor (sets: seq<NamedSet>, relevant: seq<string>)
      requires Linked(sets)
      ensures Valid() && memo == map[] && this.sets == sets
      ensures modelBits.Keys == AsSet(relevant)
    {
      var bits := IndexModels(relevant);
      this.sets := sets;
      modelBits := bits;
      words := B.WordsFor(|bits|);
      memo := map[];
      arrays := {};
    }

    /** A linked reference and the set it points at have the same frontier. */
    lemma RefUnfolds(name: string, k: nat)
      requires k <= |sets| && RefsBelow(Ref(name), sets, k)
      requires Linked(sets)
      ensures Find(sets, name, |sets|) == Find(sets, name, k) < k
      ensures RefsBelow(sets[Find(sets, name, k)].root, sets, Find(sets, name, k))
      ensures FrontierOf(Ref(name)) == FrontierOf(sets[Find(sets, name, k)].root)
    {
      FindIsStable(sets, name, k, |sets|);
      var i := Find(sets, name, k);
      ExpandIsStable(sets[i].root, sets, i, |sets|);
    }

    /** evaluate: the frontier of the node's full expansion.  Whatever was memoised stays
        memoised, in the same backing array with the same contents. */
    method Evaluate(root: Node, ghost k: nat) returns (states: Slice)
      requires Valid() && k <= |sets| && RefsBelow(root, sets, k)
      modifies this`memo, this`arrays
      ensures Valid() && Represents(states, FrontierOf(root), modelBits)
      ensures states.arr in arrays
      ensures fresh(arrays - old(arrays))
      ensures forall n <- old(memo) :: n in memo && memo[n] == old(memo[n])
                                       && memo[n].arr[..] == old(memo[n].arr[..])
      decreases k, root, 1
    {
      hide Frontier, Represents, IsIndex, Linked;
      if root in memo {
        states := memo[root];
        return;
      }
      match root {
        case Leaf(name) =>
          var mask := LeafMask(name, modelBits);
          states := SingleSlice(ProjectedState(mask, Choice(name, Nil, Nil)), modelBits);
          LeafFrontier(name);
        case Ref(name) =>
          RefUnfolds(name, k);
          var i := Find(sets, name, |sets|);
          states := Evaluate(sets[i].root, i);
        case Or(children) =>
          states := EvaluateOr(children, k);
          OrFrontierOf(children);
        case And(children) =>
          states := EvaluateAnd(children, k);
          AndFrontierOf(children);
      }
      memo := memo[root := states];
      arrays := arrays + {states.arr};
      assert memo[root] == states;
    }

    lemma LeafFrontier(name: string)
      ensures FrontierOf(Leaf(name)) == [State({name} * modelBits.Keys, Choice(name, Nil, Nil))]
    {
    }

    ghost function Expansions(children: seq<Node>): (r: seq<Node>)
      ensures |r| == |children|
      ensures forall i :: 0 <= i < |children| ==> r[i] == Expand(children[i], sets, |sets|)
    {
      ExpandAll(children, sets, |sets|)
    }

    lemma OrFrontierOf(children: seq<Node>)
      ensures FrontierOf(Or(children)) == OrFrontier(Expansions(children), modelBits.Keys)
    {
    }

    lemma AndFrontierOf(children: seq<Node>)
      ensures FrontierOf(And(children)) == AndFrontier(Expansions(children), modelBits.Keys)
    {
    }

    method EvaluateOr(children: seq<Node>, ghost k: nat) returns (states: Slice)
      requires Valid() && k <= |sets| && forall c <- children :: RefsBelow(c, sets, k)
      modifies this`memo, this`arrays
      ensures Valid() && Represents(states, OrFrontier(Expansions(children), modelBits.Keys), modelBits)
      ensures fresh(states.arr)
      ensures fresh(arrays - old(arrays))
      ensures forall n <- old(memo) :: n in memo && memo[n] == old(memo[n])
      decreases k, children, 0
    {
      hide Frontier, Represents, IsIndex, Linked, AddAll, OrFrontier, Expand, RefsBelow;
      ghost var parts := Expansions(children);
      OrFrontierStart(parts, modelBits.Keys);
      states := EmptySlice(modelBits);
      for i := 0 to |children|
        invariant Valid() && fresh(states.arr) && states.arr !in arrays
        invariant Represents(states, OrFrontier(parts[..i], modelBits.Keys), modelBits)
        invariant fresh(arrays - old(arrays))
        invariant forall n <- old(memo) :: n in memo && memo[n] == old(memo[n])
      {
        var more := Evaluate(children[i], k);
        ghost var before := OrFrontier(parts[..i], modelBits.Keys);
        states := MergeAll(states, more, before, FrontierOf(children[i]), modelBits);
        OrFrontierStep(parts, i, modelBits.Keys);
      }
      assert parts[..|children|] == parts;
    }

    method EvaluateAnd(children: seq<Node>, ghost k: nat) returns (states: Slice)
      requires Valid() && k <= |sets| && forall c <- children :: RefsBelow(c, sets, k)
      modifies this`memo, this`arrays
      ensures Valid() && Represents(states, AndFrontier(Expansions(children), modelBits.Keys), modelBits)
      ensures fresh(states.arr)
      ensures fresh(arrays - old(arrays))
      ensures forall n <- old(memo) :: n in memo && memo[n] == old(memo[n])
      decreases k, children, 0
    {
      hide Frontier, Represents, IsIndex, Linked, Combine, AndFrontier, Expand, RefsBelow;
      ghost var parts := Expansions(children);
      AndFrontierStart(parts, modelBits.Keys);
      ZeroHolds(B.Zero(words), modelBits);
      states := SingleSlice(ProjectedState(B.Zero(words), Nil), modelBits);
      for i := 0 to |children|
        invariant Valid() && fresh(states.arr) && states.arr !in arrays
        invariant Represents(states, AndFrontier(parts[..i], modelBits.Keys), modelBits)
        invariant fresh(arrays - old(arrays))
        invariant forall n <- old(memo) :: n in memo && memo[n] == old(memo[n])
      {
        var more := Evaluate(children[i], k);
        states := CombineStates(states, more, AndFrontier(parts[..i], modelBits.Keys), FrontierOf(children[i]),
            modelBits);
        AndFrontierStep(parts, i, modelBits.Keys);
      }
      assert parts[..|children|] == parts;
    }
  }
}
