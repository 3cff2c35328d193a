/**
  The compiled program and its membership queries (internal/matrix/program.go: CanContainAll,
  findContaining, supportsAll), proved exact against the naive denotation of every set.
 */
module MatrixProgram {
  import opened MatrixSpec
  import opened MatrixEvaluator
  import B = BitMask

  datatype CompiledSet = CompiledSet(name: string, dsl: string, root: Node, support: B.Mask)

  datatype Program = Program(sets: seq<CompiledSet>, modelBits: ModelBits, words: nat) {

    /** The linked expressions, in compile order. */
    function Named(): (r: seq<NamedSet>)
      ensures |r| == |sets|
      ensures forall i :: 0 <= i < |sets| ==> r[i] == NamedSet(sets[i].name, sets[i].root)
    {
      seq(|sets|, i requires 0 <= i < |sets| => NamedSet(sets[i].name, sets[i].root))
    }

    /** The full expansion of set i. */
    function Expanded(i: nat): Node
      requires i < |sets|
    {
      Expand(sets[i].root, Named(), i)
    }

    /** The allowed model sets of set i: the naive denotation of its full expansion. */
    function Allowed(i: nat): Family
      requires i < |sets|
    {
      FamilyOf(Expanded(i))
    }

    /** What Compile establishes: linked sets, and supports that hold what each set mentions. */
    ghost predicate Compiled() {
      && Linked(Named())
      && IsIndex(modelBits)
      && words == B.WordsFor(|modelBits|)
      && forall i :: 0 <= i < |sets| ==>
           && Fits(sets[i].support, modelBits)
           && Held(sets[i].support, modelBits) == Mentioned(Expanded(i))
    }

    /** Some allowed set of set i holds all the models. */
    ghost predicate Contains(i: nat, models: seq<string>)
      requires i < |sets|
    {
      exists s :: s in Allowed(i) && AsSet(models) <= s
    }
  }

  datatype Decision = Decision(
    evict: seq<string>, targetSet: seq<string>, setName: string, dsl: string, totalCost: int)

  // ---- membership queries ----

  /** A model outside an expression's mention is in none of its allowed sets. */
  lemma SupportIsNecessary(p: Program, i: nat, model: string)
    requires i < |p.sets| && model !in Mentioned(p.Expanded(i))
    ensures forall s <- p.Allowed(i) :: model !in s
  {
    forall s | s in p.Allowed(i)
      ensures model !in s
    {
      FamilyWithinMentioned(p.Expanded(i), s);
    }
  }

  /** `set.support.has(bit)` for a model that may be unknown to the program. */
  method Supports(p: Program, i: nat, model: string) returns (r: bool)
    requires p.Compiled() && i < |p.sets|
    ensures r <==> model in Mentioned(p.Expanded(i))
  {
    hide B.Bits;
    if model !in p.modelBits {
      assert model !in Held(p.sets[i].support, p.modelBits);
      return false;
    }
    FitsBit(p.modelBits, model);
    return B.Has(p.sets[i].support, p.modelBits[model]);
  }

  lemma FitsBit(bits: ModelBits, model: string)
    requires IsIndex(bits) && model in bits
    ensures bits[model] < 64 * B.WordsFor(|bits|)
  {
  }

  method SupportsAll(p: Program, i: nat, models: seq<string>) returns (r: bool)
    requires p.Compiled() && i < |p.sets|
    ensures r <==> AsSet(models) <= Mentioned(p.Expanded(i))
  {
    for j := 0 to |models|
      invariant AsSet(models[..j]) <= Mentioned(p.Expanded(i))
    {
      hide *;
      var ok := Supports(p, i, models[j]);
      if !ok {
        return false;
      }
      assert models[..j + 1] == models[..j] + [models[j]];
    }
    assert models[..|models|] == models;
    return true;
  }

  /** A query holds of a family exactly when one frontier state holds every asked model. */
  lemma FrontierAnswersContains(p: Program, i: nat, models: seq<string>)
    requires i < |p.sets|
    ensures p.Contains(i, models)
       <==> Covered(Frontier(p.Expanded(i), AsSet(models)), AsSet(models))
  {
    var relevant := AsSet(models);
    var states, fam := Frontier(p.Expanded(i), relevant), p.Allowed(i);
    FrontierIsExact(p.Expanded(i), relevant);
    if p.Contains(i, models) {
      var s :| s in fam && AsSet(models) <= s;
      assert s * relevant == relevant;
      assert Covered(states, s * relevant);
    }
    if Covered(states, relevant) {
      var j :| 0 <= j < |states| && relevant <= states[j].mask;
      assert IsReal(states[j], fam, relevant);
    }
  }

  /** The frontier the evaluator holds for set i is that of its full expansion. */
  lemma FrontierOfSet(e: Evaluator, p: Program, i: nat)
    requires p.Compiled() && i < |p.sets| && e.sets == p.Named()
    ensures RefsBelow(p.sets[i].root, p.Named(), i)
    ensures e.FrontierOf(p.sets[i].root) == Frontier(p.Expanded(i), e.modelBits.Keys)
  {
    assert RefsBelow(p.Named()[i].root, p.Named(), i);
    ExpandIsStable(p.sets[i].root, p.Named(), i, |p.sets|);
  }

  /** `evaluator.evaluate(set.root)`. */
  method EvaluateSet(e: Evaluator, p: Program, i: nat) returns (states: Slice)
    requires p.Compiled() && i < |p.sets| && e.sets == p.Named() && e.Valid()
    modifies e`memo, e`arrays
    ensures e.Valid()
    ensures Represents(states, Frontier(p.Expanded(i), e.modelBits.Keys), e.modelBits)
  {
    hide Represents, IsIndex, Frontier, Expand;
    FrontierOfSet(e, p, i);
    states := e.Evaluate(p.sets[i].root, i);
  }

  /** `required.subsetOf(state.mask)` for some state of the slice. */
  method AnyHoldsAll(e: Evaluator, states: Slice, ghost spec: seq<State>, required: B.Mask) returns (r: bool)
    requires IsIndex(e.modelBits) && Represents(states, spec, e.modelBits)
    requires Fits(required, e.modelBits)
    ensures r <==> Covered(spec, Held(required, e.modelBits))
  {
    hide Fits, Held;
    for j := 0 to states.len
      invariant forall k :: 0 <= k < j ==> !(Held(required, e.modelBits) <= spec[k].mask)
    {
      ghost var state := states.arr[..states.len][j];
      SizedElement(states.arr[..states.len], j, e.modelBits);
      SameWidth(required, state.mask, e.modelBits);
      var inside := B.SubsetOf(required, states.arr[j].mask);
      HeldSubset(required, state.mask, e.modelBits);
      if inside {
        return true;
      }
    }
    return false;
  }

  /** The first set, in compile order, with an allowed set that holds every model; |p.sets| when none does.
      CanContainAll and findContaining are this loop. */
  method FirstContaining(p: Program, models: seq<string>) returns (i: nat)
    requires p.Compiled()
    ensures i <= |p.sets|
    ensures i < |p.sets| ==> p.Contains(i, models)
    ensures forall j :: 0 <= j < i ==> !p.Contains(j, models)
  {
    hide Represents, Fits, Held, IsIndex, Covered, Frontier, Linked, Mentioned, Expand, Program.Expanded,
      Program.Contains;
    var e := new Evaluator(p.Named(), models);
    var required := B.FullMask(|e.modelBits|);
    HeldAll(required, e.modelBits);
    i := 0;
    while i < |p.sets|
      invariant i <= |p.sets| && e.Valid() && e.sets == p.Named()
      invariant forall j :: 0 <= j < i ==> !p.Contains(j, models)
    {
      var supported := SupportsAll(p, i, models);
      if supported {
        var states := EvaluateSet(e, p, i);
        var found := AnyHoldsAll(e, states, Frontier(p.Expanded(i), e.modelBits.Keys), required);
        FrontierAnswersContains(p, i, models);
        if found {
          return;
        }
      } else {
        UnsupportedContainsNothing(p, i, models);
      }
      i := i + 1;
    }
  }

  lemma UnsupportedContainsNothing(p: Program, i: nat, models: seq<string>)
    requires i < |p.sets| && !(AsSet(models) <= Mentioned(p.Expanded(i)))
    ensures !p.Contains(i, models)
  {
    var m :| m in models && m !in Mentioned(p.Expanded(i));
    SupportIsNecessary(p, i, m);
  }

  /** CanContainAll: some generated set contains every supplied model (trivially when there are none). */
  method CanContainAll(p: Program, models: seq<string>) returns (r: bool)
    requires p.Compiled()
    ensures r <==> models == [] || exists i :: 0 <= i < |p.sets| && p.Contains(i, models)
  {
    if |models| == 0 {
      return true;
    }
    var i := FirstContaining(p, models);
    return i < |p.sets|;
  }

  /** findContaining: name and text of the first set that allows all the models together. */
  method FindContaining(p: Program, models: seq<string>) returns (setName: string, dsl: string)
    requires p.Compiled()
    ensures IsContaining(p, models, setName, dsl)
  {
    if |models| == 0 {
      return "", "";
    }
    var i := FirstContaining(p, models);
    if i < |p.sets| {
      return p.sets[i].name, p.sets[i].dsl;
    }
    return "", "";
  }

  ghost predicate IsContaining(p: Program, models: seq<string>, setName: string, dsl: string) {
    if models != [] && exists i :: 0 <= i < |p.sets| && p.Contains(i, models) then
      exists i :: 0 <= i < |p.sets| && IsFirstContaining(p, models, i)
                  && setName == p.sets[i].name && dsl == p.sets[i].dsl
    else setName == "" && dsl == ""
  }

  ghost predicate IsFirstContaining(p: Program, models: seq<string>, i: nat)
    requires i < |p.sets|
  {
    p.Contains(i, models) && forall j :: 0 <= j < i ==> !p.Contains(j, models)
  }
}
