/**
  What a matrix expression means, and the pruned projection that the solver computes instead.

  `Expand` unfolds every named reference, `Family` is the naive denotation of the unfolded
  expression (the full list of allowed model sets), and `Frontier` is the pruned list of
  projected states.  `FrontierIsExact` says that the second is exact against the first.
 */
module MatrixSpec {

  /** One expression node (internal/matrix/dsl.go). */
  datatype Node =
    | Leaf(name: string)
    | Ref(name: string)
    | And(children: seq<Node>)
    | Or(children: seq<Node>)

  /** A named expression, in the order Compile put them. */
  datatype NamedSet = NamedSet(name: string, root: Node)

  type ModelSet = set<string>
  type Family = set<ModelSet>

  function AsSet(models: seq<string>): ModelSet {
    set m | m in models
  }

  // ---- unfolding references ----

  /** The place of the set called `name` among the first k, or k when there is none. */
  function Find(sets: seq<NamedSet>, name: string, k: nat): (i: nat)
    requires k <= |sets|
    ensures i <= k
    ensures i < k ==> sets[i].name == name
    ensures i == k ==> forall j :: 0 <= j < k ==> sets[j].name != name
  {
    if k == 0 then 0
    else
      var i := Find(sets, name, k - 1);
      if i < k - 1 then i else if sets[k - 1].name == name then k - 1 else k
  }

  /** The expression with every reference to one of the first k sets replaced by that set's own expansion. */
  function Expand(n: Node, sets: seq<NamedSet>, k: nat): Node
    requires k <= |sets|
    decreases k, n, 1
  {
    match n
    case Leaf(_) => n
    case Ref(name) =>
      var i := Find(sets, name, k);
      if i < k then Expand(sets[i].root, sets, i) else n
    case And(children) => And(ExpandAll(children, sets, k))
    case Or(children) => Or(ExpandAll(children, sets, k))
  }

  function ExpandAll(children: seq<Node>, sets: seq<NamedSet>, k: nat): (r: seq<Node>)
    requires k <= |sets|
    ensures |r| == |children|
    ensures forall i :: 0 <= i < |children| ==> r[i] == Expand(children[i], sets, k)
    decreases k, children, 0
  {
    seq(|children|, i requires 0 <= i < |children| => Expand(children[i], sets, k))
  }

  /** Every reference in n names one of the first k sets. */
  predicate RefsBelow(n: Node, sets: seq<NamedSet>, k: nat)
    requires k <= |sets|
  {
    match n
    case Leaf(_) => true
    case Ref(name) => Find(sets, name, k) < k
    case And(children) => forall c <- children :: RefsBelow(c, sets, k)
    case Or(children) => forall c <- children :: RefsBelow(c, sets, k)
  }

  /** References only point backwards, and no two sets share a name. */
  predicate Linked(sets: seq<NamedSet>) {
    && (forall i, j :: 0 <= i < j < |sets| ==> sets[i].name != sets[j].name)
    && (forall i :: 0 <= i < |sets| ==> RefsBelow(sets[i].root, sets, i))
  }

  lemma FindIsStable(sets: seq<NamedSet>, name: string, k: nat, m: nat)
    requires k <= m <= |sets| && Find(sets, name, k) < k
    ensures Find(sets, name, m) == Find(sets, name, k)
  {
    if k < m {
      FindIsStable(sets, name, k, m - 1);
    }
  }

  /** Unfolding does not depend on how many later sets are in view. */
  lemma {:induction false} ExpandIsStable(n: Node, sets: seq<NamedSet>, k: nat, m: nat)
    requires k <= m <= |sets| && RefsBelow(n, sets, k)
    ensures RefsBelow(n, sets, m) && Expand(n, sets, m) == Expand(n, sets, k)
    decreases n
  {
    match n
    case Leaf(_) =>
    case Ref(name) => FindIsStable(sets, name, k, m);
    case And(children) => ExpandAllIsStable(children, sets, k, m);
    case Or(children) => ExpandAllIsStable(children, sets, k, m);
  }

  lemma {:induction false} ExpandAllIsStable(children: seq<Node>, sets: seq<NamedSet>, k: nat, m: nat)
    requires k <= m <= |sets| && forall c <- children :: RefsBelow(c, sets, k)
    ensures forall c <- children :: RefsBelow(c, sets, m)
    ensures ExpandAll(children, sets, m) == ExpandAll(children, sets, k)
    decreases children
  {
    forall i | 0 <= i < |children|
      ensures RefsBelow(children[i], sets, m)
      ensures Expand(children[i], sets, m) == Expand(children[i], sets, k)
    {
      ExpandIsStable(children[i], sets, k, m);
    }
  }

  // ---- the naive denotation ----

  function PairwiseUnions(left: Family, right: Family): Family {
    set a, b | a in left && b in right :: a + b
  }

  /** The allowed model sets of an unfolded expression; a dangling reference allows none. */
  function FamilyOf(n: Node): Family {
    match n
    case Leaf(m) => {{m}}
    case Ref(_) => {}
    case And(children) => AllUnions(children)
    case Or(children) => AnyFamily(children)
  }

  function AnyFamily(children: seq<Node>): Family {
    if children == [] then {}
    else AnyFamily(children[..|children| - 1]) + FamilyOf(children[|children| - 1])
  }

  function AllUnions(children: seq<Node>): Family {
    if children == [] then {{}}
    else PairwiseUnions(AllUnions(children[..|children| - 1]), FamilyOf(children[|children| - 1]))
  }

  // ---- projected states and the Pareto frontier ----

  /** The tree of choices that led to a state; nil is Go's nil pointer. */
  datatype Witness = Nil | Choice(model: string, left: Witness, right: Witness)

  function WitnessModels(w: Witness): ModelSet {
    match w
    case Nil => {}
    case Choice(m, l, r) => (if m != "" then {m} else {}) + WitnessModels(l) + WitnessModels(r)
  }

  datatype State = State(mask: ModelSet, origin: Witness)

  predicate Covered(states: seq<State>, mask: ModelSet) {
    exists i :: 0 <= i < |states| && mask <= states[i].mask
  }

  /** The states whose masks are not inside `mask`, in order. */
  function Undominated(states: seq<State>, mask: ModelSet): (r: seq<State>)
    ensures |r| <= |states|
  {
    if states == [] then []
    else
      var rest := Undominated(states[..|states| - 1], mask);
      if states[|states| - 1].mask <= mask then rest else rest + [states[|states| - 1]]
  }

  function Add(states: seq<State>, candidate: State): seq<State> {
    if Covered(states, candidate.mask) then states
    else Undominated(states, candidate.mask) + [candidate]
  }

  function AddAll(states: seq<State>, more: seq<State>): seq<State> {
    if more == [] then states
    else Add(AddAll(states, more[..|more| - 1]), more[|more| - 1])
  }

  function Join(left: State, right: State): State {
    State(left.mask + right.mask, Choice("", left.origin, right.origin))
  }

  function JoinEach(left: State, rights: seq<State>): (r: seq<State>)
    ensures |r| == |rights|
  {
    seq(|rights|, i requires 0 <= i < |rights| => Join(left, rights[i]))
  }

  function Combine(lefts: seq<State>, rights: seq<State>): seq<State> {
    if lefts == [] then []
    else AddAll(Combine(lefts[..|lefts| - 1], rights), JoinEach(lefts[|lefts| - 1], rights))
  }

  /** The states evaluate returns for an unfolded expression, in order. */
  function Frontier(n: Node, relevant: ModelSet): seq<State> {
    match n
    case Leaf(m) => [State({m} * relevant, Choice(m, Nil, Nil))]
    case Ref(_) => []
    case And(children) => AndFrontier(children, relevant)
    case Or(children) => OrFrontier(children, relevant)
  }

  function OrFrontier(children: seq<Node>, relevant: ModelSet): seq<State> {
    if children == [] then []
    else AddAll(OrFrontier(children[..|children| - 1], relevant), Frontier(children[|children| - 1], relevant))
  }

  function AndFrontier(children: seq<Node>, relevant: ModelSet): seq<State> {
    if children == [] then [State({}, Nil)]
    else Combine(AndFrontier(children[..|children| - 1], relevant), Frontier(children[|children| - 1], relevant))
  }

  // ---- exactness of the frontier ----

  /** The state stands for the allowed set s: its mask is what s says about the relevant
      models, and its witness names the members of s (an empty name leaves no trace in a witness). */
  predicate Stands(state: State, s: ModelSet, relevant: ModelSet) {
    state.mask == s * relevant && WitnessModels(state.origin) == s - {""}
  }

  predicate IsReal(state: State, fam: Family, relevant: ModelSet) {
    exists s :: s in fam && Stands(state, s, relevant)
  }

  ghost predicate AllReal(states: seq<State>, fam: Family, relevant: ModelSet) {
    forall i :: 0 <= i < |states| ==> IsReal(states[i], fam, relevant)
  }

  ghost predicate Antichain(states: seq<State>) {
    forall i, j :: 0 <= i < |states| && 0 <= j < |states| && i != j ==> !(states[i].mask <= states[j].mask)
  }

  ghost predicate CoversFamily(states: seq<State>, fam: Family, relevant: ModelSet) {
    forall s :: s in fam ==> Covered(states, s * relevant)
  }

  ghost predicate Exact(states: seq<State>, fam: Family, relevant: ModelSet) {
    && AllReal(states, fam, relevant)
    && Antichain(states)
    && CoversFamily(states, fam, relevant)
  }

  lemma {:induction false} UndominatedKeeps(states: seq<State>, mask: ModelSet)
    ensures forall s :: s in Undominated(states, mask) <==> s in states && !(s.mask <= mask)
  {
    if states != [] {
      UndominatedKeeps(states[..|states| - 1], mask);
    }
  }

  lemma {:induction false} UndominatedAntichain(states: seq<State>, mask: ModelSet)
    requires Antichain(states)
    ensures Antichain(Undominated(states, mask))
  {
    if states != [] {
      var front, last := states[..|states| - 1], states[|states| - 1];
      UndominatedAntichain(front, mask);
      UndominatedKeeps(front, mask);
    }
  }

  lemma AddKeepsAntichain(states: seq<State>, candidate: State)
    requires Antichain(states)
    ensures Antichain(Add(states, candidate))
  {
    UndominatedKeeps(states, candidate.mask);
    UndominatedAntichain(states, candidate.mask);
  }

  /** Nothing that was covered before is lost, and the candidate is covered. */
  lemma AddCovers(states: seq<State>, candidate: State, mask: ModelSet)
    ensures Covered(Add(states, candidate), mask) <==> Covered(states, mask) || mask <= candidate.mask
  {
    UndominatedKeeps(states, candidate.mask);
    var r := Add(states, candidate);
    if Covered(states, mask) && r != states {
      var i :| 0 <= i < |states| && mask <= states[i].mask;
      if states[i].mask <= candidate.mask {
        assert r[|r| - 1] == candidate;
      } else {
        assert states[i] in r;
      }
    }
    if mask <= candidate.mask && r != states {
      assert r[|r| - 1] == candidate;
    }
  }

  lemma AddMembers(states: seq<State>, candidate: State)
    ensures forall s :: s in Add(states, candidate) ==> s in states || s == candidate
  {
    UndominatedKeeps(states, candidate.mask);
  }

  /** AddAll keeps an antichain, adds only the given states, and covers exactly what either side covered. */
  lemma {:induction false} AddAllMerges(states: seq<State>, more: seq<State>)
    requires Antichain(states)
    ensures Antichain(AddAll(states, more))
    ensures forall s :: s in AddAll(states, more) ==> s in states || s in more
    ensures forall mask :: Covered(AddAll(states, more), mask) <==> Covered(states, mask) || Covered(more, mask)
  {
    if more != [] {
      var front, last := more[..|more| - 1], more[|more| - 1];
      AddAllMerges(states, front);
      var before := AddAll(states, front);
      AddKeepsAntichain(before, last);
      AddMembers(before, last);
      forall mask
        ensures Covered(AddAll(states, more), mask) <==> Covered(states, mask) || Covered(more, mask)
      {
        AddCovers(before, last, mask);
        CoveredSplit(more, mask);
      }
    }
  }

  lemma CoveredSplit(states: seq<State>, mask: ModelSet)
    requires states != []
    ensures Covered(states, mask)
       <==> Covered(states[..|states| - 1], mask) || mask <= states[|states| - 1].mask
  {
    if Covered(states, mask) {
      var i :| 0 <= i < |states| && mask <= states[i].mask;
      if i < |states| - 1 {
        assert states[..|states| - 1][i] == states[i];
      }
    }
    if Covered(states[..|states| - 1], mask) {
      var i :| 0 <= i < |states| - 1 && mask <= states[..|states| - 1][i].mask;
      assert states[i] == states[..|states| - 1][i];
    }
  }

  /** Combine covers a mask exactly when some pair of states covers it together. */
  lemma {:induction false} CombineMerges(lefts: seq<State>, rights: seq<State>)
    ensures Antichain(Combine(lefts, rights))
    ensures forall s :: s in Combine(lefts, rights) ==>
              exists l, r :: l in lefts && r in rights && s == Join(l, r)
    ensures forall l, r :: l in lefts && r in rights ==> Covered(Combine(lefts, rights), Join(l, r).mask)
  {
    if lefts != [] {
      var front, last := lefts[..|lefts| - 1], lefts[|lefts| - 1];
      CombineMerges(front, rights);
      var joined := JoinEach(last, rights);
      AddAllMerges(Combine(front, rights), joined);
      forall s | s in Combine(lefts, rights)
        ensures exists l, r :: l in lefts && r in rights && s == Join(l, r)
      {
        if s in joined {
          var i :| 0 <= i < |joined| && joined[i] == s;
          assert last in lefts && rights[i] in rights && s == Join(last, rights[i]);
        } else {
          var l, r :| l in front && r in rights && s == Join(l, r);
          assert l in lefts;
        }
      }
      forall l, r | l in lefts && r in rights
        ensures Covered(Combine(lefts, rights), Join(l, r).mask)
      {
        if l == last {
          var i :| 0 <= i < |rights| && rights[i] == r;
          assert joined[i] == Join(l, r);
          assert Covered(joined, Join(l, r).mask);
        }
      }
    }
  }

  lemma CombineIsExact(lefts: seq<State>, rights: seq<State>, lf: Family, rf: Family, relevant: ModelSet)
    requires Exact(lefts, lf, relevant) && Exact(rights, rf, relevant)
    ensures Exact(Combine(lefts, rights), PairwiseUnions(lf, rf), relevant)
  {
    CombineMerges(lefts, rights);
    CombineIsReal(lefts, rights, lf, rf, relevant);
    CombineCovers(lefts, rights, lf, rf, relevant);
  }

  lemma CombineIsReal(lefts: seq<State>, rights: seq<State>, lf: Family, rf: Family, relevant: ModelSet)
    requires AllReal(lefts, lf, relevant) && AllReal(rights, rf, relevant)
    ensures AllReal(Combine(lefts, rights), PairwiseUnions(lf, rf), relevant)
  {
    CombineMerges(lefts, rights);
    var states := Combine(lefts, rights);
    forall i | 0 <= i < |states|
      ensures IsReal(states[i], PairwiseUnions(lf, rf), relevant)
    {
      assert states[i] in states;
      var l, r :| l in lefts && r in rights && states[i] == Join(l, r);
      JoinIsReal(l, r, lf, rf, relevant);
    }
  }

  lemma JoinIsReal(l: State, r: State, lf: Family, rf: Family, relevant: ModelSet)
    requires IsReal(l, lf, relevant) && IsReal(r, rf, relevant)
    ensures IsReal(Join(l, r), PairwiseUnions(lf, rf), relevant)
  {
    var a :| a in lf && Stands(l, a, relevant);
    var b :| b in rf && Stands(r, b, relevant);
    assert a + b in PairwiseUnions(lf, rf) && Stands(Join(l, r), a + b, relevant);
  }

  lemma CombineCovers(lefts: seq<State>, rights: seq<State>, lf: Family, rf: Family, relevant: ModelSet)
    requires CoversFamily(lefts, lf, relevant) && CoversFamily(rights, rf, relevant)
    ensures CoversFamily(Combine(lefts, rights), PairwiseUnions(lf, rf), relevant)
  {
    CombineMerges(lefts, rights);
    var states := Combine(lefts, rights);
    forall s | s in PairwiseUnions(lf, rf)
      ensures Covered(states, s * relevant)
    {
      var a, b :| a in lf && b in rf && s == a + b;
      assert Covered(lefts, a * relevant) && Covered(rights, b * relevant);
      var i :| 0 <= i < |lefts| && a * relevant <= lefts[i].mask;
      var j :| 0 <= j < |rights| && b * relevant <= rights[j].mask;
      var both := Join(lefts[i], rights[j]);
      assert lefts[i] in lefts && rights[j] in rights;
      var k :| 0 <= k < |states| && both.mask <= states[k].mask;
      assert s * relevant <= both.mask;
    }
  }

  /** The pruned evaluation is exact: it lists the real, mutually incomparable states that
      cover the whole family of the unfolded expression. */
  lemma {:induction false} FrontierIsExact(n: Node, relevant: ModelSet)
    ensures Exact(Frontier(n, relevant), FamilyOf(n), relevant)
  {
    match n
    case Leaf(m) => assert Stands(Frontier(n, relevant)[0], {m}, relevant);
    case Ref(_) =>
    case And(children) => AndFrontierIsExact(children, relevant);
    case Or(children) => OrFrontierIsExact(children, relevant);
  }

  lemma {:induction false} OrFrontierIsExact(children: seq<Node>, relevant: ModelSet)
    ensures Exact(OrFrontier(children, relevant), AnyFamily(children), relevant)
  {
    if children != [] {
      var front, last := children[..|children| - 1], children[|children| - 1];
      OrFrontierIsExact(front, relevant);
      FrontierIsExact(last, relevant);
      var fs, ls := OrFrontier(front, relevant), Frontier(last, relevant);
      AddAllMerges(fs, ls);
      var states := AddAll(fs, ls);
      forall i | 0 <= i < |states|
        ensures IsReal(states[i], AnyFamily(children), relevant)
      {
        if states[i] in fs {
          var j :| 0 <= j < |fs| && fs[j] == states[i];
          assert IsReal(fs[j], AnyFamily(front), relevant);
        } else {
          var j :| 0 <= j < |ls| && ls[j] == states[i];
          assert IsReal(ls[j], FamilyOf(last), relevant);
        }
      }
    }
  }

  lemma {:induction false} AndFrontierIsExact(children: seq<Node>, relevant: ModelSet)
    ensures Exact(AndFrontier(children, relevant), AllUnions(children), relevant)
  {
    if children == [] {
      assert Stands(AndFrontier(children, relevant)[0], {}, relevant);
    } else {
      var front, last := children[..|children| - 1], children[|children| - 1];
      AndFrontierIsExact(front, relevant);
      FrontierIsExact(last, relevant);
      CombineIsExact(AndFrontier(front, relevant), Frontier(last, relevant), AllUnions(front), FamilyOf(last),
          relevant);
    }
  }

  /** The projection of an allowed set that no other projection properly contains. */
  ghost predicate IsMaximal(mask: ModelSet, fam: Family, relevant: ModelSet) {
    && (exists s :: s in fam && mask == s * relevant)
    && (forall s :: s in fam && mask <= s * relevant ==> mask == s * relevant)
  }

  /** Read off an exact frontier: its masks are the maximal projections, once each. */
  lemma FrontierIsMaximalProjections(n: Node, relevant: ModelSet)
    ensures forall mask :: IsMaximal(mask, FamilyOf(n), relevant) <==> HasMask(Frontier(n, relevant), mask)
    ensures forall i, j :: 0 <= i < j < |Frontier(n, relevant)|
              ==> Frontier(n, relevant)[i].mask != Frontier(n, relevant)[j].mask
  {
    FrontierIsExact(n, relevant);
    var states, fam := Frontier(n, relevant), FamilyOf(n);
    forall i | 0 <= i < |states|
      ensures IsMaximal(states[i].mask, fam, relevant)
    {
      assert IsReal(states[i], fam, relevant);
      forall s | s in fam && states[i].mask <= s * relevant
        ensures states[i].mask == s * relevant
      {
        assert Covered(states, s * relevant);
      }
    }
    forall mask | IsMaximal(mask, fam, relevant)
      ensures HasMask(states, mask)
    {
      var s :| s in fam && mask == s * relevant;
      assert Covered(states, s * relevant);
      var i :| 0 <= i < |states| && mask <= states[i].mask;
      assert IsReal(states[i], fam, relevant);
    }
  }

  predicate HasMask(states: seq<State>, mask: ModelSet) {
    exists i :: 0 <= i < |states| && states[i].mask == mask
  }

  // ---- support ----

  /** Every model an unfolded expression mentions. */
  function Mentioned(n: Node): ModelSet {
    match n
    case Leaf(m) => {m}
    case Ref(_) => {}
    case And(children) => MentionedIn(children)
    case Or(children) => MentionedIn(children)
  }

  function MentionedIn(children: seq<Node>): ModelSet {
    if children == [] then {}
    else MentionedIn(children[..|children| - 1]) + Mentioned(children[|children| - 1])
  }

  /** No allowed set goes outside what the expression mentions. */
  lemma {:induction false} FamilyWithinMentioned(n: Node, s: ModelSet)
    requires s in FamilyOf(n)
    ensures s <= Mentioned(n)
  {
    match n
    case Leaf(_) =>
    case Ref(_) =>
    case And(children) => AllUnionsWithinMentioned(children, s);
    case Or(children) => AnyFamilyWithinMentioned(children, s);
  }

  lemma {:induction false} AnyFamilyWithinMentioned(children: seq<Node>, s: ModelSet)
    requires s in AnyFamily(children)
    ensures s <= MentionedIn(children)
  {
    var front, last := children[..|children| - 1], children[|children| - 1];
    if s in FamilyOf(last) {
      FamilyWithinMentioned(last, s);
    } else {
      AnyFamilyWithinMentioned(front, s);
    }
  }

  lemma {:induction false} AllUnionsWithinMentioned(children: seq<Node>, s: ModelSet)
    requires s in AllUnions(children)
    ensures s <= MentionedIn(children)
  {
    if children != [] {
      var front, last := children[..|children| - 1], children[|children| - 1];
      var a, b :| a in AllUnions(front) && b in FamilyOf(last) && s == a + b;
      AllUnionsWithinMentioned(front, a);
      FamilyWithinMentioned(last, b);
    }
  }

  /** No reference is left, and every operator has an operand. */
  predicate Inhabited(n: Node) {
    match n
    case Leaf(_) => true
    case Ref(_) => false
    case And(children) => children != [] && forall i :: 0 <= i < |children| ==> Inhabited(children[i])
    case Or(children) => children != [] && forall i :: 0 <= i < |children| ==> Inhabited(children[i])
  }

  /** Such an expression allows some set, and uses every model it mentions. */
  lemma {:induction false} MentionedIsUsed(n: Node, model: string)
    requires Inhabited(n)
    ensures FamilyOf(n) != {} && (model in Mentioned(n) ==> exists s :: s in FamilyOf(n) && model in s)
  {
    match n
    case Leaf(m) => assert {m} in FamilyOf(n);
    case And(children) => UnionsUse(children, model);
    case Or(children) => AnyUses(children, model);
  }

  lemma {:induction false} AnyUses(children: seq<Node>, model: string)
    requires forall i :: 0 <= i < |children| ==> Inhabited(children[i])
    ensures children != [] ==> AnyFamily(children) != {}
    ensures model in MentionedIn(children) ==> exists s :: s in AnyFamily(children) && model in s
  {
    if children != [] {
      AnyUses(children[..|children| - 1], model);
      MentionedIsUsed(children[|children| - 1], model);
    }
  }

  lemma {:induction false} UnionsUse(children: seq<Node>, model: string)
    requires forall i :: 0 <= i < |children| ==> Inhabited(children[i])
    ensures AllUnions(children) != {}
    ensures model in MentionedIn(children) ==> exists s :: s in AllUnions(children) && model in s
  {
    if children != [] {
      var front, last := children[..|children| - 1], children[|children| - 1];
      UnionsUse(front, model);
      MentionedIsUsed(last, model);
      var a, b :| a in AllUnions(front) && b in FamilyOf(last);
      assert a + b in AllUnions(children);
      if model in MentionedIn(front) {
        var s :| s in AllUnions(front) && model in s;
        assert s + b in AllUnions(children);
      } else if model in Mentioned(last) {
        var s :| s in FamilyOf(last) && model in s;
        assert a + s in AllUnions(children);
      }
    }
  }
}
