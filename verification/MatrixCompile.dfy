/**
  Compile (internal/matrix/program.go): parse, resolve, order, link, and compute the supports.
 */
module MatrixCompile {
  import opened MatrixSpec
  import opened MatrixEvaluator
  import opened MatrixProgram
  import opened MatrixMeaning
  import Dsl
  import Topo = TopologicalOrder
  import B = BitMask
  import opened Basics

  datatype Definition = Definition(name: string, dsl: string)

  datatype CompileError =
    | NoSets
    | BadSyntax(setName: string)
    | UnknownModel(setName: string, ident: string)
    | UndefinedSet(setName: string, reference: string)
    | CircularReference

  // ---- resolving one definition ----

  /** The first problem of an expression in the order of the walk. */
  function Problem(n: Node, setName: string, names: set<string>, resolve: Resolver): Option<CompileError> {
    match n
    case Leaf(ident) => if resolve(ident).None? then Some(UnknownModel(setName, ident)) else None
    case Ref(name) => if name !in names then Some(UndefinedSet(setName, name)) else None
    case And(children) => ProblemIn(children, setName, names, resolve)
    case Or(children) => ProblemIn(children, setName, names, resolve)
  }

  function ProblemIn(children: seq<Node>, setName: string, names: set<string>,
                     resolve: Resolver): Option<CompileError> {
    if children == [] then None
    else
      var before := ProblemIn(children[..|children| - 1], setName, names, resolve);
      if before.Some? then before else Problem(children[|children| - 1], setName, names, resolve)
  }

  /** The expression with every identifier replaced by the model it resolves to. */
  function Renamed(n: Node, resolve: Resolver): Node {
    match n
    case Leaf(ident) => Leaf(match resolve(ident) case Some(model) => model case None => ident)
    case Ref(_) => n
    case And(children) => And(RenamedAll(children, resolve))
    case Or(children) => Or(RenamedAll(children, resolve))
  }

  function RenamedAll(children: seq<Node>, resolve: Resolver): (r: seq<Node>)
    ensures |r| == |children|
    ensures forall i :: 0 <= i < |children| ==> r[i] == Renamed(children[i], resolve)
  {
    if children == [] then []
    else RenamedAll(children[..|children| - 1], resolve) + [Renamed(children[|children| - 1], resolve)]
  }

  /** The references collected so far, extended by those of n, each at its first appearance. */
  function AddRefs(refs: seq<string>, n: Node): seq<string>
    decreases n, 0
  {
    match n
    case Leaf(_) => refs
    case Ref(name) => if name in refs then refs else refs + [name]
    case And(children) => AddRefsIn(refs, children)
    case Or(children) => AddRefsIn(refs, children)
  }

  function AddRefsIn(refs: seq<string>, children: seq<Node>): seq<string>
    decreases children, 0
  {
    if children == [] then refs
    else AddRefs(AddRefsIn(refs, children[..|children| - 1]), children[|children| - 1])
  }

  /** The walk of one definition: renames the leaves and collects the references, up to the first problem. */
  method Walk(root: Node, setName: string, names: set<string>, resolve: Resolver, refs: seq<string>)
    returns (problem: Option<CompileError>, root': Node, refs': seq<string>)
    ensures problem == Problem(root, setName, names, resolve)
    ensures problem.None? ==> root' == Renamed(root, resolve) && refs' == AddRefs(refs, root)
    decreases root, 1
  {
    problem, root', refs' := None, root, refs;
    match root {
      case Leaf(ident) =>
        var model := resolve(ident);
        if model.None? {
          problem := Some(UnknownModel(setName, ident));
          return;
        }
        root' := Leaf(model.value);
      case Ref(name) =>
        if name !in names {
          problem := Some(UndefinedSet(setName, name));
          return;
        }
        if name !in refs {
          refs' := refs + [name];
        }
      case And(children) =>
        var children';
        problem, children', refs' := WalkAll(children, setName, names, resolve, refs);
        root' := And(children');
      case Or(children) =>
        var children';
        problem, children', refs' := WalkAll(children, setName, names, resolve, refs);
        root' := Or(children');
    }
  }

  method WalkAll(children: seq<Node>, setName: string, names: set<string>, resolve: Resolver, refs: seq<string>)
    returns (problem: Option<CompileError>, children': seq<Node>, refs': seq<string>)
    ensures problem == ProblemIn(children, setName, names, resolve)
    ensures problem.None? ==> children' == RenamedAll(children, resolve) && refs' == AddRefsIn(refs, children)
    decreases children, 0
  {
    problem, children', refs' := None, [], refs;
    for i := 0 to |children|
      invariant problem == None == ProblemIn(children[..i], setName, names, resolve)
      invariant children' == RenamedAll(children[..i], resolve)
      invariant refs' == AddRefsIn(refs, children[..i])
    {
      var child;
      assert children[..i + 1][..i] == children[..i];
      problem, child, refs' := Walk(children[i], setName, names, resolve, refs');
      if problem.Some? {
        ProblemStays(children, i, setName, names, resolve);
        return;
      }
      children' := children' + [child];
    }
    assert children[..|children|] == children;
  }

  lemma {:induction false} ProblemStays(children: seq<Node>, i: nat, setName: string, names: set<string>,
                                        resolve: Resolver)
    requires i < |children| && ProblemIn(children[..i], setName, names, resolve) == None
    requires Problem(children[i], setName, names, resolve).Some?
    ensures ProblemIn(children, setName, names, resolve) == Problem(children[i], setName, names, resolve)
    decreases |children|
  {
    var front := children[..|children| - 1];
    if i < |children| - 1 {
      assert front[..i] == children[..i] && front[i] == children[i];
      ProblemStays(front, i, setName, names, resolve);
    } else {
      assert front == children[..i];
    }
  }

  /** Every reference the expression makes is among the collected ones. */
  predicate RefsWithin(n: Node, refs: seq<string>) {
    match n
    case Leaf(_) => true
    case Ref(name) => name in refs
    case And(children) => forall c <- children :: RefsWithin(c, refs)
    case Or(children) => forall c <- children :: RefsWithin(c, refs)
  }

  lemma {:induction false} RefsWithinMore(n: Node, refs: seq<string>, more: seq<string>)
    requires RefsWithin(n, refs) && forall r <- refs :: r in more
    ensures RefsWithin(n, more)
  {
    match n
    case Leaf(_) =>
    case Ref(_) =>
    case And(children) => forall c | c in children ensures RefsWithin(c, more) { RefsWithinMore(c, refs, more); }
    case Or(children) => forall c | c in children ensures RefsWithin(c, more) { RefsWithinMore(c, refs, more); }
  }

  lemma {:induction false} AddRefsCollects(refs: seq<string>, n: Node)
    ensures refs <= AddRefs(refs, n) && RefsWithin(n, AddRefs(refs, n))
    decreases n, 0
  {
    match n
    case Leaf(_) =>
    case Ref(_) =>
    case And(children) => AddRefsInCollects(refs, children);
    case Or(children) => AddRefsInCollects(refs, children);
  }

  lemma {:induction false} AddRefsInCollects(refs: seq<string>, children: seq<Node>)
    ensures refs <= AddRefsIn(refs, children) && forall c <- children :: RefsWithin(c, AddRefsIn(refs, children))
    decreases children, 0
  {
    if children != [] {
      var front, last := children[..|children| - 1], children[|children| - 1];
      AddRefsInCollects(refs, front);
      AddRefsCollects(AddRefsIn(refs, front), last);
      forall c | c in front
        ensures RefsWithin(c, AddRefsIn(refs, children))
      {
        RefsWithinMore(c, AddRefsIn(refs, front), AddRefsIn(refs, children));
      }
    }
  }

  /** An expression without problems references defined sets only. */
  lemma {:induction false} RefsAreDefined(refs: seq<string>, n: Node, setName: string, names: set<string>,
                                          resolve: Resolver)
    requires Problem(n, setName, names, resolve) == None && forall r <- refs :: r in names
    ensures forall r <- AddRefs(refs, n) :: r in names
    decreases n, 0
  {
    match n
    case Leaf(_) =>
    case Ref(_) =>
    case And(children) => RefsInAreDefined(refs, children, setName, names, resolve);
    case Or(children) => RefsInAreDefined(refs, children, setName, names, resolve);
  }

  lemma {:induction false} RefsInAreDefined(refs: seq<string>, children: seq<Node>, setName: string,
                                            names: set<string>, resolve: Resolver)
    requires ProblemIn(children, setName, names, resolve) == None && forall r <- refs :: r in names
    ensures forall r <- AddRefsIn(refs, children) :: r in names
    decreases children, 0
  {
    if children != [] {
      RefsInAreDefined(refs, children[..|children| - 1], setName, names, resolve);
      RefsAreDefined(AddRefsIn(refs, children[..|children| - 1]), children[|children| - 1], setName, names, resolve);
    }
  }

  lemma {:induction false} RenamedKeepsRefs(n: Node, resolve: Resolver, refs: seq<string>)
    requires RefsWithin(n, refs)
    ensures RefsWithin(Renamed(n, resolve), refs)
  {
    match n
    case Leaf(_) =>
    case Ref(_) =>
    case And(children) =>
      forall i | 0 <= i < |children| ensures RefsWithin(Renamed(children[i], resolve), refs) {
        RenamedKeepsRefs(children[i], resolve, refs);
      }
    case Or(children) =>
      forall i | 0 <= i < |children| ensures RefsWithin(Renamed(children[i], resolve), refs) {
        RenamedKeepsRefs(children[i], resolve, refs);
      }
  }

  /** References to the names of the first k sets are linked. */
  lemma {:induction false} RefsWithinAreBelow(n: Node, sets: seq<NamedSet>, k: nat, refs: seq<string>)
    requires k <= |sets| && RefsWithin(n, refs)
    requires forall r <- refs :: exists j :: 0 <= j < k && sets[j].name == r
    ensures RefsBelow(n, sets, k)
  {
    match n
    case Leaf(_) =>
    case Ref(_) =>
    case And(children) =>
      forall c | c in children ensures RefsBelow(c, sets, k) { RefsWithinAreBelow(c, sets, k, refs); }
    case Or(children) =>
      forall c | c in children ensures RefsBelow(c, sets, k) { RefsWithinAreBelow(c, sets, k, refs); }
  }

  // ---- the walk, leaf by leaf ----

  /** The leaves and references of an expression, from left to right. */
  function Atoms(n: Node): seq<Node>
    decreases n, 0
  {
    match n
    case Leaf(_) => [n]
    case Ref(_) => [n]
    case And(children) => AtomsIn(children)
    case Or(children) => AtomsIn(children)
  }

  function AtomsIn(children: seq<Node>): seq<Node>
    decreases children, 0
  {
    if children == [] then [] else AtomsIn(children[..|children| - 1]) + Atoms(children[|children| - 1])
  }

  /** What is wrong with one atom: its identifier is unknown, or its set is not defined. */
  predicate IsWrong(atom: Node, error: CompileError, setName: string, names: set<string>, resolve: Resolver) {
    || (atom.Leaf? && resolve(atom.name).None? && error == UnknownModel(setName, atom.name))
    || (atom.Ref? && atom.name !in names && error == UndefinedSet(setName, atom.name))
  }

  ghost predicate NoneWrong(atoms: seq<Node>, setName: string, names: set<string>, resolve: Resolver) {
    forall i, error :: 0 <= i < |atoms| ==> !IsWrong(atoms[i], error, setName, names, resolve)
  }

  ghost predicate FirstWrong(atoms: seq<Node>, i: nat, error: CompileError, setName: string, names: set<string>,
                             resolve: Resolver) {
    && i < |atoms| && IsWrong(atoms[i], error, setName, names, resolve)
    && NoneWrong(atoms[..i], setName, names, resolve)
  }

  /** The walk stops at the first atom with something wrong, and only there. */
  ghost predicate StopsAtFirst(atoms: seq<Node>, problem: Option<CompileError>, setName: string, names: set<string>,
                               resolve: Resolver) {
    match problem
    case None => NoneWrong(atoms, setName, names, resolve)
    case Some(error) => exists i: nat :: FirstWrong(atoms, i, error, setName, names, resolve)
  }

  lemma {:induction false} ProblemIsFirst(n: Node, setName: string, names: set<string>, resolve: Resolver)
    ensures StopsAtFirst(Atoms(n), Problem(n, setName, names, resolve), setName, names, resolve)
    decreases n, 0
  {
    match n {
      case Leaf(ident) =>
        if resolve(ident).None? {
          assert FirstWrong([n], 0, UnknownModel(setName, ident), setName, names, resolve);
        }
      case Ref(name) =>
        if name !in names {
          assert FirstWrong([n], 0, UndefinedSet(setName, name), setName, names, resolve);
        }
      case And(children) => ProblemInIsFirst(children, setName, names, resolve);
      case Or(children) => ProblemInIsFirst(children, setName, names, resolve);
    }
  }

  lemma {:induction false} ProblemInIsFirst(children: seq<Node>, setName: string, names: set<string>,
                                            resolve: Resolver)
    ensures StopsAtFirst(AtomsIn(children), ProblemIn(children, setName, names, resolve), setName, names, resolve)
    decreases children, 0
  {
    if children != [] {
      var front, last := children[..|children| - 1], children[|children| - 1];
      ProblemInIsFirst(front, setName, names, resolve);
      ProblemIsFirst(last, setName, names, resolve);
      FirstOfBoth(AtomsIn(front), Atoms(last), ProblemIn(front, setName, names, resolve),
                  Problem(last, setName, names, resolve), setName, names, resolve);
    }
  }

  lemma FirstOfBoth(left: seq<Node>, right: seq<Node>, p: Option<CompileError>, q: Option<CompileError>,
                    setName: string, names: set<string>, resolve: Resolver)
    requires StopsAtFirst(left, p, setName, names, resolve) && StopsAtFirst(right, q, setName, names, resolve)
    ensures StopsAtFirst(left + right, if p.Some? then p else q, setName, names, resolve)
  {
    hide IsWrong;
    if p.Some? {
      var i: nat :| FirstWrong(left, i, p.value, setName, names, resolve);
      assert (left + right)[..i] == left[..i];
      assert FirstWrong(left + right, i, p.value, setName, names, resolve);
    } else if q.Some? {
      var i: nat :| FirstWrong(right, i, q.value, setName, names, resolve);
      assert (left + right)[..|left| + i] == left + right[..i];
      assert FirstWrong(left + right, |left| + i, q.value, setName, names, resolve);
    }
  }

  ghost predicate NoRepeats(refs: seq<string>) {
    forall i, j :: 0 <= i < j < |refs| ==> refs[i] != refs[j]
  }

  /** The references collected are exactly those that occur, each once. */
  lemma {:induction false} RefsAreAtoms(refs: seq<string>, n: Node)
    requires NoRepeats(refs)
    ensures NoRepeats(AddRefs(refs, n))
    ensures forall r :: r in AddRefs(refs, n) <==> r in refs || Ref(r) in Atoms(n)
    decreases n, 0
  {
    match n
    case Leaf(_) =>
    case Ref(_) =>
    case And(children) => RefsInAreAtoms(refs, children);
    case Or(children) => RefsInAreAtoms(refs, children);
  }

  lemma {:induction false} RefsInAreAtoms(refs: seq<string>, children: seq<Node>)
    requires NoRepeats(refs)
    ensures NoRepeats(AddRefsIn(refs, children))
    ensures forall r :: r in AddRefsIn(refs, children) <==> r in refs || Ref(r) in AtomsIn(children)
    decreases children, 0
  {
    if children != [] {
      var front, last := children[..|children| - 1], children[|children| - 1];
      RefsInAreAtoms(refs, front);
      RefsAreAtoms(AddRefsIn(refs, front), last);
    }
  }

  // ---- supports ----

  /** The closure `collect` of computeSupport, with its memo. */
  class Collector {
    const sets: seq<NamedSet>
    var memo: map<Node, ModelSet>

    constructor (sets: seq<NamedSet>)
      requires Linked(sets)
      ensures Valid() && this.sets == sets
    {
      this.sets := sets;
      memo := map[];
    }

    ghost function MentionedBy(n: Node): ModelSet {
      Mentioned(Expand(n, sets, |sets|))
    }

    ghost predicate Valid()
      reads this
    {
      Linked(sets) && forall n <- memo :: memo[n] == MentionedBy(n)
    }

    method Collect(n: Node, ghost k: nat) returns (models: ModelSet)
      requires Valid() && k <= |sets| && RefsBelow(n, sets, k)
      modifies this`memo
      ensures Valid() && models == MentionedBy(n)
      decreases k, n, 1
    {
      hide Mentioned, Linked;
      if n in memo {
        return memo[n];
      }
      match n {
        case Leaf(name) =>
          models := {name};
          MentionedLeaf(name);
        case Ref(name) =>
          RefMentions(name, k);
          var i := Find(sets, name, |sets|);
          models := Collect(sets[i].root, i);
        case And(children) =>
          models := CollectAll(children, k);
          MentionedChildren(children);
        case Or(children) =>
          models := CollectAll(children, k);
          MentionedChildren(children);
      }
      memo := memo[n := models];
    }

    method CollectAll(children: seq<Node>, ghost k: nat) returns (models: ModelSet)
      requires Valid() && k <= |sets| && forall c <- children :: RefsBelow(c, sets, k)
      modifies this`memo
      ensures Valid() && models == MentionedIn(ExpandAll(children, sets, |sets|))
      decreases k, children, 0
    {
      hide Mentioned, Linked;
      models := {};
      ghost var parts := ExpandAll(children, sets, |sets|);
      for i := 0 to |children|
        invariant Valid() && models == MentionedIn(parts[..i])
      {
        var more := Collect(children[i], k);
        models := models + more;
        assert parts[..i + 1][..i] == parts[..i];
      }
      assert parts[..|children|] == parts;
    }

    lemma MentionedLeaf(name: string)
      ensures MentionedBy(Leaf(name)) == {name}
    {
    }

    lemma MentionedChildren(children: seq<Node>)
      ensures MentionedBy(And(children)) == MentionedIn(ExpandAll(children, sets, |sets|)) == MentionedBy(Or(children))
    {
    }

    lemma RefMentions(name: string, k: nat)
      requires k <= |sets| && RefsBelow(Ref(name), sets, k) && Linked(sets)
      ensures Find(sets, name, |sets|) == Find(sets, name, k) < k
      ensures RefsBelow(sets[Find(sets, name, k)].root, sets, Find(sets, name, k))
      ensures MentionedBy(Ref(name)) == MentionedBy(sets[Find(sets, name, k)].root)
    {
      FindIsStable(sets, name, k, |sets|);
      var i := Find(sets, name, k);
      ExpandIsStable(sets[i].root, sets, i, |sets|);
    }
  }

  /** Registers models not seen before, in Go's unspecified map iteration order. */
  method Register(bits: ModelBits, models: ModelSet) returns (bits': ModelBits)
    requires IsIndex(bits)
    ensures IsIndex(bits') && bits'.Keys == bits.Keys + models
  {
    hide IsIndex;
    bits' := bits;
    var todo := models;
    while todo != {}
      invariant todo <= models && IsIndex(bits') && bits'.Keys == bits.Keys + (models - todo)
    {
      var model :| model in todo;
      todo := todo - {model};
      bits' := RegisterOne(bits', model);
    }
  }

  method RegisterOne(bits: ModelBits, model: string) returns (bits': ModelBits)
    requires IsIndex(bits)
    ensures IsIndex(bits') && bits'.Keys == bits.Keys + {model}
  {
    hide IsIndex;
    bits' := bits;
    if model !in bits {
      NextBit(bits, model);
      bits' := bits[model := |bits|];
    }
  }

  /** The mask of a set of registered models, built in any order. */
  method SupportMask(bits: ModelBits, models: ModelSet) returns (support: B.Mask)
    requires IsIndex(bits) && models <= bits.Keys
    ensures Fits(support, bits) && Held(support, bits) == models
  {
    support := B.Zero(B.WordsFor(|bits|));
    var todo := models;
    while todo != {}
      invariant todo <= models && |support| == B.WordsFor(|bits|)
      invariant forall b: nat :: b in B.Bits(support) <==> exists m :: m in models - todo && bits[m] == b
    {
      hide B.Bits;
      var model :| model in todo;
      todo := todo - {model};
      FitsBit(bits, model);
      support := B.SetBit(support, bits[model]);
    }
    hide B.Bits;
    MaskOfModels(support, bits, models);
  }

  lemma MaskOfModels(support: B.Mask, bits: ModelBits, models: ModelSet)
    requires IsIndex(bits) && models <= bits.Keys && |support| == B.WordsFor(|bits|)
    requires forall b: nat :: b in B.Bits(support) <==> exists m :: m in models && bits[m] == b
    ensures Fits(support, bits) && Held(support, bits) == models
  {
    hide B.Bits;
  }

  // ---- Compile ----

  /** The definition that counts for a name: the last one of that name. */
  function LastOf(defs: seq<Definition>, name: string): (i: nat)
    requires exists d <- defs :: d.name == name
    ensures i < |defs| && defs[i].name == name
    ensures forall j :: i < j < |defs| ==> defs[j].name != name
  {
    if defs[|defs| - 1].name == name then |defs| - 1
    else
      assert forall d <- defs :: d in defs[..|defs| - 1] || d == defs[|defs| - 1];
      LastOf(defs[..|defs| - 1], name)
  }

  function NamesOf(defs: seq<Definition>): set<string> {
    set d <- defs :: d.name
  }

  /** What is wrong with one definition, if anything. */
  function DefinitionProblem(d: Definition, names: set<string>, cs: Dsl.Charset,
                             resolve: Resolver): Option<CompileError> {
    match Dsl.Parsed(cs, d.dsl)
    case Failure => Some(BadSyntax(d.name))
    case Success(root) => Problem(root, d.name, names, resolve)
  }

  /** Definitions that parse and resolve. */
  ghost predicate Sound(defs: seq<Definition>, cs: Dsl.Charset, resolve: Resolver) {
    forall d <- defs :: DefinitionProblem(d, NamesOf(defs), cs, resolve).None?
  }

  /** The parsed tree of the definition that counts for a name. */
  function RootOf(defs: seq<Definition>, name: string, cs: Dsl.Charset, resolve: Resolver): Node
    requires name in NamesOf(defs) && Sound(defs, cs, resolve)
  {
    var d := defs[LastOf(defs, name)];
    assert d in defs;
    Dsl.Parsed(cs, d.dsl).value
  }

  /** Which definitions each definition references. */
  function ReferenceGraph(defs: seq<Definition>, cs: Dsl.Charset, resolve: Resolver): Topo.Graph
    requires Sound(defs, cs, resolve)
  {
    map name | name in NamesOf(defs) :: AddRefs([], RootOf(defs, name, cs, resolve))
  }

  /** The compiled sets are the definitions, each name once, with resolved trees. */
  ghost predicate Realizes(p: Program, defs: seq<Definition>, cs: Dsl.Charset, resolve: Resolver)
    requires Sound(defs, cs, resolve)
  {
    && (forall name :: name in NamesOf(defs) <==> exists i :: 0 <= i < |p.sets| && p.sets[i].name == name)
    && forall i :: 0 <= i < |p.sets| ==>
         && p.sets[i].name in NamesOf(defs)
         && p.sets[i].dsl == defs[LastOf(defs, p.sets[i].name)].dsl
         && p.sets[i].root == Renamed(RootOf(defs, p.sets[i].name, cs, resolve), resolve)
  }

  ghost predicate IsFirstProblem(error: CompileError, defs: seq<Definition>, cs: Dsl.Charset, resolve: Resolver) {
    exists i :: 0 <= i < |defs|
      && (forall j :: 0 <= j < i ==> DefinitionProblem(defs[j], NamesOf(defs), cs, resolve).None?)
      && DefinitionProblem(defs[i], NamesOf(defs), cs, resolve) == Some(error)
  }

  datatype Outcome = Compiled(program: Program) | Rejected(error: CompileError)

  /** Compile succeeds exactly on a non-empty list of sound, acyclic definitions, and otherwise reports
      the first thing wrong. */
  ghost predicate IsOutcome(outcome: Outcome, defs: seq<Definition>, cs: Dsl.Charset, resolve: Resolver) {
    if defs == [] then outcome == Rejected(NoSets)
    else if !Sound(defs, cs, resolve) then outcome.Rejected? && IsFirstProblem(outcome.error, defs, cs, resolve)
    else if Topo.HasCycle(ReferenceGraph(defs, cs, resolve)) then outcome == Rejected(CircularReference)
    else outcome.Compiled? && outcome.program.Compiled() && Realizes(outcome.program, defs, cs, resolve)
  }

  /** The tree, text and references kept for a name are those of its last definition among the first n. */
  ghost predicate BuiltFor(defs: seq<Definition>, name: string, cs: Dsl.Charset, resolve: Resolver,
                           root: Node, dsl: string, refs: seq<string>)
    requires name in NamesOf(defs)
  {
    var d := defs[LastOf(defs, name)];
    && Dsl.Parsed(cs, d.dsl).Success?
    && root == Renamed(Dsl.Parsed(cs, d.dsl).value, resolve)
    && dsl == d.dsl
    && refs == AddRefs([], Dsl.Parsed(cs, d.dsl).value)
  }

  /** What the first loop of Compile has built after the given definitions. */
  ghost predicate Built(defs: seq<Definition>, cs: Dsl.Charset, resolve: Resolver,
                        roots: map<string, Node>, dslByName: map<string, string>, deps: Topo.Graph)
  {
    && roots.Keys == dslByName.Keys == deps.Keys == NamesOf(defs)
    && forall name <- roots :: BuiltFor(defs, name, cs, resolve, roots[name], dslByName[name], deps[name])
  }

  lemma NamesOfNext(defs: seq<Definition>, d: Definition)
    ensures NamesOf(defs + [d]) == NamesOf(defs) + {d.name}
  {
    assert forall c <- defs + [d] :: c in defs || c == d;
    assert forall c <- defs :: c in defs + [d];
    assert d in defs + [d];
  }

  lemma LastOfNext(defs: seq<Definition>, d: Definition, name: string)
    requires name in NamesOf(defs + [d])
    ensures name == d.name ==> LastOf(defs + [d], name) == |defs|
    ensures name != d.name ==> name in NamesOf(defs) && LastOf(defs + [d], name) == LastOf(defs, name)
  {
    NamesOfNext(defs, d);
    assert (defs + [d])[..|defs|] == defs;
  }

  lemma BuiltForNext(defs: seq<Definition>, d: Definition, name: string, cs: Dsl.Charset, resolve: Resolver,
                     root: Node, dsl: string, refs: seq<string>)
    requires name in NamesOf(defs + [d])
    requires name == d.name ==>
               && Dsl.Parsed(cs, d.dsl).Success? && root == Renamed(Dsl.Parsed(cs, d.dsl).value, resolve)
               && dsl == d.dsl && refs == AddRefs([], Dsl.Parsed(cs, d.dsl).value)
    requires name != d.name ==> name in NamesOf(defs) && BuiltFor(defs, name, cs, resolve, root, dsl, refs)
    ensures BuiltFor(defs + [d], name, cs, resolve, root, dsl, refs)
  {
    hide Dsl.Parsed, Renamed, AddRefs;
    LastOfNext(defs, d, name);
  }

  lemma BuiltNext(defs: seq<Definition>, d: Definition, cs: Dsl.Charset, resolve: Resolver,
                  roots: map<string, Node>, dslByName: map<string, string>, deps: Topo.Graph, root: Node)
    requires Built(defs, cs, resolve, roots, dslByName, deps)
    requires Dsl.Parsed(cs, d.dsl) == Dsl.Success(root)
    ensures Built(defs + [d], cs, resolve, roots[d.name := Renamed(root, resolve)],
                  dslByName[d.name := d.dsl], deps[d.name := AddRefs([], root)])
  {
    hide Dsl.Parsed, Renamed, AddRefs, BuiltFor;
    NamesOfNext(defs, d);
    var roots', dslByName', deps' :=
      roots[d.name := Renamed(root, resolve)], dslByName[d.name := d.dsl], deps[d.name := AddRefs([], root)];
    forall name | name in roots'
      ensures BuiltFor(defs + [d], name, cs, resolve, roots'[name], dslByName'[name], deps'[name])
    {
      BuiltForNext(defs, d, name, cs, resolve, roots'[name], dslByName'[name], deps'[name]);
    }
  }

  /** The first loop of Compile: parse and resolve every definition, in order. */
  method BuildAll(defs: seq<Definition>, cs: Dsl.Charset, resolve: Resolver)
    returns (problem: Option<CompileError>, roots: map<string, Node>, dslByName: map<string, string>, deps: Topo.Graph)
    requires cs.Valid()
    ensures problem.None? ==> Sound(defs, cs, resolve) && Built(defs, cs, resolve, roots, dslByName, deps)
    ensures problem.Some? ==> IsFirstProblem(problem.value, defs, cs, resolve)
  {
    roots, dslByName, deps := map[], map[], map[];
    var names := NamesOf(defs);
    problem := None;
    for i := 0 to |defs|
      invariant problem == None
      invariant forall j :: 0 <= j < i ==> DefinitionProblem(defs[j], names, cs, resolve).None?
      invariant Built(defs[..i], cs, resolve, roots, dslByName, deps)
    {
      hide Dsl.Parsed, Renamed, AddRefs, Built;
      var d := defs[i];
      var parsed := Dsl.ParseDsl(cs, d.dsl);
      if parsed.Failure? {
        problem := Some(BadSyntax(d.name));
        return;
      }
      var root, refs;
      problem, root, refs := Walk(parsed.value, d.name, names, resolve, []);
      if problem.Some? {
        return;
      }
      BuiltNext(defs[..i], d, cs, resolve, roots, dslByName, deps, parsed.value);
      roots, dslByName, deps := roots[d.name := root], dslByName[d.name := d.dsl], deps[d.name := refs];
      assert defs[..i + 1] == defs[..i] + [d];
    }
    assert defs[..|defs|] == defs;
  }

  /** The first loop's maps are the trees and the reference graph of the definitions. */
  lemma BuiltIsGraph(defs: seq<Definition>, cs: Dsl.Charset, resolve: Resolver,
                     roots: map<string, Node>, dslByName: map<string, string>, deps: Topo.Graph)
    requires Sound(defs, cs, resolve) && Built(defs, cs, resolve, roots, dslByName, deps)
    ensures deps == ReferenceGraph(defs, cs, resolve) && Topo.Closed(deps)
    ensures forall name <- roots :: RefsWithin(roots[name], deps[name])
    ensures forall name <- roots :: roots[name] == Renamed(RootOf(defs, name, cs, resolve), resolve)
  {
    hide Dsl.Parsed, Renamed, AddRefs, Problem, RefsWithin;
    forall name | name in roots
      ensures RefsWithin(roots[name], deps[name])
      ensures forall r <- deps[name] :: r in deps
    {
      var d := defs[LastOf(defs, name)];
      assert d in defs;
      var root := Dsl.Parsed(cs, d.dsl).value;
      AddRefsCollects([], root);
      RenamedKeepsRefs(root, resolve, deps[name]);
      RefsAreDefined([], root, d.name, NamesOf(defs), resolve);
    }
  }

  /** Listing the trees in a topological order links them. */
  lemma OrderLinks(order: seq<string>, roots: map<string, Node>, deps: Topo.Graph, sets: seq<NamedSet>)
    requires Topo.IsTopological(deps, order) && deps.Keys == roots.Keys
    requires forall name <- roots :: RefsWithin(roots[name], deps[name])
    requires |sets| == |order|
    requires forall i :: 0 <= i < |order| ==> sets[i] == NamedSet(order[i], roots[order[i]])
    ensures Linked(sets)
  {
    forall i | 0 <= i < |sets|
      ensures RefsBelow(sets[i].root, sets, i)
    {
      forall r | r in deps[order[i]]
        ensures exists j :: 0 <= j < i && sets[j].name == r
      {
        var j :| 0 <= j < i && order[..i][j] == r;
        assert sets[j].name == r;
      }
      RefsWithinAreBelow(sets[i].root, sets, i, deps[order[i]]);
    }
  }

  /** computeSupport: the registry, and one support mask per set. */
  method ComputeSupport(sets: seq<NamedSet>) returns (bits: ModelBits, supports: seq<B.Mask>)
    requires Linked(sets)
    ensures IsIndex(bits) && |supports| == |sets|
    ensures forall i :: 0 <= i < |sets| ==>
              Fits(supports[i], bits) && Held(supports[i], bits) == Mentioned(Expand(sets[i].root, sets, i))
  {
    hide IsIndex, Fits, Held, Mentioned, Expand, RefsBelow;
    var collector := new Collector(sets);
    var models: seq<ModelSet> := [];
    bits := EmptyIndex();
    for i := 0 to |sets|
      invariant collector.Valid() && collector.sets == sets
      invariant |models| == i && IsIndex(bits)
      invariant forall j :: 0 <= j < i ==>
                  models[j] == Mentioned(Expand(sets[j].root, sets, j)) && models[j] <= bits.Keys
    {
      ExpandIsStable(sets[i].root, sets, i, |sets|);
      var mentioned := collector.Collect(sets[i].root, i);
      models := models + [mentioned];
      bits := Register(bits, mentioned);
    }
    supports := [];
    for i := 0 to |sets|
      invariant |supports| == i
      invariant forall j :: 0 <= j < i ==> Fits(supports[j], bits) && Held(supports[j], bits) == models[j]
    {
      var support := SupportMask(bits, models[i]);
      supports := supports + [support];
    }
  }

  method EmptyIndex() returns (bits: ModelBits)
    ensures IsIndex(bits) && bits == map[]
  {
    bits := map[];
  }

  /** The tail of Compile: link the trees in the given order and compute their supports. */
  method Assemble(order: seq<string>, roots: map<string, Node>, dslByName: map<string, string>, ghost deps: Topo.Graph)
    returns (p: Program)
    requires Topo.IsTopological(deps, order) && deps.Keys == roots.Keys == dslByName.Keys
    requires forall name <- roots :: RefsWithin(roots[name], deps[name])
    ensures p.Compiled() && IsListing(p, order, roots, dslByName)
  {
    hide IsIndex, RefsWithin, Linked, Fits, Held, Mentioned, Expand;
    var linked := seq(|order|, i requires 0 <= i < |order| => NamedSet(order[i], roots[order[i]]));
    OrderLinks(order, roots, deps, linked);
    var bits, supports := ComputeSupport(linked);
    hide Topo.IsTopological;
    var sets := seq(|order|, i requires 0 <= i < |order| =>
      CompiledSet(linked[i].name, dslByName[linked[i].name], linked[i].root, supports[i]));
    p := Program(sets, bits, B.WordsFor(|bits|));
    assert p.Named() == linked;
  }

  /** p lists the names in the given order, each with its tree and text. */
  ghost predicate IsListing(p: Program, order: seq<string>, roots: map<string, Node>, dslByName: map<string, string>) {
    && |p.sets| == |order|
    && forall i :: 0 <= i < |order| ==>
         && p.sets[i].name == order[i] && order[i] in roots && order[i] in dslByName
         && p.sets[i].root == roots[order[i]] && p.sets[i].dsl == dslByName[order[i]]
  }

  lemma ListingRealizes(p: Program, order: seq<string>, defs: seq<Definition>, cs: Dsl.Charset, resolve: Resolver,
                        roots: map<string, Node>, dslByName: map<string, string>, deps: Topo.Graph)
    requires Sound(defs, cs, resolve) && Built(defs, cs, resolve, roots, dslByName, deps)
    requires IsListing(p, order, roots, dslByName)
    requires forall n :: n in order <==> n in deps
    ensures Realizes(p, defs, cs, resolve)
  {
    hide Dsl.Parsed, Renamed, RootOf, NamesOf, LastOf, Sound, Built, BuiltFor, RefsWithin;
    BuiltIsGraph(defs, cs, resolve, roots, dslByName, deps);
    BuiltTexts(defs, cs, resolve, roots, dslByName, deps);
    ListingNames(p, order, NamesOf(defs));
  }

  lemma BuiltTexts(defs: seq<Definition>, cs: Dsl.Charset, resolve: Resolver,
                   roots: map<string, Node>, dslByName: map<string, string>, deps: Topo.Graph)
    requires Built(defs, cs, resolve, roots, dslByName, deps)
    ensures roots.Keys == dslByName.Keys == deps.Keys == NamesOf(defs)
    ensures forall name <- dslByName :: name in NamesOf(defs) && dslByName[name] == defs[LastOf(defs, name)].dsl
  {
    hide Dsl.Parsed, Renamed, AddRefs;
  }

  lemma ListingNames(p: Program, order: seq<string>, names: set<string>)
    requires |p.sets| == |order| && forall i :: 0 <= i < |order| ==> p.sets[i].name == order[i]
    requires forall n :: n in order <==> n in names
    ensures forall n :: n in names <==> exists i :: 0 <= i < |p.sets| && p.sets[i].name == n
    ensures forall i :: 0 <= i < |p.sets| ==> p.sets[i].name in names
  {
    forall n | n in names
      ensures exists i :: 0 <= i < |p.sets| && p.sets[i].name == n
    {
      var i :| 0 <= i < |order| && order[i] == n;
      assert p.sets[i].name == n;
    }
    forall i | 0 <= i < |p.sets|
      ensures p.sets[i].name in names
    {
      assert order[i] in order;
    }
  }

  lemma BuiltKeys(defs: seq<Definition>, names: seq<string>, cs: Dsl.Charset, resolve: Resolver,
                  roots: map<string, Node>, dslByName: map<string, string>, deps: Topo.Graph)
    requires Built(defs, cs, resolve, roots, dslByName, deps)
    requires |names| == |defs| && forall i :: 0 <= i < |defs| ==> names[i] == defs[i].name
    ensures deps.Keys == roots.Keys == dslByName.Keys
    ensures forall n :: n in names <==> n in deps
  {
    forall n | n in deps
      ensures n in names
    {
      var d :| d in defs && d.name == n;
      var i :| 0 <= i < |defs| && defs[i] == d;
      assert names[i] == n;
    }
    forall n | n in names
      ensures n in deps
    {
      var i :| 0 <= i < |names| && names[i] == n;
      assert defs[i] in defs;
    }
  }

  // ---- what the compiled sets allow ----

  /** The parsed trees of the definitions that count, as they are written. */
  function Trees(defs: seq<Definition>, cs: Dsl.Charset, resolve: Resolver): map<string, Node>
    requires Sound(defs, cs, resolve)
  {
    map name | name in NamesOf(defs) :: RootOf(defs, name, cs, resolve)
  }

  /** The sets are the trees, each name once, resolved. */
  ghost predicate Resolves(sets: seq<NamedSet>, trees: map<string, Node>, resolve: Resolver) {
    && Linked(sets)
    && forall i :: 0 <= i < |sets| ==>
         sets[i].name in trees && sets[i].root == Renamed(trees[sets[i].name], resolve)
  }

  ghost predicate AllResolve(n: Node, resolve: Resolver) {
    match n
    case Leaf(ident) => resolve(ident).Some?
    case Ref(_) => true
    case And(children) => forall i :: 0 <= i < |children| ==> AllResolve(children[i], resolve)
    case Or(children) => forall i :: 0 <= i < |children| ==> AllResolve(children[i], resolve)
  }

  /** What the unfolded, resolved tree allows, its definition allows. */
  lemma {:induction false} FamilyIsAllowed(sets: seq<NamedSet>, trees: map<string, Node>, resolve: Resolver, n: Node,
                                           k: nat, s: ModelSet)
    requires Resolves(sets, trees, resolve) && k <= |sets| && RefsBelow(Renamed(n, resolve), sets, k)
    requires AllResolve(n, resolve) && forall name <- trees :: AllResolve(trees[name], resolve)
    requires s in FamilyOf(Expand(Renamed(n, resolve), sets, k))
    ensures Allows(trees, resolve, n, s, k)
    decreases k, n
  {
    match n {
      case Leaf(_) =>
      case Ref(name) =>
        var i := Find(sets, name, k);
        FamilyIsAllowed(sets, trees, resolve, trees[name], i, s);
        AllowsDeeper(trees, resolve, trees[name], s, i, k - 1);
      case Or(children) =>
        var unfolded := ExpandAll(RenamedAll(children, resolve), sets, k);
        AnyFamilyMeans(unfolded, s);
        var i :| 0 <= i < |unfolded| && s in FamilyOf(unfolded[i]);
        FamilyIsAllowed(sets, trees, resolve, children[i], k, s);
      case And(children) =>
        var unfolded := ExpandAll(RenamedAll(children, resolve), sets, k);
        AllUnionsMeans(unfolded, s);
        var parts :| TakesOneEach(unfolded, s, parts);
        forall i | 0 <= i < |children|
          ensures Allows(trees, resolve, children[i], parts[i], k)
        {
          FamilyIsAllowed(sets, trees, resolve, children[i], k, parts[i]);
        }
    }
  }

  /** And the other way round. */
  lemma {:induction false} AllowedIsFamily(sets: seq<NamedSet>, trees: map<string, Node>, resolve: Resolver, n: Node,
                                           k: nat, s: ModelSet, depth: nat)
    requires Resolves(sets, trees, resolve) && k <= |sets| && RefsBelow(Renamed(n, resolve), sets, k)
    requires Allows(trees, resolve, n, s, depth)
    ensures s in FamilyOf(Expand(Renamed(n, resolve), sets, k))
    decreases depth, n
  {
    match n {
      case Leaf(_) =>
      case Ref(name) =>
        var i := Find(sets, name, k);
        AllowedIsFamily(sets, trees, resolve, trees[name], i, s, depth - 1);
      case Or(children) =>
        var unfolded := ExpandAll(RenamedAll(children, resolve), sets, k);
        var i :| 0 <= i < |children| && Allows(trees, resolve, children[i], s, depth);
        AllowedIsFamily(sets, trees, resolve, children[i], k, s, depth);
        AnyFamilyMeans(unfolded, s);
      case And(children) =>
        var unfolded := ExpandAll(RenamedAll(children, resolve), sets, k);
        var parts: seq<ModelSet> :| IsUnion(s, parts) && |parts| == |children|
          && forall i :: 0 <= i < |children| ==> Allows(trees, resolve, children[i], parts[i], depth);
        forall i | 0 <= i < |children|
          ensures parts[i] in FamilyOf(unfolded[i])
        {
          AllowedIsFamily(sets, trees, resolve, children[i], k, parts[i], depth);
        }
        AllUnionsMeans(unfolded, s);
        assert TakesOneEach(unfolded, s, parts);
    }
  }

  lemma {:induction false} NoProblemResolves(n: Node, setName: string, names: set<string>, resolve: Resolver)
    requires Problem(n, setName, names, resolve) == None
    ensures AllResolve(n, resolve)
    decreases n, 0
  {
    match n
    case Leaf(_) =>
    case Ref(_) =>
    case And(children) => NoProblemInResolves(children, setName, names, resolve);
    case Or(children) => NoProblemInResolves(children, setName, names, resolve);
  }

  lemma {:induction false} NoProblemInResolves(children: seq<Node>, setName: string, names: set<string>,
                                               resolve: Resolver)
    requires ProblemIn(children, setName, names, resolve) == None
    ensures forall i :: 0 <= i < |children| ==> AllResolve(children[i], resolve)
    decreases children, 0
  {
    if children != [] {
      NoProblemInResolves(children[..|children| - 1], setName, names, resolve);
      NoProblemResolves(children[|children| - 1], setName, names, resolve);
    }
  }

  /** Each compiled set allows exactly what its definition allows as it is written. */
  ghost predicate Means(p: Program, defs: seq<Definition>, cs: Dsl.Charset, resolve: Resolver)
    requires Sound(defs, cs, resolve)
  {
    forall i: nat, s: ModelSet :: i < |p.sets| ==>
      (s in p.Allowed(i) <==> IsAllowed(Trees(defs, cs, resolve), resolve, p.sets[i].name, s))
  }

  lemma CompiledMeans(p: Program, defs: seq<Definition>, cs: Dsl.Charset, resolve: Resolver)
    requires Sound(defs, cs, resolve) && p.Compiled() && Realizes(p, defs, cs, resolve)
    ensures Means(p, defs, cs, resolve)
  {
    forall i: nat, s: ModelSet | i < |p.sets|
      ensures s in p.Allowed(i) <==> IsAllowed(Trees(defs, cs, resolve), resolve, p.sets[i].name, s)
    {
      SetMeans(p, defs, cs, resolve, i, s);
    }
  }

  lemma SetMeans(p: Program, defs: seq<Definition>, cs: Dsl.Charset, resolve: Resolver, i: nat, s: ModelSet)
    requires Sound(defs, cs, resolve) && p.Compiled() && Realizes(p, defs, cs, resolve) && i < |p.sets|
    ensures s in p.Allowed(i) <==> IsAllowed(Trees(defs, cs, resolve), resolve, p.sets[i].name, s)
  {
    var trees, sets := Trees(defs, cs, resolve), p.Named();
    TreesResolve(defs, cs, resolve);
    CompiledResolves(p, defs, cs, resolve);
    hide Trees, Sound, Realizes, Program.Compiled, AllResolve, Allows, Expand, FamilyOf, RefsBelow;
    assert sets[i].name == p.sets[i].name && sets[i].root == p.sets[i].root;
    var root := trees[p.sets[i].name];
    if s in p.Allowed(i) {
      FamilyIsAllowed(sets, trees, resolve, root, i, s);
    }
    if IsAllowed(trees, resolve, p.sets[i].name, s) {
      var depth: nat :| Allows(trees, resolve, root, s, depth);
      AllowedIsFamily(sets, trees, resolve, root, i, s, depth);
    }
  }

  lemma CompiledResolves(p: Program, defs: seq<Definition>, cs: Dsl.Charset, resolve: Resolver)
    requires Sound(defs, cs, resolve) && p.Compiled() && Realizes(p, defs, cs, resolve)
    ensures Resolves(p.Named(), Trees(defs, cs, resolve), resolve)
  {
    hide Dsl.Parsed, RootOf, Problem, NamesOf, Sound, LastOf, Renamed;
  }

  lemma TreesResolve(defs: seq<Definition>, cs: Dsl.Charset, resolve: Resolver)
    requires Sound(defs, cs, resolve)
    ensures forall name <- Trees(defs, cs, resolve) :: AllResolve(Trees(defs, cs, resolve)[name], resolve)
  {
    hide Dsl.Parsed, AllResolve, Problem;
    forall name | name in NamesOf(defs)
      ensures AllResolve(RootOf(defs, name, cs, resolve), resolve)
    {
      var d := defs[LastOf(defs, name)];
      assert d in defs;
      NoProblemResolves(RootOf(defs, name, cs, resolve), d.name, NamesOf(defs), resolve);
    }
  }

  // ---- what the supports hold ----

  /** Every operator has an operand. */
  predicate Filled(n: Node) {
    match n
    case Leaf(_) => true
    case Ref(_) => true
    case And(children) => children != [] && forall i :: 0 <= i < |children| ==> Filled(children[i])
    case Or(children) => children != [] && forall i :: 0 <= i < |children| ==> Filled(children[i])
  }

  lemma {:induction false} CanonicalIsFilled(cs: Dsl.Charset, n: Node, resolve: Resolver)
    requires Dsl.Canonical(cs, n)
    ensures Filled(Renamed(n, resolve))
  {
    match n {
      case Leaf(_) =>
      case Ref(_) =>
      case And(children) =>
        forall i | 0 <= i < |children| ensures Filled(Renamed(children[i], resolve)) {
          CanonicalIsFilled(cs, children[i], resolve);
        }
      case Or(children) =>
        forall i | 0 <= i < |children| ensures Filled(Renamed(children[i], resolve)) {
          CanonicalIsFilled(cs, children[i], resolve);
        }
    }
  }

  /** Unfolding leaves no reference and no operator without an operand. */
  lemma {:induction false} ExpandIsFilled(n: Node, sets: seq<NamedSet>, k: nat)
    requires Linked(sets) && k <= |sets| && RefsBelow(n, sets, k) && Filled(n)
    requires forall i :: 0 <= i < |sets| ==> Filled(sets[i].root)
    ensures Inhabited(Expand(n, sets, k))
    decreases k, n
  {
    match n {
      case Leaf(_) =>
      case Ref(name) =>
        var i := Find(sets, name, k);
        ExpandIsFilled(sets[i].root, sets, i);
      case And(children) =>
        forall i | 0 <= i < |children| ensures Inhabited(Expand(children[i], sets, k)) {
          ExpandIsFilled(children[i], sets, k);
        }
      case Or(children) =>
        forall i | 0 <= i < |children| ensures Inhabited(Expand(children[i], sets, k)) {
          ExpandIsFilled(children[i], sets, k);
        }
    }
  }

  /** A compiled set's support has a bit for exactly the models that are in one of its allowed sets. */
  lemma SupportIsExact(p: Program, defs: seq<Definition>, cs: Dsl.Charset, resolve: Resolver, i: nat, model: string)
    requires cs.Valid() && Sound(defs, cs, resolve) && p.Compiled() && Realizes(p, defs, cs, resolve) && i < |p.sets|
    ensures model in Held(p.sets[i].support, p.modelBits) <==> exists s :: s in p.Allowed(i) && model in s
  {
    forall j | 0 <= j < |p.sets|
      ensures Filled(p.sets[j].root)
    {
      var d := defs[LastOf(defs, p.sets[j].name)];
      assert d in defs;
      Dsl.ParsedIsCanonical(cs, d.dsl);
      hide Dsl.Parsed, Filled;
      CanonicalIsFilled(cs, Dsl.Parsed(cs, d.dsl).value, resolve);
    }
    hide Dsl.Parsed, Filled, Sound, Realizes, Expand;
    assert RefsBelow(p.Named()[i].root, p.Named(), i);
    ExpandIsFilled(p.sets[i].root, p.Named(), i);
    MentionedIsUsed(p.Expanded(i), model);
    if exists s :: s in p.Allowed(i) && model in s {
      var s :| s in p.Allowed(i) && model in s;
      FamilyWithinMentioned(p.Expanded(i), s);
    }
  }

  /** Compile */
  method Compile(defs: seq<Definition>, cs: Dsl.Charset, resolve: Resolver) returns (outcome: Outcome)
    requires cs.Valid()
    ensures IsOutcome(outcome, defs, cs, resolve)
    ensures outcome.Compiled? ==> Sound(defs, cs, resolve) && Means(outcome.program, defs, cs, resolve)
  {
    hide Means, Trees, IsAllowed, Dsl.Parsed, Renamed, AddRefs, Problem, RefsWithin, Topo.HasCycle, Built,
      Topo.IsTopological, Topo.Closed, Program.Compiled, IsListing, Realizes, Sound;
    if |defs| == 0 {
      return Rejected(NoSets);
    }
    var problem, roots, dslByName, deps := BuildAll(defs, cs, resolve);
    if problem.Some? {
      FirstProblemIsUnsound(problem.value, defs, cs, resolve);
      return Rejected(problem.value);
    }
    BuiltIsGraph(defs, cs, resolve, roots, dslByName, deps);
    var names := seq(|defs|, i requires 0 <= i < |defs| => defs[i].name);
    BuiltKeys(defs, names, cs, resolve, roots, dslByName, deps);
    var ok, order := Topo.Sort(names, deps);
    if !ok {
      return Rejected(CircularReference);
    }
    var p := Assemble(order, roots, dslByName, deps);
    ListingRealizes(p, order, defs, cs, resolve, roots, dslByName, deps);
    CompiledMeans(p, defs, cs, resolve);
    outcome := Outcome.Compiled(p);
  }

  lemma FirstProblemIsUnsound(error: CompileError, defs: seq<Definition>, cs: Dsl.Charset, resolve: Resolver)
    requires IsFirstProblem(error, defs, cs, resolve)
    ensures !Sound(defs, cs, resolve)
  {
    var i :| 0 <= i < |defs| && DefinitionProblem(defs[i], NamesOf(defs), cs, resolve) == Some(error);
    assert defs[i] in defs;
  }
}
