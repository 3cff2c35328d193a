/**
  The dependency order of the matrix definitions (internal/matrix/program.go, topologicalOrder):
  a depth-first search that fails exactly when the reference graph has a cycle.
 */
module TopologicalOrder {

  type Graph = map<string, seq<string>>

  ghost predicate Closed(deps: Graph) {
    forall n <- deps, d <- deps[n] :: d in deps
  }

  /** A walk along references. */
  ghost predicate IsPath(deps: Graph, path: seq<string>) {
    forall i :: 0 <= i < |path| - 1 ==> path[i] in deps && path[i + 1] in deps[path[i]]
  }

  ghost predicate IsCycle(deps: Graph, path: seq<string>) {
    |path| >= 2 && IsPath(deps, path) && path[0] == path[|path| - 1]
  }

  ghost predicate HasCycle(deps: Graph) {
    exists path :: IsCycle(deps, path)
  }

  ghost predicate Distinct(order: seq<string>) {
    forall i, j :: 0 <= i < j < |order| ==> order[i] != order[j]
  }

  /** Every dependency of a listed name is listed before it. */
  ghost predicate DependenciesFirst(deps: Graph, order: seq<string>) {
    forall i :: 0 <= i < |order| ==> order[i] in deps && forall d <- deps[order[i]] :: d in order[..i]
  }

  ghost predicate IsTopological(deps: Graph, order: seq<string>) {
    Distinct(order) && DependenciesFirst(deps, order)
  }

  const VISITING := 1
  const DONE := 2

  class Search {
    const deps: Graph
    var state: map<string, int>
    var order: seq<string>

    constructor (deps: Graph)
      requires Closed(deps)
      ensures this.deps == deps && order == [] && Valid([])
    {
      this.deps := deps;
      state := map[];
      order := [];
    }

    /** `stack` is the chain of calls in progress: a path of names being visited. */
    ghost predicate Valid(stack: seq<string>)
      reads this
    {
      && Closed(deps)
      && state.Keys <= deps.Keys
      && IsPath(deps, stack)
      && (forall n <- state :: state[n] == VISITING || state[n] == DONE)
      && (forall n :: n in stack <==> n in state && state[n] == VISITING)
      && (forall n :: n in order <==> n in state && state[n] == DONE)
      && IsTopological(deps, order)
    }

    /** The closure `visit`; ok is false for the source's "circular reference" error. */
    method Visit(name: string, ghost stack: seq<string>) returns (ok: bool)
      requires Valid(stack) && name in deps
      requires stack != [] ==> stack[|stack| - 1] in deps && name in deps[stack[|stack| - 1]]
      modifies this
      ensures ok ==> Valid(stack) && name in order && old(order) <= order
      ensures ok ==> state.Keys >= old(state).Keys
      ensures !ok ==> HasCycle(deps)
      ensures ok && name in old(order) ==> order == old(order) && state == old(state)
      ensures ok && name !in old(state) && (forall d <- deps[name] :: d in old(order)) ==>
                order == old(order) + [name] && state.Keys == old(state).Keys + {name}
      decreases deps.Keys - state.Keys, 1
    {
      if name in state && state[name] == VISITING {
        CycleOnStack(deps, stack, name);
        return false;
      }
      if name in state && state[name] == DONE {
        return true;
      }
      state := state[name := VISITING];
      assert name !in order;
      ghost var inner := stack + [name];
      assert old(deps.Keys - state.Keys) == deps.Keys - state.Keys + {name};
      ok := VisitAll(name, deps[name], inner);
      if !ok {
        return;
      }
      assert name in inner;
      Listed(deps, order, name);
      state := state[name := DONE];
      order := order + [name];
    }

    /** The loop over the dependencies of one name. */
    method VisitAll(name: string, dependencies: seq<string>, ghost stack: seq<string>) returns (ok: bool)
      requires Valid(stack) && name in deps && deps[name] == dependencies
      requires stack != [] && stack[|stack| - 1] == name
      modifies this
      ensures ok ==> Valid(stack) && (forall d <- dependencies :: d in order) && old(order) <= order
      ensures ok ==> state.Keys >= old(state).Keys
      ensures !ok ==> HasCycle(deps)
      ensures ok && (forall d <- dependencies :: d in old(order)) ==> order == old(order) && state == old(state)
      decreases deps.Keys - state.Keys, 2
    {
      for i := 0 to |dependencies|
        invariant Valid(stack) && old(order) <= order && state.Keys >= old(state).Keys
        invariant forall d <- dependencies[..i] :: d in order
        invariant (forall d <- dependencies :: d in old(order)) ==> order == old(order) && state == old(state)
      {
        ghost var before := order;
        ok := Visit(dependencies[i], stack);
        if !ok {
          return;
        }
        assert dependencies[..i + 1] == dependencies[..i] + [dependencies[i]];
        assert forall d <- before :: d in order;
      }
      assert dependencies[..|dependencies|] == dependencies;
      ok := true;
    }
  }

  /** Reaching a name that is still being visited closes a cycle. */
  lemma CycleOnStack(deps: Graph, stack: seq<string>, name: string)
    requires IsPath(deps, stack) && name in stack
    requires stack[|stack| - 1] in deps && name in deps[stack[|stack| - 1]]
    ensures HasCycle(deps)
  {
    var i :| 0 <= i < |stack| && stack[i] == name;
    var path := stack[i..] + [name];
    assert IsCycle(deps, path);
  }

  lemma Listed(deps: Graph, order: seq<string>, name: string)
    requires IsTopological(deps, order) && name in deps && name !in order
    requires forall d <- deps[name] :: d in order
    ensures IsTopological(deps, order + [name])
  {
    var r := order + [name];
    assert r[..|order|] == order;
    forall i | 0 <= i < |order|
      ensures r[..i] == order[..i]
    {
    }
  }

  /** Along a path, names move strictly towards the front of a topological order. */
  lemma {:induction false} PathDescends(deps: Graph, order: seq<string>, path: seq<string>, i: nat) returns (j: nat)
    requires IsTopological(deps, order) && IsPath(deps, path) && |path| >= 2
    requires i < |order| && order[i] == path[0]
    ensures j < i && order[j] == path[|path| - 1]
    decreases |path|
  {
    assert path[1] in order[..i];
    var k :| 0 <= k < i && order[k] == path[1];
    if |path| == 2 {
      j := k;
    } else {
      j := PathDescends(deps, order, path[1..], k);
    }
  }

  lemma TopologicalIsAcyclic(deps: Graph, order: seq<string>)
    requires IsTopological(deps, order) && forall n <- deps :: n in order
    ensures !HasCycle(deps)
  {
    forall path | IsCycle(deps, path)
      ensures false
    {
      assert path[0] in deps;
      var i :| 0 <= i < |order| && order[i] == path[0];
      var j := PathDescends(deps, order, path, i);
    }
  }

  /** topologicalOrder: fails if and only if the references have a cycle; otherwise lists
      every definition once, dependencies first, and definitions that need no reordering as they stand. */
  method Sort(names: seq<string>, deps: Graph) returns (ok: bool, order: seq<string>)
    requires Closed(deps) && forall n :: n in names <==> n in deps
    ensures ok <==> !HasCycle(deps)
    ensures ok ==> IsTopological(deps, order) && forall n :: n in order <==> n in deps
    ensures ok && IsTopological(deps, names) ==> order == names
  {
    order := [];
    var search := new Search(deps);
    for i := 0 to |names|
      invariant search.Valid([]) && search.deps == deps
      invariant forall n <- names[..i] :: n in search.order
      invariant IsTopological(deps, names) ==> search.order == names[..i] && search.state.Keys == set n <- names[..i]
    {
      ghost var before := search.order;
      if names[i] !in search.state {
        ok := search.Visit(names[i], []);
        if !ok {
          return;
        }
      }
      assert names[..i + 1] == names[..i] + [names[i]];
      assert forall n <- before :: n in search.order;
    }
    assert names[..|names|] == names;
    TopologicalIsAcyclic(deps, search.order);
    ok, order := true, search.order;
  }
}
