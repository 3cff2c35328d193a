/**
  What the definitions of a matrix mean as they are written (internal/matrix/dsl.go, program.go): which
  sets of models each allows, read off the parsed trees and the resolver.  Nothing here knows how the
  trees are renamed, linked, unfolded or evaluated.
 */
module MatrixMeaning {
  import opened MatrixSpec
  import opened Basics

  /** Maps a DSL identifier to a real model name. */
  type Resolver = string -> Option<string>

  /** s is the union of the parts. */
  ghost predicate IsUnion(s: ModelSet, parts: seq<ModelSet>) {
    forall m :: m in s <==> exists i :: 0 <= i < |parts| && m in parts[i]
  }

  /** The expression n allows the model set s, following references at most `depth` deep: an identifier
      allows the model it resolves to, alone; a reference what its definition allows; an `|` what any
      operand allows; an `&` a union of one set allowed by each operand. */
  ghost predicate Allows(trees: map<string, Node>, resolve: Resolver, n: Node, s: ModelSet, depth: nat)
    decreases depth, n
  {
    match n
    case Leaf(ident) => resolve(ident).Some? && s == {resolve(ident).value}
    case Ref(name) => depth > 0 && name in trees && Allows(trees, resolve, trees[name], s, depth - 1)
    case Or(children) => exists i :: 0 <= i < |children| && Allows(trees, resolve, children[i], s, depth)
    case And(children) =>
      exists parts: seq<ModelSet> ::
        && IsUnion(s, parts) && |parts| == |children|
        && forall i :: 0 <= i < |children| ==> Allows(trees, resolve, children[i], parts[i], depth)
  }

  /** The definition `name` allows s. */
  ghost predicate IsAllowed(trees: map<string, Node>, resolve: Resolver, name: string, s: ModelSet) {
    name in trees && exists depth: nat :: Allows(trees, resolve, trees[name], s, depth)
  }

  lemma {:induction false} AllowsDeeper(trees: map<string, Node>, resolve: Resolver, n: Node, s: ModelSet, depth: nat,
                                        more: nat)
    requires Allows(trees, resolve, n, s, depth) && depth <= more
    ensures Allows(trees, resolve, n, s, more)
    decreases depth, n
  {
    match n {
      case Leaf(_) =>
      case Ref(name) => AllowsDeeper(trees, resolve, trees[name], s, depth - 1, more - 1);
      case Or(children) =>
        var i :| 0 <= i < |children| && Allows(trees, resolve, children[i], s, depth);
        AllowsDeeper(trees, resolve, children[i], s, depth, more);
      case And(children) =>
        var parts: seq<ModelSet> :| IsUnion(s, parts) && |parts| == |children|
          && forall i :: 0 <= i < |children| ==> Allows(trees, resolve, children[i], parts[i], depth);
        forall i | 0 <= i < |children|
          ensures Allows(trees, resolve, children[i], parts[i], more)
        {
          AllowsDeeper(trees, resolve, children[i], parts[i], depth, more);
        }
    }
  }

  // ---- the naive denotation, operand by operand ----

  lemma {:induction false} AnyFamilyMeans(children: seq<Node>, s: ModelSet)
    ensures s in AnyFamily(children) <==> exists i :: 0 <= i < |children| && s in FamilyOf(children[i])
  {
    if children != [] {
      var front := children[..|children| - 1];
      AnyFamilyMeans(front, s);
      assert forall i :: 0 <= i < |front| ==> front[i] == children[i];
    }
  }

  /** s takes one set from each operand. */
  ghost predicate TakesOneEach(children: seq<Node>, s: ModelSet, parts: seq<ModelSet>) {
    && IsUnion(s, parts) && |parts| == |children|
    && forall i :: 0 <= i < |children| ==> parts[i] in FamilyOf(children[i])
  }

  lemma {:induction false} AllUnionsMeans(children: seq<Node>, s: ModelSet)
    ensures s in AllUnions(children) <==> exists parts :: TakesOneEach(children, s, parts)
  {
    if children == [] {
      assert s == {} ==> TakesOneEach(children, s, []);
      assert forall parts :: TakesOneEach(children, s, parts) ==> s == {};
    } else {
      var front, last := children[..|children| - 1], children[|children| - 1];
      if s in AllUnions(children) {
        var a, b :| a in AllUnions(front) && b in FamilyOf(last) && s == a + b;
        AllUnionsMeans(front, a);
        var parts :| TakesOneEach(front, a, parts);
        OneMorePart(front, last, a, b, parts);
        assert children == front + [last];
      }
      if exists parts :: TakesOneEach(children, s, parts) {
        var parts :| TakesOneEach(children, s, parts);
        var a := OnePartLess(children, s, parts);
        AllUnionsMeans(front, a);
      }
    }
  }

  lemma OneMorePart(front: seq<Node>, last: Node, a: ModelSet, b: ModelSet, parts: seq<ModelSet>)
    requires TakesOneEach(front, a, parts) && b in FamilyOf(last)
    ensures TakesOneEach(front + [last], a + b, parts + [b])
  {
    var more := parts + [b];
    forall m
      ensures m in a + b <==> exists i :: 0 <= i < |more| && m in more[i]
    {
      if m in a {
        var i :| 0 <= i < |parts| && m in parts[i];
        assert m in more[i];
      } else if m in b {
        assert m in more[|parts|];
      }
    }
  }

  lemma OnePartLess(children: seq<Node>, s: ModelSet, parts: seq<ModelSet>) returns (a: ModelSet)
    requires children != [] && TakesOneEach(children, s, parts)
    ensures TakesOneEach(children[..|children| - 1], a, parts[..|parts| - 1])
    ensures s == a + parts[|parts| - 1]
  {
    var front, b := parts[..|parts| - 1], parts[|parts| - 1];
    a := set m | m in s && exists i :: 0 <= i < |front| && m in front[i];
    forall m | exists i :: 0 <= i < |front| && m in front[i]
      ensures m in s
    {
      var i :| 0 <= i < |front| && m in front[i];
      assert m in parts[i];
    }
    assert forall m <- b :: m in parts[|parts| - 1];
  }
}
