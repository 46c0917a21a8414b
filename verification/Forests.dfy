/** Rooted forests and the hop distance in a graph that links every vertex with its parent, both ways. */
module Forests {
  import opened Topology
  import opened Paths

  /** `up` maps every vertex but the roots to its parent; the vertices are the keys of `depth`. */
  datatype Forest = Forest(up: map<nat, nat>, depth: map<nat, nat>)

  ghost predicate ValidForest(f: Forest) {
    && f.up.Keys <= f.depth.Keys
    && (forall v :: v in f.up ==> f.up[v] in f.depth && f.depth[v] == f.depth[f.up[v]] + 1)
    && (forall v :: v in f.depth && v !in f.up ==> f.depth[v] == 0)
  }

  /** The edges link exactly the child/parent pairs, in both directions. */
  ghost predicate Represents(f: Forest, es: seq<Edge>) {
    && (forall e :: e in es ==> Linked(f, e.source, e.target) || Linked(f, e.target, e.source))
    && (forall v :: v in f.up ==> HasEdge(es, v, f.up[v]) && HasEdge(es, f.up[v], v))
  }

  ghost predicate Linked(f: Forest, child: nat, parent: nat) {
    child in f.up && f.up[child] == parent
  }

  /** `a` is `v` or lies above it. */
  ghost predicate IsAncestor(f: Forest, a: nat, v: nat)
    requires ValidForest(f) && v in f.depth
    decreases f.depth[v]
  {
    a == v || (v in f.up && IsAncestor(f, a, f.up[v]))
  }

  ghost function Root(f: Forest, v: nat): (r: nat)
    requires ValidForest(f) && v in f.depth
    ensures r in f.depth && r !in f.up && IsAncestor(f, r, v)
    decreases f.depth[v]
  {
    if v in f.up then Root(f, f.up[v]) else v
  }

  /** The lowest common ancestor of two vertices of one tree. */
  ghost function Lca(f: Forest, u: nat, v: nat): (a: nat)
    requires ValidForest(f) && u in f.depth && v in f.depth && Root(f, u) == Root(f, v)
    ensures a in f.depth && IsAncestor(f, a, u) && IsAncestor(f, a, v)
    decreases f.depth[v]
  {
    if IsAncestor(f, v, u) then v else Lca(f, u, f.up[v])
  }

  lemma {:induction false} LcaIsLowest(f: Forest, u: nat, v: nat, a: nat)
    requires ValidForest(f) && u in f.depth && v in f.depth && Root(f, u) == Root(f, v)
    requires IsAncestor(f, a, u) && IsAncestor(f, a, v)
    ensures IsAncestor(f, a, Lca(f, u, v))
    decreases f.depth[v]
  {
    if !IsAncestor(f, v, u) {
      LcaIsLowest(f, u, f.up[v], a);
    }
  }

  lemma {:induction false} AncestorFacts(f: Forest, a: nat, v: nat)
    requires ValidForest(f) && v in f.depth && IsAncestor(f, a, v)
    ensures a in f.depth && f.depth[a] <= f.depth[v] && Root(f, a) == Root(f, v)
    ensures f.depth[a] == f.depth[v] ==> a == v
    ensures a in f.up ==> IsAncestor(f, f.up[a], v)
    decreases f.depth[v]
  {
    if a != v {
      AncestorFacts(f, a, f.up[v]);
    }
  }

  /** Ancestors of one vertex are ordered by depth: at one depth there is only one. */
  lemma {:induction false} AncestorAtDepth(f: Forest, a: nat, b: nat, v: nat)
    requires ValidForest(f) && v in f.depth && IsAncestor(f, a, v) && IsAncestor(f, b, v)
    requires a in f.depth && b in f.depth && f.depth[a] == f.depth[b]
    ensures a == b
    decreases f.depth[v]
  {
    AncestorFacts(f, a, v);
    AncestorFacts(f, b, v);
    if a != v && b != v {
      AncestorAtDepth(f, a, b, f.up[v]);
    }
  }

  /** The deepest common ancestor, known by its depth k - 1, is the lowest; without one there is no common root. */
  lemma LcaAtLevel(f: Forest, u: nat, v: nat, k: nat, a: nat)
    requires ValidForest(f) && u in f.depth && v in f.depth
    requires forall b :: b in f.depth && IsAncestor(f, b, u) && IsAncestor(f, b, v) ==> f.depth[b] < k
    requires k > 0 ==> a in f.depth && f.depth[a] == k - 1 && IsAncestor(f, a, u) && IsAncestor(f, a, v)
    ensures Root(f, u) == Root(f, v) <==> k > 0
    ensures k > 0 ==> f.depth[Lca(f, u, v)] == k - 1
  {
    if k > 0 {
      AncestorFacts(f, a, u);
      AncestorFacts(f, a, v);
      LcaIsLowest(f, u, v, a);
      AncestorFacts(f, a, Lca(f, u, v));
    }
  }

  ghost function TreeDistance(f: Forest, u: nat, v: nat): nat
    requires ValidForest(f) && u in f.depth && v in f.depth && Root(f, u) == Root(f, v)
  {
    AncestorFacts(f, Lca(f, u, v), u);
    AncestorFacts(f, Lca(f, u, v), v);
    f.depth[u] + f.depth[v] - 2 * f.depth[Lca(f, u, v)]
  }

  /** One link changes the tree distance by exactly one. */
  lemma ClimbingStep(f: Forest, u: nat, v: nat)
    requires ValidForest(f) && u in f.depth && v in f.up && Root(f, u) == Root(f, v)
    ensures Root(f, u) == Root(f, f.up[v])
    ensures TreeDistance(f, u, f.up[v]) == TreeDistance(f, u, v) + (if IsAncestor(f, v, u) then 1 else -1)
  {
    if IsAncestor(f, v, u) {
      AncestorFacts(f, v, u);
    }
  }

  lemma {:induction false} PathIsAtLeastTreeDistance(f: Forest, es: seq<Edge>, u: nat, p: seq<Edge>, v: nat)
    requires ValidForest(f) && Represents(f, es) && u in f.depth && IsPath(es, u, p, v)
    ensures v in f.depth && Root(f, u) == Root(f, v) && TreeDistance(f, u, v) <= |p|
  {
    if p != [] {
      var x := p[|p| - 1].source;
      PathIsAtLeastTreeDistance(f, es, u, p[..|p| - 1], x);
      if Linked(f, x, v) {
        ClimbingStep(f, u, x);
      } else {
        ClimbingStep(f, u, v);
      }
    }
  }

  lemma {:induction false} PathUp(f: Forest, es: seq<Edge>, a: nat, v: nat) returns (p: seq<Edge>)
    requires ValidForest(f) && Represents(f, es) && v in f.depth && IsAncestor(f, a, v)
    ensures a in f.depth && f.depth[a] <= f.depth[v]
    ensures IsPath(es, v, p, a) && |p| == f.depth[v] - f.depth[a]
    decreases f.depth[v]
  {
    if a == v {
      p := [];
    } else {
      var i :| 0 <= i < |es| && es[i].source == v && es[i].target == f.up[v];
      var rest := PathUp(f, es, a, f.up[v]);
      Step(es, es[i]);
      Concatenate(es, v, [es[i]], f.up[v], rest, a);
      p := [es[i]] + rest;
    }
  }

  lemma RepresentsIsSymmetric(f: Forest, es: seq<Edge>)
    requires Represents(f, es)
    ensures Symmetric(es)
  {
  }

  /** Two vertices are connected exactly when they share a root; then their hop distance is
      depth(u) + depth(v) - 2 depth(lca(u, v)). */
  lemma ForestDistance(f: Forest, es: seq<Edge>, u: nat, v: nat)
    requires ValidForest(f) && Represents(f, es) && u in f.depth && v in f.depth
    ensures Reachable(es, u, v) <==> Root(f, u) == Root(f, v)
    ensures Root(f, u) == Root(f, v) ==> HopDistance(es, u, v) == TreeDistance(f, u, v)
    ensures Root(f, u) != Root(f, v) ==> HopDistance(es, u, v) == 0
  {
    forall p | IsPath(es, u, p, v)
      ensures Root(f, u) == Root(f, v) && TreeDistance(f, u, v) <= |p|
    {
      PathIsAtLeastTreeDistance(f, es, u, p, v);
    }
    if Root(f, u) == Root(f, v) {
      var a := Lca(f, u, v);
      var p := PathUp(f, es, a, u);
      var q := PathUp(f, es, a, v);
      RepresentsIsSymmetric(f, es);
      var q' := ReversePath(es, v, q, a);
      Concatenate(es, u, p, a, q', v);
      assert IsShortest(es, u, p + q', v);
      assert IsDistance(es, u, v, |p + q'|);
      DistanceIsUnique(es, u, v, |p + q'|);
    } else {
      UnreachableIsZero(es, u, v);
    }
  }
}
