/** Paths and hop distance in a directed multigraph given by its edge list. */
module Paths {
  import opened Topology

  ghost predicate IsPath(es: seq<Edge>, u: nat, p: seq<Edge>, v: nat) {
    if p == [] then u == v
    else
      var last := p[|p| - 1];
      last in es && last.target == v && IsPath(es, u, p[..|p| - 1], last.source)
  }

  ghost predicate Reachable(es: seq<Edge>, u: nat, v: nat) {
    exists p :: IsPath(es, u, p, v)
  }

  /** `p` is a path from u to v, and none has fewer edges. */
  ghost predicate IsShortest(es: seq<Edge>, u: nat, p: seq<Edge>, v: nat) {
    && IsPath(es, u, p, v)
    && forall q :: IsPath(es, u, q, v) ==> |p| <= |q|
  }

  /** The minimum edge count over all paths from u to v, and 0 when there is none. */
  ghost function HopDistance(es: seq<Edge>, u: nat, v: nat): nat {
    if d: nat :| IsDistance(es, u, v, d) then d else 0
  }

  ghost predicate IsDistance(es: seq<Edge>, u: nat, v: nat, d: nat) {
    exists p :: IsShortest(es, u, p, v) && |p| == d
  }

  lemma DistanceIsUnique(es: seq<Edge>, u: nat, v: nat, d: nat)
    requires IsDistance(es, u, v, d)
    ensures HopDistance(es, u, v) == d
  {
    var p :| IsShortest(es, u, p, v) && |p| == d;
    var d' := HopDistance(es, u, v);
    assert IsDistance(es, u, v, d');
    var p' :| IsShortest(es, u, p', v) && |p'| == d';
  }

  /** Wherever v can be reached, the distance is the length of some shortest path. */
  lemma DistanceIsAttained(es: seq<Edge>, u: nat, v: nat)
    requires Reachable(es, u, v)
    ensures IsDistance(es, u, v, HopDistance(es, u, v))
  {
    var p :| IsPath(es, u, p, v);
    ShortestExists(es, u, p, v);
  }

  lemma {:induction false} ShortestExists(es: seq<Edge>, u: nat, p: seq<Edge>, v: nat)
    requires IsPath(es, u, p, v)
    ensures exists d: nat :: IsDistance(es, u, v, d)
    decreases |p|
  {
    if q :| IsPath(es, u, q, v) && |q| < |p| {
      ShortestExists(es, u, q, v);
    } else {
      assert IsShortest(es, u, p, v);
      assert IsDistance(es, u, v, |p|);
    }
  }

  lemma UnreachableIsZero(es: seq<Edge>, u: nat, v: nat)
    requires !Reachable(es, u, v)
    ensures HopDistance(es, u, v) == 0
  {
  }

  lemma {:induction false} Concatenate(es: seq<Edge>, u: nat, p: seq<Edge>, v: nat, q: seq<Edge>, w: nat)
    requires IsPath(es, u, p, v) && IsPath(es, v, q, w)
    ensures IsPath(es, u, p + q, w)
  {
    if q == [] {
      assert p + q == p;
    } else {
      var q' := q[..|q| - 1];
      Concatenate(es, u, p, v, q', q[|q| - 1].source);
      assert (p + q)[..|p + q| - 1] == p + q';
    }
  }

  /** A path can be taken apart at its first edge. */
  lemma {:induction false} Uncons(es: seq<Edge>, u: nat, p: seq<Edge>, v: nat)
    requires IsPath(es, u, p, v) && p != []
    ensures p[0] in es && p[0].source == u && IsPath(es, p[0].target, p[1..], v)
  {
    var p' := p[..|p| - 1];
    if p' == [] {
      assert IsPath(es, u, p', p[0].source);
    } else {
      Uncons(es, u, p', p[|p| - 1].source);
      assert p[1..][..|p[1..]| - 1] == p'[1..];
    }
  }

  lemma {:induction false} MoreEdges(es: seq<Edge>, more: seq<Edge>, u: nat, p: seq<Edge>, v: nat)
    requires IsPath(es, u, p, v)
    requires forall e :: e in es ==> e in more
    ensures IsPath(more, u, p, v)
  {
    if p != [] {
      MoreEdges(es, more, u, p[..|p| - 1], p[|p| - 1].source);
    }
  }

  /** A one-edge path. */
  lemma Step(es: seq<Edge>, e: Edge)
    requires e in es
    ensures IsPath(es, e.source, [e], e.target)
  {
    assert [e][..0] == [];
  }

  // ---- symmetric graphs

  /** Every edge has an edge back, of whatever type. */
  ghost predicate Symmetric(es: seq<Edge>) {
    forall e :: e in es ==> HasEdge(es, e.target, e.source)
  }

  lemma {:induction false} ReversePath(es: seq<Edge>, u: nat, p: seq<Edge>, v: nat) returns (q: seq<Edge>)
    requires Symmetric(es) && IsPath(es, u, p, v)
    ensures IsPath(es, v, q, u) && |q| == |p|
  {
    if p == [] {
      q := [];
    } else {
      var e := p[|p| - 1];
      var i :| 0 <= i < |es| && es[i].source == e.target && es[i].target == e.source;
      var rest := ReversePath(es, u, p[..|p| - 1], e.source);
      Step(es, es[i]);
      Concatenate(es, v, [es[i]], e.source, rest, u);
      q := [es[i]] + rest;
    }
  }

  /** In a symmetric graph hop distance and reachability are symmetric. */
  lemma DistanceIsSymmetric(es: seq<Edge>, u: nat, v: nat)
    requires Symmetric(es)
    ensures Reachable(es, u, v) <==> Reachable(es, v, u)
    ensures HopDistance(es, u, v) == HopDistance(es, v, u)
  {
    if Reachable(es, u, v) {
      NoLongerBack(es, u, v);
      NoLongerBack(es, v, u);
    } else if Reachable(es, v, u) {
      NoLongerBack(es, v, u);
    }
  }

  lemma NoLongerBack(es: seq<Edge>, u: nat, v: nat)
    requires Symmetric(es) && Reachable(es, u, v)
    ensures Reachable(es, v, u) && HopDistance(es, v, u) <= HopDistance(es, u, v)
  {
    DistanceIsAttained(es, u, v);
    var p :| IsShortest(es, u, p, v) && |p| == HopDistance(es, u, v);
    var q := ReversePath(es, u, p, v);
    DistanceIsAttained(es, v, u);
  }
}
