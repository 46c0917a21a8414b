/** Graphs whose vertices were added one by one, each under an earlier vertex or as a root of its own. */
module ParentArrays {
  import opened Forests
  import opened Topology

  /** par[i] is the parent of vertex i; a root is its own parent. */
  ghost predicate IsParents(par: seq<nat>) {
    forall i :: 0 <= i < |par| ==> par[i] <= i
  }

  ghost function Level(par: seq<nat>, i: nat): nat
    requires IsParents(par) && i < |par|
    decreases i
  {
    if par[i] == i then 0 else 1 + Level(par, par[i])
  }

  ghost function ForestOf(par: seq<nat>): (f: Forest)
    requires IsParents(par)
    ensures ValidForest(f)
    ensures forall v: nat :: v in f.depth <==> v < |par|
    ensures forall c: nat, p: nat :: Linked(f, c, p) <==> c < |par| && par[c] == p && p != c
  {
    Forest(map i: nat | i < |par| && par[i] != i :: par[i], map i: nat | i < |par| :: Level(par, i))
  }

  ghost predicate IsTreeEdge(par: seq<nat>, e: Edge) {
    || (e.edgeType == CHILD && e.target < |par| && par[e.target] == e.source != e.target)
    || (e.edgeType == PARENT && e.source < |par| && par[e.source] == e.target != e.source)
  }

  /** The edges are the CHILD and PARENT edges between the vertices and their parents. */
  ghost predicate TreeGraph(t: Snapshot, par: seq<nat>) {
    && Valid(t) && |par| == |t.vertices| && IsParents(par)
    && (forall e :: e in t.edges <==> IsTreeEdge(par, e))
  }

  lemma TreeGraphIsForest(t: Snapshot, par: seq<nat>)
    requires TreeGraph(t, par)
    ensures Represents(ForestOf(par), t.edges)
  {
    var f := ForestOf(par);
    forall v | v in f.up
      ensures HasEdge(t.edges, v, f.up[v]) && HasEdge(t.edges, f.up[v], v)
    {
      assert Linked(f, v, f.up[v]);
      assert IsTreeEdge(par, Edge(f.up[v], v, CHILD)) && IsTreeEdge(par, Edge(v, f.up[v], PARENT));
    }
    forall e | e in t.edges
      ensures Linked(f, e.source, e.target) || Linked(f, e.target, e.source)
    {
      assert IsTreeEdge(par, e);
    }
  }

  /** A new vertex without edges is a root. */
  lemma NewRoot(t: Snapshot, par: seq<nat>, r: Snapshot)
    requires TreeGraph(t, par) && Valid(r) && |r.vertices| == |t.vertices| + 1 && r.edges == t.edges
    ensures TreeGraph(r, par + [|par|])
  {
    forall e
      ensures e in r.edges <==> IsTreeEdge(par + [|par|], e)
    {
      assert e in t.edges <==> IsTreeEdge(par, e);
    }
  }

  /** A new vertex that is hung under an earlier one. */
  lemma NewChild(t: Snapshot, par: seq<nat>, r: Snapshot, parent: nat)
    requires TreeGraph(t, par) && parent < |par|
    requires Valid(r) && |r.vertices| == |t.vertices| + 1 && r.edges == t.edges + ParentChild(parent, |par|)
    ensures TreeGraph(r, par + [parent])
  {
    var added := ParentChild(parent, |par|);
    forall e
      ensures e in r.edges <==> IsTreeEdge(par + [parent], e)
    {
      assert e in t.edges <==> IsTreeEdge(par, e);
      assert e in r.edges <==> e in t.edges || e == added[0] || e == added[1];
    }
  }

  /** Vertices whose chain of parents stays within the first tree belong to it. */
  lemma {:induction false} RootOfFirstTree(par: seq<nat>, n: nat, v: nat)
    requires IsParents(par) && v < n <= |par|
    requires par[0] == 0 && forall i :: 1 <= i < n ==> par[i] < i
    ensures Root(ForestOf(par), v) == 0
    decreases v
  {
    var f := ForestOf(par);
    if v > 0 {
      assert Linked(f, v, par[v]);
      RootOfFirstTree(par, n, par[v]);
    } else {
      assert !Linked(f, 0, 0);
    }
  }
}
