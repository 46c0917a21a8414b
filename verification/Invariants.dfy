/** What every module step keeps: edges come in converse pairs, and the facts about names and masks from which
    the termination of the descent follows. */
module Invariants {
  import opened Descent
  import opened Identity
  import opened Paths
  import opened Topology

  // ---- converse pairs

  /** CHILD edges u->v and PARENT edges v->u have equal multiplicity, and GPU_INTERCONNECT edges are symmetric. */
  ghost predicate Paired(es: seq<Edge>) {
    forall u: nat, v: nat ::
      && multiset(es)[Edge(u, v, CHILD)] == multiset(es)[Edge(v, u, PARENT)]
      && multiset(es)[Edge(u, v, GPU_INTERCONNECT)] == multiset(es)[Edge(v, u, GPU_INTERCONNECT)]
  }

  function GpuPair(u: nat, v: nat): seq<Edge> {
    [Edge(u, v, GPU_INTERCONNECT), Edge(v, u, GPU_INTERCONNECT)]
  }

  lemma ParentChildKeepsPairs(es: seq<Edge>, u: nat, v: nat)
    requires Paired(es)
    ensures Paired(es + ParentChild(u, v))
  {
    assert multiset(es + ParentChild(u, v)) == multiset(es) + multiset{Edge(u, v, CHILD), Edge(v, u, PARENT)};
  }

  lemma GpuPairKeepsPairs(es: seq<Edge>, u: nat, v: nat)
    requires Paired(es)
    ensures Paired(es + GpuPair(u, v))
  {
    assert multiset(es + GpuPair(u, v)) ==
           multiset(es) + multiset{Edge(u, v, GPU_INTERCONNECT), Edge(v, u, GPU_INTERCONNECT)};
  }

  lemma PairedIsSymmetric(es: seq<Edge>)
    requires Paired(es)
    ensures Symmetric(es)
  {
    forall e | e in es
      ensures HasEdge(es, e.target, e.source)
    {
      assert multiset(es)[e] > 0;
      var back := match e.edgeType
        case CHILD => Edge(e.target, e.source, PARENT)
        case PARENT => Edge(e.target, e.source, CHILD)
        case GPU_INTERCONNECT => Edge(e.target, e.source, GPU_INTERCONNECT);
      assert multiset(es)[back] > 0;
      assert back in es;
    }
  }

  // ---- names and masks

  ghost predicate NamedAs(t: Snapshot, v: nat, k: IdKind) {
    exists id :: id in t.ids && t.ids[id] == v && KindOf(id) == k
  }

  /** Neither a network component nor a device ever carries a cpu mask. */
  ghost predicate MaskFree(t: Snapshot, v: nat) {
    NamedAs(t, v, SystemKind) || NamedAs(t, v, BdfidKind)
  }

  ghost predicate GoodEdge(t: Snapshot, e: Edge) {
    e.edgeType == CHILD ==>
      && (Masked(t, e.target) && !IsRank(t, e.target) ==> e.source < e.target || NamedAs(t, e.source, SystemKind))
      && (NamedAs(t, e.target, MachineKind) ==> NamedAs(t, e.source, SystemKind))
  }

  ghost predicate Inv(t: Snapshot) {
    && Valid(t)
    && (forall v :: MaskFree(t, v) ==> !Masked(t, v))
    && (forall e :: e in t.edges ==> GoodEdge(t, e))
  }

  lemma InvMeansAscending(t: Snapshot)
    requires Inv(t)
    ensures Ascending(t)
  {
    forall e | e in t.edges && e.edgeType == CHILD && Masked(t, e.source) && Masked(t, e.target) && !IsRank(t, e.target)
      ensures e.source < e.target
    {
      assert GoodEdge(t, e);
      assert !MaskFree(t, e.source);
    }
  }

  lemma AddUnnamedKeeps(t: Snapshot)
    requires Inv(t)
    ensures Inv(AddUnnamed(t))
  {
    var t' := AddUnnamed(t);
    forall v, k
      ensures NamedAs(t', v, k) == NamedAs(t, v, k)
    {
    }
    forall v: nat | MaskFree(t', v)
      ensures !Masked(t', v)
    {
      assert MaskFree(t, v) && !Masked(t, v);
    }
    forall e | e in t'.edges
      ensures GoodEdge(t', e)
    {
      assert GoodEdge(t, e);
    }
  }

  lemma InternKeeps(t: Snapshot, id: string)
    requires Inv(t)
    ensures var t' := Intern(t, id);
            && Inv(t') && NamedAs(t', t'.ids[id], KindOf(id))
            && forall v: nat, k :: v < |t.vertices| ==> (NamedAs(t', v, k) <==> NamedAs(t, v, k))
  {
    var t' := Intern(t, id);
    forall v: nat, k | v < |t.vertices|
      ensures NamedAs(t', v, k) <==> NamedAs(t, v, k)
    {
      if NamedAs(t, v, k) {
        var id' :| id' in t.ids && t.ids[id'] == v && KindOf(id') == k;
        assert id' in t'.ids && t'.ids[id'] == v;
      }
    }
    assert id in t'.ids && KindOf(id) == KindOf(id);
    forall v: nat | MaskFree(t', v)
      ensures !Masked(t', v)
    {
      if v < |t.vertices| {
        assert MaskFree(t, v) && !Masked(t, v);
      }
    }
    forall e | e in t'.edges
      ensures GoodEdge(t', e)
    {
      assert GoodEdge(t, e);
    }
  }

  /** A name fixes the kind of its vertex. */
  lemma OneKind(t: Snapshot, v: nat, k: IdKind, k': IdKind)
    requires Valid(t) && NamedAs(t, v, k) && NamedAs(t, v, k')
    ensures k == k'
  {
  }

  /** A vertex may be rewritten if it stays without a mask, is a machine, is or becomes a rank, or has no edge
      into it yet. */
  lemma PutKeeps(t: Snapshot, v: nat, vertex: Vertex)
    requires Inv(t) && v < |t.vertices|
    requires MaskFree(t, v) ==> !Masked(Put(t, v, vertex), v)
    requires !Masked(Put(t, v, vertex), v) || NamedAs(t, v, MachineKind) || IsRank(Put(t, v, vertex), v)
             || forall e :: e in t.edges ==> e.target != v
    ensures Inv(Put(t, v, vertex))
  {
    var t' := Put(t, v, vertex);
    assert forall w, k :: NamedAs(t', w, k) == NamedAs(t, w, k);
    forall w | MaskFree(t', w)
      ensures !Masked(t', w)
    {
      assert MaskFree(t, w);
    }
    forall e | e in t'.edges
      ensures GoodEdge(t', e)
    {
      assert GoodEdge(t, e);
    }
  }

  lemma AddEdgesKeeps(t: Snapshot, es: seq<Edge>)
    requires Inv(t)
    requires forall e :: e in es ==> e.source < |t.vertices| && e.target < |t.vertices| && GoodEdge(t, e)
    ensures Inv(AddEdges(t, es))
  {
    var t' := AddEdges(t, es);
    assert forall w, k :: NamedAs(t', w, k) == NamedAs(t, w, k);
    forall e | e in t'.edges
      ensures GoodEdge(t', e)
    {
      assert e in t.edges || e in es;
      assert GoodEdge(t, e);
    }
    forall w | MaskFree(t', w)
      ensures !Masked(t', w)
    {
      assert MaskFree(t, w);
    }
  }

  lemma SetRootKeeps(t: Snapshot, v: nat)
    requires Inv(t) && v < |t.vertices|
    ensures Inv(t.(root := v))
  {
    var t' := t.(root := v);
    assert forall w, k :: NamedAs(t', w, k) == NamedAs(t, w, k);
    assert forall w :: MaskFree(t', w) ==> MaskFree(t, w);
    forall e | e in t'.edges
      ensures GoodEdge(t', e)
    {
      assert GoodEdge(t, e);
    }
  }
}
