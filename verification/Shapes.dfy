/** What the graph of a run looks like, in whatever order the modules have run: which module made a vertex or an edge
    can be told from names, and the tree that the hwloc step has built stands in it unchanged. */
module Shapes {
  import opened Components
  import opened FindDistances
  import opened Hwloc
  import opened HwlocDescent
  import opened HwlocTree
  import opened Identity
  import opened Invariants
  import P = Properties
  import opened Topology

  /** The tree of a machine and where it stands; `at` is empty as long as the hwloc step has not run. `ranked` tells
      whether the MPI step has run. */
  datatype Part = Part(machine: HwlocObj, slots: seq<Slot>, at: seq<nat>, ranked: bool)

  /** Vertices: ranks are those named as ranks, accelerators are named as devices, PUs are in the tree, masks are found
      on ranks and in the tree. */
  ghost predicate Kinds(t: Snapshot, part: Part) {
    && (forall v: nat :: IsRank(t, v) <==> NamedAs(t, v, RankKind))
    && (forall v: nat :: IsAcceleratorVertex(t, v) ==> NamedAs(t, v, BdfidKind))
    && (forall v: nat :: IsPu(t, v) ==> v in part.at)
    && (forall v: nat :: Masked(t, v) ==> NamedAs(t, v, RankKind) || v in part.at)
    && (forall v: nat :: v in part.at ==> !NamedAs(t, v, SystemKind) && !NamedAs(t, v, RankKind))
    && !NamedAs(t, t.root, RankKind)
    && (!part.ranked ==> forall v: nat :: !NamedAs(t, v, RankKind))
  }

  /** c hangs under p: a rank under its place, a network component or machine under a network component, or an object
      under its parent. */
  ghost predicate IsLink(t: Snapshot, part: Part, p: nat, c: nat) {
    || (NamedAs(t, c, RankKind) && !NamedAs(t, p, RankKind))
    || (NamedAs(t, p, SystemKind) && (NamedAs(t, c, SystemKind) || NamedAs(t, c, MachineKind)))
    || IsTreeLink(part, p, c)
  }

  ghost predicate IsTreeLink(part: Part, p: nat, c: nat) {
    exists i: nat :: i < |part.at| && part.at[i] == p && IsChildAt(part.slots, part.at, i, c)
  }

  ghost predicate EdgeKind(t: Snapshot, part: Part, e: Edge) {
    match e.edgeType
    case CHILD => IsLink(t, part, e.source, e.target)
    case PARENT => IsLink(t, part, e.target, e.source)
    case GPU_INTERCONNECT => NamedAs(t, e.source, BdfidKind) && NamedAs(t, e.target, BdfidKind)
  }

  ghost predicate EdgeKinds(t: Snapshot, part: Part) {
    forall e :: e in t.edges ==> EdgeKind(t, part, e)
  }

  /** A rank hangs under one vertex only. */
  ghost predicate Leaves(t: Snapshot) {
    forall e, e' :: e in t.edges && e' in t.edges && e.edgeType == CHILD && e'.edgeType == CHILD
                    && e.target == e'.target && NamedAs(t, e.target, RankKind)
                    ==> e.source == e'.source
  }

  /** The tree stands, with its objects' masks, below the root vertex; before the hwloc step the root is vertex 0. */
  ghost predicate Trunk(t: Snapshot, part: Part) {
    if part.at == [] then t.root == 0 && part.slots == []
    else
      && |part.at| == 1 + |part.slots| && ParentsPrecede(part.slots, 1) && t.root == part.at[0]
      && (forall j: nat :: 0 < j < |part.at| ==> ParentAt(part.slots, j) < j)
      && (forall i: nat :: i < |part.at| ==>
            part.at[i] < |t.vertices| && MaskOf(t, part.at[i]) == ObjectAt(part.machine, part.slots, i).cpuset)
      && (forall i, j :: 0 <= i < j < |part.at| ==> part.at[i] != part.at[j])
      && (forall j: nat :: 0 < j < |part.at| ==> Edge(part.at[ParentAt(part.slots, j)], part.at[j], CHILD) in t.edges)
  }

  ghost predicate Shape(t: Snapshot, part: Part) {
    Valid(t) && Kinds(t, part) && EdgeKinds(t, part) && Leaves(t) && Trunk(t, part)
  }

  lemma ShapeIsPlanted(t: Snapshot, part: Part)
    requires Shape(t, part) && part.at != []
    ensures Planted(t, part.machine, part.slots, part.at) && !IsRank(t, t.root)
  {
    forall i: nat, w: nat | i < |part.at| && Edge(part.at[i], w, CHILD) in t.edges && !IsRank(t, w)
      ensures IsChildAt(part.slots, part.at, i, w)
    {
      assert EdgeKind(t, part, Edge(part.at[i], w, CHILD));
      assert part.at[i] in part.at;
      var h: nat :| h < |part.at| && part.at[h] == part.at[i] && IsChildAt(part.slots, part.at, h, w);
    }
    forall i: nat | i < |part.at|
      ensures !IsRank(t, part.at[i])
    {
      assert part.at[i] in part.at;
    }
  }

  lemma EmptyShape(machine: HwlocObj)
    ensures Shape(EMPTY, Part(machine, [], [], false))
  {
  }

  // ---- names do not change under most operations

  ghost predicate SameNames(t: Snapshot, r: Snapshot) {
    forall v: nat, k :: NamedAs(r, v, k) <==> NamedAs(t, v, k)
  }

  lemma IdsGiveNames(t: Snapshot, r: Snapshot)
    requires r.ids == t.ids
    ensures SameNames(t, r)
  {
  }

  lemma SameEdgeKinds(t: Snapshot, r: Snapshot, part: Part, e: Edge)
    requires EdgeKind(t, part, e)
    requires forall v: nat, k :: v == e.source || v == e.target ==> (NamedAs(r, v, k) <==> NamedAs(t, v, k))
    ensures EdgeKind(r, part, e)
  {
  }

  /** A new name that is no rank's. */
  lemma InternShape(t: Snapshot, part: Part, id: string)
    requires Shape(t, part) && KindOf(id) != RankKind
    ensures var r := Intern(t, id); Shape(r, part) && NamedAs(r, r.ids[id], KindOf(id)) && r.ids[id] < |r.vertices|
  {
    var r := Intern(t, id);
    InternValid(t, id);
    assert NamedAs(r, r.ids[id], KindOf(id));
    if id !in t.ids {
      forall v: nat, k
        ensures NamedAs(r, v, k) <==> NamedAs(t, v, k) || (v == |t.vertices| && k == KindOf(id))
      {
        NewName(t, id, v, k);
      }
      InternKinds(t, r, part, id);
      forall e | e in r.edges
        ensures EdgeKind(r, part, e)
      {
        assert EdgeKind(t, part, e);
        SameEdgeKinds(t, r, part, e);
      }
    }
  }

  lemma NewName(t: Snapshot, id: string, v: nat, k: IdKind)
    requires Valid(t) && id !in t.ids
    ensures NamedAs(Intern(t, id), v, k) <==> NamedAs(t, v, k) || (v == |t.vertices| && k == KindOf(id))
  {
    var r := Intern(t, id);
    if NamedAs(t, v, k) {
      var other :| other in t.ids && t.ids[other] == v && KindOf(other) == k;
      assert other in r.ids && r.ids[other] == v;
    }
    if v == |t.vertices| && k == KindOf(id) {
      assert id in r.ids && r.ids[id] == v;
    }
  }

  lemma InternKinds(t: Snapshot, r: Snapshot, part: Part, id: string)
    requires Shape(t, part) && KindOf(id) != RankKind && id !in t.ids && r == Intern(t, id)
    requires forall v: nat, k :: NamedAs(r, v, k) <==> NamedAs(t, v, k) || (v == |t.vertices| && k == KindOf(id))
    ensures Kinds(r, part)
  {
    forall v: nat
      ensures IsRank(r, v) <==> IsRank(t, v)
      ensures IsAcceleratorVertex(r, v) <==> IsAcceleratorVertex(t, v)
      ensures IsPu(r, v) <==> IsPu(t, v)
      ensures Masked(r, v) <==> Masked(t, v)
    {
      BlankVertex(t, id, v);
    }
    forall v: nat | v in part.at
      ensures v < |t.vertices|
    {
    }
  }

  lemma BlankVertex(t: Snapshot, id: string, v: nat)
    requires id !in t.ids
    ensures var r := Intern(t, id);
            && (IsRank(r, v) <==> IsRank(t, v)) && (IsAcceleratorVertex(r, v) <==> IsAcceleratorVertex(t, v))
            && (IsPu(r, v) <==> IsPu(t, v)) && MaskOf(r, v) == MaskOf(t, v)
  {
  }

  /** A vertex that is no rank is rewritten, and keeps its mask. */
  lemma PutShape(t: Snapshot, part: Part, v: nat, vertex: Vertex)
    requires Shape(t, part) && v < |t.vertices| && !NamedAs(t, v, RankKind)
    requires P.CpuMask(vertex.adapters) == MaskOf(t, v) && !IsMPIProcess(vertex.componentType)
    requires IsAccelerator(vertex.componentType) ==> NamedAs(t, v, BdfidKind)
    requires IsLogicalCore(vertex.componentType) ==> v in part.at
    ensures Shape(Put(t, v, vertex), part) && SameNames(t, Put(t, v, vertex))
  {
    var r := Put(t, v, vertex);
    PutValid(t, v, vertex);
    IdsGiveNames(t, r);
    forall w: nat
      ensures MaskOf(r, w) == MaskOf(t, w)
      ensures w != v ==> (IsRank(r, w) <==> IsRank(t, w))
      ensures w != v ==> (IsAcceleratorVertex(r, w) <==> IsAcceleratorVertex(t, w)) && (IsPu(r, w) <==> IsPu(t, w))
    {
    }
    forall e | e in r.edges
      ensures EdgeKind(r, part, e)
    {
      SameEdgeKinds(t, r, part, e);
    }
  }

  lemma AddEdgesShape(t: Snapshot, part: Part, es: seq<Edge>)
    requires Shape(t, part)
    requires forall e :: e in es ==> e.source < |t.vertices| && e.target < |t.vertices| && EdgeKind(t, part, e)
    requires forall e :: e in es && e.edgeType == CHILD ==> !NamedAs(t, e.target, RankKind)
    ensures Shape(AddEdges(t, es), part) && SameNames(t, AddEdges(t, es))
  {
    var r := AddEdges(t, es);
    AddEdgesValid(t, es);
    IdsGiveNames(t, r);
    forall v: nat
      ensures MaskOf(r, v) == MaskOf(t, v) && (IsRank(r, v) <==> IsRank(t, v))
      ensures (IsAcceleratorVertex(r, v) <==> IsAcceleratorVertex(t, v)) && (IsPu(r, v) <==> IsPu(t, v))
    {
    }
    forall e | e in r.edges
      ensures EdgeKind(r, part, e) && (e in t.edges || e in es)
    {
      SameEdgeKinds(t, r, part, e);
    }
  }
}
