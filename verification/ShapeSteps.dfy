/** Every module step keeps the shape of the graph; the hwloc step plants its tree. */
module ShapeSteps {
  import opened Components
  import opened Descent
  import opened FindDistances
  import G = Gpu
  import opened Hwloc
  import opened Identity
  import opened Invariants
  import M = Mpi
  import opened Placement
  import P = Properties
  import opened Shapes
  import opened Sorting
  import S = Supermuc
  import opened Topology

  // ---- SuperMUC

  lemma NodeShape(t: Snapshot, part: Part, id: string, name: string, c: Component)
    requires Shape(t, part) && KindOf(id) in {MachineKind, SystemKind} && c in {Node, Misc}
    ensures var r := S.AddNode(t, id, name, c);
            && Shape(r, part) && t.ids.Keys + {id} <= r.ids.Keys
  {
    var named := Intern(t, id);
    var v := named.ids[id];
    InternShape(t, part, id);
    if NamedAs(named, v, RankKind) {
      OneKind(named, v, KindOf(id), RankKind);
    }
    P.CpuMaskAppend(At(named, v).adapters, S.SupermucAdapter(name));
    PutShape(named, part, v, Vertex(At(named, v).adapters + [S.SupermucAdapter(name)], name, c));
  }

  lemma LinkShape(t: Snapshot, part: Part, parent: nat, child: nat)
    requires Shape(t, part) && parent < |t.vertices| && child < |t.vertices|
    requires NamedAs(t, parent, SystemKind) && (NamedAs(t, child, SystemKind) || NamedAs(t, child, MachineKind))
    ensures var r := S.LinkOnce(t, parent, child); Shape(r, part) && r.ids == t.ids && |r.vertices| == |t.vertices|
  {
    if !HasEdge(t.edges, parent, child) {
      NewLinkShape(t, part, parent, child);
    }
  }

  lemma NewLinkShape(t: Snapshot, part: Part, parent: nat, child: nat)
    requires Shape(t, part) && parent < |t.vertices| && child < |t.vertices|
    requires NamedAs(t, parent, SystemKind) && (NamedAs(t, child, SystemKind) || NamedAs(t, child, MachineKind))
    ensures Shape(AddEdges(t, ParentChild(parent, child)), part)
  {
    LinkKinds(t, part, parent, child);
    AddEdgesShape(t, part, ParentChild(parent, child));
  }

  lemma LinkKinds(t: Snapshot, part: Part, parent: nat, child: nat)
    requires Valid(t) && NamedAs(t, parent, SystemKind)
    requires NamedAs(t, child, SystemKind) || NamedAs(t, child, MachineKind)
    ensures forall e :: e in ParentChild(parent, child) ==>
              EdgeKind(t, part, e) && (e.edgeType == CHILD ==> !NamedAs(t, e.target, RankKind))
  {
    if NamedAs(t, child, RankKind) {
      OneKind(t, child, if NamedAs(t, child, SystemKind) then SystemKind else MachineKind, RankKind);
    }
  }

  lemma NodesShape(t: Snapshot, part: Part, id1: string, id2: string, id3: string, id4: string,
                   name1: string, name2: string, name3: string, name4: string)
    requires Shape(t, part) && KindOf(id1) == MachineKind
    requires KindOf(id2) == KindOf(id3) == KindOf(id4) == SystemKind
    ensures var r := S.AddNodes(t, id1, id2, id3, id4, name1, name2, name3, name4);
            Shape(r, part) && {id1, id2, id3, id4} <= r.ids.Keys
  {
    var t2 := S.AddNode(S.AddNode(t, id1, name1, Node), id2, name2, Misc);
    TwoNodesShape(t, part, id1, name1, Node, id2, name2, Misc);
    TwoNodesShape(t2, part, id3, name3, Misc, id4, name4, Misc);
  }

  lemma TwoNodesShape(t: Snapshot, part: Part, id1: string, name1: string, c1: Component,
                      id2: string, name2: string, c2: Component)
    requires Shape(t, part) && c1 in {Node, Misc} && c2 in {Node, Misc}
    requires KindOf(id1) in {MachineKind, SystemKind} && KindOf(id2) in {MachineKind, SystemKind}
    ensures var r := S.AddNode(S.AddNode(t, id1, name1, c1), id2, name2, c2);
            Shape(r, part) && t.ids.Keys + {id1, id2} <= r.ids.Keys
  {
    NodeShape(t, part, id1, name1, c1);
    NodeShape(S.AddNode(t, id1, name1, c1), part, id2, name2, c2);
  }

  lemma LinksShape(t: Snapshot, part: Part, slot: string, column: string, rack: string, island: string)
    requires Shape(t, part) && {slot, column, rack, island} <= t.ids.Keys && KindOf(slot) == MachineKind
    requires KindOf(column) == KindOf(rack) == KindOf(island) == SystemKind
    ensures Shape(S.LinkNodes(t, slot, column, rack, island), part)
  {
    var (s, c, k, i) := (t.ids[slot], t.ids[column], t.ids[rack], t.ids[island]);
    var t1 := S.LinkOnce(t, i, k);
    var t2 := S.LinkOnce(t1, k, c);
    assert NamedAs(t, s, MachineKind) && NamedAs(t, c, SystemKind);
    assert NamedAs(t, k, SystemKind) && NamedAs(t, i, SystemKind);
    LinkShape(t, part, i, k);
    IdsGiveNames(t, t1);
    LinkShape(t1, part, k, c);
    IdsGiveNames(t, t2);
    LinkShape(t2, part, c, s);
  }

  lemma HostShape(t: Snapshot, part: Part, name: string)
    requires Shape(t, part)
    ensures Shape(S.AddHost(t, name), part)
  {
    var (column, rack, island) := (S.Take(name, 9), S.Take(name, 6), S.Take(name, 3));
    IdKinds(name, column, 0, 0);
    IdKinds(name, rack, 0, 0);
    IdKinds(name, island, 0, 0);
    NodesShape(t, part, MachineId(name), SystemId(column), SystemId(rack), SystemId(island),
               name, column, rack, island);
    var nodes := S.AddNodes(t, MachineId(name), SystemId(column), SystemId(rack), SystemId(island),
                            name, column, rack, island);
    LinksShape(nodes, part, MachineId(name), SystemId(column), SystemId(rack), SystemId(island));
  }

  lemma {:induction false} HostsShape(t: Snapshot, part: Part, names: seq<string>)
    requires Shape(t, part)
    ensures Shape(S.AddHosts(t, names), part)
  {
    if names != [] {
      HostsShape(t, part, names[..|names| - 1]);
      HostShape(S.AddHosts(t, names[..|names| - 1]), part, names[|names| - 1]);
    }
  }

  // ---- GPU modules

  lemma DeviceShape(t: Snapshot, part: Part, m: G.GpuModule, d: G.Device)
    requires Shape(t, part)
    ensures var r := G.AddDevice(t, m, d); var id := BdfidId(d.bdfid);
            && Shape(r, part) && r.ids == Intern(t, id).ids && |t.vertices| <= |r.vertices|
            && r.ids[id] < |r.vertices| && NamedAs(r, r.ids[id], BdfidKind)
            && forall v: nat, k :: v < |t.vertices| && NamedAs(t, v, k) ==> NamedAs(r, v, k)
  {
    var id := BdfidId(d.bdfid);
    var named := Intern(t, id);
    var v := named.ids[id];
    IdKinds("", "", 0, d.bdfid);
    InternShape(t, part, id);
    NamesKept(t, id);
    if NamedAs(named, v, RankKind) {
      OneKind(named, v, BdfidKind, RankKind);
    }
    P.CpuMaskAppend(At(named, v).adapters, G.DeviceAdapter(d));
    PutShape(named, part, v, G.DeviceVertex(At(named, v), m, d));
  }

  lemma NamesKept(t: Snapshot, id: string)
    requires Valid(t)
    ensures forall v: nat, k :: NamedAs(t, v, k) ==> NamedAs(Intern(t, id), v, k)
  {
    if id !in t.ids {
      forall v: nat, k | NamedAs(t, v, k)
        ensures NamedAs(Intern(t, id), v, k)
      {
        NewName(t, id, v, k);
      }
    }
  }

  ghost predicate AreDevices(t: Snapshot, vertices: seq<nat>) {
    forall v :: v in vertices ==> v < |t.vertices| && NamedAs(t, v, BdfidKind)
  }

  lemma {:induction false} DevicesShape(t: Snapshot, part: Part, m: G.GpuModule, devices: seq<G.Device>)
    requires Shape(t, part)
    ensures Shape(G.AddDevices(t, m, devices), part)
    ensures AreDevices(G.AddDevices(t, m, devices), G.DeviceVertices(t, m, devices))
  {
    if devices != [] {
      var n := |devices| - 1;
      DevicesShape(t, part, m, devices[..n]);
      OneMoreDevice(G.AddDevices(t, m, devices[..n]), part, m, devices[n], G.DeviceVertices(t, m, devices[..n]));
    }
  }

  lemma OneMoreDevice(t: Snapshot, part: Part, m: G.GpuModule, d: G.Device, vertices: seq<nat>)
    requires Shape(t, part) && AreDevices(t, vertices)
    ensures var r := G.AddDevice(t, m, d);
            Shape(r, part) && AreDevices(r, vertices + [Intern(t, BdfidId(d.bdfid)).ids[BdfidId(d.bdfid)]])
  {
    DeviceShape(t, part, m, d);
  }

  lemma LinkEnds(vertices: seq<nat>, link: G.Links, e: Edge)
    requires e in G.LinkEdges(vertices, link, |vertices|)
    ensures e.edgeType == GPU_INTERCONNECT && e.source in vertices && e.target in vertices
  {
    G.LinkEdgesHave(vertices, link, |vertices|, e);
  }

  lemma GpuShape(t: Snapshot, part: Part, m: G.GpuModule, devices: seq<G.Device>, link: G.Links)
    requires Shape(t, part)
    ensures Shape(G.GpuInit(t, m, devices, link), part)
  {
    DevicesShape(t, part, m, devices);
    InterconnectsShape(G.AddDevices(t, m, devices), part, G.DeviceVertices(t, m, devices), link);
  }

  lemma InterconnectsShape(t: Snapshot, part: Part, vertices: seq<nat>, link: G.Links)
    requires Shape(t, part) && AreDevices(t, vertices)
    ensures Shape(AddEdges(t, G.LinkEdges(vertices, link, |vertices|)), part)
  {
    var es := G.LinkEdges(vertices, link, |vertices|);
    forall e | e in es
      ensures e.source < |t.vertices| && e.target < |t.vertices| && EdgeKind(t, part, e) && e.edgeType != CHILD
    {
      LinkEnds(vertices, link, e);
    }
    AddEdgesShape(t, part, es);
  }

  // ---- MPI

  lemma FreshRanks(t: Snapshot, part: Part)
    requires Shape(t, part) && !part.ranked
    ensures RanksFresh(t, 0)
  {
    forall j: nat
      ensures RankId(j) !in t.ids
    {
      IdKinds("", "", j, 0);
      if RankId(j) in t.ids {
        assert NamedAs(t, t.ids[RankId(j)], RankKind);
      }
    }
  }

  /** Where the ranks start, the graph need not have any. */
  lemma RankedShape(t: Snapshot, part: Part)
    requires Shape(t, part)
    ensures Shape(t, part.(ranked := true))
  {
    forall e | e in t.edges
      ensures EdgeKind(t, part.(ranked := true), e)
    {
      assert EdgeKind(t, part, e);
      SamePart(t, part, e);
    }
  }

  lemma SamePart(t: Snapshot, part: Part, e: Edge)
    requires EdgeKind(t, part, e)
    ensures EdgeKind(t, part.(ranked := true), e)
  {
    var other := part.(ranked := true);
    assert forall p: nat, c: nat :: IsTreeLink(part, p, c) ==> IsTreeLink(other, p, c);
  }

  /** A new rank: its machine interned, and a vertex of its own. */
  lemma SetUpShape(t: Snapshot, part: Part, env: M.Local, i: nat, r: M.Rank)
    requires Shape(t, part) && part.ranked && RankId(i) !in t.ids
    ensures var s := M.SetUpRank(t, env, i, r);
            && Shape(s, part) && s.edges == t.edges && RankId(i) in s.ids && MachineId(r.hostname) in s.ids
            && |t.vertices| <= s.ids[RankId(i)] < |s.vertices| && NamedAs(s, s.ids[RankId(i)], RankKind)
            && s.ids[MachineId(r.hostname)] < |s.vertices| && NamedAs(s, s.ids[MachineId(r.hostname)], MachineKind)
  {
    var t1 := Intern(t, MachineId(r.hostname));
    IdKinds(r.hostname, "", i, 0);
    InternShape(t, part, MachineId(r.hostname));
    assert RankId(i) !in t1.ids && |t1.vertices| > 0;
    NewRankShape(t1, part, RankId(i), RankVertexOf(env, i, r));
    NamesKept(t1, RankId(i));
    var s := M.SetUpRank(t, env, i, r);
    IdsGiveNames(Intern(t1, RankId(i)), s);
  }

  function RankVertexOf(env: M.Local, i: nat, r: M.Rank): Vertex {
    M.RankVertex(BLANK_VERTEX, i, M.LocalMask(env, r))
  }

  lemma NewRankShape(t: Snapshot, part: Part, id: string, vertex: Vertex)
    requires Shape(t, part) && part.ranked && id !in t.ids && KindOf(id) == RankKind && |t.vertices| > 0
    requires vertex.componentType == MPIProcess
    ensures var s := Put(Intern(t, id), |t.vertices|, vertex);
            Shape(s, part) && s.ids[id] == |t.vertices| && NamedAs(s, |t.vertices|, RankKind)
  {
    var named := Intern(t, id);
    var s := Put(named, |t.vertices|, vertex);
    InternValid(t, id);
    PutValid(named, |t.vertices|, vertex);
    forall v: nat, k
      ensures NamedAs(s, v, k) <==> NamedAs(t, v, k) || (v == |t.vertices| && k == RankKind)
    {
      NewName(t, id, v, k);
      IdsGiveNames(named, s);
    }
    forall v: nat
      ensures IsRank(s, v) <==> IsRank(t, v) || v == |t.vertices|
      ensures (IsAcceleratorVertex(s, v) <==> IsAcceleratorVertex(t, v)) && (IsPu(s, v) <==> IsPu(t, v))
      ensures v != |t.vertices| ==> MaskOf(s, v) == MaskOf(t, v)
    {
    }
    NewRankKinds(t, s, part);
    forall e | e in s.edges
      ensures EdgeKind(s, part, e)
    {
      assert EdgeKind(t, part, e);
      SameEdgeKinds(t, s, part, e);
    }
  }

  lemma NewRankKinds(t: Snapshot, s: Snapshot, part: Part)
    requires Shape(t, part) && part.ranked && |t.vertices| > 0 && s.root == t.root
    requires forall v: nat, k :: NamedAs(s, v, k) <==> NamedAs(t, v, k) || (v == |t.vertices| && k == RankKind)
    requires forall v: nat :: IsRank(s, v) <==> IsRank(t, v) || v == |t.vertices|
    requires forall v: nat :: (IsAcceleratorVertex(s, v) <==> IsAcceleratorVertex(t, v)) && (IsPu(s, v) <==> IsPu(t, v))
    requires forall v: nat :: v != |t.vertices| ==> MaskOf(s, v) == MaskOf(t, v)
    ensures Kinds(s, part)
  {
    assert forall v: nat :: v in part.at ==> v < |t.vertices|;
  }

  /** The two edges of a new rank. */
  lemma RankEdgesShape(t: Snapshot, part: Part, place: nat, proc: nat)
    requires Shape(t, part) && place < |t.vertices| && proc < |t.vertices|
    requires NamedAs(t, proc, RankKind) && !NamedAs(t, place, RankKind)
    requires forall e :: e in t.edges ==> e.target != proc
    ensures Shape(AddEdges(t, ParentChild(place, proc)), part)
  {
    var es := ParentChild(place, proc);
    var r := AddEdges(t, es);
    AddEdgesValid(t, es);
    IdsGiveNames(t, r);
    SameVertices(t, r, part);
    forall e | e in r.edges
      ensures EdgeKind(r, part, e)
    {
      assert e in t.edges || e in es;
      SameEdgeKinds(t, r, part, e);
    }
    OneMoreLeaf(t, r, place, proc);
  }

  lemma SameVertices(t: Snapshot, r: Snapshot, part: Part)
    requires Kinds(t, part) && Trunk(t, part) && SameNames(t, r)
    requires r.vertices == t.vertices && r.root == t.root && t.edges <= r.edges
    ensures Kinds(r, part) && Trunk(r, part)
  {
    forall v: nat
      ensures MaskOf(r, v) == MaskOf(t, v) && (IsRank(r, v) <==> IsRank(t, v))
      ensures (IsAcceleratorVertex(r, v) <==> IsAcceleratorVertex(t, v)) && (IsPu(r, v) <==> IsPu(t, v))
    {
    }
    assert forall e :: e in t.edges ==> e in r.edges;
  }

  lemma OneMoreLeaf(t: Snapshot, r: Snapshot, place: nat, proc: nat)
    requires Leaves(t) && SameNames(t, r) && r.edges == t.edges + ParentChild(place, proc)
    requires forall e :: e in t.edges ==> e.target != proc
    ensures Leaves(r)
  {
    assert forall e :: e in r.edges ==> e in t.edges || e in ParentChild(place, proc);
  }

  lemma RankShape(t: Snapshot, part: Part, env: M.Local, i: nat, r: M.Rank)
    requires Inv(t) && Shape(t, part) && part.ranked && Sorts(env.order) && RankId(i) !in t.ids
    ensures Shape(M.AddRank(t, env, i, r), part)
  {
    M.SetUpRankKeeps(t, env, i, r);
    SetUpShape(t, part, env, i, r);
    var s := M.SetUpRank(t, env, i, r);
    var place, proc := M.Place(s, env, r), s.ids[RankId(i)];
    PlaceIsNoRank(s, part, env, r);
    RankEdgesShape(s, part, place, proc);
  }

  lemma PlaceIsNoRank(s: Snapshot, part: Part, env: M.Local, r: M.Rank)
    requires Shape(s, part) && Ascending(s) && Sorts(env.order) && s.root < |s.vertices|
    requires MachineId(r.hostname) in s.ids && NamedAs(s, s.ids[MachineId(r.hostname)], MachineKind)
    ensures M.Place(s, env, r) < |s.vertices| && !NamedAs(s, M.Place(s, env, r), RankKind)
  {
    var place := M.Place(s, env, r);
    if M.LocalMask(env, r) == {} {
      if NamedAs(s, place, RankKind) {
        OneKind(s, place, MachineKind, RankKind);
      }
    } else {
      var p := DescentIsMaximalChain(s, env.order, M.LocalMask(env, r), s.root);
    }
  }

  lemma {:induction false} RanksShape(t: Snapshot, part: Part, env: M.Local, ranks: seq<M.Rank>)
    requires Inv(t) && Shape(t, part) && !part.ranked && Sorts(env.order)
    ensures Shape(M.AddRanks(t, env, ranks), part.(ranked := true))
  {
    if ranks == [] {
      RankedShape(t, part);
    } else {
      var n := |ranks| - 1;
      RanksShape(t, part, env, ranks[..n]);
      FreshRanks(t, part);
      PlacementIsStable(t, env, ranks[..n]);
      RankShape(M.AddRanks(t, env, ranks[..n]), part.(ranked := true), env, n, ranks[n]);
    }
  }
}
