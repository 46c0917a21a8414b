/** Whatever a module step does, the graph only grows: names keep their vertices, adapters and edges stay where they
    are. Only the MPI step touches ranks, only the GPU steps add direct connections. */
module Growth {
  import opened Components
  import G = Gpu
  import H = Hwloc
  import opened Identity
  import opened Invariants
  import M = Mpi
  import opened Sorting
  import S = Supermuc
  import opened Topology

  ghost predicate Extended(t: Snapshot, r: Snapshot) {
    && |t.vertices| <= |r.vertices| && t.edges <= r.edges
    && (forall id :: id in t.ids ==> id in r.ids && r.ids[id] == t.ids[id])
    && (forall id :: id in r.ids && id !in t.ids ==> |t.vertices| <= r.ids[id])
    && (forall v: nat :: v < |t.vertices| ==> t.vertices[v].adapters <= r.vertices[v].adapters)
    && (forall v: nat :: v < |t.vertices| && NamedAs(t, v, RankKind) && IsRank(t, v) ==> IsRank(r, v))
  }

  ghost predicate RanksStay(t: Snapshot, r: Snapshot) {
    forall v: nat :: v < |t.vertices| && NamedAs(t, v, RankKind) ==> v < |r.vertices| && r.vertices[v] == t.vertices[v]
  }

  ghost predicate LinksStay(t: Snapshot, r: Snapshot) {
    forall e :: e in r.edges && e.edgeType == GPU_INTERCONNECT ==> e in t.edges
  }

  /** `r` has grown from `t`; ranks may have changed only if `ranks`, connections been added only if `links`. */
  ghost predicate Grows(t: Snapshot, r: Snapshot, ranks: bool, links: bool) {
    Extended(t, r) && (ranks || RanksStay(t, r)) && (links || LinksStay(t, r))
  }

  lemma GrowsNot(t: Snapshot)
    ensures Grows(t, t, false, false)
  {
  }

  lemma NameStays(t: Snapshot, r: Snapshot, v: nat, k: IdKind)
    requires Extended(t, r) && NamedAs(t, v, k)
    ensures NamedAs(r, v, k)
  {
    var id :| id in t.ids && t.ids[id] == v && KindOf(id) == k;
    assert id in r.ids && r.ids[id] == v;
  }

  lemma ExtendedOn(t: Snapshot, s: Snapshot, r: Snapshot)
    requires Extended(t, s) && Extended(s, r)
    ensures Extended(t, r)
  {
    forall v: nat | v < |t.vertices|
      ensures t.vertices[v].adapters <= r.vertices[v].adapters
    {
      assert t.vertices[v].adapters <= s.vertices[v].adapters <= r.vertices[v].adapters;
    }
    forall v: nat | v < |t.vertices| && NamedAs(t, v, RankKind) && IsRank(t, v)
      ensures IsRank(r, v)
    {
      NameStays(t, s, v, RankKind);
    }
  }

  lemma GrowsOn(t: Snapshot, s: Snapshot, r: Snapshot, ranks: bool, links: bool)
    requires Grows(t, s, ranks, links) && Grows(s, r, ranks, links)
    ensures Grows(t, r, ranks, links)
  {
    ExtendedOn(t, s, r);
    if !ranks {
      forall v: nat | v < |t.vertices| && NamedAs(t, v, RankKind)
        ensures v < |r.vertices| && r.vertices[v] == t.vertices[v]
      {
        NameStays(t, s, v, RankKind);
      }
    }
  }

  lemma GrowsAlso(t: Snapshot, r: Snapshot, ranks: bool, links: bool)
    requires Grows(t, r, false, false)
    ensures Grows(t, r, ranks, links)
  {
  }

  // ---- single operations

  lemma AddUnnamedGrows(t: Snapshot)
    ensures Grows(t, AddUnnamed(t), false, false)
  {
  }

  lemma InternGrows(t: Snapshot, id: string)
    requires Valid(t)
    ensures var r := Intern(t, id); Grows(t, r, false, false) && Valid(r) && r.ids[id] < |r.vertices|
    ensures NamedAs(Intern(t, id), Intern(t, id).ids[id], KindOf(id))
  {
    InternValid(t, id);
    assert id in Intern(t, id).ids;
  }

  lemma PutGrows(t: Snapshot, v: nat, vertex: Vertex)
    requires At(t, v).adapters <= vertex.adapters
    requires NamedAs(t, v, RankKind) ==> IsMPIProcess(vertex.componentType)
    ensures Grows(t, Put(t, v, vertex), true, false)
    ensures !NamedAs(t, v, RankKind) ==> Grows(t, Put(t, v, vertex), false, false)
  {
  }

  lemma AddEdgesGrows(t: Snapshot, es: seq<Edge>)
    ensures Grows(t, AddEdges(t, es), false, true)
    ensures (forall e :: e in es ==> e.edgeType != GPU_INTERCONNECT) ==> Grows(t, AddEdges(t, es), false, false)
  {
  }

  /** A name interned, its vertex rewritten. */
  lemma NodeGrows(t: Snapshot, id: string, vertex: Vertex)
    requires Valid(t) && At(Intern(t, id), Intern(t, id).ids[id]).adapters <= vertex.adapters
    requires KindOf(id) == RankKind ==> IsMPIProcess(vertex.componentType)
    ensures var r := Put(Intern(t, id), Intern(t, id).ids[id], vertex);
            Valid(r) && Grows(t, r, KindOf(id) == RankKind, false)
  {
    var named := Intern(t, id);
    var v := named.ids[id];
    InternGrows(t, id);
    PutValid(named, v, vertex);
    if NamedAs(named, v, RankKind) {
      OneKind(named, v, KindOf(id), RankKind);
    }
    PutGrows(named, v, vertex);
    GrowsAlso(t, named, KindOf(id) == RankKind, false);
    GrowsOn(t, named, Put(named, v, vertex), KindOf(id) == RankKind, false);
  }

  // ---- SuperMUC

  lemma AddNodeGrows(t: Snapshot, id: string, name: string, c: Component)
    requires Valid(t) && KindOf(id) in {MachineKind, SystemKind}
    ensures var r := S.AddNode(t, id, name, c); Valid(r) && Grows(t, r, false, false) && t.ids.Keys + {id} <= r.ids.Keys
  {
    var named := Intern(t, id);
    NodeGrows(t, id, Vertex(At(named, named.ids[id]).adapters + [S.SupermucAdapter(name)], name, c));
  }

  lemma LinkOnceGrows(t: Snapshot, parent: nat, child: nat)
    requires Valid(t) && parent < |t.vertices| && child < |t.vertices|
    ensures var r := S.LinkOnce(t, parent, child);
            Valid(r) && Grows(t, r, false, false) && r.ids == t.ids && r.vertices == t.vertices
  {
    AddEdgesValid(t, ParentChild(parent, child));
    AddEdgesGrows(t, ParentChild(parent, child));
    GrowsNot(t);
  }

  lemma TwoNodesGrow(t: Snapshot, id1: string, name1: string, c1: Component, id2: string, name2: string, c2: Component)
    requires Valid(t) && KindOf(id1) in {MachineKind, SystemKind} && KindOf(id2) in {MachineKind, SystemKind}
    ensures var r := S.AddNode(S.AddNode(t, id1, name1, c1), id2, name2, c2);
            Valid(r) && Grows(t, r, false, false) && t.ids.Keys + {id1, id2} <= r.ids.Keys
  {
    var s := S.AddNode(t, id1, name1, c1);
    AddNodeGrows(t, id1, name1, c1);
    AddNodeGrows(s, id2, name2, c2);
    GrowsOn(t, s, S.AddNode(s, id2, name2, c2), false, false);
  }

  lemma NodesGrow(t: Snapshot, id1: string, id2: string, id3: string, id4: string,
                  name1: string, name2: string, name3: string, name4: string)
    requires Valid(t) && KindOf(id1) == MachineKind && KindOf(id2) == KindOf(id3) == KindOf(id4) == SystemKind
    ensures var r := S.AddNodes(t, id1, id2, id3, id4, name1, name2, name3, name4);
            Valid(r) && Grows(t, r, false, false) && {id1, id2, id3, id4} <= r.ids.Keys
  {
    var s := S.AddNode(S.AddNode(t, id1, name1, Node), id2, name2, Misc);
    TwoNodesGrow(t, id1, name1, Node, id2, name2, Misc);
    TwoNodesGrow(s, id3, name3, Misc, id4, name4, Misc);
    GrowsOn(t, s, S.AddNodes(t, id1, id2, id3, id4, name1, name2, name3, name4), false, false);
  }

  lemma LinkNodesGrows(t: Snapshot, slot: string, column: string, rack: string, island: string)
    requires Valid(t) && {slot, column, rack, island} <= t.ids.Keys
    ensures var r := S.LinkNodes(t, slot, column, rack, island); Valid(r) && Grows(t, r, false, false) && r.ids == t.ids
  {
    var (s, c, k, i) := (t.ids[slot], t.ids[column], t.ids[rack], t.ids[island]);
    var t1 := S.LinkOnce(t, i, k);
    var t2 := S.LinkOnce(t1, k, c);
    LinkOnceGrows(t, i, k);
    LinkOnceGrows(t1, k, c);
    LinkOnceGrows(t2, c, s);
    GrowsOn(t, t1, t2, false, false);
    GrowsOn(t, t2, S.LinkOnce(t2, c, s), false, false);
  }

  lemma AddHostGrows(t: Snapshot, name: string)
    requires Valid(t)
    ensures Valid(S.AddHost(t, name)) && Grows(t, S.AddHost(t, name), false, false)
  {
    var (column, rack, island) := (S.Take(name, 9), S.Take(name, 6), S.Take(name, 3));
    IdKinds(name, column, 0, 0);
    IdKinds(name, rack, 0, 0);
    IdKinds(name, island, 0, 0);
    NodesGrow(t, MachineId(name), SystemId(column), SystemId(rack), SystemId(island), name, column, rack, island);
    var nodes := S.AddNodes(t, MachineId(name), SystemId(column), SystemId(rack), SystemId(island),
                            name, column, rack, island);
    LinkNodesGrows(nodes, MachineId(name), SystemId(column), SystemId(rack), SystemId(island));
    GrowsOn(t, nodes, S.AddHost(t, name), false, false);
  }

  lemma {:induction false} AddHostsGrows(t: Snapshot, names: seq<string>)
    requires Valid(t)
    ensures Valid(S.AddHosts(t, names)) && Grows(t, S.AddHosts(t, names), false, false)
  {
    if names == [] {
      GrowsNot(t);
    } else {
      var earlier := S.AddHosts(t, names[..|names| - 1]);
      AddHostsGrows(t, names[..|names| - 1]);
      AddHostGrows(earlier, names[|names| - 1]);
      GrowsOn(t, earlier, S.AddHosts(t, names), false, false);
    }
  }

  // ---- hwloc

  lemma AddObjectGrows(t: Snapshot, parent: nat, obj: H.HwlocObj)
    requires Valid(t) && parent < |t.vertices|
    ensures var (r, v) := H.AddObject(t, parent, obj); Valid(r) && Grows(t, r, false, false) && v < |r.vertices|
  {
    var v := H.VertexFor(t, obj);
    H.AddObjectValid(t, parent, obj);
    if H.IsPci(obj) {
      var named := Intern(t, H.IdOf(obj));
      IdKinds("", "", 0, Pack(obj.address));
      NodeGrows(t, H.IdOf(obj), H.Decorate(At(named, v), obj));
      WithEdges(t, Put(named, v, H.Decorate(At(named, v), obj)), ParentChild(parent, v));
    } else {
      NewGrows(t, H.Decorate(BLANK_VERTEX, obj));
      WithEdges(t, Put(AddUnnamed(t), v, H.Decorate(BLANK_VERTEX, obj)), ParentChild(parent, v));
    }
  }

  lemma NewGrows(t: Snapshot, vertex: Vertex)
    requires Valid(t)
    ensures Grows(t, Put(AddUnnamed(t), |t.vertices|, vertex), false, false)
  {
  }

  lemma WithEdges(t: Snapshot, s: Snapshot, es: seq<Edge>)
    requires Grows(t, s, false, false) && forall e :: e in es ==> e.edgeType != GPU_INTERCONNECT
    ensures Grows(t, AddEdges(s, es), false, false)
  {
    AddEdgesGrows(s, es);
    GrowsOn(t, s, AddEdges(s, es), false, false);
  }

  lemma {:induction false} SubtreeGrows(t: Snapshot, parent: nat, cs: seq<H.HwlocObj>)
    requires Valid(t) && parent < |t.vertices|
    ensures Valid(H.Subtree(t, parent, cs)) && Grows(t, H.Subtree(t, parent, cs), false, false)
    decreases cs
  {
    if cs == [] {
      GrowsNot(t);
    } else {
      var (added, v) := H.AddObject(t, parent, cs[0]);
      var below := H.Subtree(added, v, cs[0].children);
      AddObjectGrows(t, parent, cs[0]);
      SubtreeGrows(added, v, cs[0].children);
      SubtreeGrows(below, parent, cs[1..]);
      GrowsOn(t, added, below, false, false);
      GrowsOn(t, below, H.Subtree(t, parent, cs), false, false);
    }
  }

  lemma RootSetUpGrows(t: Snapshot, hostname: string, machine: H.HwlocObj)
    requires Valid(t)
    ensures var r := H.RootSetUp(t, hostname, machine); Valid(r) && Grows(t, r, false, false) && r.root < |r.vertices|
  {
    var named := Intern(t, MachineId(hostname));
    var v := named.ids[MachineId(hostname)];
    var vertex := H.RootVertex(At(named, v), hostname, machine);
    IdKinds(hostname, "", 0, 0);
    InternValid(t, MachineId(hostname));
    NodeGrows(t, MachineId(hostname), vertex);
    NewRootGrows(t, Put(named, v, vertex), v);
  }

  lemma NewRootGrows(t: Snapshot, s: Snapshot, v: nat)
    requires Valid(s) && Grows(t, s, false, false) && v < |s.vertices|
    ensures Valid(s.(root := v)) && Grows(t, s.(root := v), false, false)
  {
    SameGrows(t, s, s.(root := v));
  }

  lemma SameGrows(t: Snapshot, s: Snapshot, r: Snapshot)
    requires Grows(t, s, false, false) && r.vertices == s.vertices && r.edges == s.edges && r.ids == s.ids
    ensures Grows(t, r, false, false)
  {
    forall v: nat | IsRank(s, v)
      ensures IsRank(r, v)
    {
    }
  }

  lemma HwlocInitGrows(t: Snapshot, hostname: string, machine: H.HwlocObj)
    requires Valid(t)
    ensures var r := H.HwlocInit(t, hostname, machine); Valid(r) && Grows(t, r, false, false)
  {
    var start := H.RootSetUp(t, hostname, machine);
    RootSetUpGrows(t, hostname, machine);
    SubtreeGrows(start, start.root, machine.children);
    GrowsOn(t, start, H.HwlocInit(t, hostname, machine), false, false);
  }

  // ---- GPU modules

  lemma AddDeviceGrows(t: Snapshot, m: G.GpuModule, d: G.Device)
    requires Valid(t)
    ensures Valid(G.AddDevice(t, m, d)) && Grows(t, G.AddDevice(t, m, d), false, false)
  {
    var named := Intern(t, BdfidId(d.bdfid));
    IdKinds("", "", 0, d.bdfid);
    NodeGrows(t, BdfidId(d.bdfid), G.DeviceVertex(At(named, named.ids[BdfidId(d.bdfid)]), m, d));
  }

  lemma {:induction false} AddDevicesGrows(t: Snapshot, m: G.GpuModule, devices: seq<G.Device>)
    requires Valid(t)
    ensures Valid(G.AddDevices(t, m, devices)) && Grows(t, G.AddDevices(t, m, devices), false, false)
  {
    if devices == [] {
      GrowsNot(t);
    } else {
      var earlier := G.AddDevices(t, m, devices[..|devices| - 1]);
      AddDevicesGrows(t, m, devices[..|devices| - 1]);
      AddDeviceGrows(earlier, m, devices[|devices| - 1]);
      GrowsOn(t, earlier, G.AddDevices(t, m, devices), false, false);
    }
  }

  lemma GpuInitGrows(t: Snapshot, m: G.GpuModule, devices: seq<G.Device>, link: G.Links)
    requires Valid(t)
    ensures Grows(t, G.GpuInit(t, m, devices, link), false, true)
  {
    var r := G.AddDevices(t, m, devices);
    AddDevicesGrows(t, m, devices);
    GrowsAlso(t, r, false, true);
    AddEdgesGrows(r, G.LinkEdges(G.DeviceVertices(t, m, devices), link, |devices|));
    GrowsOn(t, r, G.GpuInit(t, m, devices, link), false, true);
  }

  // ---- MPI

  lemma SetUpRankGrows(t: Snapshot, env: M.Local, i: nat, r: M.Rank)
    requires Valid(t)
    ensures Grows(t, M.SetUpRank(t, env, i, r), true, false)
  {
    var t1 := Intern(t, MachineId(r.hostname));
    var t2 := Intern(t1, RankId(i));
    IdKinds(r.hostname, "", i, 0);
    InternGrows(t, MachineId(r.hostname));
    GrowsAlso(t, t1, true, false);
    NodeGrows(t1, RankId(i), M.RankVertex(At(t2, t2.ids[RankId(i)]), i, M.LocalMask(env, r)));
    GrowsOn(t, t1, M.SetUpRank(t, env, i, r), true, false);
  }

  lemma AddRankGrows(t: Snapshot, env: M.Local, i: nat, r: M.Rank)
    requires Inv(t) && Sorts(env.order)
    ensures Grows(t, M.AddRank(t, env, i, r), true, false)
  {
    M.SetUpRankKeeps(t, env, i, r);
    var s := M.SetUpRank(t, env, i, r);
    SetUpRankGrows(t, env, i, r);
    var es := ParentChild(M.Place(s, env, r), s.ids[RankId(i)]);
    AddEdgesGrows(s, es);
    GrowsAlso(s, AddEdges(s, es), true, false);
    GrowsOn(t, s, AddEdges(s, es), true, false);
  }

  lemma {:induction false} AddRanksGrows(t: Snapshot, env: M.Local, ranks: seq<M.Rank>)
    requires Inv(t) && Sorts(env.order)
    ensures Grows(t, M.AddRanks(t, env, ranks), true, false)
  {
    if ranks == [] {
      GrowsNot(t);
      GrowsAlso(t, t, true, false);
    } else {
      var n := |ranks| - 1;
      var earlier := M.AddRanks(t, env, ranks[..n]);
      AddRanksGrows(t, env, ranks[..n]);
      AddRankGrows(earlier, env, n, ranks[n]);
      GrowsOn(t, earlier, M.AddRanks(t, env, ranks), true, false);
    }
  }
}
