/** The links of the SuperMUC module, whatever else is in the graph: it adds them only where no edge is found between
    two vertices, whatever its type, and still every host ends up below its column, rack and island. */
module SystemLinks {
  import opened Components
  import G = Gpu
  import opened Growth
  import H = Hwloc
  import opened Identity
  import opened Invariants
  import M = Mpi
  import opened Sorting
  import S = Supermuc
  import opened Topology

  /** e leads from a network component to one whose name begins with its own. */
  ghost predicate SystemAbove(t: Snapshot, e: Edge) {
    exists x: string, y: string :: x <= y && IsNamed(t, e.source, SystemId(x)) && IsNamed(t, e.target, SystemId(y))
  }

  ghost predicate IsNamed(t: Snapshot, v: nat, id: string) {
    id in t.ids && t.ids[id] == v
  }

  ghost predicate IsHarmless(t: Snapshot, e: Edge) {
    && (e.edgeType == CHILD && NamedAs(t, e.target, SystemKind) ==> SystemAbove(t, e))
    && (e.edgeType == GPU_INTERCONNECT ==> !NamedAs(t, e.source, SystemKind))
  }

  /** Network components hang under shorter names only, and have no direct connections. */
  ghost predicate SystemsHang(t: Snapshot) {
    forall e :: e in t.edges ==> IsHarmless(t, e)
  }

  lemma StaysHarmless(t: Snapshot, r: Snapshot, e: Edge)
    requires Valid(t) && Extended(t, r) && e.source < |t.vertices| && e.target < |t.vertices| && IsHarmless(t, e)
    ensures IsHarmless(r, e)
  {
    if NamedAs(r, e.target, SystemKind) && SystemAbove(t, e) {
      var x: string, y: string :|
        x <= y && IsNamed(t, e.source, SystemId(x)) && IsNamed(t, e.target, SystemId(y));
      assert IsNamed(r, e.source, SystemId(x)) && IsNamed(r, e.target, SystemId(y));
    }
  }

  lemma HangsOn(t: Snapshot, r: Snapshot)
    requires Valid(t) && SystemsHang(t) && Extended(t, r)
    requires forall e :: e in r.edges && e !in t.edges ==> IsHarmless(r, e)
    ensures SystemsHang(r)
  {
    forall e | e in r.edges
      ensures IsHarmless(r, e)
    {
      if e in t.edges {
        StaysHarmless(t, r, e);
      }
    }
  }

  // ---- the other modules

  lemma NotSystem(t: Snapshot, v: nat, id: string)
    requires Valid(t) && IsNamed(t, v, id) && KindOf(id) != SystemKind
    ensures !NamedAs(t, v, SystemKind)
  {
  }

  lemma HwlocHangs(t: Snapshot, hostname: string, machine: H.HwlocObj)
    requires Valid(t) && SystemsHang(t)
    ensures SystemsHang(H.HwlocInit(t, hostname, machine))
  {
    var r, at := H.TreeImage(t, hostname, machine);
    var slots := H.TreeSlots(machine);
    HwlocInitGrows(t, hostname, machine);
    forall e | e in r.edges && e !in t.edges
      ensures IsHarmless(r, e)
    {
      var h := NewIndex(t.edges, r.edges, e);
      NewTreeEdge(t, r, slots, at, h);
    }
    HangsOn(t, r);
  }

  lemma NewIndex(es: seq<Edge>, more: seq<Edge>, e: Edge) returns (h: nat)
    requires es <= more && e in more && e !in es
    ensures |es| <= h < |more| && more[h] == e
  {
    assert forall j :: 0 <= j < |es| ==> more[j] == es[j] && es[j] in es;
    h :| h < |more| && more[h] == e;
  }

  lemma NewTreeEdge(t: Snapshot, r: Snapshot, slots: seq<H.Slot>, at: seq<nat>, h: nat)
    requires Valid(r) && H.IsImage(t, r, slots, at) && |t.edges| <= h < |r.edges|
    ensures IsHarmless(r, r.edges[h])
  {
    var k: nat := (h - |t.edges|) / 2;
    assert h == |t.edges| + 2 * k || h == |t.edges| + 2 * k + 1;
    assert H.OwnVertex(t, r, slots[k].obj, at[1 + k]);
    if H.IsPci(slots[k].obj) {
      IdKinds("", "", 0, Pack(slots[k].obj.address));
      NotSystem(r, at[1 + k], H.IdOf(slots[k].obj));
    }
  }

  lemma RankHangs(t: Snapshot, env: M.Local, i: nat, r: M.Rank)
    requires Inv(t) && Sorts(env.order) && SystemsHang(t)
    ensures SystemsHang(M.AddRank(t, env, i, r))
  {
    M.SetUpRankKeeps(t, env, i, r);
    M.AddRankKeeps(t, env, i, r);
    AddRankGrows(t, env, i, r);
    var s := M.SetUpRank(t, env, i, r);
    RankEdgesHarmless(t, M.AddRank(t, env, i, r), M.Place(s, env, r), s.ids[RankId(i)], i);
    HangsOn(t, M.AddRank(t, env, i, r));
  }

  lemma RankEdgesHarmless(t: Snapshot, r: Snapshot, place: nat, v: nat, i: nat)
    requires Valid(r) && IsNamed(r, v, RankId(i)) && r.edges == t.edges + ParentChild(place, v)
    ensures forall e :: e in r.edges && e !in t.edges ==> IsHarmless(r, e)
  {
    IdKinds("", "", i, 0);
    NotSystem(r, v, RankId(i));
  }

  lemma {:induction false} RanksHang(t: Snapshot, env: M.Local, ranks: seq<M.Rank>)
    requires Inv(t) && Sorts(env.order) && SystemsHang(t)
    ensures SystemsHang(M.AddRanks(t, env, ranks))
  {
    if ranks != [] {
      var n := |ranks| - 1;
      RanksHang(t, env, ranks[..n]);
      RankHangs(M.AddRanks(t, env, ranks[..n]), env, n, ranks[n]);
    }
  }

  lemma GpuHangs(t: Snapshot, m: G.GpuModule, devices: seq<G.Device>, link: G.Links)
    requires Valid(t) && SystemsHang(t)
    ensures SystemsHang(G.GpuInit(t, m, devices, link))
  {
    var added, vertices := G.AddDevices(t, m, devices), G.DeviceVertices(t, m, devices);
    var r := G.GpuInit(t, m, devices, link);
    G.DevicesAssociated(t, m, devices);
    GpuInitGrows(t, m, devices, link);
    forall e | e in r.edges && e !in t.edges
      ensures IsHarmless(r, e)
    {
      DeviceLinkHarmless(t, added, r, vertices, devices, link, e);
    }
    HangsOn(t, r);
  }

  /** The devices that a connection joins. */
  lemma LinkedDevices(vertices: seq<nat>, link: G.Links, e: Edge) returns (i: nat, k: nat)
    requires e in G.LinkEdges(vertices, link, |vertices|)
    ensures i < k < |vertices| && link(i, k) && e in GpuPair(vertices[i], vertices[k])
  {
    G.LinkEdgesHave(vertices, link, |vertices|, e);
    i :| i < |vertices| && G.InRow(vertices, link, i, |vertices|, e);
    k :| k < |vertices| && G.Interconnects(vertices, link, i, k, e);
  }

  lemma DeviceLinkHarmless(t: Snapshot, added: Snapshot, r: Snapshot, vertices: seq<nat>, devices: seq<G.Device>,
                           link: G.Links, e: Edge)
    requires Valid(added) && G.EachAssociated(t, added, vertices, devices) && r.ids == added.ids
    requires e in G.LinkEdges(vertices, link, |devices|)
    ensures IsHarmless(r, e)
  {
    var i, k := LinkedDevices(vertices, link, e);
    DeviceIsNoSystem(t, added, vertices, devices, i);
    DeviceIsNoSystem(t, added, vertices, devices, k);
    SameNamed(added, r, vertices[i]);
    SameNamed(added, r, vertices[k]);
  }

  lemma DeviceIsNoSystem(t: Snapshot, r: Snapshot, vertices: seq<nat>, devices: seq<G.Device>, i: nat)
    requires Valid(r) && G.EachAssociated(t, r, vertices, devices) && i < |devices|
    ensures !NamedAs(r, vertices[i], SystemKind)
  {
    assert G.Associated(t, r, BdfidId(devices[i].bdfid), devices[i]);
    IdKinds("", "", 0, devices[i].bdfid);
    NotSystem(r, vertices[i], BdfidId(devices[i].bdfid));
  }

  lemma SameNamed(t: Snapshot, r: Snapshot, v: nat)
    requires r.ids == t.ids
    ensures NamedAs(r, v, SystemKind) == NamedAs(t, v, SystemKind)
  {
  }

  // ---- SuperMUC

  ghost predicate Linked(es: seq<Edge>, parent: nat, child: nat) {
    Edge(parent, child, CHILD) in es && Edge(child, parent, PARENT) in es
  }

  /** An edge found between a component and what hangs under it is a CHILD edge, or there is one beside it. */
  lemma FoundIsLinked(t: Snapshot, x: string, id: string, p: nat, c: nat)
    requires Valid(t) && Paired(t.edges) && SystemsHang(t) && IsNamed(t, p, SystemId(x)) && IsNamed(t, c, id)
    requires KindOf(id) == MachineKind || exists y: string :: x <= y && id == SystemId(y)
    requires HasEdge(t.edges, p, c)
    ensures Linked(t.edges, p, c)
  {
    var i :| 0 <= i < |t.edges| && t.edges[i].source == p && t.edges[i].target == c;
    var e := t.edges[i];
    IdKinds("", x, 0, 0);
    assert multiset(t.edges)[e] > 0 && IsHarmless(t, e) && NamedAs(t, p, SystemKind);
    if e.edgeType == PARENT {
      var up := Edge(c, p, CHILD);
      assert multiset(t.edges)[up] > 0;
      assert up in t.edges && IsHarmless(t, up);
      SameBothWays(t, x, id, up);
    }
    assert multiset(t.edges)[Edge(p, c, CHILD)] > 0;
    assert multiset(t.edges)[Edge(c, p, PARENT)] > 0;
  }

  lemma SameBothWays(t: Snapshot, x: string, id: string, up: Edge)
    requires Valid(t) && SystemAbove(t, up) && IsNamed(t, up.target, SystemId(x)) && IsNamed(t, up.source, id)
    requires KindOf(id) == MachineKind || exists y: string :: x <= y && id == SystemId(y)
    ensures up.source == up.target
  {
    var x': string, y': string :|
      x' <= y' && IsNamed(t, up.source, SystemId(x')) && IsNamed(t, up.target, SystemId(y'));
    IdKinds("", x', 0, 0);
    IdsInjective("", "", x, y', 0, 0, 0, 0);
    assert id == SystemId(x') && y' == x;
    if KindOf(id) == MachineKind {
      assert false;
    } else {
      var y: string :| x <= y && id == SystemId(y);
      IdsInjective("", "", x', y, 0, 0, 0, 0);
      assert x' <= x && x <= x';
      SamePrefix(x, x');
    }
  }

  lemma SamePrefix(a: string, b: string)
    requires a <= b && b <= a
    ensures a == b
  {
  }

  /** After a link, the two vertices are linked, and all is as before otherwise. */
  lemma LinkOnceLinks(t: Snapshot, x: string, id: string)
    requires Valid(t) && Paired(t.edges) && SystemsHang(t) && SystemId(x) in t.ids && id in t.ids
    requires KindOf(id) == MachineKind || exists y: string :: x <= y && id == SystemId(y)
    ensures var (p, c) := (t.ids[SystemId(x)], t.ids[id]);
            var r := S.LinkOnce(t, p, c);
            && Valid(r) && Paired(r.edges) && SystemsHang(r) && Linked(r.edges, p, c)
            && r.ids == t.ids && r.vertices == t.vertices && t.edges <= r.edges
  {
    var (p, c) := (t.ids[SystemId(x)], t.ids[id]);
    if HasEdge(t.edges, p, c) {
      FoundIsLinked(t, x, id, p, c);
    } else {
      var r := AddEdges(t, ParentChild(p, c));
      AddEdgesValid(t, ParentChild(p, c));
      ParentChildKeepsPairs(t.edges, p, c);
      LinkOnceGrows(t, p, c);
      NewLinkHarmless(t, r, x, id);
      HangsOn(t, r);
    }
  }

  lemma NewLinkHarmless(t: Snapshot, r: Snapshot, x: string, id: string)
    requires Valid(t) && SystemId(x) in t.ids && id in t.ids && r.ids == t.ids && Valid(r)
    requires KindOf(id) == MachineKind || exists y: string :: x <= y && id == SystemId(y)
    ensures forall e :: e in ParentChild(t.ids[SystemId(x)], t.ids[id]) ==> IsHarmless(r, e)
  {
    var down := Edge(t.ids[SystemId(x)], t.ids[id], CHILD);
    if KindOf(id) == MachineKind {
      NotSystem(r, t.ids[id], id);
    } else {
      var y: string :| x <= y && id == SystemId(y);
      assert IsNamed(r, down.source, SystemId(x)) && IsNamed(r, down.target, SystemId(y));
      assert SystemAbove(r, down);
    }
  }

  /** The four vertices of a host are there, and linked. */
  ghost predicate HostIsLinked(t: Snapshot, name: string) {
    var (column, rack, island) := (SystemId(S.Take(name, 9)), SystemId(S.Take(name, 6)), SystemId(S.Take(name, 3)));
    && MachineId(name) in t.ids && column in t.ids && rack in t.ids && island in t.ids
    && Linked(t.edges, t.ids[island], t.ids[rack]) && Linked(t.edges, t.ids[rack], t.ids[column])
    && Linked(t.edges, t.ids[column], t.ids[MachineId(name)])
  }

  lemma HostStaysLinked(t: Snapshot, r: Snapshot, name: string)
    requires HostIsLinked(t, name) && Extended(t, r)
    ensures HostIsLinked(r, name)
  {
  }

  lemma TakesBegin(name: string)
    ensures S.Take(name, 3) <= S.Take(name, 6) && S.Take(name, 6) <= S.Take(name, 9)
  {
  }

  lemma NodesHang(t: Snapshot, name: string) returns (nodes: Snapshot)
    requires Valid(t) && Paired(t.edges) && SystemsHang(t)
    ensures nodes == S.AddNodes(t, MachineId(name), SystemId(S.Take(name, 9)), SystemId(S.Take(name, 6)),
                                SystemId(S.Take(name, 3)), name, S.Take(name, 9), S.Take(name, 6), S.Take(name, 3))
    ensures Valid(nodes) && nodes.edges == t.edges && SystemsHang(nodes) && MachineId(name) in nodes.ids
    ensures {SystemId(S.Take(name, 9)), SystemId(S.Take(name, 6)), SystemId(S.Take(name, 3))} <= nodes.ids.Keys
  {
    var (column, rack, island) := (S.Take(name, 9), S.Take(name, 6), S.Take(name, 3));
    IdKinds(name, column, 0, 0);
    IdKinds(name, rack, 0, 0);
    IdKinds(name, island, 0, 0);
    NodesGrow(t, MachineId(name), SystemId(column), SystemId(rack), SystemId(island), name, column, rack, island);
    nodes := S.AddNodes(t, MachineId(name), SystemId(column), SystemId(rack), SystemId(island),
                        name, column, rack, island);
    NodesEdges(t, MachineId(name), SystemId(column), SystemId(rack), SystemId(island), name, column, rack, island);
    HangsOn(t, nodes);
  }

  lemma NodesEdges(t: Snapshot, id1: string, id2: string, id3: string, id4: string,
                   name1: string, name2: string, name3: string, name4: string)
    ensures S.AddNodes(t, id1, id2, id3, id4, name1, name2, name3, name4).edges == t.edges
  {
  }

  lemma AddHostLinks(t: Snapshot, name: string)
    requires Valid(t) && Paired(t.edges) && SystemsHang(t)
    ensures var r := S.AddHost(t, name);
            Valid(r) && Paired(r.edges) && SystemsHang(r) && HostIsLinked(r, name)
  {
    var nodes := NodesHang(t, name);
    LinksLink(nodes, MachineId(name), S.Take(name, 9), S.Take(name, 6), S.Take(name, 3), name);
  }

  lemma LinkedStays(es: seq<Edge>, more: seq<Edge>, p: nat, c: nat)
    requires Linked(es, p, c) && es <= more
    ensures Linked(more, p, c)
  {
  }

  lemma LinksLink(t: Snapshot, slot: string, column: string, rack: string, island: string, name: string)
    requires Valid(t) && Paired(t.edges) && SystemsHang(t) && slot == MachineId(name)
    requires column == S.Take(name, 9) && rack == S.Take(name, 6) && island == S.Take(name, 3)
    requires slot in t.ids && SystemId(column) in t.ids && SystemId(rack) in t.ids && SystemId(island) in t.ids
    ensures var r := S.LinkNodes(t, slot, SystemId(column), SystemId(rack), SystemId(island));
            Valid(r) && Paired(r.edges) && SystemsHang(r) && HostIsLinked(r, name)
  {
    var (s, c, k, i) := (t.ids[slot], t.ids[SystemId(column)], t.ids[SystemId(rack)], t.ids[SystemId(island)]);
    TakesBegin(name);
    IdKinds(name, "", 0, 0);
    ThreeLinks(t, S.LinkOnce(t, i, k), S.LinkOnce(S.LinkOnce(t, i, k), k, c), slot, column, rack, island);
  }

  lemma ThreeLinks(t: Snapshot, t1: Snapshot, t2: Snapshot, slot: string, column: string, rack: string, island: string)
    requires Valid(t) && Paired(t.edges) && SystemsHang(t) && KindOf(slot) == MachineKind
    requires island <= rack && rack <= column
    requires slot in t.ids && SystemId(column) in t.ids && SystemId(rack) in t.ids && SystemId(island) in t.ids
    requires t1 == S.LinkOnce(t, t.ids[SystemId(island)], t.ids[SystemId(rack)])
    requires t2 == S.LinkOnce(t1, t.ids[SystemId(rack)], t.ids[SystemId(column)])
    ensures var (s, c, k, i) := (t.ids[slot], t.ids[SystemId(column)], t.ids[SystemId(rack)], t.ids[SystemId(island)]);
            var r := S.LinkOnce(t2, c, s);
            && Valid(r) && Paired(r.edges) && SystemsHang(r) && r.ids == t.ids
            && Linked(r.edges, i, k) && Linked(r.edges, k, c) && Linked(r.edges, c, s)
  {
    var (s, c, k, i) := (t.ids[slot], t.ids[SystemId(column)], t.ids[SystemId(rack)], t.ids[SystemId(island)]);
    LinkOnceLinks(t, island, SystemId(rack));
    LinkOnceLinks(t1, rack, SystemId(column));
    LinkOnceLinks(t2, column, slot);
    LinkedStays(t1.edges, t2.edges, i, k);
    LinkedStays(t2.edges, S.LinkOnce(t2, c, s).edges, i, k);
    LinkedStays(t2.edges, S.LinkOnce(t2, c, s).edges, k, c);
  }

  lemma {:induction false} AddHostsLink(t: Snapshot, names: seq<string>)
    requires Valid(t) && Paired(t.edges) && SystemsHang(t)
    ensures var r := S.AddHosts(t, names);
            && Valid(r) && Paired(r.edges) && SystemsHang(r)
            && forall i :: 0 <= i < |names| ==> HostIsLinked(r, names[i])
  {
    if names != [] {
      var n := |names| - 1;
      var earlier := S.AddHosts(t, names[..n]);
      AddHostsLink(t, names[..n]);
      AddHostLinks(earlier, names[n]);
      AddHostGrows(earlier, names[n]);
      OneMoreLinked(earlier, S.AddHost(earlier, names[n]), names[..n], names);
    }
  }

  lemma OneMoreLinked(earlier: Snapshot, r: Snapshot, ns: seq<string>, names: seq<string>)
    requires names != [] && ns == names[..|names| - 1] && Extended(earlier, r)
    requires HostIsLinked(r, names[|names| - 1]) && forall i :: 0 <= i < |ns| ==> HostIsLinked(earlier, ns[i])
    ensures forall i :: 0 <= i < |names| ==> HostIsLinked(r, names[i])
  {
    forall i | 0 <= i < |ns|
      ensures HostIsLinked(r, names[i])
    {
      assert HostIsLinked(earlier, ns[i]);
      HostStaysLinked(earlier, r, names[i]);
    }
  }
}
