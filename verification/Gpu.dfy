/** The GPU modules (modules/rocm/rocm_impl.cc, modules/nvml/nvml_impl.cc): devices are associated with graph
    vertices by their packed PCI address, and directly connected pairs are linked both ways. */
module Gpu {
  import opened Components
  import opened Hwloc
  import opened Identity
  import opened Invariants
  import opened Options
  import P = Properties
  import opened Topology

  datatype GpuModule = Rocm | Nvml

  datatype Device = Device(bdfid: bv64, text: string)

  /** The device's getters other than bdfid are foreign calls and stay empty here. */
  function DeviceAdapter(d: Device): P.Adapter {
    P.Adapter(d.text, None, Some(d.bdfid), None, None, map[], map[])
  }

  /** ROCm also overwrites the description. */
  function DeviceVertex(vertex: Vertex, m: GpuModule, d: Device): Vertex {
    Vertex(vertex.adapters + [DeviceAdapter(d)], if m.Rocm? then d.text else vertex.description, GPU)
  }

  function AddDevice(t: Snapshot, m: GpuModule, d: Device): Snapshot {
    var named := Intern(t, BdfidId(d.bdfid));
    var v := named.ids[BdfidId(d.bdfid)];
    Put(named, v, DeviceVertex(At(named, v), m, d))
  }

  function AddDevices(t: Snapshot, m: GpuModule, devices: seq<Device>): Snapshot {
    if devices == [] then t else AddDevice(AddDevices(t, m, devices[..|devices| - 1]), m, devices[|devices| - 1])
  }

  /** The vertices the device loop stores. */
  function DeviceVertices(t: Snapshot, m: GpuModule, devices: seq<Device>): (vertices: seq<nat>)
    ensures |vertices| == |devices|
  {
    if devices == [] then []
    else
      var n := |devices| - 1;
      var named := Intern(AddDevices(t, m, devices[..n]), BdfidId(devices[n].bdfid));
      DeviceVertices(t, m, devices[..n]) + [named.ids[BdfidId(devices[n].bdfid)]]
  }

  // ---- interconnects

  /** Whether devices i and j are one hop apart; asked for i < j only. */
  type Links = (nat, nat) -> bool

  /** The edges the inner loop has added for device i before it reaches j. */
  function RowEdges(vertices: seq<nat>, link: Links, i: nat, j: nat): seq<Edge>
    requires i < |vertices| && j <= |vertices|
  {
    if j <= i + 1 then []
    else
      RowEdges(vertices, link, i, j - 1) + (if link(i, j - 1) then GpuPair(vertices[i], vertices[j - 1]) else [])
  }

  /** The edges of all rows before i. */
  function LinkEdges(vertices: seq<nat>, link: Links, i: nat): seq<Edge>
    requires i <= |vertices|
  {
    if i == 0 then [] else LinkEdges(vertices, link, i - 1) + RowEdges(vertices, link, i - 1, |vertices|)
  }

  /** yloc_nvml_gpu_interconnect and yloc_rocm_gpu_interconnect; two edges are added per interconnect. */
  method GpuInterconnect(g: Graph, vertices: seq<nat>, link: Links) returns (numInterconnects: nat)
    modifies g
    ensures g.View() == AddEdges(old(g.View()), LinkEdges(vertices, link, |vertices|))
    ensures 2 * numInterconnects == |LinkEdges(vertices, link, |vertices|)|
  {
    ghost var t := g.View();
    ghost var done: seq<Edge> := [];
    numInterconnects := 0;
    AddNothing(t);
    for src := 0 to |vertices|
      invariant done == LinkEdges(vertices, link, src) && g.View() == AddEdges(t, done)
      invariant 2 * numInterconnects == |done|
    {
      ghost var row := RowEdges(vertices, link, src, |vertices|);
      var links := InterconnectRow(g, vertices, link, src);
      numInterconnects := numInterconnects + links;
      AddTwice(t, done, row);
      done := done + row;
    }
  }

  /** The inner loop for device `src`. */
  method InterconnectRow(g: Graph, vertices: seq<nat>, link: Links, src: nat) returns (links: nat)
    requires src < |vertices|
    modifies g
    ensures g.View() == AddEdges(old(g.View()), RowEdges(vertices, link, src, |vertices|))
    ensures 2 * links == |RowEdges(vertices, link, src, |vertices|)|
  {
    ghost var t := g.View();
    ghost var row: seq<Edge> := [];
    links := 0;
    AddNothing(t);
    for dst := src + 1 to |vertices|
      invariant row == RowEdges(vertices, link, src, dst) && g.View() == AddEdges(t, row)
      invariant 2 * links == |row|
    {
      if link(src, dst) {
        links := links + 1;
        g.AddEdge(vertices[src], vertices[dst], GPU_INTERCONNECT);
        g.AddEdge(vertices[dst], vertices[src], GPU_INTERCONNECT);
        AddPair(t, row, vertices[src], vertices[dst]);
        row := row + GpuPair(vertices[src], vertices[dst]);
      } else {
        Assoc(row, [], []);
      }
    }
  }

  lemma AddNothing(t: Snapshot)
    ensures AddEdges(t, []) == t
  {
    assert t.edges + [] == t.edges;
  }

  lemma AddTwice(t: Snapshot, es: seq<Edge>, more: seq<Edge>)
    ensures AddEdges(AddEdges(t, es), more) == AddEdges(t, es + more)
  {
    Assoc(t.edges, es, more);
  }

  lemma AddPair(t: Snapshot, es: seq<Edge>, u: nat, v: nat)
    ensures AddEdges(AddEdges(AddEdges(t, es), [Edge(u, v, GPU_INTERCONNECT)]), [Edge(v, u, GPU_INTERCONNECT)])
            == AddEdges(t, es + GpuPair(u, v))
  {
    Assoc(t.edges, es, GpuPair(u, v));
    Assoc(t.edges + es, [Edge(u, v, GPU_INTERCONNECT)], [Edge(v, u, GPU_INTERCONNECT)]);
  }

  lemma Assoc(a: seq<Edge>, b: seq<Edge>, c: seq<Edge>)
    ensures a + b + c == a + (b + c)
    ensures a + [] == a
  {
  }

  /** The linked pairs of device numbers i < j with i < n. */
  ghost function LinkedPairs(devices: nat, link: Links, n: nat): set<(nat, nat)> {
    set i: nat, j: nat | i < n && i < j && j < devices && link(i, j) :: (i, j)
  }

  ghost function RowPairs(link: Links, i: nat, j: nat): set<(nat, nat)> {
    set k: nat | i < k && k < j && link(i, k) :: (i, k)
  }

  lemma {:induction false} RowCount(vertices: seq<nat>, link: Links, i: nat, j: nat)
    requires i < |vertices| && j <= |vertices|
    ensures |RowEdges(vertices, link, i, j)| == 2 * |RowPairs(link, i, j)|
  {
    if j > i + 1 {
      RowCount(vertices, link, i, j - 1);
      var before := RowPairs(link, i, j - 1);
      assert RowPairs(link, i, j) == if link(i, j - 1) then before + {(i, j - 1)} else before;
    } else {
      assert RowPairs(link, i, j) == {};
    }
  }

  /** The number of interconnects is the number of linked pairs. */
  lemma {:induction false} InterconnectCount(vertices: seq<nat>, link: Links, n: nat)
    requires n <= |vertices|
    ensures |LinkEdges(vertices, link, n)| == 2 * |LinkedPairs(|vertices|, link, n)|
  {
    if n == 0 {
      assert LinkedPairs(|vertices|, link, 0) == {};
    } else {
      InterconnectCount(vertices, link, n - 1);
      RowCount(vertices, link, n - 1, |vertices|);
      var before, row := LinkedPairs(|vertices|, link, n - 1), RowPairs(link, n - 1, |vertices|);
      assert before !! row;
      assert LinkedPairs(|vertices|, link, n) == before + row;
    }
  }

  /** What a GPU module adds to the graph. */
  function GpuInit(t: Snapshot, m: GpuModule, devices: seq<Device>, link: Links): Snapshot {
    AddEdges(AddDevices(t, m, devices), LinkEdges(DeviceVertices(t, m, devices), link, |devices|))
  }

  lemma AddDevicesStep(t: Snapshot, m: GpuModule, devices: seq<Device>, i: nat)
    requires i < |devices|
    ensures AddDevices(t, m, devices[..i + 1]) == AddDevice(AddDevices(t, m, devices[..i]), m, devices[i])
    ensures DeviceVertices(t, m, devices[..i + 1]) ==
            DeviceVertices(t, m, devices[..i])
            + [Intern(AddDevices(t, m, devices[..i]), BdfidId(devices[i].bdfid)).ids[BdfidId(devices[i].bdfid)]]
  {
    assert devices[..i + 1][..i] == devices[..i];
  }

  /** ModuleRocm::init_graph and ModuleNvml::init_graph: the device loop, then the interconnects. */
  method InitGraph(g: Graph, m: GpuModule, devices: seq<Device>, link: Links)
    requires Valid(g.View())
    modifies g
    ensures g.View() == GpuInit(old(g.View()), m, devices, link)
  {
    ghost var t := g.View();
    var vertices: seq<nat> := [];
    ghost var built, listed := AddDevices(t, m, devices[..0]), DeviceVertices(t, m, devices[..0]);
    for i := 0 to |devices|
      invariant Valid(g.View()) && g.View() == built == AddDevices(t, m, devices[..i])
      invariant vertices == listed == DeviceVertices(t, m, devices[..i])
    {
      AddDevicesStep(t, m, devices, i);
      built, listed := AddDevices(t, m, devices[..i + 1]), DeviceVertices(t, m, devices[..i + 1]);
      var vd := AddOneDevice(g, m, devices[i]);
      vertices := vertices + [vd];
    }
    assert devices[..|devices|] == devices;
    var num := GpuInterconnect(g, vertices, link);
  }

  method AddOneDevice(g: Graph, m: GpuModule, d: Device) returns (vd: nat)
    requires Valid(g.View())
    modifies g
    ensures g.View() == AddDevice(old(g.View()), m, d) && Valid(g.View())
    ensures vd == Intern(old(g.View()), BdfidId(d.bdfid)).ids[BdfidId(d.bdfid)]
  {
    InternValid(g.View(), BdfidId(d.bdfid));
    vd := g.AddNamedVertex(BdfidId(d.bdfid));
    g.SetVertex(vd, DeviceVertex(g.vertices[vd], m, d));
  }

  // ---- interconnects are exactly the linked pairs, both ways

  /** e is one of the two edges for the linked devices i < k. */
  ghost predicate Interconnects(vertices: seq<nat>, link: Links, i: nat, k: nat, e: Edge) {
    i < k < |vertices| && link(i, k) && e in GpuPair(vertices[i], vertices[k])
  }

  /** e stems from device i and a later device before j. */
  ghost predicate InRow(vertices: seq<nat>, link: Links, i: nat, j: nat, e: Edge) {
    exists k: nat :: k < j && Interconnects(vertices, link, i, k, e)
  }

  ghost predicate InRows(vertices: seq<nat>, link: Links, n: nat, e: Edge) {
    exists i: nat :: i < n && InRow(vertices, link, i, |vertices|, e)
  }

  lemma {:induction false} RowHas(vertices: seq<nat>, link: Links, i: nat, j: nat, e: Edge, row: seq<Edge>)
    requires i < |vertices| && j <= |vertices| && row == RowEdges(vertices, link, i, j)
    ensures e in row <==> InRow(vertices, link, i, j, e)
  {
    if j > i + 1 {
      RowHas(vertices, link, i, j - 1, e, RowEdges(vertices, link, i, j - 1));
      if k: nat :| k < j && Interconnects(vertices, link, i, k, e) {
        assert k < j - 1 || k == j - 1;
      }
      if link(i, j - 1) && e in GpuPair(vertices[i], vertices[j - 1]) {
        assert Interconnects(vertices, link, i, j - 1, e);
      }
    }
  }

  /** e is in the row of some device before n. */
  ghost predicate InSomeRow(rows: nat -> seq<Edge>, n: nat, e: Edge) {
    exists i: nat :: i < n && e in rows(i)
  }

  ghost function Rows(vertices: seq<nat>, link: Links): nat -> seq<Edge> {
    (i: nat) => if i < |vertices| then RowEdges(vertices, link, i, |vertices|) else []
  }

  ghost function Flatten(rows: nat -> seq<Edge>, n: nat): seq<Edge> {
    if n == 0 then [] else Flatten(rows, n - 1) + rows(n - 1)
  }

  lemma {:induction false} FlattenHas(rows: nat -> seq<Edge>, n: nat, e: Edge)
    ensures e in Flatten(rows, n) <==> InSomeRow(rows, n, e)
  {
    if n > 0 {
      FlattenHas(rows, n - 1, e);
      if i: nat :| i < n && e in rows(i) {
        assert i < n - 1 || i == n - 1;
      }
      if e in rows(n - 1) {
        assert InSomeRow(rows, n, e);
      }
    }
  }

  lemma RowAt(vertices: seq<nat>, link: Links, i: nat)
    requires i < |vertices|
    ensures Rows(vertices, link)(i) == RowEdges(vertices, link, i, |vertices|)
  {
  }

  lemma {:induction false} LinksAreRows(vertices: seq<nat>, link: Links, n: nat, rows: nat -> seq<Edge>)
    requires n <= |vertices|
    requires forall i: nat :: i < n ==> rows(i) == RowEdges(vertices, link, i, |vertices|)
    ensures LinkEdges(vertices, link, n) == Flatten(rows, n)
  {
    if n > 0 {
      LinksAreRows(vertices, link, n - 1, rows);
    }
  }

  /** The GPU_INTERCONNECT edges are exactly those between linked devices, in both directions. */
  lemma LinkEdgesHave(vertices: seq<nat>, link: Links, n: nat, e: Edge)
    requires n <= |vertices|
    ensures e in LinkEdges(vertices, link, n) <==> InRows(vertices, link, n, e)
  {
    forall i: nat | i < n
      ensures Rows(vertices, link)(i) == RowEdges(vertices, link, i, |vertices|)
    {
      RowAt(vertices, link, i);
    }
    LinksAreRows(vertices, link, n, Rows(vertices, link));
    FlattenHas(Rows(vertices, link), n, e);
    forall i: nat | i < n
      ensures e in Rows(vertices, link)(i) <==> InRow(vertices, link, i, |vertices|, e)
    {
      RowHas(vertices, link, i, |vertices|, e, RowEdges(vertices, link, i, |vertices|));
    }
  }

  // ---- the run invariants

  lemma AddDeviceKeeps(t: Snapshot, m: GpuModule, d: Device)
    requires Inv(t)
    ensures var r := AddDevice(t, m, d);
            && Inv(r) && r.edges == t.edges && r.root == t.root && |t.vertices| <= |r.vertices|
            && Intern(t, BdfidId(d.bdfid)).ids[BdfidId(d.bdfid)] < |r.vertices|
  {
    var id := BdfidId(d.bdfid);
    var named := Intern(t, id);
    var v := named.ids[id];
    InternKeeps(t, id);
    InternValid(t, id);
    IdKinds("", "", 0, d.bdfid);
    assert MaskFree(named, v) && !Masked(named, v);
    P.CpuMaskAppend(At(named, v).adapters, DeviceAdapter(d));
    PutKeeps(named, v, DeviceVertex(At(named, v), m, d));
  }

  lemma {:induction false} AddDevicesKeeps(t: Snapshot, m: GpuModule, devices: seq<Device>)
    requires Inv(t)
    ensures var r := AddDevices(t, m, devices);
            && Inv(r) && r.edges == t.edges && r.root == t.root && |t.vertices| <= |r.vertices|
            && forall i :: 0 <= i < |devices| ==> DeviceVertices(t, m, devices)[i] < |r.vertices|
  {
    if devices != [] {
      AddDevicesKeeps(t, m, devices[..|devices| - 1]);
      AddDeviceKeeps(AddDevices(t, m, devices[..|devices| - 1]), m, devices[|devices| - 1]);
    }
  }

  lemma {:induction false} RowKeepsPairs(es: seq<Edge>, vertices: seq<nat>, link: Links, i: nat, j: nat, row: seq<Edge>)
    requires Paired(es) && i < |vertices| && j <= |vertices| && row == RowEdges(vertices, link, i, j)
    ensures Paired(es + row)
  {
    Assoc(es, [], []);
    if j > i + 1 {
      var earlier := RowEdges(vertices, link, i, j - 1);
      RowKeepsPairs(es, vertices, link, i, j - 1, earlier);
      var pair := if link(i, j - 1) then GpuPair(vertices[i], vertices[j - 1]) else [];
      Assoc(es, earlier, pair);
      Assoc(es + earlier, [], []);
      if link(i, j - 1) {
        GpuPairKeepsPairs(es + earlier, vertices[i], vertices[j - 1]);
      }
    }
  }

  lemma {:induction false} LinkEdgesKeepPairs(es: seq<Edge>, vertices: seq<nat>, link: Links, i: nat, links: seq<Edge>)
    requires Paired(es) && i <= |vertices| && links == LinkEdges(vertices, link, i)
    ensures Paired(es + links)
  {
    if i == 0 {
      Assoc(es, [], []);
    } else {
      var earlier, row := LinkEdges(vertices, link, i - 1), RowEdges(vertices, link, i - 1, |vertices|);
      LinkEdgesKeepPairs(es, vertices, link, i - 1, earlier);
      RowKeepsPairs(es + earlier, vertices, link, i - 1, |vertices|, row);
      Assoc(es, earlier, row);
    }
  }

  lemma GpuInitKeeps(t: Snapshot, m: GpuModule, devices: seq<Device>, link: Links)
    requires Inv(t) && Paired(t.edges)
    ensures var r := GpuInit(t, m, devices, link); Inv(r) && Paired(r.edges)
  {
    AddDevicesKeeps(t, m, devices);
    var r, vertices := AddDevices(t, m, devices), DeviceVertices(t, m, devices);
    var es := LinkEdges(vertices, link, |devices|);
    forall e | e in es
      ensures e.source < |r.vertices| && e.target < |r.vertices| && GoodEdge(r, e)
    {
      LinkEdgesHave(vertices, link, |devices|, e);
    }
    AddEdgesKeeps(r, es);
    LinkEdgesKeepPairs(t.edges, vertices, link, |devices|, es);
  }

  // ---- what a device's vertex becomes

  /** The vertex of `id` in `r` was the same in `t`, or is new. It is a GPU; the adapters it had before stay in
      front, and the adapter of `d` is among those behind them. */
  ghost predicate Associated(t: Snapshot, r: Snapshot, id: string, d: Device) {
    && id in r.ids && r.ids[id] < |r.vertices| && (id in t.ids ==> r.ids[id] == t.ids[id])
    && var before, after := At(t, r.ids[id]).adapters, r.vertices[r.ids[id]];
    && after.componentType == GPU && before <= after.adapters && DeviceAdapter(d) in after.adapters[|before|..]
  }

  /** No name moves, and no vertex loses an adapter or its place. */
  ghost predicate Keeps(t: Snapshot, r: Snapshot) {
    && |t.vertices| <= |r.vertices| && (forall id :: id in t.ids ==> id in r.ids && r.ids[id] == t.ids[id])
    && forall v :: 0 <= v < |t.vertices| ==> t.vertices[v].adapters <= r.vertices[v].adapters
  }

  ghost predicate EachAssociated(t: Snapshot, r: Snapshot, vertices: seq<nat>, devices: seq<Device>) {
    |vertices| == |devices| && forall i :: 0 <= i < |devices| ==>
      Associated(t, r, BdfidId(devices[i].bdfid), devices[i]) && vertices[i] == r.ids[BdfidId(devices[i].bdfid)]
  }

  ghost predicate OthersUntouched(t: Snapshot, r: Snapshot, vertices: seq<nat>) {
    && |t.vertices| <= |r.vertices|
    && forall v :: 0 <= v < |t.vertices| && v !in vertices ==> r.vertices[v] == t.vertices[v]
  }

  lemma SplitLast<T>(xs: seq<T>)
    requires xs != []
    ensures xs == xs[..|xs| - 1] + [xs[|xs| - 1]]
  {
  }

  /** The device loop on any graph: every device's vertex, the one its identifier names, becomes a GPU with the
      device's adapter behind the adapters it had; every other vertex and all edges are untouched. */
  lemma {:induction false} DevicesAssociated(t: Snapshot, m: GpuModule, devices: seq<Device>)
    requires Valid(t)
    ensures var r, vertices := AddDevices(t, m, devices), DeviceVertices(t, m, devices);
            && Valid(r) && r.edges == t.edges && Keeps(t, r)
            && EachAssociated(t, r, vertices, devices) && OthersUntouched(t, r, vertices)
  {
    if devices != [] {
      var n := |devices| - 1;
      var d, ds := devices[n], devices[..n];
      DevicesAssociated(t, m, ds);
      var earlier, vertices := AddDevices(t, m, ds), DeviceVertices(t, m, ds);
      var id := BdfidId(d.bdfid);
      DeviceIsAdded(earlier, m, d, id);
      SplitLast(devices);
      LastAssociated(t, earlier, AddDevice(earlier, m, d), m, d, id, Intern(earlier, id).ids[id],
                     vertices, ds, devices);
    }
  }

  /** `r` is `t` after one turn of the device loop, which used the vertex v that `id` names. */
  ghost predicate DeviceAdded(t: Snapshot, r: Snapshot, m: GpuModule, d: Device, id: string, v: nat) {
    && |t.vertices| <= |r.vertices| && (forall name :: name in t.ids ==> name in r.ids && r.ids[name] == t.ids[name])
    && id in r.ids && r.ids[id] == v && v < |r.vertices| && r.vertices[v] == DeviceVertex(At(t, v), m, d)
    && forall w :: 0 <= w < |t.vertices| && w != v ==> r.vertices[w] == t.vertices[w]
  }

  lemma DeviceIsAdded(t: Snapshot, m: GpuModule, d: Device, id: string)
    requires Valid(t) && id == BdfidId(d.bdfid)
    ensures var r := AddDevice(t, m, d);
            Valid(r) && r.edges == t.edges && DeviceAdded(t, r, m, d, id, Intern(t, id).ids[id])
  {
    InternValid(t, id);
    var named := Intern(t, id);
    PutValid(named, named.ids[id], DeviceVertex(At(named, named.ids[id]), m, d));
  }

  lemma KeepsMore(t: Snapshot, earlier: Snapshot, r: Snapshot, m: GpuModule, d: Device, id: string, v: nat)
    requires Keeps(t, earlier) && DeviceAdded(earlier, r, m, d, id, v)
    ensures Keeps(t, r)
  {
    forall w | 0 <= w < |t.vertices|
      ensures t.vertices[w].adapters <= r.vertices[w].adapters
    {
      assert t.vertices[w].adapters <= earlier.vertices[w].adapters;
    }
  }

  lemma EachStaysAssociated(t: Snapshot, earlier: Snapshot, r: Snapshot, m: GpuModule, d: Device, id: string, v: nat,
                            vertices: seq<nat>, ds: seq<Device>)
    requires Valid(t) && Keeps(t, earlier) && DeviceAdded(earlier, r, m, d, id, v) && id == BdfidId(d.bdfid)
    requires EachAssociated(t, earlier, vertices, ds)
    ensures EachAssociated(t, r, vertices + [v], ds + [d])
  {
    forall i | 0 <= i < |ds| + 1
      ensures var e := (ds + [d])[i];
              Associated(t, r, BdfidId(e.bdfid), e) && (vertices + [v])[i] == r.ids[BdfidId(e.bdfid)]
    {
      if i < |ds| {
        StaysAssociated(t, earlier, r, m, d, id, v, BdfidId(ds[i].bdfid), ds[i]);
      } else {
        BecomesAssociated(t, earlier, r, m, d, id, v);
      }
    }
  }

  lemma LastAssociated(t: Snapshot, earlier: Snapshot, r: Snapshot, m: GpuModule, d: Device, id: string, v: nat,
                       vertices: seq<nat>, ds: seq<Device>, devices: seq<Device>)
    requires Valid(t) && DeviceAdded(earlier, r, m, d, id, v) && id == BdfidId(d.bdfid) && devices == ds + [d]
    requires Keeps(t, earlier) && EachAssociated(t, earlier, vertices, ds) && OthersUntouched(t, earlier, vertices)
    ensures Keeps(t, r) && EachAssociated(t, r, vertices + [v], devices) && OthersUntouched(t, r, vertices + [v])
  {
    KeepsMore(t, earlier, r, m, d, id, v);
    EachStaysAssociated(t, earlier, r, m, d, id, v, vertices, ds);
    forall w | 0 <= w < |t.vertices| && w !in vertices + [v]
      ensures r.vertices[w] == t.vertices[w]
    {
      assert v in vertices + [v] && w !in vertices;
    }
  }

  lemma StaysAssociated(t: Snapshot, earlier: Snapshot, r: Snapshot, m: GpuModule, d: Device, id: string, v: nat,
                        other: string, e: Device)
    requires DeviceAdded(earlier, r, m, d, id, v) && Associated(t, earlier, other, e)
    ensures Associated(t, r, other, e) && r.ids[other] == earlier.ids[other]
  {
    var w := earlier.ids[other];
    var before, now := At(t, w).adapters, earlier.vertices[w].adapters;
    if w == v {
      assert r.vertices[w].adapters[|before|..] == now[|before|..] + [DeviceAdapter(d)];
    }
  }

  lemma BecomesAssociated(t: Snapshot, earlier: Snapshot, r: Snapshot, m: GpuModule, d: Device, id: string, v: nat)
    requires Valid(t) && Keeps(t, earlier) && DeviceAdded(earlier, r, m, d, id, v)
    ensures Associated(t, r, id, d) && r.ids[id] == v
  {
    var before, now := At(t, v).adapters, At(earlier, v).adapters;
    assert before <= now;
    assert (now + [DeviceAdapter(d)])[|before|..] == now[|before|..] + [DeviceAdapter(d)];
  }

  /** Vertices the device loop has added are GPUs, and only they have new names. */
  lemma {:induction false} NewAreGpus(t: Snapshot, m: GpuModule, devices: seq<Device>)
    requires Valid(t)
    ensures var r := AddDevices(t, m, devices);
            && Valid(r) && |t.vertices| <= |r.vertices|
            && (forall v :: |t.vertices| <= v < |r.vertices| ==> r.vertices[v].componentType == GPU)
            && forall id :: id in r.ids && id !in t.ids ==> |t.vertices| <= r.ids[id]
  {
    if devices != [] {
      var n := |devices| - 1;
      NewAreGpus(t, m, devices[..n]);
      DeviceIsAdded(AddDevices(t, m, devices[..n]), m, devices[n], BdfidId(devices[n].bdfid));
    }
  }

  // ---- devices meet hwloc's objects

  /** On a graph hwloc has built: the vertex that ROCm's and NVML's identifiers of a device lead to is the vertex
      of a PCI object exactly when the addresses agree; for NVML, when domain, bus and device agree and the
      object's function is zero. Other objects are never met. */
  lemma DevicesMeetObjects(t: Snapshot, hostname: string, machine: HwlocObj, slots: seq<Slot>, k: nat, gpu: PciAddress)
    returns (r: Snapshot, at: seq<nat>)
    requires Valid(t) && slots == TreeSlots(machine) && k < |slots| && InRange(slots[k].obj.address) && InRange(gpu)
    ensures r == HwlocInit(t, hostname, machine) && IsImage(t, r, slots, at)
    ensures MeetsExactly(r, slots[k].obj, at[1 + k], gpu)
  {
    r, at := TreeImage(t, hostname, machine);
    assert OwnVertex(t, r, slots[k].obj, at[1 + k]);
    DeviceMeetsObject(t, r, slots[k].obj, at[1 + k], gpu);
  }

  /** The ROCm identifier of `gpu` leads to v exactly if the object is the device with this address; the NVML
      identifier, exactly if the object is a device that agrees in domain, bus and device and has function 0. */
  ghost predicate MeetsExactly(r: Snapshot, obj: HwlocObj, v: nat, gpu: PciAddress) {
    && (LeadsTo(r, BdfidId(Pack(gpu)), v) <==> IsPci(obj) && obj.address == gpu)
    && (LeadsTo(r, BdfidId(PackNvml(gpu)), v) <==>
        && IsPci(obj) && obj.address.domain == gpu.domain && obj.address.bus == gpu.bus
        && obj.address.device == gpu.device && obj.address.func == 0)
  }

  lemma DeviceMeetsObject(before: Snapshot, r: Snapshot, obj: HwlocObj, v: nat, gpu: PciAddress)
    requires Valid(r) && OwnVertex(before, r, obj, v) && v < |r.vertices| && InRange(obj.address) && InRange(gpu)
    ensures MeetsExactly(r, obj, v, gpu)
  {
    DeviceIdsMeet(obj.address, gpu);
    MeetsIffSameId(before, r, obj, v, BdfidId(Pack(gpu)));
    MeetsIffSameId(before, r, obj, v, BdfidId(PackNvml(gpu)));
  }

  /** add_vertex(id) returns v. */
  predicate LeadsTo(t: Snapshot, id: string, v: nat) {
    Intern(t, id).ids[id] == v
  }

  lemma MeetsIffSameId(before: Snapshot, r: Snapshot, obj: HwlocObj, v: nat, id: string)
    requires Valid(r) && OwnVertex(before, r, obj, v) && v < |r.vertices|
    ensures LeadsTo(r, id, v) <==> IsPci(obj) && IdOf(obj) == id
  {
  }
}
