/** hwloc and the GPU modules all run first, in an order that std::sort leaves open. A machine with two GPUs of which
    hwloc lists one: the nearest-PU search is exact if hwloc has run before, and wrong if it runs after. */
module OrderDecides {
  import opened Components
  import opened FindDistances
  import G = Gpu
  import H = Hwloc
  import HI = HwlocInvariants
  import opened HwlocPlanting
  import opened HwlocSearch
  import opened HwlocTies
  import opened HwlocTree
  import opened HwlocVertices
  import opened Identity
  import opened Invariants
  import opened Options
  import opened Paths
  import opened RunQueries
  import opened Runs
  import opened Shapes
  import opened ShapeSteps
  import opened Sorting
  import opened Topology

  /** A machine with one PU and one PCI device. */
  function PuAndDevice(address: PciAddress): H.HwlocObj {
    var no := PciAddress(0, 0, 0, 0);
    H.HwlocObj(ObjMachine, no, Some({0}), 0, "Machine",
               [H.HwlocObj(ObjPu, no, Some({0}), 0, "PU", []), H.HwlocObj(ObjPciDevice, address, None, 0, "PCI", [])])
  }

  /** An accelerator stays one. */
  lemma StaysAccelerator(t: Snapshot, start: Snapshot, r: Snapshot, hostname: string, machine: H.HwlocObj,
                         slots: seq<H.Slot>, at: seq<nat>, v: nat)
    requires Valid(t) && start == H.RootSetUp(t, hostname, machine) && Grew(start, r, machine, slots, at)
    requires IsAcceleratorVertex(t, v)
    ensures IsAcceleratorVertex(r, v)
  {
    H.RootSetUpEffect(t, hostname, machine);
    assert IsAcceleratorVertex(start, v);
    if IsPlaced(at, v) {
      var j: nat :| 0 < j < |at| && at[j] == v;
    }
  }

  /** Without interconnects only a vertex itself is joined to it. */
  lemma {:induction false} NotJoined(es: seq<Edge>, u: nat, p: seq<Edge>, v: nat)
    requires (forall e :: e in es ==> e.edgeType != GPU_INTERCONNECT) && IsPath(es, u, p, v) && OnlyInterconnects(p)
    ensures u == v
  {
    if p != [] {
      assert false;
    }
  }

  /** No two devices are linked. */
  function Unlinked(): G.Links {
    (i, j) => false
  }

  lemma NoLinks(vertices: seq<nat>, n: nat)
    requires n <= |vertices|
    ensures G.LinkEdges(vertices, Unlinked(), n) == []
  {
    var es := G.LinkEdges(vertices, Unlinked(), n);
    if es != [] {
      assert es[0] in es;
      G.LinkEdgesHave(vertices, Unlinked(), n, es[0]);
    }
  }

  lemma TwoSlots(address: PciAddress)
    ensures var machine := PuAndDevice(address);
            H.TreeSlots(machine) == [H.Slot(machine.children[0], 0), H.Slot(machine.children[1], 0)]
  {
    PreorderOfTwo(PuAndDevice(address).children[0], PuAndDevice(address).children[1], 0, 1);
  }

  /** The two GPUs on the empty graph: the hidden one is vertex 0, and there are no edges. */
  lemma TwoGpus(m: G.GpuModule, hidden: G.Device, inTree: G.Device)
    requires hidden.bdfid != inTree.bdfid
    ensures var t := G.GpuInit(EMPTY, m, [hidden, inTree], Unlinked());
            && Valid(t) && t.edges == [] && IsAcceleratorVertex(t, 0)
            && BdfidId(hidden.bdfid) in t.ids && t.ids[BdfidId(hidden.bdfid)] == 0
  {
    var devices := [hidden, inTree];
    assert devices[..2] == devices && devices[..0] == [];
    var t1 := G.AddDevices(EMPTY, m, devices[..1]);
    G.AddDevicesStep(EMPTY, m, devices, 0);
    G.AddDevicesStep(EMPTY, m, devices, 1);
    NoLinks(G.DeviceVertices(EMPTY, m, devices), 2);
    G.DevicesAssociated(EMPTY, m, devices);
    G.DeviceIsAdded(EMPTY, m, hidden, BdfidId(hidden.bdfid));
    G.DeviceIsAdded(t1, m, inTree, BdfidId(inTree.bdfid));
    assert G.Associated(EMPTY, G.AddDevices(EMPTY, m, devices), BdfidId(devices[0].bdfid), devices[0]);
  }

  /** The GPU step first, then hwloc: the hidden GPU is the first accelerator and cannot reach the PU. */
  lemma GpuStepFirst(hostname: string, m: G.GpuModule, hidden: G.Device, inTree: G.Device, address: PciAddress)
    requires inTree.bdfid == Pack(address) && hidden.bdfid != inTree.bdfid
    ensures var t := H.HwlocInit(G.GpuInit(EMPTY, m, [hidden, inTree], Unlinked()), hostname, PuAndDevice(address));
            && IsFirstAccelerator(t, 0) && HasPu(t)
            && forall v :: IsPu(t, v) ==> IsPrinted(t, 0, v) && !IsNearest(t, 0, v)
  {
    var t0 := G.GpuInit(EMPTY, m, [hidden, inTree], Unlinked());
    TwoGpus(m, hidden, inTree);
    var t, part := PutOnTop(t0, hostname, m, hidden, inTree, address);
    StillPaired(hostname, m, hidden, inTree, address);
    HiddenComesFirst(t0, hostname, t, part, hidden.bdfid, address);
  }

  /** hwloc has put `part` on top of the graph `t0` of the two GPUs. */
  ghost predicate IsOnTop(t0: Snapshot, hostname: string, t: Snapshot, part: Part, address: PciAddress) {
    && Valid(t0) && Valid(t) && part.machine == PuAndDevice(address)
    && part.slots == [H.Slot(part.machine.children[0], 0), H.Slot(part.machine.children[1], 0)] && |part.at| == 3
    && var start := H.RootSetUp(t0, hostname, part.machine);
    && H.IsImage(t0, t, part.slots, part.at) && part.at[0] == start.root
    && Grew(start, t, part.machine, part.slots, part.at) && NamesGrew(start, t)
  }

  lemma PutOnTop(t0: Snapshot, hostname: string, m: G.GpuModule, hidden: G.Device, inTree: G.Device,
                 address: PciAddress) returns (t: Snapshot, part: Part)
    requires t0 == G.GpuInit(EMPTY, m, [hidden, inTree], Unlinked())
    ensures t == H.HwlocInit(t0, hostname, PuAndDevice(address))
    ensures IsOnTop(t0, hostname, t, part, address) && Shape(t, part)
  {
    GpusOnly(m, hidden, inTree, PuAndDevice(address));
    TwoSlots(address);
    t, part := Planting(t0, hostname, PuAndDevice(address), Part(PuAndDevice(address), [], [], false));
  }

  lemma GpusOnly(m: G.GpuModule, hidden: G.Device, inTree: G.Device, machine: H.HwlocObj)
    ensures Shape(G.GpuInit(EMPTY, m, [hidden, inTree], Unlinked()), Part(machine, [], [], false))
  {
    EmptyShape(machine);
    GpuShape(EMPTY, Part(machine, [], [], false), m, [hidden, inTree], Unlinked());
  }

  lemma HiddenComesFirst(t0: Snapshot, hostname: string, t: Snapshot, part: Part, hidden: bv64, address: PciAddress)
    requires IsOnTop(t0, hostname, t, part, address) && t0.edges == [] && IsAcceleratorVertex(t0, 0)
    requires BdfidId(hidden) in t0.ids && t0.ids[BdfidId(hidden)] == 0 && hidden != Pack(address)
    requires Shape(t, part) && Paired(t.edges)
    ensures IsFirstAccelerator(t, 0) && HasPu(t)
    ensures forall v :: IsPu(t, v) ==> IsPrinted(t, 0, v) && !IsNearest(t, 0, v)
  {
    AcceleratorAndPu(t0, hostname, t, part, address);
    HiddenIsApart(t0, hostname, t, part, hidden, address);
    SearchOnShape(t, part, 0);
  }

  lemma AcceleratorAndPu(t0: Snapshot, hostname: string, t: Snapshot, part: Part, address: PciAddress)
    requires IsOnTop(t0, hostname, t, part, address) && IsAcceleratorVertex(t0, 0)
    ensures IsFirstAccelerator(t, 0) && HasPu(t)
  {
    StaysAccelerator(t0, H.RootSetUp(t0, hostname, part.machine), t, hostname, part.machine, part.slots, part.at, 0);
    PuIsThere(t0, hostname, t, part);
  }

  lemma HiddenIsApart(t0: Snapshot, hostname: string, t: Snapshot, part: Part, hidden: bv64, address: PciAddress)
    requires IsOnTop(t0, hostname, t, part, address) && t0.edges == [] && Shape(t, part)
    requires BdfidId(hidden) in t0.ids && t0.ids[BdfidId(hidden)] == 0 && hidden != Pack(address)
    ensures !IsJoinedToTree(t.edges, 0, part.at)
  {
    HiddenKeepsName(t0, hostname, t, part, hidden);
    NotInTree(t0, t, part, hidden, address);
    NothingJoined(t0, t, part);
  }

  lemma HiddenKeepsName(t0: Snapshot, hostname: string, t: Snapshot, part: Part, hidden: bv64)
    requires Valid(t0) && Valid(t) && BdfidId(hidden) in t0.ids && t0.ids[BdfidId(hidden)] == 0 && part.at != []
    requires var start := H.RootSetUp(t0, hostname, part.machine); part.at[0] == start.root && NamesGrew(start, t)
    ensures BdfidId(hidden) in t.ids && t.ids[BdfidId(hidden)] == 0 && part.at[0] != 0
  {
    H.RootSetUpEffect(t0, hostname, part.machine);
    IdKinds(hostname, "", 0, hidden);
    var start := H.RootSetUp(t0, hostname, part.machine);
    assert MachineId(hostname) in start.ids && BdfidId(hidden) in start.ids;
  }

  lemma PuIsThere(t0: Snapshot, hostname: string, t: Snapshot, part: Part)
    requires Valid(t0) && Valid(t) && |part.at| == 1 + |part.slots| > 1
    requires ObjectAt(part.machine, part.slots, 1).objType == ObjPu
    requires var start := H.RootSetUp(t0, hostname, part.machine);
             && H.IsImage(t0, t, part.slots, part.at) && part.at[0] == start.root
             && Grew(start, t, part.machine, part.slots, part.at)
    ensures HasPu(t)
  {
    var start := H.RootSetUp(t0, hostname, part.machine);
    RootOrNothing(t0, start, hostname, part.machine);
    PlaceOfPosition(t0, start, t, part.machine, part.slots, part.at, 1);
    assert At(start, part.at[1]) == BLANK_VERTEX;
    assert IsPu(t, part.at[1]);
  }

  /** The root set-up adds no vertex but the root's. */
  lemma RootOrNothing(t0: Snapshot, start: Snapshot, hostname: string, machine: H.HwlocObj)
    requires Valid(t0) && start == H.RootSetUp(t0, hostname, machine)
    ensures |start.vertices| <= |t0.vertices| + 1 && (|start.vertices| > |t0.vertices| ==> start.root == |t0.vertices|)
  {
  }

  lemma NotInTree(t0: Snapshot, t: Snapshot, part: Part, hidden: bv64, address: PciAddress)
    requires Valid(t0) && Shape(t, part) && hidden != Pack(address) && part.at != []
    requires H.IsImage(t0, t, part.slots, part.at) && |part.at| == 1 + |part.slots|
    requires BdfidId(hidden) in t.ids && t.ids[BdfidId(hidden)] == 0 && part.at[0] != 0
    requires forall k :: 0 <= k < |part.slots| && H.IsPci(part.slots[k].obj) ==> part.slots[k].obj.address == address
    ensures 0 !in part.at
  {
    IdsInjective("", "", "", "", 0, 0, hidden, Pack(address));
    forall j: nat | 0 < j < |part.at|
      ensures part.at[j] != 0
    {
      var k: nat := j - 1;
      assert H.OwnVertex(t0, t, part.slots[k].obj, part.at[1 + k]);
    }
  }

  lemma NothingJoined(t0: Snapshot, t: Snapshot, part: Part)
    requires t0.edges == [] && H.EdgesOf(t0.edges, t.edges, part.at, 1, part.slots) && 0 !in part.at
    ensures !IsJoinedToTree(t.edges, 0, part.at)
  {
    forall e | e in t.edges
      ensures e.edgeType != GPU_INTERCONNECT
    {
      if e.edgeType == GPU_INTERCONNECT {
        var j := NewEdge(t0, t, part, e);
        assert false;
      }
    }
    if v :| v in part.at && IsJoined(t.edges, 0, v) {
      var p :| IsPath(t.edges, 0, p, v) && OnlyInterconnects(p);
      NotJoined(t.edges, 0, p, v);
    }
  }

  lemma StillPaired(hostname: string, m: G.GpuModule, hidden: G.Device, inTree: G.Device, address: PciAddress)
    ensures Paired(H.HwlocInit(G.GpuInit(EMPTY, m, [hidden, inTree], Unlinked()), hostname, PuAndDevice(address)).edges)
  {
    var machine := PuAndDevice(address);
    EmptyKeeps();
    G.GpuInitKeeps(EMPTY, m, [hidden, inTree], Unlinked());
    assert machine.children[1..] == [machine.children[1]] && machine.children[1..][1..] == [];
    assert HI.DevicesUnmasked(machine.children[1..]);
    HI.HwlocInitKeeps(G.GpuInit(EMPTY, m, [hidden, inTree], Unlinked()), hostname, machine);
  }

  /** A GPU step changes only vertices that are named as devices. */
  lemma ChangedIsDevice(t0: Snapshot, m: G.GpuModule, devices: seq<G.Device>, link: G.Links, v: nat)
    requires Valid(t0) && v < |t0.vertices|
    ensures var t := G.GpuInit(t0, m, devices, link);
            v < |t.vertices| && (t.vertices[v] != t0.vertices[v] ==> NamedAs(t0, v, BdfidKind))
  {
    var r, vertices := G.AddDevices(t0, m, devices), G.DeviceVertices(t0, m, devices);
    G.DevicesAssociated(t0, m, devices);
    G.NewAreGpus(t0, m, devices);
    if r.vertices[v] != t0.vertices[v] {
      var i :| 0 <= i < |vertices| && vertices[i] == v;
      assert G.Associated(t0, r, BdfidId(devices[i].bdfid), devices[i]);
      IdKinds("", "", 0, devices[i].bdfid);
      assert t0.ids[BdfidId(devices[i].bdfid)] == v;
    }
  }

  /** A device whose name is there becomes an accelerator. */
  lemma ListedIsAccelerator(t0: Snapshot, m: G.GpuModule, devices: seq<G.Device>, link: G.Links, i: nat)
    requires Valid(t0) && i < |devices| && BdfidId(devices[i].bdfid) in t0.ids
    ensures IsAcceleratorVertex(G.GpuInit(t0, m, devices, link), t0.ids[BdfidId(devices[i].bdfid)])
  {
    G.DevicesAssociated(t0, m, devices);
    assert G.Associated(t0, G.AddDevices(t0, m, devices), BdfidId(devices[i].bdfid), devices[i]);
  }

  lemma DeviceNames(t0: Snapshot, hostname: string, slots: seq<H.Slot>, address: PciAddress)
    requires NamesListed(t0, hostname, slots) && |slots| == 2
    requires slots[0].obj == PuAndDevice(address).children[0] && slots[1].obj == PuAndDevice(address).children[1]
    ensures forall id :: id in t0.ids && KindOf(id) == BdfidKind ==> id == BdfidId(Pack(address))
  {
    IdKinds(hostname, "", 0, 0);
    forall id | id in t0.ids && KindOf(id) == BdfidKind
      ensures id == BdfidId(Pack(address))
    {
      var k :| 0 <= k < |slots| && H.IsPci(slots[k].obj) && id == H.IdOf(slots[k].obj);
    }
  }

  /** hwloc has run on the machine alone: vertex 1 is the PU and 2 the device, and only the latter is named so. */
  lemma MachineOnly(hostname: string, address: PciAddress) returns (t0: Snapshot)
    ensures t0 == H.HwlocInit(EMPTY, hostname, PuAndDevice(address))
    ensures DistinctDevices(H.TreeSlots(PuAndDevice(address))) && Valid(t0) && |t0.vertices| == 3 && IsPu(t0, 1)
    ensures BdfidId(Pack(address)) in t0.ids && t0.ids[BdfidId(Pack(address))] == 2
    ensures forall id :: id in t0.ids && KindOf(id) == BdfidKind ==> id == BdfidId(Pack(address))
  {
    TwoSlots(address);
    var slots, root;
    t0, slots, root := FreshMachine(hostname, PuAndDevice(address));
    assert slots[1].obj == PuAndDevice(address).children[1] && H.IsPci(slots[1].obj);
    VertexIsObject(hostname, PuAndDevice(address), t0, slots, 1);
    DeviceNames(t0, hostname, slots, address);
  }

  /** hwloc first, then the GPU step: the listed GPU is the first accelerator, and the search is exact. */
  lemma HwlocFirst(hostname: string, m: G.GpuModule, hidden: G.Device, inTree: G.Device, address: PciAddress)
    requires inTree.bdfid == Pack(address)
    ensures var t := G.GpuInit(H.HwlocInit(EMPTY, hostname, PuAndDevice(address)), m, [hidden, inTree], Unlinked());
            && IsFirstAccelerator(t, 2) && HasPu(t)
            && forall v :: IsPrinted(t, 2, v) <==> IsNearest(t, 2, v)
  {
    var t0 := MachineOnly(hostname, address);
    var t1 := MachineTypes(hostname, PuAndDevice(address));
    var devices := [hidden, inTree];
    assert devices[1] == inTree;
    ListedIsAccelerator(t0, m, devices, Unlinked(), 1);
    ListedIsFirst(t0, G.GpuInit(t0, m, devices, Unlinked()), m, devices, address);
    SearchExactIff(hostname, PuAndDevice(address), m, devices, Unlinked(), 2);
  }

  lemma ListedIsFirst(t0: Snapshot, t: Snapshot, m: G.GpuModule, devices: seq<G.Device>, address: PciAddress)
    requires Valid(t0) && |t0.vertices| == 3 && IsPu(t0, 1) && forall v: nat :: !IsAcceleratorVertex(t0, v)
    requires BdfidId(Pack(address)) in t0.ids && t0.ids[BdfidId(Pack(address))] == 2
    requires forall id :: id in t0.ids && KindOf(id) == BdfidKind ==> id == BdfidId(Pack(address))
    requires t == G.GpuInit(t0, m, devices, Unlinked()) && IsAcceleratorVertex(t, 2)
    ensures IsFirstAccelerator(t, 2) && HasPu(t)
  {
    forall v: nat | v < 2
      ensures v < |t.vertices| && t.vertices[v] == t0.vertices[v] && !IsAcceleratorVertex(t0, v)
    {
      ChangedIsDevice(t0, m, devices, Unlinked(), v);
    }
    assert IsPu(t, 1);
  }

  /** The same two steps, in the two orders that init() may choose. */
  lemma OrderMatters(order: SortOrder, hostname: string, m: G.GpuModule, hidden: G.Device, inTree: G.Device,
                     address: PciAddress)
    requires Sorts(order) && inTree.bdfid == Pack(address) && hidden.bdfid != inTree.bdfid
    ensures var (hwloc, gpu) := (HwlocStep(hostname, PuAndDevice(address)), GpuStep(m, [hidden, inTree], Unlinked()));
            && AllAdmissible([gpu, hwloc]) && AllAdmissible([hwloc, gpu])
            && (var t := Run(order, [gpu, hwloc]);
                && IsFirstAccelerator(t, 0) && HasPu(t)
                && forall v :: IsPu(t, v) ==> IsPrinted(t, 0, v) && !IsNearest(t, 0, v))
            && (var t := Run(order, [hwloc, gpu]);
                && IsFirstAccelerator(t, 2) && HasPu(t)
                && forall v :: IsPrinted(t, 2, v) <==> IsNearest(t, 2, v))
  {
    var (hwloc, gpu) := (HwlocStep(hostname, PuAndDevice(address)), GpuStep(m, [hidden, inTree], Unlinked()));
    assert PuAndDevice(address).children[1..] == [PuAndDevice(address).children[1]];
    assert HI.DevicesUnmasked(PuAndDevice(address).children[1..]);
    RunOfTwo(order, gpu, hwloc);
    RunOfTwo(order, hwloc, gpu);
    GpuStepFirst(hostname, m, hidden, inTree, address);
    HwlocFirst(hostname, m, hidden, inTree, address);
  }

  lemma RunOfTwo(order: SortOrder, first: Step, second: Step)
    requires Sorts(order) && Admissible(first) && Admissible(second)
    ensures AllAdmissible([first]) && AllAdmissible([first, second])
    ensures Inv(EMPTY) && Paired(EMPTY.edges) && Inv(RunStep(EMPTY, order, first))
    ensures Run(order, [first, second]) == RunStep(RunStep(EMPTY, order, first), order, second)
  {
    EmptyKeeps();
    RunOfOne(order, first);
    RunStepKeeps(EMPTY, order, first);
    assert [first] + [second] == [first, second];
    RunSnoc(order, [first], second);
  }

  lemma RunOfOne(order: SortOrder, step: Step)
    requires Sorts(order) && Admissible(step)
    ensures Inv(EMPTY) && AllAdmissible([step]) && Run(order, [step]) == RunStep(EMPTY, order, step)
  {
    EmptyKeeps();
    assert [step][..0] == [];
  }
}
