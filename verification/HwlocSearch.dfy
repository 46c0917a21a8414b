/** The example's nearest-PU search on a machine with GPUs: it is exact if and only if some GPU is an object of the
    machine's tree. */
module HwlocSearch {
  import opened Components
  import opened FindDistances
  import G = Gpu
  import opened Hwloc
  import opened HwlocQueries
  import opened HwlocTree
  import opened Identity
  import opened Options
  import opened Paths
  import opened Topology

  /** Some device has the identifier of an object of the tree. */
  ghost predicate SomeDeviceInTree(t0: Snapshot, devices: seq<G.Device>) {
    exists i :: 0 <= i < |devices| && BdfidId(devices[i].bdfid) in t0.ids
  }

  /** hwloc's own vertices are no accelerators. */
  lemma MachineTypes(hostname: string, machine: HwlocObj) returns (t0: Snapshot)
    requires DistinctDevices(TreeSlots(machine))
    ensures t0 == HwlocInit(EMPTY, hostname, machine) && Valid(t0) && |t0.vertices| == 1 + |TreeSlots(machine)|
    ensures forall v: nat :: !IsAcceleratorVertex(t0, v)
  {
    var slots, root;
    t0, slots, root := FreshMachine(hostname, machine);
    forall v: nat | v < |t0.vertices|
      ensures !IsAcceleratorVertex(t0, v)
    {
      VertexIsObject(hostname, machine, t0, slots, v);
    }
  }

  /** The vertices of a GPU step: a device of the tree comes before every vertex that is not in the tree. */
  lemma FirstIsInTree(t0: Snapshot, m: G.GpuModule, devices: seq<G.Device>, link: G.Links, start: nat)
    requires Valid(t0) && (forall v: nat :: !IsAcceleratorVertex(t0, v))
    requires IsFirstAccelerator(G.GpuInit(t0, m, devices, link), start)
    ensures start < |t0.vertices| <==> SomeDeviceInTree(t0, devices)
    ensures !SomeDeviceInTree(t0, devices) ==>
              forall i :: 0 <= i < |devices| ==> |t0.vertices| <= G.DeviceVertices(t0, m, devices)[i]
  {
    var r, vertices := G.AddDevices(t0, m, devices), G.DeviceVertices(t0, m, devices);
    G.DevicesAssociated(t0, m, devices);
    G.NewAreGpus(t0, m, devices);
    if i :| 0 <= i < |devices| && BdfidId(devices[i].bdfid) in t0.ids {
      assert G.Associated(t0, r, BdfidId(devices[i].bdfid), devices[i]);
      assert IsAcceleratorVertex(G.GpuInit(t0, m, devices, link), vertices[i]);
    } else {
      forall i | 0 <= i < |devices|
        ensures |t0.vertices| <= vertices[i]
      {
        assert G.Associated(t0, r, BdfidId(devices[i].bdfid), devices[i]);
      }
      forall v: nat | v < |t0.vertices|
        ensures !IsAcceleratorVertex(G.GpuInit(t0, m, devices, link), v)
      {
        assert v !in vertices && !IsAcceleratorVertex(t0, v);
      }
    }
  }

  /** Where no edge leads out of the vertices from n on, no path does. */
  lemma {:induction false} PathStaysOutside(es: seq<Edge>, n: nat, u: nat, p: seq<Edge>, v: nat)
    requires forall e :: e in es && n <= e.source ==> n <= e.target
    requires IsPath(es, u, p, v) && n <= u
    ensures n <= v
  {
    if p != [] {
      PathStaysOutside(es, n, u, p[..|p| - 1], p[|p| - 1].source);
    }
  }

  lemma OutsideIsApart(t0: Snapshot, m: G.GpuModule, devices: seq<G.Device>, link: G.Links, start: nat, v: nat)
    requires Valid(t0) && |t0.vertices| <= start && v < |t0.vertices|
    requires forall i :: 0 <= i < |devices| ==> |t0.vertices| <= G.DeviceVertices(t0, m, devices)[i]
    ensures !Reachable(G.GpuInit(t0, m, devices, link).edges, start, v)
  {
    var es := G.GpuInit(t0, m, devices, link).edges;
    var vertices := G.DeviceVertices(t0, m, devices);
    G.DevicesAssociated(t0, m, devices);
    forall e | e in es && |t0.vertices| <= e.source
      ensures |t0.vertices| <= e.target
    {
      assert e in t0.edges || e in G.LinkEdges(vertices, link, |devices|);
      G.LinkEdgesHave(vertices, link, |devices|, e);
    }
    if p :| IsPath(es, start, p, v) {
      PathStaysOutside(es, |t0.vertices|, start, p, v);
    }
  }

  lemma PusAreInTree(t0: Snapshot, m: G.GpuModule, devices: seq<G.Device>, link: G.Links, v: nat)
    requires Valid(t0) && IsPu(G.GpuInit(t0, m, devices, link), v)
    ensures v < |t0.vertices|
  {
    G.NewAreGpus(t0, m, devices);
  }

  lemma InsideIsConnected(hostname: string, machine: HwlocObj, m: G.GpuModule, devices: seq<G.Device>, link: G.Links,
                          u: nat, v: nat)
    requires DistinctDevices(TreeSlots(machine)) && u < 1 + |TreeSlots(machine)| && v < 1 + |TreeSlots(machine)|
    ensures Reachable(G.GpuInit(HwlocInit(EMPTY, hostname, machine), m, devices, link).edges, u, v)
  {
    var t0 := HwlocInit(EMPTY, hostname, machine);
    MachineIsConnected(hostname, machine, u, v);
    var t1 := MachineTypes(hostname, machine);
    G.DevicesAssociated(t0, m, devices);
    var p :| IsPath(t0.edges, u, p, v);
    MoreEdges(t0.edges, G.GpuInit(t0, m, devices, link).edges, u, p, v);
  }

  /** On one machine with any GPUs: the search from the first accelerator prints exactly the nearest PUs if and only
      if some GPU is a PCI object of the tree; otherwise it prints all of them, and none can be reached. */
  lemma SearchExactIff(hostname: string, machine: HwlocObj, m: G.GpuModule, devices: seq<G.Device>, link: G.Links,
                       start: nat)
    requires DistinctDevices(TreeSlots(machine))
    requires var t := G.GpuInit(HwlocInit(EMPTY, hostname, machine), m, devices, link);
             IsFirstAccelerator(t, start) && HasPu(t)
    ensures var t0 := HwlocInit(EMPTY, hostname, machine); var t := G.GpuInit(t0, m, devices, link);
            && ((forall v :: IsPrinted(t, start, v) <==> IsNearest(t, start, v)) <==> SomeDeviceInTree(t0, devices))
            && (!SomeDeviceInTree(t0, devices) ==>
                  forall v :: IsPu(t, v) ==> IsPrinted(t, start, v) && !IsNearest(t, start, v))
  {
    var t0 := MachineTypes(hostname, machine);
    var t := G.GpuInit(t0, m, devices, link);
    FirstIsInTree(t0, m, devices, link, start);
    forall w | IsPu(t, w)
      ensures Reachable(t.edges, start, w) <==> SomeDeviceInTree(t0, devices)
    {
      PusAreInTree(t0, m, devices, link, w);
      if SomeDeviceInTree(t0, devices) {
        InsideIsConnected(hostname, machine, m, devices, link, start, w);
      } else {
        OutsideIsApart(t0, m, devices, link, start, w);
      }
    }
    ExactIff(t, start, SomeDeviceInTree(t0, devices));
  }

  // ---- a machine on which the search is wrong

  function OnePu(): HwlocObj {
    var no := PciAddress(0, 0, 0, 0);
    HwlocObj(ObjMachine, no, Some({0}), 0, "Machine", [HwlocObj(ObjPu, no, Some({0}), 0, "PU", [])])
  }

  /** A machine without the GPU in its tree, as when hwloc filters PCI devices: the only PU is printed at distance 0
      from a GPU that cannot reach it. */
  lemma HiddenGpu(hostname: string, m: G.GpuModule, gpu: G.Device, link: G.Links)
    ensures var t := G.GpuInit(HwlocInit(EMPTY, hostname, OnePu()), m, [gpu], link);
            && IsFirstAccelerator(t, 2) && IsPu(t, 1)
            && IsPrinted(t, 2, 1) && !IsNearest(t, 2, 1) && HopDistance(t.edges, 2, 1) == 0
  {
    var t0 := OnePuGraph(hostname);
    NoSuchName(t0, hostname, gpu.bdfid);
    OneDevice(t0, m, gpu);
    OnlyAccelerator(t0, m, gpu, link);
    SearchExactIff(hostname, OnePu(), m, [gpu], link, 2);
    OutsideIsApart(t0, m, [gpu], link, 2, 1);
    UnreachableIsZero(G.GpuInit(t0, m, [gpu], link).edges, 2, 1);
  }

  /** Two vertices, the second a PU, and one name. */
  lemma OnePuGraph(hostname: string) returns (t0: Snapshot)
    ensures t0 == HwlocInit(EMPTY, hostname, OnePu()) && DistinctDevices(TreeSlots(OnePu()))
    ensures Valid(t0) && |t0.vertices| == 2 && IsPu(t0, 1) && forall v: nat :: !IsAcceleratorVertex(t0, v)
    ensures forall id :: id in t0.ids ==> id == MachineId(hostname)
  {
    var machine := OnePu();
    assert TreeSlots(machine) == [Slot(machine.children[0], 0)] by {
      assert machine.children[1..] == [];
    }
    var slots, root;
    t0, slots, root := FreshMachine(hostname, machine);
    var t1 := MachineTypes(hostname, machine);
    VertexIsObject(hostname, machine, t0, slots, 1);
  }

  lemma NoSuchName(t0: Snapshot, hostname: string, bdfid: bv64)
    requires forall id :: id in t0.ids ==> id == MachineId(hostname)
    ensures BdfidId(bdfid) !in t0.ids
  {
    IdKinds(hostname, "", 0, bdfid);
  }

  lemma OnlyAccelerator(t0: Snapshot, m: G.GpuModule, gpu: G.Device, link: G.Links)
    requires Valid(t0) && |t0.vertices| == 2 && IsPu(t0, 1) && forall v: nat :: !IsAcceleratorVertex(t0, v)
    requires G.AddDevices(t0, m, [gpu]).vertices == t0.vertices + [G.DeviceVertex(BLANK_VERTEX, m, gpu)]
    ensures var t := G.GpuInit(t0, m, [gpu], link); IsFirstAccelerator(t, 2) && IsPu(t, 1)
  {
    var t := G.GpuInit(t0, m, [gpu], link);
    forall v: nat | v < 2
      ensures !IsAcceleratorVertex(t, v)
    {
      assert !IsAcceleratorVertex(t0, v) && t.vertices[v] == t0.vertices[v];
    }
  }

  lemma OneDevice(t: Snapshot, m: G.GpuModule, gpu: G.Device)
    requires Valid(t) && BdfidId(gpu.bdfid) !in t.ids
    ensures G.DeviceVertices(t, m, [gpu]) == [|t.vertices|]
    ensures G.AddDevices(t, m, [gpu]).vertices == t.vertices + [G.DeviceVertex(BLANK_VERTEX, m, gpu)]
  {
    assert [gpu][..0] == [];
    assert G.AddDevices(t, m, [gpu]) == G.AddDevice(G.AddDevices(t, m, []), m, gpu);
  }
}
