/** An object tree with distinct devices, built on the empty graph: vertex i is the object at position i. */
module HwlocTree {
  import opened Components
  import opened Hwloc
  import opened Identity
  import opened Options
  import opened ParentArrays
  import P = Properties
  import opened Topology

  /** No two PCI devices of the list have the same packed address. */
  ghost predicate DistinctDevices(slots: seq<Slot>) {
    forall j, k :: 0 <= j < k < |slots| && IsPci(slots[j].obj) && IsPci(slots[k].obj)
                   ==> Pack(slots[j].obj.address) != Pack(slots[k].obj.address)
  }

  /** The parents of the positions; the machine at position 0 is the root. */
  ghost function ParentsOf(slots: seq<Slot>): (par: seq<nat>)
    ensures |par| == 1 + |slots| && par[0] == 0 && forall k :: 0 <= k < |slots| ==> par[1 + k] == slots[k].parent
  {
    [0] + seq(|slots|, k requires 0 <= k < |slots| => slots[k].parent)
  }

  /** Names of devices only occur if the device is listed. */
  ghost predicate NamesListed(t: Snapshot, hostname: string, slots: seq<Slot>) {
    forall id :: id in t.ids ==>
      id == MachineId(hostname) || exists k :: 0 <= k < |slots| && IsPci(slots[k].obj) && id == IdOf(slots[k].obj)
  }

  /** Vertex 0 is the root vertex; every other carries exactly its object's adapter and type. */
  ghost predicate Decorated(t: Snapshot, root: Vertex, slots: seq<Slot>) {
    && |t.vertices| == 1 + |slots| && t.vertices[0] == root
    && forall k :: 0 <= k < |slots| ==> t.vertices[1 + k] == Decorate(BLANK_VERTEX, slots[k].obj)
  }

  ghost predicate Fresh(b: Construction, hostname: string, root: Vertex, slots: seq<Slot>) {
    && Ready(b) && |b.at| == 1 + |slots| && (forall i :: 0 <= i < |b.at| ==> b.at[i] == i)
    && NamesListed(b.state, hostname, slots) && Decorated(b.state, root, slots)
    && TreeGraph(b.state, ParentsOf(slots))
  }

  /** A device not listed yet has no name yet. */
  lemma NewIsUnnamed(t: Snapshot, hostname: string, slots: seq<Slot>, obj: HwlocObj)
    requires NamesListed(t, hostname, slots) && IsPci(obj)
    requires forall k :: 0 <= k < |slots| && IsPci(slots[k].obj) ==> Pack(slots[k].obj.address) != Pack(obj.address)
    ensures IdOf(obj) !in t.ids
  {
    IdsOfObjects(obj, obj, hostname);
    forall k | 0 <= k < |slots| && IsPci(slots[k].obj)
      ensures IdOf(slots[k].obj) != IdOf(obj)
    {
      IdsOfObjects(slots[k].obj, obj, hostname);
    }
  }

  /** Adding an object that has no vertex yet. */
  lemma AddFresh(t: Snapshot, parent: nat, obj: HwlocObj)
    requires Valid(t) && parent < |t.vertices| && (IsPci(obj) ==> IdOf(obj) !in t.ids)
    ensures var (r, v) := AddObject(t, parent, obj);
            && v == |t.vertices| && r.vertices == t.vertices + [Decorate(BLANK_VERTEX, obj)]
            && r.edges == t.edges + ParentChild(parent, |t.vertices|)
            && (forall id :: id in r.ids ==> id in t.ids || (IsPci(obj) && id == IdOf(obj)))
  {
  }

  lemma FreshStep(b: Construction, hostname: string, root: Vertex, slots: seq<Slot>, s: Slot, r: Construction)
    requires Fresh(b, hostname, root, slots) && s.parent < |b.at|
    requires IsPci(s.obj) ==> IdOf(s.obj) !in b.state.ids
    requires IsNext(b, s, r) && Ready(r)
    ensures Fresh(r, hostname, root, slots + [s])
  {
    AddFresh(b.state, s.parent, s.obj);
    FreshNames(b.state, r.state, hostname, slots, s);
    assert ParentsOf(slots + [s]) == ParentsOf(slots) + [s.parent];
    NewChild(b.state, ParentsOf(slots), r.state, s.parent);
  }

  lemma FreshNames(t: Snapshot, r: Snapshot, hostname: string, slots: seq<Slot>, s: Slot)
    requires NamesListed(t, hostname, slots)
    requires forall id :: id in r.ids ==> id in t.ids || (IsPci(s.obj) && id == IdOf(s.obj))
    ensures NamesListed(r, hostname, slots + [s])
  {
    var slots' := slots + [s];
    forall id | id in r.ids && id != MachineId(hostname)
      ensures exists k :: 0 <= k < |slots'| && IsPci(slots'[k].obj) && id == IdOf(slots'[k].obj)
    {
      if id in t.ids {
        var k :| 0 <= k < |slots| && IsPci(slots[k].obj) && id == IdOf(slots[k].obj);
        assert slots'[k] == slots[k];
      } else {
        assert slots'[|slots|] == s;
      }
    }
  }

  lemma LastSlot(slots: seq<Slot>)
    requires slots != []
    ensures slots[..|slots| - 1] + [slots[|slots| - 1]] == slots
  {
  }

  lemma DistinctFromEarlier(t: Snapshot, hostname: string, slots: seq<Slot>)
    requires slots != [] && DistinctDevices(slots) && NamesListed(t, hostname, slots[..|slots| - 1])
    ensures IsPci(slots[|slots| - 1].obj) ==> IdOf(slots[|slots| - 1].obj) !in t.ids
  {
    var n := |slots| - 1;
    if IsPci(slots[n].obj) {
      forall k | 0 <= k < n && IsPci(slots[..n][k].obj)
        ensures Pack(slots[..n][k].obj.address) != Pack(slots[n].obj.address)
      {
        assert slots[..n][k] == slots[k];
      }
      NewIsUnnamed(t, hostname, slots[..n], slots[n].obj);
    }
  }

  lemma FreshLast(earlier: Construction, hostname: string, root: Vertex, slots: seq<Slot>, es: seq<Slot>,
                  r: Construction)
    requires slots != [] && es == slots[..|slots| - 1] && Fresh(earlier, hostname, root, es)
    requires ParentsPrecede(slots, 1) && DistinctDevices(slots)
    requires slots[|slots| - 1].parent < |earlier.at| && IsNext(earlier, slots[|slots| - 1], r) && Ready(r)
    ensures Fresh(r, hostname, root, slots)
  {
    DistinctFromEarlier(earlier.state, hostname, slots);
    LastSlot(slots);
    FreshStep(earlier, hostname, root, es, slots[|slots| - 1], r);
  }

  lemma {:induction false} FreshBuild(b: Construction, hostname: string, root: Vertex, slots: seq<Slot>,
                                      r: Construction)
    requires Fresh(b, hostname, root, []) && ParentsPrecede(slots, 1) && DistinctDevices(slots)
    requires r == Build(AddObject, b, slots)
    ensures Fresh(r, hostname, root, slots)
  {
    if slots != [] {
      var es := slots[..|slots| - 1];
      FreshBuild(b, hostname, root, es, Build(AddObject, b, es));
      var earlier, r' := BuildLast(b, slots);
      FreshLast(earlier, hostname, root, slots, es, r);
    }
  }

  /** The graph of a machine on the empty graph. */
  lemma FreshMachine(hostname: string, machine: HwlocObj) returns (t: Snapshot, slots: seq<Slot>, root: Vertex)
    requires DistinctDevices(TreeSlots(machine))
    ensures t == HwlocInit(EMPTY, hostname, machine) && slots == TreeSlots(machine) && ParentsPrecede(slots, 1)
    ensures root == RootVertex(BLANK_VERTEX, hostname, machine)
    ensures Valid(t) && t.root == 0 && Decorated(t, root, slots) && TreeGraph(t, ParentsOf(slots))
    ensures NamesListed(t, hostname, slots)
    ensures MachineId(hostname) in t.ids && t.ids[MachineId(hostname)] == 0
    ensures forall k :: 0 <= k < |slots| && IsPci(slots[k].obj) ==>
              IdOf(slots[k].obj) in t.ids && t.ids[IdOf(slots[k].obj)] == 1 + k
  {
    slots, root := TreeSlots(machine), RootVertex(BLANK_VERTEX, hostname, machine);
    var start := RootSetUp(EMPTY, hostname, machine);
    RootSetUpEffect(EMPTY, hostname, machine);
    RootIsFresh(hostname, machine);
    var r := BuildOfTree(start, machine, slots);
    FreshBuild(Built(start, [start.root]), hostname, root, slots, r);
    t := r.state;
    forall k | 0 <= k < |slots| && IsPci(slots[k].obj)
      ensures IdOf(slots[k].obj) in t.ids && t.ids[IdOf(slots[k].obj)] == 1 + k
    {
      assert OwnVertex(start, t, slots[k].obj, r.at[1 + k]);
    }
  }

  lemma RootIsFresh(hostname: string, machine: HwlocObj)
    ensures var start := RootSetUp(EMPTY, hostname, machine);
            && Fresh(Built(start, [start.root]), hostname, RootVertex(BLANK_VERTEX, hostname, machine), [])
            && start.root == 0
  {
    var start := RootSetUp(EMPTY, hostname, machine);
    RootSetUpEffect(EMPTY, hostname, machine);
    assert start.vertices == [RootVertex(BLANK_VERTEX, hostname, machine)];
    forall e
      ensures e in start.edges <==> IsTreeEdge(ParentsOf([]), e)
    {
    }
  }

  // ---- masks and types of the vertices

  /** The object at a position. */
  ghost function ObjectAt(machine: HwlocObj, slots: seq<Slot>, i: nat): HwlocObj {
    if 0 < i <= |slots| then slots[i - 1].obj else machine
  }

  /** The mask of a vertex is the cpuset of its object, its type the object's, its description the object's type
      string or, for the machine, the host name. */
  lemma VertexIsObject(hostname: string, machine: HwlocObj, t: Snapshot, slots: seq<Slot>, i: nat)
    requires Decorated(t, RootVertex(BLANK_VERTEX, hostname, machine), slots) && i < |t.vertices|
    ensures MaskOf(t, i) == ObjectAt(machine, slots, i).cpuset
    ensures t.vertices[i].componentType == YlocType(ObjectAt(machine, slots, i).objType)
    ensures t.vertices[i].description == if i == 0 then hostname else ObjectAt(machine, slots, i).typeString
    ensures !IsRank(t, i)
  {
    P.CpuMaskAppend([], HwlocAdapter(ObjectAt(machine, slots, i)));
    if i > 0 {
      assert t.vertices[1 + (i - 1)] == Decorate(BLANK_VERTEX, slots[i - 1].obj);
    }
  }

  /** The memory size an object has: caches, memory-side caches and NUMA nodes have one. */
  function MemoryOf(obj: HwlocObj): Option<nat> {
    match obj.objType
    case ObjCache(_) => Some(obj.size)
    case ObjICache(_) => Some(obj.size)
    case ObjNumaNode => Some(obj.size)
    case ObjMemCache => Some(obj.size)
    case _ => None
  }

  /** `a` is the adapter of an object: it answers its memory size, its address if it is a PCI device, its cpuset, and
      nothing else, and is called by its type string. */
  ghost predicate IsObjectAdapter(a: P.Adapter, obj: HwlocObj) {
    && a.text == obj.typeString && a.memory == MemoryOf(obj) && a.cpuMask == obj.cpuset
    && a.bdfid == (if obj.objType.ObjPciDevice? then Some(Pack(obj.address)) else None)
    && a.mpiRank == None && a.others == map[] && a.moduleMap == map[]
  }

  /** What an object's vertex answers: memory exactly for caches and memory objects, a bdfid exactly for PCI
      devices, its cpuset, and no other property. */
  lemma ObjectAnswers(obj: HwlocObj)
    ensures IsObjectAdapter(HwlocAdapter(obj), obj) && Decorate(BLANK_VERTEX, obj).adapters == [HwlocAdapter(obj)]
    ensures var adapters := Decorate(BLANK_VERTEX, obj).adapters;
            && P.Lookup(adapters, P.Memory, P.TypeU64)
               == (match MemoryOf(obj) { case Some(size) => Some(P.U64(size)) case None => None })
            && P.Lookup(adapters, P.BdfId, P.TypeU64)
               == (if obj.objType.ObjPciDevice? then Some(P.U64(ToNat(Pack(obj.address)))) else None)
            && P.CpuMask(adapters) == obj.cpuset
            && forall name :: name !in {P.Memory, P.BdfId} ==> P.Lookup(adapters, name, P.TypeU64) == None
  {
    var adapters := Decorate(BLANK_VERTEX, obj).adapters;
    assert adapters == [HwlocAdapter(obj)];
    forall name
      ensures P.Lookup(adapters, name, P.TypeU64) == P.Offer(HwlocAdapter(obj), name, P.TypeU64)
    {
      P.OneAdapter(HwlocAdapter(obj), name, P.TypeU64);
    }
    P.CpuMaskAppend([], HwlocAdapter(obj));
    assert [] + [HwlocAdapter(obj)] == [HwlocAdapter(obj)];
  }

  /** In-range devices that answer the same bdfid have the same address. */
  lemma SameBdfidSameAddress(a: HwlocObj, b: HwlocObj)
    requires IsPci(a) && IsPci(b) && InRange(a.address) && InRange(b.address)
    ensures var (x, y) := (Decorate(BLANK_VERTEX, a).adapters, Decorate(BLANK_VERTEX, b).adapters);
            P.Lookup(x, P.BdfId, P.TypeU64) == P.Lookup(y, P.BdfId, P.TypeU64) <==> a.address == b.address
  {
    ObjectAnswers(a);
    ObjectAnswers(b);
    PackRoundTrip(a.address);
    PackRoundTrip(b.address);
    if ToNat(Pack(a.address)) == ToNat(Pack(b.address)) {
      ToNatInjective(Pack(a.address), Pack(b.address));
    }
  }
}
