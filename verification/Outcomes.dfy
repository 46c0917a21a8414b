/** What every module step that has run shows in the graph at the end, whatever steps ran before and after it; and where
    the direct connections in that graph come from. Stated of names, adapters and edges alone. */
module Outcomes {
  import Affinity
  import opened Components
  import Descent
  import G = Gpu
  import opened GpuVertices
  import opened Growth
  import H = Hwloc
  import opened HwlocLooks
  import opened HwlocTree
  import opened Identity
  import opened Invariants
  import M = Mpi
  import opened Options
  import opened Placement
  import opened Runs
  import opened Sorting
  import opened StepNames
  import S = Supermuc
  import opened SystemLinks
  import opened Topology

  // ---- hwloc

  ghost predicate CarriesObject(t: Snapshot, v: nat, obj: H.HwlocObj) {
    v < |t.vertices| && exists a :: a in t.vertices[v].adapters && IsObjectAdapter(a, obj)
  }

  ghost predicate SlotIsShown(t: Snapshot, slots: seq<H.Slot>, at: seq<nat>, k: nat)
    requires k < |slots| && |at| == 1 + |slots|
  {
    && slots[k].parent <= k && Linked(t.edges, at[slots[k].parent], at[1 + k])
    && CarriesObject(t, at[1 + k], slots[k].obj)
    && (slots[k].obj.objType.ObjPciDevice? ==> IsNamed(t, at[1 + k], BdfidId(Pack(slots[k].obj.address))))
    && at[1 + k] != at[0]
  }

  /** `at` gives the vertex of every object of the machine's tree: that of the machine has its name, those of devices
      theirs; children hang under their parents; every object's adapter is there; only devices of the same address
      share a vertex. */
  ghost predicate TreeIsShown(t: Snapshot, hostname: string, machine: H.HwlocObj, slots: seq<H.Slot>, at: seq<nat>) {
    && |at| == 1 + |slots| && IsNamed(t, at[0], MachineId(hostname)) && CarriesObject(t, at[0], machine)
    && (forall k :: 0 <= k < |slots| ==> SlotIsShown(t, slots, at, k))
    && (forall j, k :: 0 <= j < k < |slots| ==>
          (at[1 + j] == at[1 + k] <==> H.IsPci(slots[j].obj) && H.IsPci(slots[k].obj)
                                       && Pack(slots[j].obj.address) == Pack(slots[k].obj.address)))
  }

  lemma CarriesStill(t: Snapshot, r: Snapshot, v: nat, obj: H.HwlocObj)
    requires Extended(t, r) && CarriesObject(t, v, obj)
    ensures CarriesObject(r, v, obj)
  {
    var a :| a in t.vertices[v].adapters && IsObjectAdapter(a, obj);
    assert t.vertices[v].adapters <= r.vertices[v].adapters;
    Occurs(t.vertices[v].adapters, r.vertices[v].adapters, a);
  }

  lemma Occurs<T>(s: seq<T>, more: seq<T>, x: T)
    requires s <= more && x in s
    ensures x in more
  {
    assert more == s + more[|s|..];
  }

  lemma TreeStaysShown(t: Snapshot, r: Snapshot, hostname: string, machine: H.HwlocObj, slots: seq<H.Slot>,
                       at: seq<nat>)
    requires Extended(t, r) && TreeIsShown(t, hostname, machine, slots, at)
    ensures TreeIsShown(r, hostname, machine, slots, at)
  {
    CarriesStill(t, r, at[0], machine);
    forall k | 0 <= k < |slots|
      ensures SlotIsShown(r, slots, at, k)
    {
      assert SlotIsShown(t, slots, at, k);
      CarriesStill(t, r, at[1 + k], slots[k].obj);
    }
  }

  lemma AddObjectCarries(t: Snapshot, parent: nat, obj: H.HwlocObj)
    requires Valid(t) && parent < |t.vertices|
    ensures var (r, v) := H.AddObject(t, parent, obj); CarriesObject(r, v, obj)
  {
    var (r, v) := H.AddObject(t, parent, obj);
    H.AddObjectValid(t, parent, obj);
    ObjectAnswers(obj);
    var adapters := r.vertices[v].adapters;
    assert adapters[|adapters| - 1] == H.HwlocAdapter(obj);
  }

  ghost predicate AllCarry(t: Snapshot, slots: seq<H.Slot>, at: seq<nat>) {
    |at| == 1 + |slots| && forall k :: 0 <= k < |slots| ==> CarriesObject(t, at[1 + k], slots[k].obj)
  }

  lemma {:induction false} BuildCarries(b: H.Construction, slots: seq<H.Slot>, r: H.Construction)
    requires H.Ready(b) && |b.at| == 1 && H.ParentsPrecede(slots, 1) && r == H.Build(H.AddObject, b, slots)
    ensures AllCarry(r.state, slots, r.at)
  {
    if slots != [] {
      var n := |slots| - 1;
      H.BuildReady(b, slots[..n]);
      var earlier, r' := H.BuildLast(b, slots);
      BuildCarries(b, slots[..n], earlier);
      OneMoreCarries(earlier, slots, slots[..n], r);
    }
  }

  lemma OneMoreCarries(earlier: H.Construction, slots: seq<H.Slot>, ss: seq<H.Slot>, r: H.Construction)
    requires slots != [] && ss == slots[..|slots| - 1] && H.Ready(earlier) && AllCarry(earlier.state, ss, earlier.at)
    requires slots[|slots| - 1].parent < |earlier.at| && H.IsNext(earlier, slots[|slots| - 1], r)
    ensures AllCarry(r.state, slots, r.at)
  {
    var s := slots[|slots| - 1];
    var parent := earlier.at[s.parent];
    AddObjectCarries(earlier.state, parent, s.obj);
    AddObjectGrows(earlier.state, parent, s.obj);
    AllCarryMore(earlier.state, r.state, ss, slots, earlier.at, r.at);
  }

  lemma AllCarryMore(t: Snapshot, r: Snapshot, ss: seq<H.Slot>, slots: seq<H.Slot>, at: seq<nat>, more: seq<nat>)
    requires slots != [] && ss == slots[..|slots| - 1] && AllCarry(t, ss, at) && Extended(t, r)
    requires |more| == |at| + 1 && more == at + [more[|at|]] && CarriesObject(r, more[|at|], slots[|slots| - 1].obj)
    ensures AllCarry(r, slots, more)
  {
    forall k | 0 <= k < |ss|
      ensures CarriesObject(r, more[1 + k], slots[k].obj)
    {
      CarriesStill(t, r, at[1 + k], ss[k].obj);
    }
  }

  lemma MachineCarries(t: Snapshot, hostname: string, machine: H.HwlocObj)
    requires Valid(t)
    ensures var start := H.RootSetUp(t, hostname, machine);
            CarriesObject(start, start.root, machine) && IsNamed(start, start.root, MachineId(hostname))
  {
    var start := H.RootSetUp(t, hostname, machine);
    H.RootSetUpEffect(t, hostname, machine);
    ObjectAnswers(machine);
    var adapters := start.vertices[start.root].adapters;
    assert adapters[|adapters| - 1] == H.HwlocAdapter(machine);
  }

  lemma HwlocShows(t: Snapshot, hostname: string, machine: H.HwlocObj) returns (at: seq<nat>)
    requires Valid(t)
    ensures TreeIsShown(H.HwlocInit(t, hostname, machine), hostname, machine, H.TreeSlots(machine), at)
  {
    var slots := H.TreeSlots(machine);
    var start := H.RootSetUp(t, hostname, machine);
    H.RootSetUpEffect(t, hostname, machine);
    var built := H.BuildOfTree(start, machine, slots);
    at := built.at;
    H.ImageOfBuild(t, start, hostname, built.state, slots, at);
    BuildCarries(H.Built(start, [start.root]), slots, built);
    MachineCarries(t, hostname, machine);
    SubtreeGrows(start, start.root, machine.children);
    ImageIsShown(t, start, built.state, hostname, machine, slots, at);
  }

  lemma ImageIsShown(t: Snapshot, start: Snapshot, r: Snapshot, hostname: string, machine: H.HwlocObj,
                     slots: seq<H.Slot>, at: seq<nat>)
    requires H.IsImage(t, r, slots, at) && AllCarry(r, slots, at) && Extended(start, r) && at[0] == start.root
    requires CarriesObject(start, start.root, machine) && IsNamed(start, start.root, MachineId(hostname))
    ensures TreeIsShown(r, hostname, machine, slots, at)
  {
    CarriesStill(start, r, start.root, machine);
    forall k | 0 <= k < |slots|
      ensures SlotIsShown(r, slots, at, k)
    {
      SlotShown(t, r, slots, at, k);
    }
  }

  lemma SlotShown(t: Snapshot, r: Snapshot, slots: seq<H.Slot>, at: seq<nat>, k: nat)
    requires H.IsImage(t, r, slots, at) && AllCarry(r, slots, at) && k < |slots|
    ensures SlotIsShown(r, slots, at, k)
  {
    assert H.OwnVertex(t, r, slots[k].obj, at[1 + k]);
    assert r.edges[|t.edges| + 2 * k] == Edge(at[slots[k].parent], at[1 + k], CHILD);
    assert r.edges[|t.edges| + 2 * k + 1] == Edge(at[1 + k], at[slots[k].parent], PARENT);
  }

  // ---- GPU modules

  ghost predicate DeviceIsShown(t: Snapshot, d: G.Device) {
    && BdfidId(d.bdfid) in t.ids && t.ids[BdfidId(d.bdfid)] < |t.vertices|
    && exists a :: a in t.vertices[t.ids[BdfidId(d.bdfid)]].adapters && a.bdfid == Some(d.bdfid) && a.text == d.text
  }

  /** e joins the vertices that two linked devices name, the first of which comes first. */
  ghost predicate JoinsPair(t: Snapshot, devices: seq<G.Device>, link: G.Links, i: nat, k: nat, e: Edge) {
    && i < k < |devices| && link(i, k)
    && BdfidId(devices[i].bdfid) in t.ids && BdfidId(devices[k].bdfid) in t.ids
    && e in GpuPair(t.ids[BdfidId(devices[i].bdfid)], t.ids[BdfidId(devices[k].bdfid)])
  }

  ghost predicate Joins(t: Snapshot, devices: seq<G.Device>, link: G.Links, e: Edge) {
    exists i: nat, k: nat :: JoinsPair(t, devices, link, i, k, e)
  }

  /** Every device has a vertex of its name with its adapter, and every linked pair is joined in both directions. */
  ghost predicate DevicesAreShown(t: Snapshot, devices: seq<G.Device>, link: G.Links) {
    && (forall i :: 0 <= i < |devices| ==> DeviceIsShown(t, devices[i]))
    && (forall e :: Joins(t, devices, link, e) ==> e in t.edges)
  }

  lemma DeviceStaysShown(t: Snapshot, r: Snapshot, d: G.Device)
    requires Extended(t, r) && DeviceIsShown(t, d)
    ensures DeviceIsShown(r, d)
  {
    var v := t.ids[BdfidId(d.bdfid)];
    var a :| a in t.vertices[v].adapters && a.bdfid == Some(d.bdfid) && a.text == d.text;
    assert t.vertices[v].adapters <= r.vertices[v].adapters;
    Occurs(t.vertices[v].adapters, r.vertices[v].adapters, a);
  }

  /** Connections are the same in a graph that has grown. */
  lemma JoinsStill(t: Snapshot, r: Snapshot, devices: seq<G.Device>, link: G.Links, e: Edge)
    requires Extended(t, r) && forall i :: 0 <= i < |devices| ==> DeviceIsShown(t, devices[i])
    ensures Joins(r, devices, link, e) <==> Joins(t, devices, link, e)
  {
    if i: nat, k: nat :| JoinsPair(r, devices, link, i, k, e) {
      assert DeviceIsShown(t, devices[i]) && DeviceIsShown(t, devices[k]);
      assert JoinsPair(t, devices, link, i, k, e);
    }
    if i: nat, k: nat :| JoinsPair(t, devices, link, i, k, e) {
      assert JoinsPair(r, devices, link, i, k, e);
    }
  }

  lemma DevicesStayShown(t: Snapshot, r: Snapshot, devices: seq<G.Device>, link: G.Links)
    requires Extended(t, r) && DevicesAreShown(t, devices, link)
    ensures DevicesAreShown(r, devices, link)
  {
    forall i | 0 <= i < |devices|
      ensures DeviceIsShown(r, devices[i])
    {
      DeviceStaysShown(t, r, devices[i]);
    }
    forall e | Joins(r, devices, link, e)
      ensures e in r.edges
    {
      JoinsStill(t, r, devices, link, e);
      Occurs(t.edges, r.edges, e);
    }
  }

  /** The edges that the step adds. */
  lemma LinkEdgesJoin(t: Snapshot, r: Snapshot, vertices: seq<nat>, devices: seq<G.Device>, link: G.Links, e: Edge)
    requires G.EachAssociated(t, r, vertices, devices)
    ensures e in G.LinkEdges(vertices, link, |devices|) <==> Joins(r, devices, link, e)
  {
    G.LinkEdgesHave(vertices, link, |devices|, e);
    if e in G.LinkEdges(vertices, link, |devices|) {
      var i, k := LinkedDevices(vertices, link, e);
      assert G.Associated(t, r, BdfidId(devices[i].bdfid), devices[i]);
      assert G.Associated(t, r, BdfidId(devices[k].bdfid), devices[k]);
      assert JoinsPair(r, devices, link, i, k, e);
    }
    if i: nat, k: nat :| JoinsPair(r, devices, link, i, k, e) {
      assert G.Interconnects(vertices, link, i, k, e);
      assert G.InRow(vertices, link, i, |vertices|, e);
    }
  }

  lemma AssociatedIsShown(t: Snapshot, r: Snapshot, d: G.Device)
    requires G.Associated(t, r, BdfidId(d.bdfid), d)
    ensures DeviceIsShown(r, d)
  {
    var v := r.ids[BdfidId(d.bdfid)];
    var before := At(t, v).adapters;
    assert G.DeviceAdapter(d) in r.vertices[v].adapters[|before|..];
    assert G.DeviceAdapter(d) in r.vertices[v].adapters;
  }

  /** Devices and connections after a GPU step: its own, and those that were there. */
  lemma GpuShows(t: Snapshot, m: G.GpuModule, devices: seq<G.Device>, link: G.Links)
    requires Valid(t)
    ensures var r := G.GpuInit(t, m, devices, link);
            && DevicesAreShown(r, devices, link)
            && forall e :: e in r.edges <==> e in t.edges || Joins(r, devices, link, e)
  {
    var added, vertices := G.AddDevices(t, m, devices), G.DeviceVertices(t, m, devices);
    var r := G.GpuInit(t, m, devices, link);
    G.DevicesAssociated(t, m, devices);
    forall e
      ensures e in G.LinkEdges(vertices, link, |devices|) <==> Joins(r, devices, link, e)
    {
      LinkEdgesJoin(t, added, vertices, devices, link, e);
      SameNamesJoin(added, r, devices, link, e);
    }
    forall i | 0 <= i < |devices|
      ensures DeviceIsShown(r, devices[i])
    {
      assert G.Associated(t, added, BdfidId(devices[i].bdfid), devices[i]);
      AssociatedIsShown(t, added, devices[i]);
    }
  }

  lemma SameNamesJoin(t: Snapshot, r: Snapshot, devices: seq<G.Device>, link: G.Links, e: Edge)
    requires r.ids == t.ids
    ensures Joins(r, devices, link, e) <==> Joins(t, devices, link, e)
  {
    if i: nat, k: nat :| JoinsPair(r, devices, link, i, k, e) {
      assert JoinsPair(t, devices, link, i, k, e);
    }
    if i: nat, k: nat :| JoinsPair(t, devices, link, i, k, e) {
      assert JoinsPair(r, devices, link, i, k, e);
    }
  }

  // ---- MPI

  ghost predicate HasRankAdapter(vertex: Vertex, env: M.Local, i: nat, r: M.Rank, mask: Option<Affinity.AffinityMask>) {
    && MaskIsRight(mask, env, r)
    && exists a :: a in vertex.adapters && a.text == Decimal(i) && a.mpiRank == Some(i) && a.cpuMask == mask
  }

  /** Rank i has a vertex of its name and type with its adapter, and hangs under its machine if it has no mask. */
  ghost predicate RankIsShown(t: Snapshot, env: M.Local, i: nat, r: M.Rank) {
    && MachineId(r.hostname) in t.ids && RankId(i) in t.ids && IsRank(t, t.ids[RankId(i)])
    && exists mask, place: nat :: RankHangs(t, env, i, r, mask, place)
  }

  ghost predicate RankHangs(t: Snapshot, env: M.Local, i: nat, r: M.Rank, mask: Option<Affinity.AffinityMask>,
                            place: nat)
    requires MachineId(r.hostname) in t.ids && RankId(i) in t.ids
  {
    && HasRankAdapter(At(t, t.ids[RankId(i)]), env, i, r, mask) && Linked(t.edges, place, t.ids[RankId(i)])
    && (mask.None? ==> place == t.ids[MachineId(r.hostname)])
  }

  lemma RankStaysShown(t: Snapshot, s: Snapshot, env: M.Local, i: nat, r: M.Rank)
    requires Extended(t, s) && RankIsShown(t, env, i, r)
    ensures RankIsShown(s, env, i, r)
  {
    var v := t.ids[RankId(i)];
    var mask, place: nat :| RankHangs(t, env, i, r, mask, place);
    IdKinds("", "", i, 0);
    assert NamedAs(t, v, RankKind) && t.vertices[v].adapters <= s.vertices[v].adapters;
    var a :| a in t.vertices[v].adapters && a.text == Decimal(i) && a.mpiRank == Some(i) && a.cpuMask == mask;
    Occurs(t.vertices[v].adapters, s.vertices[v].adapters, a);
    LinkedStays(t.edges, s.edges, place, v);
    assert RankHangs(s, env, i, r, mask, place);
  }

  lemma AddRankShows(t: Snapshot, env: M.Local, i: nat, r: M.Rank)
    requires Inv(t) && Sorts(env.order)
    ensures RankIsShown(M.AddRank(t, env, i, r), env, i, r)
  {
    M.SetUpRankKeeps(t, env, i, r);
    var s := M.SetUpRank(t, env, i, r);
    var added := M.AddRank(t, env, i, r);
    var mask := if M.LocalMask(env, r) == {} then None else Some(M.LocalMask(env, r));
    MaskOfRank(env, r);
    var v := s.ids[RankId(i)];
    SetUpCarries(t, env, i, r);
    NewLink(s.edges, M.Place(s, env, r), v);
    assert RankHangs(added, env, i, r, mask, M.Place(s, env, r));
  }

  lemma SetUpCarries(t: Snapshot, env: M.Local, i: nat, r: M.Rank)
    requires Inv(t)
    ensures var s := M.SetUpRank(t, env, i, r);
            var mask := if M.LocalMask(env, r) == {} then None else Some(M.LocalMask(env, r));
            && RankId(i) in s.ids && s.ids[RankId(i)] < |s.vertices|
            && M.MpiAdapter(i, mask) in s.vertices[s.ids[RankId(i)]].adapters
  {
    M.SetUpRankKeeps(t, env, i, r);
    var s := M.SetUpRank(t, env, i, r);
    var adapters := s.vertices[s.ids[RankId(i)]].adapters;
    assert adapters[|adapters| - 1] in adapters;
  }

  lemma NewLink(es: seq<Edge>, p: nat, c: nat)
    ensures Linked(es + ParentChild(p, c), p, c)
  {
    assert (es + ParentChild(p, c))[|es|] == Edge(p, c, CHILD);
    assert (es + ParentChild(p, c))[|es| + 1] == Edge(c, p, PARENT);
  }

  lemma OneMoreRank(t: Snapshot, s: Snapshot, env: M.Local, rs: seq<M.Rank>, ranks: seq<M.Rank>)
    requires ranks != [] && rs == ranks[..|ranks| - 1] && Extended(t, s)
    requires forall i: nat :: i < |rs| ==> RankIsShown(t, env, i, rs[i])
    requires RankIsShown(s, env, |ranks| - 1, ranks[|ranks| - 1])
    ensures forall i: nat :: i < |ranks| ==> RankIsShown(s, env, i, ranks[i])
  {
    forall i: nat | i < |rs|
      ensures RankIsShown(s, env, i, ranks[i])
    {
      assert RankIsShown(t, env, i, rs[i]);
      RankStaysShown(t, s, env, i, ranks[i]);
    }
  }

  lemma {:induction false} AddRanksShow(t: Snapshot, env: M.Local, ranks: seq<M.Rank>)
    requires Inv(t) && Sorts(env.order)
    ensures forall i: nat :: i < |ranks| ==> RankIsShown(M.AddRanks(t, env, ranks), env, i, ranks[i])
  {
    if ranks != [] {
      var n := |ranks| - 1;
      var earlier := M.AddRanks(t, env, ranks[..n]);
      AddRanksShow(t, env, ranks[..n]);
      AddRankShows(earlier, env, n, ranks[n]);
      AddRankGrows(earlier, env, n, ranks[n]);
      OneMoreRank(earlier, M.AddRanks(t, env, ranks), env, ranks[..n], ranks);
    }
  }

  // ---- every step

  /** What the step shows in a graph. */
  ghost predicate Shown(t: Snapshot, order: SortOrder, step: Step) {
    match step
    case HwlocStep(hostname, machine) => exists at :: TreeIsShown(t, hostname, machine, H.TreeSlots(machine), at)
    case SupermucStep(buffers) => forall i :: 0 <= i < |buffers| ==> HostIsLinked(t, NamesOf(buffers)[i])
    case MpiStep(hostname, nprocs, ranks) =>
      forall i: nat :: i < |ranks| ==> RankIsShown(t, M.Local(hostname, nprocs, order), i, ranks[i])
    case GpuStep(_, devices, link) => DevicesAreShown(t, devices, link)
    case FailedStep => true
  }

  lemma StaysShown(t: Snapshot, r: Snapshot, order: SortOrder, step: Step)
    requires Extended(t, r) && Shown(t, order, step)
    ensures Shown(r, order, step)
  {
    match step {
      case HwlocStep(hostname, machine) =>
        var at :| TreeIsShown(t, hostname, machine, H.TreeSlots(machine), at);
        TreeStaysShown(t, r, hostname, machine, H.TreeSlots(machine), at);
      case SupermucStep(buffers) =>
        forall i | 0 <= i < |buffers|
          ensures HostIsLinked(r, NamesOf(buffers)[i])
        {
          HostStaysLinked(t, r, NamesOf(buffers)[i]);
        }
      case MpiStep(hostname, nprocs, ranks) =>
        forall i: nat | i < |ranks|
          ensures RankIsShown(r, M.Local(hostname, nprocs, order), i, ranks[i])
        {
          RankStaysShown(t, r, M.Local(hostname, nprocs, order), i, ranks[i]);
        }
      case GpuStep(_, devices, link) => DevicesStayShown(t, r, devices, link);
      case FailedStep =>
    }
  }

  lemma StepShows(t: Snapshot, order: SortOrder, step: Step)
    requires Inv(t) && Paired(t.edges) && SystemsHang(t) && Sorts(order) && Admissible(step)
    ensures Shown(RunStep(t, order, step), order, step) && SystemsHang(RunStep(t, order, step))
  {
    match step {
      case HwlocStep(hostname, machine) =>
        var at := HwlocShows(t, hostname, machine);
        HwlocHangs(t, hostname, machine);
      case SupermucStep(buffers) => AddHostsLink(t, NamesOf(buffers));
      case MpiStep(hostname, nprocs, ranks) =>
        AddRanksShow(t, M.Local(hostname, nprocs, order), ranks);
        RanksHang(t, M.Local(hostname, nprocs, order), ranks);
      case GpuStep(gpu, devices, link) =>
        GpuShows(t, gpu, devices, link);
        GpuHangs(t, gpu, devices, link);
      case FailedStep =>
    }
  }

  lemma StepGrows(t: Snapshot, order: SortOrder, step: Step)
    requires Inv(t) && Sorts(order)
    ensures Grows(t, RunStep(t, order, step), step.MpiStep?, step.GpuStep?)
  {
    match step {
      case HwlocStep(hostname, machine) => HwlocInitGrows(t, hostname, machine);
      case SupermucStep(buffers) => AddHostsGrows(t, NamesOf(buffers));
      case MpiStep(hostname, nprocs, ranks) => AddRanksGrows(t, M.Local(hostname, nprocs, order), ranks);
      case GpuStep(gpu, devices, link) => GpuInitGrows(t, gpu, devices, link);
      case FailedStep => GrowsNot(t);
    }
  }

  lemma StepExtends(t: Snapshot, s: Snapshot, order: SortOrder, step: Step)
    requires Extended(t, s) && Inv(s) && Sorts(order)
    ensures Extended(t, RunStep(s, order, step))
    ensures RanksStay(t, s) && !step.MpiStep? ==> RanksStay(t, RunStep(s, order, step))
  {
    StepGrows(s, order, step);
    ExtendedOn(t, s, RunStep(s, order, step));
    if RanksStay(t, s) && !step.MpiStep? {
      RanksStayOn(t, s, RunStep(s, order, step));
    }
  }

  lemma Snoc<T>(early: seq<T>, later: seq<T>, steps: seq<T>)
    requires steps == early + later && later != []
    ensures steps[|steps| - 1] == later[|later| - 1]
    ensures steps[..|steps| - 1] == early + later[..|later| - 1]
  {
  }

  lemma NothingLater<T>(early: seq<T>, steps: seq<T>)
    requires steps == early + []
    ensures steps == early
  {
  }

  ghost predicate NoMpi(steps: seq<Step>) {
    forall s :: s in steps ==> !s.MpiStep?
  }

  lemma LastStep(order: SortOrder, steps: seq<Step>)
    requires Sorts(order) && AllAdmissible(steps) && steps != []
    ensures AllAdmissible(steps[..|steps| - 1])
    ensures Run(order, steps) == RunStep(Run(order, steps[..|steps| - 1]), order, steps[|steps| - 1])
  {
  }

  /** A graph later in a run; ranks are as they were if there was no MPI step between. */
  ghost predicate IsLater(t: Snapshot, r: Snapshot, noMpi: bool) {
    Extended(t, r) && (noMpi ==> RanksStay(t, r))
  }

  lemma LaterStill(t: Snapshot, s: Snapshot, order: SortOrder, step: Step, r: Snapshot, before: bool, after: bool)
    requires IsLater(t, s, before) && Inv(s) && Sorts(order) && r == RunStep(s, order, step)
    requires after ==> before && !step.MpiStep?
    ensures IsLater(t, r, after)
  {
    StepExtends(t, s, order, step);
  }

  /** A run extends what its first steps have built; only MPI steps touch ranks. */
  lemma {:induction false} RunExtends(order: SortOrder, early: seq<Step>, later: seq<Step>, steps: seq<Step>)
    requires Sorts(order) && AllAdmissible(steps) && AllAdmissible(early) && steps == early + later
    ensures IsLater(Run(order, early), Run(order, steps), NoMpi(later))
    decreases |later|
  {
    if later == [] {
      NothingLater(early, steps);
      GrowsNot(Run(order, steps));
    } else {
      var n := |steps| - 1;
      var ls := later[..|later| - 1];
      Snoc(early, later, steps);
      LastStep(order, steps);
      RunExtends(order, early, ls, steps[..n]);
      LaterStill(Run(order, early), Run(order, steps[..n]), order, steps[n], Run(order, steps), NoMpi(ls),
                 NoMpi(later));
    }
  }

  lemma RanksStayOn(t: Snapshot, s: Snapshot, r: Snapshot)
    requires Extended(t, s) && RanksStay(t, s) && RanksStay(s, r)
    ensures RanksStay(t, r)
  {
    forall v: nat | v < |t.vertices| && NamedAs(t, v, RankKind)
      ensures v < |r.vertices| && r.vertices[v] == t.vertices[v]
    {
      Growth.NameStays(t, s, v, RankKind);
    }
  }

  lemma OneMoreShown(t: Snapshot, r: Snapshot, order: SortOrder, ss: seq<Step>, steps: seq<Step>)
    requires steps != [] && ss == steps[..|steps| - 1] && Extended(t, r)
    requires forall j :: 0 <= j < |ss| ==> Shown(t, order, ss[j])
    requires Shown(r, order, steps[|steps| - 1])
    ensures forall j :: 0 <= j < |steps| ==> Shown(r, order, steps[j])
  {
    forall j | 0 <= j < |ss|
      ensures Shown(r, order, steps[j])
    {
      assert Shown(t, order, ss[j]);
      StaysShown(t, r, order, steps[j]);
    }
  }

  /** At the end of any run, every step shows what it has added. */
  lemma {:induction false} RunShows(order: SortOrder, steps: seq<Step>)
    requires Sorts(order) && AllAdmissible(steps)
    ensures SystemsHang(Run(order, steps)) && forall j :: 0 <= j < |steps| ==> Shown(Run(order, steps), order, steps[j])
  {
    if steps != [] {
      var n := |steps| - 1;
      var earlier := Run(order, steps[..n]);
      RunShows(order, steps[..n]);
      StepShows(earlier, order, steps[n]);
      StepGrows(earlier, order, steps[n]);
      OneMoreShown(earlier, Run(order, steps), order, steps[..n], steps);
    }
  }

  // ---- how a step leaves the vertices it uses

  /** On any graph a run reaches: hwloc takes over what is set and adds what is missing, GPU steps make GPUs that answer
      their addresses. */
  ghost predicate Looks(t: Snapshot, r: Snapshot, step: Step) {
    match step
    case HwlocStep(hostname, machine) =>
      && r.root < |r.vertices| && MachineId(hostname) in r.ids && r.ids[MachineId(hostname)] == r.root
      && (forall v :: 0 <= v < |t.vertices| && v < |r.vertices| && v != r.root ==>
            StaysSet(t.vertices[v], r.vertices[v]))
      && (DistinctDevices(H.TreeSlots(machine)) ==>
            exists at :: ObjectsLookAt(t, r, hostname, H.TreeSlots(machine), at))
    case GpuStep(gpu, devices, _) => forall b :: Outcome(t, r, gpu, devices, b)
    case _ => true
  }

  ghost predicate ObjectsLookAt(t: Snapshot, r: Snapshot, hostname: string, slots: seq<H.Slot>, at: seq<nat>) {
    && |at| == 1 + |slots| && at[0] == r.root && At(r, r.root).description == hostname
    && forall k :: 0 <= k < |slots| ==> LooksLike(At(t, at[1 + k]), At(r, at[1 + k]), slots[k].obj)
  }

  lemma StepLooks(t: Snapshot, order: SortOrder, step: Step)
    requires Inv(t) && Sorts(order)
    ensures Looks(t, RunStep(t, order, step), step)
  {
    match step {
      case HwlocStep(hostname, machine) =>
        StepStaysSet(t, hostname, machine);
        if DistinctDevices(H.TreeSlots(machine)) {
          var r, slots, at := ObjectsLook(t, hostname, machine);
          assert ObjectsLookAt(t, r, hostname, slots, at);
        }
      case GpuStep(gpu, devices, link) =>
        forall b
          ensures Outcome(t, G.GpuInit(t, gpu, devices, link), gpu, devices, b)
        {
          GpuStepAnswers(t, gpu, devices, link, b);
        }
      case _ =>
    }
  }

  // ---- the ranks of the one MPI step

  lemma OnlyMpiNamesRanks(step: Step, id: string)
    requires Provides(step, id) && !step.MpiStep?
    ensures KindOf(id) != RankKind
  {
    match step {
      case HwlocStep(hostname, machine) =>
        IdKinds(hostname, "", 0, 0);
        if NamesSlot(H.TreeSlots(machine), id) {
          var k :| 0 <= k < |H.TreeSlots(machine)| && id == BdfidId(Pack(H.TreeSlots(machine)[k].obj.address));
          IdKinds("", "", 0, Pack(H.TreeSlots(machine)[k].obj.address));
        }
      case SupermucStep(buffers) =>
        var i :| 0 <= i < |NamesOf(buffers)| && NamesHost(NamesOf(buffers)[i], id);
        var name := NamesOf(buffers)[i];
        IdKinds(name, S.Take(name, 9), 0, 0);
        IdKinds(name, S.Take(name, 6), 0, 0);
        IdKinds(name, S.Take(name, 3), 0, 0);
      case GpuStep(_, devices, _) =>
        var i :| 0 <= i < |devices| && id == BdfidId(devices[i].bdfid);
        IdKinds("", "", 0, devices[i].bdfid);
    }
  }

  lemma NoneNamesRanks(steps: seq<Step>, id: string)
    requires NoMpi(steps) && KindOf(id) == RankKind
    ensures !SomeProvides(steps, id)
  {
    forall j | 0 <= j < |steps|
      ensures !Provides(steps[j], id)
    {
      assert steps[j] in steps;
      if Provides(steps[j], id) {
        OnlyMpiNamesRanks(steps[j], id);
      }
    }
  }

  lemma RanksAreFresh(order: SortOrder, steps: seq<Step>)
    requires Sorts(order) && AllAdmissible(steps) && NoMpi(steps)
    ensures RanksFresh(Run(order, steps), 0)
  {
    forall j: nat
      ensures RankId(j) !in Run(order, steps).ids
    {
      RunBinds(order, steps, RankId(j));
      IdKinds("", "", j, 0);
      NoneNamesRanks(steps, RankId(j));
    }
  }

  lemma StaysSettled(t0: Snapshot, t: Snapshot, s: Snapshot, env: M.Local, i: nat, r: M.Rank)
    requires Descent.Ascending(t0) && Sorts(env.order) && IsSettled(t0, t, env, i, r) && IsLater(t, s, true)
    ensures IsSettled(t0, s, env, i, r)
  {
    IdKinds("", "", i, 0);
    assert NamedAs(t, t.ids[RankId(i)], RankKind);
  }

  /** In a run with one MPI step: at the end every rank is settled where the descent leads on the graph that the earlier
      steps have built. */
  lemma RanksSettleInRun(order: SortOrder, early: seq<Step>, step: Step, later: seq<Step>, steps: seq<Step>, i: nat)
    requires Sorts(order) && AllAdmissible(steps) && steps == early + [step] + later && NoMpi(early) && NoMpi(later)
    requires step.MpiStep? && i < |step.ranks|
    ensures AllAdmissible(early) && Descent.Ascending(Run(order, early))
    ensures IsSettled(Run(order, early), Run(order, steps), M.Local(step.hostname, step.nprocs, order), i,
                      step.ranks[i])
  {
    var env := M.Local(step.hostname, step.nprocs, order);
    FirstSteps(early, step, later, steps);
    RanksAreFresh(order, early);
    RanksAreSettled(Run(order, early), env, step.ranks, i);
    RunSnoc(order, early, step);
    RunExtends(order, early + [step], later, steps);
    StaysSettled(Run(order, early), Run(order, early + [step]), Run(order, steps), env, i, step.ranks[i]);
  }

  lemma FirstSteps(early: seq<Step>, step: Step, later: seq<Step>, steps: seq<Step>)
    requires AllAdmissible(steps) && steps == early + [step] + later
    ensures AllAdmissible(early) && AllAdmissible(early + [step])
  {
    assert forall i :: 0 <= i < |early| ==> early[i] == steps[i];
    assert forall i :: 0 <= i < |early| + 1 ==> (early + [step])[i] == steps[i];
  }

  // ---- where direct connections come from

  ghost predicate StepJoins(t: Snapshot, step: Step, e: Edge) {
    step.GpuStep? && Joins(t, step.devices, step.link, e)
  }

  ghost predicate SomeJoins(t: Snapshot, steps: seq<Step>, e: Edge) {
    exists j :: 0 <= j < |steps| && StepJoins(t, steps[j], e)
  }

  lemma StepConnects(t: Snapshot, order: SortOrder, step: Step, e: Edge)
    requires Inv(t) && Sorts(order) && e.edgeType == GPU_INTERCONNECT
    ensures var r := RunStep(t, order, step); e in r.edges <==> e in t.edges || StepJoins(r, step, e)
  {
    StepGrows(t, order, step);
    if step.GpuStep? {
      GpuShows(t, step.gpu, step.devices, step.link);
    } else if e in t.edges {
      Occurs(t.edges, RunStep(t, order, step).edges, e);
    }
  }

  lemma OneMoreJoins(t: Snapshot, r: Snapshot, order: SortOrder, ss: seq<Step>, steps: seq<Step>, e: Edge)
    requires steps != [] && ss == steps[..|steps| - 1] && Extended(t, r)
    requires forall j :: 0 <= j < |ss| ==> Shown(t, order, ss[j])
    ensures SomeJoins(r, steps, e) <==> SomeJoins(t, ss, e) || StepJoins(r, steps[|steps| - 1], e)
  {
    forall j | 0 <= j < |ss|
      ensures StepJoins(r, steps[j], e) <==> StepJoins(t, ss[j], e)
    {
      assert Shown(t, order, ss[j]);
      if ss[j].GpuStep? {
        JoinsStill(t, r, ss[j].devices, ss[j].link, e);
      }
    }
    if j :| 0 <= j < |ss| && StepJoins(t, ss[j], e) {
      assert StepJoins(r, steps[j], e);
    }
  }

  /** After any run, the direct connections are exactly those between linked devices of some GPU step. */
  lemma {:induction false} RunConnects(order: SortOrder, steps: seq<Step>, e: Edge)
    requires Sorts(order) && AllAdmissible(steps) && e.edgeType == GPU_INTERCONNECT
    ensures e in Run(order, steps).edges <==> SomeJoins(Run(order, steps), steps, e)
  {
    if steps != [] {
      var n := |steps| - 1;
      var earlier := Run(order, steps[..n]);
      RunConnects(order, steps[..n], e);
      RunShows(order, steps[..n]);
      StepGrows(earlier, order, steps[n]);
      StepConnects(earlier, order, steps[n], e);
      OneMoreJoins(earlier, Run(order, steps), order, steps[..n], steps, e);
    }
  }
}
