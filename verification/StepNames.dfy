/** Which names a module step binds: those of the components it has been told of, and no others. */
module StepNames {
  import Components
  import G = Gpu
  import H = Hwloc
  import opened Identity
  import opened Invariants
  import M = Mpi
  import opened Runs
  import opened Sorting
  import S = Supermuc
  import opened Topology

  ghost predicate NamesMachine(hostname: string, machine: H.HwlocObj, id: string) {
    id == MachineId(hostname) || NamesSlot(H.TreeSlots(machine), id)
  }

  ghost predicate NamesSlot(slots: seq<H.Slot>, id: string) {
    exists k :: 0 <= k < |slots| && slots[k].obj.objType.ObjPciDevice? && id == BdfidId(Pack(slots[k].obj.address))
  }

  ghost predicate NamesHost(name: string, id: string) {
    || id == MachineId(name) || id == SystemId(S.Take(name, 9)) || id == SystemId(S.Take(name, 6))
    || id == SystemId(S.Take(name, 3))
  }

  ghost predicate NamesSomeHost(names: seq<string>, id: string) {
    exists i :: 0 <= i < |names| && NamesHost(names[i], id)
  }

  ghost predicate NamesSomeRank(ranks: seq<M.Rank>, id: string) {
    exists i: nat :: i < |ranks| && (id == MachineId(ranks[i].hostname) || id == RankId(i))
  }

  ghost predicate NamesSomeDevice(devices: seq<G.Device>, id: string) {
    exists i :: 0 <= i < |devices| && id == BdfidId(devices[i].bdfid)
  }

  /** The step has been told of a component with this name. */
  ghost predicate Provides(step: Step, id: string) {
    match step
    case HwlocStep(hostname, machine) => NamesMachine(hostname, machine, id)
    case SupermucStep(buffers) => NamesSomeHost(NamesOf(buffers), id)
    case MpiStep(_, _, ranks) => NamesSomeRank(ranks, id)
    case GpuStep(_, devices, _) => NamesSomeDevice(devices, id)
    case FailedStep => false
  }

  // ---- hwloc

  lemma SlotMore(slots: seq<H.Slot>, s: H.Slot, id: string)
    ensures NamesSlot(slots + [s], id) <==>
            NamesSlot(slots, id) || (s.obj.objType.ObjPciDevice? && id == BdfidId(Pack(s.obj.address)))
  {
    if NamesSlot(slots, id) {
      var k :| 0 <= k < |slots| && slots[k].obj.objType.ObjPciDevice? && id == BdfidId(Pack(slots[k].obj.address));
      assert (slots + [s])[k] == slots[k];
    }
    assert (slots + [s])[|slots|] == s;
  }

  lemma NextNames(earlier: H.Construction, s: H.Slot, r: H.Construction, id: string)
    requires H.Ready(earlier) && s.parent < |earlier.at| && H.IsNext(earlier, s, r)
    ensures id in r.state.ids <==>
            id in earlier.state.ids || (s.obj.objType.ObjPciDevice? && id == BdfidId(Pack(s.obj.address)))
  {
    H.AddObjectEffect(earlier.state, earlier.at[s.parent], s.obj);
  }

  lemma {:induction false} BuildNames(b: H.Construction, slots: seq<H.Slot>, r: H.Construction, id: string)
    requires H.Ready(b) && H.ParentsPrecede(slots, |b.at|) && r == H.Build(H.AddObject, b, slots)
    ensures id in r.state.ids <==> id in b.state.ids || NamesSlot(slots, id)
  {
    if slots != [] {
      var n := |slots| - 1;
      H.BuildReady(b, slots[..n]);
      var earlier, r' := H.BuildLast(b, slots);
      BuildNames(b, slots[..n], earlier, id);
      NextNames(earlier, slots[n], r, id);
      LastSlotNames(slots, id);
    }
  }

  lemma LastSlotNames(slots: seq<H.Slot>, id: string)
    requires slots != []
    ensures var s := slots[|slots| - 1];
            NamesSlot(slots, id) <==>
            NamesSlot(slots[..|slots| - 1], id) || (s.obj.objType.ObjPciDevice? && id == BdfidId(Pack(s.obj.address)))
  {
    SlotMore(slots[..|slots| - 1], slots[|slots| - 1], id);
    assert slots[..|slots| - 1] + [slots[|slots| - 1]] == slots;
  }

  lemma HwlocNames(t: Snapshot, hostname: string, machine: H.HwlocObj, id: string)
    requires Valid(t)
    ensures id in H.HwlocInit(t, hostname, machine).ids <==> id in t.ids || NamesMachine(hostname, machine, id)
  {
    var start := H.RootSetUp(t, hostname, machine);
    H.RootSetUpEffect(t, hostname, machine);
    var built := H.BuildOfTree(start, machine, H.TreeSlots(machine));
    BuildNames(H.Built(start, [start.root]), H.TreeSlots(machine), built, id);
  }

  // ---- SuperMUC

  lemma HostNames(t: Snapshot, name: string, id: string)
    ensures id in S.AddHost(t, name).ids <==> id in t.ids || NamesHost(name, id)
  {
    var (column, rack, island) := (S.Take(name, 9), S.Take(name, 6), S.Take(name, 3));
    NodesNames(t, MachineId(name), SystemId(column), SystemId(rack), SystemId(island), name, column, rack, island);
    var nodes := S.AddNodes(t, MachineId(name), SystemId(column), SystemId(rack), SystemId(island),
                            name, column, rack, island);
    LinkNames(nodes, MachineId(name), SystemId(column), SystemId(rack), SystemId(island));
  }

  lemma NodesNames(t: Snapshot, id1: string, id2: string, id3: string, id4: string,
                   name1: string, name2: string, name3: string, name4: string)
    ensures S.AddNodes(t, id1, id2, id3, id4, name1, name2, name3, name4).ids.Keys == t.ids.Keys + {id1, id2, id3, id4}
  {
    var t1 := S.AddNode(t, id1, name1, Components.Node);
    var t2 := S.AddNode(t1, id2, name2, Components.Misc);
    NodeNames(t, id1, name1, Components.Node);
    NodeNames(t1, id2, name2, Components.Misc);
    NodeNames(t2, id3, name3, Components.Misc);
    NodeNames(S.AddNode(t2, id3, name3, Components.Misc), id4, name4, Components.Misc);
  }

  lemma NodeNames(t: Snapshot, id: string, name: string, c: Components.Component)
    ensures S.AddNode(t, id, name, c).ids.Keys == t.ids.Keys + {id}
  {
  }

  lemma LinkNames(t: Snapshot, slot: string, column: string, rack: string, island: string)
    ensures S.LinkNodes(t, slot, column, rack, island).ids == t.ids
  {
  }

  lemma {:induction false} HostsNames(t: Snapshot, names: seq<string>, id: string)
    ensures id in S.AddHosts(t, names).ids <==> id in t.ids || NamesSomeHost(names, id)
  {
    if names != [] {
      var n := |names| - 1;
      HostsNames(t, names[..n], id);
      HostNames(S.AddHosts(t, names[..n]), names[n], id);
      HostMore(names, id);
    }
  }

  lemma HostMore(names: seq<string>, id: string)
    requires names != []
    ensures NamesSomeHost(names, id) <==>
            NamesSomeHost(names[..|names| - 1], id) || NamesHost(names[|names| - 1], id)
  {
    var ns := names[..|names| - 1];
    assert forall i :: 0 <= i < |ns| ==> ns[i] == names[i];
    if NamesSomeHost(ns, id) {
      var i :| 0 <= i < |ns| && NamesHost(ns[i], id);
      assert NamesHost(names[i], id);
    }
  }

  // ---- MPI

  lemma RankNames(t: Snapshot, env: M.Local, i: nat, r: M.Rank, id: string)
    requires Inv(t) && Sorts(env.order)
    ensures id in M.AddRank(t, env, i, r).ids <==> id in t.ids || id == MachineId(r.hostname) || id == RankId(i)
  {
    M.SetUpRankKeeps(t, env, i, r);
  }

  lemma {:induction false} RanksNames(t: Snapshot, env: M.Local, ranks: seq<M.Rank>, id: string)
    requires Inv(t) && Sorts(env.order)
    ensures id in M.AddRanks(t, env, ranks).ids <==> id in t.ids || NamesSomeRank(ranks, id)
  {
    if ranks != [] {
      var n := |ranks| - 1;
      RanksNames(t, env, ranks[..n], id);
      RankNames(M.AddRanks(t, env, ranks[..n]), env, n, ranks[n], id);
      RankMore(ranks, id);
    }
  }

  lemma RankMore(ranks: seq<M.Rank>, id: string)
    requires ranks != []
    ensures NamesSomeRank(ranks, id) <==>
            || NamesSomeRank(ranks[..|ranks| - 1], id)
            || id == MachineId(ranks[|ranks| - 1].hostname) || id == RankId(|ranks| - 1)
  {
    var rs := ranks[..|ranks| - 1];
    assert forall i :: 0 <= i < |rs| ==> rs[i] == ranks[i];
  }

  // ---- GPU modules

  lemma {:induction false} DevicesNames(t: Snapshot, m: G.GpuModule, devices: seq<G.Device>, id: string)
    ensures id in G.AddDevices(t, m, devices).ids <==> id in t.ids || NamesSomeDevice(devices, id)
  {
    if devices != [] {
      var n := |devices| - 1;
      DevicesNames(t, m, devices[..n], id);
      DeviceNames(G.AddDevices(t, m, devices[..n]), m, devices[n], id);
      DeviceMore(devices, id);
    }
  }

  lemma DeviceNames(t: Snapshot, m: G.GpuModule, d: G.Device, id: string)
    ensures id in G.AddDevice(t, m, d).ids <==> id in t.ids || id == BdfidId(d.bdfid)
  {
  }

  lemma DeviceMore(devices: seq<G.Device>, id: string)
    requires devices != []
    ensures NamesSomeDevice(devices, id) <==>
            NamesSomeDevice(devices[..|devices| - 1], id) || id == BdfidId(devices[|devices| - 1].bdfid)
  {
    var ds := devices[..|devices| - 1];
    assert forall i :: 0 <= i < |ds| ==> ds[i] == devices[i];
  }

  // ---- every step

  lemma StepBinds(t: Snapshot, order: SortOrder, step: Step, id: string)
    requires Inv(t) && Sorts(order)
    ensures id in RunStep(t, order, step).ids <==> id in t.ids || Provides(step, id)
  {
    match step {
      case HwlocStep(hostname, machine) => HwlocNames(t, hostname, machine, id);
      case SupermucStep(buffers) => HostsNames(t, NamesOf(buffers), id);
      case MpiStep(hostname, nprocs, ranks) => RanksNames(t, M.Local(hostname, nprocs, order), ranks, id);
      case GpuStep(gpu, devices, link) => DevicesNames(t, gpu, devices, id);
      case FailedStep =>
    }
  }

  ghost predicate SomeProvides(steps: seq<Step>, id: string) {
    exists j :: 0 <= j < |steps| && Provides(steps[j], id)
  }

  /** After any run, exactly the names are bound that some step provides. */
  lemma {:induction false} RunBinds(order: SortOrder, steps: seq<Step>, id: string)
    requires Sorts(order) && AllAdmissible(steps)
    ensures id in Run(order, steps).ids <==> SomeProvides(steps, id)
  {
    if steps != [] {
      var n := |steps| - 1;
      RunBinds(order, steps[..n], id);
      StepBinds(Run(order, steps[..n]), order, steps[n], id);
      ProvidesMore(steps, id);
    }
  }

  lemma ProvidesMore(steps: seq<Step>, id: string)
    requires steps != []
    ensures SomeProvides(steps, id) <==> SomeProvides(steps[..|steps| - 1], id) || Provides(steps[|steps| - 1], id)
  {
    var ss := steps[..|steps| - 1];
    assert forall j :: 0 <= j < |ss| ==> ss[j] == steps[j];
    if SomeProvides(ss, id) {
      var j :| 0 <= j < |ss| && Provides(ss[j], id);
      assert Provides(steps[j], id);
    }
  }
}
