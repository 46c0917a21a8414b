/** Runs of module steps on one graph. */
module Runs {
  import opened Affinity
  import opened Descent
  import G = Gpu
  import H = Hwloc
  import HI = HwlocInvariants
  import opened Identity
  import opened Invariants
  import M = Mpi
  import opened Options
  import opened Paths
  import opened Placement
  import P = Properties
  import S = Supermuc
  import opened Sorting
  import opened Components
  import opened Topology

  /** One module's init_graph, with what it learns from its surroundings. A step that finds its library missing
      leaves the graph alone. */
  datatype Step =
    | HwlocStep(hostname: string, machine: H.HwlocObj)
    | SupermucStep(buffers: seq<seq<char>>)
    | MpiStep(hostname: string, nprocs: nat, ranks: seq<M.Rank>)
    | GpuStep(gpu: G.GpuModule, devices: seq<G.Device>, link: (nat, nat) -> bool)
    | FailedStep

  const HOSTNAME_WIDTH := 32

  /** What the libraries guarantee: hwloc gives devices no cpuset, and host names travel in buffers of one width. */
  ghost predicate Admissible(step: Step) {
    match step
    case HwlocStep(_, machine) => HI.DevicesUnmasked(machine.children)
    case SupermucStep(buffers) => forall b :: b in buffers ==> |b| == HOSTNAME_WIDTH
    case _ => true
  }

  function NamesOf(buffers: seq<seq<char>>): seq<string> {
    seq(|buffers|, i requires 0 <= i < |buffers| => S.CString(buffers[i]))
  }

  ghost function RunStep(t: Snapshot, order: SortOrder, step: Step): (r: Snapshot)
    requires Inv(t) && Sorts(order)
  {
    match step
    case HwlocStep(hostname, machine) => H.HwlocInit(t, hostname, machine)
    case SupermucStep(buffers) => S.AddHosts(t, NamesOf(buffers))
    case MpiStep(hostname, nprocs, ranks) => M.AddRanks(t, M.Local(hostname, nprocs, order), ranks)
    case GpuStep(gpu, devices, link) => G.GpuInit(t, gpu, devices, link)
    case FailedStep => t
  }

  // ---- the SuperMUC step keeps the invariants

  lemma AddNodeKeeps(t: Snapshot, id: string, name: string, c: Component)
    requires Inv(t) && (KindOf(id) == MachineKind || KindOf(id) == SystemKind)
    ensures var r := S.AddNode(t, id, name, c);
            && Inv(r) && r.edges == t.edges && id in r.ids && r.ids[id] < |r.vertices|
            && NamedAs(r, r.ids[id], KindOf(id))
            && forall other :: other in t.ids ==> other in r.ids && r.ids[other] == t.ids[other]
  {
    var named := Intern(t, id);
    var v := named.ids[id];
    InternKeeps(t, id);
    InternValid(t, id);
    var vertex := Vertex(At(named, v).adapters + [S.SupermucAdapter(name)], name, c);
    P.CpuMaskAppend(At(named, v).adapters, S.SupermucAdapter(name));
    if NamedAs(named, v, BdfidKind) {
      OneKind(named, v, KindOf(id), BdfidKind);
    }
    if NamedAs(named, v, SystemKind) {
      assert MaskFree(named, v) && !Masked(named, v);
    }
    PutKeeps(named, v, vertex);
    assert forall w, k :: NamedAs(Put(named, v, vertex), w, k) == NamedAs(named, w, k);
  }

  lemma LinkOnceKeeps(t: Snapshot, parent: nat, child: nat)
    requires Inv(t) && Paired(t.edges) && parent < |t.vertices| && child < |t.vertices|
    requires NamedAs(t, parent, SystemKind)
    ensures var r := S.LinkOnce(t, parent, child);
            Inv(r) && Paired(r.edges) && r.vertices == t.vertices && r.ids == t.ids
  {
    AddEdgesKeeps(t, ParentChild(parent, child));
    ParentChildKeepsPairs(t.edges, parent, child);
  }

  lemma AddHostKeeps(t: Snapshot, name: string)
    requires Inv(t) && Paired(t.edges)
    ensures Inv(S.AddHost(t, name)) && Paired(S.AddHost(t, name).edges)
  {
    var (column, rack, island) := (S.Take(name, 9), S.Take(name, 6), S.Take(name, 3));
    IdKinds(name, column, 0, 0);
    IdKinds(name, rack, 0, 0);
    IdKinds(name, island, 0, 0);
    NodesKeep(t, MachineId(name), SystemId(column), SystemId(rack), SystemId(island), name, column, rack, island);
    var nodes := S.AddNodes(t, MachineId(name), SystemId(column), SystemId(rack), SystemId(island),
                            name, column, rack, island);
    LinksKeep(nodes, MachineId(name), SystemId(column), SystemId(rack), SystemId(island));
  }

  lemma NodesKeep(t: Snapshot, id1: string, id2: string, id3: string, id4: string,
                  name1: string, name2: string, name3: string, name4: string)
    requires Inv(t) && Paired(t.edges) && KindOf(id1) == MachineKind
    requires KindOf(id2) == KindOf(id3) == KindOf(id4) == SystemKind
    ensures var r := S.AddNodes(t, id1, id2, id3, id4, name1, name2, name3, name4);
            Inv(r) && Paired(r.edges) && {id1, id2, id3, id4} <= r.ids.Keys
  {
    var t1 := S.AddNode(t, id1, name1, Node);
    var t2 := S.AddNode(t1, id2, name2, Misc);
    TwoNodesKeep(t, id1, name1, Node, id2, name2, Misc);
    TwoNodesKeep(t2, id3, name3, Misc, id4, name4, Misc);
  }

  lemma TwoNodesKeep(t: Snapshot, id1: string, name1: string, c1: Component, id2: string, name2: string, c2: Component)
    requires Inv(t) && Paired(t.edges)
    requires KindOf(id1) in {MachineKind, SystemKind} && KindOf(id2) in {MachineKind, SystemKind}
    ensures var r := S.AddNode(S.AddNode(t, id1, name1, c1), id2, name2, c2);
            Inv(r) && Paired(r.edges) && t.ids.Keys + {id1, id2} <= r.ids.Keys
  {
    AddNodeKeeps(t, id1, name1, c1);
    AddNodeKeeps(S.AddNode(t, id1, name1, c1), id2, name2, c2);
  }

  lemma LinksKeep(t: Snapshot, slot: string, column: string, rack: string, island: string)
    requires Inv(t) && Paired(t.edges) && {slot, column, rack, island} <= t.ids.Keys
    requires KindOf(column) == KindOf(rack) == KindOf(island) == SystemKind
    ensures var r := S.LinkNodes(t, slot, column, rack, island);
            Inv(r) && Paired(r.edges)
  {
    var (s, c, k, i) := (S.VertexOf(t, slot), S.VertexOf(t, column), S.VertexOf(t, rack), S.VertexOf(t, island));
    assert NamedAs(t, i, SystemKind) && NamedAs(t, k, SystemKind) && NamedAs(t, c, SystemKind);
    LinkOnceKeeps(t, i, k);
    var t1 := S.LinkOnce(t, i, k);
    assert NamedAs(t1, k, SystemKind) && NamedAs(t1, c, SystemKind);
    LinkOnceKeeps(t1, k, c);
    var t2 := S.LinkOnce(t1, k, c);
    assert NamedAs(t2, c, SystemKind);
    LinkOnceKeeps(t2, c, s);
  }

  lemma {:induction false} AddHostsKeeps(t: Snapshot, names: seq<string>)
    requires Inv(t) && Paired(t.edges)
    ensures Inv(S.AddHosts(t, names)) && Paired(S.AddHosts(t, names).edges)
  {
    if names != [] {
      AddHostsKeeps(t, names[..|names| - 1]);
      AddHostKeeps(S.AddHosts(t, names[..|names| - 1]), names[|names| - 1]);
    }
  }

  // ---- every run

  lemma RunStepKeeps(t: Snapshot, order: SortOrder, step: Step)
    requires Inv(t) && Paired(t.edges) && Sorts(order) && Admissible(step)
    ensures Inv(RunStep(t, order, step)) && Paired(RunStep(t, order, step).edges)
  {
    match step {
      case HwlocStep(hostname, machine) => HI.HwlocInitKeeps(t, hostname, machine);
      case SupermucStep(buffers) => AddHostsKeeps(t, NamesOf(buffers));
      case MpiStep(hostname, nprocs, ranks) =>
      case GpuStep(gpu, devices, link) => G.GpuInitKeeps(t, gpu, devices, link);
      case FailedStep =>
    }
  }

  ghost predicate AllAdmissible(steps: seq<Step>) {
    forall i :: 0 <= i < |steps| ==> Admissible(steps[i])
  }

  /** The graph after any sequence of steps, in any order, on the empty graph. */
  ghost function Run(order: SortOrder, steps: seq<Step>): (t: Snapshot)
    requires Sorts(order) && AllAdmissible(steps)
    ensures Inv(t) && Paired(t.edges)
  {
    if steps == [] then EmptyKeeps(); EMPTY
    else
      var earlier := Run(order, steps[..|steps| - 1]);
      RunStepKeeps(earlier, order, steps[|steps| - 1]);
      RunStep(earlier, order, steps[|steps| - 1])
  }

  lemma EmptyKeeps()
    ensures Inv(EMPTY) && Paired(EMPTY.edges)
  {
    assert multiset(EMPTY.edges) == multiset{};
  }

  /** In every graph a run reaches: CHILD edges u->v and PARENT edges v->u have equal multiplicity,
      GPU_INTERCONNECT edges are symmetric, and hop distance and reachability are symmetric. */
  lemma RunsAreSymmetric(order: SortOrder, steps: seq<Step>, u: nat, v: nat)
    requires Sorts(order) && AllAdmissible(steps)
    ensures var es := Run(order, steps).edges;
            && multiset(es)[Edge(u, v, CHILD)] == multiset(es)[Edge(v, u, PARENT)]
            && multiset(es)[Edge(u, v, GPU_INTERCONNECT)] == multiset(es)[Edge(v, u, GPU_INTERCONNECT)]
            && HopDistance(es, u, v) == HopDistance(es, v, u)
            && (Reachable(es, u, v) <==> Reachable(es, v, u))
  {
    var es := Run(order, steps).edges;
    PairedIsSymmetric(es);
    DistanceIsSymmetric(es, u, v);
  }

  /** In every graph a run reaches, CHILD edges between masked vertices ascend, so the descent terminates from
      every vertex. */
  lemma RunsAscend(order: SortOrder, steps: seq<Step>)
    requires Sorts(order) && AllAdmissible(steps)
    ensures Ascending(Run(order, steps))
  {
    InvMeansAscending(Run(order, steps));
  }

  lemma RunSnoc(order: SortOrder, steps: seq<Step>, step: Step)
    requires Sorts(order) && AllAdmissible(steps) && AllAdmissible(steps + [step])
    ensures Run(order, steps + [step]) == RunStep(Run(order, steps), order, step)
  {
    DropLast(steps, step);
  }

  lemma DropLast(steps: seq<Step>, step: Step)
    ensures (steps + [step])[..|steps + [step]| - 1] == steps
  {
  }

  // ---- a run without hwloc's tree

  /** Two ranks of which the second, on the own host, has a cpu mask. */
  function TwoRanks(): seq<M.Rank> {
    [M.Rank("A", {}), M.Rank("B", {0})]
  }

  lemma MpiOnly(order: SortOrder, ranks: seq<M.Rank>)
    requires Sorts(order)
    ensures var steps := [FailedStep, MpiStep("B", 1, ranks)];
            AllAdmissible(steps) && Run(order, steps) == M.AddRanks(EMPTY, M.Local("B", 1, order), ranks)
  {
    var steps := [FailedStep, MpiStep("B", 1, ranks)];
    EmptyKeeps();
    assert steps[..1] == [FailedStep] && [FailedStep][..0] == [];
    assert Run(order, [FailedStep]) == EMPTY;
  }

  /** Where the hwloc step fails, the root is whatever vertex comes first: the rank of host B is hung under the machine
      of host A; with the ranks in the other order it is hung under its own. Neither contains its mask. */
  lemma FirstRankDecides(order: SortOrder)
    requires Sorts(order)
    ensures var ranks := TwoRanks(); var swapped := [ranks[1], ranks[0]];
            var (steps, steps') := ([FailedStep, MpiStep("B", 1, ranks)], [FailedStep, MpiStep("B", 1, swapped)]);
            && AllAdmissible(steps) && AllAdmissible(steps')
            && var (t, t') := (Run(order, steps), Run(order, steps'));
            && |t.edges| == |t'.edges| == 4
            && NamesAt(t, t.edges[2].source) == {MachineId("A")} && NamesAt(t', t'.edges[0].source) == {MachineId("B")}
            && !Holds(t, {0}, t.edges[2].source) && !Holds(t', {0}, t'.edges[0].source)
  {
    var ranks := TwoRanks();
    var swapped := [ranks[1], ranks[0]];
    var env := M.Local("B", 1, order);
    MpiOnly(order, ranks);
    MpiOnly(order, swapped);
    EmptyKeeps();
    InvMeansAscending(EMPTY);
    assert 0 in M.LocalMask(env, ranks[1]);
    HungAtZero(env, ranks, 1);
    HungAtZero(env, swapped, 0);
  }

  lemma HungAtZero(env: M.Local, ranks: seq<M.Rank>, i: nat)
    requires Inv(EMPTY) && Sorts(env.order) && i < |ranks| && M.LocalMask(env, ranks[i]) != {}
    ensures var t := M.AddRanks(EMPTY, env, ranks);
            && |t.edges| == 2 * |ranks| && t.edges[2 * i].source == 0
            && NamesAt(t, 0) == {MachineId(ranks[0].hostname)} && MaskOf(t, 0) == None
  {
    SourceIsZero(env, ranks, i, M.LocalMask(env, ranks[i]));
    FirstMachine(EMPTY, env, ranks);
    FirstIsBare(EMPTY, env, ranks);
  }

  lemma SourceIsZero(env: M.Local, ranks: seq<M.Rank>, i: nat, mask: AffinityMask)
    requires Inv(EMPTY) && Sorts(env.order) && i < |ranks| && mask == M.LocalMask(env, ranks[i]) && mask != {}
    ensures var t := M.AddRanks(EMPTY, env, ranks); |t.edges| == 2 * |ranks| && t.edges[2 * i].source == 0
  {
    InvMeansAscending(EMPTY);
    SourceOfRank(EMPTY, env, ranks, i, mask);
    DescentStops(EMPTY, env.order, mask, 0);
  }
}
