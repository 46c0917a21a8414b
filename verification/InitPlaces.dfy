/** From init() to the place of a rank: the MPI module comes second, so its ranks find hwloc's tree, and each local one
    is hung under an object of it. */
module InitPlaces {
  import Affinity
  import Descent
  import H = Hwloc
  import opened HwlocDescent
  import opened HwlocTree
  import opened Identity
  import opened Init
  import M = Mpi
  import opened Options
  import opened Outcomes
  import opened ParentArrays
  import opened Placement
  import opened RunQueries
  import opened Runs
  import opened Shapes
  import opened Sorting
  import opened Topology

  /** The modules of the repository: hwloc first, MPI second. */
  ghost predicate AsDeclared(modules: seq<Module>) {
    forall m :: m in modules ==>
      (m.step.HwlocStep? ==> m.initOrder.First?) && (m.step.MpiStep? ==> m.initOrder.Second?)
  }

  /** Which modules the steps run belong to, in order. */
  lemma {:induction false} StepsInOrder(modules: seq<Module>) returns (from: seq<nat>)
    ensures var steps := EnabledSteps(modules);
            && |from| == |steps| && (forall k :: 0 <= k < |steps| ==>
                 from[k] < |modules| && modules[from[k]].enabled && modules[from[k]].step == steps[k])
            && forall j, k :: 0 <= j < k < |from| ==> from[j] < from[k]
  {
    if modules == [] {
      from := [];
    } else {
      var n := |modules| - 1;
      from := StepsInOrder(modules[..n]);
      assert forall i :: 0 <= i < n ==> modules[..n][i] == modules[i];
      if modules[n].enabled {
        from := from + [n];
      }
    }
  }

  /** In sorted order, no hwloc step comes after an MPI step. */
  lemma HwlocComesFirst(modules: seq<Module>, sorted: seq<Module>, j: nat, k: nat)
    requires SortedModules(modules, sorted) && AsDeclared(modules)
    requires j < k < |EnabledSteps(sorted)| && EnabledSteps(sorted)[j].MpiStep?
    ensures !EnabledSteps(sorted)[k].HwlocStep?
  {
    var from := StepsInOrder(sorted);
    assert sorted[from[j]] in sorted && sorted[from[k]] in sorted;
  }

  lemma {:induction false} CountsSplit(early: seq<Step>, later: seq<Step>, steps: seq<Step>)
    requires steps == early + later
    ensures HwlocSteps(steps) == HwlocSteps(early) + HwlocSteps(later)
    ensures MpiSteps(steps) == MpiSteps(early) + MpiSteps(later)
    decreases |later|
  {
    if later == [] {
      NothingLater(early, steps);
    } else {
      Snoc(early, later, steps);
      CountsSplit(early, later[..|later| - 1], steps[..|steps| - 1]);
    }
  }

  lemma {:induction false} NoneIsZero(steps: seq<Step>)
    ensures (forall k :: 0 <= k < |steps| ==> !steps[k].HwlocStep?) ==> HwlocSteps(steps) == 0
    ensures MpiSteps(steps) == 0 ==> NoMpi(steps)
  {
    if steps != [] {
      NoneIsZero(steps[..|steps| - 1]);
      assert steps == steps[..|steps| - 1] + [steps[|steps| - 1]];
    }
  }

  /** The steps before the MPI step, the step, and those after it: hwloc is among the first, MPI nowhere else. */
  lemma AroundMpi(modules: seq<Module>, sorted: seq<Module>, machine: H.HwlocObj, steps: seq<Step>, j: nat)
    returns (early: seq<Step>, later: seq<Step>)
    requires SortedModules(modules, sorted) && AsDeclared(modules) && steps == EnabledSteps(sorted)
    requires IsOneInit(steps, machine) && HwlocSteps(steps) == 1 && j < |steps| && steps[j].MpiStep?
    ensures early == steps[..j] && steps == early + [steps[j]] + later && NoMpi(early) && NoMpi(later)
    ensures IsOneInit(early, machine) && HwlocSteps(early) == 1
  {
    early, later := steps[..j], steps[j + 1..];
    var middle := early + [steps[j]];
    assert steps == middle + later;
    CountsSplit(middle, later, steps);
    CountsSplit(early, [steps[j]], middle);
    assert [steps[j]][..0] == [];
    assert MpiSteps([steps[j]]) == 1 && HwlocSteps([steps[j]]) == 0;
    forall k | 0 <= k < |later|
      ensures !later[k].HwlocStep?
    {
      HwlocComesFirst(modules, sorted, j, j + 1 + k);
    }
    NoneIsZero(later);
    NoneIsZero(early);
    assert forall k :: 0 <= k < |early| ==> early[k] == steps[k];
  }

  /** Rank i of `ranks` answers exactly its online cpus as its mask, and hangs under the object at position `place` of
      the machine's tree. This is the lowest object that contains the mask exactly if the machine contains it and no two
      siblings do. */
  ghost predicate HangsInTree(t: Snapshot, part: Part, machine: H.HwlocObj, nprocs: nat, i: nat, r: M.Rank, place: nat,
                              mask: Affinity.AffinityMask) {
    var slots := H.TreeSlots(machine);
    && Planted(t, machine, slots, part.at) && RankId(i) in t.ids && IsParents(ParentsOf(slots))
    && MaskOf(t, t.ids[RankId(i)]) == Some(mask)
    && (forall cpu :: cpu in mask <==> cpu in r.cpus && cpu < nprocs)
    && place < |part.at| && Edge(part.at[place], t.ids[RankId(i)], CHILD) in t.edges
    && (IsLowestObject(machine, slots, mask, place) <==> ObjectHolds(machine, mask) && NoRivalObjects(slots, mask))
  }

  lemma SettledHasMask(t0: Snapshot, t: Snapshot, env: M.Local, i: nat, r: M.Rank) returns (mask: Affinity.AffinityMask)
    requires Descent.Ascending(t0) && Sorts(env.order) && IsSettled(t0, t, env, i, r) && HasCpuHere(env, r)
    ensures RankId(i) in t.ids && MaskOf(t, t.ids[RankId(i)]) == Some(mask)
    ensures forall cpu :: cpu in mask <==> cpu in r.cpus && cpu < env.nprocs
    ensures Edge(Descent.Descend(t0, env.order, mask, t0.root), t.ids[RankId(i)], CHILD) in t.edges
  {
    mask := MaskOf(t, t.ids[RankId(i)]).value;
  }

  lemma RankInTree(order: SortOrder, early: seq<Step>, step: Step, later: seq<Step>, steps: seq<Step>,
                   machine: H.HwlocObj, i: nat)
    returns (part: Part, place: nat, mask: Affinity.AffinityMask)
    requires Sorts(order) && IsOneInit(steps, machine) && IsOneInit(early, machine)
    requires steps == early + [step] + later && NoMpi(early) && NoMpi(later) && step.MpiStep? && i < |step.ranks|
    requires HwlocSteps(steps) == 1 && HwlocSteps(early) == 1 && NestedObjects(machine, H.TreeSlots(machine))
    requires HasCpuHere(M.Local(step.hostname, step.nprocs, order), step.ranks[i])
    ensures HangsInTree(Run(order, steps), part, machine, step.nprocs, i, step.ranks[i], place, mask)
  {
    var t0, t := Run(order, early), Run(order, steps);
    RanksSettleInRun(order, early, step, later, steps, i);
    mask := SettledHasMask(t0, t, M.Local(step.hostname, step.nprocs, order), i, step.ranks[i]);
    Regroup(early, step, later);
    part, place := TreeAtTheEnd(order, early, [step] + later, steps, machine, mask);
  }

  lemma Regroup(early: seq<Step>, step: Step, later: seq<Step>)
    ensures early + [step] + later == early + ([step] + later)
  {
  }

  lemma TreeAtTheEnd(order: SortOrder, early: seq<Step>, later: seq<Step>, steps: seq<Step>, machine: H.HwlocObj,
                     mask: Affinity.AffinityMask)
    returns (part: Part, place: nat)
    requires Sorts(order) && IsOneInit(steps, machine) && IsOneInit(early, machine) && steps == early + later
    requires HwlocSteps(steps) == 1 && HwlocSteps(early) == 1 && NestedObjects(machine, H.TreeSlots(machine))
    ensures var slots := H.TreeSlots(machine); var t0 := Run(order, early);
            && Planted(Run(order, steps), machine, slots, part.at) && IsParents(ParentsOf(slots))
            && Descent.Ascending(t0) && place < |part.at|
            && Descent.Descend(t0, order, mask, t0.root) == part.at[place]
            && (IsLowestObject(machine, slots, mask, place) <==>
                ObjectHolds(machine, mask) && NoRivalObjects(slots, mask))
  {
    var before;
    before, place := DescentInRun(order, early, machine, order, mask);
    NoHwlocLater(early, later, steps);
    part := TreeStands(order, early, later, steps, machine, before);
    ShapeIsPlanted(Run(order, steps), part);
  }

  /** After init() with hwloc and MPI enabled, whatever other modules there are: a rank that runs on the own node and
      may use an online cpu hangs under an object of the machine's tree. */
  lemma RanksFindTheirPlace(order: SortOrder, modules: seq<Module>, sorted: seq<Module>, machine: H.HwlocObj, j: nat,
                            i: nat)
    returns (part: Part, place: nat, mask: Affinity.AffinityMask)
    requires Sorts(order) && SortedModules(modules, sorted) && AsDeclared(modules)
    requires var steps := EnabledSteps(sorted);
             && IsOneInit(steps, machine) && HwlocSteps(steps) == 1 && NestedObjects(machine, H.TreeSlots(machine))
             && j < |steps| && steps[j].MpiStep? && i < |steps[j].ranks|
             && HasCpuHere(M.Local(steps[j].hostname, steps[j].nprocs, order), steps[j].ranks[i])
    ensures var steps := EnabledSteps(sorted);
            HangsInTree(Run(order, steps), part, machine, steps[j].nprocs, i, steps[j].ranks[i], place, mask)
  {
    var steps := EnabledSteps(sorted);
    var early, later := AroundMpi(modules, sorted, machine, steps, j);
    part, place, mask := RankInTree(order, early, steps[j], later, steps, machine, i);
  }

  lemma NoHwlocLater(early: seq<Step>, later: seq<Step>, steps: seq<Step>)
    requires steps == early + later && HwlocSteps(early) == HwlocSteps(steps)
    ensures HwlocSteps(later) == 0
  {
    CountsSplit(early, later, steps);
  }

  lemma LastOf(steps: seq<Step>)
    requires steps != [] && HwlocSteps(steps) == 0
    ensures HwlocSteps(steps[..|steps| - 1]) == 0 && !steps[|steps| - 1].HwlocStep?
  {
  }

  lemma IsOneInitBefore(steps: seq<Step>, machine: H.HwlocObj)
    requires IsOneInit(steps, machine) && steps != []
    ensures IsOneInit(steps[..|steps| - 1], machine)
  {
  }

  /** Where the tree stands, it stays. */
  lemma {:induction false} TreeStands(order: SortOrder, early: seq<Step>, later: seq<Step>, steps: seq<Step>,
                                      machine: H.HwlocObj, part0: Part) returns (part: Part)
    requires Sorts(order) && IsOneInit(steps, machine) && steps == early + later && HwlocSteps(later) == 0
    requires AllAdmissible(early) && Shape(Run(order, early), part0)
    requires part0.ranked <==> MpiSteps(early) == 1
    ensures Shape(Run(order, steps), part) && part.machine == part0.machine && part.at == part0.at
    ensures part.slots == part0.slots && (part.ranked <==> MpiSteps(steps) == 1)
    decreases |later|
  {
    if later == [] {
      NothingLater(early, steps);
      part := part0;
    } else {
      var n := |steps| - 1;
      Snoc(early, later, steps);
      LastOf(later);
      IsOneInitBefore(steps, machine);
      LastStep(order, steps);
      part := TreeStands(order, early, later[..|later| - 1], steps[..n], machine, part0);
      part := StepShape(Run(order, steps[..n]), order, steps[n], part);
    }
  }
}
