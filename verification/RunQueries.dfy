/** What the queries return after a run: any modules in any order, hwloc and MPI at most once, as init() runs them. */
module RunQueries {
  import opened Affinity
  import opened Components
  import opened Descent
  import opened FindDistances
  import H = Hwloc
  import opened HwlocDescent
  import opened HwlocPlanting
  import opened HwlocTies
  import opened HwlocTree
  import opened Identity
  import opened Invariants
  import M = Mpi
  import opened ParentArrays
  import opened Paths
  import opened Runs
  import opened Shapes
  import opened ShapeSteps
  import opened Sorting
  import opened Ties
  import opened Topology

  function HwlocSteps(steps: seq<Step>): nat {
    if steps == [] then 0 else HwlocSteps(steps[..|steps| - 1]) + (if steps[|steps| - 1].HwlocStep? then 1 else 0)
  }

  function MpiSteps(steps: seq<Step>): nat {
    if steps == [] then 0 else MpiSteps(steps[..|steps| - 1]) + (if steps[|steps| - 1].MpiStep? then 1 else 0)
  }

  /** hwloc and MPI run at most once, and what hwloc finds is `machine`. */
  ghost predicate IsOneInit(steps: seq<Step>, machine: H.HwlocObj) {
    && AllAdmissible(steps) && HwlocSteps(steps) <= 1 && MpiSteps(steps) <= 1
    && (forall i :: 0 <= i < |steps| && steps[i].HwlocStep? ==> steps[i].machine == machine)
    && DistinctDevices(H.TreeSlots(machine))
  }

  /** The graph of such a run has its shape, with the tree once hwloc has run. */
  lemma {:induction false} ShapeOfRun(order: SortOrder, steps: seq<Step>, machine: H.HwlocObj) returns (part: Part)
    requires Sorts(order) && IsOneInit(steps, machine)
    ensures Shape(Run(order, steps), part)
    ensures part.machine == machine && (part.ranked <==> MpiSteps(steps) == 1)
    ensures if HwlocSteps(steps) == 1 then part.at != [] && part.slots == H.TreeSlots(machine) else part.at == []
  {
    if steps == [] {
      part := Part(machine, [], [], false);
      EmptyShape(machine);
    } else {
      part := ShapeOfRun(order, steps[..|steps| - 1], machine);
      part := LastStepShape(order, steps, machine, part);
    }
  }

  lemma LastStepShape(order: SortOrder, steps: seq<Step>, machine: H.HwlocObj, part0: Part) returns (part: Part)
    requires Sorts(order) && IsOneInit(steps, machine) && steps != []
    requires var earlier := steps[..|steps| - 1];
             && Shape(Run(order, earlier), part0)
             && part0.machine == machine && (part0.ranked <==> MpiSteps(earlier) == 1)
             && if HwlocSteps(earlier) == 1 then part0.at != [] && part0.slots == H.TreeSlots(machine)
                else part0.at == []
    ensures Shape(Run(order, steps), part)
    ensures part.machine == machine && (part.ranked <==> MpiSteps(steps) == 1)
    ensures if HwlocSteps(steps) == 1 then part.at != [] && part.slots == H.TreeSlots(machine) else part.at == []
  {
    part := StepShape(Run(order, steps[..|steps| - 1]), order, steps[|steps| - 1], part0);
  }

  lemma StepShape(t: Snapshot, order: SortOrder, step: Step, part0: Part) returns (part: Part)
    requires Inv(t) && Shape(t, part0) && Sorts(order)
    requires step.HwlocStep? ==>
               part0.at == [] && step.machine == part0.machine && DistinctDevices(H.TreeSlots(step.machine))
    requires step.MpiStep? ==> !part0.ranked
    ensures Shape(RunStep(t, order, step), part) && part.machine == part0.machine
    ensures part.ranked <==> part0.ranked || step.MpiStep?
    ensures if step.HwlocStep? then part.at != [] && part.slots == H.TreeSlots(step.machine)
            else part.at == part0.at && part.slots == part0.slots
  {
    part := part0;
    match step {
      case HwlocStep(hostname, machine) =>
        var r;
        r, part := Planting(t, hostname, machine, part0);
      case SupermucStep(buffers) =>
        HostsShape(t, part, NamesOf(buffers));
      case MpiStep(hostname, nprocs, ranks) =>
        RanksShape(t, part, M.Local(hostname, nprocs, order), ranks);
        part := part0.(ranked := true);
      case GpuStep(gpu, devices, link) =>
        GpuShape(t, part, gpu, devices, link);
      case FailedStep =>
    }
  }

  // ---- the descent

  /** After a run in which hwloc found a machine with nested cpusets, whatever other modules did before and after, for
      any query: the descent ends at a position of the tree; it is the lowest object containing the query exactly
      when the machine contains it and no two siblings do; and it has the fewest bits exactly when the machine contains
      it and no pick passes over an object smaller than all below the pick. */
  lemma DescentInRun(order: SortOrder, steps: seq<Step>, machine: H.HwlocObj, ties: SortOrder, mask: AffinityMask)
    returns (part: Part, r: nat)
    requires Sorts(order) && Sorts(ties) && IsOneInit(steps, machine) && HwlocSteps(steps) == 1
    requires NestedObjects(machine, H.TreeSlots(machine))
    ensures var t := Run(order, steps); var slots := H.TreeSlots(machine);
            && Shape(t, part) && part.machine == machine && part.slots == slots
            && (part.ranked <==> MpiSteps(steps) == 1)
            && Planted(t, machine, slots, part.at) && Ascending(t) && IsParents(ParentsOf(slots))
            && r < |part.at| && Descend(t, ties, mask, t.root) == part.at[r]
            && (IsLowestObject(machine, slots, mask, r) <==> ObjectHolds(machine, mask) && NoRivalObjects(slots, mask))
            && (IsLeast(t, mask, part.at[r]) <==>
                ObjectHolds(machine, mask) && forall p, w, w', x :: !PassesOver(t, ties, mask, p, w, w', x))
  {
    var t := Run(order, steps);
    part := ShapeOfRun(order, steps, machine);
    ShapeIsPlanted(t, part);
    InvMeansAscending(t);
    r := DescentOnTree(t, machine, part.slots, part.at, ties, mask);
    LeastOnTree(t, machine, part.slots, part.at, ties, mask);
  }

  // ---- the nearest-PU search

  /** v is reached from u over direct connections between GPUs alone. */
  ghost predicate IsJoined(es: seq<Edge>, u: nat, v: nat) {
    exists p :: IsPath(es, u, p, v) && OnlyInterconnects(p)
  }

  ghost predicate OnlyInterconnects(p: seq<Edge>) {
    forall e :: e in p ==> e.edgeType == GPU_INTERCONNECT
  }

  /** u is, or is joined to, a vertex of the tree. */
  ghost predicate IsJoinedToTree(es: seq<Edge>, u: nat, at: seq<nat>) {
    exists v :: v in at && IsJoined(es, u, v)
  }

  lemma JoinedStep(es: seq<Edge>, u: nat, e: Edge)
    requires e in es && e.edgeType == GPU_INTERCONNECT && IsJoined(es, u, e.source)
    ensures IsJoined(es, u, e.target)
  {
    var p :| IsPath(es, u, p, e.source) && OnlyInterconnects(p);
    assert (p + [e])[..|p|] == p;
    assert IsPath(es, u, p + [e], e.target);
  }

  /** A device outside the tree that is joined to u, or a rank that hangs under one. */
  ghost predicate IsApart(t: Snapshot, part: Part, u: nat, x: nat) {
    || (NamedAs(t, x, BdfidKind) && IsJoined(t.edges, u, x) && x !in part.at)
    || (NamedAs(t, x, RankKind) && exists y :: HangsApart(t, part, u, y, x))
  }

  ghost predicate HangsApart(t: Snapshot, part: Part, u: nat, y: nat, x: nat) {
    NamedAs(t, y, BdfidKind) && IsJoined(t.edges, u, y) && y !in part.at && Edge(y, x, CHILD) in t.edges
  }

  /** No edge leads from such a vertex to any other. */
  lemma ApartStep(t: Snapshot, part: Part, u: nat, e: Edge)
    requires Shape(t, part) && Paired(t.edges) && !IsJoinedToTree(t.edges, u, part.at)
    requires e in t.edges && IsApart(t, part, u, e.source)
    ensures IsApart(t, part, u, e.target)
  {
    assert EdgeKind(t, part, e);
    if NamedAs(t, e.source, BdfidKind) && IsJoined(t.edges, u, e.source) && e.source !in part.at {
      FromDevice(t, part, u, e);
    } else {
      FromRank(t, part, u, e);
    }
  }

  lemma FromDevice(t: Snapshot, part: Part, u: nat, e: Edge)
    requires Shape(t, part) && !IsJoinedToTree(t.edges, u, part.at) && e in t.edges && EdgeKind(t, part, e)
    requires NamedAs(t, e.source, BdfidKind) && IsJoined(t.edges, u, e.source) && e.source !in part.at
    ensures IsApart(t, part, u, e.target)
  {
    NotNamedTwice(t, e.source, BdfidKind);
    match e.edgeType {
      case GPU_INTERCONNECT =>
        JoinedStep(t.edges, u, e);
      case CHILD =>
        NoTreeLink(part, e.source, e.target);
        assert e == Edge(e.source, e.target, CHILD);
        assert HangsApart(t, part, u, e.source, e.target);
      case PARENT =>
        NoTreeLink(part, e.target, e.source);
        assert false;
    }
  }

  lemma FromRank(t: Snapshot, part: Part, u: nat, e: Edge)
    requires Shape(t, part) && Paired(t.edges) && e in t.edges && EdgeKind(t, part, e)
    requires NamedAs(t, e.source, RankKind) && exists y :: HangsApart(t, part, u, y, e.source)
    ensures IsApart(t, part, u, e.target)
  {
    NotNamedTwice(t, e.source, RankKind);
    assert e.source !in part.at;
    var y :| HangsApart(t, part, u, y, e.source);
    match e.edgeType {
      case GPU_INTERCONNECT =>
        assert false;
      case CHILD =>
        NoTreeLink(part, e.source, e.target);
        assert false;
      case PARENT =>
        assert e == Edge(e.source, e.target, PARENT);
        assert multiset(t.edges)[e] > 0;
        var up, down := Edge(e.target, e.source, CHILD), Edge(y, e.source, CHILD);
        assert multiset(t.edges)[up] > 0;
        assert up in t.edges && down in t.edges && up.target == down.target;
        assert up.source == down.source;
    }
  }

  lemma NotNamedTwice(t: Snapshot, v: nat, k: IdKind)
    requires Valid(t) && NamedAs(t, v, k)
    ensures forall k' :: k' != k ==> !NamedAs(t, v, k')
  {
    forall k' | k' != k
      ensures !NamedAs(t, v, k')
    {
      if NamedAs(t, v, k') {
        OneKind(t, v, k, k');
      }
    }
  }

  /** Both ends of a link of the tree are in the tree. */
  lemma NoTreeLink(part: Part, p: nat, c: nat)
    ensures IsTreeLink(part, p, c) ==> p in part.at && c in part.at
  {
  }

  lemma {:induction false} PathStaysApart(t: Snapshot, part: Part, u: nat, p: seq<Edge>, v: nat)
    requires Shape(t, part) && Paired(t.edges) && !IsJoinedToTree(t.edges, u, part.at)
    requires NamedAs(t, u, BdfidKind) && IsPath(t.edges, u, p, v)
    ensures IsApart(t, part, u, v)
  {
    if p == [] {
      assert IsPath(t.edges, u, [], u) && OnlyInterconnects([]);
      assert IsJoined(t.edges, u, u);
    } else {
      PathStaysApart(t, part, u, p[..|p| - 1], p[|p| - 1].source);
      ApartStep(t, part, u, p[|p| - 1]);
    }
  }

  lemma ApartIsOutside(t: Snapshot, part: Part, u: nat, v: nat)
    requires Shape(t, part) && IsApart(t, part, u, v)
    ensures v !in part.at
  {
  }

  /** All vertices of the tree reach each other. */
  lemma TreeIsConnected(t: Snapshot, part: Part, v: nat, w: nat)
    requires Shape(t, part) && Paired(t.edges) && v in part.at && w in part.at
    ensures Reachable(t.edges, v, w)
  {
    ShapeIsPlanted(t, part);
    ParentsArePlaced(part.slots);
    PairedIsSymmetric(t.edges);
    TreeIsPlanted(t, part.machine, part.slots, part.at, v);
    TreeIsPlanted(t, part.machine, part.slots, part.at, w);
    var p :| IsChildPath(t, t.root, p, v);
    var q :| IsChildPath(t, t.root, q, w);
    var back := ReversePath(t.edges, t.root, p, v);
    Concatenate(t.edges, v, back, t.root, q, w);
  }

  /** From a device exactly the vertices that are joined to the tree reach its vertices. */
  lemma TreeReachedIff(t: Snapshot, part: Part, u: nat, w: nat)
    requires Shape(t, part) && Paired(t.edges) && NamedAs(t, u, BdfidKind) && w in part.at
    ensures Reachable(t.edges, u, w) <==> IsJoinedToTree(t.edges, u, part.at)
  {
    if IsJoinedToTree(t.edges, u, part.at) {
      var v :| v in part.at && IsJoined(t.edges, u, v);
      var p :| IsPath(t.edges, u, p, v) && OnlyInterconnects(p);
      TreeIsConnected(t, part, v, w);
      var q :| IsPath(t.edges, v, q, w);
      Concatenate(t.edges, u, p, v, q, w);
    } else if p :| IsPath(t.edges, u, p, w) {
      PathStaysApart(t, part, u, p, w);
      ApartIsOutside(t, part, u, w);
      assert false;
    }
  }

  /** The search on a graph of this shape. */
  lemma SearchOnShape(t: Snapshot, part: Part, start: nat)
    requires Shape(t, part) && Paired(t.edges) && IsFirstAccelerator(t, start) && HasPu(t)
    ensures var joined := IsJoinedToTree(t.edges, start, part.at);
            && ((forall v :: IsPrinted(t, start, v) <==> IsNearest(t, start, v)) <==> joined)
            && (!joined ==> forall v :: IsPu(t, v) ==> IsPrinted(t, start, v) && !IsNearest(t, start, v))
  {
    forall w | IsPu(t, w)
      ensures Reachable(t.edges, start, w) <==> IsJoinedToTree(t.edges, start, part.at)
    {
      assert w in part.at;
      TreeReachedIff(t, part, start, w);
    }
    ExactIff(t, start, IsJoinedToTree(t.edges, start, part.at));
  }

  /** After any run with accelerators and PUs: the search from the first accelerator prints exactly the nearest PUs if
      and only if this accelerator is an object of hwloc's tree or is joined to one by interconnects. Otherwise it
      prints every PU and can reach none. */
  lemma SearchInRun(order: SortOrder, steps: seq<Step>, machine: H.HwlocObj, start: nat) returns (part: Part)
    requires Sorts(order) && IsOneInit(steps, machine)
    requires IsFirstAccelerator(Run(order, steps), start) && HasPu(Run(order, steps))
    ensures var t := Run(order, steps); var joined := IsJoinedToTree(t.edges, start, part.at);
            && Shape(t, part) && part.slots == H.TreeSlots(machine) && Planted(t, machine, part.slots, part.at)
            && ((forall v :: IsPrinted(t, start, v) <==> IsNearest(t, start, v)) <==> joined)
            && (!joined ==> forall v :: IsPu(t, v) ==> IsPrinted(t, start, v) && !IsNearest(t, start, v))
  {
    var t := Run(order, steps);
    part := ShapeOfRun(order, steps, machine);
    var pu: nat :| IsPu(t, pu);
    assert pu in part.at;
    ShapeIsPlanted(t, part);
    SearchOnShape(t, part, start);
  }
}
