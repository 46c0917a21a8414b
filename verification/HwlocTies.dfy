/** When the descent finds the smallest object of a machine that contains a query, and a machine on which the order
    that std::sort gives to equal bit counts decides. */
module HwlocTies {
  import opened Affinity
  import opened Components
  import opened Descent
  import opened Forests
  import opened Hwloc
  import HI = HwlocInvariants
  import opened HwlocDescent
  import opened HwlocTree
  import opened Identity
  import opened Options
  import opened ParentArrays
  import opened Sorting
  import opened Ties
  import opened Topology

  /** Every object below that at position j that has a cpuset has the same. */
  ghost predicate UniformObjects(slots: seq<Slot>, j: nat)
    requires IsParents(ParentsOf(slots)) && 0 < j <= |slots|
  {
    forall i: nat :: 0 < i <= |slots| && IsAncestor(ForestOf(ParentsOf(slots)), j, i) && slots[i - 1].obj.cpuset.Some?
                     ==> slots[i - 1].obj.cpuset == slots[j - 1].obj.cpuset
  }

  /** Sibling cpusets are disjoint, as hwloc's normal children are, unless one of the two is uniform, as its memory
      children are. */
  ghost predicate DisjointOrUniformObjects(slots: seq<Slot>) {
    IsParents(ParentsOf(slots)) &&
    forall j: nat, k: nat :: 0 < j < k <= |slots| && ParentAt(slots, j) == ParentAt(slots, k)
                             && slots[j - 1].obj.cpuset.Some? && slots[k - 1].obj.cpuset.Some?
                             ==> slots[j - 1].obj.cpuset.value !! slots[k - 1].obj.cpuset.value
                                 || UniformObjects(slots, j) || UniformObjects(slots, k)
  }

  lemma UniformVertex(t: Snapshot, machine: HwlocObj, slots: seq<Slot>, at: seq<nat>, j: nat)
    requires Planted(t, machine, slots, at) && IsParents(ParentsOf(slots))
    requires 0 < j <= |slots| && UniformObjects(slots, j)
    ensures IsUniform(t, at[j])
  {
    forall x | IsBelow(t, x, at[j]) && Masked(t, x)
      ensures MaskOf(t, x) == MaskOf(t, at[j])
    {
      var p :| IsChildPath(t, at[j], p, x);
      var i := PathEnds(t, machine, slots, at, j, p, x);
      assert i > 0 by {
        assert !Linked(ForestOf(ParentsOf(slots)), 0, 0);
      }
      assert slots[i - 1].obj == ObjectAt(machine, slots, i);
    }
  }

  lemma SiblingsDisjointOrUniform(t: Snapshot, machine: HwlocObj, slots: seq<Slot>, at: seq<nat>)
    requires Planted(t, machine, slots, at) && DisjointOrUniformObjects(slots)
    ensures DisjointOrUniform(t)
  {
    forall v: nat, w: nat, w': nat | IsTreeVertex(t, v) && Edge(v, w, CHILD) in t.edges && Edge(v, w', CHILD) in t.edges
                                     && w != w' && Masked(t, w) && Masked(t, w') && !IsRank(t, w) && !IsRank(t, w')
      ensures MaskOf(t, w).value !! MaskOf(t, w').value || IsUniform(t, w) || IsUniform(t, w')
    {
      var i := PositionOf(t, machine, slots, at, v);
      var j := ChildPosition(t, machine, slots, at, i, w);
      var k := ChildPosition(t, machine, slots, at, i, w');
      if j < k {
        PairOfSiblings(t, machine, slots, at, j, k);
      } else {
        PairOfSiblings(t, machine, slots, at, k, j);
      }
    }
  }

  lemma PairOfSiblings(t: Snapshot, machine: HwlocObj, slots: seq<Slot>, at: seq<nat>, j: nat, k: nat)
    requires Planted(t, machine, slots, at) && DisjointOrUniformObjects(slots)
    requires 0 < j < k < |at| && ParentAt(slots, j) == ParentAt(slots, k)
    requires Masked(t, at[j]) && Masked(t, at[k])
    ensures MaskOf(t, at[j]).value !! MaskOf(t, at[k]).value || IsUniform(t, at[j]) || IsUniform(t, at[k])
  {
    assert MaskOf(t, at[j]) == ObjectAt(machine, slots, j).cpuset == slots[j - 1].obj.cpuset;
    assert MaskOf(t, at[k]) == ObjectAt(machine, slots, k).cpuset == slots[k - 1].obj.cpuset;
    if UniformObjects(slots, j) {
      UniformVertex(t, machine, slots, at, j);
    }
    if UniformObjects(slots, k) {
      UniformVertex(t, machine, slots, at, k);
    }
  }

  /** On any graph that contains the tree of a machine with nested cpusets, for any query and one way of breaking ties:
      the result has the fewest bits of all objects that contain the query exactly when the machine contains it and
      no pick passes over an object smaller than all below the pick. */
  lemma LeastOnTree(t: Snapshot, machine: HwlocObj, slots: seq<Slot>, at: seq<nat>, order: SortOrder,
                    mask: AffinityMask)
    requires Planted(t, machine, slots, at) && Ascending(t) && Sorts(order) && NestedObjects(machine, slots)
    ensures IsLeast(t, mask, Descend(t, order, mask, t.root)) <==>
            ObjectHolds(machine, mask) && forall p, w, w', x :: !PassesOver(t, order, mask, p, w, w', x)
  {
    PlantedIsNested(t, machine, slots, at);
    VertexHolds(t, machine, slots, at, mask, 0);
    LeastIff(t, order, mask);
  }

  /** With sibling cpusets disjoint but for uniform ones, and a query that is not empty: the same for every way of
      breaking ties, exactly when no way of the descent can miss a smaller object below a sibling. */
  lemma LeastForEveryOrderOnTree(t: Snapshot, machine: HwlocObj, slots: seq<Slot>, at: seq<nat>, mask: AffinityMask)
    requires Planted(t, machine, slots, at) && Ascending(t) && NestedObjects(machine, slots)
    requires DisjointOrUniformObjects(slots) && mask != {}
    ensures OneDeep(t, mask)
    ensures (forall order :: Sorts(order) ==> IsLeast(t, mask, Descend(t, order, mask, t.root))) <==>
            ObjectHolds(machine, mask) && forall p, w, w', x :: !Misses(t, mask, p, w, w', x)
  {
    PlantedIsNested(t, machine, slots, at);
    VertexHolds(t, machine, slots, at, mask, 0);
    SiblingsDisjointOrUniform(t, machine, slots, at);
    DisjointOrUniformIsOneDeep(t, mask);
    LeastForEveryOrderIff(t, mask);
  }

  // ---- a machine on which ties decide

  /** One package: a third-level cache over two cores and, beside it, the memory of the package. */
  function SmallMachine(): HwlocObj {
    var no := PciAddress(0, 0, 0, 0);
    var pu0 := HwlocObj(ObjPu, no, Some({0}), 0, "PU", []);
    var pu1 := HwlocObj(ObjPu, no, Some({1}), 0, "PU", []);
    var core0 := HwlocObj(ObjCore, no, Some({0}), 0, "Core", [pu0]);
    var core1 := HwlocObj(ObjCore, no, Some({1}), 0, "Core", [pu1]);
    var cache := HwlocObj(ObjCache(3), no, Some({0, 1}), 32, "L3Cache", [core0, core1]);
    var numa := HwlocObj(ObjNumaNode, no, Some({0, 1}), 1024, "NUMANode", []);
    var package := HwlocObj(ObjPackage, no, Some({0, 1}), 0, "Package", [cache, numa]);
    HwlocObj(ObjMachine, no, Some({0, 1}), 0, "Machine", [package])
  }

  /** The positions of its objects. */
  const PACKAGE := 1
  const CACHE := 2
  const CORE0 := 3
  const PU0 := 4
  const NUMA := 7

  /** Type, cpuset and parent of every object, in preorder. */
  ghost predicate IsSmall(slots: seq<Slot>) {
    && |slots| == 7
    && (forall k :: 0 <= k < 7 ==> slots[k].obj.cpuset.Some? && !IsPci(slots[k].obj))
    && slots[0].obj.cpuset.value == slots[1].obj.cpuset.value == slots[6].obj.cpuset.value == {0, 1}
    && slots[2].obj.cpuset.value == slots[3].obj.cpuset.value == {0}
    && slots[4].obj.cpuset.value == slots[5].obj.cpuset.value == {1}
    && slots[0].parent == 0 && slots[1].parent == slots[6].parent == PACKAGE
    && slots[2].parent == slots[4].parent == CACHE && slots[3].parent == CORE0 && slots[5].parent == 5
  }

  lemma PreorderOfOne(c: HwlocObj, parent: nat, next: nat)
    ensures Preorder([c], parent, next) == [Slot(c, parent)] + Preorder(c.children, next, next + 1)
  {
    assert [c][1..] == [];
  }

  lemma PreorderOfTwo(c: HwlocObj, d: HwlocObj, parent: nat, next: nat)
    ensures var below := Preorder(c.children, next, next + 1);
            Preorder([c, d], parent, next)
            == [Slot(c, parent)] + below
               + ([Slot(d, parent)] + Preorder(d.children, next + 1 + |below|, next + 2 + |below|))
  {
    var below := Preorder(c.children, next, next + 1);
    assert [c, d][1..] == [d];
    PreorderOfOne(d, parent, next + 1 + |below|);
  }

  lemma CoreSlots(core: HwlocObj, parent: nat, next: nat)
    requires |core.children| == 1 && core.children[0].children == []
    ensures Preorder(core.children, next, next + 1) == [Slot(core.children[0], next)]
  {
    assert core.children == [core.children[0]];
    PreorderOfOne(core.children[0], next, next + 1);
  }

  lemma CacheSlots(cache: HwlocObj, core0: HwlocObj, core1: HwlocObj)
    requires cache.children == [core0, core1]
    requires |core0.children| == 1 && core0.children[0].children == []
    requires |core1.children| == 1 && core1.children[0].children == []
    ensures Preorder(cache.children, 2, 3)
            == [Slot(core0, 2), Slot(core0.children[0], 3), Slot(core1, 2), Slot(core1.children[0], 5)]
  {
    PreorderOfTwo(core0, core1, 2, 3);
    CoreSlots(core0, 2, 3);
    CoreSlots(core1, 2, 5);
  }

  lemma SmallSlots()
    ensures IsSmall(TreeSlots(SmallMachine()))
  {
    var machine := SmallMachine();
    var package := machine.children[0];
    var cache, numa := package.children[0], package.children[1];
    CacheSlots(cache, cache.children[0], cache.children[1]);
    PreorderOfOne(package, 0, 1);
    PreorderOfTwo(cache, numa, 1, 2);
  }

  lemma SmallIsAdmissible()
    ensures var machine := SmallMachine(); DistinctDevices(TreeSlots(machine)) && HI.DevicesUnmasked(machine.children)
  {
    var machine := SmallMachine();
    SmallSlots();
    var package := machine.children[0];
    var cache := package.children[0];
    LeavesUnmasked(cache.children[0].children);
    LeavesUnmasked(cache.children[1].children);
    LeavesUnmasked(package.children[1..]);
    assert HI.DevicesUnmasked(cache.children[1..]) && HI.DevicesUnmasked(cache.children);
    assert HI.DevicesUnmasked(package.children);
  }

  lemma LeavesUnmasked(cs: seq<HwlocObj>)
    requires |cs| == 1 && cs[0].children == [] && !IsPci(cs[0])
    ensures HI.DevicesUnmasked(cs)
  {
    assert cs[1..] == [];
  }

  /** The CHILD edges to vertices that contain cpu 0. */
  predicate IsSmallStep(v: nat, w: nat) {
    || (v == 0 && w == PACKAGE) || (v == PACKAGE && w == CACHE) || (v == PACKAGE && w == NUMA)
    || (v == CACHE && w == CORE0) || (v == CORE0 && w == PU0)
  }

  ghost predicate IsSmallGraph(t: Snapshot) {
    && Ascending(t) && t.root == 0
    && (forall v: nat, w: nat :: Edge(v, w, CHILD) in t.edges && Holds(t, {0}, w) <==> IsSmallStep(v, w))
    && CountOf(t, CACHE) == CountOf(t, NUMA) == 2 && CountOf(t, PU0) == 1
  }

  lemma SmallGraph(hostname: string) returns (t: Snapshot)
    ensures t == HwlocInit(EMPTY, hostname, SmallMachine()) && IsSmallGraph(t)
  {
    var slots, at;
    SmallIsAdmissible();
    SmallSlots();
    t, slots, at := MachineIsPlanted(hostname, SmallMachine());
    forall v: nat, w: nat
      ensures Edge(v, w, CHILD) in t.edges && Holds(t, {0}, w) <==> IsSmallStep(v, w)
    {
      SmallStep(t, SmallMachine(), slots, at, v, w);
    }
    SmallCounts(t, SmallMachine(), slots, at);
  }

  lemma SmallStep(t: Snapshot, machine: HwlocObj, slots: seq<Slot>, at: seq<nat>, v: nat, w: nat)
    requires Planted(t, machine, slots, at) && IsSmall(slots) && Valid(t)
    requires |t.vertices| == |at| && forall i :: 0 <= i < |at| ==> at[i] == i
    ensures Edge(v, w, CHILD) in t.edges && Holds(t, {0}, w) <==> IsSmallStep(v, w)
  {
    if v < |at| && w < |at| {
      ChildEdgeIsParent(t, machine, slots, at, v, w);
      VertexHolds(t, machine, slots, at, {0}, w);
      SmallObject(machine, slots, v, w);
    } else {
      assert Edge(v, w, CHILD).source == v && Edge(v, w, CHILD).target == w;
    }
  }

  lemma SmallObject(machine: HwlocObj, slots: seq<Slot>, v: nat, w: nat)
    requires IsSmall(slots) && v <= 7 && w <= 7
    ensures 0 < w && ParentAt(slots, w) == v && ObjectHolds(ObjectAt(machine, slots, w), {0}) <==> IsSmallStep(v, w)
  {
    if 0 < w {
      assert ObjectAt(machine, slots, w) == slots[w - 1].obj;
      assert 0 in {0} && !(0 in {1});
    }
  }

  lemma SmallCounts(t: Snapshot, machine: HwlocObj, slots: seq<Slot>, at: seq<nat>)
    requires Planted(t, machine, slots, at) && IsSmall(slots) && forall i :: 0 <= i < |at| ==> at[i] == i
    ensures CountOf(t, CACHE) == CountOf(t, NUMA) == 2 && CountOf(t, PU0) == 1
  {
    assert at[CACHE] == CACHE && at[NUMA] == NUMA && at[PU0] == PU0;
    assert ObjectAt(machine, slots, CACHE) == slots[1].obj && ObjectAt(machine, slots, NUMA) == slots[6].obj;
    assert ObjectAt(machine, slots, PU0) == slots[3].obj;
    assert {0, 1} == {0} + {1};
  }

  /** A single candidate is followed. */
  lemma OnlyStep(t: Snapshot, order: SortOrder, v: nat, w: nat)
    requires IsSmallGraph(t) && Sorts(order) && IsSmallStep(v, w) && v != PACKAGE
    ensures Descend(t, order, {0}, v) == Descend(t, order, {0}, w)
  {
    assert Edge(v, w, CHILD) in t.edges && Holds(t, {0}, w);
    CandidatesAreHolders(t, t.edges, {0}, v, w);
    var u := PickIsStep(t, order, {0}, v);
    assert IsSmallStep(v, u);
  }

  lemma FromCache(t: Snapshot, order: SortOrder)
    requires IsSmallGraph(t) && Sorts(order)
    ensures Descend(t, order, {0}, CACHE) == PU0 && Descend(t, order, {0}, NUMA) == NUMA
  {
    OnlyStep(t, order, CACHE, CORE0);
    OnlyStep(t, order, CORE0, PU0);
    forall w: nat | Edge(PU0, w, CHILD) in t.edges || Edge(NUMA, w, CHILD) in t.edges
      ensures !Holds(t, {0}, w)
    {
      assert !IsSmallStep(PU0, w) && !IsSmallStep(NUMA, w);
    }
    DescentStops(t, order, {0}, PU0);
    DescentStops(t, order, {0}, NUMA);
  }

  /** An order that prefers `w`, one of the two siblings with equal bit counts. */
  lemma PreferSibling(t: Snapshot, w: nat) returns (order: SortOrder)
    requires IsSmallGraph(t) && (w == CACHE || w == NUMA)
    ensures Sorts(order) && Descend(t, order, {0}, t.root) == Descend(t, order, {0}, w)
  {
    assert Edge(PACKAGE, w, CHILD) in t.edges && Holds(t, {0}, w);
    assert forall c: nat :: Edge(PACKAGE, c, CHILD) in t.edges && Holds(t, {0}, c) ==> IsSmallStep(PACKAGE, c);
    order := SomeOrderPicks(t, {0}, PACKAGE, w);
    StepHasPick(t, {0}, PACKAGE, w);
    var u := PickIsStep(t, order, {0}, PACKAGE);
    OnlyStep(t, order, 0, PACKAGE);
  }

  lemma PuIsLeast(t: Snapshot, order: SortOrder)
    requires IsSmallGraph(t) && Sorts(order) && Descend(t, order, {0}, t.root) == PU0
    ensures IsLeast(t, {0}, PU0)
  {
    var p := DescentIsMaximalChain(t, order, {0}, t.root);
    assert Edge(CORE0, PU0, CHILD) in t.edges && Holds(t, {0}, PU0);
    forall w | Holds(t, {0}, w)
      ensures 1 <= CountOf(t, w)
    {
      ContainmentIsInclusion({0}, MaskOf(t, w).value);
    }
  }

  lemma MemoryIsNotLeast(t: Snapshot)
    requires IsSmallGraph(t) && IsLeast(t, {0}, PU0)
    ensures !IsLeast(t, {0}, NUMA)
  {
  }

  /** For cpu 0 of that machine two orders of the sort, both correct, lead to different results: to the PU, which has
      the fewest bits of all objects containing the query, or to the memory of the whole package. */
  lemma TiesDecide(hostname: string) returns (t: Snapshot, first: SortOrder, second: SortOrder)
    ensures t == HwlocInit(EMPTY, hostname, SmallMachine()) && Ascending(t) && Sorts(first) && Sorts(second)
    ensures Descend(t, first, {0}, t.root) == PU0 && IsLeast(t, {0}, PU0)
    ensures Descend(t, second, {0}, t.root) == NUMA && !IsLeast(t, {0}, NUMA)
  {
    t := SmallGraph(hostname);
    first, second := BothOrders(t);
  }

  lemma BothOrders(t: Snapshot) returns (first: SortOrder, second: SortOrder)
    requires IsSmallGraph(t)
    ensures Sorts(first) && Descend(t, first, {0}, t.root) == PU0 && IsLeast(t, {0}, PU0)
    ensures Sorts(second) && Descend(t, second, {0}, t.root) == NUMA && !IsLeast(t, {0}, NUMA)
  {
    first := PreferSibling(t, CACHE);
    second := PreferSibling(t, NUMA);
    FromCache(t, first);
    FromCache(t, second);
    PuIsLeast(t, first);
    MemoryIsNotLeast(t);
  }
}
