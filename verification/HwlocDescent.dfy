/** The descent on a graph in which hwloc's object tree stands, whatever else is in it: when it finds the lowest
    object that contains a query. */
module HwlocDescent {
  import opened Affinity
  import opened Descent
  import opened Forests
  import opened Hwloc
  import HI = HwlocInvariants
  import opened HwlocTree
  import opened Invariants
  import opened ParentArrays
  import opened Sorting
  import opened Topology

  // ---- masks of objects

  /** Cpusets are nested: an object with a cpuset hangs under one whose cpuset includes it. */
  ghost predicate NestedObjects(machine: HwlocObj, slots: seq<Slot>) {
    forall k :: 0 <= k < |slots| && slots[k].obj.cpuset.Some? ==>
      var above := ObjectAt(machine, slots, slots[k].parent).cpuset;
      above.Some? && slots[k].obj.cpuset.value <= above.value
  }

  ghost predicate ObjectHolds(obj: HwlocObj, mask: AffinityMask) {
    obj.cpuset.Some? && mask <= obj.cpuset.value
  }

  /** No two siblings of the object tree both contain the mask. */
  ghost predicate NoRivalObjects(slots: seq<Slot>, mask: AffinityMask) {
    forall j, k :: 0 <= j < k < |slots| && ObjectHolds(slots[j].obj, mask) && ObjectHolds(slots[k].obj, mask)
                   ==> slots[j].parent != slots[k].parent
  }

  /** Position r contains the mask, and every object that does is r or stands above it. */
  ghost predicate IsLowestObject(machine: HwlocObj, slots: seq<Slot>, mask: AffinityMask, r: nat)
    requires IsParents(ParentsOf(slots))
  {
    && r < |ParentsOf(slots)| && ObjectHolds(ObjectAt(machine, slots, r), mask)
    && forall i: nat :: i < |ParentsOf(slots)| && ObjectHolds(ObjectAt(machine, slots, i), mask)
                        ==> IsAncestor(ForestOf(ParentsOf(slots)), i, r)
  }

  /** Disjoint sibling cpusets exclude rivals for every query but the empty one. */
  lemma DisjointObjectsHaveNoRivals(slots: seq<Slot>, mask: AffinityMask)
    requires mask != {}
    requires forall j, k :: 0 <= j < k < |slots| && slots[j].parent == slots[k].parent
                            && slots[j].obj.cpuset.Some? && slots[k].obj.cpuset.Some?
                            ==> slots[j].obj.cpuset.value !! slots[k].obj.cpuset.value
    ensures NoRivalObjects(slots, mask)
  {
    var cpu :| cpu in mask;
    forall j, k | 0 <= j < k < |slots| && ObjectHolds(slots[j].obj, mask) && ObjectHolds(slots[k].obj, mask)
      ensures slots[j].parent != slots[k].parent
    {
      assert cpu in slots[j].obj.cpuset.value && cpu in slots[k].obj.cpuset.value;
    }
  }

  // ---- the tree in the graph

  /** The position above position j. */
  ghost function ParentAt(slots: seq<Slot>, j: nat): nat {
    if 0 < j <= |slots| then slots[j - 1].parent else 0
  }

  /** w stands for a child of the object at position i. */
  ghost predicate IsChildAt(slots: seq<Slot>, at: seq<nat>, i: nat, w: nat) {
    exists j: nat :: 0 < j < |at| && ParentAt(slots, j) == i && at[j] == w
  }

  /** The graph contains the tree: position i stands at vertex at[i], with its object's mask, and the CHILD edges that
      leave the tree's vertices lead to its objects' children or to ranks. Vertices and edges outside are free. */
  ghost predicate Planted(t: Snapshot, machine: HwlocObj, slots: seq<Slot>, at: seq<nat>) {
    && |at| == 1 + |slots| && ParentsPrecede(slots, 1) && t.root == at[0]
    && (forall j: nat :: 0 < j < |at| ==> ParentAt(slots, j) < j)
    && (forall i: nat :: i < |at| ==>
          at[i] < |t.vertices| && MaskOf(t, at[i]) == ObjectAt(machine, slots, i).cpuset && !IsRank(t, at[i]))
    && (forall i, j :: 0 <= i < j < |at| ==> at[i] != at[j])
    && (forall j: nat :: 0 < j < |at| ==> Edge(at[ParentAt(slots, j)], at[j], CHILD) in t.edges)
    && (forall i: nat, w: nat ::
          i < |at| && Edge(at[i], w, CHILD) in t.edges && !IsRank(t, w) ==> IsChildAt(slots, at, i, w))
  }

  lemma ParentsArePlaced(slots: seq<Slot>)
    requires ParentsPrecede(slots, 1)
    ensures IsParents(ParentsOf(slots)) && forall i :: 1 <= i < |ParentsOf(slots)| ==> ParentsOf(slots)[i] < i
  {
    forall i | 1 <= i < |ParentsOf(slots)|
      ensures ParentsOf(slots)[i] < i
    {
      assert ParentsOf(slots)[1 + (i - 1)] == slots[i - 1].parent;
    }
  }

  lemma VertexHolds(t: Snapshot, machine: HwlocObj, slots: seq<Slot>, at: seq<nat>, mask: AffinityMask, i: nat)
    requires Planted(t, machine, slots, at) && i < |at|
    ensures Holds(t, mask, at[i]) <==> ObjectHolds(ObjectAt(machine, slots, i), mask)
  {
    if MaskOf(t, at[i]).Some? {
      ContainmentIsInclusion(mask, MaskOf(t, at[i]).value);
    }
  }

  lemma SamePosition(t: Snapshot, machine: HwlocObj, slots: seq<Slot>, at: seq<nat>, i: nat, j: nat)
    requires Planted(t, machine, slots, at) && i < |at| && j < |at| && at[i] == at[j]
    ensures i == j
  {
  }

  /** A child that is no rank of a position's vertex is the vertex of a child position. */
  lemma ChildPosition(t: Snapshot, machine: HwlocObj, slots: seq<Slot>, at: seq<nat>, i: nat, w: nat) returns (j: nat)
    requires Planted(t, machine, slots, at) && i < |at| && Edge(at[i], w, CHILD) in t.edges && !IsRank(t, w)
    ensures 0 < j < |at| && at[j] == w && ParentAt(slots, j) == i
  {
    assert IsChildAt(slots, at, i, w);
    j :| 0 < j < |at| && ParentAt(slots, j) == i && at[j] == w;
  }

  /** Positions are siblings exactly if their vertices are CHILD successors of one vertex. */
  lemma ChildEdgeIsParent(t: Snapshot, machine: HwlocObj, slots: seq<Slot>, at: seq<nat>, i: nat, j: nat)
    requires Planted(t, machine, slots, at) && i < |at| && j < |at|
    ensures Edge(at[i], at[j], CHILD) in t.edges <==> 0 < j && ParentAt(slots, j) == i
  {
    if Edge(at[i], at[j], CHILD) in t.edges {
      var h := ChildPosition(t, machine, slots, at, i, at[j]);
      SamePosition(t, machine, slots, at, h, j);
    }
  }

  lemma ParentsAgree(slots: seq<Slot>, j: nat)
    requires IsParents(ParentsOf(slots)) && 0 < j < |ParentsOf(slots)|
    ensures ParentsOf(slots)[j] == ParentAt(slots, j)
    ensures ParentAt(slots, j) < j ==> Linked(ForestOf(ParentsOf(slots)), j, ParentAt(slots, j))
  {
    assert ParentsOf(slots)[1 + (j - 1)] == slots[j - 1].parent;
  }

  /** A path from the vertex of a position ends at the vertex of one below it. */
  lemma {:induction false} PathEnds(t: Snapshot, machine: HwlocObj, slots: seq<Slot>, at: seq<nat>, i: nat,
                                    p: seq<Edge>, w: nat) returns (j: nat)
    requires Planted(t, machine, slots, at) && i < |at| && IsChildPath(t, at[i], p, w)
    requires IsParents(ParentsOf(slots))
    ensures j < |at| && w == at[j] && IsAncestor(ForestOf(ParentsOf(slots)), i, j)
  {
    if p == [] {
      j := i;
    } else {
      var e := p[|p| - 1];
      ChildPathButLast(t, at[i], p, w);
      var h := PathEnds(t, machine, slots, at, i, p[..|p| - 1], e.source);
      j := ChildPosition(t, machine, slots, at, h, w);
      ParentsAgree(slots, j);
    }
  }

  /** The vertex of a position is reached from that of any position above it. */
  lemma {:induction false} PathDown(t: Snapshot, machine: HwlocObj, slots: seq<Slot>, at: seq<nat>, i: nat, j: nat)
    returns (p: seq<Edge>)
    requires Planted(t, machine, slots, at) && j < |at| && IsParents(ParentsOf(slots))
    requires IsAncestor(ForestOf(ParentsOf(slots)), i, j)
    ensures i < |at| && IsChildPath(t, at[i], p, at[j])
    decreases j
  {
    if i == j {
      p := [];
    } else {
      var h := ParentAt(slots, j);
      assert j > 0 by {
        assert !Linked(ForestOf(ParentsOf(slots)), 0, 0);
      }
      ParentsAgree(slots, j);
      var up := PathDown(t, machine, slots, at, i, h);
      ChildEdgeIsParent(t, machine, slots, at, h, j);
      Append(t, at[i], up, at[h], at[j]);
      p := up + [Edge(at[h], at[j], CHILD)];
    }
  }

  lemma BelowIsAncestry(t: Snapshot, machine: HwlocObj, slots: seq<Slot>, at: seq<nat>, i: nat, j: nat)
    requires Planted(t, machine, slots, at) && i < |at| && j < |at| && IsParents(ParentsOf(slots))
    ensures IsBelow(t, at[j], at[i]) <==> IsAncestor(ForestOf(ParentsOf(slots)), i, j)
  {
    if p :| IsChildPath(t, at[i], p, at[j]) {
      var h := PathEnds(t, machine, slots, at, i, p, at[j]);
      SamePosition(t, machine, slots, at, h, j);
    }
    if IsAncestor(ForestOf(ParentsOf(slots)), i, j) {
      var p := PathDown(t, machine, slots, at, i, j);
    }
  }

  /** What the descent can reach is the tree. */
  lemma TreeIsPlanted(t: Snapshot, machine: HwlocObj, slots: seq<Slot>, at: seq<nat>, v: nat)
    requires Planted(t, machine, slots, at)
    ensures IsTreeVertex(t, v) <==> v in at
  {
    ParentsArePlaced(slots);
    if p :| IsChildPath(t, t.root, p, v) {
      var j := PathEnds(t, machine, slots, at, 0, p, v);
    }
    if v in at {
      var j: nat :| j < |at| && at[j] == v;
      RootOfFirstTree(ParentsOf(slots), |at|, j);
      var p := PathDown(t, machine, slots, at, 0, j);
    }
  }

  lemma PositionOf(t: Snapshot, machine: HwlocObj, slots: seq<Slot>, at: seq<nat>, v: nat) returns (i: nat)
    requires Planted(t, machine, slots, at) && IsTreeVertex(t, v)
    ensures i < |at| && at[i] == v
  {
    TreeIsPlanted(t, machine, slots, at, v);
    i :| i < |at| && at[i] == v;
  }

  lemma NestedAt(machine: HwlocObj, slots: seq<Slot>, j: nat)
    requires NestedObjects(machine, slots) && 0 < j <= |slots| && ObjectAt(machine, slots, j).cpuset.Some?
    ensures var above := ObjectAt(machine, slots, ParentAt(slots, j)).cpuset;
            above.Some? && ObjectAt(machine, slots, j).cpuset.value <= above.value
  {
    assert slots[j - 1].obj.cpuset.Some?;
  }

  lemma PlantedIsNested(t: Snapshot, machine: HwlocObj, slots: seq<Slot>, at: seq<nat>)
    requires Planted(t, machine, slots, at) && NestedObjects(machine, slots)
    ensures Nested(t)
  {
    forall e | e in t.edges && e.edgeType == CHILD && IsTreeVertex(t, e.source)
               && Masked(t, e.target) && !IsRank(t, e.target)
      ensures Masked(t, e.source) && IsContaining(MaskOf(t, e.source).value, MaskOf(t, e.target).value)
    {
      var i := PositionOf(t, machine, slots, at, e.source);
      assert e == Edge(at[i], e.target, CHILD);
      var j := ChildPosition(t, machine, slots, at, i, e.target);
      NestedAt(machine, slots, j);
      ContainmentIsInclusion(MaskOf(t, at[j]).value, MaskOf(t, at[i]).value);
    }
  }

  lemma PlantedHasOneParent(t: Snapshot, machine: HwlocObj, slots: seq<Slot>, at: seq<nat>)
    requires Planted(t, machine, slots, at)
    ensures OneParent(t)
  {
    forall v, v', w | IsTreeVertex(t, v) && IsTreeVertex(t, v') && Edge(v, w, CHILD) in t.edges
                      && Edge(v', w, CHILD) in t.edges && !IsRank(t, w)
      ensures v == v'
    {
      var i := PositionOf(t, machine, slots, at, v);
      var i' := PositionOf(t, machine, slots, at, v');
      var j := ChildPosition(t, machine, slots, at, i, w);
      var j' := ChildPosition(t, machine, slots, at, i', w);
      SamePosition(t, machine, slots, at, j, j');
    }
  }

  lemma RivalsAreRivalObjects(t: Snapshot, machine: HwlocObj, slots: seq<Slot>, at: seq<nat>, mask: AffinityMask)
    requires Planted(t, machine, slots, at)
    ensures RivalFree(t, mask) <==> NoRivalObjects(slots, mask)
  {
    if RivalFree(t, mask) {
      forall j: nat, k: nat | j < k < |slots| && ObjectHolds(slots[j].obj, mask) && ObjectHolds(slots[k].obj, mask)
        ensures slots[j].parent != slots[k].parent
      {
        RivalObjectsAreRivals(t, machine, slots, at, mask, j + 1, k + 1);
      }
    }
    if NoRivalObjects(slots, mask) {
      forall v, w, w' | IsTreeVertex(t, v) && Edge(v, w, CHILD) in t.edges && Edge(v, w', CHILD) in t.edges
                        && Holds(t, mask, w) && Holds(t, mask, w')
        ensures w == w'
      {
        var i := PositionOf(t, machine, slots, at, v);
        var j := ChildPosition(t, machine, slots, at, i, w);
        var k := ChildPosition(t, machine, slots, at, i, w');
        VertexHolds(t, machine, slots, at, mask, j);
        VertexHolds(t, machine, slots, at, mask, k);
        SiblingsHold(slots, mask, j, k);
      }
    }
  }

  lemma RivalObjectsAreRivals(t: Snapshot, machine: HwlocObj, slots: seq<Slot>, at: seq<nat>, mask: AffinityMask,
                              j: nat, k: nat)
    requires Planted(t, machine, slots, at) && RivalFree(t, mask) && 0 < j < k < |at|
    requires ObjectHolds(slots[j - 1].obj, mask) && ObjectHolds(slots[k - 1].obj, mask)
    ensures ParentAt(slots, j) != ParentAt(slots, k)
  {
    var i := ParentAt(slots, j);
    VertexHolds(t, machine, slots, at, mask, j);
    VertexHolds(t, machine, slots, at, mask, k);
    TreeIsPlanted(t, machine, slots, at, at[i]);
    ChildEdgeIsParent(t, machine, slots, at, i, j);
    ChildEdgeIsParent(t, machine, slots, at, i, k);
    if at[j] == at[k] {
      SamePosition(t, machine, slots, at, j, k);
    }
  }

  lemma SiblingsHold(slots: seq<Slot>, mask: AffinityMask, j: nat, k: nat)
    requires NoRivalObjects(slots, mask) && 0 < j <= |slots| && 0 < k <= |slots|
    requires ObjectHolds(slots[j - 1].obj, mask) && ObjectHolds(slots[k - 1].obj, mask)
    requires ParentAt(slots, j) == ParentAt(slots, k)
    ensures j == k
  {
  }

  /** IsLowest, told by positions. */
  lemma LowestIsAncestry(t: Snapshot, machine: HwlocObj, slots: seq<Slot>, at: seq<nat>, mask: AffinityMask, r: nat)
    requires Planted(t, machine, slots, at) && r < |at| && IsParents(ParentsOf(slots))
    ensures IsLowest(t, mask, at[r]) <==> IsLowestObject(machine, slots, mask, r)
  {
    TreeIsPlanted(t, machine, slots, at, at[r]);
    VertexHolds(t, machine, slots, at, mask, r);
    forall i: nat | i < |at|
      ensures IsTreeVertex(t, at[i]) && (Holds(t, mask, at[i]) <==> ObjectHolds(ObjectAt(machine, slots, i), mask))
      ensures IsBelow(t, at[r], at[i]) <==> IsAncestor(ForestOf(ParentsOf(slots)), i, r)
    {
      TreeIsPlanted(t, machine, slots, at, at[i]);
      VertexHolds(t, machine, slots, at, mask, i);
      BelowIsAncestry(t, machine, slots, at, i, r);
    }
    forall w | IsTreeVertex(t, w)
      ensures exists i: nat :: i < |at| && at[i] == w
    {
      var i := PositionOf(t, machine, slots, at, w);
    }
  }

  /** On any graph that contains the tree of a machine with nested cpusets, for any query: the descent ends at a
      position of the tree, and this is the lowest object that contains the query, all others that contain it
      standing above, exactly when the machine contains it and no two sibling objects both do. */
  lemma DescentOnTree(t: Snapshot, machine: HwlocObj, slots: seq<Slot>, at: seq<nat>, order: SortOrder,
                      mask: AffinityMask) returns (r: nat)
    requires Planted(t, machine, slots, at) && Ascending(t) && Sorts(order) && NestedObjects(machine, slots)
    ensures IsParents(ParentsOf(slots)) && r < |at| && Descend(t, order, mask, t.root) == at[r]
    ensures IsLowestObject(machine, slots, mask, r) <==> ObjectHolds(machine, mask) && NoRivalObjects(slots, mask)
  {
    ParentsArePlaced(slots);
    PlantedIsNested(t, machine, slots, at);
    PlantedHasOneParent(t, machine, slots, at);
    var p := DescentIsMaximalChain(t, order, mask, t.root);
    r := PathEnds(t, machine, slots, at, 0, p, Descend(t, order, mask, t.root));
    VertexHolds(t, machine, slots, at, mask, 0);
    LowestIffRivalFree(t, order, mask);
    RivalsAreRivalObjects(t, machine, slots, at, mask);
    LowestIsAncestry(t, machine, slots, at, mask, r);
  }

  // ---- on the empty graph

  /** On the empty graph position i stands at vertex i. */
  lemma MachineIsPlanted(hostname: string, machine: HwlocObj)
    returns (t: Snapshot, slots: seq<Slot>, at: seq<nat>)
    requires DistinctDevices(TreeSlots(machine)) && HI.DevicesUnmasked(machine.children)
    ensures t == HwlocInit(EMPTY, hostname, machine) && slots == TreeSlots(machine) && Ascending(t)
    ensures Planted(t, machine, slots, at) && forall i :: 0 <= i < |at| ==> at[i] == i
    ensures Valid(t) && |t.vertices| == |at|
  {
    var root;
    t, slots, root := FreshMachine(hostname, machine);
    at := seq(1 + |slots|, i => i);
    assert multiset(EMPTY.edges) == multiset{};
    HI.HwlocInitKeeps(EMPTY, hostname, machine);
    InvMeansAscending(t);
    forall i: nat | i < |at|
      ensures MaskOf(t, i) == ObjectAt(machine, slots, i).cpuset && !IsRank(t, i)
    {
      VertexIsObject(hostname, machine, t, slots, i);
    }
    FreshTreeEdges(t, slots, at);
  }

  lemma FreshTreeEdges(t: Snapshot, slots: seq<Slot>, at: seq<nat>)
    requires TreeGraph(t, ParentsOf(slots)) && ParentsPrecede(slots, 1)
    requires |at| == 1 + |slots| && forall i :: 0 <= i < |at| ==> at[i] == i
    ensures forall j: nat ::
              0 < j < |at| ==> ParentAt(slots, j) < j && Edge(at[ParentAt(slots, j)], at[j], CHILD) in t.edges
    ensures forall i: nat, w: nat :: i < |at| && Edge(at[i], w, CHILD) in t.edges ==> IsChildAt(slots, at, i, w)
  {
    forall j: nat | 0 < j < |at|
      ensures ParentAt(slots, j) < j && Edge(at[ParentAt(slots, j)], at[j], CHILD) in t.edges
    {
      ParentsAgree(slots, j);
      assert slots[j - 1].parent < 1 + (j - 1);
      assert IsTreeEdge(ParentsOf(slots), Edge(ParentAt(slots, j), j, CHILD));
    }
    forall i: nat, w: nat | i < |at| && Edge(at[i], w, CHILD) in t.edges
      ensures IsChildAt(slots, at, i, w)
    {
      assert IsTreeEdge(ParentsOf(slots), Edge(i, w, CHILD));
      ParentsAgree(slots, w);
      assert ParentAt(slots, w) == i && at[w] == w;
    }
  }
}
