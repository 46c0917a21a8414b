/** The hwloc step, on a graph that any other modules have built, plants its tree and keeps the shape of the graph. */
module HwlocPlanting {
  import opened Components
  import opened FindDistances
  import opened Hwloc
  import opened HwlocDescent
  import HI = HwlocInvariants
  import opened HwlocTree
  import opened HwlocVertices
  import opened Identity
  import opened Invariants
  import opened Options
  import P = Properties
  import opened Shapes
  import opened Topology

  /** What names say after the step: nothing new about old vertices, and new names are names of devices. */
  lemma NamesAfter(t: Snapshot, r: Snapshot, v: nat, k: IdKind)
    requires Valid(t) && NamesGrew(t, r)
    ensures v < |t.vertices| ==> (NamedAs(r, v, k) <==> NamedAs(t, v, k))
    ensures |t.vertices| <= v && NamedAs(r, v, k) ==> k == BdfidKind
  {
    if NamedAs(t, v, k) {
      var id :| id in t.ids && t.ids[id] == v && KindOf(id) == k;
      assert id in r.ids && r.ids[id] == v;
    }
    if NamedAs(r, v, k) {
      var id :| id in r.ids && r.ids[id] == v && KindOf(id) == k;
      assert id in t.ids || KindOf(id) == BdfidKind;
    }
  }

  /** Where a position of the tree stands: at a device's vertex, or at a vertex without a name that was not there. */
  lemma PlaceOfPosition(t: Snapshot, start: Snapshot, r: Snapshot, machine: HwlocObj, slots: seq<Slot>, at: seq<nat>,
                        j: nat)
    requires Valid(r) && IsImage(t, r, slots, at) && |at| == 1 + |slots| && 0 < j < |at|
    requires |start.vertices| <= |t.vertices| + 1 && (|start.vertices| > |t.vertices| ==> at[0] == |t.vertices|)
    ensures if IsPci(ObjectAt(machine, slots, j)) then NamedAs(r, at[j], BdfidKind)
            else |start.vertices| <= at[j] && forall k :: !NamedAs(r, at[j], k)
  {
    var k: nat := j - 1;
    assert OwnVertex(t, r, slots[k].obj, at[1 + k]) && at[1 + k] != at[0];
    assert 1 + k == j;
    var obj := slots[k].obj;
    if IsPci(obj) {
      IdKinds("", "", 0, Pack(obj.address));
      assert IdOf(obj) in r.ids && r.ids[IdOf(obj)] == at[j];
    }
  }

  /** The root vertex as it is after the step. */
  lemma RootAfter(t: Snapshot, hostname: string, machine: HwlocObj, part: Part)
    requires Shape(t, part) && part.at == []
    ensures var t1 := Intern(t, MachineId(hostname)); var start := RootSetUp(t, hostname, machine); var v := start.root;
            && Shape(t1, part) && v < |t1.vertices| && NamedAs(t1, v, MachineKind)
            && start.ids == t1.ids && |start.vertices| == |t1.vertices| && start.edges == t.edges
            && (forall w: nat :: w < |t1.vertices| && w != v ==> start.vertices[w] == t1.vertices[w])
            && MaskOf(start, v) == machine.cpuset
            && !IsRank(start, v) && !IsAcceleratorVertex(start, v)
            && |t1.vertices| <= |t.vertices| + 1 && (|t1.vertices| > |t.vertices| ==> v == |t.vertices|)
  {
    var id := MachineId(hostname);
    IdKinds(hostname, "", 0, 0);
    InternShape(t, part, id);
    var t1 := Intern(t, id);
    var v := t1.ids[id];
    if NamedAs(t1, v, RankKind) {
      OneKind(t1, v, MachineKind, RankKind);
    }
    if NamedAs(t1, v, BdfidKind) {
      OneKind(t1, v, MachineKind, BdfidKind);
    }
    assert !IsRank(t1, v) && !IsAcceleratorVertex(t1, v) && !Masked(t1, v);
    P.CpuMaskAppend(At(t1, v).adapters, HwlocAdapter(machine));
  }

  /** What an object's vertex carried before the step: no mask, and no type of a rank or PU. */
  lemma BeforePlanting(start: Snapshot, t1: Snapshot, part: Part, root: nat, v: nat, device: bool)
    requires Shape(t1, part) && part.at == [] && |start.vertices| == |t1.vertices| && v != root
    requires forall w: nat :: w < |t1.vertices| && w != root ==> start.vertices[w] == t1.vertices[w]
    requires v < |t1.vertices| ==> NamedAs(t1, v, BdfidKind)
    ensures P.CpuMask(At(start, v).adapters) == None
    ensures var c := At(start, v).componentType; !IsMPIProcess(c) && !IsLogicalCore(c)
    ensures v >= |t1.vertices| ==> At(start, v) == BLANK_VERTEX
  {
    if v < |t1.vertices| {
      if NamedAs(t1, v, RankKind) {
        OneKind(t1, v, BdfidKind, RankKind);
      }
      assert !IsRank(t1, v) && !IsPu(t1, v) && !Masked(t1, v);
    }
  }

  /** An object's vertex after the step. */
  lemma VertexAfter(start: Snapshot, r: Snapshot, v: nat, obj: HwlocObj)
    requires v < |r.vertices| && r.vertices[v] == Decorate(At(start, v), obj)
    requires P.CpuMask(At(start, v).adapters) == None
    requires var c := At(start, v).componentType; !IsMPIProcess(c) && !IsLogicalCore(c)
    ensures MaskOf(r, v) == obj.cpuset && !IsRank(r, v)
    ensures IsAcceleratorVertex(r, v) ==> IsAccelerator(At(start, v).componentType)
  {
    HI.MaskAfterDecorate(At(start, v), obj);
  }

  /** What is known of the graph after the step, vertex by vertex. */
  ghost predicate VerticesAfter(t1: Snapshot, r: Snapshot, part: Part) {
    && part.at != [] && |t1.vertices| <= |r.vertices|
    && (forall i: nat :: i < |part.at| ==>
          && part.at[i] < |r.vertices| && MaskOf(r, part.at[i]) == ObjectAt(part.machine, part.slots, i).cpuset
          && !IsRank(r, part.at[i]) && (IsAcceleratorVertex(r, part.at[i]) ==> NamedAs(r, part.at[i], BdfidKind))
          && !NamedAs(r, part.at[i], SystemKind) && !NamedAs(r, part.at[i], RankKind))
    && (forall v: nat :: v < |r.vertices| && v !in part.at ==> v < |t1.vertices| && r.vertices[v] == t1.vertices[v])
    && (forall v: nat, k :: v < |t1.vertices| ==> (NamedAs(r, v, k) <==> NamedAs(t1, v, k)))
    && (forall v: nat, k :: |t1.vertices| <= v && NamedAs(r, v, k) ==> k == BdfidKind)
  }

  lemma KindsAfter(t1: Snapshot, r: Snapshot, part0: Part, part: Part)
    requires Shape(t1, part0) && part0.at == [] && part.ranked == part0.ranked && Valid(r)
    requires VerticesAfter(t1, r, part) && r.root == part.at[0]
    ensures Kinds(r, part)
  {
    forall v: nat
      ensures IsRank(r, v) <==> NamedAs(r, v, RankKind)
      ensures IsAcceleratorVertex(r, v) ==> NamedAs(r, v, BdfidKind)
      ensures IsPu(r, v) ==> v in part.at
      ensures Masked(r, v) ==> NamedAs(r, v, RankKind) || v in part.at
      ensures v in part.at ==> !NamedAs(r, v, SystemKind) && !NamedAs(r, v, RankKind)
    {
      if v in part.at {
        var i: nat :| i < |part.at| && part.at[i] == v;
      } else if v < |r.vertices| {
        OldVertex(t1, r, v);
      } else {
        assert !NamedAs(r, v, RankKind);
      }
    }
    assert part.at[0] in part.at;
  }

  lemma OldVertex(t1: Snapshot, r: Snapshot, v: nat)
    requires v < |t1.vertices| && v < |r.vertices| && r.vertices[v] == t1.vertices[v]
    ensures (IsRank(r, v) <==> IsRank(t1, v)) && (IsPu(r, v) <==> IsPu(t1, v)) && MaskOf(r, v) == MaskOf(t1, v)
    ensures IsAcceleratorVertex(r, v) <==> IsAcceleratorVertex(t1, v)
  {
  }

  lemma EdgesAfter(t: Snapshot, t1: Snapshot, r: Snapshot, part0: Part, part: Part)
    requires Valid(t) && Shape(t1, part0) && part0.at == [] && t1.edges == t.edges
    requires VerticesAfter(t1, r, part) && EdgesOf(t.edges, r.edges, part.at, 1, part.slots)
    ensures EdgeKinds(r, part) && Leaves(r)
    ensures forall j: nat :: 0 < j < |part.at| ==>
              ParentAt(part.slots, j) < j && Edge(part.at[ParentAt(part.slots, j)], part.at[j], CHILD) in r.edges
  {
    forall e | e in r.edges
      ensures EdgeKind(r, part, e)
      ensures e in t.edges || (e.edgeType == CHILD ==> !NamedAs(r, e.target, RankKind))
    {
      if e in t.edges {
        assert EdgeKind(t1, part0, e);
        OldEdge(t1, r, part0, part, e);
      } else {
        var j := NewEdge(t, r, part, e);
        assert part.at[j] in part.at;
        assert IsChildAt(part.slots, part.at, ParentAt(part.slots, j), part.at[j]);
      }
    }
    forall j: nat | 0 < j < |part.at|
      ensures ParentAt(part.slots, j) < j && Edge(part.at[ParentAt(part.slots, j)], part.at[j], CHILD) in r.edges
    {
      var k: nat := j - 1;
      assert part.slots[k].parent < 1 + k;
      assert r.edges[|t.edges| + 2 * k] == Edge(part.at[part.slots[k].parent], part.at[1 + k], CHILD);
    }
    LeavesAfter(t1, r, part);
  }

  lemma LeavesAfter(t1: Snapshot, r: Snapshot, part: Part)
    requires Valid(t1) && Leaves(t1) && VerticesAfter(t1, r, part)
    requires forall e :: e in r.edges ==> e in t1.edges || (e.edgeType == CHILD ==> !NamedAs(r, e.target, RankKind))
    ensures Leaves(r)
  {
  }

  lemma OldEdge(t1: Snapshot, r: Snapshot, part0: Part, part: Part, e: Edge)
    requires Valid(t1) && EdgeKind(t1, part0, e) && part0.at == [] && e in t1.edges && VerticesAfter(t1, r, part)
    ensures EdgeKind(r, part, e)
  {
    assert forall k :: NamedAs(r, e.source, k) <==> NamedAs(t1, e.source, k);
    assert forall k :: NamedAs(r, e.target, k) <==> NamedAs(t1, e.target, k);
  }

  lemma NewEdge(t: Snapshot, r: Snapshot, part: Part, e: Edge) returns (j: nat)
    requires e in r.edges && e !in t.edges && EdgesOf(t.edges, r.edges, part.at, 1, part.slots)
    ensures 0 < j < |part.at| && ParentAt(part.slots, j) < j
    ensures e in ParentChild(part.at[ParentAt(part.slots, j)], part.at[j])
  {
    var n := |t.edges|;
    var i: nat :| i < |r.edges| && r.edges[i] == e;
    assert forall h :: 0 <= h < n ==> r.edges[h] == t.edges[h] && t.edges[h] in t.edges;
    var k: nat := (i - n) / 2;
    assert i == n + 2 * k || i == n + 2 * k + 1;
    assert part.slots[k].parent < 1 + k;
    assert r.edges[n + 2 * k] == Edge(part.at[part.slots[k].parent], part.at[1 + k], CHILD);
    j := 1 + k;
    assert ParentAt(part.slots, j) == part.slots[k].parent;
  }

  lemma Planting(t: Snapshot, hostname: string, machine: HwlocObj, part0: Part) returns (r: Snapshot, part: Part)
    requires Shape(t, part0) && part0.at == [] && DistinctDevices(TreeSlots(machine))
    ensures r == HwlocInit(t, hostname, machine)
    ensures part.machine == machine && part.slots == TreeSlots(machine) && part.at != [] && part.ranked == part0.ranked
    ensures Shape(r, part)
    ensures var start := RootSetUp(t, hostname, machine);
            && IsImage(t, r, part.slots, part.at) && part.at[0] == start.root
            && Grew(start, r, machine, part.slots, part.at) && NamesGrew(start, r)
  {
    var start, slots, at;
    start, r, slots, at := HwlocGrows(t, hostname, machine);
    part := Part(machine, slots, at, part0.ranked);
    RootAfter(t, hostname, machine, part0);
    var t1 := Intern(t, MachineId(hostname));
    PlantedVertices(t, t1, start, r, part0, part);
    RootSetUpEffect(t, hostname, machine);
    KindsAfter(t1, r, part0, part);
    EdgesAfter(t, t1, r, part0, part);
  }

  lemma PlantedVertices(t: Snapshot, t1: Snapshot, start: Snapshot, r: Snapshot, part0: Part, part: Part)
    requires Shape(t1, part0) && part0.at == [] && Valid(r) && Valid(start)
    requires start.ids == t1.ids && |start.vertices| == |t1.vertices|
    requires |t1.vertices| <= |t.vertices| + 1 && (|t1.vertices| > |t.vertices| ==> start.root == |t.vertices|)
    requires var v := start.root;
             && v < |t1.vertices| && NamedAs(t1, v, MachineKind)
             && (forall w: nat :: w < |t1.vertices| && w != v ==> start.vertices[w] == t1.vertices[w])
             && MaskOf(start, v) == part.machine.cpuset && !IsRank(start, v) && !IsAcceleratorVertex(start, v)
    requires Grew(start, r, part.machine, part.slots, part.at) && NamesGrew(start, r)
    requires IsImage(t, r, part.slots, part.at) && part.at[0] == start.root
    requires forall i, j :: 0 <= i < j < |part.at| ==> part.at[i] != part.at[j]
    ensures VerticesAfter(t1, r, part)
  {
    forall v: nat, k
      ensures v < |t1.vertices| ==> (NamedAs(r, v, k) <==> NamedAs(t1, v, k))
      ensures |t1.vertices| <= v && NamedAs(r, v, k) ==> k == BdfidKind
    {
      NamesAfter(start, r, v, k);
      IdsGiveNames(t1, start);
    }
    forall i: nat | i < |part.at|
      ensures part.at[i] < |r.vertices| && MaskOf(r, part.at[i]) == ObjectAt(part.machine, part.slots, i).cpuset
      ensures !IsRank(r, part.at[i]) && (IsAcceleratorVertex(r, part.at[i]) ==> NamedAs(r, part.at[i], BdfidKind))
      ensures !NamedAs(r, part.at[i], SystemKind) && !NamedAs(r, part.at[i], RankKind)
    {
      if i == 0 {
        RootVertexAfter(t1, start, r, part);
      } else {
        PlaceOfPosition(t, start, r, part.machine, part.slots, part.at, i);
        ObjectVertexAfter(t1, start, r, part0, part, i);
      }
    }
    forall v: nat | v < |r.vertices| && v !in part.at
      ensures v < |t1.vertices| && r.vertices[v] == t1.vertices[v]
    {
      assert !IsPlaced(part.at, v);
      assert part.at[0] in part.at;
    }
  }

  lemma RootVertexAfter(t1: Snapshot, start: Snapshot, r: Snapshot, part: Part)
    requires Valid(r) && start.root < |t1.vertices| == |start.vertices| && NamedAs(r, start.root, MachineKind)
    requires MaskOf(start, start.root) == part.machine.cpuset
    requires !IsRank(start, start.root) && !IsAcceleratorVertex(start, start.root)
    requires Grew(start, r, part.machine, part.slots, part.at) && part.at[0] == start.root
    requires forall i, j :: 0 <= i < j < |part.at| ==> part.at[i] != part.at[j]
    ensures start.root < |r.vertices| && MaskOf(r, start.root) == part.machine.cpuset
    ensures !IsRank(r, start.root) && !IsAcceleratorVertex(r, start.root)
    ensures !NamedAs(r, start.root, SystemKind) && !NamedAs(r, start.root, RankKind)
  {
    assert !IsPlaced(part.at, start.root);
    if NamedAs(r, start.root, SystemKind) {
      OneKind(r, start.root, MachineKind, SystemKind);
    }
    if NamedAs(r, start.root, RankKind) {
      OneKind(r, start.root, MachineKind, RankKind);
    }
  }

  lemma ObjectVertexAfter(t1: Snapshot, start: Snapshot, r: Snapshot, part0: Part, part: Part, i: nat)
    requires Shape(t1, part0) && part0.at == [] && Valid(r) && |start.vertices| == |t1.vertices|
    requires forall w: nat :: w < |t1.vertices| && w != start.root ==> start.vertices[w] == t1.vertices[w]
    requires Grew(start, r, part.machine, part.slots, part.at)
    requires forall v: nat, k :: v < |t1.vertices| ==> (NamedAs(r, v, k) <==> NamedAs(t1, v, k))
    requires 0 < i < |part.at| && part.at[i] != start.root
    requires if IsPci(ObjectAt(part.machine, part.slots, i)) then NamedAs(r, part.at[i], BdfidKind)
             else |start.vertices| <= part.at[i] && forall k :: !NamedAs(r, part.at[i], k)
    ensures part.at[i] < |r.vertices| && MaskOf(r, part.at[i]) == ObjectAt(part.machine, part.slots, i).cpuset
    ensures !IsRank(r, part.at[i]) && (IsAcceleratorVertex(r, part.at[i]) ==> NamedAs(r, part.at[i], BdfidKind))
    ensures !NamedAs(r, part.at[i], SystemKind) && !NamedAs(r, part.at[i], RankKind)
  {
    var v, obj := part.at[i], ObjectAt(part.machine, part.slots, i);
    BeforePlanting(start, t1, part0, start.root, v, IsPci(obj));
    VertexAfter(start, r, v, obj);
    if NamedAs(r, v, BdfidKind) {
      if NamedAs(r, v, SystemKind) {
        OneKind(r, v, BdfidKind, SystemKind);
      }
      if NamedAs(r, v, RankKind) {
        OneKind(r, v, BdfidKind, RankKind);
      }
    }
  }
}
