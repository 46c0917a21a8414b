/** How the hwloc step leaves the vertices it finds and makes, on any graph: what is there stays, what is missing is
    taken from the object. */
module HwlocLooks {
  import opened Components
  import opened Hwloc
  import opened HwlocTree
  import opened HwlocVertices
  import opened Identity
  import opened Topology

  /** A description and a type, once set, stay. */
  ghost predicate StaysSet(before: Vertex, after: Vertex) {
    && (before.description != "" ==> after.description == before.description)
    && (before.componentType != UnknownComponentType ==> after.componentType == before.componentType)
    && before.adapters <= after.adapters
  }

  ghost predicate AllStaySet(t: Snapshot, r: Snapshot) {
    |t.vertices| <= |r.vertices| && forall v :: 0 <= v < |t.vertices| ==> StaysSet(t.vertices[v], r.vertices[v])
  }

  lemma AllStaySetOn(t: Snapshot, s: Snapshot, r: Snapshot)
    requires AllStaySet(t, s) && AllStaySet(s, r)
    ensures AllStaySet(t, r)
  {
    forall v | 0 <= v < |t.vertices|
      ensures StaysSet(t.vertices[v], r.vertices[v])
    {
      assert StaysSet(t.vertices[v], s.vertices[v]) && StaysSet(s.vertices[v], r.vertices[v]);
      assert t.vertices[v].adapters <= s.vertices[v].adapters <= r.vertices[v].adapters;
    }
  }

  lemma AddObjectStaysSet(t: Snapshot, parent: nat, obj: HwlocObj)
    requires Valid(t)
    ensures AllStaySet(t, AddObject(t, parent, obj).0)
  {
  }

  /** The walk on any graph, whatever devices share a vertex. */
  lemma {:induction false} SubtreeStaysSet(t: Snapshot, parent: nat, cs: seq<HwlocObj>)
    requires Valid(t) && parent < |t.vertices|
    ensures AllStaySet(t, Subtree(t, parent, cs)) && Valid(Subtree(t, parent, cs))
    decreases cs
  {
    if cs != [] {
      var (added, v) := AddObject(t, parent, cs[0]);
      var below := Subtree(added, v, cs[0].children);
      AddObjectValid(t, parent, cs[0]);
      AddObjectStaysSet(t, parent, cs[0]);
      SubtreeStaysSet(added, v, cs[0].children);
      SubtreeStaysSet(below, parent, cs[1..]);
      AllStaySetOn(t, added, below);
      AllStaySetOn(t, below, Subtree(t, parent, cs));
    }
  }

  /** The hwloc step: only the machine's vertex is given another description, the host name. */
  lemma StepStaysSet(t: Snapshot, hostname: string, machine: HwlocObj)
    requires Valid(t)
    ensures var r := HwlocInit(t, hostname, machine);
            && Valid(r) && |t.vertices| <= |r.vertices| && r.root < |r.vertices|
            && MachineId(hostname) in r.ids && r.ids[MachineId(hostname)] == r.root
            && (forall v :: 0 <= v < |t.vertices| && v != r.root ==> StaysSet(t.vertices[v], r.vertices[v]))
            && (hostname != "" ==> r.vertices[r.root].description == hostname)
  {
    var start := RootSetUp(t, hostname, machine);
    RootSetUpEffect(t, hostname, machine);
    var image, at := TreeImage(t, hostname, machine);
    SubtreeStaysSet(start, start.root, machine.children);
    var r := HwlocInit(t, hostname, machine);
    RootStays(t, hostname, machine);
    forall v | 0 <= v < |t.vertices| && v != r.root
      ensures StaysSet(t.vertices[v], r.vertices[v])
    {
      assert StaysSet(start.vertices[v], r.vertices[v]) && start.vertices[v] == t.vertices[v];
    }
    assert StaysSet(start.vertices[start.root], r.vertices[start.root]);
  }

  lemma RootStays(t: Snapshot, hostname: string, machine: HwlocObj)
    requires Valid(t)
    ensures var start := RootSetUp(t, hostname, machine); var r := HwlocInit(t, hostname, machine);
            && MachineId(hostname) in r.ids && r.ids[MachineId(hostname)] == r.root == start.root
  {
    var start := RootSetUp(t, hostname, machine);
    RootSetUpEffect(t, hostname, machine);
    var built := BuildOfTree(start, machine, TreeSlots(machine));
  }

  /** An object's vertex, after the step: what was set is as before, what was not is the object's, and the object's
      adapter is the last one. */
  ghost predicate LooksLike(before: Vertex, after: Vertex, obj: HwlocObj) {
    && after.description == (if before.description != "" then before.description else obj.typeString)
    && after.componentType ==
       (if before.componentType != UnknownComponentType then before.componentType else YlocType(obj.objType))
    && |after.adapters| == |before.adapters| + 1 && before.adapters <= after.adapters
    && IsObjectAdapter(after.adapters[|before.adapters|], obj)
  }

  /** On any graph, if the machine's devices are distinct: every object's vertex. */
  lemma ObjectsLook(t: Snapshot, hostname: string, machine: HwlocObj)
    returns (r: Snapshot, slots: seq<Slot>, at: seq<nat>)
    requires Valid(t) && DistinctDevices(TreeSlots(machine))
    ensures r == HwlocInit(t, hostname, machine) && slots == TreeSlots(machine) && IsImage(t, r, slots, at)
    ensures forall k :: 0 <= k < |slots| ==>
              at[1 + k] < |r.vertices| && LooksLike(At(t, at[1 + k]), r.vertices[at[1 + k]], slots[k].obj)
    ensures r.root < |r.vertices| && r.vertices[r.root].description == hostname
  {
    var start;
    start, r, slots, at := HwlocGrows(t, hostname, machine);
    RootSetUpEffect(t, hostname, machine);
    forall k | 0 <= k < |slots|
      ensures at[1 + k] < |r.vertices| && LooksLike(At(t, at[1 + k]), r.vertices[at[1 + k]], slots[k].obj)
    {
      ObjectAnswers(slots[k].obj);
      RootSetUpElsewhere(t, hostname, machine, at[1 + k]);
      assert ObjectAt(machine, slots, 1 + k) == slots[k].obj;
    }
    RootUntouched(start, r, machine, slots, at);
  }

  lemma RootSetUpElsewhere(t: Snapshot, hostname: string, machine: HwlocObj, v: nat)
    requires Valid(t) && v != RootSetUp(t, hostname, machine).root
    ensures At(RootSetUp(t, hostname, machine), v) == At(t, v)
  {
  }

  lemma RootUntouched(start: Snapshot, r: Snapshot, machine: HwlocObj, slots: seq<Slot>, at: seq<nat>)
    requires Grew(start, r, machine, slots, at) && start.root < |start.vertices| && at[0] == start.root
    requires forall i, j :: 0 <= i < j < |at| ==> at[i] != at[j]
    ensures start.root < |r.vertices| && r.vertices[start.root] == start.vertices[start.root]
  {
  }
}
