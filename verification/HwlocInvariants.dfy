/** The hwloc step keeps the run invariants. */
module HwlocInvariants {
  import opened Hwloc
  import opened Identity
  import opened Invariants
  import opened Properties
  import opened Topology

  /** hwloc gives I/O objects no cpuset. */
  ghost predicate DevicesUnmasked(cs: seq<HwlocObj>)
    decreases cs
  {
    cs == [] || ((IsPci(cs[0]) ==> cs[0].cpuset.None?) && DevicesUnmasked(cs[0].children) && DevicesUnmasked(cs[1..]))
  }

  lemma MaskAfterDecorate(vertex: Vertex, obj: HwlocObj)
    ensures CpuMask(Decorate(vertex, obj).adapters) ==
            if CpuMask(vertex.adapters).Some? then CpuMask(vertex.adapters) else obj.cpuset
  {
    CpuMaskAppend(vertex.adapters, HwlocAdapter(obj));
  }

  /** The vertex of an object, before it is decorated: a device's is named as one, any other is fresh. */
  lemma AddedVertexKeeps(t: Snapshot, obj: HwlocObj) returns (added: Snapshot, v: nat)
    requires Inv(t)
    ensures added == (if IsPci(obj) then Intern(t, IdOf(obj)) else AddUnnamed(t)) && v == VertexFor(t, obj)
    ensures Inv(added) && v < |added.vertices| && |t.vertices| <= |added.vertices| && added.edges == t.edges
    ensures IsPci(obj) ==> NamedAs(added, v, BdfidKind)
    ensures !IsPci(obj) ==> v == |t.vertices| && At(added, v) == BLANK_VERTEX && forall k :: !NamedAs(added, v, k)
  {
    added, v := if IsPci(obj) then Intern(t, IdOf(obj)) else AddUnnamed(t), VertexFor(t, obj);
    if IsPci(obj) {
      InternKeeps(t, IdOf(obj));
      InternValid(t, IdOf(obj));
      IdKinds("", "", 0, Pack(obj.address));
    } else {
      AddUnnamedKeeps(t);
    }
  }

  lemma AddObjectKeeps(t: Snapshot, parent: nat, obj: HwlocObj)
    requires Inv(t) && Paired(t.edges) && parent < |t.vertices| && (IsPci(obj) ==> obj.cpuset.None?)
    ensures var r := AddObject(t, parent, obj).0; Inv(r) && Paired(r.edges)
  {
    var added, v := AddedVertexKeeps(t, obj);
    var vertex := Decorate(At(added, v), obj);
    var decorated := Put(added, v, vertex);
    MaskAfterDecorate(At(added, v), obj);
    if IsPci(obj) {
      assert MaskFree(added, v) && !Masked(added, v);
      assert !Masked(decorated, v);
    } else {
      assert forall e :: e in added.edges ==> e.target < v;
    }
    PutKeeps(added, v, vertex);
    NewEdgesAreGood(added, decorated, parent, v);
    AddEdgesKeeps(decorated, ParentChild(parent, v));
    ParentChildKeepsPairs(t.edges, parent, v);
  }

  lemma NewEdgesAreGood(added: Snapshot, t: Snapshot, parent: nat, v: nat)
    requires Valid(added) && t.ids == added.ids
    requires (NamedAs(added, v, BdfidKind) && !Masked(t, v)) || (parent < v && forall k :: !NamedAs(added, v, k))
    ensures forall e :: e in ParentChild(parent, v) ==> GoodEdge(t, e)
  {
    assert forall w, k :: NamedAs(t, w, k) == NamedAs(added, w, k);
    if NamedAs(t, v, MachineKind) && NamedAs(added, v, BdfidKind) {
      OneKind(added, v, MachineKind, BdfidKind);
    }
  }

  lemma {:induction false} SubtreeKeeps(t: Snapshot, parent: nat, cs: seq<HwlocObj>)
    requires Inv(t) && Paired(t.edges) && parent < |t.vertices| && DevicesUnmasked(cs)
    ensures var r := Subtree(t, parent, cs);
            Inv(r) && Paired(r.edges) && |t.vertices| <= |r.vertices| && r.root == t.root
    decreases cs
  {
    if cs != [] {
      var (added, v) := AddObject(t, parent, cs[0]);
      AddObjectValid(t, parent, cs[0]);
      AddObjectKeeps(t, parent, cs[0]);
      AddObjectEffect(t, parent, cs[0]);
      SubtreeKeeps(added, v, cs[0].children);
      var below := Subtree(added, v, cs[0].children);
      SubtreeKeeps(below, parent, cs[1..]);
    }
  }

  lemma RootSetUpKeeps(t: Snapshot, hostname: string, machine: HwlocObj)
    requires Inv(t)
    ensures Inv(RootSetUp(t, hostname, machine))
  {
    var id := MachineId(hostname);
    var named := Intern(t, id);
    InternKeeps(t, id);
    InternValid(t, id);
    IdKinds(hostname, "", 0, 0);
    var v := named.ids[id];
    var vertex := RootVertex(At(named, v), hostname, machine);
    if MaskFree(named, v) {
      OneKind(named, v, MachineKind, if NamedAs(named, v, SystemKind) then SystemKind else BdfidKind);
    }
    PutKeeps(named, v, vertex);
    SetRootKeeps(Put(named, v, vertex), v);
  }

  lemma HwlocInitKeeps(t: Snapshot, hostname: string, machine: HwlocObj)
    requires Inv(t) && Paired(t.edges) && DevicesUnmasked(machine.children)
    ensures var r := HwlocInit(t, hostname, machine); Inv(r) && Paired(r.edges) && r.root < |r.vertices|
  {
    RootSetUpKeeps(t, hostname, machine);
    RootSetUpEffect(t, hostname, machine);
    var start := RootSetUp(t, hostname, machine);
    SubtreeKeeps(start, start.root, machine.children);
  }
}
