/** What the hwloc step does to the vertices of any graph, when no two devices of the tree have the same address: every
    object decorates a vertex of its own, and nothing else changes. */
module HwlocVertices {
  import opened Components
  import opened Hwloc
  import opened HwlocTree
  import opened Identity
  import opened Topology

  /** v is the vertex of a position below the root. */
  ghost predicate IsPlaced(at: seq<nat>, v: nat) {
    exists j: nat :: 0 < j < |at| && at[j] == v
  }

  ghost predicate Unrepeated(at: seq<nat>) {
    forall i, j :: 0 < i < j < |at| ==> at[i] != at[j]
  }

  /** The vertices below the root carry what they had and their object's share; all others are as before; whatever is
      new is in the tree, and new names are names of devices. */
  ghost predicate Grew(before: Snapshot, r: Snapshot, machine: HwlocObj, slots: seq<Slot>, at: seq<nat>) {
    && |at| == 1 + |slots| && |before.vertices| <= |r.vertices|
    && (forall j: nat :: 0 < j < |at| ==>
          at[j] < |r.vertices| && r.vertices[at[j]] == Decorate(At(before, at[j]), ObjectAt(machine, slots, j)))
    && (forall v: nat :: v < |before.vertices| && !IsPlaced(at, v) ==> r.vertices[v] == before.vertices[v])
    && (forall v: nat :: |before.vertices| <= v < |r.vertices| ==> IsPlaced(at, v))
  }

  ghost predicate NamesGrew(before: Snapshot, r: Snapshot) {
    && |before.vertices| <= |r.vertices|
    && (forall id :: id in before.ids ==> id in r.ids && r.ids[id] == before.ids[id])
    && forall id :: id in r.ids && id !in before.ids ==> |before.vertices| <= r.ids[id] && KindOf(id) == BdfidKind
  }

  lemma PlacedMore(at: seq<nat>, v: nat, w: nat)
    requires at != []
    ensures IsPlaced(at + [v], w) <==> IsPlaced(at, w) || w == v
  {
    if IsPlaced(at, w) {
      var j: nat :| 0 < j < |at| && at[j] == w;
      assert (at + [v])[j] == w;
    }
    assert (at + [v])[|at|] == v;
  }

  /** One object more. */
  lemma GrewLast(before: Snapshot, t: Snapshot, r: Snapshot, machine: HwlocObj, slots: seq<Slot>, ss: seq<Slot>,
                 at: seq<nat>, parent: nat, v: nat)
    requires slots != [] && ss == slots[..|slots| - 1] && Grew(before, t, machine, ss, at)
    requires (r, v) == AddObject(t, parent, slots[|slots| - 1].obj) && v < |r.vertices|
    requires !IsPlaced(at, v) && (v < |t.vertices| || v == |t.vertices|)
    requires |r.vertices| == (if v < |t.vertices| then |t.vertices| else |t.vertices| + 1)
    ensures Grew(before, r, machine, slots, at + [v])
  {
    var n := |slots| - 1;
    var obj := slots[n].obj;
    assert At(t, v) == At(before, v);
    AddedVertices(t, parent, obj, r, v);
    forall j: nat | 0 < j < |at| + 1
      ensures (at + [v])[j] < |r.vertices|
      ensures r.vertices[(at + [v])[j]] == Decorate(At(before, (at + [v])[j]), ObjectAt(machine, slots, j))
    {
      if j < |at| {
        assert ObjectAt(machine, ss, j) == ObjectAt(machine, slots, j);
        assert IsPlaced(at, at[j]);
      }
    }
    forall w: nat
      ensures IsPlaced(at + [v], w) <==> IsPlaced(at, w) || w == v
    {
      PlacedMore(at, v, w);
    }
  }

  lemma AddedVertices(t: Snapshot, parent: nat, obj: HwlocObj, r: Snapshot, v: nat)
    requires (r, v) == AddObject(t, parent, obj) && v < |r.vertices| && v <= |t.vertices|
    requires |r.vertices| == (if v < |t.vertices| then |t.vertices| else |t.vertices| + 1)
    ensures r.vertices[v] == Decorate(At(t, v), obj)
    ensures forall w: nat :: w < |t.vertices| && w != v ==> r.vertices[w] == t.vertices[w]
  {
  }

  lemma NamesGrewLast(before: Snapshot, t: Snapshot, obj: HwlocObj, r: Snapshot, v: nat)
    requires NamesGrew(before, t) && Interned(t, obj, r, v) && Valid(r)
    requires forall id :: id in t.ids ==> t.ids[id] < |t.vertices|
    ensures NamesGrew(before, r)
  {
    IdKinds("", "", 0, Pack(obj.address));
    forall id | id in r.ids && id !in before.ids
      ensures |before.vertices| <= r.ids[id] && KindOf(id) == BdfidKind
    {
      assert id in t.ids || id == IdOf(obj);
    }
  }

  lemma {:induction false} BuildGrew(start: Snapshot, machine: HwlocObj, slots: seq<Slot>, r: Construction)
    requires var b := Built(start, [start.root]);
             && Ready(b) && ParentsPrecede(slots, 1) && r == Build(AddObject, b, slots)
    requires Unrepeated(r.at)
    ensures Grew(start, r.state, machine, slots, r.at) && NamesGrew(start, r.state)
  {
    var b := Built(start, [start.root]);
    if slots == [] {
      assert r.at == [start.root];
    } else {
      var ss := slots[..|slots| - 1];
      BuildReady(b, ss);
      var earlier, r' := BuildLast(b, slots);
      LastNotPlaced(earlier.at, r.at[|r.at| - 1], r.at);
      BuildGrew(start, machine, ss, earlier);
      NextGrew(start, earlier, machine, slots, ss, r);
    }
  }

  lemma LastNotPlaced(at: seq<nat>, v: nat, at': seq<nat>)
    requires at != [] && at' == at + [v] && Unrepeated(at')
    ensures Unrepeated(at) && !IsPlaced(at, v)
  {
    assert forall i: nat :: i < |at| ==> at[i] == at'[i];
    assert forall j: nat :: 0 < j < |at| ==> at'[j] != at'[|at|];
  }

  lemma NextGrew(start: Snapshot, earlier: Construction, machine: HwlocObj, slots: seq<Slot>, ss: seq<Slot>,
                 r: Construction)
    requires slots != [] && ss == slots[..|slots| - 1] && Ready(earlier) && Ready(r)
    requires Grew(start, earlier.state, machine, ss, earlier.at) && NamesGrew(start, earlier.state)
    requires slots[|slots| - 1].parent < |earlier.at| && IsNext(earlier, slots[|slots| - 1], r)
    requires !IsPlaced(earlier.at, r.at[|r.at| - 1])
    ensures Grew(start, r.state, machine, slots, r.at) && NamesGrew(start, r.state)
  {
    var s := slots[|slots| - 1];
    var parent, v := earlier.at[s.parent], r.at[|r.at| - 1];
    AddObjectEffect(earlier.state, parent, s.obj);
    AddObjectSize(earlier.state, parent, s.obj);
    GrewLast(start, earlier.state, r.state, machine, slots, ss, earlier.at, parent, v);
    NamesGrewLast(start, earlier.state, s.obj, r.state, v);
  }

  lemma AddObjectSize(t: Snapshot, parent: nat, obj: HwlocObj)
    requires Valid(t)
    ensures var (r, v) := AddObject(t, parent, obj);
            && v <= |t.vertices| && v < |r.vertices|
            && |r.vertices| == (if v < |t.vertices| then |t.vertices| else |t.vertices| + 1)
  {
  }

  /** The hwloc step on any graph with distinct devices. */
  lemma HwlocGrows(t: Snapshot, hostname: string, machine: HwlocObj)
    returns (start: Snapshot, r: Snapshot, slots: seq<Slot>, at: seq<nat>)
    requires Valid(t) && DistinctDevices(TreeSlots(machine))
    ensures start == RootSetUp(t, hostname, machine) && r == HwlocInit(t, hostname, machine) && Valid(r)
    ensures slots == TreeSlots(machine) && ParentsPrecede(slots, 1) && IsImage(t, r, slots, at) && at[0] == start.root
    ensures Grew(start, r, machine, slots, at) && NamesGrew(start, r)
    ensures forall i, j :: 0 <= i < j < |at| ==> at[i] != at[j]
    ensures forall i :: 0 <= i < |at| ==> at[i] < |r.vertices|
  {
    slots := TreeSlots(machine);
    RootSetUpEffect(t, hostname, machine);
    start := RootSetUp(t, hostname, machine);
    var built := BuildOfTree(start, machine, slots);
    r, at := built.state, built.at;
    ImageOfBuild(t, start, hostname, r, slots, at);
    AllDistinct(t, r, slots, at);
    BuildGrew(start, machine, slots, built);
  }

  lemma AllDistinct(t: Snapshot, r: Snapshot, slots: seq<Slot>, at: seq<nat>)
    requires IsImage(t, r, slots, at) && DistinctDevices(slots)
    ensures forall i, j :: 0 <= i < j < |at| ==> at[i] != at[j]
    ensures Unrepeated(at)
  {
    forall i, j | 0 <= i < j < |at|
      ensures at[i] != at[j]
    {
      var k: nat := j - 1;
      assert OwnVertex(t, r, slots[k].obj, at[1 + k]) && at[1 + k] != at[0];
      if i > 0 {
        var h: nat := i - 1;
        assert at[1 + h] == at[1 + k] <==> IsPci(slots[h].obj) && IsPci(slots[k].obj)
                                           && Pack(slots[h].obj.address) == Pack(slots[k].obj.address);
      }
    }
  }
}
