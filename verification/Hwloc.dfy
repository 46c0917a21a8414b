/** The hwloc module (modules/hwloc/init_graph.cc): the recursive walk of the object tree, and what it builds. */
module Hwloc {
  import opened Affinity
  import opened Components
  import opened Identity
  import opened Options
  import P = Properties
  import opened Topology

  /** An hwloc object: its type, PCI address, cpuset (absent where hwloc has a null pointer), memory size and
      type string, and its children in the order hwloc_get_next_child yields them. */
  datatype HwlocObj = HwlocObj(objType: ObjType, address: PciAddress, cpuset: Option<AffinityMask>, size: nat,
                               typeString: string, children: seq<HwlocObj>)

  predicate IsMemoryType(t: ObjType) {
    t.ObjCache? || t.ObjICache? || t.ObjNumaNode? || t.ObjMemCache?
  }

  /** The properties HwlocAdapter provides: memory, bdfid and cpu_affinity_mask. */
  function HwlocAdapter(obj: HwlocObj): P.Adapter {
    P.Adapter(obj.typeString,
              if IsMemoryType(obj.objType) then Some(obj.size) else None,
              if obj.objType.ObjPciDevice? then Some(Pack(obj.address)) else None,
              None, obj.cpuset, map[], map[])
  }

  function IdOf(obj: HwlocObj): string {
    BdfidId(Pack(obj.address))
  }

  predicate IsPci(obj: HwlocObj) {
    IsPCIDevice(YlocType(obj.objType))
  }

  /** Adds the adapter; the description and the type are set only where there is none yet. */
  function Decorate(vertex: Vertex, obj: HwlocObj): Vertex {
    Vertex(vertex.adapters + [HwlocAdapter(obj)],
           if vertex.description == "" then obj.typeString else vertex.description,
           if vertex.componentType == UnknownComponentType then YlocType(obj.objType) else vertex.componentType)
  }

  /** The vertex the walk uses for an object: PCI devices are looked up by identifier. */
  function VertexFor(t: Snapshot, obj: HwlocObj): nat {
    if IsPci(obj) && IdOf(obj) in t.ids then t.ids[IdOf(obj)] else |t.vertices|
  }

  /** One turn of the loop, up to the recursive call: the graph and the child's vertex. */
  function AddObject(t: Snapshot, parent: nat, obj: HwlocObj): (Snapshot, nat) {
    var added := if IsPci(obj) then Intern(t, IdOf(obj)) else AddUnnamed(t);
    var v := VertexFor(t, obj);
    (AddEdges(Put(added, v, Decorate(At(added, v), obj)), ParentChild(parent, v)), v)
  }

  /** The recursive walk, for any way `add` of adding one object under a vertex to a state. */
  function Walk<S>(add: Add<S>, s: S, parent: nat, cs: seq<HwlocObj>): S
    decreases cs
  {
    if cs == [] then s
    else
      var (added, v) := add(s, parent, cs[0]);
      Walk(add, Walk(add, added, v, cs[0].children), parent, cs[1..])
  }

  type Add<!S> = (S, nat, HwlocObj) -> (S, nat)

  /** The graph after make_hwloc_graph on a vertex whose remaining children are `cs`. */
  function Subtree(t: Snapshot, parent: nat, cs: seq<HwlocObj>): Snapshot {
    Walk(AddObject, t, parent, cs)
  }

  method MakeHwlocGraph(g: Graph, vd: nat, obj: HwlocObj)
    requires Valid(g.View()) && vd < |g.vertices|
    modifies g
    ensures g.View() == Subtree(old(g.View()), vd, obj.children)
    ensures Valid(g.View()) && |old(g.View()).vertices| <= |g.vertices|
    decreases obj
  {
    ghost var whole := Subtree(g.View(), vd, obj.children);
    var i := 0;
    while i < |obj.children|
      invariant i <= |obj.children| && Valid(g.View()) && |old(g.View()).vertices| <= |g.vertices|
      invariant whole == Subtree(g.View(), vd, obj.children[i..])
    {
      var child := obj.children[i];
      ghost var rest := obj.children[i..];
      assert rest[0] == child && rest[1..] == obj.children[i + 1..];
      var childVd := AddChild(g, vd, child);
      MakeHwlocGraph(g, childVd, child);
      i := i + 1;
    }
  }

  /** The body of the loop up to the recursive call. */
  method AddChild(g: Graph, vd: nat, child: HwlocObj) returns (childVd: nat)
    requires Valid(g.View()) && vd < |g.vertices|
    modifies g
    ensures (g.View(), childVd) == AddObject(old(g.View()), vd, child)
    ensures Valid(g.View()) && |old(g.View()).vertices| <= |g.vertices| && childVd < |g.vertices|
  {
    ghost var t := g.View();
    if IsPCIDevice(YlocType(child.objType)) {
      childVd := g.AddNamedVertex(BdfidId(Pack(child.address)));
    } else {
      childVd := g.AddVertex();
    }
    assert childVd == VertexFor(t, child);
    var vertex := g.vertices[childVd];
    if vertex.description == "" {
      vertex := vertex.(description := child.typeString);
    }
    vertex := vertex.(adapters := vertex.adapters + [HwlocAdapter(child)]);
    if vertex.componentType == UnknownComponentType {
      vertex := vertex.(componentType := YlocType(child.objType));
    }
    g.SetVertex(childVd, vertex);
    g.AddEdge(vd, childVd, CHILD);
    g.AddEdge(childVd, vd, PARENT);
    assert t.edges + [Edge(vd, childVd, CHILD)] + [Edge(childVd, vd, PARENT)] == t.edges + ParentChild(vd, childVd);
    AddObjectValid(t, vd, child);
  }

  lemma AddObjectValid(t: Snapshot, parent: nat, obj: HwlocObj)
    requires Valid(t) && parent < |t.vertices|
    ensures var (r, v) := AddObject(t, parent, obj); Valid(r) && |t.vertices| <= |r.vertices| && v < |r.vertices|
  {
    var added := if IsPci(obj) then Intern(t, IdOf(obj)) else AddUnnamed(t);
    InternValid(t, IdOf(obj));
    AddUnnamedValid(t);
    var v := VertexFor(t, obj);
    var vertex := Decorate(At(added, v), obj);
    PutValid(added, v, vertex);
    AddEdgesValid(Put(added, v, vertex), ParentChild(parent, v));
  }

  /** The root vertex as ModuleHwloc::init_graph sets it up. */
  function RootVertex(vertex: Vertex, hostname: string, machine: HwlocObj): Vertex {
    Vertex(vertex.adapters + [HwlocAdapter(machine)], hostname,
           if vertex.componentType == UnknownComponentType then YlocType(machine.objType) else vertex.componentType)
  }

  function RootSetUp(t: Snapshot, hostname: string, machine: HwlocObj): Snapshot {
    var named := Intern(t, MachineId(hostname));
    var v := named.ids[MachineId(hostname)];
    Put(named, v, RootVertex(At(named, v), hostname, machine)).(root := v)
  }

  function HwlocInit(t: Snapshot, hostname: string, machine: HwlocObj): Snapshot {
    var r := RootSetUp(t, hostname, machine);
    Subtree(r, r.root, machine.children)
  }

  /** ModuleHwloc::init_graph, after detection: `machine` is hwloc's root object. */
  method InitGraph(g: Graph, hostname: string, machine: HwlocObj)
    requires Valid(g.View())
    modifies g
    ensures g.View() == HwlocInit(old(g.View()), hostname, machine)
  {
    var rootVd := g.AddNamedVertex(MachineId(hostname));
    g.SetVertex(rootVd, g.vertices[rootVd].(description := hostname));
    g.SetRootVertex(rootVd);
    var vertex := g.vertices[rootVd];
    vertex := vertex.(adapters := vertex.adapters + [HwlocAdapter(machine)]);
    if vertex.componentType == UnknownComponentType {
      vertex := vertex.(componentType := YlocType(machine.objType));
    }
    g.SetVertex(rootVd, vertex);
    assert g.View() == RootSetUp(old(g.View()), hostname, machine);
    MakeHwlocGraph(g, rootVd, machine);
  }

  // ---- the object tree as a list: every object with the preorder position of its parent

  datatype Slot = Slot(obj: HwlocObj, parent: nat)

  /** The objects below `cs` in preorder; `parent` is the position of the object owning `cs`, `next` the position
      of the first slot listed. */
  ghost function Preorder(cs: seq<HwlocObj>, parent: nat, next: nat): (s: seq<Slot>)
    decreases cs
  {
    if cs == [] then []
    else
      var below := Preorder(cs[0].children, next, next + 1);
      [Slot(cs[0], parent)] + below + Preorder(cs[1..], parent, next + 1 + |below|)
  }

  /** The slots of `machine`'s tree, its root standing at position 0. */
  ghost function TreeSlots(machine: HwlocObj): seq<Slot> {
    Preorder(machine.children, 0, 1)
  }

  /** The objects listed under position `i`, in order. */
  ghost function ChildrenAt(slots: seq<Slot>, i: nat): seq<HwlocObj> {
    if slots == [] then []
    else (if slots[0].parent == i then [slots[0].obj] else []) + ChildrenAt(slots[1..], i)
  }

  lemma {:induction false} ChildrenAtAppend(a: seq<Slot>, b: seq<Slot>, i: nat)
    ensures ChildrenAt(a + b, i) == ChildrenAt(a, i) + ChildrenAt(b, i)
  {
    if a == [] {
      assert a + b == b;
    } else {
      assert (a + b)[1..] == a[1..] + b;
      ChildrenAtAppend(a[1..], b, i);
    }
  }

  lemma ChildrenOfThree(a: seq<Slot>, b: seq<Slot>, c: seq<Slot>, i: nat)
    ensures ChildrenAt(a + b + c, i) == ChildrenAt(a, i) + ChildrenAt(b, i) + ChildrenAt(c, i)
    ensures |a| == 1 ==> ChildrenAt(a, i) == if a[0].parent == i then [a[0].obj] else []
  {
    ChildrenAtAppend(a + b, c, i);
    ChildrenAtAppend(a, b, i);
  }

  /** Parents precede their children. */
  lemma {:induction false} PreorderParents(cs: seq<HwlocObj>, parent: nat, next: nat)
    requires parent < next
    ensures WellPlaced(Preorder(cs, parent, next), parent, next)
    decreases cs
  {
    if cs != [] {
      var below := Preorder(cs[0].children, next, next + 1);
      PreorderParents(cs[0].children, next, next + 1);
      PreorderParents(cs[1..], parent, next + 1 + |below|);
    }
  }

  ghost predicate WellPlaced(slots: seq<Slot>, parent: nat, next: nat) {
    forall k :: 0 <= k < |slots| ==> slots[k].parent == parent || next <= slots[k].parent < next + k
  }

  lemma {:induction false} NoChildrenOutside(slots: seq<Slot>, i: nat)
    requires forall k :: 0 <= k < |slots| ==> slots[k].parent != i
    ensures ChildrenAt(slots, i) == []
  {
    if slots != [] {
      NoChildrenOutside(slots[1..], i);
    }
  }

  /** The list is the tree: under every position stand exactly the children of the object at that position, in
      order. */
  lemma {:induction false} PreorderIsTree(cs: seq<HwlocObj>, parent: nat, next: nat, slots: seq<Slot>, i: nat)
    requires parent < next && slots == Preorder(cs, parent, next)
    requires i == parent || next <= i < next + |slots|
    ensures ChildrenAt(slots, i) == if i == parent then cs else slots[i - next].obj.children
    decreases cs
  {
    if cs != [] {
      var below := Preorder(cs[0].children, next, next + 1);
      var mid := next + 1 + |below|;
      var rest := Preorder(cs[1..], parent, mid);
      ChildrenOfThree([Slot(cs[0], parent)], below, rest, i);
      SlotsOfThree(Slot(cs[0], parent), below, rest);
      PreorderParents(cs[0].children, next, next + 1);
      PreorderParents(cs[1..], parent, mid);
      if i == parent {
        NoChildrenOutside(below, i);
        PreorderIsTree(cs[1..], parent, mid, rest, i);
        SplitHead(cs);
      } else if i < mid {
        NoChildrenOutside(rest, i);
        PreorderIsTree(cs[0].children, next, next + 1, below, i);
      } else {
        NoChildrenOutside(below, i);
        PreorderIsTree(cs[1..], parent, mid, rest, i);
      }
    }
  }

  lemma SplitHead<T>(xs: seq<T>)
    requires xs != []
    ensures xs == [xs[0]] + xs[1..]
  {
  }

  lemma SlotsOfThree(first: Slot, below: seq<Slot>, rest: seq<Slot>)
    ensures var slots := [first] + below + rest;
            && slots[0] == first && (forall k :: 0 < k <= |below| ==> slots[k] == below[k - 1])
            && forall k :: |below| < k < |slots| ==> slots[k] == rest[k - |below| - 1]
  {
  }

  // ---- the recursive walk is one pass over that list

  /** A state under construction, with the vertex of every tree position reached so far. */
  datatype Built<S> = Built(state: S, at: seq<nat>)

  ghost function VertexAt(at: seq<nat>, i: nat): nat {
    if i < |at| then at[i] else 0
  }

  ghost function Build<S>(add: Add<S>, b: Built<S>, slots: seq<Slot>): (r: Built<S>)
    ensures |r.at| == |b.at| + |slots| && b.at <= r.at
  {
    if slots == [] then b
    else
      var earlier := Build(add, b, slots[..|slots| - 1]);
      var s := slots[|slots| - 1];
      var (added, v) := add(earlier.state, VertexAt(earlier.at, s.parent), s.obj);
      Built(added, earlier.at + [v])
  }

  /** The last slot of a list is added to what the others built. */
  lemma BuildSnoc<S>(add: Add<S>, b: Built<S>, slots: seq<Slot>)
    requires slots != []
    ensures var earlier := Build(add, b, slots[..|slots| - 1]); var r := Build(add, b, slots);
            var s := slots[|slots| - 1];
            && (r.state, r.at[|r.at| - 1]) == add(earlier.state, VertexAt(earlier.at, s.parent), s.obj)
            && r.at == earlier.at + [r.at[|r.at| - 1]]
  {
  }

  lemma {:induction false} BuildAppend<S>(add: Add<S>, b: Built<S>, s1: seq<Slot>, s2: seq<Slot>)
    ensures Build(add, b, s1 + s2) == Build(add, Build(add, b, s1), s2)
  {
    if s2 == [] {
      assert s1 + s2 == s1;
    } else {
      BuildAppend(add, b, s1, s2[..|s2| - 1]);
      assert (s1 + s2)[..|s1 + s2| - 1] == s1 + s2[..|s2| - 1];
    }
  }

  lemma {:induction false} WalkIsBuild<S>(add: Add<S>, b: Built<S>, cs: seq<HwlocObj>, parent: nat, slots: seq<Slot>)
    requires parent < |b.at| && slots == Preorder(cs, parent, |b.at|)
    ensures Walk(add, b.state, b.at[parent], cs) == Build(add, b, slots).state
    decreases cs
  {
    if cs != [] {
      var next := |b.at|;
      var first := [Slot(cs[0], parent)];
      var below := Preorder(cs[0].children, next, next + 1);
      var rest := Preorder(cs[1..], parent, next + 1 + |below|);
      assert slots == first + below + rest;
      assert first[..0] == [];
      var b1 := Build(add, b, first);
      WalkIsBuild(add, b1, cs[0].children, next, below);
      var b2 := Build(add, b1, below);
      WalkIsBuild(add, b2, cs[1..], parent, rest);
      BuildAppend(add, b, first, below);
      BuildAppend(add, b, first + below, rest);
      assert Build(add, b, slots) == Build(add, b2, rest);
    }
  }

  // ---- the image of the tree

  type Construction = Built<Snapshot>

  /** Every vertex of a position is a vertex of the graph. */
  ghost predicate Ready(b: Construction) {
    Valid(b.state) && b.at != [] && forall i :: 0 <= i < |b.at| ==> b.at[i] < |b.state.vertices|
  }

  ghost predicate ParentsPrecede(slots: seq<Slot>, base: nat) {
    forall k :: 0 <= k < |slots| ==> slots[k].parent < base + k
  }

  /** What adding one object does to names and descriptors. */
  ghost predicate Interned(t: Snapshot, obj: HwlocObj, r: Snapshot, v: nat) {
    && |t.vertices| <= |r.vertices| && v < |r.vertices|
    && (v == |t.vertices| || IdOf(obj) in t.ids)
    && (if IsPci(obj) then IdOf(obj) in r.ids && r.ids[IdOf(obj)] == v && r.ids.Keys == t.ids.Keys + {IdOf(obj)}
        else v == |t.vertices| && r.ids == t.ids)
    && forall id :: id in t.ids ==> id in r.ids && r.ids[id] == t.ids[id]
  }

  lemma AddObjectEffect(t: Snapshot, parent: nat, obj: HwlocObj)
    requires Valid(t)
    ensures var (r, v) := AddObject(t, parent, obj);
            Interned(t, obj, r, v) && r.edges == t.edges + ParentChild(parent, v) && r.root == t.root
  {
  }

  lemma IdsOfObjects(obj: HwlocObj, other: HwlocObj, hostname: string)
    ensures IdOf(obj) == IdOf(other) <==> Pack(obj.address) == Pack(other.address)
    ensures IdOf(obj) != MachineId(hostname)
  {
    IdsInjective("", "", "", "", 0, 0, Pack(obj.address), Pack(other.address));
    IdKinds(hostname, "", 0, Pack(obj.address));
  }

  /** The same for objects and graphs, where the result is ready for the next slot. */
  lemma BuildLast(b: Construction, slots: seq<Slot>) returns (earlier: Construction, r: Construction)
    requires Ready(b) && ParentsPrecede(slots, |b.at|) && slots != []
    requires Ready(Build(AddObject, b, slots[..|slots| - 1]))
    ensures earlier == Build(AddObject, b, slots[..|slots| - 1]) && r == Build(AddObject, b, slots)
    ensures slots[|slots| - 1].parent < |earlier.at| && IsNext(earlier, slots[|slots| - 1], r)
    ensures Ready(r)
  {
    earlier := Build(AddObject, b, slots[..|slots| - 1]);
    r := Build(AddObject, b, slots);
    BuildSnoc(AddObject, b, slots);
    NextIsReady(earlier, slots[|slots| - 1], r);
  }

  /** `r` is `earlier` with one more slot. */
  ghost predicate IsNext(earlier: Construction, s: Slot, r: Construction) {
    && r.at != [] && r.at == earlier.at + [r.at[|r.at| - 1]]
    && (r.state, r.at[|r.at| - 1]) == AddObject(earlier.state, VertexAt(earlier.at, s.parent), s.obj)
  }

  lemma NextIsReady(earlier: Construction, s: Slot, r: Construction)
    requires Ready(earlier) && s.parent < |earlier.at| && IsNext(earlier, s, r)
    ensures Ready(r)
  {
    AddObjectValid(earlier.state, earlier.at[s.parent], s.obj);
  }

  lemma {:induction false} BuildReady(b: Construction, slots: seq<Slot>)
    requires Ready(b) && ParentsPrecede(slots, |b.at|)
    ensures Ready(Build(AddObject, b, slots)) && Build(AddObject, b, slots).state.root == b.state.root
  {
    if slots != [] {
      BuildReady(b, slots[..|slots| - 1]);
      var earlier, r := BuildLast(b, slots);
      var s := slots[|slots| - 1];
      AddObjectEffect(earlier.state, earlier.at[s.parent], s.obj);
    }
  }

  /** `es` continues `before` by the CHILD and the PARENT edge of every slot, in order. */
  ghost predicate EdgesOf(before: seq<Edge>, es: seq<Edge>, at: seq<nat>, base: nat, slots: seq<Slot>) {
    && |at| == base + |slots| && ParentsPrecede(slots, base)
    && |es| == |before| + 2 * |slots| && before <= es
    && forall k :: 0 <= k < |slots| ==>
         && es[|before| + 2 * k] == Edge(at[slots[k].parent], at[base + k], CHILD)
         && es[|before| + 2 * k + 1] == Edge(at[base + k], at[slots[k].parent], PARENT)
  }

  lemma {:induction false} BuildEdges(b: Construction, slots: seq<Slot>, r: Construction)
    requires Ready(b) && ParentsPrecede(slots, |b.at|) && r == Build(AddObject, b, slots)
    ensures EdgesOf(b.state.edges, r.state.edges, r.at, |b.at|, slots)
  {
    if slots != [] {
      BuildReady(b, slots[..|slots| - 1]);
      var earlier, r' := BuildLast(b, slots);
      BuildEdges(b, slots[..|slots| - 1], earlier);
      var s := slots[|slots| - 1];
      AddObjectEffect(earlier.state, earlier.at[s.parent], s.obj);
      EdgesOfLast(b.state.edges, earlier.state.edges, earlier.at, |b.at|, slots, r.at[|r.at| - 1]);
    }
  }

  lemma EdgesOfLast(before: seq<Edge>, es: seq<Edge>, at: seq<nat>, base: nat, slots: seq<Slot>, v: nat)
    requires slots != [] && ParentsPrecede(slots, base) && EdgesOf(before, es, at, base, slots[..|slots| - 1])
    ensures EdgesOf(before, es + ParentChild(at[slots[|slots| - 1].parent], v), at + [v], base, slots)
  {
    var n := |slots| - 1;
    var es' := es + ParentChild(at[slots[n].parent], v);
    forall k | 0 <= k < |slots|
      ensures es'[|before| + 2 * k] == Edge((at + [v])[slots[k].parent], (at + [v])[base + k], CHILD)
      ensures es'[|before| + 2 * k + 1] == Edge((at + [v])[base + k], (at + [v])[slots[k].parent], PARENT)
    {
      if k < n {
        assert slots[..n][k] == slots[k];
      }
    }
  }

  /** A PCI device has the vertex its identifier names; any other object a vertex that no name and no earlier
      graph uses. */
  ghost predicate OwnVertex(before: Snapshot, t: Snapshot, obj: HwlocObj, v: nat) {
    if IsPci(obj) then IdOf(obj) in t.ids && t.ids[IdOf(obj)] == v
    else |before.vertices| <= v < |t.vertices| && forall id :: id in t.ids ==> t.ids[id] != v
  }

  ghost predicate VerticesOf(before: Snapshot, t: Snapshot, at: seq<nat>, base: nat, slots: seq<Slot>) {
    && |at| == base + |slots| && |before.vertices| <= |t.vertices|
    && (forall id :: id in before.ids ==> id in t.ids && t.ids[id] == before.ids[id])
    && (forall k :: 0 <= k < |slots| ==> OwnVertex(before, t, slots[k].obj, at[base + k]))
    && (forall j, k :: 0 <= j < k < |slots| && !IsPci(slots[j].obj) && !IsPci(slots[k].obj)
                       ==> at[base + j] != at[base + k])
    && ParentsPrecede(slots, base)
    && (forall k :: 0 <= k < |slots| && !IsPci(slots[k].obj) ==> at[slots[k].parent] < at[base + k])
  }

  lemma {:induction false} BuildVertices(b: Construction, slots: seq<Slot>, r: Construction)
    requires Ready(b) && ParentsPrecede(slots, |b.at|) && r == Build(AddObject, b, slots)
    ensures VerticesOf(b.state, r.state, r.at, |b.at|, slots)
  {
    if slots != [] {
      BuildReady(b, slots[..|slots| - 1]);
      var earlier, r' := BuildLast(b, slots);
      BuildVertices(b, slots[..|slots| - 1], earlier);
      var s := slots[|slots| - 1];
      AddObjectEffect(earlier.state, earlier.at[s.parent], s.obj);
      VerticesOfLast(b.state, earlier.state, r.state, earlier.at, |b.at|, slots, r.at[|r.at| - 1]);
    }
  }

  lemma VerticesOfLast(before: Snapshot, t: Snapshot, r: Snapshot, at: seq<nat>, base: nat, slots: seq<Slot>, v: nat)
    requires Valid(t) && Valid(r) && slots != [] && VerticesOf(before, t, at, base, slots[..|slots| - 1])
    requires ParentsPrecede(slots, base) && forall i :: 0 <= i < |at| ==> at[i] < |t.vertices|
    requires Interned(t, slots[|slots| - 1].obj, r, v)
    ensures VerticesOf(before, r, at + [v], base, slots)
  {
    var n := |slots| - 1;
    var at' := at + [v];
    forall k | 0 <= k < |slots|
      ensures OwnVertex(before, r, slots[k].obj, at'[base + k])
      ensures k < n && !IsPci(slots[k].obj) && !IsPci(slots[n].obj) ==> at'[base + k] != at'[base + n]
      ensures !IsPci(slots[k].obj) ==> at'[slots[k].parent] < at'[base + k]
    {
      if k < n {
        assert slots[..n][k] == slots[k];
        assert OwnVertex(before, t, slots[k].obj, at[base + k]);
      }
    }
    assert forall k :: 0 <= k < n ==> slots[..n][k] == slots[k];
  }

  /** Where two positions share a vertex. */
  lemma SharedVertex(before: Snapshot, t: Snapshot, at: seq<nat>, base: nat, slots: seq<Slot>, j: nat, k: nat)
    requires Valid(t) && VerticesOf(before, t, at, base, slots) && j < k < |slots|
    ensures at[base + j] == at[base + k] <==> IsPci(slots[j].obj) && IsPci(slots[k].obj)
                                              && Pack(slots[j].obj.address) == Pack(slots[k].obj.address)
  {
    IdsOfObjects(slots[j].obj, slots[k].obj, "");
    assert OwnVertex(before, t, slots[j].obj, at[base + j]) && OwnVertex(before, t, slots[k].obj, at[base + k]);
  }

  /** `at` maps tree positions to vertices of `r`: the edges added to `before` are, in preorder, exactly one CHILD
      and one PARENT edge for each parent/child pair; objects that are no devices have vertices of their own, with
      descriptors above their parents'; two positions share a vertex exactly when both are PCI devices with the
      same packed address. */
  ghost predicate IsImage(before: Snapshot, r: Snapshot, slots: seq<Slot>, at: seq<nat>) {
    && EdgesOf(before.edges, r.edges, at, 1, slots) && at[0] == r.root
    && (forall k :: 0 <= k < |slots| ==> OwnVertex(before, r, slots[k].obj, at[1 + k]) && at[1 + k] != at[0])
    && (forall k :: 0 <= k < |slots| && !IsPci(slots[k].obj) ==> at[slots[k].parent] < at[1 + k])
    && (forall j, k :: 0 <= j < k < |slots| ==>
          (at[1 + j] == at[1 + k] <==> IsPci(slots[j].obj) && IsPci(slots[k].obj)
                                       && Pack(slots[j].obj.address) == Pack(slots[k].obj.address)))
  }

  /** make_hwloc_graph on any graph builds the image of the tree. */
  lemma TreeImage(t: Snapshot, hostname: string, machine: HwlocObj) returns (r: Snapshot, at: seq<nat>)
    requires Valid(t)
    ensures r == HwlocInit(t, hostname, machine) && Valid(r) && IsImage(t, r, TreeSlots(machine), at)
    ensures forall i :: 0 <= i < |at| ==> at[i] < |r.vertices|
  {
    var start, slots := RootSetUp(t, hostname, machine), TreeSlots(machine);
    RootSetUpEffect(t, hostname, machine);
    var built := BuildOfTree(start, machine, slots);
    r, at := built.state, built.at;
    ImageOfBuild(t, start, hostname, r, slots, at);
  }

  lemma ImageOfBuild(t: Snapshot, start: Snapshot, hostname: string, r: Snapshot, slots: seq<Slot>, at: seq<nat>)
    requires Valid(r) && start.edges == t.edges && |t.vertices| <= |start.vertices|
    requires MachineId(hostname) in start.ids && start.ids[MachineId(hostname)] == start.root
    requires EdgesOf(start.edges, r.edges, at, 1, slots) && VerticesOf(start, r, at, 1, slots)
    requires at[0] == start.root == r.root
    ensures IsImage(t, r, slots, at)
  {
    forall k | 0 <= k < |slots|
      ensures OwnVertex(t, r, slots[k].obj, at[1 + k]) && at[1 + k] != at[0]
    {
      IdsOfObjects(slots[k].obj, slots[k].obj, hostname);
      assert OwnVertex(start, r, slots[k].obj, at[1 + k]);
    }
    forall j, k | 0 <= j < k < |slots|
      ensures at[1 + j] == at[1 + k] <==> IsPci(slots[j].obj) && IsPci(slots[k].obj)
                                          && Pack(slots[j].obj.address) == Pack(slots[k].obj.address)
    {
      SharedVertex(start, r, at, 1, slots, j, k);
    }
  }

  /** The walk of a whole tree below the root vertex, as one pass over its slots. */
  lemma BuildOfTree(start: Snapshot, machine: HwlocObj, slots: seq<Slot>) returns (r: Construction)
    requires Valid(start) && start.root < |start.vertices| && slots == TreeSlots(machine)
    ensures ParentsPrecede(slots, 1)
    ensures r == Build(AddObject, Built(start, [start.root]), slots)
    ensures r.state == Subtree(start, start.root, machine.children) && Ready(r) && r.state.root == start.root
    ensures r.at[0] == start.root
    ensures EdgesOf(start.edges, r.state.edges, r.at, 1, slots) && VerticesOf(start, r.state, r.at, 1, slots)
  {
    var b := Built(start, [start.root]);
    PreorderParents(machine.children, 0, 1);
    WalkIsBuild(AddObject, b, machine.children, 0, slots);
    r := Build(AddObject, b, slots);
    BuildReady(b, slots);
    BuildEdges(b, slots, r);
    BuildVertices(b, slots, r);
  }

  lemma RootSetUpEffect(t: Snapshot, hostname: string, machine: HwlocObj)
    requires Valid(t)
    ensures var r := RootSetUp(t, hostname, machine);
            && Valid(r) && r.edges == t.edges && |t.vertices| <= |r.vertices|
            && MachineId(hostname) in r.ids && r.ids[MachineId(hostname)] == r.root < |r.vertices|
            && r.ids == Intern(t, MachineId(hostname)).ids
            && forall id :: id in t.ids ==> id in r.ids && r.ids[id] == t.ids[id]
  {
    var named := Intern(t, MachineId(hostname));
    InternValid(t, MachineId(hostname));
    var v := named.ids[MachineId(hostname)];
    PutValid(named, v, RootVertex(At(named, v), hostname, machine));
  }
}
