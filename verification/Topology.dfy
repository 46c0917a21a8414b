/** The identifier-keyed multigraph (src/include/yloc/graph.h): the class Graph, and the value of a graph at
    one moment, on which the specifications and the theorems are stated. */
module Topology {
  import opened Affinity
  import opened Components
  import opened Options
  import opened Properties

  datatype EdgeType = PARENT | CHILD | GPU_INTERCONNECT

  datatype Edge = Edge(source: nat, target: nat, edgeType: EdgeType)

  datatype Vertex = Vertex(adapters: seq<Adapter>, description: string, componentType: Component)

  const BLANK_VERTEX := Vertex([], "", UnknownComponentType)

  /** The value of a graph. Edges stand in insertion order, so the out-edges of a vertex, in the order Boost
      enumerates them, are the edges with that source. */
  datatype Snapshot = Snapshot(vertices: seq<Vertex>, edges: seq<Edge>, ids: map<string, nat>, root: nat)

  const EMPTY := Snapshot([], [], map[], 0)

  /** Descriptors are in range, and no two names share a vertex. */
  ghost predicate Valid(t: Snapshot) {
    && (forall id :: id in t.ids ==> t.ids[id] < |t.vertices|)
    && (forall id, id' :: id in t.ids && id' in t.ids && t.ids[id] == t.ids[id'] ==> id == id')
    && (forall e :: e in t.edges ==> e.source < |t.vertices| && e.target < |t.vertices|)
    && (t.root < |t.vertices| || t.root == 0)
  }

  function AddUnnamed(t: Snapshot): Snapshot {
    t.(vertices := t.vertices + [BLANK_VERTEX])
  }

  /** The graph after add_vertex(id); the vertex returned is the one the new map gives for id. */
  function Intern(t: Snapshot, id: string): (r: Snapshot)
    ensures id in r.ids
  {
    if id in t.ids then t else AddUnnamed(t).(ids := t.ids[id := |t.vertices|])
  }

  /** The graph with the properties of vertex v replaced. */
  function Put(t: Snapshot, v: nat, vertex: Vertex): Snapshot {
    if v < |t.vertices| then t.(vertices := t.vertices[v := vertex]) else t
  }

  /** The properties of vertex v. */
  function At(t: Snapshot, v: nat): Vertex {
    if v < |t.vertices| then t.vertices[v] else BLANK_VERTEX
  }

  function AddEdges(t: Snapshot, es: seq<Edge>): Snapshot {
    t.(edges := t.edges + es)
  }

  /** The two edges that put `child` under `parent`. */
  function ParentChild(parent: nat, child: nat): seq<Edge> {
    [Edge(parent, child, CHILD), Edge(child, parent, PARENT)]
  }

  /** boost::edge(u, v, g).second: some edge leads from u to v, whatever its type. */
  predicate HasEdge(es: seq<Edge>, u: nat, v: nat) {
    exists i :: 0 <= i < |es| && es[i].source == u && es[i].target == v
  }

  function MaskOf(t: Snapshot, v: nat): Option<AffinityMask> {
    if v < |t.vertices| then CpuMask(t.vertices[v].adapters) else None
  }

  predicate Masked(t: Snapshot, v: nat) {
    MaskOf(t, v).Some?
  }

  predicate IsRank(t: Snapshot, v: nat) {
    v < |t.vertices| && IsMPIProcess(t.vertices[v].componentType)
  }

  // ---- every operation keeps a graph valid

  lemma InternValid(t: Snapshot, id: string)
    requires Valid(t)
    ensures var r := Intern(t, id); Valid(r) && |t.vertices| <= |r.vertices| && r.ids[id] < |r.vertices|
  {
  }

  lemma AddUnnamedValid(t: Snapshot)
    requires Valid(t)
    ensures Valid(AddUnnamed(t))
  {
  }

  lemma PutValid(t: Snapshot, v: nat, vertex: Vertex)
    requires Valid(t)
    ensures Valid(Put(t, v, vertex)) && |Put(t, v, vertex).vertices| == |t.vertices|
  {
  }

  lemma AddEdgesValid(t: Snapshot, es: seq<Edge>)
    requires Valid(t) && forall e :: e in es ==> e.source < |t.vertices| && e.target < |t.vertices|
    ensures Valid(AddEdges(t, es))
  {
  }

  class Graph {
    var vertices: seq<Vertex>
    var edges: seq<Edge>
    var identifierMap: map<string, nat>
    var rootVertex: nat

    constructor ()
      ensures View() == EMPTY
    {
      vertices, edges, identifierMap, rootVertex := [], [], map[], 0;
    }

    function View(): Snapshot
      reads this
    {
      Snapshot(vertices, edges, identifierMap, rootVertex)
    }

    method AddVertex() returns (vd: nat)
      modifies this
      ensures View() == AddUnnamed(old(View()))
      ensures vd == |old(View()).vertices|
    {
      vd := |vertices|;
      vertices := vertices + [BLANK_VERTEX];
    }

    method AddNamedVertex(id: string) returns (vd: nat)
      modifies this
      ensures View() == Intern(old(View()), id)
      ensures vd == View().ids[id]
    {
      if id in identifierMap {
        return identifierMap[id];
      }
      vd := AddVertex();
      identifierMap := identifierMap[id := vd];
    }

    method SetVertex(vd: nat, vertex: Vertex)
      requires vd < |vertices|
      modifies this
      ensures View() == Put(old(View()), vd, vertex)
    {
      vertices := vertices[vd := vertex];
    }

    method AddEdge(source: nat, target: nat, edgeType: EdgeType)
      modifies this
      ensures View() == AddEdges(old(View()), [Edge(source, target, edgeType)])
    {
      edges := edges + [Edge(source, target, edgeType)];
    }

    method SetRootVertex(vd: nat)
      modifies this
      ensures View() == old(View()).(root := vd)
    {
      rootVertex := vd;
    }
  }

  // ---- vertex identity over every history of add_vertex calls

  /** One call: add_vertex() or add_vertex(id). */
  type Call = Option<string>

  function Replay(t: Snapshot, calls: seq<Call>): Snapshot
  {
    if calls == [] then t
    else
      var before := Replay(t, calls[..|calls| - 1]);
      match calls[|calls| - 1]
      case None => AddUnnamed(before)
      case Some(id) => Intern(before, id)
  }

  function UnnamedCalls(calls: seq<Call>): nat {
    if calls == [] then 0
    else UnnamedCalls(calls[..|calls| - 1]) + (if calls[|calls| - 1].None? then 1 else 0)
  }

  /** What a history of calls has built. */
  ghost predicate BuiltBy(t: Snapshot, calls: seq<Call>) {
    && Valid(t)
    && (forall id :: id in t.ids <==> Some(id) in calls)
    && |t.vertices| == UnnamedCalls(calls) + |t.ids|
  }

  /** For every history on an empty graph: exactly the names used are bound, to distinct vertices; the vertex
      count is the number of unnamed calls plus the number of distinct names. */
  lemma {:induction false} VertexCount(calls: seq<Call>)
    ensures BuiltBy(Replay(EMPTY, calls), calls)
  {
    if calls != [] {
      var earlier := calls[..|calls| - 1];
      VertexCount(earlier);
      LastCall(earlier, calls[|calls| - 1], calls);
      match calls[|calls| - 1] {
        case None => OneMoreUnnamed(Replay(EMPTY, earlier), earlier, calls);
        case Some(id) => OneMoreNamed(Replay(EMPTY, earlier), earlier, id, calls);
      }
    }
  }

  lemma LastCall(earlier: seq<Call>, call: Call, calls: seq<Call>)
    requires calls != [] && earlier == calls[..|calls| - 1] && call == calls[|calls| - 1]
    ensures forall c :: c in calls <==> c in earlier || c == call
    ensures UnnamedCalls(calls) == UnnamedCalls(earlier) + (if call.None? then 1 else 0)
  {
  }

  lemma OneMoreUnnamed(t: Snapshot, earlier: seq<Call>, calls: seq<Call>)
    requires BuiltBy(t, earlier) && (forall c :: c in calls <==> c in earlier || c == None)
    requires UnnamedCalls(calls) == UnnamedCalls(earlier) + 1
    ensures BuiltBy(AddUnnamed(t), calls)
  {
    AddUnnamedValid(t);
  }

  lemma OneMoreNamed(t: Snapshot, earlier: seq<Call>, id: string, calls: seq<Call>)
    requires BuiltBy(t, earlier) && (forall c :: c in calls <==> c in earlier || c == Some(id))
    requires UnnamedCalls(calls) == UnnamedCalls(earlier)
    ensures BuiltBy(Intern(t, id), calls)
  {
    InternValid(t, id);
    InternCounts(t, id);
  }

  /** A new name adds a vertex and a binding; a known one neither. */
  lemma InternCounts(t: Snapshot, id: string)
    ensures |Intern(t, id).vertices| - |Intern(t, id).ids| == |t.vertices| - |t.ids|
    ensures Intern(t, id).ids.Keys == t.ids.Keys + {id}
  {
    if id !in t.ids {
      OneMoreKey(t.ids, id, |t.vertices|);
    }
  }

  lemma OneMoreKey(m: map<string, nat>, id: string, v: nat)
    requires id !in m
    ensures |m[id := v]| == |m| + 1
  {
    assert m[id := v].Keys == m.Keys + {id};
  }

  /** A name, once bound, keeps its vertex under every continuation of the history. */
  lemma {:induction false} NamesStay(t: Snapshot, calls: seq<Call>, id: string)
    requires id in t.ids
    ensures id in Replay(t, calls).ids && Replay(t, calls).ids[id] == t.ids[id]
    ensures |t.vertices| <= |Replay(t, calls).vertices|
  {
    if calls != [] {
      NamesStay(t, calls[..|calls| - 1], id);
    }
  }
}
