/** The breadth-first distance vector (src/include/yloc/query.h). The traversal is Boost's documented one: a
    queue and vertex colours, the out-edges of a vertex in insertion order, and the visitor's `tree_edge` on
    the edge that discovers a vertex. */
module Bfs {
  import opened Topology
  import opened Paths
  import opened Traversal

  datatype Colour = White | Gray | Black

  type Callback<!T> = (Edge, T) -> T

  /** The callback applied along a path, from the zero value at its start. */
  function Fold<T>(f: Callback<T>, zero: T, p: seq<Edge>): T {
    if p == [] then zero else f(p[|p| - 1], Fold(f, zero, p[..|p| - 1]))
  }

  /** A breadth-first tree: the edge that discovered each vertex, and the level of each discovered vertex. */
  datatype Tree = Tree(start: nat, edge: map<nat, Edge>, level: map<nat, nat>)

  ghost predicate ValidTree(es: seq<Edge>, b: Tree) {
    && b.start in b.level && b.level[b.start] == 0
    && b.edge.Keys == b.level.Keys - {b.start}
    && (forall v :: v in b.edge ==>
                      && b.edge[v] in es && b.edge[v].target == v
                      && b.edge[v].source in b.level && b.level[v] == b.level[b.edge[v].source] + 1)
  }

  /** Every edge out of `done` leads to a vertex that was discovered at most one level further down. */
  ghost predicate Relaxed(es: seq<Edge>, b: Tree, done: set<nat>) {
    && done <= b.level.Keys
    && forall e :: e in es && e.source in done ==> e.target in b.level && b.level[e.target] <= b.level[e.source] + 1
  }

  ghost function TreePath(es: seq<Edge>, b: Tree, v: nat): (p: seq<Edge>)
    requires ValidTree(es, b) && v in b.level
    ensures IsPath(es, b.start, p, v) && |p| == b.level[v]
    decreases b.level[v]
  {
    if v == b.start then []
    else
      var p := TreePath(es, b, b.edge[v].source) + [b.edge[v]];
      assert p[..|p| - 1] == TreePath(es, b, b.edge[v].source);
      p
  }

  /** In a finished traversal no path is shorter than the level, and what has a path has been discovered. */
  lemma {:induction false} LevelsAreMinimal(es: seq<Edge>, b: Tree, p: seq<Edge>, v: nat)
    requires ValidTree(es, b) && Relaxed(es, b, b.level.Keys)
    requires IsPath(es, b.start, p, v)
    ensures v in b.level && b.level[v] <= |p|
  {
    if p != [] {
      LevelsAreMinimal(es, b, p[..|p| - 1], p[|p| - 1].source);
    }
  }

  /** The vector holds, at every discovered vertex, the callback folded along the tree path to it, and the zero
      value everywhere else. */
  ghost predicate Labels<T>(n: nat, b: Tree, f: Callback<T>, zero: T, distances: seq<T>) {
    && |distances| == n
    && (forall v :: v in b.level ==> v < n)
    && (forall v :: v in b.edge ==> v < n && b.edge[v].source < n
                                    && distances[v] == f(b.edge[v], distances[b.edge[v].source]))
    && (forall v :: 0 <= v < n && v !in b.edge ==> distances[v] == zero)
  }

  lemma {:induction false} LabelIsFold<T>(es: seq<Edge>, n: nat, b: Tree, f: Callback<T>, zero: T, distances: seq<T>,
                                          v: nat)
    requires ValidTree(es, b) && v in b.level && Labels(n, b, f, zero, distances)
    ensures distances[v] == Fold(f, zero, TreePath(es, b, v))
    decreases b.level[v]
  {
    if v != b.start {
      var u := b.edge[v].source;
      LabelIsFold(es, n, b, f, zero, distances, u);
      assert TreePath(es, b, v) == TreePath(es, b, u) + [b.edge[v]];
      assert TreePath(es, b, v)[..|TreePath(es, b, v)| - 1] == TreePath(es, b, u);
    }
  }

  /** The queue, and possibly the vertex `current` just taken from it, hold the gray vertices; levels along the
      queue never fall, and no discovered vertex lies more than one level below its front. */
  ghost predicate ValidQueue(b: Tree, black: set<nat>, front: seq<nat>) {
    && (forall v :: v in front <==> v in b.level && v !in black)
    && (forall i, j :: 0 <= i < j < |front| ==> front[i] != front[j] && b.level[front[i]] <= b.level[front[j]])
    && (front != [] ==> forall v :: v in b.level ==> b.level[v] <= b.level[front[0]] + 1)
  }

  ghost predicate Coloured(n: nat, b: Tree, colour: seq<Colour>) {
    && |colour| == n
    && forall v :: 0 <= v < n ==> (colour[v].White? <==> v !in b.level)
  }

  /** The vertices in the order of their discovery. */
  ghost function Order(b: Tree, writes: seq<nat>): seq<nat> {
    [b.start] + writes
  }

  ghost function Discover(b: Tree, e: Edge): Tree
    requires e.source in b.level
  {
    b.(edge := b.edge[e.target := e], level := b.level[e.target := b.level[e.source] + 1])
  }

  ghost function Below(n: nat): (s: set<nat>)
    ensures forall v: nat :: v in s <==> v < n
  {
    if n == 0 then {} else Below(n - 1) + {n - 1}
  }

  /** The state of a traversal whose gray vertices are `front`. */
  ghost predicate Running<T>(es: seq<Edge>, n: nat, b: Tree, f: Callback<T>, zero: T, distances: seq<T>,
                             colour: seq<Colour>, black: set<nat>, front: seq<nat>, writes: seq<nat>) {
    && ValidTree(es, b) && Labels(n, b, f, zero, distances) && Coloured(n, b, colour)
    && ValidQueue(b, black, front) && Relaxed(es, b, black)
    && Distinct(writes) && (forall v :: v in writes <==> v in b.edge)
  }

  /** bfs_distance_vector(graph, vstart, on_tree_edge). The ghost results are the traversal's tree and the
      vertices at which the visitor wrote, in order. Of several shortest paths the traversal takes the one it comes to
      first. Nothing else is a result of this kind (`ResultIsUnique`). */
  method BfsDistanceVector<T>(g: Graph, start: nat, onTreeEdge: Callback<T>, zero: T)
    returns (distances: seq<T>, ghost b: Tree, ghost writes: seq<nat>)
    requires Valid(g.View()) && start < |g.vertices|
    ensures |distances| == |g.vertices|
    ensures ValidTree(g.edges, b) && b.start == start
    ensures forall v :: v in b.level <==> Reachable(g.edges, start, v)
    ensures forall v :: v in b.level ==> v < |g.vertices| && IsShortest(g.edges, start, TreePath(g.edges, b, v), v)
                                         && distances[v] == Fold(onTreeEdge, zero, TreePath(g.edges, b, v))
    ensures forall v :: 0 <= v < |g.vertices| && !Reachable(g.edges, start, v) ==> distances[v] == zero
    ensures Distinct(writes) && forall v :: v in writes <==> v != start && Reachable(g.edges, start, v)
    ensures Traversed(g.edges, Order(b, writes), b.edge)
    ensures IsResult(g.edges, |g.vertices|, start, onTreeEdge, zero, distances, b, writes)
  {
    ghost var t := g.View();
    assert forall e :: e in g.edges ==> e in t.edges;
    distances, b, writes := BreadthFirst(|g.vertices|, g.edges, start, onTreeEdge, zero);
    LevelsAreDistances(g.edges, |g.vertices|, b, onTreeEdge, zero, distances);
  }

  /** What the distance vector, the tree and the order of the writes are promised to be. */
  ghost predicate IsResult<T>(es: seq<Edge>, n: nat, start: nat, f: Callback<T>, zero: T, distances: seq<T>, b: Tree,
                              writes: seq<nat>) {
    && |distances| == n && ValidTree(es, b) && b.start == start && Traversed(es, Order(b, writes), b.edge)
    && (forall v :: v in b.level <==> Reachable(es, start, v))
    && (forall v :: v in b.level && v < n ==> distances[v] == Fold(f, zero, TreePath(es, b, v)))
    && (forall v :: 0 <= v < n && !Reachable(es, start, v) ==> distances[v] == zero)
  }

  lemma {:induction false} SameLevel(es: seq<Edge>, b: Tree, b': Tree, v: nat)
    requires ValidTree(es, b) && ValidTree(es, b') && b.start == b'.start && b.edge == b'.edge && v in b.level
    ensures v in b'.level && b.level[v] == b'.level[v]
    decreases b.level[v]
  {
    if v != b.start {
      SameLevel(es, b, b', b.edge[v].source);
    }
  }

  lemma SameTree(es: seq<Edge>, b: Tree, b': Tree)
    requires ValidTree(es, b) && ValidTree(es, b') && b.start == b'.start && b.edge == b'.edge
    ensures b == b'
  {
    forall v | v in b.level
      ensures v in b'.level && b.level[v] == b'.level[v]
    {
      SameLevel(es, b, b', v);
    }
    forall v | v in b'.level
      ensures v in b.level
    {
      SameLevel(es, b', b, v);
    }
    assert b.level == b'.level;
  }

  lemma SameEdgeKeys(es: seq<Edge>, b: Tree, b': Tree)
    requires ValidTree(es, b) && ValidTree(es, b') && b.start == b'.start
    requires forall v :: v in b.level <==> v in b'.level
    ensures b.edge.Keys == b'.edge.Keys
  {
    assert b.level.Keys == b'.level.Keys;
  }

  /** Graph, start, callback and zero value determine all of it: there is one result only. */
  lemma ResultIsUnique<T>(es: seq<Edge>, n: nat, start: nat, f: Callback<T>, zero: T, distances: seq<T>, b: Tree,
                          writes: seq<nat>, distances': seq<T>, b': Tree, writes': seq<nat>)
    requires IsResult(es, n, start, f, zero, distances, b, writes)
    requires IsResult(es, n, start, f, zero, distances', b', writes')
    ensures distances == distances' && b == b' && writes == writes'
  {
    SameEdgeKeys(es, b, b');
    TraversalIsDetermined(es, Order(b, writes), b.edge, Order(b', writes'), b'.edge);
    SameTree(es, b, b');
    assert writes == Order(b, writes)[1..] == Order(b', writes')[1..] == writes';
  }

  method BreadthFirst<T>(n: nat, es: seq<Edge>, start: nat, onTreeEdge: Callback<T>, zero: T)
    returns (distances: seq<T>, ghost b: Tree, ghost writes: seq<nat>)
    requires start < n && forall e :: e in es ==> e.source < n && e.target < n
    ensures ValidTree(es, b) && b.start == start && Labels(n, b, onTreeEdge, zero, distances)
    ensures Relaxed(es, b, b.level.Keys)
    ensures Distinct(writes) && forall v :: v in writes <==> v in b.edge
    ensures Traversed(es, Order(b, writes), b.edge)
  {
    distances := seq(n, _ => zero);
    var colour := seq(n, _ => White)[start := Gray];
    var queue := [start];
    b := Tree(start, map[], map[start := 0]);
    writes := [];
    ghost var black: set<nat> := {};
    ghost var h, p := Begun(start), 0;
    assert Order(b, writes) == [start];
    Starting(es, n, start, onTreeEdge, zero, distances, colour);
    while queue != []
      invariant b.start == start
      invariant Running(es, n, b, onTreeEdge, zero, distances, colour, black, queue, writes)
      invariant Leads(es, h, Order(b, writes), b.edge, queue, p, 0)
      decreases Below(n) - black
    {
      var u := queue[0];
      assert [u] + queue[1..] == queue;
      queue := queue[1..];
      distances, colour, queue, b, writes, h :=
        Examine(es, n, u, onTreeEdge, zero, distances, colour, queue, b, black, writes, h, p);
      black := black + {u};
      TurnsBlack(es, n, b, onTreeEdge, zero, distances, colour, black, queue, writes, u);
      colour := colour[u := Black];
      p := p + 1;
    }
    Finished(es, b, black, writes, h, p);
  }

  lemma TurnsBlack<T>(es: seq<Edge>, n: nat, b: Tree, f: Callback<T>, zero: T, distances: seq<T>, colour: seq<Colour>,
                      black: set<nat>, front: seq<nat>, writes: seq<nat>, u: nat)
    requires Running(es, n, b, f, zero, distances, colour, black, front, writes) && u < n && colour[u] != White
    ensures Running(es, n, b, f, zero, distances, colour[u := Black], black, front, writes)
  {
  }

  /** Every discovered vertex stands in the order. */
  lemma InTheOrder(es: seq<Edge>, b: Tree, writes: seq<nat>, v: nat)
    requires ValidTree(es, b) && forall w :: w in writes <==> w in b.edge
    ensures v in b.level <==> v in Order(b, writes)
  {
  }

  lemma Finished(es: seq<Edge>, b: Tree, black: set<nat>, writes: seq<nat>, h: History, p: nat)
    requires ValidTree(es, b) && Leads(es, h, Order(b, writes), b.edge, [], p, 0)
    requires ValidQueue(b, black, []) && Relaxed(es, b, black)
    requires forall v :: v in writes <==> v in b.edge
    ensures Relaxed(es, b, b.level.Keys) && Traversed(es, Order(b, writes), b.edge)
  {
    assert black == b.level.Keys;
    HistoryIsInOrder(es, h);
    assert forall v :: v in Order(b, writes) <==> v == b.start || v in writes;
  }

  lemma Starting<T>(es: seq<Edge>, n: nat, start: nat, f: Callback<T>, zero: T, distances: seq<T>, colour: seq<Colour>)
    requires start < n && |distances| == n && forall v :: 0 <= v < n ==> distances[v] == zero
    requires |colour| == n && forall v :: 0 <= v < n ==> (colour[v].White? <==> v != start)
    ensures Running(es, n, Tree(start, map[], map[start := 0]), f, zero, distances, colour, {}, [start], [])
  {
  }

  /** Examines the out-edges of `u`, the vertex just taken from the queue. */
  method Examine<T>(es: seq<Edge>, n: nat, u: nat, onTreeEdge: Callback<T>, ghost zero: T, distances0: seq<T>,
                    colour0: seq<Colour>, queue0: seq<nat>, ghost b0: Tree, ghost black: set<nat>,
                    ghost writes0: seq<nat>, ghost h0: History, ghost p: nat)
    returns (distances: seq<T>, colour: seq<Colour>, queue: seq<nat>, ghost b: Tree, ghost writes: seq<nat>,
             ghost h: History)
    requires forall e :: e in es ==> e.source < n && e.target < n
    requires Running(es, n, b0, onTreeEdge, zero, distances0, colour0, black, [u] + queue0, writes0)
    requires Leads(es, h0, Order(b0, writes0), b0.edge, [u] + queue0, p, 0)
    ensures u < n && u !in black && b.start == b0.start
    ensures Running(es, n, b, onTreeEdge, zero, distances, colour, black + {u}, queue, writes)
    ensures Leads(es, h, Order(b, writes), b.edge, queue, p + 1, 0)
    ensures colour[u] != White
  {
    distances, colour, queue, b, writes, h := distances0, colour0, queue0, b0, writes0, h0;
    for i := 0 to |es|
      invariant b.start == b0.start
      invariant Running(es, n, b, onTreeEdge, zero, distances, colour, black, [u] + queue, writes)
      invariant Leads(es, h, Order(b, writes), b.edge, [u] + queue, p, i)
    {
      distances, colour, queue, b, writes, h :=
        ExamineEdge(es, n, u, i, onTreeEdge, zero, distances, colour, queue, b, black, writes, h, p);
    }
    AllExamined(es, b, writes, h, u, queue, p);
    Retire(es, b, black, u, queue);
    h := Finishing(es, h, Order(b, writes), b.edge, u, queue, p);
  }

  lemma AllExamined(es: seq<Edge>, b: Tree, writes: seq<nat>, h: History, u: nat, queue: seq<nat>, p: nat)
    requires ValidTree(es, b) && Leads(es, h, Order(b, writes), b.edge, [u] + queue, p, |es|)
    requires forall w :: w in writes <==> w in b.edge
    ensures forall j :: 0 <= j < |es| && es[j].source == u ==> es[j].target in b.level
  {
    HistoryIsInOrder(es, h);
    forall j | 0 <= j < |es| && es[j].source == u
      ensures es[j].target in b.level
    {
      OutEdgePassed(es, Order(b, writes), b.edge, [u] + queue, p, es[j]);
      InTheOrder(es, b, writes, es[j].target);
    }
  }

  /** Edge number i, if it leads out of `u`. */
  method ExamineEdge<T>(es: seq<Edge>, n: nat, u: nat, i: nat, onTreeEdge: Callback<T>, ghost zero: T,
                        distances0: seq<T>, colour0: seq<Colour>, queue0: seq<nat>, ghost b0: Tree,
                        ghost black: set<nat>, ghost writes0: seq<nat>, ghost h0: History, ghost p: nat)
    returns (distances: seq<T>, colour: seq<Colour>, queue: seq<nat>, ghost b: Tree, ghost writes: seq<nat>,
             ghost h: History)
    requires i < |es| && es[i].source < n && es[i].target < n
    requires Running(es, n, b0, onTreeEdge, zero, distances0, colour0, black, [u] + queue0, writes0)
    requires Leads(es, h0, Order(b0, writes0), b0.edge, [u] + queue0, p, i)
    ensures b.start == b0.start
    ensures Running(es, n, b, onTreeEdge, zero, distances, colour, black, [u] + queue, writes)
    ensures Leads(es, h, Order(b, writes), b.edge, [u] + queue, p, i + 1)
  {
    distances, colour, queue, b, writes := distances0, colour0, queue0, b0, writes0;
    var e := es[i];
    InTheOrder(es, b, writes, e.target);
    if e.source == u && colour[e.target] == White {
      distances, colour, queue, b, writes :=
        DiscoverTarget(es, n, e, onTreeEdge, zero, distances, colour, queue, b, black, writes);
      h := Discovering(es, h0, Order(b0, writes0), b0.edge, [u] + queue0, p, i, e, Order(b, writes), [u] + queue);
    } else {
      h := Skipping(es, h0, Order(b, writes), b.edge, [u] + queue, p, i);
    }
  }

  /** An out-edge of the current vertex whose target is white: the visitor is called, the target turns gray and
      joins the queue. */
  method DiscoverTarget<T>(es: seq<Edge>, n: nat, e: Edge, onTreeEdge: Callback<T>, ghost zero: T, distances0: seq<T>,
                           colour0: seq<Colour>, queue0: seq<nat>, ghost b0: Tree, ghost black: set<nat>,
                           ghost writes0: seq<nat>)
    returns (distances: seq<T>, colour: seq<Colour>, queue: seq<nat>, ghost b: Tree, ghost writes: seq<nat>)
    requires Running(es, n, b0, onTreeEdge, zero, distances0, colour0, black, [e.source] + queue0, writes0)
    requires e in es && e.target < n && colour0[e.target] == White
    ensures e.source in b0.level && b == Discover(b0, e) && writes == writes0 + [e.target]
    ensures queue == queue0 + [e.target] && colour == colour0[e.target := Gray] && |distances| == n
    ensures forall v :: 0 <= v < |distances0| && v != e.target ==> distances[v] == distances0[v]
    ensures Running(es, n, b, onTreeEdge, zero, distances, colour, black, [e.source] + queue, writes)
  {
    Discoverable(es, n, b0, onTreeEdge, zero, distances0, colour0, black, [e.source] + queue0, writes0, e);
    distances := TreeEdge(distances0, e, onTreeEdge, es, b0, zero);
    DiscoverKeeps(es, n, b0, onTreeEdge, zero, distances0, distances, colour0, black, [e.source] + queue0, writes0, e);
    colour, queue := colour0[e.target := Gray], queue0 + [e.target];
    b, writes := Discover(b0, e), writes0 + [e.target];
    assert [e.source] + queue0 + [e.target] == [e.source] + queue;
  }

  /** bfs_tree_edge_visitor::tree_edge, on the edge that discovers its target: the target gets the callback folded
      along its tree path, every other vertex keeps its value, so the vector stays right for the larger tree. */
  method TreeEdge<T>(distances: seq<T>, e: Edge, onTreeEdge: Callback<T>, ghost es: seq<Edge>, ghost b: Tree,
                     ghost zero: T)
    returns (r: seq<T>)
    requires ValidTree(es, b) && Labels(|distances|, b, onTreeEdge, zero, distances) && e in es
    requires e.source in b.level && e.target < |distances| && e.target !in b.level
    ensures |r| == |distances| && forall v :: 0 <= v < |r| && v != e.target ==> r[v] == distances[v]
    ensures ValidTree(es, Discover(b, e)) && Labels(|r|, Discover(b, e), onTreeEdge, zero, r)
    ensures r[e.target] == Fold(onTreeEdge, zero, TreePath(es, Discover(b, e), e.target))
  {
    r := distances[e.target := onTreeEdge(e, distances[e.source])];
    DiscoverLabels(es, |r|, b, onTreeEdge, zero, distances, e);
    LabelIsFold(es, |r|, Discover(b, e), onTreeEdge, zero, r, e.target);
  }

  lemma Discoverable<T>(es: seq<Edge>, n: nat, b: Tree, f: Callback<T>, zero: T, distances: seq<T>,
                        colour: seq<Colour>, black: set<nat>, front: seq<nat>, writes: seq<nat>, e: Edge)
    requires Running(es, n, b, f, zero, distances, colour, black, front, writes)
    requires front != [] && e.source == front[0] && e.target < n && colour[e.target] == White
    ensures e.source in b.level && e.target !in b.level
  {
    assert front[0] in front;
  }

  /** Discovering the target of an edge out of the front vertex keeps the state of the traversal. */
  lemma DiscoverKeeps<T>(es: seq<Edge>, n: nat, b: Tree, f: Callback<T>, zero: T, distances: seq<T>, distances': seq<T>,
                       colour: seq<Colour>, black: set<nat>, front: seq<nat>, writes: seq<nat>, e: Edge)
    requires Running(es, n, b, f, zero, distances, colour, black, front, writes)
    requires front != [] && e in es && e.source == front[0] && e.target < n && colour[e.target] == White
    requires e.source in b.level && e.target !in b.level
    requires ValidTree(es, Discover(b, e)) && Labels(n, Discover(b, e), f, zero, distances')
    ensures Running(es, n, Discover(b, e), f, zero, distances', colour[e.target := Gray], black,
                    front + [e.target], writes + [e.target])
  {
    var b' := Discover(b, e);
    DiscoverKeepsQueue(b, e, black, front);
    assert Relaxed(es, b', black);
    assert e.target !in writes;
  }

  lemma DiscoverLabels<T>(es: seq<Edge>, n: nat, b: Tree, f: Callback<T>, zero: T, distances: seq<T>, e: Edge)
    requires ValidTree(es, b) && Labels(n, b, f, zero, distances)
    requires e.source in b.level && e.target < n && e.target !in b.level
    ensures Labels(n, Discover(b, e), f, zero, distances[e.target := f(e, distances[e.source])])
  {
    var b' := Discover(b, e);
    forall v | v in b'.edge
      ensures b'.edge[v].source != e.target
    {
      assert v == e.target || v in b.edge;
    }
  }

  lemma DiscoverKeepsQueue(b: Tree, e: Edge, black: set<nat>, front: seq<nat>)
    requires ValidQueue(b, black, front) && black <= b.level.Keys
    requires front != [] && e.source == front[0] && e.source in b.level && e.target !in b.level
    ensures ValidQueue(Discover(b, e), black, front + [e.target])
  {
    var b', front' := Discover(b, e), front + [e.target];
    assert forall v :: v in front' <==> v in front || v == e.target;
    forall i, j | 0 <= i < j < |front'|
      ensures front'[i] != front'[j] && b'.level[front'[i]] <= b'.level[front'[j]]
    {
      assert front[i] in front;
      if j < |front| {
        assert front[j] in front;
      }
    }
  }

  /** Once all its out-edges have been examined, the front vertex turns black. */
  lemma Retire(es: seq<Edge>, b: Tree, black: set<nat>, u: nat, queue: seq<nat>)
    requires ValidQueue(b, black, [u] + queue) && Relaxed(es, b, black)
    requires forall j :: 0 <= j < |es| && es[j].source == u ==> es[j].target in b.level
    ensures u in b.level && u !in black
    ensures ValidQueue(b, black + {u}, queue) && Relaxed(es, b, black + {u})
  {
    FrontLeaves(b, black, u, queue);
    forall e | e in es && e.source == u
      ensures e.target in b.level && b.level[e.target] <= b.level[u] + 1
    {
      assert b.level[([u] + queue)[0]] == b.level[u];
    }
  }

  lemma FrontLeaves(b: Tree, black: set<nat>, u: nat, queue: seq<nat>)
    requires ValidQueue(b, black, [u] + queue)
    ensures u in b.level && u !in black && ValidQueue(b, black + {u}, queue)
  {
    var front := [u] + queue;
    assert front[0] == u && forall i :: 0 <= i < |queue| ==> queue[i] == front[i + 1];
    assert u in b.level && u !in black by {
      assert u in front;
    }
    forall v
      ensures v in queue <==> v in b.level && v !in black + {u}
    {
      InFront(front, u, queue, v);
    }
  }

  lemma InFront(front: seq<nat>, u: nat, queue: seq<nat>, v: nat)
    requires front == [u] + queue && forall i, j :: 0 <= i < j < |front| ==> front[i] != front[j]
    ensures v in queue <==> v in front && v != u
  {
    if v in queue {
      var i :| 0 <= i < |queue| && queue[i] == v;
      assert front[i + 1] == v && front[0] == u;
    }
  }

  /** What a finished traversal has computed. */
  lemma LevelsAreDistances<T>(es: seq<Edge>, n: nat, b: Tree, f: Callback<T>, zero: T, distances: seq<T>)
    requires ValidTree(es, b) && Labels(n, b, f, zero, distances) && Relaxed(es, b, b.level.Keys)
    ensures forall v :: v in b.level <==> Reachable(es, b.start, v)
    ensures forall v :: v in b.level ==> IsShortest(es, b.start, TreePath(es, b, v), v)
                                         && distances[v] == Fold(f, zero, TreePath(es, b, v))
  {
    forall v, p | IsPath(es, b.start, p, v)
      ensures v in b.level && b.level[v] <= |p|
    {
      LevelsAreMinimal(es, b, p, v);
    }
    forall v | v in b.level
      ensures Reachable(es, b.start, v) && IsShortest(es, b.start, TreePath(es, b, v), v)
      ensures distances[v] == Fold(f, zero, TreePath(es, b, v))
    {
      assert IsPath(es, b.start, TreePath(es, b, v), v);
      LabelIsFold(es, n, b, f, zero, distances, v);
    }
  }

  /** bfs_distance_vector(graph, vstart): the number of hops, and 0 where there is no path. */
  method HopDistances(g: Graph, start: nat) returns (distances: seq<nat>)
    requires Valid(g.View()) && start < |g.vertices|
    ensures |distances| == |g.vertices|
    ensures forall v :: 0 <= v < |distances| ==> distances[v] == HopDistance(g.edges, start, v)
    ensures forall v: nat :: Reachable(g.edges, start, v) ==> v < |g.vertices|
  {
    var addOne: Callback<nat> := (e, before) => before + 1;
    ghost var b, writes;
    distances, b, writes := BfsDistanceVector(g, start, addOne, 0);
    forall v | 0 <= v < |distances|
      ensures distances[v] == HopDistance(g.edges, start, v)
    {
      if v in b.level {
        FoldCounts(addOne, TreePath(g.edges, b, v));
        assert IsDistance(g.edges, start, v, distances[v]);
        DistanceIsUnique(g.edges, start, v, distances[v]);
      } else {
        UnreachableIsZero(g.edges, start, v);
      }
    }
  }

  lemma {:induction false} FoldCounts(f: Callback<nat>, p: seq<Edge>)
    requires forall e, before: nat :: f(e, before) == before + 1
    ensures Fold(f, 0, p) == |p|
  {
    if p != [] {
      FoldCounts(f, p[..|p| - 1]);
    }
  }
}
