/** The order in which a breadth-first traversal discovers the vertices, and the edges over which it does: Boost takes
    the vertices in the order of their discovery, and the out-edges of each in insertion order. This determines the
    tree. */
module Traversal {
  import opened Topology

  ghost predicate Distinct(s: seq<nat>) {
    forall i, j :: 0 <= i < j < |s| ==> s[i] != s[j]
  }

  /** The first position of x, and the length where x does not occur. */
  ghost function First<T>(s: seq<T>, x: T): (i: nat)
    ensures i <= |s| && (i < |s| ==> s[i] == x) && (i < |s| <==> x in s)
    ensures forall j :: 0 <= j < i ==> s[j] != x
  {
    if s == [] || s[0] == x then 0 else 1 + First(s[1..], x)
  }

  /** The traversal comes to edge e before it comes to f: its source stands earlier in the order of discovery, or the
      source is the same and the edge was inserted earlier. */
  ghost predicate Before(es: seq<Edge>, order: seq<nat>, e: Edge, f: Edge) {
    || First(order, e.source) < First(order, f.source)
    || (First(order, e.source) == First(order, f.source) && First(es, e) < First(es, f))
  }

  /** Every vertex but the start is discovered from one discovered before. */
  ghost predicate FromEarlier(order: seq<nat>, edge: map<nat, Edge>) {
    forall k :: 0 < k < |order| ==> order[k] in edge && First(order, edge[order[k]].source) < k
  }

  /** No edge to a discovered vertex comes before the one over which it was discovered. */
  ghost predicate FirstCome(es: seq<Edge>, order: seq<nat>, edge: map<nat, Edge>) {
    forall e :: e in es && e.source in order && e.target in edge ==> !Before(es, order, e, edge[e.target])
  }

  /** The vertices are discovered in the order of these edges. */
  ghost predicate FirstServed(es: seq<Edge>, order: seq<nat>, edge: map<nat, Edge>) {
    forall i, j :: 0 < i < j < |order| && order[i] in edge && order[j] in edge ==>
      Before(es, order, edge[order[i]], edge[order[j]])
  }

  /** The vertices `order` are discovered in this order, the first being the start, each other over its edge. */
  ghost predicate TakesFirst(es: seq<Edge>, order: seq<nat>, edge: map<nat, Edge>) {
    FromEarlier(order, edge) && FirstCome(es, order, edge) && FirstServed(es, order, edge)
  }

  // ---- while the traversal runs

  /** The traversal has come past edge e: it has done with the vertices before position p, and with the edges before
      number i of the vertex at position p. */
  ghost predicate Passed(es: seq<Edge>, order: seq<nat>, p: nat, i: nat, e: Edge) {
    First(order, e.source) < p || (First(order, e.source) == p && First(es, e) < i)
  }

  /** The edges passed have been followed, and only they are in the tree. */
  ghost predicate Followed(es: seq<Edge>, order: seq<nat>, edge: map<nat, Edge>, p: nat, i: nat) {
    && (forall v :: v in edge ==> edge[v] in es && Passed(es, order, p, i, edge[v]))
    && (forall e :: e in es && Passed(es, order, p, i, e) ==> e.target in order)
  }

  /** The gray vertices `front` are the last ones discovered, those from position p on. */
  ghost predicate IsFront(order: seq<nat>, front: seq<nat>, p: nat) {
    p <= |order| && order[p..] == front && Distinct(order)
  }

  ghost predicate InOrder(es: seq<Edge>, order: seq<nat>, edge: map<nat, Edge>, front: seq<nat>, p: nat, i: nat) {
    IsFront(order, front, p) && TakesFirst(es, order, edge) && Followed(es, order, edge, p, i)
  }

  lemma StartsInOrder(es: seq<Edge>, start: nat)
    ensures InOrder(es, [start], map[], [start], 0, 0)
  {
  }

  /** Edge number i leads from another vertex, or to a vertex discovered before. */
  lemma SkipInOrder(es: seq<Edge>, order: seq<nat>, edge: map<nat, Edge>, front: seq<nat>, p: nat, i: nat)
    requires InOrder(es, order, edge, front, p, i) && front != [] && i < |es|
    requires es[i].source != front[0] || es[i].target in order
    ensures InOrder(es, order, edge, front, p, i + 1)
  {
    FrontAt(order, front, p);
    SkipFollowed(es, order, edge, p, i);
  }

  lemma FrontAt(order: seq<nat>, front: seq<nat>, p: nat)
    requires IsFront(order, front, p) && front != []
    ensures p < |order| && order[p] == front[0]
  {
  }

  lemma SkipFollowed(es: seq<Edge>, order: seq<nat>, edge: map<nat, Edge>, p: nat, i: nat)
    requires Followed(es, order, edge, p, i) && p < |order| && i < |es|
    requires es[i].source != order[p] || es[i].target in order
    ensures Followed(es, order, edge, p, i + 1)
  {
    forall e | e in es && Passed(es, order, p, i + 1, e)
      ensures e.target in order
    {
      if !Passed(es, order, p, i, e) {
        assert First(es, e) == i;
      }
    }
  }

  /** One more vertex at the end of the order. */
  lemma OneMore(order: seq<nat>, w: nat, more: seq<nat>)
    requires w !in order && more == order + [w]
    ensures First(more, w) == |order| && forall y :: y in order ==> First(more, y) == First(order, y)
  {
    assert more[|order|] == w && forall j :: 0 <= j < |order| ==> more[j] == order[j];
    forall y | y in order
      ensures First(more, y) == First(order, y)
    {
      assert more[First(order, y)] == y;
    }
  }

  /** The edge examined is the next one in the order. */
  lemma NewEdgeIsNext(es: seq<Edge>, order: seq<nat>, p: nat, i: nat, e: Edge)
    requires p < |order| && i < |es| && e == es[i] && e.source == order[p] && Distinct(order)
    requires !Passed(es, order, p, i, e)
    ensures First(es, e) == i && First(order, e.source) == p
  {
  }

  lemma NewFromEarlier(order: seq<nat>, more: seq<nat>, edge: map<nat, Edge>, e: Edge)
    requires FromEarlier(order, edge) && e.target !in order && more == order + [e.target] && e.source in order
    ensures FromEarlier(more, edge[e.target := e])
  {
    OneMore(order, e.target, more);
  }

  lemma NewFirstCome(es: seq<Edge>, order: seq<nat>, more: seq<nat>, edge: map<nat, Edge>, p: nat, i: nat, e: Edge)
    requires FirstCome(es, order, edge) && e.target !in order && more == order + [e.target] && p < |order|
    requires First(es, e) == i && First(order, e.source) == p
    requires forall v :: v in edge ==> Passed(es, order, p, i, edge[v])
    requires forall f :: f in es && Passed(es, order, p, i, f) ==> f.target != e.target
    ensures FirstCome(es, more, edge[e.target := e])
  {
    OneMore(order, e.target, more);
    forall f | f in es && f.source in more && f.target in edge[e.target := e]
      ensures !Before(es, more, f, edge[e.target := e][f.target])
    {
      if f.target == e.target {
        assert !Passed(es, order, p, i, f);
      } else if f.source in order {
        assert !Before(es, order, f, edge[f.target]);
      }
    }
  }

  lemma NewFirstServed(es: seq<Edge>, order: seq<nat>, more: seq<nat>, edge: map<nat, Edge>, p: nat, i: nat, e: Edge)
    requires FirstServed(es, order, edge) && e.target !in order && more == order + [e.target] && p < |order|
    requires First(es, e) == i && First(order, e.source) == p
    requires forall v :: v in edge ==> Passed(es, order, p, i, edge[v])
    ensures FirstServed(es, more, edge[e.target := e])
  {
    OneMore(order, e.target, more);
  }

  /** Passing it, the traversal has passed nothing else. */
  lemma NewPassed(es: seq<Edge>, order: seq<nat>, more: seq<nat>, p: nat, i: nat, e: Edge, f: Edge)
    requires e.target !in order && more == order + [e.target] && p < |order| && f in es
    requires First(es, e) == i && First(order, e.source) == p
    ensures Passed(es, more, p, i + 1, f) <==> Passed(es, order, p, i, f) || f == e
  {
    OneMore(order, e.target, more);
    if f.source !in order {
      assert First(more, f.source) >= |order|;
    }
  }

  lemma NewFollowed(es: seq<Edge>, order: seq<nat>, more: seq<nat>, edge: map<nat, Edge>, p: nat, i: nat, e: Edge)
    requires Followed(es, order, edge, p, i) && e.target !in order && more == order + [e.target] && p < |order|
    requires First(es, e) == i && First(order, e.source) == p && e in es
    ensures Followed(es, more, edge[e.target := e], p, i + 1)
  {
    forall f | f in es
      ensures Passed(es, more, p, i + 1, f) <==> Passed(es, order, p, i, f) || f == e
    {
      NewPassed(es, order, more, p, i, e, f);
    }
  }

  lemma NewFront(order: seq<nat>, more: seq<nat>, front: seq<nat>, p: nat, w: nat)
    requires IsFront(order, front, p) && w !in order && more == order + [w]
    ensures IsFront(more, front + [w], p)
  {
  }

  /** Edge number i leads from the front vertex to a new one. */
  lemma DiscoverInOrder(es: seq<Edge>, order: seq<nat>, edge: map<nat, Edge>, front: seq<nat>, p: nat, i: nat, e: Edge)
    requires InOrder(es, order, edge, front, p, i) && front != [] && i < |es|
    requires e == es[i] && e.source == front[0] && e.target !in order
    ensures InOrder(es, order + [e.target], edge[e.target := e], front + [e.target], p, i + 1)
  {
    var more := order + [e.target];
    FrontAt(order, front, p);
    NewFront(order, more, front, p, e.target);
    NewEdgeIsNext(es, order, p, i, e);
    NewFromEarlier(order, more, edge, e);
    NewFirstCome(es, order, more, edge, p, i, e);
    NewFirstServed(es, order, more, edge, p, i, e);
    NewFollowed(es, order, more, edge, p, i, e);
  }

  /** All edges of the front vertex have been examined. */
  lemma NextInOrder(es: seq<Edge>, order: seq<nat>, edge: map<nat, Edge>, u: nat, queue: seq<nat>, p: nat)
    requires InOrder(es, order, edge, [u] + queue, p, |es|)
    ensures InOrder(es, order, edge, queue, p + 1, 0)
  {
    FrontGoes(order, u, queue, p);
    NextFollowed(es, order, edge, p);
  }

  lemma OutEdgePassed(es: seq<Edge>, order: seq<nat>, edge: map<nat, Edge>, front: seq<nat>, p: nat, e: Edge)
    requires InOrder(es, order, edge, front, p, |es|) && front != [] && e in es && e.source == front[0]
    ensures e.target in order
  {
    FrontAt(order, front, p);
    assert Passed(es, order, p, |es|, e);
  }

  lemma FrontGoes(order: seq<nat>, u: nat, queue: seq<nat>, p: nat)
    requires IsFront(order, [u] + queue, p)
    ensures IsFront(order, queue, p + 1)
  {
    assert order[p + 1..] == order[p..][1..];
  }

  lemma NextFollowed(es: seq<Edge>, order: seq<nat>, edge: map<nat, Edge>, p: nat)
    requires Followed(es, order, edge, p, |es|)
    ensures Followed(es, order, edge, p + 1, 0)
  {
    assert forall e :: e in es ==> (Passed(es, order, p + 1, 0, e) <==> Passed(es, order, p, |es|, e));
  }

  // ---- the history of a traversal

  /** Where a traversal stands: the vertices discovered, the edges over which they were, the gray vertices, and the
      position and edge number it has come to. */
  datatype Progress = Progress(order: seq<nat>, edge: map<nat, Edge>, front: seq<nat>, p: nat, i: nat)

  datatype History = Begun(start: nat) | Further(earlier: History, state: Progress)

  ghost function StateOf(h: History): Progress {
    match h
    case Begun(start) => Progress([start], map[], [start], 0, 0)
    case Further(_, s) => s
  }

  /** Edge number i does not lead from the front vertex to a new one. */
  ghost predicate Skips(es: seq<Edge>, s: Progress, s': Progress) {
    && s.front != [] && s.i < |es| && (es[s.i].source != s.front[0] || es[s.i].target in s.order)
    && s' == s.(i := s.i + 1)
  }

  /** It does. */
  ghost predicate Discovers(es: seq<Edge>, s: Progress, s': Progress) {
    && s.front != [] && s.i < |es| && es[s.i].source == s.front[0] && es[s.i].target !in s.order
    && var e := es[s.i];
    s' == Progress(s.order + [e.target], s.edge[e.target := e], s.front + [e.target], s.p, s.i + 1)
  }

  /** All edges have been examined; the front vertex turns black. */
  ghost predicate Finishes(es: seq<Edge>, s: Progress, s': Progress) {
    s.front != [] && s.i == |es| && s' == s.(front := s.front[1..], p := s.p + 1, i := 0)
  }

  ghost predicate Legal(es: seq<Edge>, h: History) {
    match h
    case Begun(_) => true
    case Further(earlier, s) =>
      && Legal(es, earlier)
      && (Skips(es, StateOf(earlier), s) || Discovers(es, StateOf(earlier), s) || Finishes(es, StateOf(earlier), s))
  }

  /** The history `h` has led here. */
  ghost predicate Leads(es: seq<Edge>, h: History, order: seq<nat>, edge: map<nat, Edge>, front: seq<nat>, p: nat,
                        i: nat)
  {
    Legal(es, h) && StateOf(h) == Progress(order, edge, front, p, i)
  }

  lemma Skipping(es: seq<Edge>, h: History, order: seq<nat>, edge: map<nat, Edge>, front: seq<nat>, p: nat, i: nat)
    returns (more: History)
    requires Leads(es, h, order, edge, front, p, i) && front != [] && i < |es|
    requires es[i].source != front[0] || es[i].target in order
    ensures Leads(es, more, order, edge, front, p, i + 1)
  {
    more := Further(h, Progress(order, edge, front, p, i + 1));
  }

  lemma Discovering(es: seq<Edge>, h: History, order: seq<nat>, edge: map<nat, Edge>, front: seq<nat>, p: nat, i: nat,
                    e: Edge, order': seq<nat>, front': seq<nat>) returns (more: History)
    requires Leads(es, h, order, edge, front, p, i) && front != [] && i < |es|
    requires e == es[i] && e.source == front[0] && e.target !in order
    requires order' == order + [e.target] && front' == front + [e.target]
    ensures Leads(es, more, order', edge[e.target := e], front', p, i + 1)
  {
    more := Further(h, Progress(order', edge[e.target := e], front', p, i + 1));
  }

  lemma Finishing(es: seq<Edge>, h: History, order: seq<nat>, edge: map<nat, Edge>, u: nat, queue: seq<nat>, p: nat)
    returns (more: History)
    requires Leads(es, h, order, edge, [u] + queue, p, |es|)
    ensures Leads(es, more, order, edge, queue, p + 1, 0)
  {
    assert ([u] + queue)[1..] == queue;
    more := Further(h, Progress(order, edge, queue, p + 1, 0));
  }

  lemma {:induction false} HistoryIsInOrder(es: seq<Edge>, h: History)
    requires Legal(es, h)
    ensures var s := StateOf(h); InOrder(es, s.order, s.edge, s.front, s.p, s.i)
  {
    match h {
      case Begun(start) => StartsInOrder(es, start);
      case Further(earlier, s) =>
        HistoryIsInOrder(es, earlier);
        StepInOrder(es, StateOf(earlier), s);
    }
  }

  ghost predicate StateInOrder(es: seq<Edge>, s: Progress) {
    InOrder(es, s.order, s.edge, s.front, s.p, s.i)
  }

  lemma StepInOrder(es: seq<Edge>, s: Progress, s': Progress)
    requires StateInOrder(es, s) && (Skips(es, s, s') || Discovers(es, s, s') || Finishes(es, s, s'))
    ensures StateInOrder(es, s')
  {
    if Finishes(es, s, s') {
      FinishStep(es, s, s');
    } else if Discovers(es, s, s') {
      DiscoverStep(es, s, s');
    } else {
      SkipStep(es, s, s');
    }
  }

  lemma SkipStep(es: seq<Edge>, s: Progress, s': Progress)
    requires StateInOrder(es, s) && Skips(es, s, s')
    ensures StateInOrder(es, s')
  {
    SkipInOrder(es, s.order, s.edge, s.front, s.p, s.i);
  }

  lemma DiscoverStep(es: seq<Edge>, s: Progress, s': Progress)
    requires StateInOrder(es, s) && Discovers(es, s, s')
    ensures StateInOrder(es, s')
  {
    DiscoverInOrder(es, s.order, s.edge, s.front, s.p, s.i, es[s.i]);
  }

  lemma FinishStep(es: seq<Edge>, s: Progress, s': Progress)
    requires StateInOrder(es, s) && Finishes(es, s, s')
    ensures StateInOrder(es, s')
  {
    FinishInOrder(es, s.order, s.edge, s.front, s.p);
  }

  lemma FinishInOrder(es: seq<Edge>, order: seq<nat>, edge: map<nat, Edge>, front: seq<nat>, p: nat)
    requires InOrder(es, order, edge, front, p, |es|) && front != []
    ensures InOrder(es, order, edge, front[1..], p + 1, 0)
  {
    assert front == [front[0]] + front[1..];
    NextInOrder(es, order, edge, front[0], front[1..], p);
  }

  // ---- the traversal is determined

  ghost predicate SameUpTo(s: seq<nat>, s': seq<nat>, k: nat) {
    k <= |s| && k <= |s'| && forall j :: 0 <= j < k ==> s[j] == s'[j]
  }

  /** Positions in a common beginning. */
  lemma SameFirst(s: seq<nat>, s': seq<nat>, k: nat, x: nat)
    requires SameUpTo(s, s', k) && First(s, x) < k
    ensures First(s', x) == First(s, x)
  {
    assert s'[First(s, x)] == x;
  }

  /** A finished traversal has discovered the vertices `order` over these edges. */
  ghost predicate Traversed(es: seq<Edge>, order: seq<nat>, edge: map<nat, Edge>) {
    && TakesFirst(es, order, edge) && Distinct(order) && order != []
    && (forall v :: v in order && v != order[0] <==> v in edge)
    && (forall v :: v in edge ==> edge[v] in es && edge[v].target == v)
  }

  /** The edge that leads to the vertex at position k does not come after one to a vertex not discovered before. */
  lemma NextIsFirst(es: seq<Edge>, order: seq<nat>, edge: map<nat, Edge>, k: nat, e: Edge)
    requires FirstCome(es, order, edge) && FirstServed(es, order, edge) && 0 < k < |order|
    requires forall v :: v in order && v != order[0] <==> v in edge
    requires e in es && e.target in edge && e.source in order && forall j :: 0 <= j < k ==> order[j] != e.target
    requires order[k] in edge
    ensures !Before(es, order, e, edge[order[k]])
  {
    var m := First(order, e.target);
    assert m >= k && !Before(es, order, e, edge[order[m]]);
    assert m > k ==> Before(es, order, edge[order[k]], edge[order[m]]);
  }

  lemma SameNext(es: seq<Edge>, order: seq<nat>, order': seq<nat>, e: Edge, e': Edge, k: nat)
    requires SameUpTo(order, order', k) && e in es && e' in es
    requires First(order, e.source) < k && First(order', e'.source) < k
    requires e'.source in order ==> !Before(es, order, e', e)
    requires e.source in order' ==> !Before(es, order', e, e')
    ensures e == e'
  {
    SameFirst(order, order', k, e.source);
    SameFirst(order', order, k, e'.source);
  }

  lemma NextAgrees(es: seq<Edge>, order: seq<nat>, edge: map<nat, Edge>, order': seq<nat>, edge': map<nat, Edge>,
                   k: nat)
    requires Traversed(es, order, edge) && Traversed(es, order', edge') && edge.Keys == edge'.Keys
    requires SameUpTo(order, order', k) && 0 < k < |order| && k < |order'|
    ensures order[k] == order'[k] && edge[order[k]] == edge'[order[k]]
  {
    var (e, e') := (edge[order[k]], edge'[order'[k]]);
    if e'.source in order {
      NextIsFirst(es, order, edge, k, e');
    }
    if e.source in order' {
      NextIsFirst(es, order', edge', k, e);
    }
    SameNext(es, order, order', e, e', k);
  }

  lemma {:induction false} SameBeginning(es: seq<Edge>, order: seq<nat>, edge: map<nat, Edge>, order': seq<nat>,
                                         edge': map<nat, Edge>, k: nat)
    requires Traversed(es, order, edge) && Traversed(es, order', edge') && edge.Keys == edge'.Keys
    requires order[0] == order'[0] && 0 < k <= |order| && k <= |order'|
    ensures SameUpTo(order, order', k)
    ensures forall j :: 0 < j < k && order[j] in edge && order[j] in edge' ==> edge[order[j]] == edge'[order[j]]
  {
    if k > 1 {
      SameBeginning(es, order, edge, order', edge', k - 1);
      NextAgrees(es, order, edge, order', edge', k - 1);
      OneFurther(order, edge, order', edge', k - 1);
    }
  }

  lemma OneFurther(order: seq<nat>, edge: map<nat, Edge>, order': seq<nat>, edge': map<nat, Edge>, k: nat)
    requires SameUpTo(order, order', k) && k < |order| && k < |order'| && order[k] == order'[k]
    requires forall j :: 0 < j < k && order[j] in edge && order[j] in edge' ==> edge[order[j]] == edge'[order[j]]
    requires order[k] in edge && order[k] in edge' ==> edge[order[k]] == edge'[order[k]]
    ensures SameUpTo(order, order', k + 1)
    ensures forall j :: 0 < j < k + 1 && order[j] in edge && order[j] in edge' ==> edge[order[j]] == edge'[order[j]]
  {
  }

  lemma NoLonger(s: seq<nat>, s': seq<nat>)
    requires SameUpTo(s, s', |s|) && Distinct(s') && forall v :: v in s' ==> v in s
    ensures s == s'
  {
    if |s| < |s'| {
      OccursAt(s', |s|);
      assert false;
    }
  }

  lemma OccursAt(s: seq<nat>, i: nat)
    requires i < |s|
    ensures s[i] in s
  {
  }

  /** The start, the vertices reached, and the edges in their order determine the tree and the order of discovery. */
  lemma TraversalIsDetermined(es: seq<Edge>, order: seq<nat>, edge: map<nat, Edge>, order': seq<nat>,
                              edge': map<nat, Edge>)
    requires Traversed(es, order, edge) && Traversed(es, order', edge')
    requires edge.Keys == edge'.Keys && order[0] == order'[0]
    ensures order == order' && edge == edge'
  {
    var n := if |order| <= |order'| then |order| else |order'|;
    SameBeginning(es, order, edge, order', edge', n);
    SameVertices(order, edge, order', edge');
    if |order| <= |order'| {
      NoLonger(order, order');
    } else {
      NoLonger(order', order);
    }
    SameEdges(order, edge, edge');
  }

  lemma SameVertices(order: seq<nat>, edge: map<nat, Edge>, order': seq<nat>, edge': map<nat, Edge>)
    requires order != [] && order' != [] && order[0] == order'[0] && edge.Keys == edge'.Keys
    requires forall v :: v in order && v != order[0] <==> v in edge
    requires forall v :: v in order' && v != order'[0] <==> v in edge'
    ensures forall v :: v in order <==> v in order'
  {
  }

  lemma SameEdges(order: seq<nat>, edge: map<nat, Edge>, edge': map<nat, Edge>)
    requires order != [] && edge.Keys == edge'.Keys && forall v :: v in order && v != order[0] <==> v in edge
    requires forall j :: 0 < j < |order| && order[j] in edge && order[j] in edge' ==> edge[order[j]] == edge'[order[j]]
    ensures edge == edge'
  {
    forall v | v in edge
      ensures edge[v] == edge'[v]
    {
      assert order[First(order, v)] == v;
    }
  }
}
