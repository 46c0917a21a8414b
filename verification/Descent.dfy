/** lowest_containing_vertex (src/util.cc): the greedy descent along CHILD edges to a vertex whose cpu affinity
    mask contains a given mask. */
module Descent {
  import opened Affinity
  import opened Paths
  import opened Sorting
  import opened Topology

  /** The test the loop makes of an edge's target. */
  predicate Holds(t: Snapshot, mask: AffinityMask, w: nat) {
    && MaskOf(t, w).Some?
    && IsContaining(MaskOf(t, w).value, mask)
    && !IsRank(t, w)
  }

  /** The targets the loop has pushed after the edges `es`. */
  function Candidates(t: Snapshot, es: seq<Edge>, mask: AffinityMask, v: nat): seq<nat> {
    if es == [] then []
    else
      var earlier := Candidates(t, es[..|es| - 1], mask, v);
      var e := es[|es| - 1];
      if e.source == v && e.edgeType == CHILD && Holds(t, mask, e.target) then earlier + [e.target] else earlier
  }

  lemma {:induction false} CandidatesAreHolders(t: Snapshot, es: seq<Edge>, mask: AffinityMask, v: nat, w: nat)
    ensures w in Candidates(t, es, mask, v) <==> Edge(v, w, CHILD) in es && Holds(t, mask, w)
  {
    if es != [] {
      CandidatesAreHolders(t, es[..|es| - 1], mask, v, w);
      assert es == es[..|es| - 1] + [es[|es| - 1]];
    }
  }

  /** They stand in the order of the edges: `from` gives the edge of each. */
  lemma {:induction false} CandidatesFollowEdges(t: Snapshot, es: seq<Edge>, mask: AffinityMask, v: nat)
    returns (from: seq<nat>)
    ensures var candidates := Candidates(t, es, mask, v);
            && |from| == |candidates| && (forall i :: 0 <= i < |from| ==>
                 from[i] < |es| && es[from[i]] == Edge(v, candidates[i], CHILD) && Holds(t, mask, candidates[i]))
            && (forall i, j :: 0 <= i < j < |from| ==> from[i] < from[j])
            && forall k: nat :: k < |es| && es[k].source == v && es[k].edgeType == CHILD && Holds(t, mask, es[k].target)
                                ==> k in from
  {
    if es == [] {
      from := [];
    } else {
      var n := |es| - 1;
      var earlier := CandidatesFollowEdges(t, es[..n], mask, v);
      assert forall k: nat :: k < n ==> es[..n][k] == es[k];
      if es[n].source == v && es[n].edgeType == CHILD && Holds(t, mask, es[n].target) {
        from := earlier + [n];
      } else {
        from := earlier;
      }
    }
  }

  function CountOf(t: Snapshot, w: nat): nat {
    match MaskOf(t, w)
    case Some(m) => Count(m)
    case None => 0
  }

  function Counts(t: Snapshot, candidates: seq<nat>): (r: seq<nat>)
    ensures |r| == |candidates|
  {
    seq(|candidates|, i requires 0 <= i < |candidates| => CountOf(t, candidates[i]))
  }

  /** The candidate that stands first after the sort by population count. */
  function Best(t: Snapshot, order: SortOrder, candidates: seq<nat>): (w: nat)
    requires Sorts(order) && candidates != []
    ensures w in candidates && forall c :: c in candidates ==> CountOf(t, w) <= CountOf(t, c)
  {
    var keys := Counts(t, candidates);
    assert IsSortOf(order(keys), keys);
    assert forall c :: c in candidates ==> keys[order(keys)[0]] <= CountOf(t, c) by {
      forall c | c in candidates
        ensures keys[order(keys)[0]] <= CountOf(t, c)
      {
        var j: nat :| j < |candidates| && candidates[j] == c;
        FrontIsLeast(order(keys), keys, j);
      }
    }
    candidates[order(keys)[0]]
  }

  /** CHILD edges between masked vertices lead to later vertices, unless they lead to a rank. */
  ghost predicate Ascending(t: Snapshot) {
    forall e :: e in t.edges && e.edgeType == CHILD && Masked(t, e.source) && Masked(t, e.target)
                && !IsRank(t, e.target)
                ==> e.source < e.target
  }

  /** The vertex the descent from `v` ends at. */
  ghost function Descend(t: Snapshot, order: SortOrder, mask: AffinityMask, v: nat): (r: nat)
    requires Ascending(t) && Sorts(order)
    ensures v < |t.vertices| ==> r < |t.vertices|
    decreases if Masked(t, v) then |t.vertices| - v else |t.vertices| + 1
  {
    var candidates := Candidates(t, t.edges, mask, v);
    if candidates == [] then v
    else
      var w := Best(t, order, candidates);
      CandidatesAreHolders(t, t.edges, mask, v, w);
      assert Edge(v, w, CHILD).source == v;
      Descend(t, order, mask, w)
  }

  method LowestContainingVertexFrom(g: Graph, order: SortOrder, mask: AffinityMask, vertex: nat) returns (r: nat)
    requires Ascending(g.View()) && Sorts(order)
    ensures r == Descend(g.View(), order, mask, vertex)
    decreases if Masked(g.View(), vertex) then |g.vertices| - vertex else |g.vertices| + 1
  {
    var t := g.View();
    var candidates: seq<nat> := [];
    for i := 0 to |g.edges|
      invariant candidates == Candidates(t, t.edges[..i], mask, vertex)
    {
      assert t.edges[..i + 1][..i] == t.edges[..i];
      var e := g.edges[i];
      if e.source == vertex && e.edgeType == CHILD {
        var targetMask := MaskOf(t, e.target);
        if targetMask.Some? && IsContaining(targetMask.value, mask) && !IsRank(t, e.target) {
          candidates := candidates + [e.target];
        }
      }
    }
    assert t.edges[..|g.edges|] == t.edges;
    if candidates == [] {
      return vertex;
    }
    ghost var unsorted := candidates;
    assert IsSortOf(order(Counts(t, candidates)), Counts(t, candidates));
    candidates := Arrange(candidates, order(Counts(t, candidates)));
    assert candidates[0] == Best(t, order, unsorted);
    CandidatesAreHolders(t, t.edges, mask, vertex, candidates[0]);
    assert Edge(vertex, candidates[0], CHILD).source == vertex;
    r := LowestContainingVertexFrom(g, order, mask, candidates[0]);
  }

  method LowestContainingVertex(g: Graph, order: SortOrder, mask: AffinityMask) returns (r: nat)
    requires Ascending(g.View()) && Sorts(order)
    ensures r == Descend(g.View(), order, mask, g.rootVertex)
  {
    r := LowestContainingVertexFrom(g, order, mask, g.rootVertex);
  }

  // ---- what holds of every descent

  /** A path of CHILD edges none of which leads to a rank. */
  ghost predicate IsChildPath(t: Snapshot, u: nat, p: seq<Edge>, v: nat) {
    && IsPath(t.edges, u, p, v)
    && forall e :: e in p ==> e.edgeType == CHILD && !IsRank(t, e.target)
  }

  /** Without any assumption on the masks: the result is reached from `v` by CHILD edges through vertices that
      are no ranks and each contain the mask, and no CHILD successor of it that is no rank contains the mask. */
  lemma {:induction false} DescentIsMaximalChain(t: Snapshot, order: SortOrder, mask: AffinityMask, v: nat)
    returns (p: seq<Edge>)
    requires Ascending(t) && Sorts(order)
    ensures var r := Descend(t, order, mask, v);
            && IsChildPath(t, v, p, r)
            && (forall e :: e in p ==> Holds(t, mask, e.target))
            && (r == v || Holds(t, mask, r))
            && (forall w :: Edge(r, w, CHILD) in t.edges ==> !Holds(t, mask, w))
    decreases if Masked(t, v) then |t.vertices| - v else |t.vertices| + 1
  {
    var candidates := Candidates(t, t.edges, mask, v);
    if candidates == [] {
      forall w | Edge(v, w, CHILD) in t.edges
        ensures !Holds(t, mask, w)
      {
        CandidatesAreHolders(t, t.edges, mask, v, w);
      }
      p := [];
    } else {
      var w := Best(t, order, candidates);
      CandidatesAreHolders(t, t.edges, mask, v, w);
      var e := Edge(v, w, CHILD);
      assert e.source == v;
      var rest := DescentIsMaximalChain(t, order, mask, w);
      Step(t.edges, e);
      Concatenate(t.edges, v, [e], w, rest, Descend(t, order, mask, w));
      p := [e] + rest;
    }
  }

  // ---- when the greedy result is globally lowest

  /** What the descent can reach: the vertices below the root along CHILD edges that do not lead to ranks. */
  ghost predicate IsTreeVertex(t: Snapshot, w: nat) {
    exists p :: IsChildPath(t, t.root, p, w)
  }

  /** In the tree below the root masks are nested along CHILD edges, and every masked vertex hangs under a masked
      one. Edges elsewhere, say from a network component to the machine, do not matter. */
  ghost predicate Nested(t: Snapshot) {
    forall e :: e in t.edges && e.edgeType == CHILD && IsTreeVertex(t, e.source)
                && Masked(t, e.target) && !IsRank(t, e.target)
                ==> Masked(t, e.source) && IsContaining(MaskOf(t, e.source).value, MaskOf(t, e.target).value)
  }

  /** No vertex of the tree has two parents in it. */
  ghost predicate OneParent(t: Snapshot) {
    forall v, v', w ::
      (IsTreeVertex(t, v) && IsTreeVertex(t, v') && Edge(v, w, CHILD) in t.edges && Edge(v', w, CHILD) in t.edges
       && !IsRank(t, w))
      ==> v == v'
  }

  /** No tree vertex has two distinct CHILD successors that contain the mask. */
  ghost predicate RivalFree(t: Snapshot, mask: AffinityMask) {
    forall v, w, w' ::
      (IsTreeVertex(t, v) && Edge(v, w, CHILD) in t.edges && Edge(v, w', CHILD) in t.edges
       && Holds(t, mask, w) && Holds(t, mask, w'))
      ==> w == w'
  }

  /** `r` is `w` or lies below it. */
  ghost predicate IsBelow(t: Snapshot, r: nat, w: nat) {
    exists p :: IsChildPath(t, w, p, r)
  }

  /** Every tree vertex that contains the mask is `r` or above it. */
  ghost predicate IsLowest(t: Snapshot, mask: AffinityMask, r: nat) {
    && IsTreeVertex(t, r) && Holds(t, mask, r)
    && forall w :: IsTreeVertex(t, w) && Holds(t, mask, w) ==> IsBelow(t, r, w)
  }

  lemma Append(t: Snapshot, u: nat, p: seq<Edge>, v: nat, w: nat)
    requires IsChildPath(t, u, p, v) && Edge(v, w, CHILD) in t.edges && !IsRank(t, w)
    ensures IsChildPath(t, u, p + [Edge(v, w, CHILD)], w)
  {
    assert (p + [Edge(v, w, CHILD)])[..|p|] == p;
  }

  /** Whatever is below a tree vertex is one. */
  lemma BelowIsInTree(t: Snapshot, x: nat, p: seq<Edge>, y: nat)
    requires IsTreeVertex(t, x) && IsChildPath(t, x, p, y)
    ensures IsTreeVertex(t, y)
  {
    var up :| IsChildPath(t, t.root, up, x);
    Concatenate(t.edges, t.root, up, x, p, y);
    assert IsChildPath(t, t.root, up + p, y);
  }

  lemma ChildPathButLast(t: Snapshot, x: nat, p: seq<Edge>, y: nat)
    requires IsChildPath(t, x, p, y) && p != []
    ensures var e := p[|p| - 1];
            && e in t.edges && e == Edge(e.source, y, CHILD) && !IsRank(t, y)
            && IsChildPath(t, x, p[..|p| - 1], e.source) && (|p| > 1 ==> !IsRank(t, e.source))
  {
    var p' := p[..|p| - 1];
    assert forall d :: d in p' ==> d in p;
    if |p| > 1 {
      assert p'[|p'| - 1] in p;
    }
  }

  /** Under nesting, whatever contains the mask has it contained all the way up. */
  lemma {:induction false} HoldsAbove(t: Snapshot, mask: AffinityMask, x: nat, p: seq<Edge>, w: nat)
    requires Nested(t) && IsTreeVertex(t, x) && IsChildPath(t, x, p, w) && Holds(t, mask, w) && !IsRank(t, x)
    ensures Holds(t, mask, x)
    ensures CountOf(t, w) <= CountOf(t, x)
  {
    if p != [] {
      var e := p[|p| - 1];
      ChildPathButLast(t, x, p, w);
      BelowIsInTree(t, x, p[..|p| - 1], e.source);
      ContainmentIsInclusion(MaskOf(t, w).value, MaskOf(t, e.source).value);
      HoldsAbove(t, mask, x, p[..|p| - 1], e.source);
    }
  }

  /** Descriptors rise on the way down to a holder. */
  lemma {:induction false} PathAscends(t: Snapshot, mask: AffinityMask, x: nat, p: seq<Edge>, w: nat)
    requires Ascending(t) && Nested(t) && IsTreeVertex(t, x) && !IsRank(t, x)
    requires IsChildPath(t, x, p, w) && Holds(t, mask, w)
    ensures x + |p| <= w
  {
    if p != [] {
      var e := p[|p| - 1];
      ChildPathButLast(t, x, p, w);
      BelowIsInTree(t, x, p[..|p| - 1], e.source);
      ContainmentIsInclusion(MaskOf(t, w).value, MaskOf(t, e.source).value);
      PathAscends(t, mask, x, p[..|p| - 1], e.source);
    }
  }

  /** Of two ways down to one vertex the longer passes through the start of the shorter. */
  lemma {:induction false} PathsMerge(t: Snapshot, u: nat, p: seq<Edge>, u': nat, p': seq<Edge>, r: nat)
    returns (q: seq<Edge>)
    requires OneParent(t) && IsTreeVertex(t, u) && IsTreeVertex(t, u')
    requires IsChildPath(t, u, p, r) && IsChildPath(t, u', p', r) && |p| <= |p'|
    ensures IsChildPath(t, u', q, u)
    decreases |p|
  {
    if p == [] {
      q := p';
    } else {
      var e, e' := p[|p| - 1], p'[|p'| - 1];
      ChildPathButLast(t, u, p, r);
      ChildPathButLast(t, u', p', r);
      BelowIsInTree(t, u, p[..|p| - 1], e.source);
      BelowIsInTree(t, u', p'[..|p'| - 1], e'.source);
      q := PathsMerge(t, u, p[..|p| - 1], u', p'[..|p'| - 1], e.source);
    }
  }

  /** The descent passes through every holder below the vertex it starts from. */
  lemma {:induction false} DescentMeetsHolders(t: Snapshot, order: SortOrder, mask: AffinityMask, v: nat,
                                               p: seq<Edge>, w: nat)
    returns (q: seq<Edge>)
    requires Ascending(t) && Sorts(order) && Nested(t) && RivalFree(t, mask)
    requires IsTreeVertex(t, v) && IsChildPath(t, v, p, w) && Holds(t, mask, w)
    ensures IsChildPath(t, w, q, Descend(t, order, mask, v))
    decreases |p|
  {
    if p == [] {
      q := DescentIsMaximalChain(t, order, mask, v);
    } else {
      Uncons(t.edges, v, p, w);
      var x := p[0].target;
      assert p[0] == Edge(v, x, CHILD);
      assert forall e :: e in p[1..] ==> e in p;
      ChildOfTreeVertex(t, v, x);
      HoldsAbove(t, mask, x, p[1..], w);
      var candidates := Candidates(t, t.edges, mask, v);
      CandidatesAreHolders(t, t.edges, mask, v, x);
      var best := Best(t, order, candidates);
      CandidatesAreHolders(t, t.edges, mask, v, best);
      assert best == x;
      q := DescentMeetsHolders(t, order, mask, x, p[1..], w);
    }
  }

  /** A lowest holder is below the root, which then contains the mask too, and below every other holder, so no
      two siblings contain it. */
  lemma LowestMeansRivalFree(t: Snapshot, mask: AffinityMask, r: nat)
    requires Ascending(t) && Nested(t) && OneParent(t) && !IsRank(t, t.root)
    requires IsLowest(t, mask, r)
    ensures Holds(t, mask, t.root) && RivalFree(t, mask)
  {
    var p :| IsChildPath(t, t.root, p, r);
    assert IsChildPath(t, t.root, [], t.root);
    HoldsAbove(t, mask, t.root, p, r);
    forall v, w, w' | IsTreeVertex(t, v) && Edge(v, w, CHILD) in t.edges && Edge(v, w', CHILD) in t.edges
                      && Holds(t, mask, w) && Holds(t, mask, w')
      ensures w == w'
    {
      ChildOfTreeVertex(t, v, w);
      ChildOfTreeVertex(t, v, w');
      SiblingsAboveOne(t, mask, v, w, w', r);
    }
  }

  /** For masks nested on a tree and any query: the descent ends at a globally lowest vertex exactly when the root
      contains the query and no two siblings of the tree both do. */
  lemma LowestIffRivalFree(t: Snapshot, order: SortOrder, mask: AffinityMask)
    requires Ascending(t) && Sorts(order) && Nested(t) && OneParent(t) && !IsRank(t, t.root)
    ensures IsLowest(t, mask, Descend(t, order, mask, t.root)) <==> Holds(t, mask, t.root) && RivalFree(t, mask)
  {
    var r := Descend(t, order, mask, t.root);
    if Holds(t, mask, t.root) && RivalFree(t, mask) {
      DescentIsLowest(t, order, mask);
    }
    if IsLowest(t, mask, r) {
      LowestMeansRivalFree(t, mask, r);
    }
  }

  /** Whenever some vertex is globally lowest, the descent ends there. */
  lemma LowestIsFound(t: Snapshot, order: SortOrder, mask: AffinityMask, x: nat)
    requires Ascending(t) && Sorts(order) && Nested(t) && OneParent(t) && !IsRank(t, t.root)
    requires IsLowest(t, mask, x)
    ensures Descend(t, order, mask, t.root) == x
  {
    var r := Descend(t, order, mask, t.root);
    LowestMeansRivalFree(t, mask, x);
    DescentIsLowest(t, order, mask);
    var p :| IsChildPath(t, x, p, r);
    PathAscends(t, mask, x, p, r);
    var q :| IsChildPath(t, r, q, x);
    PathAscends(t, mask, r, q, x);
  }

  /** Without any assumption on the masks: the result contains the mask exactly when the start vertex, which is
      never tested, or one of its CHILD successors does. */
  lemma ResultHoldsIff(t: Snapshot, order: SortOrder, mask: AffinityMask, v: nat)
    requires Ascending(t) && Sorts(order)
    ensures Holds(t, mask, Descend(t, order, mask, v)) <==>
            Holds(t, mask, v) || exists w :: Edge(v, w, CHILD) in t.edges && Holds(t, mask, w)
  {
    var p := DescentIsMaximalChain(t, order, mask, v);
    if Descend(t, order, mask, v) != v {
      Uncons(t.edges, v, p, Descend(t, order, mask, v));
      assert p[0] == Edge(v, p[0].target, CHILD);
    }
  }

  /** Where no CHILD successor contains the mask, the descent stops. */
  lemma DescentStops(t: Snapshot, order: SortOrder, mask: AffinityMask, v: nat)
    requires Ascending(t) && Sorts(order)
    requires forall w :: Edge(v, w, CHILD) in t.edges ==> !Holds(t, mask, w)
    ensures Descend(t, order, mask, v) == v
  {
    var candidates := Candidates(t, t.edges, mask, v);
    if candidates != [] {
      CandidatesAreHolders(t, t.edges, mask, v, candidates[0]);
      assert false;
    }
  }

  lemma ChildOfTreeVertex(t: Snapshot, v: nat, w: nat)
    requires IsTreeVertex(t, v) && Edge(v, w, CHILD) in t.edges && !IsRank(t, w)
    ensures IsTreeVertex(t, w)
  {
    var up :| IsChildPath(t, t.root, up, v);
    Append(t, t.root, up, v, w);
  }

  /** Siblings that contain the mask and lie above one vertex are the same. */
  lemma SiblingsAboveOne(t: Snapshot, mask: AffinityMask, v: nat, w: nat, w': nat, r: nat)
    requires Ascending(t) && Nested(t) && OneParent(t) && IsTreeVertex(t, v)
    requires Edge(v, w, CHILD) in t.edges && Edge(v, w', CHILD) in t.edges
    requires Holds(t, mask, w) && Holds(t, mask, w') && IsBelow(t, r, w) && IsBelow(t, r, w')
    ensures w == w'
  {
    ChildOfTreeVertex(t, v, w);
    ChildOfTreeVertex(t, v, w');
    var p :| IsChildPath(t, w, p, r);
    var p' :| IsChildPath(t, w', p', r);
    if |p| <= |p'| {
      var q := PathsMerge(t, w, p, w', p', r);
      NotBelowSibling(t, mask, v, w, w', q);
    } else {
      var q := PathsMerge(t, w', p', w, p, r);
      NotBelowSibling(t, mask, v, w', w, q);
    }
  }

  lemma NotBelowSibling(t: Snapshot, mask: AffinityMask, v: nat, w: nat, w': nat, q: seq<Edge>)
    requires Ascending(t) && Nested(t) && OneParent(t) && IsTreeVertex(t, v) && IsTreeVertex(t, w')
    requires Edge(v, w, CHILD) in t.edges && Edge(v, w', CHILD) in t.edges
    requires Holds(t, mask, w) && Holds(t, mask, w') && IsChildPath(t, w', q, w)
    ensures w == w'
  {
    if q != [] {
      var e := q[|q| - 1];
      ChildPathButLast(t, w', q, w);
      BelowIsInTree(t, w', q[..|q| - 1], e.source);
      assert e.source == v;
      assert Edge(v, w, CHILD).edgeType == CHILD && Edge(v, w', CHILD).edgeType == CHILD;
      ContainmentIsInclusion(MaskOf(t, w).value, MaskOf(t, v).value);
      PathAscends(t, mask, w', q[..|q| - 1], v);
      assert false;
    }
  }

  /** The sufficient half needs no tree. */
  lemma DescentIsLowest(t: Snapshot, order: SortOrder, mask: AffinityMask)
    requires Ascending(t) && Sorts(order) && Nested(t) && RivalFree(t, mask)
    requires Holds(t, mask, t.root)
    ensures IsLowest(t, mask, Descend(t, order, mask, t.root))
  {
    var down := DescentIsMaximalChain(t, order, mask, t.root);
    assert IsChildPath(t, t.root, [], t.root);
    forall w | IsTreeVertex(t, w) && Holds(t, mask, w)
      ensures IsBelow(t, Descend(t, order, mask, t.root), w)
    {
      var p :| IsChildPath(t, t.root, p, w);
      var q := DescentMeetsHolders(t, order, mask, t.root, p, w);
    }
  }

  /** In the tree, sibling masks are pairwise disjoint. */
  ghost predicate SiblingsDisjoint(t: Snapshot) {
    forall v, w, w' :: IsTreeVertex(t, v) && Edge(v, w, CHILD) in t.edges && Edge(v, w', CHILD) in t.edges && w != w'
                       && Masked(t, w) && Masked(t, w') && !IsRank(t, w) && !IsRank(t, w')
                       ==> MaskOf(t, w).value !! MaskOf(t, w').value
  }

  /** With disjoint siblings the result for a non-empty query is the unique lowest holder, and every holder in
      the tree has at least its bit count. */
  lemma DisjointSiblingsSuffice(t: Snapshot, order: SortOrder, mask: AffinityMask, w: nat)
    requires Ascending(t) && Sorts(order) && Nested(t) && SiblingsDisjoint(t)
    requires mask != {} && Holds(t, mask, t.root)
    ensures var r := Descend(t, order, mask, t.root);
            && IsLowest(t, mask, r)
            && (IsTreeVertex(t, w) && Holds(t, mask, w) ==> CountOf(t, r) <= CountOf(t, w))
  {
    var r := Descend(t, order, mask, t.root);
    forall v, w, w' | IsTreeVertex(t, v) && Edge(v, w, CHILD) in t.edges && Edge(v, w', CHILD) in t.edges
                      && Holds(t, mask, w) && Holds(t, mask, w')
      ensures w == w'
    {
      var cpu :| cpu in mask;
      ContainmentIsInclusion(mask, MaskOf(t, w).value);
      ContainmentIsInclusion(mask, MaskOf(t, w').value);
      assert cpu in MaskOf(t, w).value * MaskOf(t, w').value;
    }
    DescentIsLowest(t, order, mask);
    if IsTreeVertex(t, w) && Holds(t, mask, w) {
      var p :| IsChildPath(t, w, p, r);
      HoldsAbove(t, mask, w, p, r);
    }
  }
}
