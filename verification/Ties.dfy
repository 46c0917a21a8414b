/** What the sort by bit count is for: among all vertices that contain the mask, one with the fewest bits. When the
    descent (src/util.cc) finds one although siblings share masks, and when ties decide. */
module Ties {
  import opened Affinity
  import opened Descent
  import opened Paths
  import opened Sorting
  import opened Topology

  /** No tree vertex that contains the mask has fewer bits than `r`. */
  ghost predicate IsLeast(t: Snapshot, mask: AffinityMask, r: nat) {
    && IsTreeVertex(t, r) && Holds(t, mask, r)
    && forall w :: IsTreeVertex(t, w) && Holds(t, mask, w) ==> CountOf(t, r) <= CountOf(t, w)
  }

  /** `w` is a candidate at `v`, and no other candidate has fewer bits. */
  ghost predicate IsStep(t: Snapshot, mask: AffinityMask, v: nat, w: nat) {
    && Edge(v, w, CHILD) in t.edges && Holds(t, mask, w)
    && forall c :: Edge(v, c, CHILD) in t.edges && Holds(t, mask, c) ==> CountOf(t, w) <= CountOf(t, c)
  }

  /** A way from the root on which the descent may go, depending on how ties are broken. */
  ghost predicate IsWay(t: Snapshot, mask: AffinityMask, p: seq<nat>) {
    && p != [] && p[0] == t.root
    && forall i :: 0 <= i < |p| - 1 ==> IsStep(t, mask, p[i], p[i + 1])
  }

  /** Whatever contains the mask below `w` has as many bits as `w`: an object without children, or memory behind a
      memory-side cache. */
  ghost predicate IsFlat(t: Snapshot, mask: AffinityMask, w: nat) {
    forall x :: IsBelow(t, x, w) && Holds(t, mask, x) ==> CountOf(t, x) == CountOf(t, w)
  }

  /** Of two siblings that contain the mask, at least one is flat. */
  ghost predicate OneDeep(t: Snapshot, mask: AffinityMask) {
    forall v, w, w' ::
      (IsTreeVertex(t, v) && Edge(v, w, CHILD) in t.edges && Edge(v, w', CHILD) in t.edges
       && Holds(t, mask, w) && Holds(t, mask, w') && w != w')
      ==> IsFlat(t, mask, w) || IsFlat(t, mask, w')
  }

  /** The descent may go the way `p` and on to `w`, where it finds no fewer bits, although `x`, below the
      sibling `w'`, has fewer. */
  ghost predicate Misses(t: Snapshot, mask: AffinityMask, p: seq<nat>, w: nat, w': nat, x: nat) {
    && IsWay(t, mask, p) && IsStep(t, mask, p[|p| - 1], w) && IsFlat(t, mask, w)
    && Edge(p[|p| - 1], w', CHILD) in t.edges && Holds(t, mask, w')
    && IsBelow(t, x, w') && Holds(t, mask, x) && CountOf(t, x) < CountOf(t, w)
  }

  /** The candidate that `order` puts first at `v` is `w`. */
  ghost predicate Picks(t: Snapshot, order: SortOrder, mask: AffinityMask, v: nat, w: nat)
    requires Sorts(order)
  {
    var candidates := Candidates(t, t.edges, mask, v);
    candidates != [] && Best(t, order, candidates) == w
  }

  lemma PickIsStep(t: Snapshot, order: SortOrder, mask: AffinityMask, v: nat) returns (w: nat)
    requires Ascending(t) && Sorts(order) && Candidates(t, t.edges, mask, v) != []
    ensures Picks(t, order, mask, v, w) && IsStep(t, mask, v, w)
    ensures Descend(t, order, mask, v) == Descend(t, order, mask, w)
  {
    var candidates := Candidates(t, t.edges, mask, v);
    w := Best(t, order, candidates);
    CandidatesAreHolders(t, t.edges, mask, v, w);
    forall c | Edge(v, c, CHILD) in t.edges && Holds(t, mask, c)
      ensures CountOf(t, w) <= CountOf(t, c)
    {
      CandidatesAreHolders(t, t.edges, mask, v, c);
    }
  }

  lemma StepHasPick(t: Snapshot, mask: AffinityMask, v: nat, w: nat)
    requires IsStep(t, mask, v, w)
    ensures Candidates(t, t.edges, mask, v) != []
  {
    CandidatesAreHolders(t, t.edges, mask, v, w);
  }

  /** A vertex that contains the mask is one of them, or below a child that contains it. */
  lemma FirstChild(t: Snapshot, mask: AffinityMask, v: nat, x: nat) returns (w: nat)
    requires Nested(t) && IsTreeVertex(t, v) && IsBelow(t, x, v) && Holds(t, mask, x) && x != v
    ensures Edge(v, w, CHILD) in t.edges && Holds(t, mask, w) && IsBelow(t, x, w)
  {
    var p: seq<Edge> :| IsChildPath(t, v, p, x);
    Uncons(t.edges, v, p, x);
    w := p[0].target;
    assert p[0] == Edge(v, w, CHILD) && forall e :: e in p[1..] ==> e in p;
    assert IsChildPath(t, w, p[1..], x);
    ChildOfTreeVertex(t, v, w);
    HoldsAbove(t, mask, w, p[1..], x);
  }

  lemma ChildHasFewer(t: Snapshot, mask: AffinityMask, v: nat, w: nat)
    requires Nested(t) && IsTreeVertex(t, v) && Edge(v, w, CHILD) in t.edges && Holds(t, mask, w) && !IsRank(t, v)
    ensures Holds(t, mask, v) && CountOf(t, w) <= CountOf(t, v)
  {
    Step(t.edges, Edge(v, w, CHILD));
    assert IsChildPath(t, v, [Edge(v, w, CHILD)], w);
    HoldsAbove(t, mask, v, [Edge(v, w, CHILD)], w);
  }

  lemma {:induction false} WayIsInTree(t: Snapshot, mask: AffinityMask, p: seq<nat>)
    requires IsWay(t, mask, p)
    ensures IsTreeVertex(t, p[|p| - 1])
    ensures |p| > 1 ==> Holds(t, mask, p[|p| - 1])
  {
    if |p| == 1 {
      assert IsChildPath(t, t.root, [], t.root);
    } else {
      var n := |p| - 1;
      assert IsStep(t, mask, p[n - 1], p[n - 1 + 1]);
      WayIsInTree(t, mask, p[..n]);
      ChildOfTreeVertex(t, p[n - 1], p[n]);
    }
  }

  lemma WayGoesOn(t: Snapshot, mask: AffinityMask, p: seq<nat>, w: nat)
    requires IsWay(t, mask, p) && IsStep(t, mask, p[|p| - 1], w)
    ensures IsWay(t, mask, p + [w])
  {
  }

  lemma ResultIsBelow(t: Snapshot, order: SortOrder, mask: AffinityMask, w: nat)
    requires Ascending(t) && Sorts(order) && Holds(t, mask, w)
    ensures IsBelow(t, Descend(t, order, mask, w), w) && Holds(t, mask, Descend(t, order, mask, w))
  {
    var p := DescentIsMaximalChain(t, order, mask, w);
  }

  /** No pick of `order` on its way misses a vertex with fewer bits. */
  ghost predicate NeverMisses(t: Snapshot, order: SortOrder, mask: AffinityMask)
    requires Sorts(order)
  {
    forall p, w, w', x :: Misses(t, mask, p, w, w', x) ==> !Picks(t, order, mask, p[|p| - 1], w)
  }

  lemma {:induction false} DescentFindsLeast(t: Snapshot, order: SortOrder, mask: AffinityMask, p: seq<nat>, v: nat,
                                             x: nat)
    requires Ascending(t) && Sorts(order) && Nested(t) && OneDeep(t, mask) && NeverMisses(t, order, mask)
    requires IsWay(t, mask, p) && v == p[|p| - 1] && Holds(t, mask, v) && IsBelow(t, x, v) && Holds(t, mask, x)
    ensures CountOf(t, Descend(t, order, mask, v)) <= CountOf(t, x)
    decreases |t.vertices| - v
  {
    if Candidates(t, t.edges, mask, v) == [] {
      if x != v {
        WayIsInTree(t, mask, p);
        var c := FirstChild(t, mask, v, x);
        CandidatesAreHolders(t, t.edges, mask, v, c);
      }
    } else {
      var w := PickIsStep(t, order, mask, v);
      assert Edge(v, w, CHILD).source == v;
      WayIsInTree(t, mask, p);
      ChildHasFewer(t, mask, v, w);
      ResultIsBelow(t, order, mask, w);
      WayGoesOn(t, mask, p, w);
      var c := w;
      if x != v {
        c := FirstChild(t, mask, v, x);
      }
      assert IsChildPath(t, w, [], w);
      if IsFlat(t, mask, w) {
        FlatPick(t, order, mask, p, w, c, x);
      } else if x == v || c == w {
        DescentFindsLeast(t, order, mask, p + [w], w, if x == v then w else x);
      } else {
        DescentFindsLeast(t, order, mask, p + [w], w, w);
        FlatSibling(t, mask, v, w, c);
      }
    }
  }

  /** A flat pick leads to as few bits as there are, unless it is a miss. */
  lemma FlatPick(t: Snapshot, order: SortOrder, mask: AffinityMask, p: seq<nat>, w: nat, c: nat, x: nat)
    requires Ascending(t) && Sorts(order) && NeverMisses(t, order, mask) && IsWay(t, mask, p)
    requires var v := p[|p| - 1];
             && Picks(t, order, mask, v, w) && IsStep(t, mask, v, w) && IsFlat(t, mask, w)
             && Holds(t, mask, x) && CountOf(t, w) <= CountOf(t, v)
             && (x == v || (Edge(v, c, CHILD) in t.edges && Holds(t, mask, c) && IsBelow(t, x, c)))
    ensures CountOf(t, Descend(t, order, mask, w)) <= CountOf(t, x)
  {
    ResultIsBelow(t, order, mask, w);
    assert !Misses(t, mask, p, w, c, x);
  }

  lemma FlatSibling(t: Snapshot, mask: AffinityMask, v: nat, w: nat, c: nat)
    requires OneDeep(t, mask) && IsTreeVertex(t, v) && Edge(v, w, CHILD) in t.edges && Edge(v, c, CHILD) in t.edges
    requires Holds(t, mask, w) && Holds(t, mask, c) && w != c && !IsFlat(t, mask, w)
    ensures IsFlat(t, mask, c)
  {
  }

  /** Of all ways to miss a vertex, take one along the shortest way. */
  lemma {:induction false} ShortestMiss(t: Snapshot, order: SortOrder, mask: AffinityMask, p: seq<nat>, w: nat,
                                        w': nat, x: nat)
    returns (q: seq<nat>, y: nat, y': nat, z: nat)
    requires Sorts(order) && Misses(t, mask, p, w, w', x) && Picks(t, order, mask, p[|p| - 1], w)
    ensures Misses(t, mask, q, y, y', z) && Picks(t, order, mask, q[|q| - 1], y)
    ensures forall p', u, u', x' ::
              Misses(t, mask, p', u, u', x') && Picks(t, order, mask, p'[|p'| - 1], u) ==> |q| <= |p'|
    decreases |p|
  {
    if p', u, u', x' :| Misses(t, mask, p', u, u', x') && Picks(t, order, mask, p'[|p'| - 1], u) && |p'| < |p| {
      q, y, y', z := ShortestMiss(t, order, mask, p', u, u', x');
    } else {
      q, y, y', z := p, w, w', x;
    }
  }

  /** Along a shortest such way every order goes, as straying from it would miss the vertex earlier. */
  lemma {:induction false} FollowsWay(t: Snapshot, order: SortOrder, mask: AffinityMask, p: seq<nat>, w: nat,
                                      w': nat, x: nat, i: nat)
    requires Ascending(t) && Sorts(order) && Nested(t) && OneDeep(t, mask)
    requires Misses(t, mask, p, w, w', x) && i < |p|
    requires forall q, u, u', y :: Misses(t, mask, q, u, u', y) && Picks(t, order, mask, q[|q| - 1], u) ==> |p| <= |q|
    ensures Descend(t, order, mask, t.root) == Descend(t, order, mask, p[i])
  {
    if i > 0 {
      var j: nat := i - 1;
      FollowsWay(t, order, mask, p, w, w', x, j);
      assert IsStep(t, mask, p[j], p[j + 1]);
      StepHasPick(t, mask, p[j], p[i]);
      var u := PickIsStep(t, order, mask, p[j]);
      if u != p[i] {
        StrayingMisses(t, mask, p, w, w', x, j, u);
        assert false;
      }
    }
  }

  lemma StrayingMisses(t: Snapshot, mask: AffinityMask, p: seq<nat>, w: nat, w': nat, x: nat, j: nat, u: nat)
    requires Nested(t) && OneDeep(t, mask) && Misses(t, mask, p, w, w', x) && j + 1 < |p|
    requires IsStep(t, mask, p[j], u) && u != p[j + 1]
    ensures Misses(t, mask, p[..j + 1], u, p[j + 1], x)
  {
    var n := p[j + 1];
    assert IsStep(t, mask, p[j], n);
    var q := BelowWay(t, mask, p, j + 1);
    WayPrefix(t, mask, p, j + 1);
    WayIsInTree(t, mask, p[..j + 1]);
    MissedIsBelow(t, mask, n, q, p[|p| - 1], w', x);
    WayIsInTree(t, mask, p);
    ChildHasFewer(t, mask, p[|p| - 1], w);
    assert !IsFlat(t, mask, n) by {
      assert IsBelow(t, x, n) && CountOf(t, x) < CountOf(t, n);
    }
    FlatSibling(t, mask, p[j], n, u);
  }

  lemma WayPrefix(t: Snapshot, mask: AffinityMask, p: seq<nat>, i: nat)
    requires IsWay(t, mask, p) && 0 < i <= |p|
    ensures IsWay(t, mask, p[..i]) && p[..i][|p[..i]| - 1] == p[i - 1]
  {
    forall k | 0 <= k < i - 1
      ensures IsStep(t, mask, p[..i][k], p[..i][k + 1])
    {
      assert IsStep(t, mask, p[k], p[k + 1]);
    }
  }

  /** The rest of a way is a path of holders. */
  lemma {:induction false} BelowWay(t: Snapshot, mask: AffinityMask, p: seq<nat>, i: nat) returns (q: seq<Edge>)
    requires Nested(t) && IsWay(t, mask, p) && 0 < i < |p|
    ensures IsChildPath(t, p[i], q, p[|p| - 1]) && Holds(t, mask, p[|p| - 1])
    ensures CountOf(t, p[|p| - 1]) <= CountOf(t, p[i])
    decreases |p| - i
  {
    assert IsStep(t, mask, p[i - 1], p[i - 1 + 1]);
    if i == |p| - 1 {
      q := [];
    } else {
      assert IsStep(t, mask, p[i], p[i + 1]);
      var rest := BelowWay(t, mask, p, i + 1);
      WayPrefix(t, mask, p, i + 1);
      WayIsInTree(t, mask, p[..i + 1]);
      ChildHasFewer(t, mask, p[i], p[i + 1]);
      var e := Edge(p[i], p[i + 1], CHILD);
      Step(t.edges, e);
      Concatenate(t.edges, p[i], [e], p[i + 1], rest, p[|p| - 1]);
      q := [e] + rest;
    }
  }

  lemma MissedIsBelow(t: Snapshot, mask: AffinityMask, u: nat, q: seq<Edge>, v: nat, w': nat, x: nat)
    requires IsChildPath(t, u, q, v) && Edge(v, w', CHILD) in t.edges && Holds(t, mask, w') && IsBelow(t, x, w')
    ensures IsBelow(t, x, u)
  {
    Append(t, u, q, v, w');
    var r :| IsChildPath(t, w', r, x);
    Concatenate(t.edges, u, q + [Edge(v, w', CHILD)], w', r, x);
    assert IsChildPath(t, u, q + [Edge(v, w', CHILD)] + r, x);
  }

  /** A miss on a shortest way is real: the result has more bits than the vertex missed. */
  lemma MissIsReal(t: Snapshot, order: SortOrder, mask: AffinityMask, p: seq<nat>, w: nat, w': nat, x: nat)
    requires Ascending(t) && Sorts(order) && Nested(t) && OneDeep(t, mask)
    requires Misses(t, mask, p, w, w', x) && Picks(t, order, mask, p[|p| - 1], w)
    ensures !IsLeast(t, mask, Descend(t, order, mask, t.root))
  {
    var q, y, y', z := ShortestMiss(t, order, mask, p, w, w', x);
    FollowsWay(t, order, mask, q, y, y', z, |q| - 1);
    var v := q[|q| - 1];
    var pick := PickIsStep(t, order, mask, v);
    assert pick == y;
    ResultIsBelow(t, order, mask, y);
    WayIsInTree(t, mask, q);
    TreeReaches(t, mask, v, y', z);
  }

  lemma TreeReaches(t: Snapshot, mask: AffinityMask, v: nat, w: nat, x: nat)
    requires IsTreeVertex(t, v) && Edge(v, w, CHILD) in t.edges && Holds(t, mask, w) && IsBelow(t, x, w)
    ensures IsTreeVertex(t, x)
  {
    var p :| IsChildPath(t, t.root, p, v);
    MissedIsBelow(t, mask, t.root, p, v, w, x);
  }

  /** For one way of breaking ties, where of two siblings that contain the mask one is flat: only flat picks need to
      be looked at. */
  lemma LeastIffNeverMisses(t: Snapshot, order: SortOrder, mask: AffinityMask)
    requires Ascending(t) && Sorts(order) && Nested(t) && OneDeep(t, mask) && !IsRank(t, t.root)
    ensures IsLeast(t, mask, Descend(t, order, mask, t.root)) <==> Holds(t, mask, t.root) && NeverMisses(t, order, mask)
  {
    var r := Descend(t, order, mask, t.root);
    var down := DescentIsMaximalChain(t, order, mask, t.root);
    assert IsChildPath(t, t.root, [], t.root);
    if IsLeast(t, mask, r) {
      HoldsAbove(t, mask, t.root, down, r);
      if p, w, w', x :| Misses(t, mask, p, w, w', x) && Picks(t, order, mask, p[|p| - 1], w) {
        MissIsReal(t, order, mask, p, w, w', x);
      }
    }
    if Holds(t, mask, t.root) && NeverMisses(t, order, mask) {
      forall x | IsTreeVertex(t, x) && Holds(t, mask, x)
        ensures CountOf(t, r) <= CountOf(t, x)
      {
        assert IsBelow(t, x, t.root);
        DescentFindsLeast(t, order, mask, [t.root], t.root, x);
      }
    }
  }

  /** Some order picks any given candidate with the fewest bits. */
  lemma SomeOrderPicks(t: Snapshot, mask: AffinityMask, v: nat, w: nat) returns (order: SortOrder)
    requires IsStep(t, mask, v, w)
    ensures Sorts(order) && Picks(t, order, mask, v, w)
  {
    var candidates := Candidates(t, t.edges, mask, v);
    CandidatesAreHolders(t, t.edges, mask, v, w);
    var a: nat :| a < |candidates| && candidates[a] == w;
    forall j | 0 <= j < |candidates|
      ensures CountOf(t, w) <= CountOf(t, candidates[j])
    {
      CandidatesAreHolders(t, t.edges, mask, v, candidates[j]);
    }
    order := SomeOrderPrefers(Counts(t, candidates), a);
  }

  /** The sort's ties are harmless exactly when the root contains the mask and nothing is missed on any way: a
      condition on the graph and the query alone. */
  lemma LeastForEveryOrderIff(t: Snapshot, mask: AffinityMask)
    requires Ascending(t) && Nested(t) && OneDeep(t, mask) && !IsRank(t, t.root)
    ensures (forall order :: Sorts(order) ==> IsLeast(t, mask, Descend(t, order, mask, t.root))) <==>
            Holds(t, mask, t.root) && forall p, w, w', x :: !Misses(t, mask, p, w, w', x)
  {
    InsertionOrderSorts();
    LeastIffNeverMisses(t, InsertionOrder, mask);
    if p, w, w', x :| Misses(t, mask, p, w, w', x) {
      var order := SomeOrderPicks(t, mask, p[|p| - 1], w);
      MissIsReal(t, order, mask, p, w, w', x);
    }
    forall order | Sorts(order) && Holds(t, mask, t.root) && forall p, w, w', x :: !Misses(t, mask, p, w, w', x)
      ensures IsLeast(t, mask, Descend(t, order, mask, t.root))
    {
      LeastIffNeverMisses(t, order, mask);
    }
  }

  // ---- the general condition, for one way of breaking ties

  /** The way the descent goes, as far as p. */
  ghost predicate IsDrawn(t: Snapshot, order: SortOrder, mask: AffinityMask, p: seq<nat>)
    requires Sorts(order)
  {
    && p != [] && p[0] == t.root
    && forall i :: 0 <= i < |p| - 1 ==> Picks(t, order, mask, p[i], p[i + 1])
  }

  /** On its way the descent picks `w`, although `x`, below the sibling `w'`, has fewer bits than anything below `w`. */
  ghost predicate PassesOver(t: Snapshot, order: SortOrder, mask: AffinityMask, p: seq<nat>, w: nat, w': nat, x: nat)
    requires Sorts(order)
  {
    && IsDrawn(t, order, mask, p) && Picks(t, order, mask, p[|p| - 1], w)
    && Edge(p[|p| - 1], w', CHILD) in t.edges && Holds(t, mask, w') && IsBelow(t, x, w') && Holds(t, mask, x)
    && forall y :: IsBelow(t, y, w) && Holds(t, mask, y) ==> CountOf(t, x) < CountOf(t, y)
  }

  lemma {:induction false} DrawnReaches(t: Snapshot, order: SortOrder, mask: AffinityMask, p: seq<nat>)
    requires Ascending(t) && Sorts(order) && IsDrawn(t, order, mask, p)
    ensures IsTreeVertex(t, p[|p| - 1]) && (|p| > 1 ==> Holds(t, mask, p[|p| - 1]))
    ensures Descend(t, order, mask, t.root) == Descend(t, order, mask, p[|p| - 1])
  {
    var n := |p| - 1;
    if n == 0 {
      assert IsChildPath(t, t.root, [], t.root);
    } else {
      assert Picks(t, order, mask, p[n - 1], p[n - 1 + 1]);
      DrawnReaches(t, order, mask, p[..n]);
      var w := PickIsStep(t, order, mask, p[n - 1]);
      ChildOfTreeVertex(t, p[n - 1], w);
    }
  }

  lemma {:induction false} DescentMatches(t: Snapshot, order: SortOrder, mask: AffinityMask, p: seq<nat>, v: nat,
                                          x: nat)
    requires Ascending(t) && Sorts(order) && Nested(t)
    requires forall q, w, w', y :: !PassesOver(t, order, mask, q, w, w', y)
    requires IsDrawn(t, order, mask, p) && v == p[|p| - 1]
    requires Holds(t, mask, v) && IsBelow(t, x, v) && Holds(t, mask, x)
    ensures CountOf(t, Descend(t, order, mask, v)) <= CountOf(t, x)
    decreases |t.vertices| - v
  {
    DrawnReaches(t, order, mask, p);
    if Candidates(t, t.edges, mask, v) == [] {
      if x != v {
        var c := FirstChild(t, mask, v, x);
        CandidatesAreHolders(t, t.edges, mask, v, c);
      }
    } else {
      var w := PickIsStep(t, order, mask, v);
      assert Edge(v, w, CHILD).source == v;
      ChildHasFewer(t, mask, v, w);
      assert IsChildPath(t, w, [], w);
      var y := w;
      if x != v {
        y := MatchBelowPick(t, order, mask, p, w, x);
      }
      DescentMatches(t, order, mask, p + [w], w, y);
    }
  }

  /** Below the pick there is something as small as anything else. */
  lemma MatchBelowPick(t: Snapshot, order: SortOrder, mask: AffinityMask, p: seq<nat>, w: nat, x: nat) returns (y: nat)
    requires Sorts(order) && Nested(t) && IsDrawn(t, order, mask, p) && Picks(t, order, mask, p[|p| - 1], w)
    requires forall q, u, u', z :: !PassesOver(t, order, mask, q, u, u', z)
    requires IsTreeVertex(t, p[|p| - 1]) && IsBelow(t, x, p[|p| - 1]) && Holds(t, mask, x) && x != p[|p| - 1]
    ensures IsBelow(t, y, w) && Holds(t, mask, y) && CountOf(t, y) <= CountOf(t, x)
  {
    var c := FirstChild(t, mask, p[|p| - 1], x);
    assert !PassesOver(t, order, mask, p, w, c, x);
    y :| IsBelow(t, y, w) && Holds(t, mask, y) && CountOf(t, y) <= CountOf(t, x);
  }

  /** For nested masks, any query and one way of breaking ties: the result has the fewest bits of all vertices that
      contain the query exactly when the root contains it and no pick on the way passes over a vertex smaller than
      all below the pick. */
  lemma LeastIff(t: Snapshot, order: SortOrder, mask: AffinityMask)
    requires Ascending(t) && Sorts(order) && Nested(t) && !IsRank(t, t.root)
    ensures IsLeast(t, mask, Descend(t, order, mask, t.root)) <==>
            Holds(t, mask, t.root) && forall p, w, w', x :: !PassesOver(t, order, mask, p, w, w', x)
  {
    var r := Descend(t, order, mask, t.root);
    var down := DescentIsMaximalChain(t, order, mask, t.root);
    assert IsChildPath(t, t.root, [], t.root);
    if IsLeast(t, mask, r) {
      HoldsAbove(t, mask, t.root, down, r);
      if p, w, w', x :| PassesOver(t, order, mask, p, w, w', x) {
        PassedIsSmaller(t, order, mask, p, w, w', x);
      }
    }
    if Holds(t, mask, t.root) && forall p, w, w', x :: !PassesOver(t, order, mask, p, w, w', x) {
      forall x | IsTreeVertex(t, x) && Holds(t, mask, x)
        ensures CountOf(t, r) <= CountOf(t, x)
      {
        assert IsBelow(t, x, t.root);
        DescentMatches(t, order, mask, [t.root], t.root, x);
      }
    }
  }

  lemma PassedIsSmaller(t: Snapshot, order: SortOrder, mask: AffinityMask, p: seq<nat>, w: nat, w': nat, x: nat)
    requires Ascending(t) && Sorts(order) && PassesOver(t, order, mask, p, w, w', x)
    ensures !IsLeast(t, mask, Descend(t, order, mask, t.root))
  {
    DrawnReaches(t, order, mask, p);
    var u := PickIsStep(t, order, mask, p[|p| - 1]);
    ResultIsBelow(t, order, mask, w);
    TreeReaches(t, mask, p[|p| - 1], w', x);
  }

  // ---- where of two siblings one is flat

  /** Every masked vertex below `w` has its mask. */
  ghost predicate IsUniform(t: Snapshot, w: nat) {
    forall x :: IsBelow(t, x, w) && Masked(t, x) && !IsRank(t, x) ==> MaskOf(t, x) == MaskOf(t, w)
  }

  ghost predicate DisjointOrUniform(t: Snapshot) {
    forall v, w, w' :: IsTreeVertex(t, v) && Edge(v, w, CHILD) in t.edges && Edge(v, w', CHILD) in t.edges && w != w'
                       && Masked(t, w) && Masked(t, w') && !IsRank(t, w) && !IsRank(t, w')
                       ==> MaskOf(t, w).value !! MaskOf(t, w').value || IsUniform(t, w) || IsUniform(t, w')
  }

  /** With siblings disjoint unless one of them is uniform, of two siblings that contain a query, which must not
      be empty, one is flat. */
  lemma DisjointOrUniformIsOneDeep(t: Snapshot, mask: AffinityMask)
    requires DisjointOrUniform(t) && mask != {}
    ensures OneDeep(t, mask)
  {
    forall v, w, w' | IsTreeVertex(t, v) && Edge(v, w, CHILD) in t.edges && Edge(v, w', CHILD) in t.edges
                      && Holds(t, mask, w) && Holds(t, mask, w') && w != w'
      ensures IsFlat(t, mask, w) || IsFlat(t, mask, w')
    {
      HoldersOverlap(t, mask, w, w');
      if IsUniform(t, w) {
        UniformIsFlat(t, mask, w);
      } else {
        UniformIsFlat(t, mask, w');
      }
    }
  }

  lemma HoldersOverlap(t: Snapshot, mask: AffinityMask, w: nat, w': nat)
    requires Holds(t, mask, w) && Holds(t, mask, w') && mask != {}
    ensures !(MaskOf(t, w).value !! MaskOf(t, w').value)
  {
    var cpu :| cpu in mask;
    ContainmentIsInclusion(mask, MaskOf(t, w).value);
    ContainmentIsInclusion(mask, MaskOf(t, w').value);
    assert cpu in MaskOf(t, w).value * MaskOf(t, w').value;
  }

  lemma UniformIsFlat(t: Snapshot, mask: AffinityMask, w: nat)
    requires IsUniform(t, w)
    ensures IsFlat(t, mask, w)
  {
  }
}
