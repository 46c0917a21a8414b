/** Consequences for the SuperMUC graph: conservation of adapters along the tree, and hop distances of hosts. */
module SupermucQueries {
  import opened Forests
  import opened Paths
  import opened Supermuc
  import opened SupermucTrie
  import opened Topology

  // ---- conservation

  /** The prefixes one level below p. */
  ghost function Below(names: seq<string>, p: string): set<string>
    requires forall h :: h in names ==> |h| == 12
    requires |p| <= 9
  {
    set h | h in names && p <= h :: h[..|p| + 3]
  }

  ghost function Total(names: seq<string>, s: set<string>): nat {
    if s == {} then 0
    else
      var q :| q in s;
      Extending(names, q) + Total(names, s - {q})
  }

  /** The number of names whose first k characters are in s. */
  ghost function Hits(names: seq<string>, s: set<string>, k: nat): nat {
    if names == [] then 0
    else Hits(names[..|names| - 1], s, k)
         + (if |names[|names| - 1]| >= k && names[|names| - 1][..k] in s then 1 else 0)
  }

  lemma {:induction false} HitsSplit(names: seq<string>, s: set<string>, q: string)
    requires q in s
    ensures Hits(names, s, |q|) == Extending(names, q) + Hits(names, s - {q}, |q|)
  {
    if names != [] {
      HitsSplit(names[..|names| - 1], s, q);
      var h := names[|names| - 1];
      assert q <= h <==> |h| >= |q| && h[..|q|] == q;
    }
  }

  lemma {:induction false} HitsOfNone(names: seq<string>, k: nat)
    ensures Hits(names, {}, k) == 0
  {
    if names != [] {
      HitsOfNone(names[..|names| - 1], k);
    }
  }

  lemma {:induction false} TotalIsHits(names: seq<string>, s: set<string>, k: nat)
    requires forall q :: q in s ==> |q| == k
    ensures Total(names, s) == Hits(names, s, k)
  {
    if s == {} {
      HitsOfNone(names, k);
    } else {
      var q :| q in s && Total(names, s) == Extending(names, q) + Total(names, s - {q});
      HitsSplit(names, s, q);
      TotalIsHits(names, s - {q}, k);
    }
  }

  lemma {:induction false} HitsIsExtending(names: seq<string>, s: set<string>, p: string, k: nat)
    requires k == |p| + 3
    requires forall h :: h in names ==> |h| >= k && (h[..k] in s <==> p <= h)
    ensures Hits(names, s, k) == Extending(names, p)
  {
    if names != [] {
      HitsIsExtending(names[..|names| - 1], s, p, k);
      assert names[|names| - 1] in names;
    }
  }

  lemma {:induction false} SomeNameExtends(names: seq<string>, p: string)
    ensures Extending(names, p) > 0 <==> exists h :: h in names && p <= h
  {
    if names != [] {
      var earlier, last := names[..|names| - 1], names[|names| - 1];
      SomeNameExtends(earlier, p);
      assert last in names;
      if h :| h in earlier && p <= h {
        assert h in names;
      }
      if h :| h in names && p <= h && h != last {
        assert h in earlier;
      }
    }
  }

  lemma BelowIsChild(names: seq<string>, p: string, q: string)
    requires forall h :: h in names ==> |h| == 12
    requires IsLevel(|p|) && |p| <= 9
    ensures q in Below(names, p) <==> IsLevel(|q|) && |q| > 3 && Parent(q) == p && exists h :: h in names && q <= h
  {
    if q in Below(names, p) {
      var h :| h in names && p <= h && q == h[..|p| + 3];
      assert q <= h && q[..|q| - 3] == h[..|p|] == p;
    }
    if IsLevel(|q|) && |q| > 3 && Parent(q) == p && exists h :: h in names && q <= h {
      var h :| h in names && q <= h;
      assert h[..|p| + 3] == q;
      assert h[..|p|] == q[..|q| - 3] == p;
    }
  }

  /** Every island, rack and column carries exactly the sum of the adapters of the vertices below it. */
  lemma AdaptersAreConserved(names: seq<string>, p: string)
    requires forall h :: h in names ==> |h| == 12
    requires Present(names, p) && |p| < 12
    ensures var t := AddHosts(EMPTY, names); |At(t, V(t, p)).adapters| == Total(names, Below(names, p))
    ensures forall q :: q in Below(names, p) <==> Present(names, q) && |q| > 3 && Parent(q) == p
  {
    SupermucIsTrie(names);
    NamesBelow(names, p);
    forall q
      ensures q in Below(names, p) <==> Present(names, q) && |q| > 3 && Parent(q) == p
    {
      SomeNameExtends(names, q);
      BelowIsChild(names, p, q);
    }
  }

  /** The names below p are counted once each by the prefixes one level below p. */
  lemma NamesBelow(names: seq<string>, p: string)
    requires forall h :: h in names ==> |h| == 12
    requires |p| <= 9
    ensures Total(names, Below(names, p)) == Extending(names, p)
  {
    var s, k := Below(names, p), |p| + 3;
    forall h | h in names
      ensures h[..k] in s <==> p <= h
    {
      if h[..k] in s {
        var h' :| h' in names && p <= h' && h[..k] == h'[..k];
        LongerPrefix(p, h', h, k);
      }
    }
    HitsIsExtending(names, s, p, k);
    TotalIsHits(names, s, k);
  }

  lemma LongerPrefix(p: string, h: string, other: string, k: nat)
    requires |p| <= k <= |h| && k <= |other| && p <= h && h[..k] == other[..k]
    ensures p <= other
  {
    assert p == h[..k][..|p|];
  }

  // ---- distances

  /** Islands stand at level 0, slots at level 3. */
  function LevelOf(n: nat): nat {
    if n <= 3 then 0 else if n <= 6 then 1 else if n <= 9 then 2 else 3
  }

  /** A forest whose vertices stand for prefixes, each hanging under its parent prefix. */
  ghost predicate PrefixForest(f: Forest, key: seq<string>) {
    && ValidForest(f)
    && (forall v: nat :: v in f.depth <==> v < |key|)
    && (forall v :: 0 <= v < |key| ==> IsLevel(|key[v]|) && f.depth[v] == LevelOf(|key[v]|))
    && (forall v :: v in f.up ==> key[f.up[v]] == Parent(key[v]))
    && (forall v, w :: 0 <= v < w < |key| ==> key[v] != key[w])
  }

  lemma PrefixForestOf(s: TrieState) returns (f: Forest)
    requires Closed(s) && Hung(s.key, s.at, s.linked, s.up)
    requires forall p :: p in s.at ==> s.at[p] < |s.key| && s.key[s.at[p]] == p
    requires forall v :: 0 <= v < |s.key| ==> s.key[v] in s.at && s.at[s.key[v]] == v
    ensures PrefixForest(f, s.key) && f.up == s.up
  {
    LinkedVertices(s.key, s.at, s.linked, s.up);
    f := ForestOfKeys(s.key, s.up);
  }

  lemma ForestOfKeys(key: seq<string>, up: map<nat, nat>) returns (f: Forest)
    requires forall v :: 0 <= v < |key| ==> IsLevel(|key[v]|) && (|key[v]| > 3 ==> v in up)
    requires forall v :: v in up ==> v < |key| && |key[v]| > 3 && up[v] < |key| && key[up[v]] == Parent(key[v])
    requires forall v, w :: 0 <= v < w < |key| ==> key[v] != key[w]
    ensures PrefixForest(f, key) && f.up == up
  {
    f := Forest(up, map v: nat | v < |key| :: LevelOf(|key[v]|));
    forall v | v in up
      ensures f.depth[v] == f.depth[up[v]] + 1
    {
      LevelBelowParent(key[v], key[up[v]]);
    }
    LevelsAreValid(f, |key|);
  }

  lemma LevelsAreValid(f: Forest, n: nat)
    requires forall v: nat :: v in f.depth <==> v < n
    requires forall v :: v in f.up ==> v < n && f.up[v] < n && f.depth[v] == f.depth[f.up[v]] + 1
    requires forall v :: v in f.depth && v !in f.up ==> f.depth[v] == 0
    ensures ValidForest(f)
  {
  }

  lemma LevelBelowParent(p: string, parent: string)
    requires IsLevel(|p|) && |p| > 3 && parent == Parent(p)
    ensures LevelOf(|p|) == LevelOf(|parent|) + 1
  {
  }

  /** The forest behind the graph built from `names`, and the prefix each of its vertices stands for. */
  lemma ForestOfHosts(names: seq<string>) returns (t: Snapshot, key: seq<string>, f: Forest)
    requires forall h :: h in names ==> |h| == 12
    ensures t == AddHosts(EMPTY, names) && PrefixForest(f, key) && Represents(f, t.edges)
    ensures forall p :: Present(names, p) ==> V(t, p) < |key| && key[V(t, p)] == p
  {
    var s;
    t, s := HostsBuildTrie(names);
    TrieParts(t, s);
    key := s.key;
    f := PrefixForestOf(s);
    LinksRepresent(f, t.edges);
    forall p | Present(names, p)
      ensures V(t, p) < |key| && key[V(t, p)] == p
    {
      VertexOfPrefix(t, s, names, p);
    }
  }

  lemma TrieParts(t: Snapshot, s: TrieState)
    requires Trie(t, s)
    ensures Hung(s.key, s.at, s.linked, s.up) && Links(t.edges, s.up)
    ensures forall p :: p in s.at ==> s.at[p] < |s.key| && s.key[s.at[p]] == p
    ensures forall v :: 0 <= v < |s.key| ==> s.key[v] in s.at && s.at[s.key[v]] == v
  {
  }

  lemma LinkedVertices(key: seq<string>, at: map<string, nat>, linked: set<string>, up: map<nat, nat>)
    requires Hung(key, at, linked, up)
    requires forall p :: p in at ==> at[p] < |key| && key[at[p]] == p
    requires forall v :: 0 <= v < |key| ==> key[v] in at && at[key[v]] == v
    ensures forall v :: v in up ==> v < |key| && |key[v]| > 3 && up[v] < |key| && key[up[v]] == Parent(key[v])
    ensures forall v :: 0 <= v < |key| && key[v] in linked ==> v in up
  {
    forall v | v in up
      ensures v < |key| && |key[v]| > 3 && up[v] < |key| && key[up[v]] == Parent(key[v])
    {
      assert key[v] in linked;
    }
  }

  lemma LinksRepresent(f: Forest, es: seq<Edge>)
    requires Links(es, f.up)
    ensures Represents(f, es)
  {
    forall v | v in f.up
      ensures HasEdge(es, v, f.up[v]) && HasEdge(es, f.up[v], v)
    {
      assert IsLink(f.up, Edge(f.up[v], v, CHILD)) && IsLink(f.up, Edge(v, f.up[v], PARENT));
    }
    forall e | e in es
      ensures Linked(f, e.source, e.target) || Linked(f, e.target, e.source)
    {
      assert IsLink(f.up, e);
    }
  }

  lemma PrefixStep(p: string, q: string)
    requires IsLevel(|p|) && IsLevel(|q|)
    ensures p <= q <==> p == q || (|q| > 3 && p <= Parent(q))
  {
    if p <= q && |p| < |q| {
      assert Parent(q)[..|p|] == q[..|p|];
    }
  }

  /** In the forest, the ancestors of a vertex are the vertices of the prefixes of its prefix. */
  lemma {:induction false} AncestorsArePrefixes(f: Forest, key: seq<string>, a: nat, v: nat)
    requires PrefixForest(f, key) && a < |key| && v < |key|
    ensures IsAncestor(f, a, v) <==> key[a] <= key[v]
    decreases |key[v]|
  {
    PrefixStep(key[a], key[v]);
    if v in f.up {
      AncestorsArePrefixes(f, key, a, f.up[v]);
    }
  }

  /** A common prefix of two names that differ at level k + 1 is no longer than k levels. */
  lemma CommonPrefix(h1: string, h2: string, k: nat, q: string)
    requires |h1| == |h2| == 12 && k <= 3 && h1[..3 * k + 3] != h2[..3 * k + 3]
    requires IsLevel(|q|) && q <= h1 && q <= h2
    ensures LevelOf(|q|) < k
  {
    var d :| 0 <= d < 3 * k + 3 && h1[d] != h2[d];
    assert |q| <= d;
  }

  lemma CommonAncestorLevel(f: Forest, key: seq<string>, v1: nat, v2: nat, k: nat, b: nat)
    requires PrefixForest(f, key) && v1 < |key| && v2 < |key| && |key[v1]| == |key[v2]| == 12
    requires k <= 3 && key[v1][..3 * k + 3] != key[v2][..3 * k + 3]
    requires b in f.depth && IsAncestor(f, b, v1) && IsAncestor(f, b, v2)
    ensures f.depth[b] < k
  {
    AncestorsArePrefixes(f, key, b, v1);
    AncestorsArePrefixes(f, key, b, v2);
    CommonPrefix(key[v1], key[v2], k, key[b]);
  }

  lemma SharedPrefix(h1: string, h2: string, k: nat)
    requires |h1| == |h2| == 12 && 0 < k <= 3 && h1[..3 * k] == h2[..3 * k]
    ensures h1[..3 * k] <= h1 && h1[..3 * k] <= h2 && LevelOf(|h1[..3 * k]|) == k - 1
  {
  }

  /** Hosts that share exactly k >= 1 leading levels are 2 * (4 - k) hops apart; hosts of different islands are
      unreachable from each other. */
  lemma HostDistance(names: seq<string>, h1: string, h2: string, k: nat)
    requires forall h :: h in names ==> |h| == 12
    requires h1 in names && h2 in names
    requires k <= 3 && h1[..3 * k] == h2[..3 * k] && h1[..3 * k + 3] != h2[..3 * k + 3]
    ensures var t := AddHosts(EMPTY, names);
            && (Reachable(t.edges, V(t, h1), V(t, h2)) <==> k > 0)
            && HopDistance(t.edges, V(t, h1), V(t, h2)) == if k == 0 then 0 else 2 * (4 - k)
  {
    var t, key, f, v1, v2, a := HostVertices(names, h1, h2, k, 3 * k);
    HostDistanceIn(f, key, t.edges, v1, v2, k, a);
  }

  lemma HostVertices(names: seq<string>, h1: string, h2: string, k: nat, n: nat)
    returns (t: Snapshot, key: seq<string>, f: Forest, v1: nat, v2: nat, a: nat)
    requires forall h :: h in names ==> |h| == 12
    requires h1 in names && h2 in names && n <= 12 && (k > 0 ==> IsLevel(n))
    ensures t == AddHosts(EMPTY, names) && PrefixForest(f, key) && Represents(f, t.edges)
    ensures v1 == V(t, h1) && v1 < |key| && key[v1] == h1
    ensures v2 == V(t, h2) && v2 < |key| && key[v2] == h2
    ensures k > 0 ==> a < |key| && key[a] == h1[..n]
  {
    WholeName(h1);
    WholeName(h2);
    t, key, f := ForestOfHosts(names);
    v1 := PrefixVertex(names, t, key, h1, 12);
    v2 := PrefixVertex(names, t, key, h2, 12);
    a := 0;
    if k > 0 {
      a := PrefixVertex(names, t, key, h1, n);
    }
  }

  lemma WholeName(h: string)
    requires |h| == 12
    ensures h[..12] == h
  {
  }

  lemma PrefixVertex(names: seq<string>, t: Snapshot, key: seq<string>, h: string, n: nat) returns (v: nat)
    requires h in names && |h| == 12 && IsLevel(n)
    requires forall p :: Present(names, p) ==> V(t, p) < |key| && key[V(t, p)] == p
    ensures v == V(t, h[..n]) && v < |key| && key[v] == h[..n]
  {
    SomeNameExtends(names, h[..n]);
    assert Present(names, h[..n]);
    v := V(t, h[..n]);
  }

  lemma HostDistanceIn(f: Forest, key: seq<string>, es: seq<Edge>, v1: nat, v2: nat, k: nat, a: nat)
    requires PrefixForest(f, key) && v1 < |key| && v2 < |key| && |key[v1]| == |key[v2]| == 12 && Represents(f, es)
    requires k <= 3 && key[v1][..3 * k] == key[v2][..3 * k] && key[v1][..3 * k + 3] != key[v2][..3 * k + 3]
    requires k > 0 ==> a < |key| && key[a] == key[v1][..3 * k]
    ensures Reachable(es, v1, v2) <==> k > 0
    ensures HopDistance(es, v1, v2) == if k == 0 then 0 else 2 * (4 - k)
  {
    forall b | b in f.depth && IsAncestor(f, b, v1) && IsAncestor(f, b, v2)
      ensures f.depth[b] < k
    {
      CommonAncestorLevel(f, key, v1, v2, k, b);
    }
    assert f.depth[v1] == 3 && f.depth[v2] == 3;
    if k > 0 {
      SharedPrefix(key[v1], key[v2], k);
      AncestorsArePrefixes(f, key, a, v1);
      AncestorsArePrefixes(f, key, a, v2);
    }
    LcaAtLevel(f, v1, v2, k, a);
    ForestDistance(f, es, v1, v2);
  }
}
