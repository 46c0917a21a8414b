/** The SuperMUC graph is the trie of the host names on prefixes of length 3, 6, 9 and 12. */
module SupermucTrie {
  import opened Components
  import opened Identity
  import opened Options
  import P = Properties
  import opened Supermuc
  import opened Topology

  // ---- vertices: one per key, with one adapter per addition

  /** How often each key has been added. */
  type Tally<!K> = map<K, nat>

  ghost function Bump<K>(c: Tally<K>, k: K): Tally<K> {
    c[k := Added(c, k) + 1]
  }

  ghost function Added<K>(c: Tally<K>, k: K): nat {
    if k in c then c[k] else 0
  }

  ghost predicate Injective<K(!new)>(idOf: K -> string) {
    forall k, k' :: idOf(k) == idOf(k') ==> k == k'
  }

  /** The graph has exactly one vertex for each key: `key` names the vertices, `at` is its inverse. */
  ghost predicate Nodes<K(!new)>(t: Snapshot, idOf: K -> string, key: seq<K>, at: map<K, nat>) {
    && Valid(t) && |key| == |t.vertices|
    && (forall v :: 0 <= v < |key| ==> key[v] in at && at[key[v]] == v)
    && (forall k :: k in at ==> at[k] < |key| && key[at[k]] == k && idOf(k) in t.ids && t.ids[idOf(k)] == at[k])
    && (forall id :: id in t.ids ==> id == idOf(key[t.ids[id]]))
  }

  /** What the vertex of a key looks like: description and type, and the adapter each addition appends, which shows
      the name and answers no property. */
  datatype Look = Look(name: string, kind: Component)

  ghost predicate LooksLike(vertex: Vertex, look: Look) {
    && vertex.description == look.name && vertex.componentType == look.kind
    && forall a :: a in vertex.adapters ==> a == P.Adapter(look.name, None, None, None, None, map[], map[])
  }

  /** Every vertex has its key's look and carries as many adapters as the key has been added. */
  ghost predicate Tallied<K>(vertices: seq<Vertex>, lookOf: K -> Look, key: seq<K>, c: Tally<K>) {
    && |key| == |vertices|
    && (forall v :: 0 <= v < |key| ==> key[v] in c && |vertices[v].adapters| == c[key[v]]
                                       && LooksLike(vertices[v], lookOf(key[v])))
    && (forall k :: k in c ==> k in key)
  }

  ghost function KeyAfter<K>(key: seq<K>, at: map<K, nat>, k: K): seq<K> {
    if k in at then key else key + [k]
  }

  ghost function AtAfter<K>(key: seq<K>, at: map<K, nat>, k: K): map<K, nat> {
    if k in at then at else at[k := |key|]
  }

  lemma InternKeeps<K(!new)>(t: Snapshot, idOf: K -> string, key: seq<K>, at: map<K, nat>, k: K, id: string)
    requires Nodes(t, idOf, key, at) && Injective(idOf) && id == idOf(k)
    ensures Nodes(Intern(t, id), idOf, KeyAfter(key, at, k), AtAfter(key, at, k))
  {
    var named := Intern(t, id);
    InternValid(t, id);
    if k in at {
      assert named == t;
    } else {
      assert id !in t.ids;
    }
  }

  /** In the graph's vertex list the keys are distinct. */
  lemma KeysDistinct<K(!new)>(t: Snapshot, idOf: K -> string, key: seq<K>, at: map<K, nat>, k: K)
    requires Nodes(t, idOf, key, at) && Injective(idOf)
    ensures forall i, j :: 0 <= i < j < |key| ==> key[i] != key[j]
    ensures idOf(k) in t.ids ==> t.ids[idOf(k)] < |key| && key[t.ids[idOf(k)]] == k
    ensures k in at <==> idOf(k) in t.ids
  {
  }

  lemma NodesCarryOver<K(!new)>(t: Snapshot, r: Snapshot, idOf: K -> string, key: seq<K>, at: map<K, nat>)
    requires Nodes(t, idOf, key, at) && Valid(r) && r.ids == t.ids && |r.vertices| == |t.vertices|
    ensures Nodes(r, idOf, key, at)
  {
  }

  lemma TallyOneMore<K(!new)>(vertices: seq<Vertex>, lookOf: K -> Look, key: seq<K>, c: Tally<K>, v: nat, k: K,
                       vertex: Vertex)
    requires v < |key| && key[v] == k && |key| == |vertices|
    requires forall i, j :: 0 <= i < j < |key| ==> key[i] != key[j]
    requires Tallied(vertices, lookOf, key, c)
             || (v == |key| - 1 && vertices[v] == BLANK_VERTEX && Tallied(vertices[..v], lookOf, key[..v], c))
    requires vertex == Vertex(vertices[v].adapters + [SupermucAdapter(lookOf(k).name)], lookOf(k).name, lookOf(k).kind)
    ensures Tallied(vertices[v := vertex], lookOf, key, Bump(c, k))
  {
    if !Tallied(vertices, lookOf, key, c) {
      assert forall i :: 0 <= i < v ==> key[..v][i] == key[i] && vertices[..v][i] == vertices[i];
      assert forall k' :: k' in key[..v] ==> k' in key;
    }
    assert key[v] in key;
  }

  lemma AddNodeEffect(t: Snapshot, id: string, name: string, kind: Component) returns (r: Snapshot, vertex: Vertex)
    requires Valid(t)
    ensures r == AddNode(t, id, name, kind)
    ensures var named := Intern(t, id); var v := named.ids[id];
            && Valid(r) && r.ids == named.ids && r.edges == t.edges && v < |named.vertices|
            && vertex == Vertex(named.vertices[v].adapters + [SupermucAdapter(name)], name, kind)
            && r.vertices == named.vertices[v := vertex]
  {
    var named := Intern(t, id);
    var v := named.ids[id];
    InternValid(t, id);
    vertex := Vertex(At(named, v).adapters + [SupermucAdapter(name)], name, kind);
    r := AddNode(t, id, name, kind);
    PutValid(named, v, vertex);
  }

  lemma AddNodeKeeps<K(!new)>(t: Snapshot, idOf: K -> string, lookOf: K -> Look, key: seq<K>, at: map<K, nat>,
                       c: Tally<K>,
                              k: K, id: string, r: Snapshot, vertex: Vertex)
    requires Nodes(t, idOf, key, at) && Tallied(t.vertices, lookOf, key, c) && Injective(idOf) && id == idOf(k)
    requires Valid(r) && r.ids == Intern(t, id).ids && r.edges == t.edges && r.ids[id] < |Intern(t, id).vertices|
    requires vertex == Vertex(Intern(t, id).vertices[r.ids[id]].adapters + [SupermucAdapter(lookOf(k).name)],
                              lookOf(k).name, lookOf(k).kind)
    requires r.vertices == Intern(t, id).vertices[r.ids[id] := vertex]
    ensures Nodes(r, idOf, KeyAfter(key, at, k), AtAfter(key, at, k))
    ensures Tallied(r.vertices, lookOf, KeyAfter(key, at, k), Bump(c, k)) && r.edges == t.edges
  {
    var named := Intern(t, id);
    InternKeeps(t, idOf, key, at, k, id);
    NodesCarryOver(named, r, idOf, KeyAfter(key, at, k), AtAfter(key, at, k));
    KeysDistinct(t, idOf, key, at, k);
    KeysDistinct(named, idOf, KeyAfter(key, at, k), AtAfter(key, at, k), k);
    TallyOneMore(named.vertices, lookOf, KeyAfter(key, at, k), c, r.ids[id], k, vertex);
  }

  // ---- edges: one CHILD and one PARENT edge for each child and its parent

  ghost predicate IsLink(up: map<nat, nat>, e: Edge) {
    || (e.edgeType == CHILD && e.target in up && up[e.target] == e.source)
    || (e.edgeType == PARENT && e.source in up && up[e.source] == e.target)
  }

  /** The edges are exactly the links of `up`, each once. */
  ghost predicate Links(es: seq<Edge>, up: map<nat, nat>) {
    && (forall e :: e in es <==> IsLink(up, e))
    && (forall i, j :: 0 <= i < j < |es| ==> es[i] != es[j])
  }

  /** boost::edge finds the link exactly when it is there. */
  lemma HasEdgeIffLinked(es: seq<Edge>, up: map<nat, nat>, parent: nat, child: nat)
    requires Links(es, up) && !(parent in up && up[parent] == child)
    ensures HasEdge(es, parent, child) <==> child in up && up[child] == parent
  {
    if HasEdge(es, parent, child) {
      var i :| 0 <= i < |es| && es[i].source == parent && es[i].target == child;
      assert IsLink(up, es[i]);
    }
    if child in up && up[child] == parent {
      assert Edge(parent, child, CHILD) in es;
    }
  }

  lemma LinkOnceKeeps(t: Snapshot, up: map<nat, nat>, parent: nat, child: nat)
    requires Links(t.edges, up) && child != parent && !(parent in up && up[parent] == child)
    requires child in up ==> up[child] == parent
    ensures Links(LinkOnce(t, parent, child).edges, up[child := parent])
  {
    var up' := up[child := parent];
    HasEdgeIffLinked(t.edges, up, parent, child);
    if child in up {
      assert up' == up;
    } else {
      var added := ParentChild(parent, child);
      assert forall e :: e in t.edges + added <==> e in t.edges || e == added[0] || e == added[1];
      assert !IsLink(up, added[0]) && !IsLink(up, added[1]);
    }
  }

  // ---- the keys are prefixes of host names

  predicate IsLevel(k: nat) {
    k == 3 || k == 6 || k == 9 || k == 12
  }

  /** The identifier of the vertex that stands for prefix p. */
  function PrefixId(p: string): string {
    if |p| == 12 then MachineId(p) else SystemId(p)
  }

  /** Slots are nodes, anything above them is a miscellaneous component. */
  function PrefixLook(p: string): Look {
    Look(p, if |p| == 12 then Node else Misc)
  }

  function Parent(p: string): string {
    if |p| >= 3 then p[..|p| - 3] else ""
  }

  lemma PrefixIdInjective()
    ensures Injective(PrefixId)
  {
    forall p, q | PrefixId(p) == PrefixId(q)
      ensures p == q
    {
      IdsInjective(p, q, p, q, 0, 0, 0, 0);
      IdKinds(p, q, 0, 0);
      IdKinds(q, p, 0, 0);
    }
  }

  /** The parent map on vertices that hangs every linked prefix under its parent. */
  ghost predicate Hung(key: seq<string>, at: map<string, nat>, linked: set<string>, up: map<nat, nat>) {
    && (forall p :: p in linked ==> p in at && |p| > 3 && Parent(p) in at && at[p] in up && up[at[p]] == at[Parent(p)])
    && (forall v :: v in up ==> v < |key| && key[v] in linked)
  }

  datatype TrieState = TrieState(key: seq<string>, at: map<string, nat>, count: Tally<string>, linked: set<string>,
                                 up: map<nat, nat>)

  ghost predicate Trie(t: Snapshot, s: TrieState) {
    && Nodes(t, PrefixId, s.key, s.at) && Tallied(t.vertices, PrefixLook, s.key, s.count)
    && Hung(s.key, s.at, s.linked, s.up) && Links(t.edges, s.up)
  }

  ghost function WithPrefix(s: TrieState, p: string): TrieState {
    s.(key := KeyAfter(s.key, s.at, p), at := AtAfter(s.key, s.at, p), count := Bump(s.count, p))
  }

  ghost function WithLink(s: TrieState, p: string): TrieState
    requires p in s.at && Parent(p) in s.at
  {
    s.(linked := s.linked + {p}, up := s.up[s.at[p] := s.at[Parent(p)]])
  }

  lemma HungAfterPrefix(key: seq<string>, at: map<string, nat>, linked: set<string>, up: map<nat, nat>, p: string)
    requires Hung(key, at, linked, up)
    ensures Hung(KeyAfter(key, at, p), AtAfter(key, at, p), linked, up)
  {
    var key', at' := KeyAfter(key, at, p), AtAfter(key, at, p);
    assert forall q :: q in at ==> q in at' && at'[q] == at[q];
    assert forall v :: 0 <= v < |key| ==> key'[v] == key[v];
  }

  lemma AddPrefix(t: Snapshot, s: TrieState, p: string, id: string, name: string, kind: Component)
    requires Trie(t, s) && id == PrefixId(p) && Look(name, kind) == PrefixLook(p)
    ensures Trie(AddNode(t, id, name, kind), WithPrefix(s, p))
  {
    PrefixIdInjective();
    var r, vertex := AddNodeEffect(t, id, name, kind);
    AddNodeKeeps(t, PrefixId, PrefixLook, s.key, s.at, s.count, p, id, r, vertex);
    HungAfterPrefix(s.key, s.at, s.linked, s.up, p);
  }

  lemma HungAfterLink(key: seq<string>, at: map<string, nat>, linked: set<string>, up: map<nat, nat>, p: string,
                      parent: string)
    requires Hung(key, at, linked, up) && p in at && |p| > 3 && Parent(p) == parent && parent in at
    requires forall q :: q in at ==> at[q] < |key| && key[at[q]] == q
    ensures Hung(key, at, linked + {p}, up[at[p] := at[parent]])
    ensures at[p] in up ==> up[at[p]] == at[parent]
    ensures at[p] != at[parent] && !(at[parent] in up && up[at[parent]] == at[p])
  {
  }

  lemma LinkPrefix(t: Snapshot, s: TrieState, p: string, parent: string)
    requires Trie(t, s) && p in s.at && |p| > 3 && Parent(p) == parent && parent in s.at
    ensures Trie(LinkOnce(t, s.at[parent], s.at[p]), WithLink(s, p))
  {
    HungAfterLink(s.key, s.at, s.linked, s.up, p, parent);
    LinkOnceKeeps(t, s.up, s.at[parent], s.at[p]);
    LinkOnceFrame(t, s.at[parent], s.at[p]);
    NodesCarryOver(t, LinkOnce(t, s.at[parent], s.at[p]), PrefixId, s.key, s.at);
  }

  lemma LinkOnceFrame(t: Snapshot, parent: nat, child: nat)
    requires Valid(t) && parent < |t.vertices| && child < |t.vertices|
    ensures var r := LinkOnce(t, parent, child);
            Valid(r) && r.vertices == t.vertices && r.ids == t.ids && r.root == t.root
  {
    AddEdgesValid(t, ParentChild(parent, child));
  }

  // ---- one host, and all hosts

  /** Every prefix in the trie has a level, and each below the islands is linked to its parent. */
  ghost predicate Closed(s: TrieState) {
    forall p :: p in s.at ==> IsLevel(|p|) && (|p| > 3 ==> Parent(p) in s.at && p in s.linked)
  }

  lemma Prefixes(h: string)
    requires |h| == 12
    ensures Take(h, 9) == h[..9] && Take(h, 6) == h[..6] && Take(h, 3) == h[..3]
    ensures Parent(h) == h[..9] && Parent(h[..9]) == h[..6] && Parent(h[..6]) == h[..3]
    ensures PrefixId(h) == MachineId(h) && PrefixId(h[..9]) == SystemId(h[..9])
    ensures PrefixId(h[..6]) == SystemId(h[..6]) && PrefixId(h[..3]) == SystemId(h[..3])
  {
  }

  ghost function NodesState(s: TrieState, h: string): TrieState
    requires |h| == 12
  {
    WithPrefix(WithPrefix(WithPrefix(WithPrefix(s, h), h[..9]), h[..6]), h[..3])
  }

  /** A prefix that is present stays, and one just added is present. */
  lemma WithPrefixHas(s: TrieState, p: string)
    ensures var r := WithPrefix(s, p);
            && r.at.Keys == s.at.Keys + {p} && r.linked == s.linked
            && forall q :: Added(r.count, q) == Added(s.count, q) + (if q == p then 1 else 0)
  {
  }

  lemma NodesStateHas(s: TrieState, h: string)
    requires |h| == 12
    ensures var r := NodesState(s, h);
            && r.at.Keys == s.at.Keys + {h, h[..9], h[..6], h[..3]} && r.linked == s.linked
            && forall q :: Added(r.count, q) ==
                           Added(s.count, q) + (if q == h || q == h[..9] || q == h[..6] || q == h[..3] then 1 else 0)
  {
    var s1 := WithPrefix(s, h);
    var s2 := WithPrefix(s1, h[..9]);
    var s3 := WithPrefix(s2, h[..6]);
    WithPrefixHas(s, h);
    WithPrefixHas(s1, h[..9]);
    WithPrefixHas(s2, h[..6]);
    WithPrefixHas(s3, h[..3]);
    assert |h[..9]| == 9 && |h[..6]| == 6 && |h[..3]| == 3;
  }

  ghost function HostState(s: TrieState, h: string): TrieState
    requires |h| == 12
  {
    var r := NodesState(s, h);
    NodesStateHas(s, h);
    Prefixes(h);
    WithLink(WithLink(WithLink(r, h[..6]), h[..9]), h)
  }

  lemma AddHostKeeps(t: Snapshot, s: TrieState, h: string)
    requires Trie(t, s) && |h| == 12
    ensures Trie(AddHost(t, h), HostState(s, h))
  {
    Prefixes(h);
    var (p9, p6, p3) := (h[..9], h[..6], h[..3]);
    var t1 := AddNode(t, MachineId(h), h, Node);
    var t2 := AddNode(t1, SystemId(p9), p9, Misc);
    var t3 := AddNode(t2, SystemId(p6), p6, Misc);
    var t4 := AddNode(t3, SystemId(p3), p3, Misc);
    AddPrefix(t, s, h, MachineId(h), h, Node);
    AddPrefix(t1, WithPrefix(s, h), p9, SystemId(p9), p9, Misc);
    AddPrefix(t2, WithPrefix(WithPrefix(s, h), p9), p6, SystemId(p6), p6, Misc);
    AddPrefix(t3, WithPrefix(WithPrefix(WithPrefix(s, h), p9), p6), p3, SystemId(p3), p3, Misc);
    NodesStateHas(s, h);
    LinkHost(t4, NodesState(s, h), h, p9, p6, p3);
  }

  lemma LinkHost(t: Snapshot, s: TrieState, h: string, p9: string, p6: string, p3: string)
    requires Trie(t, s) && |h| == 12 && |p9| == 9 && |p6| == 6 && {h, p9, p6, p3} <= s.at.Keys
    requires Parent(h) == p9 && Parent(p9) == p6 && Parent(p6) == p3
    requires PrefixId(h) == MachineId(h) && PrefixId(p9) == SystemId(p9)
    requires PrefixId(p6) == SystemId(p6) && PrefixId(p3) == SystemId(p3)
    ensures var (slot, column, rack, island) := (VertexOf(t, MachineId(h)), VertexOf(t, SystemId(p9)),
                                                 VertexOf(t, SystemId(p6)), VertexOf(t, SystemId(p3)));
            Trie(LinkOnce(LinkOnce(LinkOnce(t, island, rack), rack, column), column, slot),
                 WithLink(WithLink(WithLink(s, p6), p9), h))
  {
    assert VertexOf(t, PrefixId(h)) == s.at[h] && VertexOf(t, PrefixId(p9)) == s.at[p9];
    assert VertexOf(t, PrefixId(p6)) == s.at[p6] && VertexOf(t, PrefixId(p3)) == s.at[p3];
    LinkPrefix(t, s, p6, p3);
    var t1, s1 := LinkOnce(t, s.at[p3], s.at[p6]), WithLink(s, p6);
    LinkPrefix(t1, s1, p9, p6);
    var t2, s2 := LinkOnce(t1, s.at[p6], s.at[p9]), WithLink(s1, p9);
    LinkPrefix(t2, s2, h, p9);
  }

  /** The number of ranks whose host name extends p. */
  ghost function Extending(names: seq<string>, p: string): nat {
    if names == [] then 0
    else Extending(names[..|names| - 1], p) + (if p <= names[|names| - 1] then 1 else 0)
  }

  /** p is the island, rack, column or slot part of some host name. */
  ghost predicate Present(names: seq<string>, p: string) {
    IsLevel(|p|) && Extending(names, p) > 0
  }

  ghost predicate Counts(s: TrieState, names: seq<string>) {
    forall p :: (p in s.at <==> Present(names, p)) && (IsLevel(|p|) ==> Added(s.count, p) == Extending(names, p))
  }

  ghost predicate IsPrefixOf(h: string, p: string) {
    IsLevel(|p|) && p <= h
  }

  lemma PrefixesOf(h: string, p: string)
    requires |h| == 12
    ensures IsPrefixOf(h, p) <==> p in {h, h[..9], h[..6], h[..3]}
    ensures IsPrefixOf(h, p) && |p| > 3 ==> IsPrefixOf(h, Parent(p)) && p in {h, h[..9], h[..6]}
  {
    assert h[..12] == h;
    if p <= h {
      assert p == h[..|p|];
    }
  }

  lemma HostStateHas(s: TrieState, h: string)
    requires |h| == 12
    ensures var r := HostState(s, h);
            && r.at.Keys == s.at.Keys + {h, h[..9], h[..6], h[..3]} && r.linked == s.linked + {h[..6]} + {h[..9]} + {h}
            && forall q :: Added(r.count, q) == Added(s.count, q) + (if q in {h, h[..9], h[..6], h[..3]} then 1 else 0)
  {
    NodesStateHas(s, h);
    Prefixes(h);
  }

  lemma ExtendingOneMore(names: seq<string>, h: string, p: string)
    ensures Extending(names + [h], p) == Extending(names, p) + (if p <= h then 1 else 0)
  {
    assert (names + [h])[..|names|] == names;
  }

  lemma CountsAfterHost(s: TrieState, names: seq<string>, h: string)
    requires Closed(s) && Counts(s, names) && |h| == 12
    ensures Closed(HostState(s, h)) && Counts(HostState(s, h), names + [h])
  {
    HostStateHas(s, h);
    var r := HostState(s, h);
    forall p
      ensures p in r.at <==> Present(names + [h], p)
      ensures IsLevel(|p|) ==> Added(r.count, p) == Extending(names + [h], p)
      ensures p in r.at ==> IsLevel(|p|) && (|p| > 3 ==> Parent(p) in r.at && p in r.linked)
    {
      PrefixesOf(h, p);
      PrefixesOf(h, Parent(p));
      ExtendingOneMore(names, h, p);
      assert p in s.at <==> Present(names, p);
    }
  }

  lemma HostStep(t: Snapshot, s: TrieState, names: seq<string>, h: string) returns (t': Snapshot, s': TrieState)
    requires Trie(t, s) && Closed(s) && Counts(s, names) && |h| == 12
    ensures t' == AddHost(t, h) && Trie(t', s') && Closed(s') && Counts(s', names + [h])
  {
    AddHostKeeps(t, s, h);
    CountsAfterHost(s, names, h);
    t', s' := AddHost(t, h), HostState(s, h);
  }

  lemma Snoc(names: seq<string>)
    requires names != []
    ensures names[..|names| - 1] + [names[|names| - 1]] == names
  {
  }

  lemma EmptyTrie() returns (s: TrieState)
    ensures Trie(EMPTY, s) && Closed(s) && Counts(s, [])
  {
    s := TrieState([], map[], map[], {}, map[]);
  }

  lemma {:induction false} HostsBuildTrie(names: seq<string>) returns (t: Snapshot, s: TrieState)
    requires forall h :: h in names ==> |h| == 12
    ensures t == AddHosts(EMPTY, names) && Trie(t, s) && Closed(s) && Counts(s, names)
  {
    if names == [] {
      t := EMPTY;
      s := EmptyTrie();
    } else {
      Snoc(names);
      t, s := HostsBuildTrie(names[..|names| - 1]);
      t, s := HostStep(t, s, names[..|names| - 1], names[|names| - 1]);
    }
  }

  // ---- the main results

  /** The vertex that stands for prefix p. */
  function V(t: Snapshot, p: string): nat {
    VertexOf(t, PrefixId(p))
  }

  /** There is one vertex per prefix, bound to its identifier, and no other vertex or name. */
  ghost predicate VerticesArePrefixes(t: Snapshot, names: seq<string>) {
    && Valid(t)
    && (forall p :: IsLevel(|p|) ==> (Present(names, p) <==> PrefixId(p) in t.ids))
    && (forall id :: id in t.ids ==> exists p :: Present(names, p) && PrefixId(p) == id)
    && (forall v :: 0 <= v < |t.vertices| ==> StandsForPrefix(t, names, v))
    && (forall p, q :: Present(names, p) && Present(names, q) && V(t, p) == V(t, q) ==> p == q)
  }

  ghost predicate StandsForPrefix(t: Snapshot, names: seq<string>, v: nat) {
    exists p :: Present(names, p) && V(t, p) == v
  }

  /** The edges are the CHILD and the PARENT edge between each prefix below the islands and its parent, once. */
  ghost predicate EdgesAreLinks(t: Snapshot, names: seq<string>) {
    && (forall e :: e in t.edges <==> exists p :: Present(names, p) && |p| > 3 && IsTrieEdge(t, e, p))
    && (forall i, j :: 0 <= i < j < |t.edges| ==> t.edges[i] != t.edges[j])
  }

  ghost predicate IsTrieEdge(t: Snapshot, e: Edge, p: string) {
    e == Edge(V(t, Parent(p)), V(t, p), CHILD) || e == Edge(V(t, p), V(t, Parent(p)), PARENT)
  }

  /** Every vertex carries one adapter for each rank whose host name extends its prefix, and its prefix's look. */
  ghost predicate AdaptersAreCounted(t: Snapshot, names: seq<string>) {
    forall p :: Present(names, p) ==>
      |At(t, V(t, p)).adapters| == Extending(names, p) && LooksLike(At(t, V(t, p)), PrefixLook(p))
  }

  /** After any list of 12-character host names, in any order and with repeats, the graph is exactly the trie of
      the set of names on prefixes of length 3, 6, 9 and 12. */
  lemma SupermucIsTrie(names: seq<string>)
    requires forall h :: h in names ==> |h| == 12
    ensures var t := AddHosts(EMPTY, names);
            VerticesArePrefixes(t, names) && EdgesAreLinks(t, names) && AdaptersAreCounted(t, names)
  {
    var t, s := HostsBuildTrie(names);
    TrieVertices(t, s, names);
    TrieEdges(t, s, names);
  }

  lemma VertexOfPrefix(t: Snapshot, s: TrieState, names: seq<string>, p: string)
    requires Trie(t, s) && Counts(s, names) && IsLevel(|p|)
    ensures Present(names, p) <==> PrefixId(p) in t.ids
    ensures p in s.at <==> Present(names, p)
    ensures Present(names, p) ==> p in s.at && V(t, p) == s.at[p] < |t.vertices| && s.key[V(t, p)] == p
                                  && |At(t, V(t, p)).adapters| == Extending(names, p)
                                  && LooksLike(At(t, V(t, p)), PrefixLook(p))
  {
    PrefixIdInjective();
    KeysDistinct(t, PrefixId, s.key, s.at, p);
    assert p in s.at <==> Present(names, p);
  }

  lemma TrieVertices(t: Snapshot, s: TrieState, names: seq<string>)
    requires Trie(t, s) && Closed(s) && Counts(s, names)
    ensures VerticesArePrefixes(t, names) && AdaptersAreCounted(t, names)
  {
    forall p | IsLevel(|p|)
      ensures Present(names, p) <==> PrefixId(p) in t.ids
      ensures Present(names, p) ==> V(t, p) < |t.vertices| && s.key[V(t, p)] == p
                                    && |At(t, V(t, p)).adapters| == Extending(names, p)
                                    && LooksLike(At(t, V(t, p)), PrefixLook(p))
    {
      VertexOfPrefix(t, s, names, p);
    }
    forall v | 0 <= v < |t.vertices|
      ensures StandsForPrefix(t, names, v)
    {
      VertexOfPrefix(t, s, names, s.key[v]);
      assert V(t, s.key[v]) == v;
    }
    forall id | id in t.ids
      ensures exists p :: Present(names, p) && PrefixId(p) == id
    {
      VertexOfPrefix(t, s, names, s.key[t.ids[id]]);
    }
  }

  /** The links of the parent map, told by prefixes. */
  lemma LinksByPrefix(s: TrieState, e: Edge)
    requires Hung(s.key, s.at, s.linked, s.up)
    requires forall p :: p in s.at ==> s.at[p] < |s.key| && s.key[s.at[p]] == p
    requires forall v :: 0 <= v < |s.key| ==> s.key[v] in s.at && s.at[s.key[v]] == v
    ensures IsLink(s.up, e) <==> exists p :: p in s.linked && IsLinkOf(s.at, e, p)
  {
    if IsLink(s.up, e) {
      var p := s.key[if e.edgeType == CHILD then e.target else e.source];
      assert p in s.linked && IsLinkOf(s.at, e, p);
    }
  }

  ghost predicate IsLinkOf(at: map<string, nat>, e: Edge, p: string) {
    && p in at && Parent(p) in at
    && (e == Edge(at[Parent(p)], at[p], CHILD) || e == Edge(at[p], at[Parent(p)], PARENT))
  }

  lemma TrieEdges(t: Snapshot, s: TrieState, names: seq<string>)
    requires Trie(t, s) && Closed(s) && Counts(s, names)
    ensures EdgesAreLinks(t, names)
  {
    forall p
      ensures p in s.linked <==> Present(names, p) && |p| > 3
      ensures p in s.linked ==> V(t, p) == s.at[p] && V(t, Parent(p)) == s.at[Parent(p)]
    {
      LinkedIffPresent(t, s, names, p);
    }
    forall e
      ensures e in t.edges <==> exists p :: Present(names, p) && |p| > 3 && IsTrieEdge(t, e, p)
    {
      LinksByPrefix(s, e);
      assert e in t.edges <==> IsLink(s.up, e);
      if p :| p in s.linked && IsLinkOf(s.at, e, p) {
        assert Present(names, p) && |p| > 3 && IsTrieEdge(t, e, p);
      }
      if p :| Present(names, p) && |p| > 3 && IsTrieEdge(t, e, p) {
        assert p in s.linked && IsLinkOf(s.at, e, p);
      }
    }
  }

  lemma LinkedIffPresent(t: Snapshot, s: TrieState, names: seq<string>, p: string)
    requires Trie(t, s) && Closed(s) && Counts(s, names)
    ensures p in s.linked <==> Present(names, p) && |p| > 3
    ensures p in s.linked ==> p in s.at && Parent(p) in s.at && V(t, p) == s.at[p] && V(t, Parent(p)) == s.at[Parent(p)]
  {
    assert p in s.at <==> Present(names, p);
    if p in s.linked {
      assert p in s.at && Parent(p) in s.at;
      VertexOfPrefix(t, s, names, p);
      VertexOfPrefix(t, s, names, Parent(p));
    }
  }

  /** Every vertex below the islands has exactly one parent, and islands have none. */
  lemma OneParent(names: seq<string>, p: string, u: nat)
    requires forall h :: h in names ==> |h| == 12
    requires Present(names, p)
    ensures var t := AddHosts(EMPTY, names);
            Edge(u, V(t, p), CHILD) in t.edges <==> |p| > 3 && u == V(t, Parent(p))
  {
    SupermucIsTrie(names);
    OneParentIn(AddHosts(EMPTY, names), names, p, u, Edge(u, V(AddHosts(EMPTY, names), p), CHILD));
  }

  lemma OneParentIn(t: Snapshot, names: seq<string>, p: string, u: nat, e: Edge)
    requires VerticesArePrefixes(t, names) && EdgesAreLinks(t, names) && Present(names, p)
    requires e == Edge(u, V(t, p), CHILD)
    ensures e in t.edges <==> |p| > 3 && u == V(t, Parent(p))
  {
    if e in t.edges {
      var q :| Present(names, q) && |q| > 3 && IsTrieEdge(t, e, q);
      assert q == p;
    }
    if |p| > 3 && u == V(t, Parent(p)) {
      assert IsTrieEdge(t, e, p);
    }
  }
}
