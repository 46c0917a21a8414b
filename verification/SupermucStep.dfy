/** The SuperMUC step on a graph that other modules have built: it adds a copy of the trie it builds on the empty graph,
    whose slots are the machines that are already there. */
module SupermucStep {
  import opened Components
  import opened Identity
  import opened Paths
  import opened Supermuc
  import opened SupermucNames
  import opened SupermucTrie
  import opened Topology

  /** The edges between the copies of the vertices. */
  ghost function Image(es: seq<Edge>, at: seq<nat>): (r: seq<Edge>)
    requires forall e :: e in es ==> e.source < |at| && e.target < |at|
    ensures |r| == |es|
  {
    seq(|es|, i requires 0 <= i < |es| => Edge(at[es[i].source], at[es[i].target], es[i].edgeType))
  }

  ghost predicate Named(t: Snapshot, v: nat) {
    exists id :: id in t.ids && t.ids[id] == v
  }

  /** `at` maps the vertices of `s` to those of `t` with the same names, and every vertex of `s` has a name. */
  ghost predicate NamesMatch(s: Snapshot, t: Snapshot, at: seq<nat>) {
    && Valid(s) && Valid(t) && |at| == |s.vertices| && (forall v :: 0 <= v < |at| ==> at[v] < |t.vertices|)
    && (forall id :: id in s.ids ==> id in t.ids && t.ids[id] == at[s.ids[id]])
    && (forall v: nat :: v < |at| ==> Named(s, v))
  }

  /** `t` has the vertices and names of `t0`, and new ones only for names of `s` that `t0` has not. */
  ghost predicate Extends(t0: Snapshot, s: Snapshot, t: Snapshot, at: seq<nat>, system: string -> bool) {
    && |t0.vertices| <= |t.vertices| && t.ids.Keys == t0.ids.Keys + s.ids.Keys
    && (forall id :: id in t0.ids ==> t.ids[id] == t0.ids[id])
    && (forall w :: |t0.vertices| <= w < |t.vertices| ==> w in at)
    && (forall id :: id in s.ids && system(id) ==> |t0.vertices| <= t.ids[id])
  }

  /** A copy looks like its original, with the adapters it had in `t0` in front; other vertices are as in `t0`. */
  ghost predicate Copies(t0: Snapshot, s: Snapshot, t: Snapshot, at: seq<nat>) {
    && |at| == |s.vertices|
    && (forall v :: 0 <= v < |at| ==> at[v] < |t.vertices| && IsCopy(At(t0, at[v]), s.vertices[v], t.vertices[at[v]]))
    && (forall w :: 0 <= w < |t0.vertices| && w < |t.vertices| && w !in at ==> t.vertices[w] == t0.vertices[w])
  }

  ghost predicate IsCopy(before: Vertex, original: Vertex, copy: Vertex) {
    copy == Vertex(before.adapters + original.adapters, original.description, original.componentType)
  }

  ghost predicate EdgesMatch(t0: Snapshot, s: Snapshot, t: Snapshot, at: seq<nat>) {
    && (forall e :: e in s.edges ==> e.source < |at| && e.target < |at|)
    && t.edges == t0.edges + Image(s.edges, at)
  }

  ghost predicate Embeds(t0: Snapshot, s: Snapshot, t: Snapshot, at: seq<nat>, system: string -> bool) {
    NamesMatch(s, t, at) && Extends(t0, s, t, at, system) && Copies(t0, s, t, at) && EdgesMatch(t0, s, t, at)
  }

  lemma AtIsInjective(s: Snapshot, t: Snapshot, at: seq<nat>, i: nat, j: nat)
    requires NamesMatch(s, t, at) && i < |at| && j < |at| && at[i] == at[j]
    ensures i == j
  {
    assert Named(s, i) && Named(s, j);
    var a :| a in s.ids && s.ids[a] == i;
    var b :| b in s.ids && s.ids[b] == j;
    assert t.ids[a] == t.ids[b];
  }

  /** Where the copies stand after a vertex has been added under `id`. */
  ghost function AtAfterIntern(s: Snapshot, t: Snapshot, at: seq<nat>, id: string): (r: seq<nat>)
    ensures at <= r
  {
    if id in s.ids then at else at + [Intern(t, id).ids[id]]
  }

  /** A name that only `t` has belongs to no copy yet. */
  lemma NotYetCopied(s: Snapshot, t: Snapshot, at: seq<nat>, id: string, v: nat)
    requires NamesMatch(s, t, at) && id in t.ids && id !in s.ids && v < |at|
    ensures t.ids[id] != at[v]
  {
    assert Named(s, v);
    var other :| other in s.ids && s.ids[other] == v;
    assert t.ids[other] == at[v];
  }

  lemma InPrefix(at: seq<nat>, at': seq<nat>, x: nat)
    requires at <= at'
    ensures x in at ==> x in at'
  {
  }

  lemma StaysNamed(s: Snapshot, id: string, v: nat)
    requires v < |s.vertices| ==> Named(s, v)
    ensures v < |Intern(s, id).vertices| ==> Named(Intern(s, id), v)
  {
    var s' := Intern(s, id);
    if v < |s.vertices| {
      var other :| other in s.ids && s.ids[other] == v;
      assert other in s'.ids && s'.ids[other] == v;
    } else if v < |s'.vertices| {
      assert id in s'.ids && s'.ids[id] == v;
    }
  }

  lemma InternNames(s: Snapshot, t: Snapshot, at: seq<nat>, id: string)
    requires NamesMatch(s, t, at)
    ensures NamesMatch(Intern(s, id), Intern(t, id), AtAfterIntern(s, t, at, id))
  {
    InternValid(s, id);
    InternValid(t, id);
    forall v: nat | v < |Intern(s, id).vertices|
      ensures Named(Intern(s, id), v)
    {
      StaysNamed(s, id, v);
    }
    NamesStillMatch(s, t, at, id);
  }

  lemma NamesStillMatch(s: Snapshot, t: Snapshot, at: seq<nat>, id: string)
    requires NamesMatch(s, t, at)
    ensures var (s', t', at') := (Intern(s, id), Intern(t, id), AtAfterIntern(s, t, at, id));
            && |at'| == |s'.vertices| && (forall v :: 0 <= v < |at'| ==> at'[v] < |t'.vertices|)
            && (forall other :: other in s'.ids ==>
                  other in t'.ids && s'.ids[other] < |at'| && t'.ids[other] == at'[s'.ids[other]])
  {
    InternValid(t, id);
  }

  lemma InternExtends(t0: Snapshot, s: Snapshot, t: Snapshot, at: seq<nat>, system: string -> bool, id: string)
    requires Extends(t0, s, t, at, system) && NamesMatch(s, t, at)
    requires system(id) ==> id !in t0.ids
    ensures Extends(t0, Intern(s, id), Intern(t, id), AtAfterIntern(s, t, at, id), system)
  {
    var at', t' := AtAfterIntern(s, t, at, id), Intern(t, id);
    forall w | |t0.vertices| <= w < |t'.vertices|
      ensures w in at'
    {
      if w < |t.vertices| {
        assert w in at;
        var i :| 0 <= i < |at| && at[i] == w;
        assert at'[i] == w;
      } else {
        assert at'[|at|] == w;
      }
    }
    assert system(id) && id in t.ids ==> id in s.ids;
  }

  /** One vertex set up in both graphs. */
  lemma NodeEmbeds(t0: Snapshot, s: Snapshot, t: Snapshot, at: seq<nat>, system: string -> bool,
                   id: string, name: string, c: Component) returns (at': seq<nat>)
    requires Embeds(t0, s, t, at, system) && (system(id) ==> id !in t0.ids) && Valid(t0)
    ensures s.ids.Keys + {id} <= AddNode(s, id, name, c).ids.Keys
    ensures Embeds(t0, AddNode(s, id, name, c), AddNode(t, id, name, c), at', system)
  {
    at' := AtAfterIntern(s, t, at, id);
    NodeKeys(s, id, name, c);
    InternNames(s, t, at, id);
    InternExtends(t0, s, t, at, system, id);
    var s', vertex := AddNodeEffect(s, id, name, c);
    var t', copy := AddNodeEffect(t, id, name, c);
    CopiesAfterNode(t0, s, t, at, id, name, c, s', vertex, t', copy, at');
    ImageOfMore(s.edges, at, at');
    NamesAfterPut(Intern(s, id), Intern(t, id), at', s', t');
  }

  lemma NodeKeys(s: Snapshot, id: string, name: string, c: Component)
    ensures AddNode(s, id, name, c).ids.Keys == s.ids.Keys + {id}
  {
  }

  lemma NamesAfterPut(s: Snapshot, t: Snapshot, at: seq<nat>, s': Snapshot, t': Snapshot)
    requires NamesMatch(s, t, at) && Valid(s') && Valid(t')
    requires s'.ids == s.ids && |s'.vertices| == |s.vertices| && t'.ids == t.ids && |t'.vertices| == |t.vertices|
    ensures NamesMatch(s', t', at)
  {
    forall v: nat | v < |at|
      ensures Named(s', v)
    {
      assert Named(s, v);
    }
  }

  lemma ImageOfMore(es: seq<Edge>, at: seq<nat>, at': seq<nat>)
    requires at <= at' && forall e :: e in es ==> e.source < |at| && e.target < |at|
    ensures Image(es, at') == Image(es, at)
  {
    forall i | 0 <= i < |es|
      ensures Image(es, at')[i] == Image(es, at)[i]
    {
      assert es[i] in es;
    }
  }

  lemma CopiesAfterNode(t0: Snapshot, s: Snapshot, t: Snapshot, at: seq<nat>, id: string, name: string, c: Component,
                        s': Snapshot, vertex: Vertex, t': Snapshot, copy: Vertex, at': seq<nat>)
    requires Valid(t0) && NamesMatch(s, t, at) && Copies(t0, s, t, at) && |t0.vertices| <= |t.vertices|
    requires (forall w :: |t0.vertices| <= w < |t.vertices| ==> w in at)
    requires at' == AtAfterIntern(s, t, at, id) && |at'| == |Intern(s, id).vertices|
    requires Intern(s, id).ids[id] < |at'| && Intern(t, id).ids[id] < |Intern(t, id).vertices|
    requires at'[Intern(s, id).ids[id]] == Intern(t, id).ids[id]
    requires vertex == Vertex(At(Intern(s, id), Intern(s, id).ids[id]).adapters + [SupermucAdapter(name)], name, c)
    requires copy == Vertex(At(Intern(t, id), Intern(t, id).ids[id]).adapters + [SupermucAdapter(name)], name, c)
    requires s'.vertices == Intern(s, id).vertices[Intern(s, id).ids[id] := vertex]
    requires t'.vertices == Intern(t, id).vertices[Intern(t, id).ids[id] := copy]
    ensures Copies(t0, s', t', at')
  {
    var v, w := Intern(s, id).ids[id], Intern(t, id).ids[id];
    NamedCopy(t0, s, t, at, id, name, c, vertex, copy, v, w);
    forall i: nat | i < |at'| && i != v
      ensures at'[i] < |t'.vertices| && IsCopy(At(t0, at'[i]), s'.vertices[i], t'.vertices[at'[i]])
    {
      assert i < |at|;
      assert IsCopy(At(t0, at[i]), s.vertices[i], t.vertices[at[i]]);
      OtherCopy(s, t, at, id, i);
    }
    forall x | 0 <= x < |t0.vertices| && x < |t'.vertices| && x !in at'
      ensures t'.vertices[x] == t0.vertices[x]
    {
      assert at'[v] == w && x != w;
      InPrefix(at, at', x);
    }
  }

  /** The vertex that `id` names. */
  lemma NamedCopy(t0: Snapshot, s: Snapshot, t: Snapshot, at: seq<nat>, id: string, name: string, c: Component,
                  vertex: Vertex, copy: Vertex, v: nat, w: nat)
    requires Valid(t0) && NamesMatch(s, t, at) && Copies(t0, s, t, at) && |t0.vertices| <= |t.vertices|
    requires (forall x :: |t0.vertices| <= x < |t.vertices| ==> x in at)
    requires v == Intern(s, id).ids[id] && w == Intern(t, id).ids[id]
    requires v < |Intern(s, id).vertices| && w < |Intern(t, id).vertices|
    requires if v < |at| then w == at[v] else id !in s.ids
    requires vertex == Vertex(At(Intern(s, id), v).adapters + [SupermucAdapter(name)], name, c)
    requires copy == Vertex(At(Intern(t, id), w).adapters + [SupermucAdapter(name)], name, c)
    ensures IsCopy(At(t0, w), vertex, copy)
  {
    if v < |at| {
      assert IsCopy(At(t0, at[v]), s.vertices[v], t.vertices[at[v]]);
      assert s.vertices[v].adapters + [SupermucAdapter(name)] == vertex.adapters;
    } else if w < |t.vertices| {
      forall j: nat | j < |at|
        ensures at[j] != w
      {
        NotYetCopied(s, t, at, id, j);
      }
      assert w !in at && t.vertices[w] == t0.vertices[w];
    }
  }

  lemma OtherCopy(s: Snapshot, t: Snapshot, at: seq<nat>, id: string, i: nat)
    requires NamesMatch(s, t, at) && i < |at| && i != Intern(s, id).ids[id]
    ensures at[i] != Intern(t, id).ids[id]
  {
    if id in s.ids {
      if at[i] == at[s.ids[id]] {
        AtIsInjective(s, t, at, i, s.ids[id]);
      }
    } else if id in t.ids {
      NotYetCopied(s, t, at, id, i);
    }
  }

  // ---- links

  /** An edge between copies is found exactly when the edge between their originals is, since the parent is new. */
  lemma SameEdgeFound(t0: Snapshot, s: Snapshot, t: Snapshot, at: seq<nat>, u: nat, v: nat)
    requires Valid(t0) && NamesMatch(s, t, at) && EdgesMatch(t0, s, t, at) && u < |at| && v < |at|
    requires |t0.vertices| <= at[u]
    ensures HasEdge(t.edges, at[u], at[v]) <==> HasEdge(s.edges, u, v)
  {
    var n := |t0.edges|;
    if HasEdge(s.edges, u, v) {
      var i :| 0 <= i < |s.edges| && s.edges[i].source == u && s.edges[i].target == v;
      assert t.edges[n + i] == Image(s.edges, at)[i];
    }
    if i :| 0 <= i < |t.edges| && t.edges[i].source == at[u] && t.edges[i].target == at[v] {
      OnlyNewEdges(t0, s, t, at, u, i);
      EdgeOfCopies(s, t, at, u, v, i - n);
    }
  }

  lemma OnlyNewEdges(t0: Snapshot, s: Snapshot, t: Snapshot, at: seq<nat>, u: nat, i: nat)
    requires Valid(t0) && EdgesMatch(t0, s, t, at) && u < |at| && |t0.vertices| <= at[u]
    requires i < |t.edges| && t.edges[i].source == at[u]
    ensures |t0.edges| <= i && t.edges[i] == Image(s.edges, at)[i - |t0.edges|]
  {
    assert forall k :: 0 <= k < |t0.edges| ==> t0.edges[k] in t0.edges && t.edges[k] == t0.edges[k];
  }

  lemma EdgeOfCopies(s: Snapshot, t: Snapshot, at: seq<nat>, u: nat, v: nat, i: nat)
    requires NamesMatch(s, t, at) && u < |at| && v < |at| && i < |s.edges|
    requires forall e :: e in s.edges ==> e.source < |at| && e.target < |at|
    requires Image(s.edges, at)[i].source == at[u] && Image(s.edges, at)[i].target == at[v]
    ensures HasEdge(s.edges, u, v)
  {
    var e := s.edges[i];
    assert e in s.edges;
    AtIsInjective(s, t, at, e.source, u);
    AtIsInjective(s, t, at, e.target, v);
  }

  lemma ImageOfLink(es: seq<Edge>, at: seq<nat>, u: nat, v: nat, before: seq<Edge>)
    requires (forall e :: e in es ==> e.source < |at| && e.target < |at|) && u < |at| && v < |at|
    ensures forall e :: e in es + ParentChild(u, v) ==> e.source < |at| && e.target < |at|
    ensures before + Image(es + ParentChild(u, v), at) == before + Image(es, at) + ParentChild(at[u], at[v])
  {
    assert forall e :: e in es + ParentChild(u, v) ==> e in es || e in ParentChild(u, v);
    assert Image(es + ParentChild(u, v), at) == Image(es, at) + ParentChild(at[u], at[v]);
  }

  /** The link between the vertices that two names have in `names`. */
  ghost function LinkIds(t: Snapshot, names: Snapshot, parent: string, child: string): Snapshot {
    LinkOnce(t, VertexOf(names, parent), VertexOf(names, child))
  }

  lemma LinkEmbeds(t0: Snapshot, s: Snapshot, t: Snapshot, at: seq<nat>, system: string -> bool, parent: string,
                   child: string)
    requires Embeds(t0, s, t, at, system) && Valid(t0)
    requires parent in s.ids && child in s.ids && system(parent)
    ensures var s' := LinkIds(s, s, parent, child);
            Embeds(t0, s', LinkIds(t, t, parent, child), at, system) && s'.ids == s.ids
  {
    var u, v := s.ids[parent], s.ids[child];
    SameEdgeFound(t0, s, t, at, u, v);
    LinkOnceFrame(s, u, v);
    LinkOnceFrame(t, at[u], at[v]);
    ImageOfLink(s.edges, at, u, v, t0.edges);
    NamesAfterPut(s, t, at, LinkOnce(s, u, v), LinkOnce(t, at[u], at[v]));
  }

  // ---- hosts

  /** No network component has a vertex yet: no SuperMUC step has run. */
  ghost predicate NoSystem(t: Snapshot) {
    forall id :: id in t.ids ==> KindOf(id) != SystemKind
  }

  lemma NodesEmbed(t0: Snapshot, s: Snapshot, t: Snapshot, at: seq<nat>, system: string -> bool,
                   id1: string, id2: string, id3: string, id4: string,
                   name1: string, name2: string, name3: string, name4: string) returns (at': seq<nat>)
    requires Embeds(t0, s, t, at, system) && Valid(t0)
    requires forall id :: id in t0.ids ==> !system(id)
    ensures var s' := AddNodes(s, id1, id2, id3, id4, name1, name2, name3, name4);
            var t' := AddNodes(t, id1, id2, id3, id4, name1, name2, name3, name4);
            Embeds(t0, s', t', at', system) && {id1, id2, id3, id4} <= s'.ids.Keys
  {
    var (s1, t1) := (AddNode(s, id1, name1, Node), AddNode(t, id1, name1, Node));
    var (s2, t2) := (AddNode(s1, id2, name2, Misc), AddNode(t1, id2, name2, Misc));
    at' := TwoEmbed(t0, s, t, at, system, id1, name1, Node, id2, name2, Misc);
    at' := TwoEmbed(t0, s2, t2, at', system, id3, name3, Misc, id4, name4, Misc);
  }

  lemma TwoEmbed(t0: Snapshot, s: Snapshot, t: Snapshot, at: seq<nat>, system: string -> bool,
                 id1: string, name1: string, c1: Component, id2: string, name2: string, c2: Component)
    returns (at': seq<nat>)
    requires Embeds(t0, s, t, at, system) && Valid(t0)
    requires forall id :: id in t0.ids ==> !system(id)
    ensures var s' := AddNode(AddNode(s, id1, name1, c1), id2, name2, c2);
            var t' := AddNode(AddNode(t, id1, name1, c1), id2, name2, c2);
            Embeds(t0, s', t', at', system) && s.ids.Keys + {id1, id2} <= s'.ids.Keys
  {
    var (s1, t1) := (AddNode(s, id1, name1, c1), AddNode(t, id1, name1, c1));
    var at1 := NodeEmbeds(t0, s, t, at, system, id1, name1, c1);
    at' := NodeEmbeds(t0, s1, t1, at1, system, id2, name2, c2);
    MoreKeys(s.ids.Keys, s1.ids.Keys, AddNode(s1, id2, name2, c2).ids.Keys, id1, id2);
  }

  lemma MoreKeys(a: set<string>, b: set<string>, c: set<string>, id1: string, id2: string)
    requires a + {id1} <= b && b + {id2} <= c
    ensures a + {id1, id2} <= c
  {
  }

  lemma LinksEmbed(t0: Snapshot, s: Snapshot, t: Snapshot, at: seq<nat>, system: string -> bool,
                   slot: string, column: string, rack: string, island: string)
    requires Embeds(t0, s, t, at, system) && Valid(t0) && {slot, column, rack, island} <= s.ids.Keys
    requires system(column) && system(rack) && system(island)
    ensures Embeds(t0, LinkNodes(s, slot, column, rack, island), LinkNodes(t, slot, column, rack, island), at, system)
  {
    var (s1, t1) := (LinkIds(s, s, island, rack), LinkIds(t, t, island, rack));
    var (s2, t2) := (LinkIds(s1, s, rack, column), LinkIds(t1, t, rack, column));
    LinkEmbeds(t0, s, t, at, system, island, rack);
    LinkEmbeds(t0, s1, t1, at, system, rack, column);
    LinkEmbeds(t0, s2, t2, at, system, column, slot);
  }

  lemma HostEmbeds(t0: Snapshot, s: Snapshot, t: Snapshot, at: seq<nat>, system: string -> bool, name: string)
    returns (at': seq<nat>)
    requires Embeds(t0, s, t, at, system) && Valid(t0)
    requires forall id :: id in t0.ids ==> !system(id)
    requires forall part :: system(SystemId(part))
    ensures Embeds(t0, AddHost(s, name), AddHost(t, name), at', system)
  {
    var (column, rack, island) := (Take(name, 9), Take(name, 6), Take(name, 3));
    at' := NodesEmbed(t0, s, t, at, system, MachineId(name), SystemId(column), SystemId(rack), SystemId(island),
                      name, column, rack, island);
    var (slotId, columnId, rackId, islandId) := (MachineId(name), SystemId(column), SystemId(rack), SystemId(island));
    var nodes := AddNodes(s, slotId, columnId, rackId, islandId, name, column, rack, island);
    var nodes' := AddNodes(t, slotId, columnId, rackId, islandId, name, column, rack, island);
    LinksEmbed(t0, nodes, nodes', at', system, MachineId(name), SystemId(column), SystemId(rack), SystemId(island));
  }

  lemma {:induction false} HostsEmbed(t0: Snapshot, names: seq<string>, system: string -> bool) returns (at: seq<nat>)
    requires Valid(t0)
    requires forall id :: id in t0.ids ==> !system(id)
    requires forall part :: system(SystemId(part))
    ensures Embeds(t0, AddHosts(EMPTY, names), AddHosts(t0, names), at, system)
  {
    if names == [] {
      at := [];
      assert t0.edges + [] == t0.edges;
    } else {
      at := HostsEmbed(t0, names[..|names| - 1], system);
      at := HostEmbeds(t0, AddHosts(EMPTY, names[..|names| - 1]), AddHosts(t0, names[..|names| - 1]), at, system,
                       names[|names| - 1]);
    }
  }

  /** On any graph without network components, whatever else is in it: the step adds a copy of the trie of its names.
      `at` gives each trie vertex the vertex of the same name; a slot's is the machine that was there, if there was
      one, and keeps its adapters in front; the edges are added behind those there were; nothing else changes. */
  lemma StepAddsTrie(t0: Snapshot, names: seq<string>) returns (trie: Snapshot, at: seq<nat>)
    requires Valid(t0) && NoSystem(t0) && forall h :: h in names ==> |h| == 12
    ensures trie == AddHosts(EMPTY, names)
    ensures VerticesArePrefixes(trie, names) && EdgesAreLinks(trie, names) && AdaptersAreCounted(trie, names)
    ensures Embeds(t0, trie, AddHosts(t0, names), at, id => KindOf(id) == SystemKind)
  {
    trie := AddHosts(EMPTY, names);
    SupermucIsTrie(names);
    SystemNames();
    at := HostsEmbed(t0, names, id => KindOf(id) == SystemKind);
  }

  lemma SystemNames()
    ensures forall part :: KindOf(SystemId(part)) == SystemKind
  {
    forall part
      ensures KindOf(SystemId(part)) == SystemKind
    {
      IdKinds("", part, 0, 0);
    }
  }

  lemma SameSharing(s: Snapshot, t: Snapshot, at: seq<nat>, id1: string, id2: string)
    requires NamesMatch(s, t, at) && id1 in s.ids && id2 in s.ids
    ensures VertexOf(t, id1) == VertexOf(t, id2) <==> VertexOf(s, id1) == VertexOf(s, id2)
  {
    if VertexOf(t, id1) == VertexOf(t, id2) {
      AtIsInjective(s, t, at, s.ids[id1], s.ids[id2]);
    }
  }

  lemma SharedPrefixes(names: seq<string>, trie: Snapshot, t: Snapshot, at: seq<nat>, p: string, q: string)
    requires VerticesArePrefixes(trie, names) && NamesMatch(trie, t, at)
    requires Present(names, p) && Present(names, q)
    ensures V(t, p) == V(t, q) <==> p == q
  {
    DistinctVertices(trie, names, p, q);
    SameSharing(trie, t, at, PrefixId(p), PrefixId(q));
  }

  lemma SharedCuts(names: seq<string>, trie: Snapshot, t: Snapshot, at: seq<nat>, h1: string, h2: string, n: nat)
    requires h1 in names && h2 in names && |h1| == |h2| == 12 && IsLevel(n)
    requires VerticesArePrefixes(trie, names) && NamesMatch(trie, t, at)
    ensures V(t, h1[..n]) == V(t, h2[..n]) <==> h1[..n] == h2[..n]
  {
    CutIsPresent(names, h1, n);
    CutIsPresent(names, h2, n);
    SharedPrefixes(names, trie, t, at, h1[..n], h2[..n]);
  }

  /** The names of an exchange have passed the checks: hosts share vertices as they do in the trie, whatever other
      modules have built before. */
  lemma HostsShareCopies(t0: Snapshot, names: seq<string>, h1: string, h2: string)
    requires Valid(t0) && NoSystem(t0) && AllAccepted(names) && h1 in names && h2 in names
    ensures VerticesAreParts(AddHosts(t0, names), h1, h2)
  {
    var trie, at := StepAddsTrie(t0, names);
    SharedCuts(names, trie, AddHosts(t0, names), at, h1, h2, 3);
    SharedCuts(names, trie, AddHosts(t0, names), at, h1, h2, 6);
    SharedCuts(names, trie, AddHosts(t0, names), at, h1, h2, 9);
    SharedParts(AddHosts(t0, names), h1, h2);
  }

  // ---- distances between copies

  lemma {:induction false} ImagePath(es: seq<Edge>, at: seq<nat>, more: seq<Edge>, u: nat, p: seq<Edge>, v: nat)
    returns (q: seq<Edge>)
    requires forall e :: e in es ==> e.source < |at| && e.target < |at|
    requires forall e :: e in Image(es, at) ==> e in more
    requires u < |at| && v < |at| && IsPath(es, u, p, v)
    ensures IsPath(more, at[u], q, at[v]) && |q| == |p|
  {
    if p == [] {
      q := [];
    } else {
      var e := p[|p| - 1];
      var rest := ImagePath(es, at, more, u, p[..|p| - 1], e.source);
      var i :| 0 <= i < |es| && es[i] == e;
      assert Image(es, at)[i] in Image(es, at);
      q := rest + [Image(es, at)[i]];
      assert q[..|q| - 1] == rest;
    }
  }

  /** Hosts are at most as far apart as in the trie alone; other modules' edges can only bring them closer. */
  lemma NoFartherThanInTrie(t0: Snapshot, s: Snapshot, t: Snapshot, at: seq<nat>, system: string -> bool,
                            u: nat, v: nat)
    requires Embeds(t0, s, t, at, system) && u < |at| && v < |at| && Reachable(s.edges, u, v)
    ensures Reachable(t.edges, at[u], at[v])
    ensures HopDistance(t.edges, at[u], at[v]) <= HopDistance(s.edges, u, v)
  {
    DistanceIsAttained(s.edges, u, v);
    var p :| IsShortest(s.edges, u, p, v) && |p| == HopDistance(s.edges, u, v);
    var q := ImagePath(s.edges, at, t.edges, u, p, v);
    DistanceIsAttained(t.edges, at[u], at[v]);
  }
}
