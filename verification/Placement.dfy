/** Placement stability: the rank loop changes the graph while it queries it, but no rank's place depends on the
    ranks placed before. */
module Placement {
  import opened Affinity
  import opened Descent
  import opened Identity
  import opened Invariants
  import opened Mpi
  import opened Options
  import P = Properties
  import opened Sorting
  import opened Topology

  /** `t` extends `t0`: vertices and names stay, and every new CHILD edge leads to a rank. */
  ghost predicate Grown(t0: Snapshot, t: Snapshot) {
    && |t0.vertices| <= |t.vertices| && t.root == t0.root && t0.edges <= t.edges
    && (forall v :: 0 <= v < |t0.vertices| ==> t.vertices[v] == t0.vertices[v])
    && (forall i :: |t0.edges| <= i < |t.edges| && t.edges[i].edgeType == CHILD ==> IsRank(t, t.edges[i].target))
    && (forall id :: id in t0.ids ==> id in t.ids && t.ids[id] == t0.ids[id])
    && (forall id :: id in t.ids && t.ids[id] < |t0.vertices| ==> id in t0.ids)
  }

  lemma GrownTransitive(t0: Snapshot, t1: Snapshot, t2: Snapshot)
    requires Grown(t0, t1) && Grown(t1, t2) && Valid(t1)
    ensures Grown(t0, t2)
  {
    forall i | |t0.edges| <= i < |t2.edges| && t2.edges[i].edgeType == CHILD
      ensures IsRank(t2, t2.edges[i].target)
    {
      if i < |t1.edges| {
        assert t2.edges[i] == t1.edges[i] && t1.edges[i] in t1.edges;
      }
    }
  }

  lemma {:induction false} OldCandidates(t0: Snapshot, t: Snapshot, es: seq<Edge>, mask: AffinityMask, v: nat)
    requires Grown(t0, t) && forall e :: e in es ==> e.target < |t0.vertices|
    ensures Candidates(t, es, mask, v) == Candidates(t0, es, mask, v)
  {
    if es != [] {
      OldCandidates(t0, t, es[..|es| - 1], mask, v);
      assert es[|es| - 1] in es;
    }
  }

  lemma {:induction false} NoNewCandidates(t0: Snapshot, t: Snapshot, k: nat, mask: AffinityMask, v: nat)
    requires Grown(t0, t) && |t0.edges| <= k <= |t.edges|
    ensures Candidates(t, t.edges[..k], mask, v) == Candidates(t, t0.edges, mask, v)
  {
    if k == |t0.edges| {
      assert t.edges[..k] == t0.edges;
    } else {
      NoNewCandidates(t0, t, k - 1, mask, v);
      assert t.edges[..k][..k - 1] == t.edges[..k - 1];
    }
  }

  lemma SameCandidates(t0: Snapshot, t: Snapshot, mask: AffinityMask, v: nat)
    requires Valid(t0) && Grown(t0, t)
    ensures Candidates(t, t.edges, mask, v) == Candidates(t0, t0.edges, mask, v)
  {
    assert t.edges[..|t.edges|] == t.edges;
    NoNewCandidates(t0, t, |t.edges|, mask, v);
    OldCandidates(t0, t, t0.edges, mask, v);
  }

  lemma SameBest(t0: Snapshot, t: Snapshot, order: SortOrder, candidates: seq<nat>)
    requires Grown(t0, t) && Sorts(order) && candidates != []
    requires forall c :: c in candidates ==> c < |t0.vertices|
    ensures Best(t, order, candidates) == Best(t0, order, candidates)
  {
    forall i | 0 <= i < |candidates|
      ensures CountOf(t, candidates[i]) == CountOf(t0, candidates[i])
    {
      assert candidates[i] in candidates;
    }
    assert Counts(t, candidates) == Counts(t0, candidates);
  }

  /** The descent does not see what the loop has added. */
  lemma {:induction false} SameDescent(t0: Snapshot, t: Snapshot, order: SortOrder, mask: AffinityMask, v: nat)
    requires Valid(t0) && Grown(t0, t) && Ascending(t0) && Ascending(t) && Sorts(order)
    ensures Descend(t, order, mask, v) == Descend(t0, order, mask, v)
    decreases if Masked(t0, v) then |t0.vertices| - v else |t0.vertices| + 1
  {
    var candidates := Candidates(t0, t0.edges, mask, v);
    SameCandidates(t0, t, mask, v);
    if candidates != [] {
      var w := Best(t0, order, candidates);
      forall c | c in candidates
        ensures c < |t0.vertices|
      {
        CandidatesAreHolders(t0, t0.edges, mask, v, c);
        assert Edge(v, c, CHILD).target < |t0.vertices|;
      }
      SameBest(t0, t, order, candidates);
      CandidatesAreHolders(t0, t0.edges, mask, v, w);
      assert Edge(v, w, CHILD).source == v;
      SameDescent(t0, t, order, mask, w);
    }
  }

  /** No rank from number n on has a vertex yet. */
  ghost predicate RanksFresh(t: Snapshot, n: nat) {
    forall j: nat :: n <= j ==> RankId(j) !in t.ids
  }

  lemma SetUpGrows(t: Snapshot, env: Local, i: nat, r: Rank)
    requires Inv(t) && RanksFresh(t, i)
    ensures var s := SetUpRank(t, env, i, r); Grown(t, s) && RanksFresh(s, i + 1)
  {
    SetUpRankKeeps(t, env, i, r);
    var s := SetUpRank(t, env, i, r);
    IdKinds(r.hostname, "", i, 0);
    assert MachineId(r.hostname) != RankId(i);
    assert s.ids[RankId(i)] >= |t.vertices|;
    forall j: nat | i + 1 <= j
      ensures RankId(j) !in s.ids
    {
      IdKinds(r.hostname, "", j, 0);
      IdsInjective("", "", "", "", i, j, 0, 0);
      assert RankId(j) !in t.ids;
    }
  }

  /** The vertex of a fresh rank carries nothing but its own adapter. */
  lemma SetUpVertex(t: Snapshot, env: Local, i: nat, r: Rank)
    requires Inv(t) && RankId(i) !in t.ids
    ensures var s := SetUpRank(t, env, i, r);
            RankId(i) in s.ids && At(s, s.ids[RankId(i)]) == RankVertex(BLANK_VERTEX, i, LocalMask(env, r))
  {
    IdKinds(r.hostname, "", i, 0);
    InternValid(t, MachineId(r.hostname));
  }

  /** What a rank's vertex answers: its number always, a mask exactly if it is local and has an online cpu. */
  lemma RankAnswers(i: nat, mask: AffinityMask)
    ensures var adapters := RankVertex(BLANK_VERTEX, i, mask).adapters;
            && |adapters| == 1 && adapters[0].text == Decimal(i)
            && P.Lookup(adapters, P.MpiRank, P.TypeU64) == Some(P.U64(i))
            && P.CpuMask(adapters) == if mask == {} then None else Some(mask)
  {
    var a := MpiAdapter(i, if mask == {} then None else Some(mask));
    assert RankVertex(BLANK_VERTEX, i, mask).adapters == [a];
    P.CpuMaskAppend([], a);
    assert [] + [a] == [a];
  }

  lemma LinkGrows(t: Snapshot, s: Snapshot, place: nat, proc: nat)
    requires Grown(t, s) && s.edges == t.edges && IsRank(s, proc)
    ensures Grown(t, AddEdges(s, ParentChild(place, proc)))
  {
  }

  /** Rank i, with the graph the loop started from: its place and its two edges. */
  lemma RankPlaced(t0: Snapshot, t: Snapshot, env: Local, i: nat, r: Rank)
    requires Inv(t0) && Inv(t) && Sorts(env.order) && Grown(t0, t) && RanksFresh(t, i)
    requires Ascending(t0)
    ensures var t' := AddRank(t, env, i, r);
            && Grown(t, t') && RanksFresh(t', i + 1) && MachineId(r.hostname) in t'.ids && RankId(i) in t'.ids
            && t'.edges == t.edges + ParentChild(PlaceOf(t0, t'.ids[MachineId(r.hostname)], env, r), t'.ids[RankId(i)])
            && At(t', t'.ids[RankId(i)]) == RankVertex(BLANK_VERTEX, i, LocalMask(env, r))
  {
    SetUpRankKeeps(t, env, i, r);
    SetUpVertex(t, env, i, r);
    SetUpGrows(t, env, i, r);
    var s := SetUpRank(t, env, i, r);
    GrownTransitive(t0, t, s);
    SameDescent(t0, s, env.order, LocalMask(env, r), t0.root);
    assert Place(s, env, r) == PlaceOf(t0, s.ids[MachineId(r.hostname)], env, r);
    LinkGrows(t, s, Place(s, env, r), s.ids[RankId(i)]);
  }

  /** The place of a rank, computed on the graph `t0`; `node` is the vertex of its machine. */
  ghost function PlaceOf(t0: Snapshot, node: nat, env: Local, r: Rank): nat
    requires Ascending(t0) && Sorts(env.order)
  {
    if LocalMask(env, r) == {} then node else Descend(t0, env.order, LocalMask(env, r), t0.root)
  }

  /** The two edges of rank i. */
  ghost predicate HangsAt(t: Snapshot, t0: Snapshot, env: Local, i: nat, r: Rank)
    requires Ascending(t0) && Sorts(env.order)
  {
    && MachineId(r.hostname) in t.ids && RankId(i) in t.ids && |t.edges| >= |t0.edges| + 2 * i + 2
    && At(t, t.ids[RankId(i)]) == RankVertex(BLANK_VERTEX, i, LocalMask(env, r))
    && var place := PlaceOf(t0, t.ids[MachineId(r.hostname)], env, r);
       && t.edges[|t0.edges| + 2 * i] == Edge(place, t.ids[RankId(i)], CHILD)
       && t.edges[|t0.edges| + 2 * i + 1] == Edge(t.ids[RankId(i)], place, PARENT)
  }

  /** Every rank has a vertex of its own and is hung, by one CHILD and one PARENT edge and in rank order, where the
      graph before the loop would have put it; no other edge is added. */
  ghost predicate Placed(t0: Snapshot, t: Snapshot, env: Local, ranks: seq<Rank>)
    requires Ascending(t0) && Sorts(env.order)
  {
    && |t.edges| == |t0.edges| + 2 * |ranks|
    && forall i :: 0 <= i < |ranks| ==> HangsAt(t, t0, env, i, ranks[i])
  }

  /** On any graph that satisfies the run invariants and on which no rank has a vertex yet. */
  lemma {:induction false} PlacementIsStable(t0: Snapshot, env: Local, ranks: seq<Rank>)
    requires Inv(t0) && Sorts(env.order) && RanksFresh(t0, 0)
    ensures Ascending(t0)
    ensures var t := AddRanks(t0, env, ranks); Placed(t0, t, env, ranks) && Grown(t0, t) && RanksFresh(t, |ranks|)
  {
    InvMeansAscending(t0);
    if ranks != [] {
      var n := |ranks| - 1;
      PlacementIsStable(t0, env, ranks[..n]);
      OneMorePlaced(t0, AddRanks(t0, env, ranks[..n]), env, ranks);
    }
  }

  lemma OneMorePlaced(t0: Snapshot, earlier: Snapshot, env: Local, ranks: seq<Rank>)
    requires Inv(t0) && Inv(earlier) && Sorts(env.order) && Ascending(t0) && ranks != []
    requires var n := |ranks| - 1;
             Placed(t0, earlier, env, ranks[..n]) && Grown(t0, earlier) && RanksFresh(earlier, n)
    ensures var t := AddRank(earlier, env, |ranks| - 1, ranks[|ranks| - 1]);
            Placed(t0, t, env, ranks) && Grown(t0, t) && RanksFresh(t, |ranks|)
  {
    var n := |ranks| - 1;
    RankPlaced(t0, earlier, env, n, ranks[n]);
    var t := AddRank(earlier, env, n, ranks[n]);
    GrownTransitive(t0, earlier, t);
    PlacedLast(t0, earlier, t, env, ranks);
  }

  lemma StillHangs(t0: Snapshot, earlier: Snapshot, t: Snapshot, env: Local, i: nat, r: Rank)
    requires Ascending(t0) && Sorts(env.order) && HangsAt(earlier, t0, env, i, r) && Valid(earlier) && Grown(earlier, t)
    ensures HangsAt(t, t0, env, i, r)
  {
  }

  lemma PlacedLast(t0: Snapshot, earlier: Snapshot, t: Snapshot, env: Local, ranks: seq<Rank>)
    requires Ascending(t0) && Sorts(env.order) && ranks != []
    requires Placed(t0, earlier, env, ranks[..|ranks| - 1]) && Grown(earlier, t) && Valid(earlier)
    requires |t.edges| == |earlier.edges| + 2 && HangsAt(t, t0, env, |ranks| - 1, ranks[|ranks| - 1])
    ensures Placed(t0, t, env, ranks)
  {
    var n := |ranks| - 1;
    forall i | 0 <= i < n
      ensures HangsAt(t, t0, env, i, ranks[i])
    {
      assert ranks[..n][i] == ranks[i];
      StillHangs(t0, earlier, t, env, i, ranks[i]);
    }
  }

  // ---- what has become of a rank

  /** The rank runs on the own node and may use some cpu that is online. */
  ghost predicate HasCpuHere(env: Local, r: Rank) {
    r.hostname == env.hostname && exists cpu :: cpu in r.cpus && cpu < env.nprocs
  }

  /** Of the ranks, exactly those with an online cpu on the own node have a mask, of these cpus. */
  ghost predicate MaskIsRight(mask: Option<AffinityMask>, env: Local, r: Rank) {
    && (mask.Some? <==> HasCpuHere(env, r))
    && (mask.Some? ==> forall cpu :: cpu in mask.value <==> cpu in r.cpus && cpu < env.nprocs)
  }

  /** Rank i has a vertex of its type, without description and with one adapter, which shows and answers its number
      and answers its mask. A rank without mask hangs under its machine, one with a mask where the descent on the
      graph before the loop ends. */
  ghost predicate IsSettled(t0: Snapshot, t: Snapshot, env: Local, i: nat, r: Rank)
    requires Ascending(t0) && Sorts(env.order)
  {
    && MachineId(r.hostname) in t.ids && RankId(i) in t.ids
    && var v := t.ids[RankId(i)];
    && IsRank(t, v) && t.vertices[v].description == ""
    && |t.vertices[v].adapters| == 1 && t.vertices[v].adapters[0].text == Decimal(i)
    && P.Lookup(t.vertices[v].adapters, P.MpiRank, P.TypeU64) == Some(P.U64(i))
    && MaskIsRight(MaskOf(t, v), env, r)
    && var place := match MaskOf(t, v)
                    case Some(mask) => Descend(t0, env.order, mask, t0.root)
                    case None => t.ids[MachineId(r.hostname)];
    && Edge(place, v, CHILD) in t.edges && Edge(v, place, PARENT) in t.edges
  }

  /** Nothing else is above the vertex that `id` names. */
  ghost predicate HasOneParent(t: Snapshot, id: string) {
    id in t.ids ==> forall e, e' ::
      (e in t.edges && e' in t.edges && e.edgeType == e'.edgeType == CHILD && e.target == e'.target == t.ids[id])
      ==> e.source == e'.source
  }

  lemma MaskOfRank(env: Local, r: Rank)
    ensures MaskIsRight(if LocalMask(env, r) == {} then None else Some(LocalMask(env, r)), env, r)
  {
    if HasCpuHere(env, r) {
      var cpu :| cpu in r.cpus && cpu < env.nprocs;
      assert cpu in LocalMask(env, r);
    }
    if LocalMask(env, r) != {} {
      var cpu :| cpu in LocalMask(env, r);
      assert cpu in r.cpus && cpu < env.nprocs;
    }
  }

  /** A CHILD edge that the loop has added. */
  lemma EdgeOfRank(t0: Snapshot, t: Snapshot, env: Local, ranks: seq<Rank>, h: nat) returns (j: nat)
    requires Ascending(t0) && Sorts(env.order) && Placed(t0, t, env, ranks)
    requires |t0.edges| <= h < |t.edges| && t.edges[h].edgeType == CHILD
    ensures j < |ranks| && h == |t0.edges| + 2 * j && RankId(j) in t.ids && t.edges[h].target == t.ids[RankId(j)]
  {
    j := (h - |t0.edges|) / 2;
    assert HangsAt(t, t0, env, j, ranks[j]);
    assert h == |t0.edges| + 2 * j || h == |t0.edges| + 2 * j + 1;
  }

  /** A rank's only parent. */
  lemma OneParent(t0: Snapshot, t: Snapshot, env: Local, ranks: seq<Rank>, i: nat, e: Edge)
    requires Ascending(t0) && Sorts(env.order) && Valid(t0) && Valid(t) && Placed(t0, t, env, ranks) && Grown(t0, t)
    requires RanksFresh(t0, 0) && i < |ranks| && RankId(i) in t.ids
    requires e in t.edges && e.edgeType == CHILD && e.target == t.ids[RankId(i)]
    ensures e == t.edges[|t0.edges| + 2 * i]
  {
    var h: nat :| h < |t.edges| && t.edges[h] == e;
    OldTarget(t0, t, h);
    var j := EdgeOfRank(t0, t, env, ranks, h);
    IdsInjective("", "", "", "", i, j, 0, 0);
  }

  lemma OldTarget(t0: Snapshot, t: Snapshot, h: nat)
    requires Valid(t0) && Grown(t0, t) && h < |t.edges|
    ensures h < |t0.edges| ==> t.edges[h].target < |t0.vertices|
  {
    if h < |t0.edges| {
      assert t0.edges[h] in t0.edges;
    }
  }

  /** The rank loop, on any graph that satisfies the run invariants and on which no rank has a vertex yet. */
  lemma RanksAreSettled(t0: Snapshot, env: Local, ranks: seq<Rank>, i: nat)
    requires Inv(t0) && Sorts(env.order) && RanksFresh(t0, 0) && i < |ranks|
    ensures Ascending(t0) && IsSettled(t0, AddRanks(t0, env, ranks), env, i, ranks[i])
    ensures HasOneParent(AddRanks(t0, env, ranks), RankId(i))
  {
    var t := AddRanks(t0, env, ranks);
    var r := ranks[i];
    InvMeansAscending(t0);
    PlacementIsStable(t0, env, ranks);
    assert HangsAt(t, t0, env, i, r);
    RankAnswers(i, LocalMask(env, r));
    MaskOfRank(env, r);
    forall e | e in t.edges && e.edgeType == CHILD && e.target == t.ids[RankId(i)]
      ensures e == t.edges[|t0.edges| + 2 * i]
    {
      OneParent(t0, t, env, ranks, i, e);
    }
  }

  // ---- permuting ranks, and running with others beside them

  ghost function NamesAt(t: Snapshot, v: nat): set<string> {
    set id | id in t.ids && t.ids[id] == v
  }

  lemma OldNames(t0: Snapshot, t: Snapshot, v: nat)
    requires Grown(t0, t) && v < |t0.vertices|
    ensures NamesAt(t, v) == NamesAt(t0, v)
  {
  }

  lemma NameStays(t: Snapshot, env: Local, i: nat, r: Rank, id: string)
    requires Inv(t) && Sorts(env.order) && id in t.ids
    ensures id in AddRank(t, env, i, r).ids && AddRank(t, env, i, r).ids[id] == t.ids[id]
  {
    SetUpRankKeeps(t, env, i, r);
  }

  lemma FirstName(t: Snapshot, env: Local, i: nat, r: Rank)
    requires Inv(t) && Sorts(env.order) && |t.vertices| == 0
    ensures MachineId(r.hostname) in AddRank(t, env, i, r).ids && AddRank(t, env, i, r).ids[MachineId(r.hostname)] == 0
  {
    SetUpRankKeeps(t, env, i, r);
    assert MachineId(r.hostname) !in t.ids;
  }

  lemma {:induction false} FirstNameStays(t0: Snapshot, env: Local, ranks: seq<Rank>, id: string)
    requires Inv(t0) && Sorts(env.order) && |t0.vertices| == 0 && ranks != [] && id == MachineId(ranks[0].hostname)
    ensures var t := AddRanks(t0, env, ranks); id in t.ids && t.ids[id] == 0
  {
    var n := |ranks| - 1;
    var earlier := AddRanks(t0, env, ranks[..n]);
    if n > 0 {
      FirstNameStays(t0, env, ranks[..n], id);
      NameStays(earlier, env, n, ranks[n], id);
    } else {
      FirstName(t0, env, n, ranks[n]);
    }
  }

  /** On a graph without vertices the root is the first vertex added, the machine of the first rank. */
  lemma FirstMachine(t0: Snapshot, env: Local, ranks: seq<Rank>)
    requires Inv(t0) && Sorts(env.order) && |t0.vertices| == 0 && ranks != []
    ensures NamesAt(AddRanks(t0, env, ranks), 0) == {MachineId(ranks[0].hostname)}
  {
    FirstNameStays(t0, env, ranks, MachineId(ranks[0].hostname));
    OnlyName(AddRanks(t0, env, ranks), MachineId(ranks[0].hostname));
  }

  lemma OnlyName(t: Snapshot, id: string)
    requires Valid(t) && id in t.ids
    ensures NamesAt(t, t.ids[id]) == {id}
  {
  }

  /** That vertex carries no mask. */
  lemma {:induction false} FirstIsBare(t0: Snapshot, env: Local, ranks: seq<Rank>)
    requires Inv(t0) && Sorts(env.order) && |t0.vertices| == 0 && ranks != []
    ensures var t := AddRanks(t0, env, ranks); |t.vertices| > 0 && MaskOf(t, 0) == None
  {
    var n := |ranks| - 1;
    var earlier := AddRanks(t0, env, ranks[..n]);
    if n > 0 {
      FirstIsBare(t0, env, ranks[..n]);
      PlacementIsStable(t0, env, ranks[..n]);
      SetUpGrows(earlier, env, n, ranks[n]);
    } else {
      BareMachine(t0, env, n, ranks[n]);
    }
  }

  lemma BareMachine(t: Snapshot, env: Local, i: nat, r: Rank)
    requires Inv(t) && Sorts(env.order) && |t.vertices| == 0
    ensures var t' := AddRank(t, env, i, r); |t'.vertices| > 0 && MaskOf(t', 0) == None
  {
    SetUpRankKeeps(t, env, i, r);
    IdKinds(r.hostname, "", i, 0);
    assert MachineId(r.hostname) !in t.ids && RankId(i) !in t.ids && MachineId(r.hostname) != RankId(i);
  }

  /** The same host name and cpu set lead a local rank to the same descriptor in any two runs of the loop on one
      graph. The vertex has the same names in both exactly when that graph has a root vertex or the same host comes
      first; without hwloc's root, every local rank is hung under the machine of the first rank. */
  lemma NobodyMoves(t0: Snapshot, env: Local, ranks: seq<Rank>, i: nat, others: seq<Rank>, j: nat)
    requires Inv(t0) && Sorts(env.order) && RanksFresh(t0, 0)
    requires i < |ranks| && j < |others| && ranks[i] == others[j] && LocalMask(env, ranks[i]) != {}
    ensures var (t, t') := (AddRanks(t0, env, ranks), AddRanks(t0, env, others));
            && |t0.edges| + 2 * i < |t.edges| && |t0.edges| + 2 * j < |t'.edges|
            && var v := t.edges[|t0.edges| + 2 * i].source;
            && t'.edges[|t0.edges| + 2 * j].source == v
            && (NamesAt(t, v) == NamesAt(t', v) <==>
                t0.root < |t0.vertices| || ranks[0].hostname == others[0].hostname)
  {
    InvMeansAscending(t0);
    var mask := LocalMask(env, ranks[i]);
    var v := Descend(t0, env.order, mask, t0.root);
    SourceOfRank(t0, env, ranks, i, mask);
    SourceOfRank(t0, env, others, j, mask);
    var names := NamesOfPlace(t0, env, ranks, mask);
    var names' := NamesOfPlace(t0, env, others, mask);
    NamesAgree(names, names', NamesAt(t0, v), t0.root < |t0.vertices|, ranks[0].hostname, others[0].hostname);
  }

  lemma NamesOfPlace(t0: Snapshot, env: Local, ranks: seq<Rank>, mask: AffinityMask) returns (names: set<string>)
    requires Inv(t0) && Sorts(env.order) && RanksFresh(t0, 0) && Ascending(t0) && ranks != []
    ensures var v := Descend(t0, env.order, mask, t0.root);
            && names == NamesAt(AddRanks(t0, env, ranks), v)
            && names == if t0.root < |t0.vertices| then NamesAt(t0, v) else {MachineId(ranks[0].hostname)}
  {
    names := NamesAt(AddRanks(t0, env, ranks), Descend(t0, env.order, mask, t0.root));
    if t0.root < |t0.vertices| {
      PlacementIsStable(t0, env, ranks);
      OldNames(t0, AddRanks(t0, env, ranks), Descend(t0, env.order, mask, t0.root));
    } else {
      DescentStops(t0, env.order, mask, t0.root);
      FirstMachine(t0, env, ranks);
    }
  }

  lemma NamesAgree(names: set<string>, names': set<string>, before: set<string>, rooted: bool,
                  host: string, host': string)
    requires names == if rooted then before else {MachineId(host)}
    requires names' == if rooted then before else {MachineId(host')}
    ensures names == names' <==> rooted || host == host'
  {
    IdsInjective(host, host', "", "", 0, 0, 0, 0);
    if !rooted && names == names' {
      assert MachineId(host) in names';
    }
  }

  /** The vertex under which a local rank is hung. */
  lemma SourceOfRank(t0: Snapshot, env: Local, ranks: seq<Rank>, i: nat, mask: AffinityMask)
    requires Inv(t0) && Sorts(env.order) && RanksFresh(t0, 0) && Ascending(t0)
    requires i < |ranks| && mask == LocalMask(env, ranks[i]) && mask != {}
    ensures var t := AddRanks(t0, env, ranks);
            && |t.edges| == |t0.edges| + 2 * |ranks|
            && t.edges[|t0.edges| + 2 * i].source == Descend(t0, env.order, mask, t0.root)
  {
    PlacementIsStable(t0, env, ranks);
    assert HangsAt(AddRanks(t0, env, ranks), t0, env, i, ranks[i]);
  }

  /** Where no vertex carries a mask, every local rank with an online cpu is hung under the root vertex, which does
      not contain its mask, whatever machine that is. */
  lemma WithoutMasks(t0: Snapshot, env: Local, node: nat, r: Rank)
    requires Inv(t0) && Ascending(t0) && Sorts(env.order) && LocalMask(env, r) != {}
    requires forall w: nat :: MaskOf(t0, w) == None
    ensures PlaceOf(t0, node, env, r) == t0.root && !Holds(t0, LocalMask(env, r), t0.root)
  {
    DescentStops(t0, env.order, LocalMask(env, r), t0.root);
  }
}
