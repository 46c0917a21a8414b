/** The MPI module (modules/mpi/init_graph.cc): the rank loop, which hangs every rank under its node or, on the
    local node, under the lowest vertex that contains its cpu mask. */
module Mpi {
  import opened Affinity
  import opened Components
  import opened Descent
  import opened Identity
  import opened Invariants
  import opened Options
  import P = Properties
  import opened Sorting
  import opened Topology

  /** What the ranks exchange: host name and native cpu set. */
  datatype Rank = Rank(hostname: string, cpus: set<nat>)

  /** The surroundings of the loop: own host name, number of online processors, and the sort's order. */
  datatype Local = Local(hostname: string, nprocs: nat, order: SortOrder)

  function MpiAdapter(rank: nat, mask: Option<AffinityMask>): P.Adapter {
    P.Adapter(Decimal(rank), None, None, Some(rank), mask, map[], map[])
  }

  /** The mask of a rank on the local node; empty on any other. */
  function LocalMask(env: Local, r: Rank): AffinityMask {
    if r.hostname == env.hostname then OnlinePart(r.cpus, env.nprocs) else {}
  }

  function RankVertex(vertex: Vertex, rank: nat, mask: AffinityMask): Vertex {
    Vertex(vertex.adapters + [MpiAdapter(rank, if mask == {} then None else Some(mask))],
           vertex.description, MPIProcess)
  }

  /** The graph after the vertices of rank i have been set up. */
  function SetUpRank(t: Snapshot, env: Local, i: nat, r: Rank): Snapshot {
    var named := Intern(Intern(t, MachineId(r.hostname)), RankId(i));
    var p := named.ids[RankId(i)];
    Put(named, p, RankVertex(At(named, p), i, LocalMask(env, r)))
  }

  lemma SetUpRankKeeps(t: Snapshot, env: Local, i: nat, r: Rank)
    requires Inv(t)
    ensures var s := SetUpRank(t, env, i, r);
            && Inv(s) && Ascending(s) && s.edges == t.edges && s.root == t.root < |s.vertices|
            && MachineId(r.hostname) in s.ids && RankId(i) in s.ids
            && s.ids[RankId(i)] < |s.vertices| && s.ids[MachineId(r.hostname)] < |s.vertices|
            && IsRank(s, s.ids[RankId(i)]) && NamedAs(s, s.ids[RankId(i)], RankKind)
  {
    var t1 := Intern(t, MachineId(r.hostname));
    var t2 := Intern(t1, RankId(i));
    InternKeeps(t, MachineId(r.hostname));
    InternKeeps(t1, RankId(i));
    InternValid(t, MachineId(r.hostname));
    InternValid(t1, RankId(i));
    IdKinds(r.hostname, "", i, 0);
    var p := t2.ids[RankId(i)];
    var vertex := RankVertex(At(t2, p), i, LocalMask(env, r));
    if MaskFree(t2, p) {
      OneKind(t2, p, RankKind, if NamedAs(t2, p, SystemKind) then SystemKind else BdfidKind);
    }
    PutKeeps(t2, p, vertex);
    InvMeansAscending(Put(t2, p, vertex));
    assert forall v, k :: NamedAs(Put(t2, p, vertex), v, k) == NamedAs(t2, v, k);
  }

  /** The vertex under which rank i is hung. */
  ghost function Place(s: Snapshot, env: Local, r: Rank): nat
    requires Ascending(s) && Sorts(env.order) && MachineId(r.hostname) in s.ids
  {
    if LocalMask(env, r) == {} then s.ids[MachineId(r.hostname)]
    else Descend(s, env.order, LocalMask(env, r), s.root)
  }

  ghost function AddRank(t: Snapshot, env: Local, i: nat, r: Rank): (s: Snapshot)
    requires Inv(t) && Sorts(env.order)
  {
    SetUpRankKeeps(t, env, i, r);
    var s := SetUpRank(t, env, i, r);
    AddEdges(s, ParentChild(Place(s, env, r), s.ids[RankId(i)]))
  }

  lemma AddRankKeeps(t: Snapshot, env: Local, i: nat, r: Rank)
    requires Inv(t) && Sorts(env.order)
    ensures Inv(AddRank(t, env, i, r))
    ensures Paired(t.edges) ==> Paired(AddRank(t, env, i, r).edges)
  {
    SetUpRankKeeps(t, env, i, r);
    var s := SetUpRank(t, env, i, r);
    RankEdgesAreGood(s, Place(s, env, r), s.ids[RankId(i)]);
    AddEdgesKeeps(s, ParentChild(Place(s, env, r), s.ids[RankId(i)]));
    if Paired(t.edges) {
      ParentChildKeepsPairs(s.edges, Place(s, env, r), s.ids[RankId(i)]);
    }
  }

  lemma RankEdgesAreGood(s: Snapshot, node: nat, proc: nat)
    requires Valid(s) && IsRank(s, proc) && NamedAs(s, proc, RankKind)
    ensures forall e :: e in ParentChild(node, proc) ==> GoodEdge(s, e)
  {
    if NamedAs(s, proc, MachineKind) {
      OneKind(s, proc, MachineKind, RankKind);
    }
  }

  /** The graph after the loop over `ranks`. */
  ghost function AddRanks(t: Snapshot, env: Local, ranks: seq<Rank>): (s: Snapshot)
    requires Inv(t) && Sorts(env.order)
    ensures Inv(s) && (Paired(t.edges) ==> Paired(s.edges))
  {
    if ranks == [] then t
    else
      var earlier := AddRanks(t, env, ranks[..|ranks| - 1]);
      AddRankKeeps(earlier, env, |ranks| - 1, ranks[|ranks| - 1]);
      AddRank(earlier, env, |ranks| - 1, ranks[|ranks| - 1])
  }

  lemma AddRanksStep(t: Snapshot, env: Local, ranks: seq<Rank>, i: nat)
    requires Inv(t) && Sorts(env.order) && i < |ranks|
    ensures AddRanks(t, env, ranks[..i + 1]) == AddRank(AddRanks(t, env, ranks[..i]), env, i, ranks[i])
  {
    assert ranks[..i + 1][..i] == ranks[..i];
  }

  /** make_mpi_graph, after the exchange of host names and cpu sets. */
  method MakeMpiGraph(g: Graph, env: Local, ranks: seq<Rank>)
    requires Inv(g.View()) && Sorts(env.order)
    modifies g
    ensures g.View() == AddRanks(old(g.View()), env, ranks)
  {
    ghost var built := AddRanks(g.View(), env, ranks[..0]);
    for i := 0 to |ranks|
      invariant Inv(g.View()) && g.View() == built == AddRanks(old(g.View()), env, ranks[..i])
    {
      AddRanksStep(old(g.View()), env, ranks, i);
      built := AddRanks(old(g.View()), env, ranks[..i + 1]);
      AddOneRank(g, env, i, ranks[i]);
    }
    assert ranks[..|ranks|] == ranks;
  }

  /** The body of the loop. */
  method AddOneRank(g: Graph, env: Local, i: nat, r: Rank)
    requires Inv(g.View()) && Sorts(env.order)
    modifies g
    ensures g.View() == AddRank(old(g.View()), env, i, r)
  {
    ghost var t := g.View();
    SetUpRankKeeps(t, env, i, r);
    var nodeVd, procVd, mask := SetUpOneRank(g, env, i, r);
    ghost var s := g.View();
    if mask != {} {
      nodeVd := LowestContainingVertex(g, env.order, mask);
    }
    assert nodeVd == Place(s, env, r);
    g.AddEdge(nodeVd, procVd, CHILD);
    g.AddEdge(procVd, nodeVd, PARENT);
    assert s.edges + [Edge(nodeVd, procVd, CHILD)] + [Edge(procVd, nodeVd, PARENT)]
           == s.edges + ParentChild(nodeVd, procVd);
  }

  /** Interns the node and the rank, gives the rank its type and adapter and, on the local node, its mask. */
  method SetUpOneRank(g: Graph, env: Local, i: nat, r: Rank) returns (nodeVd: nat, procVd: nat, mask: AffinityMask)
    requires Valid(g.View())
    modifies g
    ensures g.View() == SetUpRank(old(g.View()), env, i, r) && mask == LocalMask(env, r)
    ensures MachineId(r.hostname) in g.identifierMap && nodeVd == g.identifierMap[MachineId(r.hostname)]
    ensures RankId(i) in g.identifierMap && procVd == g.identifierMap[RankId(i)]
  {
    InternValid(g.View(), MachineId(r.hostname));
    InternValid(Intern(g.View(), MachineId(r.hostname)), RankId(i));
    nodeVd := g.AddNamedVertex(MachineId(r.hostname));
    procVd := g.AddNamedVertex(RankId(i));
    var before := g.vertices[procVd];
    g.SetVertex(procVd, RankVertex(before, i, {}));
    mask := {};
    if r.hostname == env.hostname {
      mask := FromCpuSet(r.cpus, env.nprocs);
      if mask != {} {
        // the adapter is shared with the vertex, which sees its mask change
        g.SetVertex(procVd, RankVertex(before, i, mask));
      }
    }
  }
}
