/** Distances and reachability on graphs that hwloc and MPI have built. */
module HwlocQueries {
  import opened Descent
  import opened Forests
  import opened Hwloc
  import HI = HwlocInvariants
  import opened HwlocTree
  import opened Identity
  import opened Invariants
  import opened Mpi
  import opened ParentArrays
  import opened Paths
  import opened Placement
  import opened Sorting
  import opened Topology

  // ---- the tree extended by ranks

  /** Any vertex but the rank itself can be the place of a rank. */
  lemma PlaceIsEarlier(s: Snapshot, env: Local, i: nat, r: Rank)
    requires Inv(s) && Ascending(s) && Sorts(env.order) && s.root < |s.vertices|
    requires MachineId(r.hostname) in s.ids && RankId(i) in s.ids && IsRank(s, s.ids[RankId(i)])
    requires s.root != s.ids[RankId(i)]
    ensures Place(s, env, r) < |s.vertices| && Place(s, env, r) != s.ids[RankId(i)]
  {
    IdKinds(r.hostname, "", i, 0);
    if LocalMask(env, r) != {} {
      var p := DescentIsMaximalChain(s, env.order, LocalMask(env, r), s.root);
    }
  }

  /** Setting up a fresh rank adds the vertex of its machine, unless it is there, and its own. */
  lemma SetUpAddsVertices(t: Snapshot, env: Local, i: nat, r: Rank)
    requires Inv(t) && RankId(i) !in t.ids
    ensures var s := SetUpRank(t, env, i, r); var known := MachineId(r.hostname) in t.ids;
            && |s.vertices| == |t.vertices| + (if known then 1 else 2)
            && RankId(i) in s.ids && s.ids[RankId(i)] == |s.vertices| - 1
  {
    IdKinds(r.hostname, "", i, 0);
    InternValid(t, MachineId(r.hostname));
  }

  /** What one rank adds: at most two vertices, and the link between its place and the last of them. */
  lemma RankAddsLink(t: Snapshot, env: Local, i: nat, r: Rank) returns (known: bool, place: nat)
    requires Inv(t) && Sorts(env.order) && t.root < |t.vertices| && RankId(i) !in t.ids
    ensures var r' := AddRank(t, env, i, r);
            && Valid(r') && |r'.vertices| == |t.vertices| + (if known then 1 else 2)
            && place < |r'.vertices| - 1 && r'.edges == t.edges + ParentChild(place, |r'.vertices| - 1)
  {
    SetUpRankKeeps(t, env, i, r);
    SetUpAddsVertices(t, env, i, r);
    AddRankKeeps(t, env, i, r);
    var s := SetUpRank(t, env, i, r);
    PlaceIsEarlier(s, env, i, r);
    known, place := MachineId(r.hostname) in t.ids, Place(s, env, r);
  }

  /** A tree graph stays one when a rank is added. */
  lemma AddRankToTree(t: Snapshot, env: Local, i: nat, r: Rank, par: seq<nat>) returns (par': seq<nat>)
    requires Inv(t) && Sorts(env.order) && t.root < |t.vertices| && RankId(i) !in t.ids && TreeGraph(t, par)
    ensures TreeGraph(AddRank(t, env, i, r), par') && par <= par'
  {
    var known, place := RankAddsLink(t, env, i, r);
    par' := GrowTree(t, par, AddRank(t, env, i, r), known, place);
  }

  lemma GrowTree(t: Snapshot, par: seq<nat>, r: Snapshot, known: bool, place: nat) returns (par': seq<nat>)
    requires TreeGraph(t, par) && Valid(r) && |r.vertices| == |t.vertices| + (if known then 1 else 2)
    requires place < |r.vertices| - 1 && r.edges == t.edges + ParentChild(place, |r.vertices| - 1)
    ensures TreeGraph(r, par') && par <= par'
  {
    if known {
      NewChild(t, par, r, place);
      par' := par + [place];
    } else {
      var middle := AddUnnamed(t);
      NewRoot(t, par, middle);
      NewChild(middle, par + [|par|], r, place);
      par' := par + [|par|] + [place];
    }
  }

  lemma {:induction false} AddRanksToTree(t: Snapshot, env: Local, ranks: seq<Rank>, par: seq<nat>)
    returns (par': seq<nat>)
    requires Inv(t) && Sorts(env.order) && t.root < |t.vertices| && RanksFresh(t, 0) && TreeGraph(t, par)
    ensures TreeGraph(AddRanks(t, env, ranks), par') && par <= par'
  {
    if ranks == [] {
      par' := par;
    } else {
      var n := |ranks| - 1;
      par' := AddRanksToTree(t, env, ranks[..n], par);
      PlacementIsStable(t, env, ranks[..n]);
      par' := AddRankToTree(AddRanks(t, env, ranks[..n]), env, n, ranks[n], par');
    }
  }

  /** The tree of one machine on the empty graph is ready for the ranks. */
  lemma MachineIsReady(hostname: string, machine: HwlocObj, t: Snapshot, slots: seq<Slot>)
    requires HI.DevicesUnmasked(machine.children)
    requires t == HwlocInit(EMPTY, hostname, machine) && NamesListed(t, hostname, slots)
    ensures Inv(t) && Paired(t.edges) && t.root < |t.vertices| && RanksFresh(t, 0)
  {
    assert multiset(EMPTY.edges) == multiset{};
    HI.HwlocInitKeeps(EMPTY, hostname, machine);
    forall j: nat
      ensures RankId(j) !in t.ids
    {
      IdKinds(hostname, "", j, 0);
      forall k | 0 <= k < |slots|
        ensures IdOf(slots[k].obj) != RankId(j)
      {
        IdKinds(hostname, "", j, Pack(slots[k].obj.address));
      }
    }
  }

  /** Any two vertices of one tree are depth(u) + depth(v) - 2 depth(lca(u, v)) hops apart; vertices of different
      trees cannot reach each other. */
  ghost predicate DistancesAreTreeDistances(es: seq<Edge>, par: seq<nat>)
    requires IsParents(par)
  {
    var f := ForestOf(par);
    forall u: nat, v: nat :: u < |par| && v < |par| ==>
      && (Reachable(es, u, v) <==> Root(f, u) == Root(f, v))
      && HopDistance(es, u, v) == (if Root(f, u) == Root(f, v) then TreeDistance(f, u, v) else 0)
  }

  lemma TreeGraphDistances(t: Snapshot, par: seq<nat>)
    requires TreeGraph(t, par)
    ensures DistancesAreTreeDistances(t.edges, par)
  {
    TreeGraphIsForest(t, par);
    forall u: nat, v: nat | u < |par| && v < |par|
      ensures Reachable(t.edges, u, v) <==> Root(ForestOf(par), u) == Root(ForestOf(par), v)
      ensures HopDistance(t.edges, u, v) ==
              (if Root(ForestOf(par), u) == Root(ForestOf(par), v) then TreeDistance(ForestOf(par), u, v) else 0)
    {
      ForestDistance(ForestOf(par), t.edges, u, v);
    }
  }

  /** Every rank hangs under its place. */
  ghost predicate RanksHang(t0: Snapshot, t: Snapshot, env: Local, ranks: seq<Rank>, par: seq<nat>)
    requires Ascending(t0) && Sorts(env.order) && IsParents(par)
  {
    forall i :: 0 <= i < |ranks| ==>
      && RankId(i) in t.ids && MachineId(ranks[i].hostname) in t.ids
      && Linked(ForestOf(par), t.ids[RankId(i)], PlaceOf(t0, t.ids[MachineId(ranks[i].hostname)], env, ranks[i]))
  }

  lemma PlacedMeansHanging(t0: Snapshot, t: Snapshot, env: Local, ranks: seq<Rank>, par: seq<nat>)
    requires Ascending(t0) && Sorts(env.order) && Placed(t0, t, env, ranks) && TreeGraph(t, par)
    ensures RanksHang(t0, t, env, ranks, par)
  {
    forall i | 0 <= i < |ranks|
      ensures RankId(i) in t.ids && MachineId(ranks[i].hostname) in t.ids
      ensures Linked(ForestOf(par), t.ids[RankId(i)], PlaceOf(t0, t.ids[MachineId(ranks[i].hostname)], env, ranks[i]))
    {
      assert HangsAt(t, t0, env, i, ranks[i]);
      var e := t.edges[|t0.edges| + 2 * i];
      assert e in t.edges && IsTreeEdge(par, e);
    }
  }

  /** The graph of one machine extended by any ranks: its vertices form a forest `par` in which the objects,
      position by position, keep their tree parents and ranks hang under their places (for ranks of other hosts:
      their machine's vertex, a root of its own); hop distances are tree distances. */
  lemma TreeAndRankDistances(hostname: string, machine: HwlocObj, env: Local, ranks: seq<Rank>)
    returns (t0: Snapshot, t: Snapshot, par: seq<nat>)
    requires DistinctDevices(TreeSlots(machine)) && HI.DevicesUnmasked(machine.children) && Sorts(env.order)
    ensures t0 == HwlocInit(EMPTY, hostname, machine) && Inv(t0) && Ascending(t0)
    ensures t == AddRanks(t0, env, ranks)
    ensures IsParents(par) && |par| == |t.vertices| && ParentsOf(TreeSlots(machine)) <= par
    ensures RanksHang(t0, t, env, ranks, par) && DistancesAreTreeDistances(t.edges, par)
  {
    var slots, root;
    t0, slots, root := FreshMachine(hostname, machine);
    MachineIsReady(hostname, machine, t0, slots);
    InvMeansAscending(t0);
    par := AddRanksToTree(t0, env, ranks, ParentsOf(slots));
    PlacementIsStable(t0, env, ranks);
    t := AddRanks(t0, env, ranks);
    TreeGraphDistances(t, par);
    PlacedMeansHanging(t0, t, env, ranks, par);
  }

  // ---- everything on a machine is connected

  lemma MachineIsConnected(hostname: string, machine: HwlocObj, u: nat, v: nat)
    requires DistinctDevices(TreeSlots(machine))
    requires var n := 1 + |TreeSlots(machine)|; u < n && v < n
    ensures var t := HwlocInit(EMPTY, hostname, machine);
            |t.vertices| == 1 + |TreeSlots(machine)| && Reachable(t.edges, u, v)
  {
    var t, slots, root := FreshMachine(hostname, machine);
    var par := ParentsOf(slots);
    TreeGraphIsForest(t, par);
    forall i | 1 <= i < |par|
      ensures par[i] < i
    {
      assert par[1 + (i - 1)] == slots[i - 1].parent;
    }
    RootOfFirstTree(par, |par|, u);
    RootOfFirstTree(par, |par|, v);
    ForestDistance(ForestOf(par), t.edges, u, v);
  }
}
