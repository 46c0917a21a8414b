/** The nearest-PU search of the example program (example/example.cc). */
module FindDistances {
  import opened Bfs
  import opened Components
  import opened Paths
  import opened Topology

  predicate IsAcceleratorVertex(t: Snapshot, v: nat) {
    v < |t.vertices| && IsAccelerator(t.vertices[v].componentType)
  }

  predicate IsPu(t: Snapshot, v: nat) {
    v < |t.vertices| && IsLogicalCore(t.vertices[v].componentType)
  }

  ghost predicate HasAccelerator(t: Snapshot) {
    exists v: nat :: IsAcceleratorVertex(t, v)
  }

  ghost predicate HasPu(t: Snapshot) {
    exists v: nat :: IsPu(t, v)
  }

  /** The vertices of a filtered view: those below n that satisfy p, in ascending order. */
  function View(n: nat, p: nat -> bool): (vs: seq<nat>)
    ensures forall v: nat :: v in vs <==> v < n && p(v)
    ensures forall i, j :: 0 <= i < j < |vs| ==> vs[i] < vs[j]
  {
    if n == 0 then []
    else
      var earlier := View(n - 1, p);
      assert forall i :: 0 <= i < |earlier| ==> earlier[i] in earlier;
      earlier + (if p(n - 1) then [n - 1] else [])
  }

  ghost predicate IsFirstAccelerator(t: Snapshot, start: nat) {
    IsAcceleratorVertex(t, start) && forall v :: IsAcceleratorVertex(t, v) ==> start <= v
  }

  /** How the search ends. With accelerators but no PU the original dereferences the end of an empty range. */
  datatype Outcome =
    | NoAccelerator
    | NoPu(first: nat)
    | Nearest(first: nat, mindist: nat, printed: seq<nat>)

  /** find_distances; `printed` are the PUs it lists. */
  method Search(g: Graph) returns (r: Outcome)
    requires Valid(g.View())
    ensures r.NoAccelerator? <==> !HasAccelerator(g.View())
    ensures r.NoPu? <==> HasAccelerator(g.View()) && !HasPu(g.View())
    ensures !r.NoAccelerator? ==> IsFirstAccelerator(g.View(), r.first)
    ensures r.Nearest? ==> r.printed != [] && forall v :: v in r.printed <==> IsPrinted(g.View(), r.first, v)
    ensures r.Nearest? ==> forall v :: v in r.printed ==> HopDistance(g.edges, r.first, v) == r.mindist
    ensures r.Nearest? ==> forall i, j :: 0 <= i < j < |r.printed| ==> r.printed[i] < r.printed[j]
  {
    var t := g.View();
    var accelerators := View(|g.vertices|, (v: nat) => IsAcceleratorVertex(t, v));
    assert forall v: nat :: IsAcceleratorVertex(t, v) <==> v in accelerators;
    if accelerators == [] {
      return NoAccelerator;
    }
    var first := accelerators[0];
    assert first in accelerators;
    var pus := View(|g.vertices|, (v: nat) => IsPu(t, v));
    assert forall v: nat :: IsPu(t, v) <==> v in pus;
    if pus == [] {
      return NoPu(first);
    }
    assert pus[0] in pus;
    var mindist, printed := NearestPus(g, first, pus);
    r := Nearest(first, mindist, printed);
  }

  /** The distance vector and the two passes over the PU view. */
  method NearestPus(g: Graph, start: nat, pus: seq<nat>) returns (mindist: nat, printed: seq<nat>)
    requires Valid(g.View()) && start < |g.vertices|
    requires pus != [] && forall v: nat :: v in pus <==> IsPu(g.View(), v)
    ensures forall v :: v in printed <==> IsPu(g.View(), v) && HopDistance(g.edges, start, v) == mindist
    ensures printed != [] && forall v :: v in printed <==> IsPrinted(g.View(), start, v)
    ensures forall i, j :: 0 <= i < j < |printed| ==> printed[i] < printed[j]
  {
    var t := g.View();
    var distances := HopDistances(g, start);
    mindist := Least(distances, pus);
    printed := View(|g.vertices|, (v: nat) => v in pus && v < |distances| && !(distances[v] > mindist));
    ghost var nearest :| nearest in pus && distances[nearest] == mindist;
    assert nearest in printed;
    PrintedIsLeast(t, start, mindist, printed);
  }

  /** The loop over the PU view. */
  method Least(distances: seq<nat>, pus: seq<nat>) returns (mindist: nat)
    requires pus != [] && forall v :: v in pus ==> v < |distances|
    ensures forall v :: v in pus ==> mindist <= distances[v]
    ensures exists v :: v in pus && distances[v] == mindist
  {
    assert forall i :: 0 <= i < |pus| ==> pus[i] in pus;
    mindist := distances[pus[0]];
    ghost var at := pus[0];
    for i := 0 to |pus|
      invariant at in pus && mindist == distances[at]
      invariant forall j :: 0 <= j < i ==> pus[j] in pus && mindist <= distances[pus[j]]
    {
      if distances[pus[i]] < mindist {
        mindist, at := distances[pus[i]], pus[i];
      }
    }
  }

  /** v is a PU at the minimum hop distance of all PUs that can be reached from start. */
  ghost predicate IsNearest(t: Snapshot, start: nat, v: nat) {
    && IsPu(t, v) && Reachable(t.edges, start, v)
    && forall w :: IsPu(t, w) && Reachable(t.edges, start, w)
                   ==> HopDistance(t.edges, start, v) <= HopDistance(t.edges, start, w)
  }

  /** v is printed: no PU has a smaller entry in the distance vector. */
  ghost predicate IsPrinted(t: Snapshot, start: nat, v: nat) {
    IsPu(t, v) && forall w :: IsPu(t, w) ==> HopDistance(t.edges, start, v) <= HopDistance(t.edges, start, w)
  }

  /** The PUs at the minimum are those no PU has a smaller entry than. */
  lemma PrintedIsLeast(t: Snapshot, start: nat, mindist: nat, printed: seq<nat>)
    requires forall w :: w in printed <==> IsPu(t, w) && HopDistance(t.edges, start, w) == mindist
    requires printed != [] && forall w :: IsPu(t, w) ==> mindist <= HopDistance(t.edges, start, w)
    ensures forall v :: v in printed <==> IsPrinted(t, start, v)
  {
    assert printed[0] in printed;
  }

  /** The search prints exactly the nearest PUs if and only if every PU can be reached from the accelerator: an
      unreachable PU has the entry 0 and hides the others. (An accelerator is never a PU.) */
  lemma PrintsNearestIffAllReachable(t: Snapshot, start: nat)
    requires IsAcceleratorVertex(t, start) && HasPu(t)
    ensures (forall v :: IsPrinted(t, start, v) <==> IsNearest(t, start, v))
            <==> (forall v :: IsPu(t, v) ==> Reachable(t.edges, start, v))
  {
    if w :| IsPu(t, w) && !Reachable(t.edges, start, w) {
      UnreachableIsZero(t.edges, start, w);
      assert IsPrinted(t, start, w) && !IsNearest(t, start, w);
    }
  }

  /** Where all PUs are reached or none is. */
  lemma ExactIff(t: Snapshot, start: nat, reached: bool)
    requires IsAcceleratorVertex(t, start) && HasPu(t)
    requires forall w :: IsPu(t, w) ==> (Reachable(t.edges, start, w) <==> reached)
    ensures (forall v :: IsPrinted(t, start, v) <==> IsNearest(t, start, v)) <==> reached
    ensures !reached ==> forall v :: IsPu(t, v) ==> IsPrinted(t, start, v) && !IsNearest(t, start, v)
  {
    PrintsNearestIffAllReachable(t, start);
    if !reached {
      forall v | IsPu(t, v)
        ensures HopDistance(t.edges, start, v) == 0
      {
        UnreachableIsZero(t.edges, start, v);
      }
    }
  }
}
