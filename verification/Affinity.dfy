/** CPU affinity masks (src/include/yloc/affinity.h). A bit set of fixed width is modelled by the set of
    its set bits; `nprocs` stands for the number of online processors, the width of every mask. */
module Affinity {
  type AffinityMask = set<nat>

  predicate IsContainedIn(mask: AffinityMask, other: AffinityMask) {
    other * mask == mask
  }

  predicate IsContaining(mask: AffinityMask, other: AffinityMask) {
    IsContainedIn(other, mask)
  }

  function Count(mask: AffinityMask): nat {
    |mask|
  }

  /** What a mask of width `nprocs` keeps of a native cpu set. */
  function OnlinePart(cpus: set<nat>, nprocs: nat): AffinityMask {
    set cpu | cpu in cpus && cpu < nprocs
  }

  /** The bitwise test is the subset order, and the population count is strictly monotone for it. */
  lemma ContainmentIsInclusion(inner: AffinityMask, outer: AffinityMask)
    ensures IsContaining(outer, inner) <==> inner <= outer
    ensures IsContaining(outer, inner) ==>
              Count(inner) <= Count(outer) && (Count(inner) == Count(outer) <==> inner == outer)
  {
    if outer * inner == inner {
      assert inner <= outer;
      assert outer == inner + (outer - inner);
    } else {
      assert !(inner <= outer);
    }
  }

  method FromCpuSet(cpus: set<nat>, nprocs: nat) returns (mask: AffinityMask)
    ensures mask == OnlinePart(cpus, nprocs)
  {
    mask := {};
    for cpu := 0 to nprocs
      invariant mask == OnlinePart(cpus, cpu)
    {
      mask := if cpu in cpus then mask + {cpu} else mask;
    }
  }

  method ToCpuSet(mask: AffinityMask, nprocs: nat) returns (cpus: set<nat>)
    ensures cpus == OnlinePart(mask, nprocs)
  {
    cpus := {};
    for cpu := 0 to nprocs
      invariant cpus == OnlinePart(mask, cpu)
    {
      if cpu in mask {
        cpus := cpus + {cpu};
      }
    }
  }

  /** Converting a native cpu set to a mask and back is lossless exactly when every cpu is online. */
  lemma CpuSetRoundTrip(cpus: set<nat>, nprocs: nat)
    ensures OnlinePart(OnlinePart(cpus, nprocs), nprocs) == cpus <==> forall cpu :: cpu in cpus ==> cpu < nprocs
    ensures OnlinePart(OnlinePart(cpus, nprocs), nprocs) == OnlinePart(cpus, nprocs)
  {
    assert OnlinePart(cpus, nprocs) <= cpus;
    if forall cpu :: cpu in cpus ==> cpu < nprocs {
      assert OnlinePart(cpus, nprocs) == cpus;
    }
  }
}
