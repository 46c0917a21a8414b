/** std::sort by a key: some permutation that puts the keys in ascending order. Which one, among elements with
    equal keys, the standard leaves open; it is a function of the keys, since these are all the comparison
    sees. */
module Sorting {
  /** The positions, in the order in which the sort leaves their elements. */
  type SortOrder = seq<nat> -> seq<nat>

  ghost predicate IsSortOf(perm: seq<nat>, keys: seq<nat>) {
    && |perm| == |keys|
    && (forall i :: 0 <= i < |perm| ==> perm[i] < |keys|)
    && (forall j :: 0 <= j < |keys| ==> j in perm)
    && (forall i, j :: 0 <= i < j < |perm| ==> perm[i] != perm[j])
    && (forall i, j :: 0 <= i < j < |perm| && perm[i] < |keys| && perm[j] < |keys| ==> keys[perm[i]] <= keys[perm[j]])
  }

  ghost predicate Sorts(order: SortOrder) {
    forall keys :: IsSortOf(order(keys), keys)
  }

  /** The elements in the order `perm`. */
  function Arrange<T>(s: seq<T>, perm: seq<nat>): seq<T>
    requires forall i :: 0 <= i < |perm| ==> perm[i] < |s|
  {
    seq(|perm|, i requires 0 <= i < |perm| => s[perm[i]])
  }

  /** The element a sort leaves in front has a least key. */
  lemma FrontIsLeast(perm: seq<nat>, keys: seq<nat>, j: nat)
    requires IsSortOf(perm, keys) && j < |keys|
    ensures perm[0] < |keys| && keys[perm[0]] <= keys[j]
  {
    assert j in perm;
  }

  /** Sorting loses and adds no element. */
  lemma ArrangeKeepsElements<T>(s: seq<T>, perm: seq<nat>, keys: seq<nat>, x: T)
    requires IsSortOf(perm, keys) && |keys| == |s|
    ensures x in Arrange(s, perm) <==> x in s
  {
    var r := Arrange(s, perm);
    if x in s {
      var j: nat :| j < |s| && s[j] == x;
      assert j in perm;
      var i :| 0 <= i < |perm| && perm[i] == j;
      assert r[i] == x;
    }
  }

  // ---- such a sort exists: the stable insertion order

  function InsertAt(perm: seq<nat>, keys: seq<nat>, k: nat): nat
    requires forall i :: 0 <= i < |perm| ==> perm[i] < |keys|
    requires k < |keys|
  {
    if perm == [] || keys[perm[|perm| - 1]] <= keys[k] then |perm| else InsertAt(perm[..|perm| - 1], keys, k)
  }

  function InsertionOrder(keys: seq<nat>): (perm: seq<nat>)
    ensures IsSortOf(perm, keys)
  {
    if keys == [] then []
    else
      var k := |keys| - 1;
      var earlier := InsertionOrder(keys[..k]);
      Inserted(earlier, keys, k);
      InsertInto(earlier, InsertAt(earlier, keys, k), k)
  }

  function InsertInto(perm: seq<nat>, at: nat, k: nat): (r: seq<nat>)
    requires at <= |perm|
    ensures |r| == |perm| + 1 && r[at] == k
    ensures forall i :: 0 <= i < at ==> r[i] == perm[i]
    ensures forall i :: at < i < |r| ==> r[i] == perm[i - 1]
  {
    perm[..at] + [k] + perm[at..]
  }

  lemma Inserted(perm: seq<nat>, keys: seq<nat>, k: nat)
    requires k == |keys| - 1 && IsSortOf(perm, keys[..k])
    ensures InsertAt(perm, keys, k) <= |perm|
    ensures IsSortOf(InsertInto(perm, InsertAt(perm, keys, k), k), keys)
  {
    assert forall i :: 0 <= i < |perm| ==> perm[i] < k && keys[..k][perm[i]] == keys[perm[i]];
    InsertAtSplits(perm, keys, k);
    var at := InsertAt(perm, keys, k);
    var r := InsertInto(perm, at, k);
    forall j | 0 <= j < |keys|
      ensures j in r
    {
      if j < k {
        assert j < |keys[..k]| && j in perm;
        var i :| 0 <= i < |perm| && perm[i] == j;
        assert r[if i < at then i else i + 1] == j;
      } else {
        assert r[at] == j;
      }
    }
    InsertedSorted(perm, keys, k, at, r);
  }

  lemma InsertedSorted(perm: seq<nat>, keys: seq<nat>, k: nat, at: nat, r: seq<nat>)
    requires at <= |perm| && r == InsertInto(perm, at, k) && k < |keys| && forall i :: 0 <= i < |perm| ==> perm[i] < k
    requires forall i, j :: 0 <= i < j < |perm| ==> perm[i] != perm[j] && keys[perm[i]] <= keys[perm[j]]
    requires forall i :: 0 <= i < at ==> keys[perm[i]] <= keys[k]
    requires forall i :: at <= i < |perm| ==> keys[k] < keys[perm[i]]
    ensures forall i :: 0 <= i < |r| ==> r[i] < |keys|
    ensures forall i, j :: 0 <= i < j < |r| ==> r[i] != r[j] && keys[r[i]] <= keys[r[j]]
  {
    forall i, j | 0 <= i < j < |r|
      ensures r[i] < |keys| && r[j] < |keys| && r[i] != r[j] && keys[r[i]] <= keys[r[j]]
    {
      assert i != at ==> r[i] == perm[if i < at then i else i - 1];
      assert j != at ==> r[j] == perm[if j < at then j else j - 1];
    }
  }

  lemma {:induction false} InsertAtSplits(perm: seq<nat>, keys: seq<nat>, k: nat)
    requires k < |keys| && forall i :: 0 <= i < |perm| ==> perm[i] < |keys|
    requires forall i, j :: 0 <= i < j < |perm| ==> keys[perm[i]] <= keys[perm[j]]
    ensures InsertAt(perm, keys, k) <= |perm|
    ensures forall i :: 0 <= i < InsertAt(perm, keys, k) ==> keys[perm[i]] <= keys[k]
    ensures forall i :: InsertAt(perm, keys, k) <= i < |perm| ==> keys[k] < keys[perm[i]]
  {
    if perm != [] && keys[perm[|perm| - 1]] > keys[k] {
      InsertAtSplits(perm[..|perm| - 1], keys, k);
    }
  }

  lemma InsertionOrderSorts()
    ensures Sorts(InsertionOrder)
  {
  }

  // ---- and among least keys, any one can stand first

  /** `order`, but with `perm` for the key sequence `keys`. */
  function Except(order: SortOrder, keys: seq<nat>, perm: seq<nat>): SortOrder {
    ks => if ks == keys then perm else order(ks)
  }

  lemma LeastCanStandFirst(keys: seq<nat>, a: nat) returns (perm: seq<nat>)
    requires a < |keys| && forall j :: 0 <= j < |keys| ==> keys[a] <= keys[j]
    ensures IsSortOf(perm, keys) && perm[0] == a
  {
    var sorted := InsertionOrder(keys);
    assert a in sorted;
    var i: nat :| i < |sorted| && sorted[i] == a;
    perm := [a] + sorted[..i] + sorted[i + 1..];
    MovedToFront(sorted, keys, i, perm);
  }

  lemma MovedToFront(sorted: seq<nat>, keys: seq<nat>, i: nat, perm: seq<nat>)
    requires IsSortOf(sorted, keys) && i < |sorted| && perm == [sorted[i]] + sorted[..i] + sorted[i + 1..]
    requires forall j :: 0 <= j < |keys| ==> keys[sorted[i]] <= keys[j]
    ensures IsSortOf(perm, keys)
  {
    assert forall k :: 0 < k <= i ==> perm[k] == sorted[k - 1];
    assert forall k :: i < k < |perm| ==> perm[k] == sorted[k];
    forall j | 0 <= j < |keys|
      ensures j in perm
    {
      assert j in sorted;
      var k :| 0 <= k < |sorted| && sorted[k] == j;
      assert perm[if k < i then k + 1 else if k == i then 0 else k] == j;
    }
  }

  lemma SomeOrderPrefers(keys: seq<nat>, a: nat) returns (order: SortOrder)
    requires a < |keys| && forall j :: 0 <= j < |keys| ==> keys[a] <= keys[j]
    ensures Sorts(order) && IsSortOf(order(keys), keys) && order(keys)[0] == a
  {
    var perm := LeastCanStandFirst(keys, a);
    InsertionOrderSorts();
    order := Except(InsertionOrder, keys, perm);
    forall ks
      ensures IsSortOf(order(ks), ks)
    {
    }
  }
}
