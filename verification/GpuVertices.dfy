/** What a device's vertex answers after a GPU step on any graph: its packed PCI address, and a name. */
module GpuVertices {
  import opened Components
  import G = Gpu
  import opened Identity
  import opened Options
  import P = Properties
  import opened Topology

  ghost predicate IsListed(devices: seq<G.Device>, b: bv64) {
    exists i :: 0 <= i < |devices| && devices[i].bdfid == b
  }

  /** Device i is the last one with the address b. */
  ghost predicate IsLast(devices: seq<G.Device>, b: bv64, i: nat) {
    i < |devices| && devices[i].bdfid == b && forall j :: i < j < |devices| ==> devices[j].bdfid != b
  }

  function BdfidAnswer(vertex: Vertex): Option<P.Value> {
    P.Lookup(vertex.adapters, P.BdfId, P.TypeU64)
  }

  /** The vertex `after` of a listed device: it is a GPU and answers the address b, unless it answered another before;
      ROCm calls it as the last device with this address is called, NVML leaves the description alone. */
  ghost predicate Answers(before: Vertex, after: Vertex, m: G.GpuModule, devices: seq<G.Device>, b: bv64) {
    && after.componentType == GPU
    && BdfidAnswer(after) == (if BdfidAnswer(before).Some? then BdfidAnswer(before) else Some(P.U64(ToNat(b))))
    && (m.Rocm? ==> forall i: nat :: IsLast(devices, b, i) ==> after.description == devices[i].text)
    && (m.Nvml? ==> after.description == before.description)
  }

  /** The adapter of a device answers its address and nothing else, and is called as the device is. */
  lemma DeviceAdapterAnswers(d: G.Device)
    ensures var a := G.DeviceAdapter(d);
            && a.text == d.text && P.Lookup([a], P.BdfId, P.TypeU64) == Some(P.U64(ToNat(d.bdfid)))
            && forall name, rt :: name != P.BdfId ==> P.Lookup([a], name, rt) == None
  {
    P.OneAdapter(G.DeviceAdapter(d), P.BdfId, P.TypeU64);
    forall name, rt | name != P.BdfId
      ensures P.Lookup([G.DeviceAdapter(d)], name, rt) == None
    {
      P.OneAdapter(G.DeviceAdapter(d), name, rt);
    }
  }

  /** One more device with this address. */
  lemma AnswersMore(before: Vertex, vertex: Vertex, m: G.GpuModule, devices: seq<G.Device>, d: G.Device)
    requires vertex == before || Answers(before, vertex, m, devices, d.bdfid)
    ensures Answers(before, G.DeviceVertex(vertex, m, d), m, devices + [d], d.bdfid)
  {
    DeviceAdapterAnswers(d);
    P.FirstWins(vertex.adapters, [G.DeviceAdapter(d)], P.BdfId, P.TypeU64);
    assert (devices + [d])[|devices|] == d;
  }

  /** One more device with another address. */
  lemma AnswersStill(before: Vertex, vertex: Vertex, m: G.GpuModule, devices: seq<G.Device>, d: G.Device, b: bv64)
    requires Answers(before, vertex, m, devices, b) && d.bdfid != b
    ensures Answers(before, vertex, m, devices + [d], b)
  {
    forall i: nat | IsLast(devices + [d], b, i)
      ensures IsLast(devices, b, i) && (devices + [d])[i] == devices[i]
    {
      assert (devices + [d])[|devices|] == d;
      assert forall j :: i < j < |devices| ==> (devices + [d])[j] == devices[j];
    }
  }

  lemma ListedMore(devices: seq<G.Device>, d: G.Device, b: bv64)
    ensures IsListed(devices + [d], b) <==> IsListed(devices, b) || d.bdfid == b
  {
    if i :| 0 <= i < |devices| && devices[i].bdfid == b {
      assert (devices + [d])[i].bdfid == b;
    }
    assert (devices + [d])[|devices|] == d;
  }

  /** What has become of the name of the address b. */
  ghost predicate Outcome(t: Snapshot, r: Snapshot, m: G.GpuModule, devices: seq<G.Device>, b: bv64) {
    var id := BdfidId(b);
    && (id in t.ids ==> id in r.ids && r.ids[id] == t.ids[id])
    && (id in r.ids && id !in t.ids ==> r.ids[id] >= |t.vertices|)
    && (if IsListed(devices, b) then
          && id in r.ids && r.ids[id] < |r.vertices|
          && Answers(At(t, r.ids[id]), At(r, r.ids[id]), m, devices, b)
        else (id in r.ids ==> id in t.ids) && (id in t.ids ==> At(r, t.ids[id]) == At(t, t.ids[id])))
  }

  /** The device loop on any graph, for any address: the vertex that a listed device's identifier names answers for it;
      one that no device has is left alone. */
  lemma {:induction false} DevicesAnswer(t: Snapshot, m: G.GpuModule, devices: seq<G.Device>, b: bv64)
    requires Valid(t)
    ensures Outcome(t, G.AddDevices(t, m, devices), m, devices, b)
  {
    if devices != [] {
      var n := |devices| - 1;
      var (ds, d) := (devices[..n], devices[n]);
      var earlier := G.AddDevices(t, m, ds);
      G.SplitLast(devices);
      DevicesAnswer(t, m, ds, b);
      G.NewAreGpus(t, m, ds);
      G.DeviceIsAdded(earlier, m, d, BdfidId(d.bdfid));
      ListedMore(ds, d, b);
      IdsInjective("", "", "", "", 0, 0, b, d.bdfid);
      if d.bdfid == b {
        SameAddress(t, earlier, m, ds, d);
      } else {
        OtherAddress(t, earlier, m, ds, d, b);
      }
    }
  }

  lemma SameAddress(t: Snapshot, earlier: Snapshot, m: G.GpuModule, ds: seq<G.Device>, d: G.Device)
    requires Valid(earlier) && |t.vertices| <= |earlier.vertices| && Outcome(t, earlier, m, ds, d.bdfid)
    ensures Outcome(t, G.AddDevice(earlier, m, d), m, ds + [d], d.bdfid)
  {
    var id := BdfidId(d.bdfid);
    var v := Intern(earlier, id).ids[id];
    InternValid(earlier, id);
    ListedMore(ds, d, d.bdfid);
    AnswersMore(At(t, v), At(Intern(earlier, id), v), m, ds, d);
  }

  lemma OtherAddress(t: Snapshot, earlier: Snapshot, m: G.GpuModule, ds: seq<G.Device>, d: G.Device, b: bv64)
    requires Valid(t) && Valid(earlier) && |t.vertices| <= |earlier.vertices| && Outcome(t, earlier, m, ds, b)
    requires d.bdfid != b && BdfidId(d.bdfid) != BdfidId(b)
    ensures Outcome(t, G.AddDevice(earlier, m, d), m, ds + [d], b)
  {
    var id := BdfidId(b);
    OtherUntouched(earlier, m, d, id);
    ListedMore(ds, d, b);
    if IsListed(ds, b) {
      AnswersStill(At(t, earlier.ids[id]), At(earlier, earlier.ids[id]), m, ds, d, b);
    }
  }

  lemma OtherUntouched(t: Snapshot, m: G.GpuModule, d: G.Device, id: string)
    requires Valid(t) && BdfidId(d.bdfid) != id
    ensures var r := G.AddDevice(t, m, d);
            && |t.vertices| <= |r.vertices| && (id in r.ids <==> id in t.ids)
            && (id in t.ids ==> r.ids[id] == t.ids[id] && At(r, t.ids[id]) == At(t, t.ids[id]))
  {
    InternValid(t, BdfidId(d.bdfid));
  }

  /** The interconnects change no vertex. */
  lemma GpuStepAnswers(t: Snapshot, m: G.GpuModule, devices: seq<G.Device>, link: G.Links, b: bv64)
    requires Valid(t)
    ensures Outcome(t, G.GpuInit(t, m, devices, link), m, devices, b)
  {
    DevicesAnswer(t, m, devices, b);
  }
}
