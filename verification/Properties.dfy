/** Adapters and the property lookup of a graph element (src/include/yloc/graph_element.h and
    src/include/yloc/modules/adapter.h). A property pairs a name with the C++ type of its value. */
module Properties {
  import opened Affinity
  import opened Identity
  import opened Options

  datatype PropertyName =
    | Memory | MemoryUsage | MemoryLoad | MemoryFrequency | BdfId | NumaAffinity
    | Bandwidth | BandwidthMin | BandwidthMax | Throughput | Latency | Frequency
    | Temperature | Power | Usage | Load
    | PciThroughput | PciThroughputRead | PciThroughputWrite
    | MpiRank | CpuAffinityMask
    | Custom(name: string)

  datatype ValueType = TypeU64 | TypeI64 | TypeMask

  datatype Value = U64(number: nat) | I64(integer: int) | MaskValue(mask: AffinityMask)

  function TypeOf(v: Value): ValueType {
    match v
    case U64(_) => TypeU64
    case I64(_) => TypeI64
    case MaskValue(_) => TypeMask
  }

  /** The getters of an adapter: the properties the modules of this model override, and `others` for the rest.
      `moduleMap` gives the types under which its module declares custom properties. */
  datatype Adapter = Adapter(text: string, memory: Option<nat>, bdfid: Option<bv64>, mpiRank: Option<nat>,
                             cpuMask: Option<AffinityMask>, others: map<PropertyName, Value>,
                             moduleMap: map<PropertyName, ValueType>)

  /** The optional value a getter returns. */
  function ValueOf(a: Adapter, name: PropertyName): Option<Value> {
    match name
    case Memory => if a.memory.Some? then Some(U64(a.memory.value)) else None
    case BdfId => if a.bdfid.Some? then Some(U64(ToNat(a.bdfid.value))) else None
    case MpiRank => if a.mpiRank.Some? then Some(U64(a.mpiRank.value)) else None
    case CpuAffinityMask => if a.cpuMask.Some? then Some(MaskValue(a.cpuMask.value)) else None
    case _ => if name in a.others then Some(a.others[name]) else None
  }

  /** The yloc-global property map: the declared type of every predefined name. */
  function PredefinedType(name: PropertyName): Option<ValueType> {
    match name
    case Custom(_) => None
    case Temperature => Some(TypeI64)
    case CpuAffinityMask => Some(TypeMask)
    case _ => Some(TypeU64)
  }

  /** The type under which adapter `a` is asked for `name`. */
  function DeclaredType(a: Adapter, name: PropertyName): Option<ValueType> {
    match PredefinedType(name)
    case Some(t) => Some(t)
    case None => if name in a.moduleMap then Some(a.moduleMap[name]) else None
  }

  /** Calls the property's getter: the optional value of the declared type. */
  function Read(a: Adapter, name: PropertyName, t: ValueType): Option<Value> {
    var v := ValueOf(a, name);
    if v.Some? && TypeOf(v.value) == t then v else None
  }

  /** What adapter `a` contributes to a lookup at type `rt`. */
  function Offer(a: Adapter, name: PropertyName, rt: ValueType): Option<Value> {
    if DeclaredType(a, name) == Some(rt) then Read(a, name, rt) else None
  }

  /** What adapter `a` contributes to a lookup as text, where the declared type is not compared. */
  function TextOffer(a: Adapter, name: PropertyName): Option<Value> {
    match DeclaredType(a, name)
    case Some(t) => Read(a, name, t)
    case None => None
  }

  function Lookup(adapters: seq<Adapter>, name: PropertyName, rt: ValueType): Option<Value> {
    if adapters == [] then None
    else if Offer(adapters[0], name, rt).Some? then Offer(adapters[0], name, rt)
    else Lookup(adapters[1..], name, rt)
  }

  function TextLookup(adapters: seq<Adapter>, name: PropertyName): Option<Value> {
    if adapters == [] then None
    else if TextOffer(adapters[0], name).Some? then TextOffer(adapters[0], name)
    else TextLookup(adapters[1..], name)
  }

  /** The vertex's cpu affinity mask: get<AffinityMask>("cpu_affinity_mask"). */
  function CpuMask(adapters: seq<Adapter>): Option<AffinityMask> {
    match Lookup(adapters, CpuAffinityMask, TypeMask)
    case Some(MaskValue(m)) => Some(m)
    case _ => None
  }

  /** GraphElement::get<RT>. */
  method Get(adapters: seq<Adapter>, name: PropertyName, rt: ValueType) returns (r: Option<Value>)
    ensures r == Lookup(adapters, name, rt)
  {
    r := None;
    match PredefinedType(name) {
      case Some(t) =>
        if t == rt {
          for i := 0 to |adapters|
            invariant Lookup(adapters, name, rt) == Lookup(adapters[i..], name, rt)
          {
            r := Read(adapters[i], name, t);
            if r.Some? {
              return;
            }
          }
          r := None;
        } else {
          NothingOffered(adapters, name, rt);
        }
      case None =>
        for i := 0 to |adapters|
          invariant Lookup(adapters, name, rt) == Lookup(adapters[i..], name, rt)
        {
          if name in adapters[i].moduleMap && adapters[i].moduleMap[name] == rt {
            r := Read(adapters[i], name, rt);
            if r.Some? {
              return;
            }
          }
        }
        r := None;
    }
  }

  lemma NothingOffered(adapters: seq<Adapter>, name: PropertyName, rt: ValueType)
    requires forall a :: a in adapters ==> Offer(a, name, rt).None?
    ensures Lookup(adapters, name, rt).None?
  {
  }

  /** GraphElement::get<std::string>; `render` is the stream output of a value. */
  method GetString(adapters: seq<Adapter>, name: PropertyName, render: Value -> string) returns (r: Option<string>)
    ensures r == match TextLookup(adapters, name) { case Some(v) => Some(render(v)) case None => None }
  {
    match PredefinedType(name) {
      case Some(t) =>
        for i := 0 to |adapters|
          invariant TextLookup(adapters, name) == TextLookup(adapters[i..], name)
        {
          var v := Read(adapters[i], name, t);
          if v.Some? {
            return Some(render(v.value));
          }
        }
      case None =>
        for i := 0 to |adapters|
          invariant TextLookup(adapters, name) == TextLookup(adapters[i..], name)
        {
          if name in adapters[i].moduleMap {
            var v := Read(adapters[i], name, adapters[i].moduleMap[name]);
            if v.Some? {
              return Some(render(v.value));
            }
          }
        }
    }
    return None;
  }

  lemma OneAdapter(a: Adapter, name: PropertyName, rt: ValueType)
    ensures Lookup([a], name, rt) == Offer(a, name, rt)
  {
    if Offer(a, name, rt).None? {
      assert Lookup([a][1..], name, rt) == None;
    }
  }

  /** At which type an adapter answers for a predefined name: the temperature is signed, the cpu affinity mask is a
      mask, all others are unsigned. A getter that has a value of that type is heard, at no other type anything is. */
  lemma PredefinedAnswers(a: Adapter, name: PropertyName, t: ValueType)
    requires t == TypeI64 <==> name == Temperature
    requires t == TypeMask <==> name == CpuAffinityMask
    requires !name.Custom?
    ensures Lookup([a], name, t) == if ValueOf(a, name).Some? && TypeOf(ValueOf(a, name).value) == t
                                    then ValueOf(a, name) else None
    ensures forall rt :: rt != t ==> Lookup([a], name, rt) == None
  {
    OneAdapter(a, name, t);
    forall rt | rt != t
      ensures Lookup([a], name, rt) == None
    {
      OneAdapter(a, name, rt);
    }
  }

  /** Every getter is asked under its own name. */
  lemma GettersAnswer(memory: Option<nat>, bdfid: Option<bv64>, rank: Option<nat>, mask: Option<AffinityMask>,
                      name: PropertyName, v: Value)
    requires !name.Custom? && name !in {Memory, BdfId, MpiRank, CpuAffinityMask}
    requires TypeOf(v) == if name == Temperature then TypeI64 else TypeU64
    ensures var a := Adapter("", memory, bdfid, rank, mask, map[name := v], map[]);
            && Lookup([a], Memory, TypeU64) == (if memory.Some? then Some(U64(memory.value)) else None)
            && Lookup([a], BdfId, TypeU64) == (if bdfid.Some? then Some(U64(ToNat(bdfid.value))) else None)
            && Lookup([a], MpiRank, TypeU64) == (if rank.Some? then Some(U64(rank.value)) else None)
            && CpuMask([a]) == mask && Lookup([a], name, TypeOf(v)) == Some(v)
  {
    var a := Adapter("", memory, bdfid, rank, mask, map[name := v], map[]);
    OneAdapter(a, Memory, TypeU64);
    OneAdapter(a, BdfId, TypeU64);
    OneAdapter(a, MpiRank, TypeU64);
    OneAdapter(a, CpuAffinityMask, TypeMask);
    OneAdapter(a, name, TypeOf(v));
  }

  /** First wins: a value that is present survives every later adapter, and a missing one is
      exactly what the later adapters provide. */
  lemma {:induction false} FirstWins(adapters: seq<Adapter>, later: seq<Adapter>, name: PropertyName, rt: ValueType)
    ensures Lookup(adapters + later, name, rt) ==
            if Lookup(adapters, name, rt).Some? then Lookup(adapters, name, rt) else Lookup(later, name, rt)
  {
    if adapters == [] {
      assert adapters + later == later;
    } else {
      assert (adapters + later)[1..] == adapters[1..] + later;
      FirstWins(adapters[1..], later, name, rt);
    }
  }

  /** The lookup finds the value of the first adapter that offers one, and only that. */
  lemma {:induction false} LookupFindsFirstOffer(adapters: seq<Adapter>, name: PropertyName, rt: ValueType)
    ensures Lookup(adapters, name, rt).None? <==> forall i :: 0 <= i < |adapters| ==> Offer(adapters[i], name, rt).None?
    ensures Lookup(adapters, name, rt).Some? ==>
              exists i :: 0 <= i < |adapters| && Offer(adapters[i], name, rt) == Lookup(adapters, name, rt)
                          && forall j :: 0 <= j < i ==> Offer(adapters[j], name, rt).None?
  {
    if adapters == [] {
    } else if Offer(adapters[0], name, rt).Some? {
    } else {
      var rest := adapters[1..];
      LookupFindsFirstOffer(rest, name, rt);
      assert forall i :: 0 < i < |adapters| ==> adapters[i] == rest[i - 1];
      if Lookup(rest, name, rt).Some? {
        var i :| 0 <= i < |rest| && Offer(rest[i], name, rt) == Lookup(rest, name, rt)
                 && forall j :: 0 <= j < i ==> Offer(rest[j], name, rt).None?;
        assert Offer(adapters[i + 1], name, rt) == Lookup(adapters, name, rt);
      }
    }
  }

  /** For a predefined property the textual lookup renders the very value the typed lookup returns. */
  lemma {:induction false} TextAgreesForPredefined(adapters: seq<Adapter>, name: PropertyName)
    requires PredefinedType(name).Some?
    ensures TextLookup(adapters, name) == Lookup(adapters, name, PredefinedType(name).value)
  {
    if adapters != [] {
      TextAgreesForPredefined(adapters[1..], name);
    }
  }

  /** For a custom property it does so exactly when the first adapter with a textual value declares it at the
      requested type: the textual lookup stops there, the typed one skips adapters of another type. */
  lemma {:induction false} TextAgreesForCustom(adapters: seq<Adapter>, name: PropertyName, rt: ValueType)
    requires name.Custom?
    ensures TextLookup(adapters, name) == Lookup(adapters, name, rt)
            <==> TextLookup(adapters, name).None?
                 || exists i :: 0 <= i < |adapters| && TextOffer(adapters[i], name).Some?
                                && (forall j :: 0 <= j < i ==> TextOffer(adapters[j], name).None?)
                                && DeclaredType(adapters[i], name) == Some(rt)
  {
    if adapters == [] {
    } else if TextOffer(adapters[0], name).Some? {
      if DeclaredType(adapters[0], name) == Some(rt) {
        assert 0 <= 0 < |adapters| && TextOffer(adapters[0], name).Some?;
      } else {
        TypedValueHasType(adapters[1..], name, rt);
      }
    } else {
      var rest := adapters[1..];
      TextAgreesForCustom(rest, name, rt);
      assert forall i :: 0 < i < |adapters| ==> adapters[i] == rest[i - 1];
      if i :| 0 <= i < |rest| && TextOffer(rest[i], name).Some?
              && (forall j :: 0 <= j < i ==> TextOffer(rest[j], name).None?)
              && DeclaredType(rest[i], name) == Some(rt) {
        assert TextOffer(adapters[i + 1], name).Some? && DeclaredType(adapters[i + 1], name) == Some(rt);
        assert forall j :: 0 <= j < i + 1 ==> TextOffer(adapters[j], name).None?;
      }
    }
  }

  /** Two adapters that declare one custom name at different types: the textual lookup shows the first one's
      value, the typed lookup finds the second's. (Only adapters of modules outside the repository declare custom
      properties.) */
  lemma TextShowsAnotherValue()
    ensures var name := Custom("speed");
            var first := Adapter("", None, None, None, None, map[name := I64(-1)], map[name := TypeI64]);
            var second := Adapter("", None, None, None, None, map[name := U64(1)], map[name := TypeU64]);
            && TextLookup([first, second], name) == Some(I64(-1))
            && Lookup([first, second], name, TypeU64) == Some(U64(1))
  {
    var name := Custom("speed");
    var first := Adapter("", None, None, None, None, map[name := I64(-1)], map[name := TypeI64]);
    var second := Adapter("", None, None, None, None, map[name := U64(1)], map[name := TypeU64]);
    assert [first, second][1..] == [second];
    assert Lookup([second], name, TypeU64) == Offer(second, name, TypeU64);
  }

  lemma {:induction false} TypedValueHasType(adapters: seq<Adapter>, name: PropertyName, rt: ValueType)
    ensures Lookup(adapters, name, rt).Some? ==> TypeOf(Lookup(adapters, name, rt).value) == rt
  {
    if adapters != [] {
      TypedValueHasType(adapters[1..], name, rt);
    }
  }

  /** The mask of a vertex after one more adapter. */
  lemma CpuMaskAppend(adapters: seq<Adapter>, a: Adapter)
    ensures CpuMask(adapters + [a]) == if CpuMask(adapters).Some? then CpuMask(adapters) else a.cpuMask
  {
    FirstWins(adapters, [a], CpuAffinityMask, TypeMask);
    assert Lookup([a], CpuAffinityMask, TypeMask) == Offer(a, CpuAffinityMask, TypeMask);
    TypedValueHasType(adapters, CpuAffinityMask, TypeMask);
  }
}
