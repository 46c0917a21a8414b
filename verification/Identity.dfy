/** Device identity: PCI address packing, decimal printing and the identifiers under which modules meet. */
module Identity {
  /** A PCI address, every field after its conversion to uint64_t. */
  datatype PciAddress = PciAddress(domain: bv64, bus: bv64, device: bv64, func: bv64)

  /** Every field fits the bits the packed form reserves for it. */
  predicate InRange(a: PciAddress) {
    a.domain <= 0xffff_ffff && a.bus <= 0xff && a.device <= 0x1f && a.func <= 0x7
  }

  /** HwlocAdapter::bdfid. */
  function Pack(a: PciAddress): bv64 {
    ((a.domain & 0xffff_ffff) << 32) | ((a.bus & 0xff) << 8) | ((a.device & 0x1f) << 3) | (a.func & 0x7)
  }

  /** bdfid_get of the NVML module, which leaves the function field zero. */
  function PackNvml(a: PciAddress): bv64 {
    ((a.domain & 0xffff_ffff) << 32) | ((a.bus & 0xff) << 8) | ((a.device & 0x1f) << 3)
  }

  /** The fields print_bdfid decodes. */
  function Unpack(bdfid: bv64): PciAddress {
    PciAddress((bdfid >> 32) & 0xffff_ffff, (bdfid >> 8) & 0xff, (bdfid >> 3) & 0x1f, bdfid & 0x7)
  }

  /** Decoding inverts packing exactly on the in-range addresses. */
  lemma PackRoundTrip(a: PciAddress)
    ensures Unpack(Pack(a)) == a <==> InRange(a)
  {
    PackedFields(a);
  }

  lemma PackedFields(a: PciAddress)
    ensures Unpack(Pack(a)) == PciAddress(a.domain & 0xffff_ffff, a.bus & 0xff, a.device & 0x1f, a.func & 0x7)
    ensures a.domain & 0xffff_ffff == a.domain <==> a.domain <= 0xffff_ffff
    ensures a.bus & 0xff == a.bus <==> a.bus <= 0xff
    ensures a.device & 0x1f == a.device <==> a.device <= 0x1f
    ensures a.func & 0x7 == a.func <==> a.func <= 0x7
  {
  }

  /** What is decoded is in range, and packing it again gives the number back exactly when the sixteen bits
      between domain and bus are clear. */
  lemma UnpackedFields(bdfid: bv64)
    ensures InRange(Unpack(bdfid))
    ensures Pack(Unpack(bdfid)) == bdfid <==> (bdfid >> 16) & 0xffff == 0
  {
  }

  lemma NvmlIsFunctionZero(a: PciAddress, zero: bv64)
    requires zero == 0
    ensures PackNvml(a) == Pack(PciAddress(a.domain, a.bus, a.device, zero))
  {
    OrNothing(PackNvml(a), zero);
  }

  lemma OrNothing(word: bv64, zero: bv64)
    requires zero == 0
    ensures word | (zero & 0x7) == word
  {
  }

  function LowBit(word: bv64): nat { if word & 1 == 1 then 1 else 0 }

  /** The number a machine word denotes. */
  function ToNat(word: bv64): nat {
    if word == 0 then 0 else HalfIsSmaller(word); 2 * ToNat(word >> 1) + LowBit(word)
  }

  lemma HalfIsSmaller(word: bv64)
    requires word != 0
    ensures word >> 1 < word
  {
  }

  lemma ToNatStep(word: bv64)
    ensures ToNat(word) / 2 == ToNat(word >> 1) && ToNat(word) % 2 == LowBit(word)
  {
    if word == 0 {
      assert word >> 1 == 0;
    }
  }

  lemma HalvesDetermine(x: bv64, y: bv64)
    ensures x >> 1 == y >> 1 && LowBit(x) == LowBit(y) ==> x == y
  {
  }

  lemma {:induction false} ToNatPositive(word: bv64)
    ensures word != 0 <==> ToNat(word) > 0
  {
    if word & 1 != 1 && word != 0 {
      HalvesDetermine(word, 0);
      ToNatPositive(word >> 1);
    }
  }

  lemma {:induction false} ToNatInjective(x: bv64, y: bv64)
    requires ToNat(x) == ToNat(y)
    ensures x == y
    decreases ToNat(x)
  {
    ToNatStep(x);
    ToNatStep(y);
    ToNatPositive(x);
    ToNatPositive(y);
    if x != 0 {
      ToNatInjective(x >> 1, y >> 1);
      HalvesDetermine(x, y);
    }
  }

  function Digit(d: nat): char
    requires d < 10
  {
    ['0', '1', '2', '3', '4', '5', '6', '7', '8', '9'][d]
  }

  /** std::to_string of an unsigned number. */
  function Decimal(n: nat): (s: string)
    ensures |s| > 0
  {
    if n < 10 then [Digit(n)] else Decimal(n / 10) + [Digit(n % 10)]
  }

  lemma {:induction false} DecimalInjective(m: nat, n: nat)
    requires Decimal(m) == Decimal(n)
    ensures m == n
  {
    var s := Decimal(m);
    assert s[|s| - 1] == Digit(m % 10) == Digit(n % 10);
    if m < 10 || n < 10 {
      assert |s| == 1;
    } else {
      assert Decimal(m / 10) == s[..|s| - 1] == Decimal(n / 10);
      DecimalInjective(m / 10, n / 10);
    }
  }

  /** The number that a string of digits denotes. */
  ghost function Reading(s: string): int {
    if s == [] then 0 else 10 * Reading(s[..|s| - 1]) + (s[|s| - 1] as int - '0' as int)
  }

  /** What is printed are digits that denote the number, without leading zeros. */
  lemma {:induction false} DecimalReads(n: nat)
    ensures Reading(Decimal(n)) == n && forall c :: c in Decimal(n) ==> '0' <= c <= '9'
    ensures Decimal(n)[0] == '0' ==> n == 0 && |Decimal(n)| == 1
  {
    var s := Decimal(n);
    if n < 10 {
      assert s[..0] == [];
    } else {
      DecimalReads(n / 10);
      assert s[..|s| - 1] == Decimal(n / 10) && s[0] == Decimal(n / 10)[0];
    }
  }

  /** What the identifiers of ranks and devices say. */
  lemma IdsRead(rank: nat, bdfid: bv64)
    ensures "mpi_rank:" <= RankId(rank) && Reading(RankId(rank)[9..]) == rank
    ensures "bdfid:" <= BdfidId(bdfid) && Reading(BdfidId(bdfid)[6..]) == ToNat(bdfid)
  {
    DecimalReads(rank);
    DecimalReads(ToNat(bdfid));
    assert RankId(rank)[9..] == Decimal(rank) && BdfidId(bdfid)[6..] == Decimal(ToNat(bdfid));
  }

  // the identifiers that the modules pass to Graph::add_vertex
  function MachineId(hostname: string): string { "machine:" + hostname }
  function SystemId(name: string): string { "system:" + name }
  function RankId(rank: nat): string { "mpi_rank:" + Decimal(rank) }
  function BdfidId(bdfid: bv64): string { "bdfid:" + Decimal(ToNat(bdfid)) }

  datatype IdKind = MachineKind | SystemKind | RankKind | BdfidKind | OtherKind

  /** Which module convention a name follows. */
  ghost function KindOf(id: string): IdKind {
    if "machine:" <= id then MachineKind
    else if "system:" <= id then SystemKind
    else if "mpi_rank:" <= id then RankKind
    else if "bdfid:" <= id then BdfidKind
    else OtherKind
  }

  /** The four families of identifiers never collide. */
  lemma IdKinds(hostname: string, name: string, rank: nat, bdfid: bv64)
    ensures KindOf(MachineId(hostname)) == MachineKind
    ensures KindOf(SystemId(name)) == SystemKind
    ensures KindOf(RankId(rank)) == RankKind
    ensures KindOf(BdfidId(bdfid)) == BdfidKind
  {
    assert SystemId(name)[0] == 's';
    assert RankId(rank)[0] == 'm' && RankId(rank)[1] == 'p';
    assert BdfidId(bdfid)[0] == 'b';
    assert "machine:"[0] == 'm' && "machine:"[1] == 'a' && "system:"[0] == 's' && "mpi_rank:"[0] == 'm';
  }

  /** Within a family, distinct components have distinct identifiers. */
  lemma IdsInjective(h1: string, h2: string, n1: string, n2: string, r1: nat, r2: nat, b1: bv64, b2: bv64)
    ensures MachineId(h1) == MachineId(h2) ==> h1 == h2
    ensures SystemId(n1) == SystemId(n2) ==> n1 == n2
    ensures RankId(r1) == RankId(r2) ==> r1 == r2
    ensures BdfidId(b1) == BdfidId(b2) ==> b1 == b2
  {
    assert MachineId(h1)[8..] == h1 && MachineId(h2)[8..] == h2;
    assert SystemId(n1)[7..] == n1 && SystemId(n2)[7..] == n2;
    assert RankId(r1)[9..] == Decimal(r1) && RankId(r2)[9..] == Decimal(r2);
    assert BdfidId(b1)[6..] == Decimal(ToNat(b1)) && BdfidId(b2)[6..] == Decimal(ToNat(b2));
    if RankId(r1) == RankId(r2) {
      DecimalInjective(r1, r2);
    }
    if BdfidId(b1) == BdfidId(b2) {
      DecimalInjective(ToNat(b1), ToNat(b2));
      ToNatInjective(b1, b2);
    }
  }

  /** The hwloc and ROCm identifiers of two in-range addresses agree exactly when the addresses do; the hwloc
      and NVML identifiers exactly when domain, bus and device agree and the hwloc function is zero. */
  lemma DeviceIdsMeet(hwloc: PciAddress, gpu: PciAddress)
    requires InRange(hwloc) && InRange(gpu)
    ensures BdfidId(Pack(hwloc)) == BdfidId(Pack(gpu)) <==> hwloc == gpu
    ensures BdfidId(Pack(hwloc)) == BdfidId(PackNvml(gpu)) <==>
            hwloc.domain == gpu.domain && hwloc.bus == gpu.bus && hwloc.device == gpu.device && hwloc.func == 0
  {
    var zero := PciAddress(gpu.domain, gpu.bus, gpu.device, 0);
    NvmlIsFunctionZero(gpu, 0);
    PackRoundTrip(hwloc);
    PackRoundTrip(gpu);
    PackRoundTrip(zero);
    IdsInjective("", "", "", "", 0, 0, Pack(hwloc), Pack(gpu));
    IdsInjective("", "", "", "", 0, 0, Pack(hwloc), Pack(zero));
  }
}
