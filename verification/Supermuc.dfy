/** The SuperMUC module (modules/supermuc/init_graph.cc): hostnames become a tree of islands, racks, columns and
    slots. The names of the ranks arrive in fixed-width character buffers that the loop truncates in place. */
module Supermuc {
  import opened Components
  import opened Identity
  import opened Options
  import P = Properties
  import opened Topology

  // ---- hostnames

  /** The string a character buffer denotes: what stands before its first NUL. */
  function CString(buffer: seq<char>): string {
    if buffer == [] || buffer[0] == '\0' then [] else [buffer[0]] + CString(buffer[1..])
  }

  /** It ends before the first NUL, or with the buffer. */
  lemma {:induction false} CStringEnds(buffer: seq<char>)
    ensures CString(buffer) <= buffer && '\0' !in CString(buffer)
    ensures |CString(buffer)| < |buffer| ==> buffer[|CString(buffer)|] == '\0'
  {
    if buffer != [] && buffer[0] != '\0' {
      CStringEnds(buffer[1..]);
      assert buffer == [buffer[0]] + buffer[1..];
    }
  }

  function Take(s: string, k: nat): string {
    if |s| <= k then s else s[..k]
  }

  /** Writing a NUL at position k leaves the first k characters of the string. */
  lemma {:induction false} TruncateInPlace(buffer: seq<char>, k: nat)
    requires k < |buffer|
    ensures CString(buffer[k := '\0']) == Take(CString(buffer), k)
  {
    if k == 0 {
    } else if buffer[0] != '\0' {
      var rest := buffer[1..];
      TruncateInPlace(rest, k - 1);
      assert buffer[k := '\0'][1..] == rest[k - 1 := '\0'];
    }
  }

  predicate IsDigit(c: char) {
    '0' <= c <= '9'
  }

  /** sscanf's conversion %2[0-9] at position i: the position after one or two digits, or None. */
  function ScanDigits(s: string, i: nat): Option<nat> {
    if i < |s| && IsDigit(s[i]) then Some(if i + 1 < |s| && IsDigit(s[i + 1]) then i + 2 else i + 1) else None
  }

  /** A literal character of the format, then a conversion. */
  function ScanField(s: string, i: Option<nat>, letter: char): Option<nat> {
    if i.Some? && i.value < |s| && s[i.value] == letter then ScanDigits(s, i.value + 1) else None
  }

  // where the scan of "i%2[0-9]r%2[0-9]c%2[0-9]s%2[0-9]" ends the parts of a name
  function IslandEnd(s: string): Option<nat> { ScanField(s, Some(0), 'i') }
  function RackEnd(s: string): Option<nat> { ScanField(s, IslandEnd(s), 'r') }
  function ColumnEnd(s: string): Option<nat> { ScanField(s, RackEnd(s), 'c') }

  /** The checks of ModuleSuperMUC::init_graph: length 12, and all four conversions succeed. */
  predicate Accepted(s: string) {
    |s| == 12 && ScanField(s, ColumnEnd(s), 's').Some?
  }

  /** One or two of the ten digits. */
  ghost predicate IsNumber(s: string) {
    1 <= |s| <= 2 && forall c :: c in s ==> c in "0123456789"
  }

  /** `s` begins with i, r, c and s, each followed by one of these numbers; r, c and s stand at these positions, and the
      last number ends at `end`. */
  ghost predicate BeginsWith(s: string, r: nat, c: nat, slot: nat, end: nat) {
    && 0 < r < c < slot < end <= |s| && s[0] == 'i' && s[r] == 'r' && s[c] == 'c' && s[slot] == 's'
    && IsNumber(s[1..r]) && IsNumber(s[r + 1..c]) && IsNumber(s[c + 1..slot]) && IsNumber(s[slot + 1..end])
  }

  lemma DigitsAreTen(c: char)
    ensures IsDigit(c) <==> c in "0123456789"
  {
    assert "0123456789"[0] == '0' && "0123456789"[1] == '1' && "0123456789"[2] == '2' && "0123456789"[3] == '3';
    assert "0123456789"[4] == '4' && "0123456789"[5] == '5' && "0123456789"[6] == '6' && "0123456789"[7] == '7';
    assert "0123456789"[8] == '8' && "0123456789"[9] == '9';
  }

  /** The naming convention itself: i, r, c and s, each followed by two digits. */
  predicate Conforming(s: string) {
    && |s| == 12 && s[0] == 'i' && s[3] == 'r' && s[6] == 'c' && s[9] == 's'
    && IsDigit(s[1]) && IsDigit(s[2]) && IsDigit(s[4]) && IsDigit(s[5])
    && IsDigit(s[7]) && IsDigit(s[8]) && IsDigit(s[10]) && IsDigit(s[11])
  }

  /** A number followed by no digit is what the conversion takes. */
  lemma NumberIsScanned(s: string, i: nat, end: nat)
    requires i <= end <= |s| && IsNumber(s[i..end])
    ensures ScanDigits(s, i).Some? && (end < |s| && !IsDigit(s[end]) ==> ScanDigits(s, i).value == end)
  {
    assert s[i..end][0] == s[i] && s[i] in s[i..end];
    DigitsAreTen(s[i]);
    if i + 1 < end {
      assert s[i..end][1] == s[i + 1] && s[i + 1] in s[i..end];
      DigitsAreTen(s[i + 1]);
    }
  }

  lemma ScannedIsNumber(s: string, i: nat)
    requires ScanDigits(s, i).Some?
    ensures i < ScanDigits(s, i).value <= |s| && IsNumber(s[i..ScanDigits(s, i).value])
  {
    forall c | c in s[i..ScanDigits(s, i).value]
      ensures c in "0123456789"
    {
      DigitsAreTen(c);
    }
  }

  /** The checks accept exactly the names of 12 characters that begin with i, r, c and s, each followed by one or two
      digits. */
  lemma AcceptedIff(s: string)
    ensures Accepted(s) <==> |s| == 12 && exists r: nat, c: nat, slot: nat, end: nat :: BeginsWith(s, r, c, slot, end)
  {
    if Accepted(s) {
      var (r, c, slot) := (IslandEnd(s).value, RackEnd(s).value, ColumnEnd(s).value);
      ScannedIsNumber(s, 1);
      ScannedIsNumber(s, r + 1);
      ScannedIsNumber(s, c + 1);
      ScannedIsNumber(s, slot + 1);
      assert BeginsWith(s, r, c, slot, ScanField(s, Some(slot), 's').value);
    }
    if r: nat, c: nat, slot: nat, end: nat :| BeginsWith(s, r, c, slot, end) {
      NumberIsScanned(s, 1, r);
      NumberIsScanned(s, r + 1, c);
      NumberIsScanned(s, c + 1, slot);
      NumberIsScanned(s, slot + 1, end);
    }
  }

  /** Every conforming name is accepted; an accepted name conforms exactly when the last three letters stand at
      positions 3, 6 and 9 and the last character is a digit. */
  lemma AcceptedIffConforming(s: string)
    ensures Conforming(s) ==> Accepted(s)
    ensures Accepted(s) ==> (Conforming(s) <==> s[3] == 'r' && s[6] == 'c' && s[9] == 's' && IsDigit(s[11]))
  {
  }

  /** The scan accepts names that do not conform. */
  lemma AcceptedButNotConforming()
    ensures Accepted("i1r2c3s4zzzz") && !Conforming("i1r2c3s4zzzz")
  {
    var s := "i1r2c3s4zzzz";
    assert ScanField(s, Some(0), 'i') == Some(2);
    assert ScanField(s, Some(2), 'r') == Some(4);
    assert ScanField(s, Some(4), 'c') == Some(6);
    assert ScanField(s, Some(6), 's') == Some(8);
  }

  // ---- the build

  function SupermucAdapter(name: string): P.Adapter {
    P.Adapter(name, None, None, None, None, map[], map[])
  }

  /** Interns `id`, gives its vertex the type, the description and one more adapter. */
  function AddNode(t: Snapshot, id: string, name: string, c: Component): Snapshot {
    var named := Intern(t, id);
    var v := named.ids[id];
    Put(named, v, Vertex(At(named, v).adapters + [SupermucAdapter(name)], name, c))
  }

  function LinkOnce(t: Snapshot, parent: nat, child: nat): Snapshot {
    if HasEdge(t.edges, parent, child) then t else AddEdges(t, ParentChild(parent, child))
  }

  function VertexOf(t: Snapshot, id: string): nat {
    if id in t.ids then t.ids[id] else 0
  }

  /** The vertices of a slot, a column, a rack and an island, under these identifiers and with these names. */
  function AddNodes(t: Snapshot, slotId: string, columnId: string, rackId: string, islandId: string,
                    slot: string, column: string, rack: string, island: string): Snapshot {
    var withColumn := AddNode(AddNode(t, slotId, slot, Node), columnId, column, Misc);
    AddNode(AddNode(withColumn, rackId, rack, Misc), islandId, island, Misc)
  }

  /** The links between them. */
  function LinkNodes(t: Snapshot, slotId: string, columnId: string, rackId: string, islandId: string): Snapshot {
    var (slot, column) := (VertexOf(t, slotId), VertexOf(t, columnId));
    var (rack, island) := (VertexOf(t, rackId), VertexOf(t, islandId));
    LinkOnce(LinkOnce(LinkOnce(t, island, rack), rack, column), column, slot)
  }

  /** What one host name adds. */
  function AddHost(t: Snapshot, name: string): Snapshot {
    var (column, rack, island) := (Take(name, 9), Take(name, 6), Take(name, 3));
    var nodes := AddNodes(t, MachineId(name), SystemId(column), SystemId(rack), SystemId(island),
                          name, column, rack, island);
    LinkNodes(nodes, MachineId(name), SystemId(column), SystemId(rack), SystemId(island))
  }

  function AddHosts(t: Snapshot, names: seq<string>): Snapshot {
    if names == [] then t else AddHost(AddHosts(t, names[..|names| - 1]), names[|names| - 1])
  }

  /** make_supermuc_node, and the set-up of a slot, which differs in the identifier and the type. */
  method MakeNode(g: Graph, id: string, name: string, c: Component) returns (vd: nat)
    requires Valid(g.View())
    modifies g
    ensures g.View() == AddNode(old(g.View()), id, name, c)
    ensures vd == VertexOf(g.View(), id) < |g.vertices|
    ensures forall other :: other in old(g.View()).ids ==> VertexOf(g.View(), other) == VertexOf(old(g.View()), other)
    ensures Valid(g.View()) && |old(g.View()).vertices| <= |g.vertices| && id in g.View().ids
    ensures old(g.View()).ids.Keys <= g.View().ids.Keys
  {
    ghost var t := g.View();
    InternValid(t, id);
    vd := g.AddNamedVertex(id);
    g.SetVertex(vd, Vertex(g.vertices[vd].adapters + [SupermucAdapter(name)], name, c));
  }

  method Link(g: Graph, parent: nat, child: nat)
    requires Valid(g.View()) && parent < |g.vertices| && child < |g.vertices|
    modifies g
    ensures Valid(g.View()) && |g.vertices| == |old(g.View()).vertices|
    ensures g.View() == LinkOnce(old(g.View()), parent, child)
  {
    if !HasEdge(g.edges, parent, child) {
      ghost var es := g.edges;
      g.AddEdge(parent, child, CHILD);
      g.AddEdge(child, parent, PARENT);
      assert es + [Edge(parent, child, CHILD)] + [Edge(child, parent, PARENT)] == es + ParentChild(parent, child);
    }
  }

  function Row(buffers: array2<char>, i: nat): (r: seq<char>)
    requires i < buffers.Length0
    reads buffers
    ensures |r| == buffers.Length1
  {
    seq(buffers.Length1, j requires 0 <= j < buffers.Length1 reads buffers => buffers[i, j])
  }

  /** hostnames[i][k] = '\0'. */
  method Truncate(buffers: array2<char>, i: nat, k: nat)
    requires i < buffers.Length0 && k < buffers.Length1
    modifies buffers
    ensures CString(Row(buffers, i)) == Take(old(CString(Row(buffers, i))), k)
    ensures forall r :: 0 <= r < buffers.Length0 && r != i ==> Row(buffers, r) == old(Row(buffers, r))
  {
    ghost var before := Row(buffers, i);
    TruncateInPlace(before, k);
    buffers[i, k] := '\0';
    assert Row(buffers, i) == before[k := '\0'];
  }

  /** make_supermuc_graph, after the exchange of hostnames: one row of the buffer for every rank. */
  method MakeSupermucGraph(g: Graph, hostnames: array2<char>, ghost names: seq<string>)
    requires Valid(g.View()) && hostnames.Length1 == 32
    requires |names| == hostnames.Length0
    requires forall i :: 0 <= i < |names| ==> names[i] == CString(Row(hostnames, i))
    modifies g, hostnames
    ensures g.View() == AddHosts(old(g.View()), names)
  {
    ghost var built := AddHosts(g.View(), names[..0]);
    for i := 0 to hostnames.Length0
      invariant Valid(g.View()) && g.View() == built && built == AddHosts(old(g.View()), names[..i])
      invariant forall r :: i <= r < |names| ==> names[r] == CString(Row(hostnames, r))
    {
      AddHostsStep(old(g.View()), names, i);
      built := AddHosts(old(g.View()), names[..i + 1]);
      AddOneHost(g, hostnames, i, names[i]);
    }
    assert names[..|names|] == names;
  }

  lemma AddHostsStep(t: Snapshot, names: seq<string>, i: nat)
    requires i < |names|
    ensures AddHosts(t, names[..i + 1]) == AddHost(AddHosts(t, names[..i]), names[i])
  {
    assert names[..i + 1][..i] == names[..i];
  }

  lemma TakeTwice(s: string)
    ensures Take(Take(s, 9), 6) == Take(s, 6) && Take(Take(s, 6), 3) == Take(s, 3)
  {
  }

  /** The body of the loop. */
  method AddOneHost(g: Graph, hostnames: array2<char>, i: nat, ghost name: string)
    requires Valid(g.View()) && hostnames.Length1 == 32 && i < hostnames.Length0
    requires name == CString(Row(hostnames, i))
    modifies g, hostnames
    ensures g.View() == AddHost(old(g.View()), name)
    ensures Valid(g.View())
    ensures forall r :: 0 <= r < hostnames.Length0 && r != i ==> Row(hostnames, r) == old(Row(hostnames, r))
  {
    ghost var t := g.View();
    TakeTwice(name);
    var slotName := CString(Row(hostnames, i));
    var slotVd := MakeNode(g, MachineId(slotName), slotName, Node);
    Truncate(hostnames, i, 9);
    var columnName := CString(Row(hostnames, i));
    var columnVd := MakeNode(g, SystemId(columnName), columnName, Misc);
    Truncate(hostnames, i, 6);
    var rackName := CString(Row(hostnames, i));
    assert rackName == Take(name, 6);
    var rackVd := MakeNode(g, SystemId(rackName), rackName, Misc);
    Truncate(hostnames, i, 3);
    var islandName := CString(Row(hostnames, i));
    assert islandName == Take(name, 3);
    var islandVd := MakeNode(g, SystemId(islandName), islandName, Misc);
    Link(g, islandVd, rackVd);
    Link(g, rackVd, columnVd);
    Link(g, columnVd, slotVd);
  }

  /** ModuleSuperMUC::init_graph: the graph is built only if MPI runs and the own host name passes the checks. */
  method InitGraph(g: Graph, initialized: bool, hostname: string, hostnames: array2<char>, ghost names: seq<string>)
    returns (ok: bool)
    requires Valid(g.View()) && hostnames.Length1 == 32 && |names| == hostnames.Length0
    requires forall i :: 0 <= i < |names| ==> names[i] == CString(Row(hostnames, i))
    modifies g, hostnames
    ensures ok <==> initialized && Accepted(hostname)
    ensures g.View() == if ok then AddHosts(old(g.View()), names) else old(g.View())
  {
    if !initialized || !Accepted(hostname) {
      return false;
    }
    MakeSupermucGraph(g, hostnames, names);
    return true;
  }
}
