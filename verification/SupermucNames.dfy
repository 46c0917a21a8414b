/** The names that reach the exchange of the SuperMUC module. A rank takes part only after its own name has passed the
    checks, so every name is accepted; names off the convention are among them. */
module SupermucNames {
  import opened Options
  import opened Supermuc
  import opened SupermucQueries
  import opened SupermucTrie
  import opened Topology

  /** What every name in the exchange has passed. */
  predicate AllAccepted(names: seq<string>) {
    forall h :: h in names ==> Accepted(h)
  }

  // the parts of a name, as the scan finds them
  function IslandPart(s: string): string { if IslandEnd(s).Some? then Take(s, IslandEnd(s).value) else s }
  function RackPart(s: string): string { if RackEnd(s).Some? then Take(s, RackEnd(s).value) else s }
  function ColumnPart(s: string): string { if ColumnEnd(s).Some? then Take(s, ColumnEnd(s).value) else s }

  /** Where the parts of an accepted name end. */
  lemma PartEnds(s: string)
    requires Accepted(s)
    ensures IslandEnd(s).Some? && RackEnd(s).Some? && ColumnEnd(s).Some?
    ensures 2 <= IslandEnd(s).value <= 3
    ensures IslandEnd(s).value + 2 <= RackEnd(s).value <= IslandEnd(s).value + 3
    ensures RackEnd(s).value + 2 <= ColumnEnd(s).value <= RackEnd(s).value + 3
    ensures s[IslandEnd(s).value] == 'r' && s[RackEnd(s).value] == 'c' && s[ColumnEnd(s).value] == 's'
    ensures IsDigit(s[RackEnd(s).value + 1]) && IsDigit(s[ColumnEnd(s).value + 1])
  {
  }

  /** The cuts after 3, 6 and 9 characters are the ends of island, rack and column exactly when the letters stand where
      the convention has them. */
  lemma CutsArePartsIff(s: string)
    requires Accepted(s)
    ensures IslandEnd(s) == Some(3) && RackEnd(s) == Some(6) && ColumnEnd(s) == Some(9)
            <==> s[3] == 'r' && s[6] == 'c' && s[9] == 's'
  {
  }

  /** An island's vertex stands for the island, whatever accepted names it has. */
  lemma IslandCut(h1: string, h2: string)
    requires Accepted(h1) && Accepted(h2)
    ensures h1[..3] == h2[..3] <==> IslandPart(h1) == IslandPart(h2)
  {
    PartEnds(h1);
    PartEnds(h2);
    var a1, a2 := IslandEnd(h1).value, IslandEnd(h2).value;
    if h1[..3] == h2[..3] {
      assert forall i :: 0 <= i < 3 ==> h1[..3][i] == h1[i] && h2[..3][i] == h2[i];
      assert IslandPart(h1) == IslandPart(h2);
    }
    if IslandPart(h1) == IslandPart(h2) {
      assert |IslandPart(h1)| == a1 && |IslandPart(h2)| == a2;
      assert forall i :: 0 <= i < a1 ==> h1[..a1][i] == h1[i] && h2[..a2][i] == h2[i];
      assert h1[..3] == h2[..3];
    }
  }

  /** Names with the same cut have the same part, and if a part ends at most one character before the cut, the part
      determines the cut. */
  lemma RackCut(h1: string, h2: string)
    requires Accepted(h1) && Accepted(h2)
    ensures h1[..6] == h2[..6] ==> RackPart(h1) == RackPart(h2)
    ensures RackPart(h1) == RackPart(h2) && RackEnd(h1).Some? && RackEnd(h1).value >= 5 ==> h1[..6] == h2[..6]
  {
    PartEnds(h1);
    PartEnds(h2);
    var b1, b2 := RackEnd(h1).value, RackEnd(h2).value;
    if h1[..6] == h2[..6] {
      assert forall i :: 0 <= i < 6 ==> h1[..6][i] == h1[i] && h2[..6][i] == h2[i];
      assert RackPart(h1) == RackPart(h2);
    }
    if RackPart(h1) == RackPart(h2) && b1 >= 5 {
      assert |RackPart(h1)| == b1 && |RackPart(h2)| == b2;
      assert forall i :: 0 <= i < b1 ==> h1[..b1][i] == h1[i] && h2[..b2][i] == h2[i];
      assert h1[..6] == h2[..6];
    }
  }

  lemma ColumnCut(h1: string, h2: string)
    requires Accepted(h1) && Accepted(h2)
    ensures h1[..9] == h2[..9] ==> ColumnPart(h1) == ColumnPart(h2)
    ensures ColumnPart(h1) == ColumnPart(h2) && ColumnEnd(h1).Some? && ColumnEnd(h1).value >= 8 ==> h1[..9] == h2[..9]
  {
    PartEnds(h1);
    PartEnds(h2);
    var c1, c2 := ColumnEnd(h1).value, ColumnEnd(h2).value;
    if h1[..9] == h2[..9] {
      assert forall i :: 0 <= i < 9 ==> h1[..9][i] == h1[i] && h2[..9][i] == h2[i];
      assert ColumnPart(h1) == ColumnPart(h2);
    }
    if ColumnPart(h1) == ColumnPart(h2) && c1 >= 8 {
      assert |ColumnPart(h1)| == c1 && |ColumnPart(h2)| == c2;
      assert forall i :: 0 <= i < c1 ==> h1[..c1][i] == h1[i] && h2[..c2][i] == h2[i];
      assert h1[..9] == h2[..9];
    }
  }

  /** Otherwise some other accepted name of the same rack is cut differently. */
  lemma RackSplits(h: string) returns (other: string)
    requires Accepted(h) && RackEnd(h) == Some(4)
    ensures Accepted(other) && RackPart(other) == RackPart(h) && other[..6] != h[..6]
  {
    PartEnds(h);
    other := h[5 := if h[5] == '0' then '1' else '0'];
    assert forall i :: 0 <= i < 12 && i != 5 ==> other[i] == h[i];
    assert IslandEnd(other) == IslandEnd(h) && RackEnd(other) == RackEnd(h) && ColumnEnd(other) == ColumnEnd(h);
    assert other[..4] == h[..4];
    assert other[..6][5] != h[..6][5];
  }

  /** The vertex of a name's rack stands for that rack exactly when the scan ends the rack in the fifth or sixth
      character, that is, unless island and rack both have one digit. */
  lemma RackIsExactIff(h: string)
    requires Accepted(h)
    ensures (forall other :: Accepted(other) && RackPart(other) == RackPart(h) ==> other[..6] == h[..6]) <==>
            RackEnd(h) != Some(4)
  {
    PartEnds(h);
    if RackEnd(h) == Some(4) {
      var other := RackSplits(h);
    } else {
      forall other | Accepted(other) && RackPart(other) == RackPart(h)
        ensures other[..6] == h[..6]
      {
        RackCut(h, other);
      }
    }
  }

  /** If the scan ends the column earlier, the cut takes the digit behind it along. */
  lemma ColumnSplits(h: string) returns (other: string)
    requires Accepted(h) && ColumnEnd(h).Some? && ColumnEnd(h).value < 8
    ensures Accepted(other) && ColumnPart(other) == ColumnPart(h) && other[..9] != h[..9]
  {
    PartEnds(h);
    var c := ColumnEnd(h).value;
    other := h[c + 1 := if h[c + 1] == '0' then '1' else '0'];
    assert forall i :: 0 <= i < 12 && i != c + 1 ==> other[i] == h[i];
    assert IslandEnd(other) == IslandEnd(h) && RackEnd(other) == RackEnd(h) && ColumnEnd(other) == ColumnEnd(h);
    assert other[..c] == h[..c];
    assert other[..9][c + 1] != h[..9][c + 1];
  }

  /** The vertex of a name's column stands for that column exactly when the scan ends the column in the ninth or tenth
      character. */
  lemma ColumnIsExactIff(h: string)
    requires Accepted(h)
    ensures (forall other :: Accepted(other) && ColumnPart(other) == ColumnPart(h) ==> other[..9] == h[..9]) <==>
            ColumnEnd(h) in {Some(8), Some(9)}
  {
    PartEnds(h);
    if ColumnEnd(h).value < 8 {
      var other := ColumnSplits(h);
    } else {
      forall other | Accepted(other) && ColumnPart(other) == ColumnPart(h)
        ensures other[..9] == h[..9]
      {
        ColumnCut(h, other);
      }
    }
  }

  /** In the graph of an exchange, two hosts share the vertex of the island exactly if they have the same island; the
      same for rack and column, provided the scan ends these parts at most one character before the cut. */
  ghost predicate VerticesAreParts(t: Snapshot, h1: string, h2: string)
    requires |h1| == |h2| == 12
  {
    && (V(t, h1[..3]) == V(t, h2[..3]) <==> IslandPart(h1) == IslandPart(h2))
    && (V(t, h1[..6]) == V(t, h2[..6]) ==> RackPart(h1) == RackPart(h2))
    && (RackPart(h1) == RackPart(h2) && RackEnd(h1) != Some(4) ==> V(t, h1[..6]) == V(t, h2[..6]))
    && (V(t, h1[..9]) == V(t, h2[..9]) ==> ColumnPart(h1) == ColumnPart(h2))
    && (ColumnPart(h1) == ColumnPart(h2) && ColumnEnd(h1) in {Some(8), Some(9)} ==> V(t, h1[..9]) == V(t, h2[..9]))
  }

  lemma HostsShareVertices(names: seq<string>, h1: string, h2: string)
    requires AllAccepted(names) && h1 in names && h2 in names
    ensures VerticesAreParts(AddHosts(EMPTY, names), h1, h2)
  {
    var t := AddHosts(EMPTY, names);
    CutsShare(names, t, h1, h2, 3);
    CutsShare(names, t, h1, h2, 6);
    CutsShare(names, t, h1, h2, 9);
    SharedParts(t, h1, h2);
  }

  lemma SharedParts(t: Snapshot, h1: string, h2: string)
    requires Accepted(h1) && Accepted(h2)
    requires V(t, h1[..3]) == V(t, h2[..3]) <==> h1[..3] == h2[..3]
    requires V(t, h1[..6]) == V(t, h2[..6]) <==> h1[..6] == h2[..6]
    requires V(t, h1[..9]) == V(t, h2[..9]) <==> h1[..9] == h2[..9]
    ensures VerticesAreParts(t, h1, h2)
  {
    PartEnds(h1);
    IslandCut(h1, h2);
    RackCut(h1, h2);
    ColumnCut(h1, h2);
  }

  lemma CutsShare(names: seq<string>, t: Snapshot, h1: string, h2: string, n: nat)
    requires AllAccepted(names) && h1 in names && h2 in names && IsLevel(n) && t == AddHosts(EMPTY, names)
    ensures V(t, h1[..n]) == V(t, h2[..n]) <==> h1[..n] == h2[..n]
  {
    CutIsPresent(names, h1, n);
    CutIsPresent(names, h2, n);
    SupermucIsTrie(names);
    DistinctVertices(t, names, h1[..n], h2[..n]);
  }

  lemma CutIsPresent(names: seq<string>, h: string, n: nat)
    requires h in names && |h| == 12 && IsLevel(n)
    ensures Present(names, h[..n])
  {
    SomeNameExtends(names, h[..n]);
    assert h[..n] <= h;
  }

  lemma DistinctVertices(t: Snapshot, names: seq<string>, p: string, q: string)
    requires VerticesArePrefixes(t, names) && Present(names, p) && Present(names, q)
    ensures V(t, p) == V(t, q) <==> p == q
  {
  }

  lemma TwoNames()
    ensures var (h1, h2) := ("i1r2c3s4zzzz", "i1r2c4s4zzzz");
            Accepted(h1) && Accepted(h2) && RackPart(h1) == RackPart(h2) && h1[..6] != h2[..6]
  {
    var (h1, h2) := ("i1r2c3s4zzzz", "i1r2c4s4zzzz");
    assert IslandEnd(h1) == Some(2) && RackEnd(h1) == Some(4) && ColumnEnd(h1) == Some(6);
    assert IslandEnd(h2) == Some(2) && RackEnd(h2) == Some(4) && ColumnEnd(h2) == Some(6);
    assert h1[..4] == "i1r2" && h2[..4] == "i1r2";
    assert h1[..6][5] != h2[..6][5];
  }

  /** Two accepted hosts of one rack whose rack has two vertices. */
  lemma OneRackTwoVertices()
    ensures var (h1, h2) := ("i1r2c3s4zzzz", "i1r2c4s4zzzz"); var t := AddHosts(EMPTY, [h1, h2]);
            Accepted(h1) && Accepted(h2) && RackPart(h1) == RackPart(h2) && V(t, h1[..6]) != V(t, h2[..6])
  {
    TwoNames();
    TwoHosts(["i1r2c3s4zzzz", "i1r2c4s4zzzz"], "i1r2c3s4zzzz", "i1r2c4s4zzzz");
  }

  lemma TwoHosts(names: seq<string>, h1: string, h2: string)
    requires names == [h1, h2] && Accepted(h1) && Accepted(h2)
    ensures V(AddHosts(EMPTY, names), h1[..6]) == V(AddHosts(EMPTY, names), h2[..6]) <==> h1[..6] == h2[..6]
  {
    assert names[0] == h1 && names[1] == h2;
    CutsShare(names, AddHosts(EMPTY, names), h1, h2, 6);
  }
}
