/** The switch mapping an operator gives for a move, printed as two hash tables. */
module SwitchMap {
  import opened Wrappers
  import opened Text
  import opened Ordering
  import opened Literals

  datatype Nic = Nic(source: string, target: string, vlan: int)

  /** The mapping the list stands for: blank sources are dropped, the last entry
      for a source wins. */
  function LastWins(nics: seq<Nic>): map<string, Nic> {
    if nics == [] then map[]
    else
      var n := nics[|nics| - 1];
      var before := LastWins(nics[..|nics| - 1]);
      if Blank(n.source) then before else before[n.source := n]
  }

  function Targets(m: map<string, Nic>): map<string, Cell> {
    map k | k in m :: Str(m[k].target)
  }

  function Vlans(m: map<string, Nic>): map<string, Cell> {
    map k | k in m :: Num(m[k].vlan)
  }

  predicate IsLastFor(nics: seq<Nic>, k: string, i: int) {
    && 0 <= i < |nics| && !Blank(k) && nics[i].source == k
    && forall j :: i < j < |nics| ==> nics[j].source != k
  }

  /** A source is mapped exactly when some non-blank entry names it, and then to
      the last such entry. */
  lemma {:induction false} LastWinsMeaning(nics: seq<Nic>, k: string)
    ensures k in LastWins(nics) <==> !Blank(k) && exists i :: 0 <= i < |nics| && nics[i].source == k
    ensures forall i :: IsLastFor(nics, k, i) ==> k in LastWins(nics) && LastWins(nics)[k] == nics[i]
  {
    if nics != [] {
      var front := nics[..|nics| - 1];
      var n := nics[|nics| - 1];
      LastWinsMeaning(front, k);
      assert nics == front + [n];
      forall i | IsLastFor(nics, k, i) ensures k in LastWins(nics) && LastWins(nics)[k] == nics[i] {
        if i < |front| {
          assert IsLastFor(front, k, i);
        }
      }
      if k in LastWins(front) {
        var i :| 0 <= i < |front| && front[i].source == k;
        assert nics[i].source == k;
      }
      if exists i :: 0 <= i < |nics| && nics[i].source == k {
        var i :| 0 <= i < |nics| && nics[i].source == k;
        if i < |front| {
          assert front[i].source == k;
        }
      }
    }
  }

  function RenderSwitchMap(names: seq<string>, m: map<string, Nic>): string
    requires forall k :: k in names ==> k in m
  {
    "$netMap = " + RenderTable(RowsOf(names, Targets(m))) + "\n"
      + ("$vlanMap = " + RenderTable(RowsOf(names, Vlans(m))) + "\n")
  }

  method PsSwitchMap(nics: seq<Nic>) returns (text: string, names: seq<string>)
    ensures StrictlySorted(names) && Walk(names, LastWins(nics))
    ensures forall k :: k in names ==> k in LastWins(nics)
    ensures text == RenderSwitchMap(names, LastWins(nics))
  {
    var byName: map<string, Nic> := map[];
    for i := 0 to |nics|
      invariant byName == LastWins(nics[..i])
    {
      assert nics[..i + 1][..i] == nics[..i];
      if !Blank(nics[i].source) {
        byName := byName[nics[i].source := nics[i]];
      }
    }
    assert nics[..|nics|] == nics;

    var walked := WalkKeysOf(byName);
    var sorted := new string[|walked|](i requires 0 <= i < |walked| => walked[i]);
    assert sorted[..] == walked;
    SortStrings(sorted);
    names := sorted[..];
    SortedWalk(walked, byName);

    text := PrintTables(names, byName);
  }

  /** Collecting the keys, in whatever order the map yields them. */
  method WalkKeysOf(m: map<string, Nic>) returns (names: seq<string>)
    ensures Walk(names, m)
  {
    names := [];
    var left := m.Keys;
    while left != {}
      invariant left <= m.Keys
      invariant forall k :: k in m <==> k in left || k in names
      invariant forall k :: k in left ==> k !in names
      invariant forall i, j :: 0 <= i < j < |names| ==> names[i] != names[j]
      decreases left
    {
      var k :| k in left;
      left := left - {k};
      names := names + [k];
    }
    assert Elements(names) == m.Keys;
  }

  lemma SortedWalk(walked: seq<string>, m: map<string, Nic>)
    requires Walk(walked, m)
    ensures Walk(Sort(walked), m) && StrictlySorted(Sort(walked))
  {
    SortKeeps(walked);
    DistinctByCount(walked, Sort(walked));
    SortedDistinctIsStrict(Sort(walked));
  }

  lemma DistinctByCount(s: seq<string>, t: seq<string>)
    requires multiset(s) == multiset(t)
    requires forall i, j :: 0 <= i < j < |s| ==> s[i] != s[j]
    ensures forall i, j :: 0 <= i < j < |t| ==> t[i] != t[j]
  {
    forall x ensures multiset(s)[x] <= 1 {
      CountAtMostOne(s, x);
    }
    forall i, j | 0 <= i < j < |t| ensures t[i] != t[j] {
      RepeatCounts(t, i, j);
    }
  }

  lemma RepeatCounts(t: seq<string>, i: nat, j: nat)
    requires i < j < |t|
    ensures t[i] == t[j] ==> multiset(t)[t[i]] >= 2
  {
    assert t == t[..i] + [t[i]] + t[i + 1..j] + [t[j]] + t[j + 1..];
  }

  lemma {:induction false} CountAtMostOne(s: seq<string>, x: string)
    requires forall i, j :: 0 <= i < j < |s| ==> s[i] != s[j]
    ensures multiset(s)[x] <= 1
  {
    if s != [] {
      CountAtMostOne(s[1..], x);
      assert s == [s[0]] + s[1..];
      if s[0] == x {
        assert x !in s[1..];
      }
    }
  }

  method PrintTables(names: seq<string>, m: map<string, Nic>) returns (text: string)
    requires forall k :: k in names ==> k in m
    ensures text == RenderSwitchMap(names, m)
  {
    ghost var sws, vls := RowsOf(names, Targets(m)), RowsOf(names, Vlans(m));
    var sw := "@{";
    var vl := "@{";
    for i := 0 to |names|
      invariant sw == Opened(sws[..i])
      invariant vl == Opened(vls[..i])
    {
      var n := m[names[i]];
      NextRow(sws, i);
      NextRow(vls, i);
      if i > 0 {
        sw := sw + "; ";
        vl := vl + "; ";
      }
      sw := sw + RenderEntry(names[i], Str(n.target));
      vl := vl + RenderEntry(names[i], Num(n.vlan));
    }
    assert sws[..|names|] == sws && vls[..|names|] == vls;
    sw := sw + "}";
    vl := vl + "}";
    text := "$netMap = " + sw + "\n" + ("$vlanMap = " + vl + "\n");
  }

  /** A table not yet closed. */
  function Opened(rows: seq<(string, Cell)>): string {
    "@{" + RenderEntries(rows)
  }

  lemma NextRow(rows: seq<(string, Cell)>, i: nat)
    requires i < |rows|
    ensures (if i > 0 then Opened(rows[..i]) + "; " else Opened(rows[..i])) + RenderEntry(rows[i].0, rows[i].1) == Opened(rows[..i + 1])
  {
    EntryTurn(rows[..i], rows[i]);
    assert rows[..i + 1] == rows[..i] + [rows[i]];
    assert ("@{" + RenderEntries(rows[..i])) + "" == "@{" + RenderEntries(rows[..i]);
  }

  // ---- the reader ---------------------------------------------------------

  function ReadAssigned(variable: string, t: string): Option<(map<string, Cell>, string)> {
    if !StartsWith(t, variable + " = ") then None else
    match ReadRows(t[|variable| + 3..])
    case None => None
    case Some((rows, rest)) =>
      if !StartsWith(rest, "\n") || Evaluate(rows).None? then None
      else Some((Evaluate(rows).value, rest[1..]))
  }

  function ReadSwitchMap(t: string): Option<(map<string, Cell>, map<string, Cell>)> {
    match ReadAssigned("$netMap", t)
    case None => None
    case Some((net, rest)) =>
      match ReadAssigned("$vlanMap", rest)
      case None => None
      case Some((vlan, after)) => if after == "" then Some((net, vlan)) else None
  }

  lemma AssignedRoundTrip(variable: string, order: seq<string>, m: map<string, Cell>, rest: string)
    requires Walk(order, m) && (forall k :: k in order ==> k in m)
    ensures ReadAssigned(variable, (variable + " = ") + RenderTable(RowsOf(order, m)) + "\n" + rest)
         == if CaseDistinct(m.Keys) then Some((m, rest)) else None
  {
    var table := RenderTable(RowsOf(order, m));
    var t := (variable + " = ") + table + "\n" + rest;
    assert t == (variable + " = ") + (table + ("\n" + rest));
    assert t[..|variable| + 3] == variable + " = " && t[|variable| + 3..] == table + ("\n" + rest);
    TableRoundTrip(RowsOf(order, m), "\n" + rest);
    WalkEvaluates(order, m, "\n" + rest);
    assert ("\n" + rest)[1..] == rest && ("\n" + rest)[..1] == "\n";
  }

  /** Read back, the two tables are the last-wins mapping: every mapped source
      with its target and its VLAN and nothing else - unless two sources differ
      only in case, when PowerShell refuses the text. */
  lemma SwitchMapReadsBack(names: seq<string>, nics: seq<Nic>)
    requires Walk(names, LastWins(nics)) && (forall k :: k in names ==> k in LastWins(nics))
    ensures ReadSwitchMap(RenderSwitchMap(names, LastWins(nics)))
         == if CaseDistinct(LastWins(nics).Keys)
            then Some((Targets(LastWins(nics)), Vlans(LastWins(nics)))) else None
  {
    var m := LastWins(nics);
    assert Targets(m).Keys == m.Keys == Vlans(m).Keys;
    var tail := ("$vlanMap" + " = ") + RenderTable(RowsOf(names, Vlans(m))) + "\n";
    assert "$netMap" + " = " == "$netMap = " && "$vlanMap" + " = " == "$vlanMap = ";
    AssignedRoundTrip("$netMap", names, Targets(m), tail);
    AssignedRoundTrip("$vlanMap", names, Vlans(m), "");
    assert tail + "" == tail;
  }

  /** The text depends on the mapping alone, not on the order Go walked it in. */
  lemma SwitchMapStable(names: seq<string>, names': seq<string>, nics: seq<Nic>)
    requires StrictlySorted(names) && Walk(names, LastWins(nics)) && (forall k :: k in names ==> k in LastWins(nics))
    requires StrictlySorted(names') && Walk(names', LastWins(nics)) && (forall k :: k in names' ==> k in LastWins(nics))
    ensures RenderSwitchMap(names, LastWins(nics)) == RenderSwitchMap(names', LastWins(nics))
  {
    StrictListingUnique(names, names');
  }

  // ---- what the script looks up -------------------------------------------

  /** What the two tables hold for a switch: the switch to join, and its VLAN. */
  datatype Row = Row(to: string, vlan: int)

  /** The tables as the script finds its way in them, ignoring case. */
  function Rows(nics: seq<Nic>): map<string, Row> {
    if nics == [] then map[]
    else
      var n := nics[|nics| - 1];
      var before := Rows(nics[..|nics| - 1]);
      if Blank(n.source) then before else before[Lower(n.source) := Row(n.target, n.vlan)]
  }

  predicate Agree(rows: map<string, Row>, m: map<string, Nic>) {
    && (forall k :: k in m ==> Lower(k) in rows && rows[Lower(k)] == Row(m[k].target, m[k].vlan))
    && (forall l :: l in rows ==> exists k :: k in m && Lower(k) == l)
  }

  lemma AgreeTurn(rows: map<string, Row>, m: map<string, Nic>, n: Nic)
    requires Agree(rows, m) && CaseDistinct(m[n.source := n].Keys)
    ensures Agree(rows[Lower(n.source) := Row(n.target, n.vlan)], m[n.source := n])
  {
    var rows', m' := rows[Lower(n.source) := Row(n.target, n.vlan)], m[n.source := n];
    forall k | k in m' ensures Lower(k) in rows' && rows'[Lower(k)] == Row(m'[k].target, m'[k].vlan) {
      if k != n.source {
        assert k in m'.Keys && n.source in m'.Keys && !Same(k, n.source);
      }
    }
    forall l | l in rows' ensures exists k :: k in m' && Lower(k) == l {
      if l == Lower(n.source) {
        assert n.source in m';
      } else {
        var k :| k in m && Lower(k) == l;
        assert k in m';
      }
    }
  }

  /** Looking a switch up finds the last-wins row of the source it names, in any case,
      when no two sources differ in case alone. */
  lemma {:induction false} RowsAgree(nics: seq<Nic>)
    requires CaseDistinct(LastWins(nics).Keys)
    ensures Agree(Rows(nics), LastWins(nics))
  {
    if nics != [] {
      var n, front := nics[|nics| - 1], nics[..|nics| - 1];
      assert LastWins(front).Keys <= LastWins(nics).Keys;
      RowsAgree(front);
      if !Blank(n.source) {
        AgreeTurn(Rows(front), LastWins(front), n);
      }
    }
  }
}
