/** Pruning stray management vNICs, and finding the adapter a vNIC answers to. */
module VnicPrune {
  import opened Wrappers
  import opened Text
  import VnicHost

  /** A management vNIC with the alias its interface really has. */
  datatype Vnic = Vnic(name: string, sw: string, alias: string, ips: seq<string>)

  function Canonical(name: string): string {
    "vEthernet (" + name + ")"
  }

  predicate Routable(v: Vnic) {
    exists i :: 0 <= i < |v.ips| && !VnicHost.IsApipa(v.ips[i])
  }

  /** Some interface under the alias built from the name shows an address. */
  predicate ShowsAddress(vnics: seq<Vnic>, name: string) {
    exists i :: 0 <= i < |vnics| && Same(vnics[i].alias, Canonical(name)) && Routable(vnics[i])
  }

  predicate HasKept(all: seq<Vnic>, keep: seq<string>, sw: string) {
    exists i :: 0 <= i < |all| && Same(all[i].sw, sw) && ContainsSame(keep, all[i].name)
  }

  /** The part of the test that is decided by the listing taken at the start. */
  predicate Stray(all: seq<Vnic>, switches: seq<string>, keep: seq<string>, v: Vnic) {
    ContainsSame(switches, v.sw) && !ContainsSame(keep, v.name) && HasKept(all, keep, v.sw)
  }

  /** Remove-VMNetworkAdapter -Name removes every vNIC of that name. */
  function Unnamed(vnics: seq<Vnic>, name: string): seq<Vnic> {
    if vnics == [] then []
    else (if Same(vnics[0].name, name) then [] else [vnics[0]]) + Unnamed(vnics[1..], name)
  }

  /** By position in the listing: fails, the removals that throw; unread, the looks for an
      address that go unanswered and show none. */
  datatype Env = Env(fails: set<nat>, unread: set<nat>)

  /** What the loop makes of a listed vNIC: leave it, remove it unless its look shows an
      address, or remove it because nothing can show. */
  datatype Mark = Spared | Looked | Blind

  function Marks(all: seq<Vnic>, switches: seq<string>, keep: seq<string>, env: Env): (r: seq<Mark>)
    ensures |r| == |all|
  {
    seq(|all|, i requires 0 <= i < |all| =>
      if !Stray(all, switches, keep, all[i]) || i in env.fails then Spared else if i in env.unread then Blind else Looked)
  }

  predicate Named(vnics: seq<Vnic>, name: string) {
    exists i :: 0 <= i < |vnics| && Same(vnics[i].name, name)
  }

  predicate Condemned(now: seq<Vnic>, all: seq<Vnic>, marks: seq<Mark>, i: nat)
    requires i < |all| == |marks|
  {
    marks[i] == Blind || (marks[i] == Looked && !ShowsAddress(now, all[i].name))
  }

  /** Removing a name that is no longer there throws. */
  predicate Taken(now: seq<Vnic>, all: seq<Vnic>, marks: seq<Mark>, i: nat)
    requires i < |all| == |marks|
  {
    Condemned(now, all, marks, i) && Named(now, all[i].name)
  }

  /** The host after the first n of the listed vNICs. */
  function After(all: seq<Vnic>, marks: seq<Mark>, n: nat): seq<Vnic>
    requires n <= |all| == |marks|
  {
    if n == 0 then all
    else
      var now := After(all, marks, n - 1);
      if Taken(now, all, marks, n - 1) then Unnamed(now, all[n - 1].name) else now
  }

  /** The names reported as removed, each with its switch. */
  function Report(all: seq<Vnic>, marks: seq<Mark>, n: nat): seq<string>
    requires n <= |all| == |marks|
  {
    if n == 0 then []
    else
      Report(all, marks, n - 1)
        + if Taken(After(all, marks, n - 1), all, marks, n - 1) then [all[n - 1].name + "@" + all[n - 1].sw] else []
  }

  function Pruned(all: seq<Vnic>, switches: seq<string>, keep: seq<string>, env: Env): seq<Vnic> {
    After(all, Marks(all, switches, keep, env), |all|)
  }

  lemma PruneTurn(all: seq<Vnic>, marks: seq<Mark>, n: nat, now: seq<Vnic>, removed: seq<string>)
    requires n < |all| == |marks| && now == After(all, marks, n) && removed == Report(all, marks, n)
    ensures After(all, marks, n + 1) == if Taken(now, all, marks, n) then Unnamed(now, all[n].name) else now
    ensures Report(all, marks, n + 1) == removed + if Taken(now, all, marks, n) then [all[n].name + "@" + all[n].sw] else []
  {
  }

  lemma MarkIs(all: seq<Vnic>, switches: seq<string>, keep: seq<string>, env: Env, i: nat)
    requires i < |all|
    ensures var m := Marks(all, switches, keep, env)[i];
            && (m == Spared <==> !Stray(all, switches, keep, all[i]) || i in env.fails)
            && (m == Blind ==> i in env.unread) && (m == Looked ==> i !in env.unread)
  {
  }

  class Machine {
    var vnics: seq<Vnic>

    constructor (vs: seq<Vnic>)
      ensures vnics == vs
    {
      vnics := vs;
    }

    method PruneManagementVnics(switches: seq<string>, keep: seq<string>, env: Env)
      returns (updated: bool, removed: seq<string>)
      modifies this
      ensures vnics == Pruned(old(vnics), switches, keep, env)
      ensures removed == Report(old(vnics), Marks(old(vnics), switches, keep, env), |old(vnics)|)
      ensures updated <==> removed != []
      ensures !updated ==> vnics == old(vnics)
    {
      removed := [];
      if switches == [] {
        NothingMarked(vnics, Marks(vnics, switches, keep, env), |vnics|);
        return false, [];
      }
      var all := vnics;
      ghost var marks := Marks(all, switches, keep, env);
      for i := 0 to |all|
        invariant vnics == After(all, marks, i)
        invariant removed == Report(all, marks, i)
        invariant removed == [] ==> vnics == all
      {
        var a := all[i];
        PruneTurn(all, marks, i, vnics, removed);
        MarkIs(all, switches, keep, env, i);
        if !ContainsSame(switches, a.sw) || ContainsSame(keep, a.name) || !HasKept(all, keep, a.sw) {
          continue;
        }
        if i !in env.unread && ShowsAddress(vnics, a.name) {
          continue;
        }
        if i !in env.fails && Named(vnics, a.name) {
          vnics := Unnamed(vnics, a.name);
          removed := removed + [a.name + "@" + a.sw];
        }
      }
      updated := removed != [];
    }
  }

  lemma {:induction false} NothingMarked(all: seq<Vnic>, marks: seq<Mark>, n: nat)
    requires n <= |all| == |marks| && forall i :: 0 <= i < |marks| ==> marks[i] == Spared
    ensures After(all, marks, n) == all && Report(all, marks, n) == []
  {
    if n > 0 {
      NothingMarked(all, marks, n - 1);
    }
  }

  // ---- who is removed -----------------------------------------------------

  lemma {:induction false} UnnamedIs(vnics: seq<Vnic>, name: string, v: Vnic)
    ensures v in Unnamed(vnics, name) <==> v in vnics && !Same(v.name, name)
  {
    if vnics != [] {
      UnnamedIs(vnics[1..], name, v);
      assert vnics == [vnics[0]] + vnics[1..];
    }
  }

  /** No interface carries the alias of another name: what Windows gives a vNIC is
      its canonical alias, or that with a number behind it. */
  predicate AliasesTell(all: seq<Vnic>) {
    forall i, j :: 0 <= i < |all| && 0 <= j < |all| && Same(all[i].alias, Canonical(all[j].name)) ==> Same(all[i].name, all[j].name)
  }

  /** Somewhere among the first n is a marked vNIC of this name. */
  predicate Hit(all: seq<Vnic>, marks: seq<Mark>, name: string, n: nat)
    requires n <= |all| == |marks|
  {
    exists i :: 0 <= i < n && marks[i] != Spared && Same(all[i].name, name)
  }

  /** One of them is removed unlooked at, or the name's alias showed no address. */
  predicate Doomed(all: seq<Vnic>, marks: seq<Mark>, name: string, n: nat)
    requires n <= |all| == |marks|
  {
    exists i :: 0 <= i < n && Same(all[i].name, name) && Condemned(all, all, marks, i)
  }

  lemma SameAlias(a: string, b: string)
    requires Same(a, b)
    ensures Same(Canonical(a), Canonical(b))
  {
    var x, y := Canonical(a), Canonical(b);
    assert |a| == |Lower(a)| == |Lower(b)| == |b|;
    forall i | 0 <= i < |x| ensures LowerChar(x[i]) == LowerChar(y[i]) {
      if 11 <= i < |x| - 1 {
        assert x[i] == a[i - 11] && y[i] == b[i - 11];
        assert Lower(a)[i - 11] == Lower(b)[i - 11];
      }
    }
  }

  lemma ShownSame(all: seq<Vnic>, a: string, b: string)
    requires Same(a, b)
    ensures ShowsAddress(all, a) == ShowsAddress(all, b)
  {
    SameAlias(a, b);
  }

  lemma DoomedSame(all: seq<Vnic>, marks: seq<Mark>, a: string, b: string, n: nat)
    requires n <= |all| == |marks| && Same(a, b)
    ensures Doomed(all, marks, a, n) == Doomed(all, marks, b, n)
  {
  }

  lemma DoomedGrows(all: seq<Vnic>, marks: seq<Mark>, name: string, n: nat)
    requires n < |all| == |marks|
    ensures Doomed(all, marks, name, n + 1)
        <==> Doomed(all, marks, name, n) || (Same(name, all[n].name) && Condemned(all, all, marks, n))
  {
  }

  lemma TakenThisTurn(all: seq<Vnic>, marks: seq<Mark>, n: nat, v: Vnic)
    requires n < |all| == |marks|
    ensures var now := After(all, marks, n);
            v in After(all, marks, n + 1) <==> v in now && !(Same(v.name, all[n].name) && Condemned(now, all, marks, n))
  {
    var now := After(all, marks, n);
    UnnamedIs(now, all[n].name, v);
  }

  lemma {:induction false} LeftFromAll(all: seq<Vnic>, marks: seq<Mark>, n: nat, v: Vnic)
    requires n <= |all| == |marks| && v in After(all, marks, n)
    ensures v in all
  {
    if n > 0 {
      TakenThisTurn(all, marks, n - 1, v);
      LeftFromAll(all, marks, n - 1, v);
    }
  }

  /** A name not yet doomed shows what it showed at the start. */
  lemma {:induction false} StillShowing(all: seq<Vnic>, marks: seq<Mark>, n: nat)
    requires n < |all| == |marks| && AliasesTell(all)
    ensures Doomed(all, marks, all[n].name, n) || ShowsAddress(After(all, marks, n), all[n].name) == ShowsAddress(all, all[n].name)
    decreases n, 1
  {
    var now := After(all, marks, n);
    if !Doomed(all, marks, all[n].name, n) {
      forall u | u in now ensures u in all {
        LeftFromAll(all, marks, n, u);
      }
      forall u | u in all && Same(u.name, all[n].name) ensures u in now {
        DoomedSame(all, marks, u.name, all[n].name, n);
        SurvivesExactlyWhen(all, marks, n, u);
      }
    }
  }

  /** Exactly who is left: a vNIC is gone if and only if some stray of its name is not
      looked at, or is and the name's canonical alias shows no routable address. */
  lemma {:induction false} SurvivesExactlyWhen(all: seq<Vnic>, marks: seq<Mark>, n: nat, v: Vnic)
    requires n <= |all| == |marks| && AliasesTell(all) && v in all
    ensures v in After(all, marks, n) <==> !Doomed(all, marks, v.name, n)
    decreases n, 0
  {
    if n > 0 {
      SurvivesExactlyWhen(all, marks, n - 1, v);
      StillShowing(all, marks, n - 1);
      SurvivorTurn(all, marks, n - 1, v);
    }
  }

  lemma SurvivorTurn(all: seq<Vnic>, marks: seq<Mark>, n: nat, v: Vnic)
    requires n < |all| == |marks|
    requires v in After(all, marks, n) <==> !Doomed(all, marks, v.name, n)
    requires Doomed(all, marks, all[n].name, n) || ShowsAddress(After(all, marks, n), all[n].name) == ShowsAddress(all, all[n].name)
    ensures v in After(all, marks, n + 1) <==> !Doomed(all, marks, v.name, n + 1)
  {
    TakenThisTurn(all, marks, n, v);
    DoomedGrows(all, marks, v.name, n);
    if Same(v.name, all[n].name) {
      DoomedSame(all, marks, v.name, all[n].name, n);
    }
  }

  /** A vNIC whose namesakes are all unmarked stays, whatever the aliases. */
  lemma {:induction false} UnmarkedStay(all: seq<Vnic>, marks: seq<Mark>, n: nat, v: Vnic)
    requires n <= |all| == |marks| && v in all && !Hit(all, marks, v.name, n)
    ensures v in After(all, marks, n)
  {
    if n > 0 {
      UnmarkedStay(all, marks, n - 1, v);
      TakenThisTurn(all, marks, n - 1, v);
    }
  }

  function Label(v: Vnic): string {
    v.name + "@" + v.sw
  }

  /** Of the first n, some namesake of the vNIC is reported. */
  predicate NamesakeReported(all: seq<Vnic>, n: nat, report: seq<string>, v: Vnic) {
    exists i :: 0 <= i < n <= |all| && Same(all[i].name, v.name) && Label(all[i]) in report
  }

  /** Of the first n, the label is that of one that was marked, of whose name nothing is left. */
  predicate NoneLeftOf(all: seq<Vnic>, marks: seq<Mark>, n: nat, left: seq<Vnic>, x: string)
    requires |marks| == |all|
  {
    exists i :: 0 <= i < n <= |all| && x == Label(all[i]) && marks[i] != Spared && !Named(left, all[i].name)
  }

  /** Of every vNIC that is gone a namesake is reported; of every name reported nothing is
      left; and nothing is reported exactly when nothing is gone. */
  ghost predicate Tells(all: seq<Vnic>, marks: seq<Mark>, n: nat, left: seq<Vnic>, report: seq<string>)
    requires |marks| == |all|
  {
    && (forall v :: v in all && v !in left ==> NamesakeReported(all, n, report, v))
    && (forall x :: x in report ==> NoneLeftOf(all, marks, n, left, x))
    && (report == [] <==> left == all)
  }

  lemma ReportTurn(all: seq<Vnic>, marks: seq<Mark>, n: nat, left: seq<Vnic>, report: seq<string>)
    requires n < |all| == |marks| && Tells(all, marks, n, left, report) && left == After(all, marks, n) && report == Report(all, marks, n)
    ensures Tells(all, marks, n + 1, After(all, marks, n + 1), Report(all, marks, n + 1))
  {
    var left', report' := After(all, marks, n + 1), Report(all, marks, n + 1);
    PruneTurn(all, marks, n, left, report);
    if Taken(left, all, marks, n) {
      forall v ensures v in left' <==> v in left && !Same(v.name, all[n].name) {
        UnnamedIs(left, all[n].name, v);
      }
      assert report' == report + [Label(all[n])] && Label(all[n]) in report';
      assert !Named(left', all[n].name) by {
        assert forall i :: 0 <= i < |left'| ==> left'[i] in left';
      }
      assert all[n] in all && all[n] !in left';
      assert forall i :: 0 <= i < |left'| ==> left'[i] in left;
      forall x | x in report' ensures NoneLeftOf(all, marks, n + 1, left', x) {
        if x in report {
          var i :| 0 <= i < n && x == Label(all[i]) && marks[i] != Spared && !Named(left, all[i].name);
          FewerNamed(left, left', all[i].name);
        }
      }
    }
  }

  lemma FewerNamed(left: seq<Vnic>, left': seq<Vnic>, name: string)
    requires !Named(left, name) && forall i :: 0 <= i < |left'| ==> left'[i] in left
    ensures !Named(left', name)
  {
  }

  /** The report is what went, whatever the aliases and however names repeat. */
  lemma {:induction false} ReportTells(all: seq<Vnic>, marks: seq<Mark>, n: nat)
    requires n <= |all| == |marks|
    ensures Tells(all, marks, n, After(all, marks, n), Report(all, marks, n))
  {
    if n > 0 {
      ReportTells(all, marks, n - 1);
      ReportTurn(all, marks, n - 1, After(all, marks, n - 1), Report(all, marks, n - 1));
    }
  }

  /** Whatever the aliases and however names repeat, a kept vNIC is never removed. */
  lemma KeptStay(all: seq<Vnic>, switches: seq<string>, keep: seq<string>, env: Env, v: Vnic)
    requires v in all && ContainsSame(keep, v.name)
    ensures v in Pruned(all, switches, keep, env)
  {
    var marks := Marks(all, switches, keep, env);
    UnmarkedStay(all, marks, |all|, v);
  }

  /** So every switch that had a kept vNIC still has one. */
  lemma SwitchKeepsManagement(all: seq<Vnic>, switches: seq<string>, keep: seq<string>, env: Env, sw: string)
    requires HasKept(all, keep, sw)
    ensures HasKept(Pruned(all, switches, keep, env), keep, sw)
  {
    var i :| 0 <= i < |all| && Same(all[i].sw, sw) && ContainsSame(keep, all[i].name);
    var left := Pruned(all, switches, keep, env);
    KeptStay(all, switches, keep, env, all[i]);
    var j :| 0 <= j < |left| && left[j] == all[i];
  }

  predicate UniqueNames(all: seq<Vnic>) {
    forall i, j :: 0 <= i < j < |all| ==> !Same(all[i].name, all[j].name)
  }

  predicate CanonicalAliases(all: seq<Vnic>) {
    forall i :: 0 <= i < |all| ==> Same(all[i].alias, Canonical(all[i].name))
  }

  lemma UniqueShows(all: seq<Vnic>, i: nat)
    requires i < |all| && UniqueNames(all) && CanonicalAliases(all)
    ensures ShowsAddress(all, all[i].name) <==> Routable(all[i])
  {
    if ShowsAddress(all, all[i].name) {
      var j :| 0 <= j < |all| && Same(all[j].alias, Canonical(all[i].name)) && Routable(all[j]);
      CanonicalTells(all[j].name, all[i].name);
    }
  }

  /** With host-unique names and canonical aliases the prune takes the strays that show no
      address and nothing else: none on a switch that is not managed or has no kept vNIC,
      and one that holds an address if and only if its look goes unanswered. */
  lemma PrunesStraysOnly(all: seq<Vnic>, switches: seq<string>, keep: seq<string>, env: Env, i: nat)
    requires i < |all| && UniqueNames(all) && CanonicalAliases(all)
    ensures var ips := all[i].ips; var holds := exists k :: 0 <= k < |ips| && !StartsWith(ips[k], "169.254.");
            all[i] in Pruned(all, switches, keep, env) <==>
              (i in env.fails || (holds && i !in env.unread) || !ContainsSame(switches, all[i].sw)
               || ContainsSame(keep, all[i].name) || !HasKept(all, keep, all[i].sw))
  {
    var marks := Marks(all, switches, keep, env);
    AliasesBelong(all);
    SurvivesExactlyWhen(all, marks, |all|, all[i]);
    UniqueDoomed(all, marks, i);
    MarkIs(all, switches, keep, env, i);
  }

  lemma UniqueDoomed(all: seq<Vnic>, marks: seq<Mark>, i: nat)
    requires i < |all| == |marks| && UniqueNames(all) && CanonicalAliases(all)
    ensures Doomed(all, marks, all[i].name, |all|) <==> marks[i] == Blind || (marks[i] == Looked && !Routable(all[i]))
  {
    UniqueShows(all, i);
    assert Condemned(all, all, marks, i) <==> marks[i] == Blind || (marks[i] == Looked && !Routable(all[i]));
    assert forall j :: 0 <= j < |all| && Same(all[j].name, all[i].name) ==> j == i;
  }

  lemma CanonicalTells(a: string, b: string)
    requires Same(Canonical(a), Canonical(b))
    ensures Same(a, b)
  {
    var x, y := Canonical(a), Canonical(b);
    assert |x| == |Lower(x)| == |Lower(y)| == |y|;
    forall i | 0 <= i < |a| ensures LowerChar(a[i]) == LowerChar(b[i]) {
      assert a[i] == x[i + 11] && b[i] == y[i + 11];
      assert Lower(x)[i + 11] == Lower(y)[i + 11];
    }
  }

  lemma AliasesBelong(all: seq<Vnic>)
    requires CanonicalAliases(all)
    ensures AliasesTell(all)
  {
    forall i, j | 0 <= i < |all| && 0 <= j < |all| && Same(all[i].alias, Canonical(all[j].name))
      ensures Same(all[i].name, all[j].name)
    {
      CanonicalTells(all[i].name, all[j].name);
    }
  }

  /** What unique names are for: a stray's namesake, on whatever switch and with
      whatever address, is removed along with it - unless the alias built from the
      name shows an address at every look for a stray of the name, which spares them all. */
  lemma NamesakeGoesToo(all: seq<Vnic>, switches: seq<string>, keep: seq<string>, env: Env, i: nat, j: nat)
    requires i < |all| && j < |all| && AliasesTell(all) && i !in env.fails
    requires Stray(all, switches, keep, all[i]) && Same(all[j].name, all[i].name)
    ensures all[j] in Pruned(all, switches, keep, env) <==>
              && ShowsAddress(all, all[i].name)
              && forall k :: 0 <= k < |all| && Same(all[k].name, all[j].name) && Stray(all, switches, keep, all[k]) && k !in env.fails ==> k !in env.unread
  {
    var marks := Marks(all, switches, keep, env);
    SurvivesExactlyWhen(all, marks, |all|, all[j]);
    forall k | 0 <= k < |all| && Same(all[k].name, all[j].name) ensures ShowsAddress(all, all[k].name) == ShowsAddress(all, all[i].name) {
      ShownSame(all, all[k].name, all[i].name);
    }
    MarkIs(all, switches, keep, env, i);
    NamesakesDoomed(all, marks, i, j, ShowsAddress(all, all[i].name));
    forall k | 0 <= k < |all| ensures marks[k] == Blind <==> Stray(all, switches, keep, all[k]) && k !in env.fails && k in env.unread {
      MarkIs(all, switches, keep, env, k);
    }
  }

  lemma NamesakesDoomed(all: seq<Vnic>, marks: seq<Mark>, i: nat, j: nat, shows: bool)
    requires i < |all| == |marks| && j < |all| && marks[i] != Spared && Same(all[j].name, all[i].name)
    requires forall k :: 0 <= k < |all| && Same(all[k].name, all[j].name) ==> ShowsAddress(all, all[k].name) == shows
    ensures Doomed(all, marks, all[j].name, |all|) <==> !shows || exists k :: 0 <= k < |all| && Same(all[k].name, all[j].name) && marks[k] == Blind
  {
    if !shows {
      assert Condemned(all, all, marks, i);
    }
  }

  /** A host where that loses an address: two vNICs named stray, one on an unmanaged
      switch with a routable address under the numbered alias. */
  lemma NamesakeExample()
    ensures var stray := Vnic("stray", "S1", "vEthernet (stray)", []);
            var kept := Vnic("mgmt", "S1", "vEthernet (mgmt)", ["10.0.0.1"]);
            var other := Vnic("stray", "S2", "vEthernet (stray) 2", ["10.0.0.2"]);
            Routable(other) && other !in Pruned([stray, kept, other], ["S1"], ["mgmt"], Env({}, {}))
  {
    var stray := Vnic("stray", "S1", "vEthernet (stray)", []);
    var kept := Vnic("mgmt", "S1", "vEthernet (mgmt)", ["10.0.0.1"]);
    var other := Vnic("stray", "S2", "vEthernet (stray) 2", ["10.0.0.2"]);
    var all, switches, keep := [stray, kept, other], ["S1"], ["mgmt"];
    assert !VnicHost.IsApipa(other.ips[0]) by { assert "169.254."[1] == '6' && other.ips[0][1] == '0'; }
    assert Same(switches[0], stray.sw) && Same(keep[0], all[1].name) && Same(all[1].sw, stray.sw);
    assert !Same("mgmt", "stray") by {
      assert Lower("mgmt") != Lower("stray") by { assert |Lower("mgmt")| == 4 && |Lower("stray")| == 5; }
    }
    assert Stray(all, switches, keep, all[0]);
    AliasesOfExample(stray, kept, other);
    assert all[2] == other && Same(other.name, all[0].name);
    NamesakeGoesToo(all, switches, keep, Env({}, {}), 0, 2);
  }

  /** Unique names, canonical aliases, and a stray vNIC that holds the cluster's address:
      its look goes unanswered, and it is removed. */
  lemma UnreadExample()
    ensures var kept := Vnic("mgmt", "S1", "vEthernet (mgmt)", ["10.0.0.1"]);
            var stray := Vnic("stray", "S1", "vEthernet (stray)", ["10.0.0.9"]);
            var all := [kept, stray];
            && UniqueNames(all) && CanonicalAliases(all) && Routable(stray)
            && stray in Pruned(all, ["S1"], ["mgmt"], Env({}, {}))
            && stray !in Pruned(all, ["S1"], ["mgmt"], Env({}, {1}))
  {
    var kept := Vnic("mgmt", "S1", "vEthernet (mgmt)", ["10.0.0.1"]);
    var stray := Vnic("stray", "S1", "vEthernet (stray)", ["10.0.0.9"]);
    var all, switches, keep := [kept, stray], ["S1"], ["mgmt"];
    assert !VnicHost.IsApipa(stray.ips[0]) by { assert "169.254."[1] == '6' && stray.ips[0][1] == '0'; }
    assert Same(switches[0], stray.sw) && Same(keep[0], all[0].name) && Same(all[0].sw, stray.sw);
    assert Lower("mgmt") != Lower("stray") by { assert |Lower("mgmt")| == 4 && |Lower("stray")| == 5; }
    assert !ContainsSame(keep, stray.name);
    assert Canonical("mgmt") == kept.alias && Canonical("stray") == stray.alias;
    assert all[1] == stray;
    PrunesStraysOnly(all, switches, keep, Env({}, {}), 1);
    PrunesStraysOnly(all, switches, keep, Env({}, {1}), 1);
  }

  lemma AliasesOfExample(stray: Vnic, kept: Vnic, other: Vnic)
    requires stray == Vnic("stray", "S1", "vEthernet (stray)", [])
    requires kept == Vnic("mgmt", "S1", "vEthernet (mgmt)", ["10.0.0.1"])
    requires other == Vnic("stray", "S2", "vEthernet (stray) 2", ["10.0.0.2"])
    ensures AliasesTell([stray, kept, other]) && !ShowsAddress([stray, kept, other], "stray")
  {
    assert |Lower(stray.alias)| == 17 && |Lower(kept.alias)| == 16 && |Lower(other.alias)| == 19;
    assert |Lower(Canonical("stray"))| == 17 && |Lower(Canonical("mgmt"))| == 16;
  }

  // ---- the adapter a vNIC answers to --------------------------------------

  datatype Adapter = Adapter(name: string, mac: string, connected: bool)

  /** The canonical alias itself, or that alias with something behind it. */
  predicate IsCandidate(a: Adapter, vnic: string) {
    Same(a.name, Canonical(vnic)) || StartsWith(Lower(a.name), Lower(Canonical(vnic) + " "))
  }

  function Candidates(adapters: seq<Adapter>, vnic: string): seq<Adapter> {
    if adapters == [] then []
    else (if IsCandidate(adapters[0], vnic) then [adapters[0]] else []) + Candidates(adapters[1..], vnic)
  }

  /** A MAC with its separators dropped, and no MAC at all. */
  const NO_MAC := "000000000000"

  predicate HasMac(mac: Option<string>) {
    mac.Some? && mac.value != "" && mac.value != NO_MAC
  }

  /** Candidates come from the name alone; the vNIC's MAC, then being connected,
      only chooses between several. */
  method ResolveAlias(adapters: seq<Adapter>, vnic: string, mac: Option<string>) returns (alias: string)
    ensures Candidates(adapters, vnic) == [] ==> alias == Canonical(vnic)
    ensures Candidates(adapters, vnic) != [] ==>
              exists k: nat :: Chosen(Candidates(adapters, vnic), mac, k) && Candidates(adapters, vnic)[k].name == alias
  {
    var cands := [];
    for i := 0 to |adapters|
      invariant cands == Candidates(adapters[..i], vnic)
    {
      CandidatesAppend(adapters[..i], adapters[i], vnic);
      assert adapters[..i + 1] == adapters[..i] + [adapters[i]];
      if IsCandidate(adapters[i], vnic) {
        cands := cands + [adapters[i]];
      }
    }
    assert adapters[..|adapters|] == adapters;
    if |cands| == 0 {
      return Canonical(vnic);
    }
    if |cands| == 1 {
      assert Chosen(cands, mac, 0);
      return cands[0].name;
    }
    if HasMac(mac) {
      for i := 0 to |cands|
        invariant forall j :: 0 <= j < i ==> !Same(cands[j].mac, mac.value)
      {
        if Same(cands[i].mac, mac.value) {
          assert Chosen(cands, mac, i);
          return cands[i].name;
        }
      }
    }
    for i := 0 to |cands|
      invariant forall j :: 0 <= j < i ==> !cands[j].connected
    {
      if cands[i].connected {
        assert Chosen(cands, mac, i);
        return cands[i].name;
      }
    }
    assert Chosen(cands, mac, 0);
    return cands[0].name;
  }

  /** Among several candidates the first that has the vNIC's MAC; if none has, the first that
      is connected; if none is, the first. */
  predicate Chosen(cands: seq<Adapter>, mac: Option<string>, k: nat) {
    && k < |cands|
    && (|cands| > 1 ==>
          if HasMac(mac) && exists i :: 0 <= i < |cands| && Same(cands[i].mac, mac.value)
          then Same(cands[k].mac, mac.value) && forall j :: 0 <= j < k ==> !Same(cands[j].mac, mac.value)
          else if exists i :: 0 <= i < |cands| && cands[i].connected
          then cands[k].connected && forall j :: 0 <= j < k ==> !cands[j].connected
          else k == 0)
  }

  lemma {:induction false} CandidatesAppend(adapters: seq<Adapter>, a: Adapter, vnic: string)
    ensures Candidates(adapters + [a], vnic) == Candidates(adapters, vnic) + if IsCandidate(a, vnic) then [a] else []
  {
    if adapters != [] {
      assert (adapters + [a])[1..] == adapters[1..] + [a];
      CandidatesAppend(adapters[1..], a, vnic);
    }
  }

  lemma {:induction false} CandidatesAre(adapters: seq<Adapter>, vnic: string)
    ensures forall a :: a in Candidates(adapters, vnic) <==> a in adapters && IsCandidate(a, vnic)
  {
    if adapters != [] {
      CandidatesAre(adapters[1..], vnic);
      assert adapters == [adapters[0]] + adapters[1..];
    }
  }

  /** With the alias canonical - no leftover device beside it - resolution is the
      concatenation the other scripts use, whatever MACs the host's adapters have:
      a team member that shares the vNIC's MAC is never taken for it. */
  lemma CanonicalResolves(adapters: seq<Adapter>, vnic: string, mac: Option<string>, k: nat)
    requires forall x :: x in adapters && IsCandidate(x, vnic) ==> Same(x.name, Canonical(vnic))
    requires Chosen(Candidates(adapters, vnic), mac, k)
    ensures Same(Candidates(adapters, vnic)[k].name, Canonical(vnic))
  {
    CandidatesAre(adapters, vnic);
    assert Candidates(adapters, vnic)[k] in Candidates(adapters, vnic);
  }
}
