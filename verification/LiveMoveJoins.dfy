/** A move that happened, onto a host that may lack some targets; and reconnects that fail. */
module LiveMoveJoins {
  import opened Wrappers
  import opened Text
  import SwitchMap
  import opened LiveMove
  import opened LiveMoveRuns

  // ---- turn by turn, whatever switches there are --------------------------

  /** The joins of the first n adapters on a host that has every target. */
  function Unhindered(off: seq<Adapter>, ads: seq<Adapter>, netMap: map<string, SwitchMap.Row>, single: bool, n: nat): (r: Joining)
    requires n <= |ads|
    ensures |r.ads| == |off|
  {
    if n == 0 then Joining(off, {}, true) else Taking(off, Unhindered(off, ads, netMap, single, n - 1), single, ads[n - 1], netMap)
  }

  /** The adapter on the destination that is taken for adapter n, which has a target: by its
      MAC; or, where it has none and all targets are one, the first that arrived disconnected
      and has not been taken for another. */
  function FoundFor(off: seq<Adapter>, ads: seq<Adapter>, netMap: map<string, SwitchMap.Row>, single: bool, n: nat): (r: Option<nat>)
    requires n < |ads|
    ensures r.Some? ==> r.value < |off|
  {
    if Wanted(ads[n], netMap) then Take(off, Unhindered(off, ads, netMap, single, n).done, single, ads[n]) else None
  }

  /** The target of an adapter that has one. */
  function TargetOf(ad: Adapter, netMap: map<string, SwitchMap.Row>): SwitchMap.Row
    requires Wanted(ad, netMap)
  {
    netMap[Lower(ad.sw)]
  }

  /** It is found on the destination, and its target is not there. */
  predicate Lacks(off: seq<Adapter>, ads: seq<Adapter>, netMap: map<string, SwitchMap.Row>, single: bool, switches: set<string>, n: nat)
    requires n < |ads|
  {
    FoundFor(off, ads, netMap, single, n).Some? && Lower(TargetOf(ads[n], netMap).to) !in switches
  }

  predicate LacksNone(off: seq<Adapter>, ads: seq<Adapter>, netMap: map<string, SwitchMap.Row>, single: bool, switches: set<string>, n: nat)
    requires n <= |ads|
  {
    forall k :: 0 <= k < n ==> !Lacks(off, ads, netMap, single, switches, k)
  }

  lemma {:induction false} UnhinderedGoesOn(off: seq<Adapter>, ads: seq<Adapter>, netMap: map<string, SwitchMap.Row>, single: bool, n: nat)
    requires n <= |ads|
    ensures Unhindered(off, ads, netMap, single, n).ok
  {
    if n > 0 {
      UnhinderedGoesOn(off, ads, netMap, single, n - 1);
    }
  }

  lemma AnyTurn(ads: seq<Adapter>, netMap: map<string, SwitchMap.Row>, drops: bool, vlans: set<nat>, single: bool,
      switches: set<string>, n: nat)
    requires n < |ads|
    requires var off := TakenOff(ads, netMap, drops, |ads|);
             JoinedUpTo(ads, netMap, drops, vlans, single, switches, n) == Unhindered(off, ads, netMap, single, n)
    ensures var off := TakenOff(ads, netMap, drops, |ads|);
            var j, j' := Unhindered(off, ads, netMap, single, n), JoinedUpTo(ads, netMap, drops, vlans, single, switches, n + 1);
            if Lacks(off, ads, netMap, single, switches, n) then !j'.ok && j'.ads == j.ads
            else j' == Unhindered(off, ads, netMap, single, n + 1)
  {
    var off := TakenOff(ads, netMap, drops, |ads|);
    var j := Unhindered(off, ads, netMap, single, n);
    UnhinderedGoesOn(off, ads, netMap, single, n);
    JoinedNext(ads, netMap, drops, vlans, single, switches, n, j);
    if Planned(ads[n], netMap) {
      TurnAgrees(ads, netMap, drops, n in vlans, single, switches, n, j);
    }
  }

  lemma {:induction false} JoinsUntilLacking(ads: seq<Adapter>, netMap: map<string, SwitchMap.Row>, drops: bool, vlans: set<nat>,
      single: bool, switches: set<string>, n: nat)
    requires n <= |ads| && LacksNone(TakenOff(ads, netMap, drops, |ads|), ads, netMap, single, switches, n)
    ensures JoinedUpTo(ads, netMap, drops, vlans, single, switches, n) == Unhindered(TakenOff(ads, netMap, drops, |ads|), ads, netMap, single, n)
  {
    if n == 0 {
      assert PlanOf(ads, netMap, vlans, 0) == [];
    } else {
      JoinsUntilLacking(ads, netMap, drops, vlans, single, switches, n - 1);
      AnyTurn(ads, netMap, drops, vlans, single, switches, n - 1);
    }
  }

  lemma {:induction false} ThrownStays(ads: seq<Adapter>, netMap: map<string, SwitchMap.Row>, drops: bool, vlans: set<nat>,
      single: bool, switches: set<string>, m: nat, n: nat)
    requires m <= n <= |ads| && !JoinedUpTo(ads, netMap, drops, vlans, single, switches, m).ok
    ensures JoinedUpTo(ads, netMap, drops, vlans, single, switches, n) == JoinedUpTo(ads, netMap, drops, vlans, single, switches, m)
  {
    if m < n {
      ThrownStays(ads, netMap, drops, vlans, single, switches, m, n - 1);
      JoinedNext(ads, netMap, drops, vlans, single, switches, n - 1, JoinedUpTo(ads, netMap, drops, vlans, single, switches, n - 1));
    }
  }

  // ---- what is joined, and what is as it arrived --------------------------

  /** Adapter i on the destination was joined last on account of adapter k. */
  predicate JoinedFor(off: seq<Adapter>, ads: seq<Adapter>, netMap: map<string, SwitchMap.Row>, single: bool, m: nat, i: nat, k: nat)
    requires m <= |ads| && k < m
  {
    FoundFor(off, ads, netMap, single, k) == Some(i) && forall l :: k < l < m ==> FoundFor(off, ads, netMap, single, l) != Some(i)
  }

  predicate NotFoundFor(off: seq<Adapter>, ads: seq<Adapter>, netMap: map<string, SwitchMap.Row>, single: bool, m: nat, i: nat)
    requires m <= |ads|
  {
    forall k :: 0 <= k < m ==> FoundFor(off, ads, netMap, single, k) != Some(i)
  }

  /** After the first m adapters: what was found for one of them is on that one's target, with
      its VLAN if it has one; everything else is as it arrived. */
  ghost predicate JoinedFirst(there: seq<Adapter>, off: seq<Adapter>, ads: seq<Adapter>, netMap: map<string, SwitchMap.Row>, single: bool, m: nat)
    requires m <= |ads|
  {
    && |there| == |off|
    && (forall i :: 0 <= i < |off| && NotFoundFor(off, ads, netMap, single, m, i) ==> there[i] == off[i])
    && (forall i, k :: 0 <= i < |off| && 0 <= k < m && JoinedFor(off, ads, netMap, single, m, i, k) ==>
          there[i].name == off[i].name && there[i].mac == off[i].mac && there[i].sw == TargetOf(ads[k], netMap).to
          && (TargetOf(ads[k], netMap).vlan > 0 ==> there[i].vlan == TargetOf(ads[k], netMap).vlan))
  }

  lemma JoinedOneMore(there: seq<Adapter>, next: seq<Adapter>, off: seq<Adapter>, ads: seq<Adapter>, netMap: map<string, SwitchMap.Row>,
      single: bool, m: nat)
    requires m < |ads| && JoinedFirst(there, off, ads, netMap, single, m) && SameIdentities(there, off)
    requires var at := FoundFor(off, ads, netMap, single, m);
             next == if at.None? then there
                     else there[at.value := Connected(there[at.value], TargetOf(ads[m], netMap).to, TargetOf(ads[m], netMap).vlan)]
    ensures JoinedFirst(next, off, ads, netMap, single, m + 1)
  {
    var at := FoundFor(off, ads, netMap, single, m);
    forall i | 0 <= i < |off| && NotFoundFor(off, ads, netMap, single, m + 1, i) ensures next[i] == off[i] {
      assert at != Some(i) && NotFoundFor(off, ads, netMap, single, m, i);
    }
    forall i, k | 0 <= i < |off| && 0 <= k <= m && JoinedFor(off, ads, netMap, single, m + 1, i, k)
      ensures next[i].name == off[i].name && next[i].mac == off[i].mac && next[i].sw == TargetOf(ads[k], netMap).to
      ensures TargetOf(ads[k], netMap).vlan > 0 ==> next[i].vlan == TargetOf(ads[k], netMap).vlan
    {
      if k < m {
        assert at != Some(i) && JoinedFor(off, ads, netMap, single, m, i, k);
      }
    }
  }

  lemma UnhinderedNext(off: seq<Adapter>, ads: seq<Adapter>, netMap: map<string, SwitchMap.Row>, single: bool, m: nat, there: seq<Adapter>)
    requires m < |ads| && there == Unhindered(off, ads, netMap, single, m).ads
    ensures var at := FoundFor(off, ads, netMap, single, m);
            Unhindered(off, ads, netMap, single, m + 1).ads ==
              if at.None? then there
              else there[at.value := Connected(there[at.value], TargetOf(ads[m], netMap).to, TargetOf(ads[m], netMap).vlan)]
  {
  }

  lemma UnhinderedTurn(off: seq<Adapter>, ads: seq<Adapter>, netMap: map<string, SwitchMap.Row>, single: bool, m: nat)
    requires m < |ads| && JoinedFirst(Unhindered(off, ads, netMap, single, m).ads, off, ads, netMap, single, m)
    ensures JoinedFirst(Unhindered(off, ads, netMap, single, m + 1).ads, off, ads, netMap, single, m + 1)
  {
    var there, next := Unhindered(off, ads, netMap, single, m).ads, Unhindered(off, ads, netMap, single, m + 1).ads;
    KeepsIdentities(off, ads, netMap, single, m);
    UnhinderedNext(off, ads, netMap, single, m, there);
    JoinedOneMore(there, next, off, ads, netMap, single, m);
  }

  lemma {:induction false} UnhinderedJoins(off: seq<Adapter>, ads: seq<Adapter>, netMap: map<string, SwitchMap.Row>, single: bool, m: nat)
    requires m <= |ads|
    ensures JoinedFirst(Unhindered(off, ads, netMap, single, m).ads, off, ads, netMap, single, m)
  {
    if m == 0 {
      assert Unhindered(off, ads, netMap, single, 0).ads == off;
    } else {
      UnhinderedJoins(off, ads, netMap, single, m - 1);
      UnhinderedTurn(off, ads, netMap, single, m - 1);
    }
  }

  lemma {:induction false} KeepsIdentities(off: seq<Adapter>, ads: seq<Adapter>, netMap: map<string, SwitchMap.Row>, single: bool, m: nat)
    requires m <= |ads|
    ensures SameIdentities(Unhindered(off, ads, netMap, single, m).ads, off)
  {
    if m > 0 {
      KeepsIdentities(off, ads, netMap, single, m - 1);
    }
  }

  predicate FirstLacking(off: seq<Adapter>, ads: seq<Adapter>, netMap: map<string, SwitchMap.Row>, single: bool, switches: set<string>, m: nat)
    requires m < |ads|
  {
    Lacks(off, ads, netMap, single, switches, m) && LacksNone(off, ads, netMap, single, switches, m)
  }

  lemma {:induction false} SomeFirst(off: seq<Adapter>, ads: seq<Adapter>, netMap: map<string, SwitchMap.Row>, single: bool, switches: set<string>, n: nat)
    returns (m: nat)
    requires n <= |ads| && !LacksNone(off, ads, netMap, single, switches, n)
    ensures m < n && FirstLacking(off, ads, netMap, single, switches, m)
  {
    m := n - 1;
    if !LacksNone(off, ads, netMap, single, switches, n - 1) {
      m := SomeFirst(off, ads, netMap, single, switches, n - 1);
    }
  }

  /** Where the joining ends: with the last adapter, or at the first that lacks its target. */
  lemma JoinsEnd(ads: seq<Adapter>, netMap: map<string, SwitchMap.Row>, drops: bool, vlans: set<nat>, single: bool, switches: set<string>)
    ensures var off, j := TakenOff(ads, netMap, drops, |ads|), JoinedUpTo(ads, netMap, drops, vlans, single, switches, |ads|);
            && (j.ok <==> LacksNone(off, ads, netMap, single, switches, |ads|))
            && (j.ok ==> j.ads == Unhindered(off, ads, netMap, single, |ads|).ads)
            && forall m :: 0 <= m < |ads| && FirstLacking(off, ads, netMap, single, switches, m) ==> j.ads == Unhindered(off, ads, netMap, single, m).ads
  {
    var off := TakenOff(ads, netMap, drops, |ads|);
    if LacksNone(off, ads, netMap, single, switches, |ads|) {
      JoinsUntilLacking(ads, netMap, drops, vlans, single, switches, |ads|);
      UnhinderedGoesOn(off, ads, netMap, single, |ads|);
    } else {
      var m := SomeFirst(off, ads, netMap, single, switches, |ads|);
      JoinsUntilLacking(ads, netMap, drops, vlans, single, switches, m);
      AnyTurn(ads, netMap, drops, vlans, single, switches, m);
      ThrownStays(ads, netMap, drops, vlans, single, switches, m + 1, |ads|);
      assert forall m' :: 0 <= m' < |ads| && FirstLacking(off, ads, netMap, single, switches, m') ==> m' == m;
    }
  }

  /** A move that happened and is listed on both sides, whatever switches the destination
      has, succeeds if and only if every adapter that has a target and is found there has that
      target there; and then what is found is joined and the rest is as it arrived. It fails
      at the first such one that lacks its target: what is found for those before it is
      joined, and the rest is as it arrived. */
  lemma MovedSucceedsExactlyWhen(v: Vm, netMap: map<string, SwitchMap.Row>, clustered: bool, env: Env)
    requires Tries(v, netMap, clustered, env) && env.move == Moved && env.listed && env.arrived
    ensures var single, off := OneTarget(PlanOf(v.ads, netMap, env.vlans, |v.ads|)), TakenOff(v.ads, netMap, env.drops, |v.ads|);
            var (v', ok) := Migrated(v, netMap, clustered, env);
            && (ok <==> forall n :: 0 <= n < |v.ads| ==> !Lacks(off, v.ads, netMap, single, env.switches, n))
            && !v'.here && v'.there.Some?
            && (ok ==> JoinedFirst(v'.there.value, off, v.ads, netMap, single, |v.ads|))
            && (forall m :: 0 <= m < |v.ads| && FirstLacking(off, v.ads, netMap, single, env.switches, m) ==>
                  JoinedFirst(v'.there.value, off, v.ads, netMap, single, m))
  {
    var single, off := OneTarget(PlanOf(v.ads, netMap, env.vlans, |v.ads|)), TakenOff(v.ads, netMap, env.drops, |v.ads|);
    MovedIs(v, netMap, clustered, env, single);
    JoinsEnd(v.ads, netMap, env.drops, env.vlans, single, env.switches);
    forall m | 0 <= m <= |v.ads| ensures JoinedFirst(Unhindered(off, v.ads, netMap, single, m).ads, off, v.ads, netMap, single, m) {
      UnhinderedJoins(off, v.ads, netMap, single, m);
    }
  }

  lemma {:induction false} ToldFindThemselves(ads: seq<Adapter>, netMap: map<string, SwitchMap.Row>, drops: bool, single: bool, n: nat)
    requires n <= |ads| && AllTold(ads, netMap, single, n)
    ensures var off := TakenOff(ads, netMap, drops, |ads|);
            && Halfway(Unhindered(off, ads, netMap, single, n), ads, netMap, drops, n)
            && forall k :: 0 <= k < n && Wanted(ads[k], netMap) ==> FoundFor(off, ads, netMap, single, k) == Some(k)
  {
    if n > 0 {
      var off := TakenOff(ads, netMap, drops, |ads|);
      ToldFindThemselves(ads, netMap, drops, single, n - 1);
      HalfwayNext(Unhindered(off, ads, netMap, single, n - 1), Unhindered(off, ads, netMap, single, n), ads, netMap, drops, single, n - 1);
      if Wanted(ads[n - 1], netMap) {
        TakesItselfExactlyWhen(ads, netMap, drops, single, n - 1);
      }
    }
  }

  /** The destination lacks the target of adapter m, and of none before it. */
  predicate FirstUnsupplied(ads: seq<Adapter>, netMap: map<string, SwitchMap.Row>, switches: set<string>, m: nat) {
    && m < |ads| && Wanted(ads[m], netMap) && Lower(netMap[Lower(ads[m].sw)].to) !in switches
    && forall k :: 0 <= k < m && Wanted(ads[k], netMap) ==> Lower(netMap[Lower(ads[k].sw)].to) in switches
  }

  /** Where every adapter with a target is told from the others, that is: success if and only
      if the destination has every target; and if it lacks one, every adapter before the first
      that it lacks the target of is where it should be, and that one and all behind it are
      as they arrived. */
  lemma ToldSucceedExactlyWhen(v: Vm, netMap: map<string, SwitchMap.Row>, clustered: bool, env: Env)
    requires Tries(v, netMap, clustered, env) && env.move == Moved && env.listed && env.arrived
    requires AllTold(v.ads, netMap, OneTarget(PlanOf(v.ads, netMap, env.vlans, |v.ads|)), |v.ads|)
    ensures var (v', ok) := Migrated(v, netMap, clustered, env);
            && (ok <==> Supplied(v.ads, netMap, env.switches))
            && v'.there.Some? && |v'.there.value| == |v.ads|
            && forall m: nat :: FirstUnsupplied(v.ads, netMap, env.switches, m) ==>
                 forall i :: 0 <= i < |v.ads| ==>
                   v'.there.value[i] == if i < m then Landing(v.ads[i], netMap, env.drops) else TakenOff(v.ads, netMap, env.drops, |v.ads|)[i]
  {
    var single := OneTarget(PlanOf(v.ads, netMap, env.vlans, |v.ads|));
    MovedIs(v, netMap, clustered, env, single);
    ToldJoins(v.ads, netMap, env.drops, env.vlans, single, env.switches);
  }

  lemma ToldJoins(ads: seq<Adapter>, netMap: map<string, SwitchMap.Row>, drops: bool, vlans: set<nat>, single: bool, switches: set<string>)
    requires AllTold(ads, netMap, single, |ads|)
    ensures var j := JoinedUpTo(ads, netMap, drops, vlans, single, switches, |ads|);
            && (j.ok <==> Supplied(ads, netMap, switches))
            && forall m: nat :: FirstUnsupplied(ads, netMap, switches, m) ==>
                 forall i :: 0 <= i < |ads| ==> j.ads[i] == if i < m then Landing(ads[i], netMap, drops) else TakenOff(ads, netMap, drops, |ads|)[i]
  {
    var off := TakenOff(ads, netMap, drops, |ads|);
    JoinsEnd(ads, netMap, drops, vlans, single, switches);
    ToldFindThemselves(ads, netMap, drops, single, |ads|);
    forall k | 0 <= k < |ads|
      ensures Lacks(off, ads, netMap, single, switches, k) <==> Wanted(ads[k], netMap) && Lower(netMap[Lower(ads[k].sw)].to) !in switches
    {
    }
    forall m: nat | FirstUnsupplied(ads, netMap, switches, m)
      ensures FirstLacking(off, ads, netMap, single, switches, m) && Halfway(Unhindered(off, ads, netMap, single, m), ads, netMap, drops, m)
    {
      ToldFindThemselves(ads, netMap, drops, single, m);
    }
  }

  /** One adapter, its target missing on the destination: the move fails with the VM there and
      the adapter disconnected. */
  lemma MissingTargetExample(to: string, mac: string)
    requires to != "" && mac != "" && mac != NO_MAC
    ensures var ad := Adapter("a", mac, "S", 0);
            var env := Env(true, true, true, true, {}, None, false, Moved, {}, true, {}, true, true, true);
            Migrated(Vm(true, false, [ad], None), map[Lower("S") := SwitchMap.Row(to, 0)], false, env) ==
              (Vm(false, false, [], Some([ad.(sw := "")])), false)
  {
    var ads, netMap := [Adapter("a", mac, "S", 0)], map[Lower("S") := SwitchMap.Row(to, 0)];
    var env := Env(true, true, true, true, {}, None, false, Moved, {}, true, {}, true, true, true);
    var v := Vm(true, false, ads, None);
    assert Tries(v, netMap, false, env);
    assert ByMac(ads, mac) == Some(0);
    assert AllTold(ads, netMap, OneTarget(PlanOf(ads, netMap, {}, 1)), 1);
    assert FirstUnsupplied(ads, netMap, {}, 0);
    ToldSucceedExactlyWhen(v, netMap, false, env);
    var there := Migrated(v, netMap, false, env).0.there;
    assert Planned(ads[0], netMap) && TakenOff(ads, netMap, false, 1)[0] == ads[0].(sw := "");
    assert there.value[0] == TakenOff(ads, netMap, false, 1)[0];
    assert there.value == [there.value[0]];
  }

  // ---- one target ---------------------------------------------------------

  /** The plan's entries are those of the planned adapters, each once and in their order. */
  lemma {:induction false} EntryHolds(ads: seq<Adapter>, netMap: map<string, SwitchMap.Row>, vlans: set<nat>, n: nat, i: nat)
    requires i < n <= |ads| && Planned(ads[i], netMap)
    ensures EntryAt(ads, netMap, i) < |PlanOf(ads, netMap, vlans, n)|
    ensures PlanOf(ads, netMap, vlans, n)[EntryAt(ads, netMap, i)] == EntryOf(ads[i], netMap, i in vlans)
  {
    PlanLength(ads, netMap, vlans, n - 1);
    if i < n - 1 {
      EntryHolds(ads, netMap, vlans, n - 1, i);
    }
  }

  lemma {:induction false} EntryComes(ads: seq<Adapter>, netMap: map<string, SwitchMap.Row>, vlans: set<nat>, n: nat, k: nat) returns (i: nat)
    requires n <= |ads| && k < |PlanOf(ads, netMap, vlans, n)|
    ensures i < n && Planned(ads[i], netMap) && PlanOf(ads, netMap, vlans, n)[k] == EntryOf(ads[i], netMap, i in vlans)
  {
    i := n - 1;
    if k < |PlanOf(ads, netMap, vlans, n - 1)| {
      i := EntryComes(ads, netMap, vlans, n - 1, k);
    }
  }

  /** No two adapters have different targets, letter case apart. */
  predicate TargetsAgree(ads: seq<Adapter>, netMap: map<string, SwitchMap.Row>) {
    forall i, j :: 0 <= i < |ads| && 0 <= j < |ads| && Wanted(ads[i], netMap) && Wanted(ads[j], netMap) ==>
      Lower(TargetOf(ads[i], netMap).to) == Lower(TargetOf(ads[j], netMap).to)
  }

  lemma OneTargetAgrees(ads: seq<Adapter>, netMap: map<string, SwitchMap.Row>, vlans: set<nat>, plan: seq<Entry>, k: nat)
    requires plan == PlanOf(ads, netMap, vlans, |ads|) && k < |plan| && plan[k].to != "" && AllTo(plan, plan[k].to)
    ensures !NoneWanted(ads, netMap) && TargetsAgree(ads, netMap)
  {
    var at := EntryComes(ads, netMap, vlans, |ads|, k);
    assert Wanted(ads[at], netMap);
    forall i | 0 <= i < |ads| && Wanted(ads[i], netMap) ensures Lower(TargetOf(ads[i], netMap).to) == Lower(plan[k].to) {
      EntryHolds(ads, netMap, vlans, |ads|, i);
      assert Same(plan[EntryAt(ads, netMap, i)].to, plan[k].to);
    }
  }

  lemma AgreeingIsOne(ads: seq<Adapter>, netMap: map<string, SwitchMap.Row>, vlans: set<nat>, plan: seq<Entry>, i: nat)
    requires plan == PlanOf(ads, netMap, vlans, |ads|) && TargetsAgree(ads, netMap) && i < |ads| && Wanted(ads[i], netMap)
    ensures OneTarget(plan)
  {
    EntryHolds(ads, netMap, vlans, |ads|, i);
    var t := plan[EntryAt(ads, netMap, i)].to;
    forall k | 0 <= k < |plan| && plan[k].to != "" ensures Same(plan[k].to, t) {
      var j := EntryComes(ads, netMap, vlans, |ads|, k);
      assert Wanted(ads[j], netMap);
    }
    assert AllTo(plan, t);
  }

  /** All targets count as one exactly if some adapter has a target and no two have different
      ones. */
  lemma OneTargetExactlyWhen(ads: seq<Adapter>, netMap: map<string, SwitchMap.Row>, vlans: set<nat>)
    ensures OneTarget(PlanOf(ads, netMap, vlans, |ads|)) <==> !NoneWanted(ads, netMap) && TargetsAgree(ads, netMap)
  {
    var plan := PlanOf(ads, netMap, vlans, |ads|);
    if OneTarget(plan) {
      var k :| 0 <= k < |plan| && plan[k].to != "" && AllTo(plan, plan[k].to);
      OneTargetAgrees(ads, netMap, vlans, plan, k);
    } else if !NoneWanted(ads, netMap) && TargetsAgree(ads, netMap) {
      var i :| 0 <= i < |ads| && Wanted(ads[i], netMap);
      AgreeingIsOne(ads, netMap, vlans, plan, i);
    }
  }

  // ---- reconnects that fail -----------------------------------------------

  predicate FirstOfMac(ads: seq<Adapter>, mac: string, i: nat) {
    i < |ads| && Lower(ads[i].mac) == Lower(mac) && forall k :: 0 <= k < i ==> Lower(ads[k].mac) != Lower(mac)
  }

  predicate FirstOfName(ads: seq<Adapter>, name: string, i: nat) {
    i < |ads| && Lower(ads[i].name) == Lower(name) && forall k :: 0 <= k < i ==> Lower(ads[k].name) != Lower(name)
  }

  /** An adapter is found again by its MAC, and by its name only if it had none or no adapter
      has it any more. */
  lemma FoundAgainExactlyWhen(ads: seq<Adapter>, p: Entry, i: nat)
    ensures BackTo(ads, p) == Some(i) <==>
              || (p.mac != "" && FirstOfMac(ads, p.mac, i))
              || ((p.mac == "" || forall k :: 0 <= k < |ads| ==> Lower(ads[k].mac) != Lower(p.mac)) && FirstOfName(ads, p.name, i))
  {
    assert ByMac(ads, p.mac).Some? ==> FirstOfMac(ads, p.mac, ByMac(ads, p.mac).value);
    assert ByName(ads, p.name).Some? ==> FirstOfName(ads, p.name, ByName(ads, p.name).value);
  }

  /** Which entry of the plan adapter i is. */
  function EntryAt(ads: seq<Adapter>, netMap: map<string, SwitchMap.Row>, i: nat): nat
    requires i <= |ads|
  {
    if i == 0 then 0 else EntryAt(ads, netMap, i - 1) + if Planned(ads[i - 1], netMap) then 1 else 0
  }

  /** An adapter that was off before stays as it is, one whose reconnect fails stays off, and
      every other is back on its switch, with the VLAN that was read of it. */
  function BackOr(ads: seq<Adapter>, netMap: map<string, SwitchMap.Row>, drops: bool, vlans: set<nat>, refused: set<nat>, i: nat): Adapter
    requires i < |ads|
  {
    if !Planned(ads[i], netMap) then ads[i]
    else if EntryAt(ads, netMap, i) in refused then ads[i].(sw := "", vlan := if drops then 0 else ads[i].vlan)
    else ads[i].(vlan := if drops && i !in vlans then 0 else ads[i].vlan)
  }

  lemma PutBackTurn(cur: seq<Adapter>, ads: seq<Adapter>, netMap: map<string, SwitchMap.Row>, drops: bool, vlans: set<nat>, k: nat)
    requires k < |ads| && DistinctMacs(ads) && SameIdentities(cur, ads) && Planned(ads[k], netMap) && cur[k] == Off(ads[k], drops)
    ensures PutBack(cur, EntryOf(ads[k], netMap, k in vlans)) ==
              cur[k := ads[k].(vlan := if drops && k !in vlans then 0 else ads[k].vlan)]
  {
    var e := EntryOf(ads[k], netMap, k in vlans);
    assert BackTo(cur, e) == Some(k) by {
      assert Same(cur[k].mac, e.mac);
      assert forall m :: 0 <= m < k ==> !Same(cur[m].mac, e.mac);
    }
  }

  /** Those of the first n are back, or their reconnects failed; the others are as they were
      taken off. */
  ghost predicate BackUpTo(cur: seq<Adapter>, ads: seq<Adapter>, netMap: map<string, SwitchMap.Row>, drops: bool, vlans: set<nat>,
      refused: set<nat>, n: nat)
  {
    && SameIdentities(cur, ads)
    && forall i :: 0 <= i < |ads| ==> cur[i] == if i < n then BackOr(ads, netMap, drops, vlans, refused, i) else TakenOff(ads, netMap, drops, |ads|)[i]
  }

  lemma BackTurnOr(cur: seq<Adapter>, next: seq<Adapter>, ads: seq<Adapter>, netMap: map<string, SwitchMap.Row>, drops: bool,
      vlans: set<nat>, refused: set<nat>, n: nat)
    requires n < |ads| && DistinctMacs(ads) && BackUpTo(cur, ads, netMap, drops, vlans, refused, n)
    requires next == if Planned(ads[n], netMap) && EntryAt(ads, netMap, n) !in refused then PutBack(cur, EntryOf(ads[n], netMap, n in vlans)) else cur
    ensures BackUpTo(next, ads, netMap, drops, vlans, refused, n + 1)
  {
    if Planned(ads[n], netMap) {
      PutBackTurn(cur, ads, netMap, drops, vlans, n);
    }
  }

  lemma PutNext(off: seq<Adapter>, front: seq<Entry>, e: Entry, refused: set<nat>)
    ensures AllPutBack(off, front + [e], refused) ==
              if |front| in refused then AllPutBack(off, front, refused) else PutBack(AllPutBack(off, front, refused), e)
  {
    assert (front + [e])[..|front|] == front;
  }

  lemma {:induction false} RefusedStayOff(ads: seq<Adapter>, netMap: map<string, SwitchMap.Row>, drops: bool, vlans: set<nat>,
      refused: set<nat>, n: nat)
    requires n <= |ads| && DistinctMacs(ads)
    ensures BackUpTo(AllPutBack(TakenOff(ads, netMap, drops, |ads|), PlanOf(ads, netMap, vlans, n), refused), ads, netMap, drops, vlans, refused, n)
  {
    if n == 0 {
      NoneBackYet(ads, netMap, drops, vlans, refused);
    } else {
      RefusedStayOff(ads, netMap, drops, vlans, refused, n - 1);
      RefusedTurn(TakenOff(ads, netMap, drops, |ads|), ads, netMap, drops, vlans, refused, n - 1);
    }
  }

  lemma NoneBackYet(ads: seq<Adapter>, netMap: map<string, SwitchMap.Row>, drops: bool, vlans: set<nat>, refused: set<nat>)
    ensures BackUpTo(AllPutBack(TakenOff(ads, netMap, drops, |ads|), PlanOf(ads, netMap, vlans, 0), refused), ads, netMap, drops, vlans, refused, 0)
  {
    assert PlanOf(ads, netMap, vlans, 0) == [];
  }

  lemma RefusedTurn(off: seq<Adapter>, ads: seq<Adapter>, netMap: map<string, SwitchMap.Row>, drops: bool, vlans: set<nat>,
      refused: set<nat>, n: nat)
    requires n < |ads| && DistinctMacs(ads)
    requires BackUpTo(AllPutBack(off, PlanOf(ads, netMap, vlans, n), refused), ads, netMap, drops, vlans, refused, n)
    ensures BackUpTo(AllPutBack(off, PlanOf(ads, netMap, vlans, n + 1), refused), ads, netMap, drops, vlans, refused, n + 1)
  {
    var cur, next := AllPutBack(off, PlanOf(ads, netMap, vlans, n), refused), AllPutBack(off, PlanOf(ads, netMap, vlans, n + 1), refused);
    PutBackNext(off, ads, netMap, vlans, refused, n);
    BackTurnOr(cur, next, ads, netMap, drops, vlans, refused, n);
  }

  lemma PutBackNext(off: seq<Adapter>, ads: seq<Adapter>, netMap: map<string, SwitchMap.Row>, vlans: set<nat>, refused: set<nat>, n: nat)
    requires n < |ads|
    ensures var cur := AllPutBack(off, PlanOf(ads, netMap, vlans, n), refused);
            AllPutBack(off, PlanOf(ads, netMap, vlans, n + 1), refused) ==
              if Planned(ads[n], netMap) && EntryAt(ads, netMap, n) !in refused then PutBack(cur, EntryOf(ads[n], netMap, n in vlans)) else cur
  {
    PlanLength(ads, netMap, vlans, n);
    if Planned(ads[n], netMap) {
      PutNext(off, PlanOf(ads, netMap, vlans, n), EntryOf(ads[n], netMap, n in vlans), refused);
    }
  }

  lemma {:induction false} PlanLength(ads: seq<Adapter>, netMap: map<string, SwitchMap.Row>, vlans: set<nat>, n: nat)
    requires n <= |ads|
    ensures |PlanOf(ads, netMap, vlans, n)| == EntryAt(ads, netMap, n)
  {
    if n > 0 {
      PlanLength(ads, netMap, vlans, n - 1);
    }
  }

  /** A move the destination refuses, with distinct MACs and whichever reconnects fail: those
      adapters stay off, and no others. */
  lemma RefusedMoveLeaves(v: Vm, netMap: map<string, SwitchMap.Row>, clustered: bool, env: Env)
    requires Tries(v, netMap, clustered, env) && DistinctMacs(v.ads) && env.move == Refused && env.listed
    ensures var (v', ok) := Migrated(v, netMap, clustered, env);
            && !ok && v'.here && |v'.ads| == |v.ads|
            && forall i :: 0 <= i < |v.ads| ==> v'.ads[i] == BackOr(v.ads, netMap, env.drops, env.vlans, env.refused, i)
  {
    RefusedStayOff(v.ads, netMap, env.drops, env.vlans, env.refused, |v.ads|);
  }

  // ---- before the move ----------------------------------------------------

  /** The disconnecting stops short exactly at an adapter that is listed, is on a switch the map
      names, and whose disconnect throws; those before it are off, and nothing is moved. */
  lemma StopsExactlyWhen(v: Vm, netMap: map<string, SwitchMap.Row>, clustered: bool, env: Env)
    requires v.here && Unclustered(v, clustered, env).1
    ensures var stuck := env.listed && env.stuckAt.Some? && env.stuckAt.value < |v.ads|
                         && v.ads[env.stuckAt.value].sw != "" && Lower(v.ads[env.stuckAt.value].sw) in netMap;
            && (stuck <==> !Tries(v, netMap, clustered, env))
            && (stuck ==> Migrated(v, netMap, clustered, env).0.ads == TakenOff(v.ads, netMap, env.drops, env.stuckAt.value)
                          && Migrated(v, netMap, clustered, env).0.here && !Migrated(v, netMap, clustered, env).1)
  {
  }

  /** A role the cluster says it has and does not let go, or lets go and the VM with it, ends
      the job before anything is disconnected. */
  lemma RoleComesFirst(v: Vm, netMap: map<string, SwitchMap.Row>, clustered: bool, env: Env)
    requires v.here && clustered && v.role && env.roleSeen && !(env.roleOff && env.vmSeen)
    ensures Migrated(v, netMap, clustered, env) == (v.(role := !env.roleOff), false)
  {
  }
}
