/** What a live move leaves behind: after a failure, after a success, and after a move
    that only said it happened. */
module LiveMoveRuns {
  import opened Wrappers
  import opened Text
  import SwitchMap
  import opened LiveMove

  // ---- a failed move ------------------------------------------------------

  predicate SameIdentities(a: seq<Adapter>, b: seq<Adapter>) {
    |a| == |b| && forall i :: 0 <= i < |a| ==> a[i].name == b[i].name && a[i].mac == b[i].mac
  }

  lemma {:induction false} PuttingBackKeepsIdentities(ads: seq<Adapter>, plan: seq<Entry>, refused: set<nat>)
    ensures SameIdentities(AllPutBack(ads, plan, refused), ads)
  {
    if plan != [] {
      PuttingBackKeepsIdentities(ads, plan[..|plan| - 1], refused);
    }
  }

  /** The adapter that a failed move puts back for adapter i. */
  function BackFor(ads: seq<Adapter>, netMap: map<string, SwitchMap.Row>, i: nat): Option<nat>
    requires i < |ads| && Planned(ads[i], netMap)
  {
    BackTo(ads, EntryOf(ads[i], netMap, true))
  }

  // Reconnecting by adapter instead of by plan entry: for each adapter, which one is
  // connected on its account, and to what.

  datatype Conn = Conn(at: nat, sw: string, vlan: int)

  function Applied(off: seq<Adapter>, conns: seq<Option<Conn>>, n: nat): (r: seq<Adapter>)
    requires n <= |conns| && forall i :: 0 <= i < |conns| && conns[i].Some? ==> conns[i].value.at < |off|
    ensures |r| == |off|
  {
    if n == 0 then off else ApplyOne(Applied(off, conns, n - 1), conns[n - 1])
  }

  function ApplyOne(cur: seq<Adapter>, c: Option<Conn>): (r: seq<Adapter>)
    requires c.Some? ==> c.value.at < |cur|
    ensures |r| == |cur|
  {
    if c.None? then cur else cur[c.value.at := Connected(cur[c.value.at], c.value.sw, c.value.vlan)]
  }

  /** Every connection is made on the adapter it is made for. */
  predicate OnItself(conns: seq<Option<Conn>>) {
    forall i :: 0 <= i < |conns| && conns[i].Some? ==> conns[i].value.at == i
  }

  function Reconnected(ad: Adapter, c: Option<Conn>): Adapter {
    if c.None? then ad else Connected(ad, c.value.sw, c.value.vlan)
  }

  lemma {:induction false} AppliedOnItself(off: seq<Adapter>, conns: seq<Option<Conn>>, n: nat)
    requires n <= |conns| == |off| && OnItself(conns)
    ensures forall i :: 0 <= i < |off| ==> Applied(off, conns, n)[i] == if i < n then Reconnected(off[i], conns[i]) else off[i]
  {
    if n > 0 {
      AppliedOnItself(off, conns, n - 1);
    }
  }

  lemma {:induction false} AppliedElsewhere(off: seq<Adapter>, conns: seq<Option<Conn>>, n: nat, i: nat)
    requires n <= |conns| && i < |off| && forall k :: 0 <= k < |conns| && conns[k].Some? ==> conns[k].value.at < |off|
    requires forall k :: 0 <= k < n && conns[k].Some? ==> conns[k].value.at != i
    ensures Applied(off, conns, n)[i] == off[i]
  {
    if n > 0 {
      AppliedElsewhere(off, conns, n - 1, i);
    }
  }

  function BackConn(ads: seq<Adapter>, netMap: map<string, SwitchMap.Row>, vlans: set<nat>, i: nat): (r: Option<Conn>)
    requires i < |ads|
    ensures r.Some? ==> r.value.at < |ads|
  {
    if Planned(ads[i], netMap) && BackFor(ads, netMap, i).Some?
    then Some(Conn(BackFor(ads, netMap, i).value, ads[i].sw, if i in vlans then ads[i].vlan else 0)) else None
  }

  function BackConns(ads: seq<Adapter>, netMap: map<string, SwitchMap.Row>, vlans: set<nat>): (r: seq<Option<Conn>>)
    ensures |r| == |ads| && forall i :: 0 <= i < |ads| ==> r[i] == BackConn(ads, netMap, vlans, i)
  {
    seq(|ads|, i requires 0 <= i < |ads| => BackConn(ads, netMap, vlans, i))
  }

  lemma PutBackIsConn(cur: seq<Adapter>, ads: seq<Adapter>, netMap: map<string, SwitchMap.Row>, vlans: set<nat>, i: nat)
    requires i < |ads| && SameIdentities(cur, ads) && Planned(ads[i], netMap)
    ensures PutBack(cur, EntryOf(ads[i], netMap, i in vlans)) == ApplyOne(cur, BackConn(ads, netMap, vlans, i))
  {
  }

  lemma BackTurn(off: seq<Adapter>, plan: seq<Entry>, ads: seq<Adapter>, netMap: map<string, SwitchMap.Row>,
      vlans: set<nat>, n: nat)
    requires 0 < n <= |ads| && SameIdentities(off, ads) && Planned(ads[n - 1], netMap)
    ensures AllPutBack(off, plan + [EntryOf(ads[n - 1], netMap, n - 1 in vlans)], {}) == ApplyOne(AllPutBack(off, plan, {}), BackConn(ads, netMap, vlans, n - 1))
  {
    PuttingBackKeepsIdentities(off, plan, {});
    PutBackIsConn(AllPutBack(off, plan, {}), ads, netMap, vlans, n - 1);
  }

  lemma AppliedNext(off: seq<Adapter>, conns: seq<Option<Conn>>, n: nat)
    requires 0 < n <= |conns| && forall i :: 0 <= i < |conns| && conns[i].Some? ==> conns[i].value.at < |off|
    ensures Applied(off, conns, n) == ApplyOne(Applied(off, conns, n - 1), conns[n - 1])
  {
  }

  lemma {:induction false} BackIsApplied(off: seq<Adapter>, ads: seq<Adapter>, netMap: map<string, SwitchMap.Row>,
      vlans: set<nat>, n: nat)
    requires n <= |ads| && SameIdentities(off, ads)
    ensures AllPutBack(off, PlanOf(ads, netMap, vlans, n), {}) == Applied(off, BackConns(ads, netMap, vlans), n)
  {
    if n == 0 {
      assert PlanOf(ads, netMap, vlans, 0) == [];
    } else {
      BackIsApplied(off, ads, netMap, vlans, n - 1);
      AppliedNext(off, BackConns(ads, netMap, vlans), n);
      if Planned(ads[n - 1], netMap) {
        BackTurn(off, PlanOf(ads, netMap, vlans, n - 1), ads, netMap, vlans, n);
      }
    }
  }

  predicate FindsItself(ads: seq<Adapter>, netMap: map<string, SwitchMap.Row>) {
    forall i :: 0 <= i < |ads| && Planned(ads[i], netMap) ==> BackFor(ads, netMap, i) == Some(i)
  }

  lemma SameEmpty(a: string, b: string)
    requires Same(a, b)
    ensures a == "" <==> b == ""
  {
    assert |Lower(a)| == |a| && |Lower(b)| == |b|;
  }

  /** If another adapter is put back for k, nothing is put back on k. */
  lemma Orphan(ads: seq<Adapter>, netMap: map<string, SwitchMap.Row>, i: nat, k: nat, m: nat)
    requires i < |ads| && k < |ads| && m < |ads|
    requires Planned(ads[i], netMap) && Planned(ads[k], netMap) && Planned(ads[m], netMap)
    requires BackFor(ads, netMap, i) != Some(i) && BackFor(ads, netMap, k) == Some(i)
    ensures BackFor(ads, netMap, m) != Some(k)
  {
    if ads[k].mac != "" {
      SameEmpty(ads[i].mac, ads[k].mac);
      assert false;
    }
    if BackFor(ads, netMap, m) == Some(k) {
      if ads[m].mac != "" {
        SameEmpty(ads[k].mac, ads[m].mac);
      }
    }
  }

  /** No VLAN is lost: a disconnect keeps it, there was none, or it was read before. */
  predicate VlansKept(ads: seq<Adapter>, netMap: map<string, SwitchMap.Row>, drops: bool, vlans: set<nat>) {
    drops ==> forall i :: 0 <= i < |ads| && Planned(ads[i], netMap) ==> ads[i].vlan == 0 || i in vlans
  }

  /** A failed move whose reconnects succeed leaves every adapter as it was, switch and
      VLAN, if and only if each one taken off is found again as itself - the first with
      its MAC, or, having none, the first with its name - and no VLAN was dropped unread. */
  lemma FailedMoveRestoresExactlyWhen(ads: seq<Adapter>, netMap: map<string, SwitchMap.Row>, drops: bool, vlans: set<nat>)
    ensures AllPutBack(TakenOff(ads, netMap, drops, |ads|), PlanOf(ads, netMap, vlans, |ads|), {}) == ads
        <==> FindsItself(ads, netMap) && VlansKept(ads, netMap, drops, vlans)
  {
    var off := TakenOff(ads, netMap, drops, |ads|);
    BackIsApplied(off, ads, netMap, vlans, |ads|);
    if FindsItself(ads, netMap) {
      EveryoneBack(off, ads, netMap, drops, vlans);
    } else {
      SomeoneNotBack(off, ads, netMap, drops, vlans);
    }
  }

  lemma EveryoneBack(off: seq<Adapter>, ads: seq<Adapter>, netMap: map<string, SwitchMap.Row>, drops: bool, vlans: set<nat>)
    requires off == TakenOff(ads, netMap, drops, |ads|) && FindsItself(ads, netMap)
    ensures Applied(off, BackConns(ads, netMap, vlans), |ads|) == ads <==> VlansKept(ads, netMap, drops, vlans)
  {
    var back := Applied(off, BackConns(ads, netMap, vlans), |ads|);
    AppliedOnItself(off, BackConns(ads, netMap, vlans), |ads|);
    if !VlansKept(ads, netMap, drops, vlans) {
      var i :| 0 <= i < |ads| && Planned(ads[i], netMap) && ads[i].vlan != 0 && i !in vlans;
      assert back[i].vlan == 0;
    }
  }

  lemma SomeoneNotBack(off: seq<Adapter>, ads: seq<Adapter>, netMap: map<string, SwitchMap.Row>, drops: bool, vlans: set<nat>)
    requires off == TakenOff(ads, netMap, drops, |ads|) && !FindsItself(ads, netMap)
    ensures Applied(off, BackConns(ads, netMap, vlans), |ads|) != ads
  {
    var i :| 0 <= i < |ads| && Planned(ads[i], netMap) && BackFor(ads, netMap, i) != Some(i);
    if k :| 0 <= k < |ads| && Planned(ads[k], netMap) && BackFor(ads, netMap, k) == Some(i) {
      forall m | 0 <= m < |ads| && Planned(ads[m], netMap) ensures BackFor(ads, netMap, m) != Some(k) {
        Orphan(ads, netMap, i, k, m);
      }
      AppliedElsewhere(off, BackConns(ads, netMap, vlans), |ads|, k);
    } else {
      AppliedElsewhere(off, BackConns(ads, netMap, vlans), |ads|, i);
    }
  }

  predicate DistinctMacs(ads: seq<Adapter>) {
    && (forall i :: 0 <= i < |ads| ==> ads[i].mac != "")
    && (forall i, j :: 0 <= i < j < |ads| ==> !Same(ads[i].mac, ads[j].mac))
  }

  lemma DistinctMacsFind(ads: seq<Adapter>, netMap: map<string, SwitchMap.Row>)
    requires DistinctMacs(ads)
    ensures FindsItself(ads, netMap)
  {
  }

  /** The job gets as far as the move: the VM is here, its role no obstacle, and no
      disconnect throws. */
  predicate Tries(v: Vm, netMap: map<string, SwitchMap.Row>, clustered: bool, env: Env) {
    v.here && Unclustered(v, clustered, env).1 && StopsAt(v.ads, netMap, env) == Looked(v.ads, env)
  }

  /** The cluster's answer takes the role off. */
  predicate LosesRole(v: Vm, clustered: bool, env: Env) {
    clustered && v.role && env.roleSeen && env.roleOff
  }

  /** With distinct MACs, a move the destination refuses leaves every adapter as it was
      exactly when no VLAN was dropped unread; and a role that was taken off is back
      exactly when the guard sees the VM and the cluster accepts it. */
  lemma RefusedMoveChangesNothing(v: Vm, netMap: map<string, SwitchMap.Row>, clustered: bool, env: Env)
    requires Tries(v, netMap, clustered, env) && DistinctMacs(v.ads) && env.move == Refused && env.refused == {}
    ensures var (v', ok) := Migrated(v, netMap, clustered, env);
            && !ok && v'.here && v'.there == v.there
            && (v'.ads == v.ads <==> !env.listed || VlansKept(v.ads, netMap, env.drops, env.vlans))
            && (v.role ==> (v'.role <==> !LosesRole(v, clustered, env) || (env.guardAnswered && env.roleBack)))
  {
    RefusedAttempt(Unclustered(v, clustered, env).0, netMap, env);
  }

  lemma RefusedAttempt(v: Vm, netMap: map<string, SwitchMap.Row>, env: Env)
    requires StopsAt(v.ads, netMap, env) == Looked(v.ads, env) && DistinctMacs(v.ads) && env.move == Refused && env.refused == {}
    ensures var (v', threw) := Attempted(v, netMap, env);
            && threw && v' == v.(ads := v'.ads)
            && (v'.ads == v.ads <==> !env.listed || VlansKept(v.ads, netMap, env.drops, env.vlans))
  {
    DistinctMacsFind(v.ads, netMap);
    FailedMoveRestoresExactlyWhen(v.ads, netMap, env.drops, env.vlans);
    if !env.listed {
      assert PlanOf(v.ads, netMap, env.vlans, 0) == [];
      assert TakenOff(v.ads, netMap, env.drops, 0) == v.ads;
    }
  }

  /** The role of a VM whose move failed and that is still here: kept if it was not taken
      off, and otherwise back exactly when a throw inside the try is followed by a guard
      that sees the VM and a cluster that accepts it - even for a VM that had none. */
  lemma RoleAfterFailure(v: Vm, netMap: map<string, SwitchMap.Row>, clustered: bool, env: Env)
    requires v.here && !Migrated(v, netMap, clustered, env).1 && Migrated(v, netMap, clustered, env).0.here
    ensures Migrated(v, netMap, clustered, env).0.role <==>
              || (v.role && !LosesRole(v, clustered, env))
              || (clustered && Unclustered(v, clustered, env).1 && env.guardAnswered && env.roleBack)
  {
  }

  // ---- what is not put back -----------------------------------------------

  /** Success is reported with the VM still here exactly when the move did not happen and
      the still-here test went unanswered; every other success means it has left. */
  lemma SuccessMeansGoneExactlyWhen(v: Vm, netMap: map<string, SwitchMap.Row>, clustered: bool, env: Env)
    ensures var (v', ok) := Migrated(v, netMap, clustered, env);
            && (ok && v'.here <==> Tries(v, netMap, clustered, env) && env.move == Phantom && !env.testAnswered)
            && (ok && !v'.here ==> v.here && env.move == Moved && v'.there.Some? && |v'.there.value| == |v.ads|)
  {
  }

  /** A move that reported success and did not happen leaves the adapters it took off off,
      whether the test catches it or not, and uncaught it leaves the role off too. */
  lemma PhantomLeavesOff(v: Vm, netMap: map<string, SwitchMap.Row>, clustered: bool, env: Env)
    requires Tries(v, netMap, clustered, env) && env.move == Phantom
    ensures var (v', ok) := Migrated(v, netMap, clustered, env);
            && v'.here && (ok <==> !env.testAnswered)
            && v'.ads == TakenOff(v.ads, netMap, env.drops, Looked(v.ads, env))
            && (v'.ads == v.ads <==> !env.listed || forall i :: 0 <= i < |v.ads| ==> !Planned(v.ads[i], netMap))
            && (ok && LosesRole(v, clustered, env) ==> !v'.role)
  {
    TakenOffChanges(v.ads, netMap, env.drops, Looked(v.ads, env));
  }

  lemma TakenOffChanges(ads: seq<Adapter>, netMap: map<string, SwitchMap.Row>, drops: bool, n: nat)
    requires n <= |ads|
    ensures TakenOff(ads, netMap, drops, n) == ads <==> forall i :: 0 <= i < n ==> !Planned(ads[i], netMap)
  {
    var off := TakenOff(ads, netMap, drops, n);
    if off == ads {
      forall i | 0 <= i < n ensures !Planned(ads[i], netMap) {
        assert off[i] == ads[i];
      }
    }
  }

  /** The case the still-here test is there for, with Hyper-V not answering it: reported
      moved, and here, off the network and off the cluster. */
  lemma UnseenPhantomExample(ad: Adapter, row: SwitchMap.Row)
    requires ad.sw != ""
    ensures var env := Env(true, true, true, true, {0}, None, false, Phantom, {}, true, {}, false, true, true);
            Migrated(Vm(true, true, [ad], None), map[Lower(ad.sw) := row], true, env) ==
              (Vm(true, false, [ad.(sw := "")], None), true)
  {
    var env := Env(true, true, true, true, {0}, None, false, Phantom, {}, true, {}, false, true, true);
    var v := Vm(true, true, [ad], None);
    assert Tries(v, map[Lower(ad.sw) := row], true, env);
    assert TakenOff([ad], map[Lower(ad.sw) := row], false, 1) == [ad.(sw := "")];
  }

  /** So do those taken off before a disconnect that throws: only a throw of the move
      itself is followed by putting adapters back. */
  lemma ThrownDisconnectLeavesOff(v: Vm, netMap: map<string, SwitchMap.Row>, clustered: bool, env: Env)
    requires v.here && Unclustered(v, clustered, env).1 && StopsAt(v.ads, netMap, env) < Looked(v.ads, env)
    ensures var (v', ok) := Migrated(v, netMap, clustered, env);
            && !ok && v'.here
            && v'.ads == TakenOff(v.ads, netMap, env.drops, env.stuckAt.value)
            && (v'.ads == v.ads <==> forall i :: 0 <= i < env.stuckAt.value ==> !Planned(v.ads[i], netMap))
  {
    TakenOffChanges(v.ads, netMap, env.drops, env.stuckAt.value);
  }

  // ---- retries ------------------------------------------------------------

  function Retried(v: Vm, netMap: map<string, SwitchMap.Row>, clustered: bool, envs: seq<Env>, n: nat): Vm
    requires n <= |envs|
  {
    if n == 0 then v else Migrated(Retried(v, netMap, clustered, envs, n - 1), netMap, clustered, envs[n - 1]).0
  }

  predicate Somewhere(v: Vm) {
    v.here <==> v.there.None?
  }

  lemma {:induction false} OffStaysUnplanned(ads: seq<Adapter>, netMap: map<string, SwitchMap.Row>, vlans: set<nat>,
      refused: set<nat>, cur: seq<Adapter>, n: nat, i: nat)
    requires n <= |ads| && i < |ads| && ads[i].sw == "" && DistinctMacs(ads) && SameIdentities(cur, ads) && cur[i] == ads[i]
    ensures AllPutBack(cur, PlanOf(ads, netMap, vlans, n), refused)[i] == ads[i]
  {
    if n == 0 {
      assert PlanOf(ads, netMap, vlans, 0) == [];
    } else {
      var front := PlanOf(ads, netMap, vlans, n - 1);
      OffStaysUnplanned(ads, netMap, vlans, refused, cur, n - 1, i);
      if Planned(ads[n - 1], netMap) {
        var e := EntryOf(ads[n - 1], netMap, n - 1 in vlans);
        assert (front + [e])[..|front|] == front;
        var back := AllPutBack(cur, front, refused);
        PuttingBackKeepsIdentities(cur, front, refused);
        assert BackTo(back, e) == Some(n - 1) by {
          assert Same(back[n - 1].mac, e.mac);
          assert forall k :: 0 <= k < n - 1 ==> !Same(back[k].mac, e.mac);
        }
      }
    }
  }

  /** After some attempts the VM is on one host, and if it is here its adapters are who they
      were and the one that was off is as it was. */
  predicate StillOff(v: Vm, v': Vm, i: nat)
    requires i < |v.ads|
  {
    && Somewhere(v')
    && (v'.here ==> v.here && SameIdentities(v'.ads, v.ads) && v'.ads[i] == v.ads[i])
  }

  lemma AttemptedLeavesOff(v: Vm, netMap: map<string, SwitchMap.Row>, env: Env, i: nat)
    requires v.here && Somewhere(v) && i < |v.ads| && v.ads[i].sw == "" && DistinctMacs(v.ads)
    ensures StillOff(v, Attempted(v, netMap, env).0, i)
  {
    var n := StopsAt(v.ads, netMap, env);
    var off := TakenOff(v.ads, netMap, env.drops, n);
    assert SameIdentities(off, v.ads) && off[i] == v.ads[i];
    if env.move == Refused {
      OffStaysUnplanned(v.ads, netMap, env.vlans, env.refused, off, n, i);
      PuttingBackKeepsIdentities(off, PlanOf(v.ads, netMap, env.vlans, n), env.refused);
    }
  }

  lemma AttemptLeavesOff(v: Vm, netMap: map<string, SwitchMap.Row>, clustered: bool, env: Env, i: nat)
    requires v.here && Somewhere(v) && i < |v.ads| && v.ads[i].sw == "" && DistinctMacs(v.ads)
    ensures StillOff(v, Migrated(v, netMap, clustered, env).0, i)
  {
    AttemptedLeavesOff(Unclustered(v, clustered, env).0, netMap, env, i);
  }

  lemma GoneStaysGone(v: Vm, netMap: map<string, SwitchMap.Row>, clustered: bool, env: Env)
    requires !v.here
    ensures Migrated(v, netMap, clustered, env).0 == v
  {
  }

  lemma StillOffOn(u: Vm, v: Vm, v': Vm, i: nat)
    requires i < |u.ads| && StillOff(u, v, i) && (if v.here then i < |v.ads| && StillOff(v, v', i) else v' == v)
    ensures StillOff(u, v', i)
  {
  }

  /** Over any run of retries the VM is on exactly one host; and an adapter a phantom move
      left off is never put back by a later attempt while the VM is here. */
  lemma {:induction false} LeftOffForGood(v: Vm, netMap: map<string, SwitchMap.Row>, clustered: bool, envs: seq<Env>,
      n: nat, i: nat)
    requires n <= |envs| && Somewhere(v) && DistinctMacs(v.ads) && i < |v.ads| && v.ads[i].sw == ""
    ensures StillOff(v, Retried(v, netMap, clustered, envs, n), i)
  {
    if n > 0 {
      LeftOffForGood(v, netMap, clustered, envs, n - 1, i);
      var w := Retried(v, netMap, clustered, envs, n - 1);
      if w.here {
        SameDistinct(v.ads, w.ads);
        AttemptLeavesOff(w, netMap, clustered, envs[n - 1], i);
      } else {
        GoneStaysGone(w, netMap, clustered, envs[n - 1]);
      }
      StillOffOn(v, w, Migrated(w, netMap, clustered, envs[n - 1]).0, i);
    }
  }

  lemma SameDistinct(a: seq<Adapter>, b: seq<Adapter>)
    requires SameIdentities(b, a) && DistinctMacs(a)
    ensures DistinctMacs(b)
  {
  }

  // ---- a move that happened -----------------------------------------------

  predicate Wanted(ad: Adapter, netMap: map<string, SwitchMap.Row>) {
    Planned(ad, netMap) && netMap[Lower(ad.sw)].to != ""
  }

  /** Where an adapter should be after the move: still on its own switch, on its mapped
      target with the mapped VLAN if there is one, or disconnected. */
  function Landing(ad: Adapter, netMap: map<string, SwitchMap.Row>, drops: bool): Adapter {
    if !Planned(ad, netMap) then ad
    else if !Wanted(ad, netMap) then Off(ad, drops)
    else Connected(Off(ad, drops), netMap[Lower(ad.sw)].to, netMap[Lower(ad.sw)].vlan)
  }

  predicate HasMac(ad: Adapter) {
    ad.mac != "" && ad.mac != NO_MAC
  }

  /** The destination has every target. */
  predicate Supplied(ads: seq<Adapter>, netMap: map<string, SwitchMap.Row>, switches: set<string>) {
    forall i :: 0 <= i < |ads| && Wanted(ads[i], netMap) ==> Lower(netMap[Lower(ads[i].sw)].to) in switches
  }

  predicate AllLanded(there: seq<Adapter>, ads: seq<Adapter>, netMap: map<string, SwitchMap.Row>, drops: bool) {
    |there| == |ads| && forall i :: 0 <= i < |ads| ==> there[i] == Landing(ads[i], netMap, drops)
  }

  predicate NoneWanted(ads: seq<Adapter>, netMap: map<string, SwitchMap.Row>) {
    forall i :: 0 <= i < |ads| ==> !Wanted(ads[i], netMap)
  }

  /** It arrives disconnected. */
  predicate Free(ads: seq<Adapter>, netMap: map<string, SwitchMap.Row>, i: nat)
    requires i < |ads|
  {
    ads[i].sw == "" || Planned(ads[i], netMap)
  }

  /** What tells adapter n, which has a target, from the others: a MAC it is the first to
      have; or, having none, that all targets are one and nothing disconnected without a
      target stands before it. */
  predicate Told(ads: seq<Adapter>, netMap: map<string, SwitchMap.Row>, single: bool, n: nat)
    requires n < |ads|
  {
    if HasMac(ads[n]) then ByMac(ads, ads[n].mac) == Some(n)
    else single && forall i :: 0 <= i < n && Free(ads, netMap, i) ==> Wanted(ads[i], netMap)
  }

  predicate AllTold(ads: seq<Adapter>, netMap: map<string, SwitchMap.Row>, single: bool, n: nat)
    requires n <= |ads|
  {
    forall i :: 0 <= i < n && Wanted(ads[i], netMap) ==> Told(ads, netMap, single, i)
  }

  function WantedUpTo(ads: seq<Adapter>, netMap: map<string, SwitchMap.Row>, n: nat): set<nat>
    requires n <= |ads|
  {
    set i: nat | i < n && Wanted(ads[i], netMap)
  }

  /** The joins made for the first n adapters. */
  function JoinedUpTo(ads: seq<Adapter>, netMap: map<string, SwitchMap.Row>, drops: bool, vlans: set<nat>, single: bool,
      switches: set<string>, n: nat): (r: Joining)
    requires n <= |ads|
    ensures |r.ads| == |ads|
  {
    Joined(TakenOff(ads, netMap, drops, |ads|), PlanOf(ads, netMap, vlans, n), single, switches)
  }

  /** The adapter taken for one that has a target: the first with its MAC or, when it has
      none and all targets are one, the first that arrived disconnected and is not taken. */
  function Take(off: seq<Adapter>, done: set<nat>, single: bool, ad: Adapter): (r: Option<nat>)
    ensures r.Some? ==> r.value < |off|
  {
    if HasMac(ad) then ByMac(off, ad.mac) else if single then FirstFree(off, done, 0) else None
  }

  function Taking(off: seq<Adapter>, j: Joining, single: bool, ad: Adapter, netMap: map<string, SwitchMap.Row>): (r: Joining)
    requires |j.ads| == |off|
    ensures |r.ads| == |off|
  {
    if !Wanted(ad, netMap) || Take(off, j.done, single, ad).None? then j
    else
      var i := Take(off, j.done, single, ad).value;
      Joining(j.ads[i := Connected(j.ads[i], netMap[Lower(ad.sw)].to, netMap[Lower(ad.sw)].vlan)], j.done + {i}, j.ok)
  }

  lemma JoinsByTake(ads: seq<Adapter>, netMap: map<string, SwitchMap.Row>, drops: bool, done: set<nat>, single: bool,
      n: nat, read: bool)
    requires n < |ads| && Planned(ads[n], netMap)
    ensures var off := TakenOff(ads, netMap, drops, |ads|);
            JoinAt(off, done, single, EntryOf(ads[n], netMap, read)) == Take(off, done, single, ads[n])
  {
    var off := TakenOff(ads, netMap, drops, |ads|);
    assert Same(off[n].mac, ads[n].mac);
  }

  lemma JoinedNext(ads: seq<Adapter>, netMap: map<string, SwitchMap.Row>, drops: bool, vlans: set<nat>, single: bool,
      switches: set<string>, n: nat, j: Joining)
    requires n < |ads| && j == JoinedUpTo(ads, netMap, drops, vlans, single, switches, n)
    ensures JoinedUpTo(ads, netMap, drops, vlans, single, switches, n + 1) ==
              if Planned(ads[n], netMap)
              then JoinNext(TakenOff(ads, netMap, drops, |ads|), j, EntryOf(ads[n], netMap, n in vlans), single, switches) else j
  {
    var front := PlanOf(ads, netMap, vlans, n);
    if Planned(ads[n], netMap) {
      assert (front + [EntryOf(ads[n], netMap, n in vlans)])[..|front|] == front;
    }
  }

  lemma TurnAgrees(ads: seq<Adapter>, netMap: map<string, SwitchMap.Row>, drops: bool, read: bool, single: bool,
      switches: set<string>, n: nat, j: Joining)
    requires n < |ads| && |j.ads| == |ads| && j.ok && Planned(ads[n], netMap)
    ensures var off := TakenOff(ads, netMap, drops, |ads|);
            var at, j' := Take(off, j.done, single, ads[n]), JoinNext(off, j, EntryOf(ads[n], netMap, read), single, switches);
            if Wanted(ads[n], netMap) && at.Some? && Lower(netMap[Lower(ads[n].sw)].to) !in switches then !j'.ok && j'.ads == j.ads
            else j' == Taking(off, j, single, ads[n], netMap)
  {
    JoinsByTake(ads, netMap, drops, j.done, single, n, read);
  }

  lemma JoinTurn(ads: seq<Adapter>, netMap: map<string, SwitchMap.Row>, drops: bool, vlans: set<nat>, single: bool,
      switches: set<string>, n: nat)
    requires n < |ads| && Supplied(ads, netMap, switches)
    requires JoinedUpTo(ads, netMap, drops, vlans, single, switches, n).ok
    ensures JoinedUpTo(ads, netMap, drops, vlans, single, switches, n + 1) ==
              Taking(TakenOff(ads, netMap, drops, |ads|), JoinedUpTo(ads, netMap, drops, vlans, single, switches, n), single, ads[n], netMap)
  {
    var j := JoinedUpTo(ads, netMap, drops, vlans, single, switches, n);
    JoinedNext(ads, netMap, drops, vlans, single, switches, n, j);
    if Planned(ads[n], netMap) {
      TurnAgrees(ads, netMap, drops, n in vlans, single, switches, n, j);
    }
  }

  /** The first n adapters are where they should be, the others as they arrived. */
  predicate Halfway(j: Joining, ads: seq<Adapter>, netMap: map<string, SwitchMap.Row>, drops: bool, n: nat)
    requires n <= |ads|
  {
    && j.ok && |j.ads| == |ads| && j.done == WantedUpTo(ads, netMap, n)
    && forall i :: 0 <= i < |ads| ==> j.ads[i] == if i < n then Landing(ads[i], netMap, drops) else TakenOff(ads, netMap, drops, |ads|)[i]
  }

  /** With everything before it where it should be, adapter n takes itself exactly if it is
      told from the others; if not, it takes none, one taken before, or one without a
      target. */
  lemma TakesItselfExactlyWhen(ads: seq<Adapter>, netMap: map<string, SwitchMap.Row>, drops: bool, single: bool, n: nat)
    requires n < |ads| && Wanted(ads[n], netMap)
    ensures var done, at := WantedUpTo(ads, netMap, n), Take(TakenOff(ads, netMap, drops, |ads|), WantedUpTo(ads, netMap, n), single, ads[n]);
            && (at == Some(n) <==> Told(ads, netMap, single, n))
            && (at != Some(n) && at.Some? ==> at.value in done || !Wanted(ads[at.value], netMap))
  {
    var off, done := TakenOff(ads, netMap, drops, |ads|), WantedUpTo(ads, netMap, n);
    if HasMac(ads[n]) {
      assert Same(off[n].mac, ads[n].mac);
      assert ByMac(off, ads[n].mac) == ByMac(ads, ads[n].mac);
    } else if single {
      assert off[n].sw == "" && n !in done;
      assert forall i :: 0 <= i < n ==> (off[i].sw == "" <==> Free(ads, netMap, i));
    }
  }

  lemma HalfwayNext(j: Joining, j': Joining, ads: seq<Adapter>, netMap: map<string, SwitchMap.Row>, drops: bool,
      single: bool, n: nat)
    requires n < |ads| && Halfway(j, ads, netMap, drops, n) && (Wanted(ads[n], netMap) ==> Told(ads, netMap, single, n))
    requires j' == Taking(TakenOff(ads, netMap, drops, |ads|), j, single, ads[n], netMap)
    ensures Halfway(j', ads, netMap, drops, n + 1)
  {
    if Wanted(ads[n], netMap) {
      TakesItselfExactlyWhen(ads, netMap, drops, single, n);
      assert WantedUpTo(ads, netMap, n + 1) == WantedUpTo(ads, netMap, n) + {n};
    } else {
      assert WantedUpTo(ads, netMap, n + 1) == WantedUpTo(ads, netMap, n);
    }
  }

  /** While all are told apart, each adapter with a target takes itself. */
  lemma {:induction false} AllToldLand(ads: seq<Adapter>, netMap: map<string, SwitchMap.Row>, drops: bool, vlans: set<nat>,
      single: bool, switches: set<string>, n: nat)
    requires n <= |ads| && Supplied(ads, netMap, switches) && AllTold(ads, netMap, single, n)
    ensures Halfway(JoinedUpTo(ads, netMap, drops, vlans, single, switches, n), ads, netMap, drops, n)
  {
    if n == 0 {
      assert PlanOf(ads, netMap, vlans, 0) == [];
    } else {
      AllToldLand(ads, netMap, drops, vlans, single, switches, n - 1);
      var j, j' := JoinedUpTo(ads, netMap, drops, vlans, single, switches, n - 1), JoinedUpTo(ads, netMap, drops, vlans, single, switches, n);
      JoinTurn(ads, netMap, drops, vlans, single, switches, n - 1);
      HalfwayNext(j, j', ads, netMap, drops, single, n - 1);
    }
  }

  // ---- one too few --------------------------------------------------------

  /** Of the adapters with a target, those taken so far. */
  function Served(j: Joining, ads: seq<Adapter>, netMap: map<string, SwitchMap.Row>): set<nat> {
    j.done * WantedUpTo(ads, netMap, |ads|)
  }

  /** What is not taken is as it arrived. */
  predicate RestAsArrived(j: Joining, off: seq<Adapter>) {
    j.ok && |j.ads| == |off| && forall i :: 0 <= i < |off| && i !in j.done ==> j.ads[i] == off[i]
  }

  lemma WantedGrows(ads: seq<Adapter>, netMap: map<string, SwitchMap.Row>, n: nat)
    requires n < |ads|
    ensures |WantedUpTo(ads, netMap, n + 1)| == |WantedUpTo(ads, netMap, n)| + if Wanted(ads[n], netMap) then 1 else 0
  {
    if Wanted(ads[n], netMap) {
      assert WantedUpTo(ads, netMap, n + 1) == WantedUpTo(ads, netMap, n) + {n};
    } else {
      assert WantedUpTo(ads, netMap, n + 1) == WantedUpTo(ads, netMap, n);
    }
  }

  lemma OneMore(done: set<nat>, wanted: set<nat>, i: nat)
    ensures |(done + {i}) * wanted| <= |done * wanted| + 1
    ensures i in done || i !in wanted ==> |(done + {i}) * wanted| == |done * wanted|
  {
    if i in wanted {
      assert (done + {i}) * wanted == done * wanted + {i};
      assert i in done ==> done * wanted + {i} == done * wanted;
    } else {
      assert (done + {i}) * wanted == done * wanted;
    }
  }

  lemma ServedTurn(j: Joining, ads: seq<Adapter>, netMap: map<string, SwitchMap.Row>, off: seq<Adapter>, single: bool, n: nat)
    requires n < |ads| == |off| && RestAsArrived(j, off)
    ensures var j', served := Taking(off, j, single, ads[n], netMap), Served(j, ads, netMap);
            && RestAsArrived(j', off)
            && |Served(j', ads, netMap)| <= |served| + (if Wanted(ads[n], netMap) then 1 else 0)
            && (var at := Take(off, j.done, single, ads[n]);
                at.None? || at.value in j.done || !Wanted(ads[at.value], netMap) ==> |Served(j', ads, netMap)| == |served|)
  {
    var at, wanted := Take(off, j.done, single, ads[n]), WantedUpTo(ads, netMap, |ads|);
    if Wanted(ads[n], netMap) && at.Some? {
      OneMore(j.done, wanted, at.value);
      assert at.value in wanted <==> Wanted(ads[at.value], netMap);
    }
  }

  /** Fewer are served than were turned to. */
  predicate Behind(j: Joining, ads: seq<Adapter>, netMap: map<string, SwitchMap.Row>, off: seq<Adapter>, n: nat)
    requires n <= |ads|
  {
    RestAsArrived(j, off) && |Served(j, ads, netMap)| < |WantedUpTo(ads, netMap, n)|
  }

  lemma BehindTurn(j: Joining, j': Joining, ads: seq<Adapter>, netMap: map<string, SwitchMap.Row>, off: seq<Adapter>,
      single: bool, n: nat)
    requires n < |ads| == |off| && Behind(j, ads, netMap, off, n) && j' == Taking(off, j, single, ads[n], netMap)
    ensures Behind(j', ads, netMap, off, n + 1)
  {
    ServedTurn(j, ads, netMap, off, single, n);
    WantedGrows(ads, netMap, n);
  }

  predicate IsTurn(js: seq<Joining>, ads: seq<Adapter>, netMap: map<string, SwitchMap.Row>, off: seq<Adapter>, single: bool, k: nat)
    requires k < |ads| && |js| == |ads| + 1
  {
    |js[k].ads| == |off| && js[k + 1] == Taking(off, js[k], single, ads[k], netMap)
  }

  /** js are joinings, each a turn after the one before. */
  predicate Turns(js: seq<Joining>, ads: seq<Adapter>, netMap: map<string, SwitchMap.Row>, off: seq<Adapter>, single: bool) {
    && |js| == |ads| + 1 && |off| == |ads|
    && forall k :: 0 <= k < |ads| ==> IsTurn(js, ads, netMap, off, single, k)
  }

  /** One too few stays one too few. */
  lemma {:induction false} StaysBehind(js: seq<Joining>, ads: seq<Adapter>, netMap: map<string, SwitchMap.Row>, off: seq<Adapter>,
      single: bool, m: nat, n: nat)
    requires m <= n <= |ads| && Turns(js, ads, netMap, off, single) && Behind(js[m], ads, netMap, off, m)
    ensures Behind(js[n], ads, netMap, off, n)
  {
    if m < n {
      StaysBehind(js, ads, netMap, off, single, m, n - 1);
      TurnAt(js, ads, netMap, off, single, n - 1);
      BehindTurn(js[n - 1], js[n], ads, netMap, off, single, n - 1);
    }
  }

  lemma TurnAt(js: seq<Joining>, ads: seq<Adapter>, netMap: map<string, SwitchMap.Row>, off: seq<Adapter>, single: bool, k: nat)
    requires Turns(js, ads, netMap, off, single) && k < |ads|
    ensures |js[k].ads| == |off| && js[k + 1] == Taking(off, js[k], single, ads[k], netMap)
  {
    assert IsTurn(js, ads, netMap, off, single, k);
  }

  lemma {:induction false} JoinsGoOn(ads: seq<Adapter>, netMap: map<string, SwitchMap.Row>, drops: bool, vlans: set<nat>,
      single: bool, switches: set<string>, n: nat)
    requires n <= |ads| && Supplied(ads, netMap, switches)
    ensures JoinedUpTo(ads, netMap, drops, vlans, single, switches, n).ok
  {
    if n == 0 {
      assert PlanOf(ads, netMap, vlans, 0) == [];
    } else {
      JoinsGoOn(ads, netMap, drops, vlans, single, switches, n - 1);
      JoinTurn(ads, netMap, drops, vlans, single, switches, n - 1);
    }
  }

  lemma JoinsAreTurns(ads: seq<Adapter>, netMap: map<string, SwitchMap.Row>, drops: bool, vlans: set<nat>,
      single: bool, switches: set<string>) returns (js: seq<Joining>)
    requires Supplied(ads, netMap, switches)
    ensures Turns(js, ads, netMap, TakenOff(ads, netMap, drops, |ads|), single)
    ensures forall k :: 0 <= k <= |ads| ==> js[k] == JoinedUpTo(ads, netMap, drops, vlans, single, switches, k)
  {
    js := seq(|ads| + 1, k requires 0 <= k <= |ads| => JoinedUpTo(ads, netMap, drops, vlans, single, switches, k));
    forall k | 0 <= k < |ads| ensures IsTurn(js, ads, netMap, TakenOff(ads, netMap, drops, |ads|), single, k) {
      JoinsGoOn(ads, netMap, drops, vlans, single, switches, k);
      JoinTurn(ads, netMap, drops, vlans, single, switches, k);
    }
  }

  /** The first adapter with a target that is not told from the others. */
  lemma {:induction false} FirstUntold(ads: seq<Adapter>, netMap: map<string, SwitchMap.Row>, single: bool, m: nat) returns (n: nat)
    requires m <= |ads| && !AllTold(ads, netMap, single, m)
    ensures n < m && AllTold(ads, netMap, single, n) && Wanted(ads[n], netMap) && !Told(ads, netMap, single, n)
  {
    if m > 0 && !AllTold(ads, netMap, single, m - 1) {
      n := FirstUntold(ads, netMap, single, m - 1);
    } else {
      n := m - 1;
    }
  }

  /** At that one the count falls behind, so in the end some adapter with a target is not
      taken: it stays disconnected. */
  lemma UntoldMisses(ads: seq<Adapter>, netMap: map<string, SwitchMap.Row>, drops: bool, vlans: set<nat>,
      single: bool, switches: set<string>)
    requires Supplied(ads, netMap, switches) && !AllTold(ads, netMap, single, |ads|)
    ensures var j := JoinedUpTo(ads, netMap, drops, vlans, single, switches, |ads|);
            j.ok && !AllLanded(j.ads, ads, netMap, drops)
  {
    var n := FirstUntold(ads, netMap, single, |ads|);
    FallsBehind(ads, netMap, drops, vlans, single, switches, n);
    JoinsGoOn(ads, netMap, drops, vlans, single, switches, |ads|);
    var js := JoinsAreTurns(ads, netMap, drops, vlans, single, switches);
    StaysBehind(js, ads, netMap, TakenOff(ads, netMap, drops, |ads|), single, n + 1, |ads|);
    SomeUnserved(js[|ads|], ads, netMap, drops);
  }

  lemma FallsBehind(ads: seq<Adapter>, netMap: map<string, SwitchMap.Row>, drops: bool, vlans: set<nat>, single: bool,
      switches: set<string>, n: nat)
    requires n < |ads| && Supplied(ads, netMap, switches) && AllTold(ads, netMap, single, n)
    requires Wanted(ads[n], netMap) && !Told(ads, netMap, single, n)
    ensures Behind(JoinedUpTo(ads, netMap, drops, vlans, single, switches, n + 1), ads, netMap, TakenOff(ads, netMap, drops, |ads|), n + 1)
  {
    var j := JoinedUpTo(ads, netMap, drops, vlans, single, switches, n);
    AllToldLand(ads, netMap, drops, vlans, single, switches, n);
    JoinTurn(ads, netMap, drops, vlans, single, switches, n);
    HalfwayRests(j, ads, netMap, drops, n);
    TakesItselfExactlyWhen(ads, netMap, drops, single, n);
    ServedTurn(j, ads, netMap, TakenOff(ads, netMap, drops, |ads|), single, n);
    WantedGrows(ads, netMap, n);
  }

  lemma HalfwayRests(j: Joining, ads: seq<Adapter>, netMap: map<string, SwitchMap.Row>, drops: bool, n: nat)
    requires n <= |ads| && Halfway(j, ads, netMap, drops, n)
    ensures RestAsArrived(j, TakenOff(ads, netMap, drops, |ads|)) && Served(j, ads, netMap) == WantedUpTo(ads, netMap, n)
  {
    assert WantedUpTo(ads, netMap, n) <= WantedUpTo(ads, netMap, |ads|);
  }

  lemma SomeUnserved(j: Joining, ads: seq<Adapter>, netMap: map<string, SwitchMap.Row>, drops: bool)
    requires Behind(j, ads, netMap, TakenOff(ads, netMap, drops, |ads|), |ads|)
    ensures !AllLanded(j.ads, ads, netMap, drops)
  {
    var wanted, served := WantedUpTo(ads, netMap, |ads|), Served(j, ads, netMap);
    assert served != wanted;
    var i :| i in wanted && i !in j.done;
    assert j.ads[i].sw == "" && Landing(ads[i], netMap, drops).sw != "";
  }

  lemma JoinedLandExactlyWhen(ads: seq<Adapter>, netMap: map<string, SwitchMap.Row>, drops: bool, vlans: set<nat>, single: bool,
      switches: set<string>)
    requires Supplied(ads, netMap, switches)
    ensures var j := JoinedUpTo(ads, netMap, drops, vlans, single, switches, |ads|);
            j.ok && (AllLanded(j.ads, ads, netMap, drops) <==> AllTold(ads, netMap, single, |ads|))
  {
    if AllTold(ads, netMap, single, |ads|) {
      AllToldLand(ads, netMap, drops, vlans, single, switches, |ads|);
    } else {
      UntoldMisses(ads, netMap, drops, vlans, single, switches);
    }
  }

  /** Where a VM that moved is, with the adapters it arrived with joined if they are listed. */
  lemma MovedIs(v: Vm, netMap: map<string, SwitchMap.Row>, clustered: bool, env: Env, single: bool)
    requires Tries(v, netMap, clustered, env) && env.move == Moved && env.listed
    requires single == OneTarget(PlanOf(v.ads, netMap, env.vlans, |v.ads|))
    ensures var (v', ok) := Migrated(v, netMap, clustered, env);
            var j := JoinedUpTo(v.ads, netMap, env.drops, env.vlans, single, env.switches, |v.ads|);
            && !v'.here && v'.there == Some(if env.arrived then j.ads else TakenOff(v.ads, netMap, env.drops, |v.ads|))
            && (ok <==> j.ok || !env.arrived)
  {
  }

  /** A move that happened, onto a host that has the targets: the VM has left, and every
      adapter is where it should be if and only if what arrived was listed and each adapter
      with a target is told from the others - or none has one. */
  lemma MovedLandsExactlyWhen(v: Vm, netMap: map<string, SwitchMap.Row>, clustered: bool, env: Env)
    requires Tries(v, netMap, clustered, env) && env.move == Moved && env.listed && Supplied(v.ads, netMap, env.switches)
    ensures var (v', ok) := Migrated(v, netMap, clustered, env);
            && ok && !v'.here && v'.there.Some?
            && (AllLanded(v'.there.value, v.ads, netMap, env.drops) <==>
                  || NoneWanted(v.ads, netMap)
                  || (env.arrived && AllTold(v.ads, netMap, OneTarget(PlanOf(v.ads, netMap, env.vlans, |v.ads|)), |v.ads|)))
  {
    var single := OneTarget(PlanOf(v.ads, netMap, env.vlans, |v.ads|));
    MovedIs(v, netMap, clustered, env, single);
    UnlistedStaysOff(v.ads, netMap, env.drops);
    JoinedLandExactlyWhen(v.ads, netMap, env.drops, env.vlans, single, env.switches);
  }

  lemma UnlistedStaysOff(ads: seq<Adapter>, netMap: map<string, SwitchMap.Row>, drops: bool)
    ensures AllLanded(TakenOff(ads, netMap, drops, |ads|), ads, netMap, drops) <==> NoneWanted(ads, netMap)
  {
    var off := TakenOff(ads, netMap, drops, |ads|);
    forall i | 0 <= i < |ads| && Wanted(ads[i], netMap) ensures off[i] != Landing(ads[i], netMap, drops) {
      assert off[i].sw == "" && Landing(ads[i], netMap, drops).sw != "";
    }
  }

  /** A VM that never started, with one target: its one adapter in use behind one that was
      never connected. The wrong one is joined. */
  lemma NoMacExample(to: string)
    requires to != ""
    ensures var spare, used := Adapter("a", NO_MAC, "", 0), Adapter("b", NO_MAC, "S", 0);
            var env := Env(true, true, true, true, {}, None, false, Moved, {}, true, {Lower(to)}, true, true, true);
            Migrated(Vm(true, false, [spare, used], None), map[Lower("S") := SwitchMap.Row(to, 0)], false, env) ==
              (Vm(false, false, [], Some([spare.(sw := to), used.(sw := "")])), true)
  {
    var ads, netMap := [Adapter("a", NO_MAC, "", 0), Adapter("b", NO_MAC, "S", 0)], map[Lower("S") := SwitchMap.Row(to, 0)];
    var off, e := TakenOff(ads, netMap, false, 2), Entry("b", NO_MAC, "S", to, 0, 0);
    assert off == [ads[0], ads[1].(sw := "")];
    assert PlanOf(ads, netMap, {}, 0) == [];
    assert PlanOf(ads, netMap, {}, 1) == [];
    assert PlanOf(ads, netMap, {}, 2) == [e];
    assert OneTarget([e]) by { assert [e][0].to == to && AllTo([e], to); }
    var j := Joined(off, [e], true, {Lower(to)});
    assert Joined(off, [], true, {Lower(to)}) == Joining(off, {}, true);
    assert [e][..0] == [] && j == JoinNext(off, Joining(off, {}, true), e, true, {Lower(to)});
    assert FirstFree(off, {}, 0) == Some(0);
    assert j.ads == [ads[0].(sw := to), ads[1].(sw := "")];
  }

  /** And whatever the MACs, an adapter is only ever left where it was, disconnected, or
      on some mapped target. */
  lemma {:induction false} NowhereElse(seen: seq<Adapter>, plan: seq<Entry>, single: bool, switches: set<string>, i: nat)
    requires i < |seen|
    ensures var sw := Joined(seen, plan, single, switches).ads[i].sw;
            sw == seen[i].sw || exists k :: 0 <= k < |plan| && plan[k].to == sw
  {
    if plan != [] {
      var front := plan[..|plan| - 1];
      NowhereElse(seen, front, single, switches, i);
      var sw := Joined(seen, plan, single, switches).ads[i].sw;
      if k :| 0 <= k < |front| && front[k].to == sw {
        assert plan[k].to == sw;
      } else if sw != seen[i].sw {
        assert plan[|plan| - 1].to == sw;
      }
    }
  }
}
