/** Live-moving a VM to a host that names its switches differently: take the adapters
    it cannot match off, move, and put them back or join them to their targets. */
module LiveMove {
  import opened Wrappers
  import opened Text
  import SwitchMap

  datatype Adapter = Adapter(name: string, mac: string, sw: string, vlan: nat)

  /** What is remembered of an adapter taken off. */
  datatype Entry = Entry(name: string, mac: string, from: string, to: string, vlan: int, oldVlan: nat)

  const NO_MAC := "000000000000"

  predicate Planned(ad: Adapter, netMap: map<string, SwitchMap.Row>) {
    ad.sw != "" && Lower(ad.sw) in netMap
  }

  /** vlanRead says the adapter's VLAN was answered for; unanswered it counts as none. */
  function EntryOf(ad: Adapter, netMap: map<string, SwitchMap.Row>, vlanRead: bool): Entry
    requires Planned(ad, netMap)
  {
    Entry(ad.name, ad.mac, ad.sw, netMap[Lower(ad.sw)].to, netMap[Lower(ad.sw)].vlan, if vlanRead then ad.vlan else 0)
  }

  /** Whether a disconnect drops the VLAN is the host's affair. */
  function Off(ad: Adapter, drops: bool): Adapter {
    if drops then ad.(sw := "", vlan := 0) else ad.(sw := "")
  }

  /** The adapters after the first n were looked at, and the plan made of them. */
  function TakenOff(ads: seq<Adapter>, netMap: map<string, SwitchMap.Row>, drops: bool, n: nat): (r: seq<Adapter>)
    requires n <= |ads|
    ensures |r| == |ads|
    ensures forall i :: 0 <= i < |ads| ==> r[i] == if i < n && Planned(ads[i], netMap) then Off(ads[i], drops) else ads[i]
  {
    seq(|ads|, i requires 0 <= i < |ads| => if i < n && Planned(ads[i], netMap) then Off(ads[i], drops) else ads[i])
  }

  function PlanOf(ads: seq<Adapter>, netMap: map<string, SwitchMap.Row>, vlans: set<nat>, n: nat): seq<Entry>
    requires n <= |ads|
  {
    if n == 0 then []
    else
      var front := PlanOf(ads, netMap, vlans, n - 1);
      if Planned(ads[n - 1], netMap) then front + [EntryOf(ads[n - 1], netMap, n - 1 in vlans)] else front
  }

  // ---- putting adapters back ----------------------------------------------

  function MacFrom(ads: seq<Adapter>, mac: string, i: nat): (r: Option<nat>)
    requires i <= |ads|
    ensures r.Some? ==> i <= r.value < |ads| && Same(ads[r.value].mac, mac) && forall k :: i <= k < r.value ==> !Same(ads[k].mac, mac)
    ensures r.None? ==> forall k :: i <= k < |ads| ==> !Same(ads[k].mac, mac)
    decreases |ads| - i
  {
    if i == |ads| then None else if Same(ads[i].mac, mac) then Some(i) else MacFrom(ads, mac, i + 1)
  }

  function NameFrom(ads: seq<Adapter>, name: string, i: nat): (r: Option<nat>)
    requires i <= |ads|
    ensures r.Some? ==> i <= r.value < |ads| && Same(ads[r.value].name, name) && forall k :: i <= k < r.value ==> !Same(ads[k].name, name)
    ensures r.None? ==> forall k :: i <= k < |ads| ==> !Same(ads[k].name, name)
    decreases |ads| - i
  {
    if i == |ads| then None else if Same(ads[i].name, name) then Some(i) else NameFrom(ads, name, i + 1)
  }

  /** The first adapter with the MAC. */
  function ByMac(ads: seq<Adapter>, mac: string): (r: Option<nat>)
    ensures r.Some? ==> r.value < |ads|
  {
    MacFrom(ads, mac, 0)
  }

  /** The first adapter with the name. */
  function ByName(ads: seq<Adapter>, name: string): (r: Option<nat>)
    ensures r.Some? ==> r.value < |ads|
  {
    NameFrom(ads, name, 0)
  }

  /** The adapter a failed move takes for the one that was planned. */
  function BackTo(ads: seq<Adapter>, p: Entry): (r: Option<nat>)
    ensures r.Some? ==> r.value < |ads|
  {
    if p.mac != "" && ByMac(ads, p.mac).Some? then ByMac(ads, p.mac) else ByName(ads, p.name)
  }

  function Connected(ad: Adapter, sw: string, vlan: int): Adapter {
    if vlan > 0 then ad.(sw := sw, vlan := vlan) else ad.(sw := sw)
  }

  function PutBack(ads: seq<Adapter>, p: Entry): (r: seq<Adapter>)
    ensures |r| == |ads|
  {
    match BackTo(ads, p)
    case None => ads
    case Some(i) => ads[i := Connected(ads[i], p.from, p.oldVlan)]
  }

  /** Every entry put back in turn; refused are the entries whose reconnect throws, which
      is only warned about, or for which no adapter is listed. */
  function AllPutBack(ads: seq<Adapter>, plan: seq<Entry>, refused: set<nat>): (r: seq<Adapter>)
    ensures |r| == |ads|
  {
    if plan == [] then ads
    else
      var rest := AllPutBack(ads, plan[..|plan| - 1], refused);
      if |plan| - 1 in refused then rest else PutBack(rest, plan[|plan| - 1])
  }

  // ---- joining the targets ------------------------------------------------

  /** The entries that have a target all have the same one. */
  predicate OneTarget(plan: seq<Entry>) {
    exists i :: 0 <= i < |plan| && plan[i].to != "" && AllTo(plan, plan[i].to)
  }

  predicate AllTo(plan: seq<Entry>, t: string) {
    forall i :: 0 <= i < |plan| && plan[i].to != "" ==> Same(plan[i].to, t)
  }

  function FirstFree(seen: seq<Adapter>, done: set<nat>, i: nat): (r: Option<nat>)
    ensures r.Some? ==> i <= r.value < |seen| && seen[r.value].sw == "" && r.value !in done
    ensures r.Some? ==> forall k :: i <= k < r.value ==> seen[k].sw != "" || k in done
    ensures r.None? ==> forall k :: i <= k < |seen| ==> seen[k].sw != "" || k in done
    decreases |seen| - i
  {
    if i >= |seen| then None
    else if seen[i].sw == "" && i !in done then Some(i)
    else FirstFree(seen, done, i + 1)
  }

  /** The destination's adapter for an entry, from the listing taken once. */
  function JoinAt(seen: seq<Adapter>, done: set<nat>, single: bool, p: Entry): (r: Option<nat>)
    ensures r.Some? ==> r.value < |seen|
  {
    if p.mac != "" && p.mac != NO_MAC && ByMac(seen, p.mac).Some? then ByMac(seen, p.mac)
    else if single then FirstFree(seen, done, 0)
    else None
  }

  datatype Joining = Joining(ads: seq<Adapter>, done: set<nat>, ok: bool)

  /** The entries that have a target, joined in turn; a target the destination lacks
      ends it. */
  function Joined(seen: seq<Adapter>, plan: seq<Entry>, single: bool, switches: set<string>): (r: Joining)
    ensures |r.ads| == |seen|
  {
    if plan == [] then Joining(seen, {}, true)
    else JoinNext(seen, Joined(seen, plan[..|plan| - 1], single, switches), plan[|plan| - 1], single, switches)
  }

  function JoinNext(seen: seq<Adapter>, j: Joining, p: Entry, single: bool, switches: set<string>): (r: Joining)
    requires |j.ads| == |seen|
    ensures |r.ads| == |seen|
  {
    if !j.ok || p.to == "" then j
    else
      match JoinAt(seen, j.done, single, p)
      case None => j
      case Some(i) =>
        if Lower(p.to) !in switches then Joining(j.ads, j.done + {i}, false)
        else Joining(j.ads[i := Connected(j.ads[i], p.to, p.vlan)], j.done + {i}, true)
  }

  // ---- the move -----------------------------------------------------------

  /** Phantom is a move that reports success and did not happen. */
  datatype Move = Moved | Refused | Phantom

  /** What the job meets. First the role: whether the cluster says it has one, lets it go,
      and whether the VM is seen afterwards. Then the move: whether the adapters are
      listed, whose VLANs are, the adapter whose disconnect throws, if one does, whether a
      disconnect drops the VLAN; what the move does; the reconnects that fail; whether
      what arrived is listed and which switches there are. Last, whether the still-here
      test and the guard on restoring the role are answered, and whether the cluster takes
      the role back. */
  datatype Env = Env(roleSeen: bool, roleOff: bool, vmSeen: bool,
                     listed: bool, vlans: set<nat>, stuckAt: Option<nat>, drops: bool,
                     move: Move, refused: set<nat>, arrived: bool, switches: set<string>,
                     testAnswered: bool, guardAnswered: bool, roleBack: bool)

  /** there is the VM on the destination, with its adapters. */
  datatype Vm = Vm(here: bool, role: bool, ads: seq<Adapter>, there: Option<seq<Adapter>>)

  /** How many adapters the listing shows: all of them or, unanswered, none. */
  function Looked(ads: seq<Adapter>, env: Env): (n: nat)
    ensures n <= |ads|
  {
    if env.listed then |ads| else 0
  }

  /** The disconnect that throws, or the end of the listing. */
  function StopsAt(ads: seq<Adapter>, netMap: map<string, SwitchMap.Row>, env: Env): (n: nat)
    ensures n <= Looked(ads, env)
  {
    if env.stuckAt.Some? && env.stuckAt.value < Looked(ads, env) && Planned(ads[env.stuckAt.value], netMap)
    then env.stuckAt.value else Looked(ads, env)
  }

  /** Up to and with the still-here test: the VM, and whether the script threw. Without an
      answer the test finds nothing and passes. */
  function Attempted(v: Vm, netMap: map<string, SwitchMap.Row>, env: Env): (Vm, bool) {
    var n := StopsAt(v.ads, netMap, env);
    var off := TakenOff(v.ads, netMap, env.drops, n);
    if n < Looked(v.ads, env) then (v.(ads := off), true)
    else
      var plan := PlanOf(v.ads, netMap, env.vlans, n);
      match env.move
      case Refused => (v.(ads := AllPutBack(off, plan, env.refused)), true)
      case Phantom => (v.(ads := off), env.testAnswered)
      case Moved =>
        var j := if env.arrived then Joined(off, plan, OneTarget(plan), env.switches) else Joining(off, {}, true);
        (v.(here := false, ads := [], there := Some(j.ads)), !j.ok)
  }

  /** The role taken off, and whether the job goes on. */
  function Unclustered(v: Vm, clustered: bool, env: Env): (Vm, bool) {
    if !clustered || !v.role || !env.roleSeen then (v, true)
    else if !env.roleOff then (v, false)
    else (v.(role := false), env.vmSeen)
  }

  /** The whole job: the role off, the move, and the role back if it failed with the VM
      seen here. clustered says the source cluster was named. */
  function Migrated(v: Vm, netMap: map<string, SwitchMap.Row>, clustered: bool, env: Env): (Vm, bool) {
    var (v1, goesOn) := Unclustered(v, clustered, env);
    if !v.here then (v, false)
    else if !goesOn then (v1, false)
    else
      var (v2, threw) := Attempted(v1, netMap, env);
      if threw && clustered && v2.here && env.guardAnswered && env.roleBack then (v2.(role := true), false)
      else (v2, !threw)
  }

  class Mover {
    var here: bool
    var role: bool
    var ads: seq<Adapter>
    var there: Option<seq<Adapter>>

    function Contents(): Vm
      reads this
    {
      Vm(here, role, ads, there)
    }

    constructor (v: Vm)
      ensures Contents() == v
    {
      here, role, ads, there := v.here, v.role, v.ads, v.there;
    }

    method TakeOff(netMap: map<string, SwitchMap.Row>, env: Env) returns (plan: seq<Entry>, threw: bool)
      modifies this`ads
      ensures var was := old(ads);
              var n := StopsAt(was, netMap, env);
              && ads == TakenOff(was, netMap, env.drops, n)
              && (threw <==> n < Looked(was, env))
              && (!threw ==> plan == PlanOf(was, netMap, env.vlans, n))
    {
      plan, threw := [], false;
      ghost var was := ads;
      var listed := if env.listed then ads else [];
      assert ads == TakenOff(was, netMap, env.drops, 0);
      for i := 0 to |listed|
        invariant ads == TakenOff(was, netMap, env.drops, i)
        invariant plan == PlanOf(was, netMap, env.vlans, i)
        invariant i <= StopsAt(was, netMap, env)
      {
        var ad := listed[i];
        if ad.sw == "" || Lower(ad.sw) !in netMap {
          assert ads == TakenOff(was, netMap, env.drops, i + 1);
          continue;
        }
        if env.stuckAt == Some(i) {
          return plan, true;
        }
        plan := plan + [EntryOf(ad, netMap, i in env.vlans)];
        ads := ads[i := Off(ads[i], env.drops)];
        assert ads == TakenOff(was, netMap, env.drops, i + 1);
      }
    }

    method PutAllBack(plan: seq<Entry>, env: Env)
      modifies this`ads
      ensures ads == AllPutBack(old(ads), plan, env.refused)
    {
      ghost var was := ads;
      for k := 0 to |plan|
        invariant ads == AllPutBack(was, plan[..k], env.refused)
      {
        assert plan[..k + 1][..k] == plan[..k];
        var p := plan[k];
        var back := if p.mac != "" then ByMac(ads, p.mac) else None;
        if back.None? {
          back := ByName(ads, p.name);
        }
        if back.Some? && k !in env.refused {
          ads := ads[back.value := Connected(ads[back.value], p.from, p.oldVlan)];
        }
      }
      assert plan[..|plan|] == plan;
    }

    method JoinTargets(seen: seq<Adapter>, plan: seq<Entry>, single: bool, env: Env) returns (ok: bool)
      modifies this`there
      ensures there == Some(Joined(seen, plan, single, env.switches).ads) && ok == Joined(seen, plan, single, env.switches).ok
    {
      var cur, done := seen, {};
      ok := true;
      for n := 0 to |plan|
        invariant Joined(seen, plan[..n], single, env.switches) == Joining(cur, done, true)
        invariant |cur| == |seen|
      {
        assert plan[..n + 1][..n] == plan[..n];
        var p := plan[n];
        if p.to == "" {
          continue;
        }
        var at := JoinAt(seen, done, single, p);
        if at.None? {
          continue;
        }
        done := done + {at.value};
        if Lower(p.to) !in env.switches {
          there := Some(cur);
          StaysThrown(seen, plan, single, env.switches, n + 1);
          return false;
        }
        cur := cur[at.value := Connected(cur[at.value], p.to, p.vlan)];
      }
      assert plan[..|plan|] == plan;
      there := Some(cur);
    }

    method Attempt(netMap: map<string, SwitchMap.Row>, env: Env) returns (threw: bool)
      modifies this
      ensures (Contents(), threw) == Attempted(old(Contents()), netMap, env)
    {
      var plan;
      plan, threw := TakeOff(netMap, env);
      if threw {
        return;
      }
      match env.move
      case Refused =>
        PutAllBack(plan, env);
        threw := true;
      case Phantom =>
        threw := env.testAnswered;
      case Moved =>
        var single := CountTargets(plan);
        var ok := true;
        if env.arrived {
          ok := JoinTargets(ads, plan, single, env);
        } else {
          there := Some(ads);
        }
        here, ads := false, [];
        threw := !ok;
    }

    method Migrate(netMap: map<string, SwitchMap.Row>, clustered: bool, env: Env) returns (ok: bool)
      modifies this
      ensures (Contents(), ok) == Migrated(old(Contents()), netMap, clustered, env)
    {
      if !here {
        return false;
      }
      if clustered && env.roleSeen && role {
        if !env.roleOff {
          return false;
        }
        role := false;
        if !env.vmSeen {
          return false;
        }
      }
      var threw := Attempt(netMap, env);
      if threw {
        if clustered && here && env.guardAnswered && env.roleBack {
          role := true;
        }
        return false;
      }
      return true;
    }
  }

  /** Whether every entry with a target has the same one, and there is one. */
  method CountTargets(plan: seq<Entry>) returns (single: bool)
    ensures single <==> OneTarget(plan)
  {
    var first := "";
    single := true;
    for i := 0 to |plan|
      invariant first == "" ==> forall j :: 0 <= j < i ==> plan[j].to == ""
      invariant first != "" ==> exists j :: 0 <= j < i && plan[j].to == first
      invariant single ==> forall j :: 0 <= j < i && plan[j].to != "" ==> Same(plan[j].to, first)
      invariant !single ==> first != "" && exists j :: 0 <= j < i && plan[j].to != "" && !Same(plan[j].to, first)
    {
      if plan[i].to != "" {
        if first == "" {
          first := plan[i].to;
        } else if !Same(plan[i].to, first) {
          single := false;
        }
      }
    }
    single := single && first != "";
    if single {
      assert AllTo(plan, first);
    }
  }

  lemma {:induction false} StaysThrown(seen: seq<Adapter>, plan: seq<Entry>, single: bool, switches: set<string>, n: nat)
    requires n <= |plan| && !Joined(seen, plan[..n], single, switches).ok
    ensures Joined(seen, plan, single, switches) == Joined(seen, plan[..n], single, switches)
    decreases |plan| - n
  {
    if n < |plan| {
      assert plan[..n + 1][..n] == plan[..n];
      StaysThrown(seen, plan, single, switches, n + 1);
    } else {
      assert plan[..n] == plan;
    }
  }
}
