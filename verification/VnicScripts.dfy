/** What the generated scripts do to a host: whom they touch, and what they leave
    when they run to the end. */
module VnicScripts {
  import opened Wrappers
  import opened Text
  import opened VnicHost
  import opened VnicReconcile

  // ---- frames -------------------------------------------------------------

  /** A vNIC has an interface and every interface of a vNIC has one; switches are
      spelled as the host spells them. */
  ghost predicate Valid(h: Host) {
    && (forall k :: k in h.vnics <==> OfVnic(k) in h.nets)
    && (forall k :: k in h.vnics ==> FindSame(h.site.switches, h.vnics[k].sw) == Some(h.vnics[k].sw))
  }

  function Owner(c: Cmd): string
    requires !c.FreeAddress?
  {
    Lower(c.name)
  }

  /** The command names vNIC k, and frees no address but ip. */
  predicate About(c: Cmd, k: string, ip: Option<string>) {
    if c.FreeAddress? then ip == Some(c.ip) else Owner(c) == k
  }

  predicate AllAbout(cmds: seq<Cmd>, k: string, ip: Option<string>) {
    forall i :: 0 <= i < |cmds| ==> About(cmds[i], k, ip)
  }

  /** The same interface, or the same less one address. */
  predicate NetLess(n: Net, n': Net, ip: Option<string>) {
    n' == n || (ip.Some? && n' == n.(addrs := Without(n.addrs, ip.value)))
  }

  /** The difference between two hosts is vNIC k, its interface, and at most the
      address ip missing elsewhere. */
  ghost predicate OnlyTouches(h: Host, h': Host, k: string, ip: Option<string>) {
    && h'.site == h.site
    && (forall j :: j != k ==> (j in h'.vnics <==> j in h.vnics))
    && (forall j :: j != k && j in h.vnics ==> h'.vnics[j] == h.vnics[j])
    && (forall n :: n != OfVnic(k) ==> (n in h'.nets <==> n in h.nets))
    && (forall n :: n != OfVnic(k) && n in h.nets ==> NetLess(h.nets[n], h'.nets[n], ip))
    && h.duplicates <= h'.duplicates <= h.duplicates + {k}
  }

  lemma {:induction false} FreedTwice(addrs: seq<Addr>, ip: string)
    ensures Without(Without(addrs, ip), ip) == Without(addrs, ip)
  {
    if addrs != [] {
      FreedTwice(addrs[1..], ip);
      var rest := Without(addrs[1..], ip);
      assert ([addrs[0]] + rest)[1..] == rest && [] + rest == rest;
    }
  }

  lemma NetLessTransitive(a: Net, b: Net, c: Net, ip: Option<string>)
    requires NetLess(a, b, ip) && NetLess(b, c, ip)
    ensures NetLess(a, c, ip)
  {
    if ip.Some? {
      FreedTwice(a.addrs, ip.value);
    }
  }

  lemma TouchesTransitive(a: Host, b: Host, c: Host, k: string, ip: Option<string>)
    requires OnlyTouches(a, b, k, ip) && OnlyTouches(b, c, k, ip)
    ensures OnlyTouches(a, c, k, ip)
  {
    forall n | n != OfVnic(k) && n in a.nets ensures NetLess(a.nets[n], c.nets[n], ip) {
      NetLessTransitive(a.nets[n], b.nets[n], c.nets[n], ip);
    }
  }

  lemma VnicStepTouches(h: Host, moving: bool, c: Cmd)
    requires c.RemoveIfElsewhere? || c.SetVlan? || c.ClearPin? || c.SetPin? || c.SetRdma?
    ensures OnlyTouches(h, Step(h, moving, c).0, Owner(c), None)
    ensures Valid(h) ==> Valid(Step(h, moving, c).0)
  {
  }

  lemma AddStepTouches(h: Host, moving: bool, c: Cmd)
    requires c.AddVnic? || c.AddIfRemoved?
    ensures OnlyTouches(h, Step(h, moving, c).0, Owner(c), None)
    ensures Valid(h) ==> Valid(Step(h, moving, c).0)
  {
    FindOwnSpelling(h.site.switches, c.sw);
  }

  lemma StepTouches(h: Host, moving: bool, c: Cmd, k: string, ip: Option<string>)
    requires About(c, k, ip)
    ensures OnlyTouches(h, Step(h, moving, c).0, k, ip)
    ensures Valid(h) ==> Valid(Step(h, moving, c).0)
  {
    if !c.FreeAddress? {
      if c.AddVnic? || c.AddIfRemoved? {
        AddStepTouches(h, moving, c);
      } else if c.RemoveIfElsewhere? || c.SetVlan? || c.ClearPin? || c.SetPin? || c.SetRdma? {
        VnicStepTouches(h, moving, c);
      }
    }
  }

  /** What a look-up returns, it returns again when asked for itself. */
  lemma FindOwnSpelling(names: seq<string>, name: string)
    ensures FindSame(names, name).Some? ==> FindSame(names, FindSame(names, name).value) == FindSame(names, name)
  {
    FindIsSame(names, name);
    if FindSame(names, name).Some? {
      FindStops(names, name, FindSame(names, name).value);
    }
  }

  lemma {:induction false} UptoTouches(h: Host, cmds: seq<Cmd>, n: nat, k: string, ip: Option<string>)
    requires n <= |cmds| && AllAbout(cmds, k, ip)
    ensures OnlyTouches(h, Upto(h, cmds, n).0, k, ip)
    ensures Valid(h) ==> Valid(Upto(h, cmds, n).0)
  {
    if n > 0 {
      var (h1, moving, ok) := Upto(h, cmds, n - 1);
      UptoTouches(h, cmds, n - 1, k, ip);
      if ok {
        StepTouches(h1, moving, cmds[n - 1], k, ip);
        TouchesTransitive(h, h1, Step(h1, moving, cmds[n - 1]).0, k, ip);
      }
    }
  }

  function DesiredIp(spec: Spec): Option<string> {
    if spec.ip.Some? && spec.ip.value.parsed.Some? then Some(spec.ip.value.parsed.value.ip) else None
  }

  lemma AdapterTouches(h: Host, spec: Spec, obs: VnicObs, f: Faults)
    ensures OnlyTouches(h, AdapterDone(h, spec, obs, f).0, Lower(spec.name), None)
    ensures Valid(h) ==> Valid(AdapterDone(h, spec, obs, f).0)
  {
    var k := Lower(spec.name);
    var create, update := CreateScript(spec), UpdateScript(spec, obs);
    assert AllAbout(create, k, None) && AllAbout(update, k, None);
    UptoTouches(h, create, if f.adapterCut < |create| then f.adapterCut else |create|, k, None);
    UptoTouches(h, update, if f.adapterCut < |update| then f.adapterCut else |update|, k, None);
  }

  lemma IpTouches(h: Host, spec: Spec, observed: Option<IpObs>, f: Faults)
    requires spec.ip.Some?
    ensures OnlyTouches(h, ReconciledIp(h, spec.name, spec.ip.value, observed, f).0, Lower(spec.name), DesiredIp(spec))
    ensures Valid(h) ==> Valid(ReconciledIp(h, spec.name, spec.ip.value, observed, f).0)
  {
    if DesiredIp(spec).Some? {
      var cmds := ApplyIpScript(spec.name, spec.ip.value.parsed.value, spec.ip.value, f.applyHides);
      UptoTouches(h, cmds, if f.ipCut < |cmds| then f.ipCut else |cmds|, Lower(spec.name), DesiredIp(spec));
    }
  }

  /** Whatever is observed and wherever its scripts are cut, reconciling one vNIC
      touches that vNIC, its interface, and the desired address where others hold it. */
  lemma EnsuredTouches(h: Host, spec: Spec, obs: VnicObs, observedIp: Option<IpObs>, f: Faults)
    ensures OnlyTouches(h, EnsuredFrom(h, spec, obs, observedIp, f).0, Lower(spec.name), DesiredIp(spec))
    ensures Valid(h) ==> Valid(EnsuredFrom(h, spec, obs, observedIp, f).0)
  {
    var k := Lower(spec.name);
    AdapterTouches(h, spec, obs, f);
    var h1 := AdapterDone(h, spec, obs, f).0;
    assert OnlyTouches(h, h1, k, DesiredIp(spec));
    if spec.ip.Some? {
      var reading := if AdapterDone(h, spec, obs, f).1 == Created || MovesSwitch(spec, obs) then None else observedIp;
      IpTouches(h1, spec, reading, f);
      TouchesTransitive(h, h1, ReconciledIp(h1, spec.name, spec.ip.value, reading, f).0, k, DesiredIp(spec));
    }
  }

  // ---- a script that runs to the end --------------------------------------

  function RunAll(h: Host, moving: bool, cmds: seq<Cmd>): (Host, bool, bool)
    decreases |cmds|
  {
    if cmds == [] then (h, moving, true)
    else
      var (h1, m1, ok) := Step(h, moving, cmds[0]);
      if ok then RunAll(h1, m1, cmds[1..]) else (h1, m1, false)
  }

  lemma {:induction false} RunAllConcat(h: Host, moving: bool, a: seq<Cmd>, b: seq<Cmd>)
    ensures var (h1, m1, ok) := RunAll(h, moving, a);
            RunAll(h, moving, a + b) == if ok then RunAll(h1, m1, b) else (h1, m1, false)
    decreases |a|
  {
    if a == [] {
      assert a + b == b;
    } else {
      var (h1, m1, ok) := Step(h, moving, a[0]);
      assert (a + b)[1..] == a[1..] + b;
      RunAllConcat(h1, m1, a[1..], b);
    }
  }

  lemma RunAllLast(h: Host, moving: bool, cmds: seq<Cmd>, c: Cmd)
    ensures var (h1, m1, ok) := RunAll(h, moving, cmds);
            RunAll(h, moving, cmds + [c]) == if ok then Step(h1, m1, c) else (h1, m1, false)
  {
    RunAllConcat(h, moving, cmds, [c]);
  }

  /** The same host and verdict; after a throw, whether a move was under way no longer matters. */
  ghost predicate SameRun(a: (Host, bool, bool), b: (Host, bool, bool)) {
    a.0 == b.0 && a.2 == b.2 && (a.2 ==> a.1 == b.1)
  }

  lemma {:induction false} UptoIsRunAll(h: Host, cmds: seq<Cmd>, n: nat)
    requires n <= |cmds|
    ensures SameRun(Upto(h, cmds, n), RunAll(h, false, cmds[..n]))
  {
    if n > 0 {
      UptoIsRunAll(h, cmds, n - 1);
      RunAllLast(h, false, cmds[..n - 1], cmds[n - 1]);
      assert cmds[..n] == cmds[..n - 1] + [cmds[n - 1]];
    }
  }

  lemma ExecToTheEnd(h: Host, cmds: seq<Cmd>, cut: nat)
    requires cut >= |cmds|
    ensures Exec(h, cmds, cut) == (RunAll(h, false, cmds).0, RunAll(h, false, cmds).2)
  {
    UptoIsRunAll(h, cmds, |cmds|);
    assert cmds[..|cmds|] == cmds;
  }

  function WithVnic(h: Host, k: string, v: Vnic): Host {
    h.(vnics := h.vnics[k := v])
  }

  lemma AffinityRuns(h: Host, moving: bool, spec: Spec)
    requires Lower(spec.name) in h.vnics
    requires spec.pin == "" || Teamed(h.site, h.vnics[Lower(spec.name)].sw, spec.pin)
    ensures RunAll(h, moving, AffinityCommand(spec))
         == (WithVnic(h, Lower(spec.name), h.vnics[Lower(spec.name)].(pin := spec.pin)), moving, true)
  {
    var k := Lower(spec.name);
    var h1 := WithVnic(h, k, h.vnics[k].(pin := ""));
    if spec.pin != "" {
      RunAllConcat(h, moving, [ClearPin(spec.name)], [SetPin(spec.name, spec.pin)]);
      assert AffinityCommand(spec) == [ClearPin(spec.name)] + [SetPin(spec.name, spec.pin)];
      assert h1.vnics[k := h1.vnics[k].(pin := spec.pin)] == h.vnics[k := h.vnics[k].(pin := spec.pin)];
    }
  }

  /** RDMA takes where the switch offers it, and nowhere else. */
  function RdmaAfter(h: Host, v: Vnic, rdma: Option<bool>): Vnic {
    if rdma.Some? && Lower(v.sw) in h.site.rdmaCapable then v.(rdma := rdma.value) else v
  }

  lemma RdmaRuns(h: Host, moving: bool, spec: Spec)
    requires Lower(spec.name) in h.vnics
    ensures RunAll(h, moving, RdmaCommand(spec))
         == (WithVnic(h, Lower(spec.name), RdmaAfter(h, h.vnics[Lower(spec.name)], spec.rdma)), moving, true)
  {
    var k := Lower(spec.name);
    assert h.vnics[k := h.vnics[k]] == h.vnics;
  }

  // ---- what can settle ----------------------------------------------------

  predicate IpOk(site: Site, cfg: IpConfig) {
    && cfg.parsed.Some?
    && cfg.address == CidrText(cfg.parsed.value.ip, cfg.parsed.value.prefix)
    && !IsApipa(cfg.parsed.value.ip)
    && cfg.parsed.value.ip !in site.clusterIps
  }

  /** The target switch exists under this very spelling, the pin is one of its
      team, and the address is written canonically and is neither link-local nor
      the cluster's. */
  predicate SpecOk(site: Site, spec: Spec) {
    && FindSame(site.switches, spec.sw) == Some(spec.sw)
    && (spec.pin == "" || Teamed(site, spec.sw, spec.pin))
    && (spec.ip.Some? ==> IpOk(site, spec.ip.value))
  }

  predicate IpSettled(h: Host, spec: Spec) {
    spec.ip.Some? ==> !IpDiffers(spec.ip.value, ObserveIp(h, spec.name))
  }

  /** On its switch with its address. */
  predicate Placed(h: Host, spec: Spec) {
    Lower(spec.name) in h.vnics && h.vnics[Lower(spec.name)].sw == spec.sw && IpSettled(h, spec)
  }

  predicate Settled(h: Host, spec: Spec) {
    Placed(h, spec) && PlanVnic(spec, ObserveVnic(h, spec.name)) == Noop
  }

  lemma CreateRuns(h: Host, spec: Spec, cut: nat)
    requires SpecOk(h.site, spec) && Lower(spec.name) !in h.vnics && cut >= LONGEST
    ensures var (h', ok) := Exec(h, CreateScript(spec), cut);
            && ok && Lower(spec.name) in h'.vnics && h'.vnics[Lower(spec.name)].sw == spec.sw
            && PlanVnic(spec, ObserveVnic(h', spec.name)) == Noop
  {
    var k := Lower(spec.name);
    var add := [AddVnic(spec.name, spec.sw)];
    var rest := VlanCommand(spec) + AffinityCommand(spec) + RdmaCommand(spec);
    assert CreateScript(spec) == add + rest;
    ExecToTheEnd(h, CreateScript(spec), cut);
    RunAllConcat(h, false, add, rest);
    var h1 := WithAdded(h, spec.name, spec.sw);
    RunAllConcat(h1, false, VlanCommand(spec) + AffinityCommand(spec), RdmaCommand(spec));
    RunAllConcat(h1, false, VlanCommand(spec), AffinityCommand(spec));
    var h2 := WithVnic(h1, k, h1.vnics[k].(vlan := spec.vlan));
    AffinityRuns(h2, false, spec);
    var h3 := WithVnic(h2, k, h2.vnics[k].(pin := spec.pin));
    RdmaRuns(h3, false, spec);
  }

  // The drift an update script repairs, each part as a function of the observation.

  function VlanAfter(v: Vnic, spec: Spec, obs: VnicObs): Vnic {
    if obs.vlan != spec.vlan then v.(vlan := spec.vlan) else v
  }

  function PinAfter(v: Vnic, spec: Spec, obs: VnicObs): Vnic {
    if !Same(obs.pin, spec.pin) then v.(pin := spec.pin) else v
  }

  predicate RdmaDrifted(spec: Spec, obs: VnicObs) {
    spec.rdma.Some? && obs.rdmaKnown && spec.rdma.value != obs.rdma
  }

  function Repaired(h: Host, v: Vnic, spec: Spec, obs: VnicObs): Vnic {
    var v2 := PinAfter(VlanAfter(v, spec, obs), spec, obs);
    if RdmaDrifted(spec, obs) then RdmaAfter(h, v2, spec.rdma) else v2
  }

  function VlanPart(spec: Spec, obs: VnicObs): seq<Cmd> {
    if obs.vlan != spec.vlan then VlanCommand(spec) else []
  }

  function PinPart(spec: Spec, obs: VnicObs): seq<Cmd> {
    if !Same(obs.pin, spec.pin) then AffinityCommand(spec) else []
  }

  function RdmaPart(spec: Spec, obs: VnicObs): seq<Cmd> {
    if RdmaDrifted(spec, obs) then RdmaCommand(spec) else []
  }

  lemma SameVnic(h: Host, k: string)
    requires k in h.vnics
    ensures WithVnic(h, k, h.vnics[k]) == h
  {
    assert h.vnics[k := h.vnics[k]] == h.vnics;
  }

  lemma VlanPartRuns(h: Host, spec: Spec, obs: VnicObs)
    requires Lower(spec.name) in h.vnics
    ensures RunAll(h, false, VlanPart(spec, obs))
         == (WithVnic(h, Lower(spec.name), VlanAfter(h.vnics[Lower(spec.name)], spec, obs)), false, true)
  {
    SameVnic(h, Lower(spec.name));
  }

  lemma PinPartRuns(h: Host, spec: Spec, obs: VnicObs)
    requires Lower(spec.name) in h.vnics
    requires spec.pin == "" || Teamed(h.site, h.vnics[Lower(spec.name)].sw, spec.pin)
    ensures RunAll(h, false, PinPart(spec, obs))
         == (WithVnic(h, Lower(spec.name), PinAfter(h.vnics[Lower(spec.name)], spec, obs)), false, true)
  {
    SameVnic(h, Lower(spec.name));
    AffinityRuns(h, false, spec);
  }

  lemma RdmaPartRuns(h: Host, spec: Spec, obs: VnicObs)
    requires Lower(spec.name) in h.vnics
    ensures RunAll(h, false, RdmaPart(spec, obs))
         == (WithVnic(h, Lower(spec.name), if RdmaDrifted(spec, obs) then RdmaAfter(h, h.vnics[Lower(spec.name)], spec.rdma) else h.vnics[Lower(spec.name)]), false, true)
  {
    SameVnic(h, Lower(spec.name));
    RdmaRuns(h, false, spec);
  }

  lemma Overwritten(h: Host, k: string, a: Vnic, b: Vnic)
    ensures WithVnic(WithVnic(h, k, a), k, b) == WithVnic(h, k, b)
  {
    assert h.vnics[k := a][k := b] == h.vnics[k := b];
  }

  lemma RepairsRun(h: Host, spec: Spec, obs: VnicObs)
    requires Lower(spec.name) in h.vnics && h.vnics[Lower(spec.name)].sw == spec.sw && SpecOk(h.site, spec)
    ensures RunAll(h, false, UpdateScript(spec, obs)[2..])
         == (WithVnic(h, Lower(spec.name), Repaired(h, h.vnics[Lower(spec.name)], spec, obs)), false, true)
  {
    var k := Lower(spec.name);
    var vlan, pin, rdma := VlanPart(spec, obs), PinPart(spec, obs), RdmaPart(spec, obs);
    assert UpdateScript(spec, obs)[2..] == vlan + pin + rdma;
    var v1 := VlanAfter(h.vnics[k], spec, obs);
    var v2 := PinAfter(v1, spec, obs);
    VlanPartRuns(h, spec, obs);
    RunAllConcat(h, false, vlan, pin);
    PinPartRuns(WithVnic(h, k, v1), spec, obs);
    Overwritten(h, k, v1, v2);
    RunAllConcat(h, false, vlan + pin, rdma);
    RdmaPartRuns(WithVnic(h, k, v2), spec, obs);
    Overwritten(h, k, v2, Repaired(h, h.vnics[k], spec, obs));
  }

  /** A vNIC already on its switch: the update repairs it in place. */
  lemma UpdateInPlace(h: Host, spec: Spec, cut: nat)
    requires SpecOk(h.site, spec) && cut >= LONGEST
    requires Lower(spec.name) in h.vnics && h.vnics[Lower(spec.name)].sw == spec.sw
    ensures var (h', ok) := Exec(h, UpdateScript(spec, ObserveVnic(h, spec.name)), cut);
            && ok && h'.nets == h.nets && Lower(spec.name) in h'.vnics && h'.vnics[Lower(spec.name)].sw == spec.sw
            && PlanVnic(spec, ObserveVnic(h', spec.name)) == Noop
  {
    var obs := ObserveVnic(h, spec.name);
    var cmds := UpdateScript(spec, obs);
    ExecToTheEnd(h, cmds, cut);
    assert cmds == [RemoveIfElsewhere(spec.name, spec.sw)] + ([AddIfRemoved(spec.name, spec.sw)] + cmds[2..]);
    RunAllConcat(h, false, [RemoveIfElsewhere(spec.name, spec.sw)], [AddIfRemoved(spec.name, spec.sw)] + cmds[2..]);
    RunAllConcat(h, false, [AddIfRemoved(spec.name, spec.sw)], cmds[2..]);
    RepairsRun(h, spec, obs);
  }

  /** A vNIC on another switch: it is removed and added on the target, and comes
      back with the defaults wherever the earlier reading already agreed. */
  lemma UpdateMoves(h: Host, spec: Spec, cut: nat)
    requires SpecOk(h.site, spec) && cut >= LONGEST && Valid(h)
    requires Lower(spec.name) in h.vnics && h.vnics[Lower(spec.name)].sw != spec.sw
    ensures var obs := ObserveVnic(h, spec.name);
            var (h', ok) := Exec(h, UpdateScript(spec, obs), cut);
            && ok && Lower(spec.name) in h'.vnics
            && h'.vnics[Lower(spec.name)] == Repaired(h, Vnic(spec.sw, 0, "", false), spec, obs)
  {
    var k := Lower(spec.name);
    var obs := ObserveVnic(h, spec.name);
    var cmds := UpdateScript(spec, obs);
    ExecToTheEnd(h, cmds, cut);
    if Same(h.vnics[k].sw, spec.sw) {
      FindStops(h.site.switches, h.vnics[k].sw, spec.sw);
      assert false;
    }
    assert cmds == [RemoveIfElsewhere(spec.name, spec.sw)] + ([AddIfRemoved(spec.name, spec.sw)] + cmds[2..]);
    RunAllConcat(h, false, [RemoveIfElsewhere(spec.name, spec.sw)], [AddIfRemoved(spec.name, spec.sw)] + cmds[2..]);
    var h1 := h.(vnics := h.vnics - {k}, nets := h.nets - {OfVnic(k)});
    RunAllConcat(h1, true, [AddIfRemoved(spec.name, spec.sw)], cmds[2..]);
    RepairsRun(WithAdded(h1, spec.name, spec.sw), spec, obs);
  }

  /** The interface as the IPv4 script leaves it: what it does not own, then the declared. */
  function Applied(site: Site, n: Net, c: Cidr, cfg: IpConfig, hidden: set<string>): Net {
    Net(NotOwned(Hiding(site, hidden), Without(n.addrs, c.ip)) + [Addr(c.ip, c.prefix, Manual)], cfg.gateway, cfg.dns, cfg.dns != [])
  }

  lemma IpScriptRuns(h: Host, name: string, cfg: IpConfig, hidden: set<string>, cut: nat)
    requires cfg.parsed.Some? && OfVnic(Lower(name)) in h.nets && cut >= LONGEST
    ensures var c, n := cfg.parsed.value, OfVnic(Lower(name));
            var (h', ok) := Exec(h, ApplyIpScript(name, c, cfg, hidden), cut);
            && ok && h'.vnics == h.vnics && h'.site == h.site && h'.ghosts == h.ghosts - {c.ip} && h'.nets.Keys == h.nets.Keys
            && h'.nets[n] == Applied(h.site, h.nets[n], c, cfg, hidden)
            && forall m :: m in h.nets && m != n ==> h'.nets[m] == h.nets[m].(addrs := Without(h.nets[m].addrs, c.ip))
  {
    var c, n := cfg.parsed.value, OfVnic(Lower(name));
    var cmds := ApplyIpScript(name, c, cfg, hidden);
    var h1 := Step(h, false, cmds[0]).0;
    var h2 := Step(h1, false, cmds[1]).0;
    var h3 := Step(h2, false, cmds[2]).0;
    var h4 := Step(h3, false, cmds[3]).0;
    var h5 := Step(h4, false, cmds[4]).0;
    var h6 := Step(h5, false, cmds[5]).0;
    assert Upto(h, cmds, 0) == (h, false, true);
    assert Upto(h, cmds, 1) == (h1, false, true);
    assert Upto(h, cmds, 2) == (h2, false, true);
    assert Upto(h, cmds, 3) == (h3, false, true);
    assert Upto(h, cmds, 4) == (h4, false, true);
    assert Upto(h, cmds, 5) == (h5, false, true);
    assert Upto(h, cmds, 6) == (h6, false, true);
  }

  /** The IPv4 script, run to the end and whatever listing of the cluster's addresses it
      goes by, leaves no vNIC changed and the observation agreeing with the declaration -
      if and only if the address is one the observation can ever show: canonical,
      routable and not the cluster's. Any other is applied again on every pass. */
  lemma IpSettlesExactlyWhen(h: Host, name: string, cfg: IpConfig, hidden: set<string>, cut: nat)
    requires cfg.parsed.Some? && cfg.address != "" && OfVnic(Lower(name)) in h.nets && cut >= LONGEST
    ensures var (h', ok) := Exec(h, ApplyIpScript(name, cfg.parsed.value, cfg, hidden), cut);
            ok && h'.vnics == h.vnics && (!IpDiffers(cfg, ObserveIp(h', name)) <==> IpOk(h.site, cfg))
  {
    IpScriptRuns(h, name, cfg, hidden, cut);
    AppliedShows(h.site, h.nets[OfVnic(Lower(name))], cfg, hidden);
  }

  lemma AppliedShows(site: Site, n: Net, cfg: IpConfig, hidden: set<string>)
    requires cfg.parsed.Some? && cfg.address != ""
    ensures !IpDiffers(cfg, ObserveNet(site, Applied(site, n, cfg.parsed.value, cfg, hidden))) <==> IpOk(site, cfg)
  {
    var c := cfg.parsed.value;
    var kept := NotOwned(Hiding(site, hidden), Without(n.addrs, c.ip));
    var added := Addr(c.ip, c.prefix, Manual);
    NothingOwnedIsReadable(site, hidden, Without(n.addrs, c.ip));
    CandidatesAppend(site, kept, [added]);
    assert [added][1..] == [];
    assert Candidates(site, [added]) == if Readable(site, added) then [added] else [];
  }
}
