/** The cluster's own addresses on a host whose vNICs are reconciled: what keeps them on
    their interfaces, and what takes them off. */
module VnicCluster {
  import opened Wrappers
  import opened Text
  import opened VnicHost
  import opened VnicReconcile
  import opened VnicScripts
  import opened VnicRuns

  predicate Holds(n: Net, ip: string) {
    exists i :: 0 <= i < |n.addrs| && n.addrs[i].ip == ip
  }

  /** Interface n still holds every address of the cluster that it held. */
  ghost predicate KeptOn(h: Host, h': Host, n: Iface) {
    n in h.nets ==> n in h'.nets && forall x :: x in h.site.clusterIps && Holds(h.nets[n], x) ==> Holds(h'.nets[n], x)
  }

  lemma WithoutOthers(n: Net, ip: string, x: string)
    ensures Holds(n.(addrs := Without(n.addrs, ip)), x) <==> x != ip && Holds(n, x)
  {
    forall a ensures a in Without(n.addrs, ip) <==> a in n.addrs && a.ip != ip {
      WithoutHolds(n.addrs, ip, a);
    }
    if x != ip && Holds(n, x) {
      var i :| 0 <= i < |n.addrs| && n.addrs[i].ip == x;
      assert n.addrs[i] in Without(n.addrs, ip);
    }
  }

  /** The address is listed among the cluster's, or one of its entries is neither manual nor
      leased: the clearing leaves it. */
  predicate Spared(site: Site, n: Net, hidden: set<string>, x: string) {
    || (x in site.clusterIps && x !in hidden)
    || exists i :: 0 <= i < |n.addrs| && n.addrs[i].ip == x && n.addrs[i].origin == Other
  }

  lemma ClearingLeaves(site: Site, n: Net, hidden: set<string>, x: string)
    ensures Holds(n.(addrs := NotOwned(Hiding(site, hidden), n.addrs)), x) <==> Holds(n, x) && Spared(site, n, hidden, x)
  {
    var shown := Hiding(site, hidden);
    forall a ensures a in NotOwned(shown, n.addrs) <==> a in n.addrs && !Owned(shown, a) {
      NotOwnedHolds(shown, n.addrs, a);
    }
    var left := NotOwned(shown, n.addrs);
    if i :| 0 <= i < |left| && left[i].ip == x {
      assert left[i] in left && left[i] in n.addrs;
      var j :| 0 <= j < |n.addrs| && n.addrs[j] == left[i];
      assert n.addrs[j].ip == x;
    }
    if Holds(n, x) && Spared(site, n, hidden, x) {
      var i :| 0 <= i < |n.addrs| && n.addrs[i].ip == x && ((x in site.clusterIps && x !in hidden) || n.addrs[i].origin == Other);
      assert n.addrs[i] in NotOwned(shown, n.addrs);
    }
  }

  /** A whole application of a declared address to its interface: every address of the
      cluster stays where it was if and only if the declared one is not the cluster's on
      some other interface, and no other of the cluster's on this one is hidden from the
      script's listing - unless Windows shows it as neither manual nor leased. */
  lemma ApplyKeepsClusterExactlyWhen(h: Host, name: string, cfg: IpConfig, hidden: set<string>)
    requires cfg.parsed.Some? && OfVnic(Lower(name)) in h.nets
    ensures var ip, n := cfg.parsed.value.ip, OfVnic(Lower(name));
            var h' := Exec(h, ApplyIpScript(name, cfg.parsed.value, cfg, hidden), LONGEST).0;
            (forall m :: m in h.nets ==> KeptOn(h, h', m)) <==>
              && (ip in h.site.clusterIps ==> forall m :: m in h.nets && m != n ==> !Holds(h.nets[m], ip))
              && (forall x :: x in h.site.clusterIps && x != ip && Holds(h.nets[n], x) ==> Spared(h.site, h.nets[n], hidden, x))
  {
    var ip, n := cfg.parsed.value.ip, OfVnic(Lower(name));
    var h' := Exec(h, ApplyIpScript(name, cfg.parsed.value, cfg, hidden), LONGEST).0;
    IpScriptRuns(h, name, cfg, hidden, LONGEST);
    forall m | m in h.nets && m != n
      ensures KeptOn(h, h', m) <==> !(ip in h.site.clusterIps && Holds(h.nets[m], ip))
    {
      forall x ensures Holds(h'.nets[m], x) <==> x != ip && Holds(h.nets[m], x) {
        WithoutOthers(h.nets[m], ip, x);
      }
    }
    forall x ensures Holds(h'.nets[n], x) <==> x == ip || (Holds(h.nets[n], x) && Spared(h.site, h.nets[n], hidden, x)) {
      AppliedHolds(h.site, h.nets[n], cfg, hidden, x);
    }
    assert KeptOn(h, h', n) <==>
      forall x :: x in h.site.clusterIps && x != ip && Holds(h.nets[n], x) ==> Spared(h.site, h.nets[n], hidden, x);
  }

  lemma AppliedHolds(site: Site, n: Net, cfg: IpConfig, hidden: set<string>, x: string)
    requires cfg.parsed.Some?
    ensures Holds(Applied(site, n, cfg.parsed.value, cfg, hidden), x) <==> x == cfg.parsed.value.ip || (Holds(n, x) && Spared(site, n, hidden, x))
  {
    var c := cfg.parsed.value;
    var freed := n.(addrs := Without(n.addrs, c.ip));
    var cleared := freed.(addrs := NotOwned(Hiding(site, hidden), freed.addrs));
    var n' := Applied(site, n, c, cfg, hidden);
    assert n'.addrs == cleared.addrs + [Addr(c.ip, c.prefix, Manual)];
    assert n'.addrs[|cleared.addrs|].ip == c.ip;
    WithoutOthers(n, c.ip, x);
    ClearingLeaves(site, freed, hidden, x);
    if Holds(cleared, x) {
      var i :| 0 <= i < |cleared.addrs| && cleared.addrs[i].ip == x;
      assert n'.addrs[i].ip == x;
    }
    if x != c.ip {
      SparedAlone(site, n, hidden, x, c.ip);
    }
  }

  lemma SparedAlone(site: Site, n: Net, hidden: set<string>, x: string, ip: string)
    requires x != ip
    ensures Spared(site, n.(addrs := Without(n.addrs, ip)), hidden, x) <==> Spared(site, n, hidden, x)
  {
    var freed := Without(n.addrs, ip);
    forall a ensures a in freed <==> a in n.addrs && a.ip != ip {
      WithoutHolds(n.addrs, ip, a);
    }
    if i :| 0 <= i < |n.addrs| && n.addrs[i].ip == x && n.addrs[i].origin == Other {
      assert n.addrs[i] in freed;
    }
  }

  /** The listing goes unanswered, and the cluster's live address is taken off the interface
      of the vNIC whose own address is being put right. */
  lemma UnlistedClusterAddressGoes(h: Host, name: string, cfg: IpConfig, x: string, prefix: nat)
    requires cfg.parsed.Some? && OfVnic(Lower(name)) in h.nets && x in h.site.clusterIps && x != cfg.parsed.value.ip
    requires h.nets[OfVnic(Lower(name))].addrs == [Addr(x, prefix, Manual)]
    ensures var n := OfVnic(Lower(name));
            && !KeptOn(h, Exec(h, ApplyIpScript(name, cfg.parsed.value, cfg, h.site.clusterIps), LONGEST).0, n)
            && KeptOn(h, Exec(h, ApplyIpScript(name, cfg.parsed.value, cfg, {}), LONGEST).0, n)
  {
    var n := OfVnic(Lower(name));
    assert h.nets[n].addrs[0].ip == x && Holds(h.nets[n], x);
    IpScriptRuns(h, name, cfg, h.site.clusterIps, LONGEST);
    IpScriptRuns(h, name, cfg, {}, LONGEST);
    AppliedHolds(h.site, h.nets[n], cfg, h.site.clusterIps, x);
    forall y | y in h.site.clusterIps && Holds(h.nets[n], y) ensures y == x {
    }
    AppliedHolds(h.site, h.nets[n], cfg, {}, x);
  }

  // ---- passes and runs ----------------------------------------------------

  /** A vNIC that is there and on another switch than declared, case apart: reconciling it
      takes it and its interface away. */
  predicate Relocates(h: Host, spec: Spec) {
    Lower(spec.name) in h.vnics && !Same(h.vnics[Lower(spec.name)].sw, spec.sw)
  }

  /** The declared address is not the cluster's, and no listing an apply goes by hides one. */
  predicate Harmless(site: Site, spec: Spec, f: Faults) {
    && (DesiredIp(spec).Some? ==> DesiredIp(spec).value !in site.clusterIps)
    && forall x :: x in f.applyHides ==> x !in site.clusterIps
  }

  lemma KeptTransitive(a: Host, b: Host, c: Host, n: Iface)
    requires KeptOn(a, b, n) && KeptOn(b, c, n) && b.site == a.site
    ensures KeptOn(a, c, n)
  {
  }

  lemma IpStepKeeps(h: Host, moving: bool, c: Cmd, n: Iface)
    requires c.FreeAddress? || c.ClearAddresses? || c.ClearRoute? || c.NewAddress? || c.SetDns? || c.SetRegister?
    requires c.FreeAddress? ==> c.ip !in h.site.clusterIps
    requires c.ClearAddresses? ==> forall x :: x in c.hidden ==> x !in h.site.clusterIps
    ensures KeptOn(h, Step(h, moving, c).0, n) && Step(h, moving, c).0.site == h.site
  {
    if n in h.nets {
      forall x | x in h.site.clusterIps && Holds(h.nets[n], x) ensures Holds(Step(h, moving, c).0.nets[n], x) {
        if c.FreeAddress? {
          WithoutOthers(h.nets[n], c.ip, x);
        } else if c.ClearAddresses? {
          ClearingLeaves(h.site, h.nets[n], c.hidden, x);
        } else if c.NewAddress? && n == OfVnic(Lower(c.name)) {
          var i :| 0 <= i < |h.nets[n].addrs| && h.nets[n].addrs[i].ip == x;
          assert Step(h, moving, c).0.nets[n].addrs[i].ip == x;
        }
      }
    }
  }

  lemma {:induction false} IpScriptKeeps(h: Host, spec: Spec, f: Faults, n: Iface, m: nat)
    requires spec.ip.Some? && spec.ip.value.parsed.Some? && Harmless(h.site, spec, f) && m <= 6
    ensures var cmds := ApplyIpScript(spec.name, spec.ip.value.parsed.value, spec.ip.value, f.applyHides);
            KeptOn(h, Upto(h, cmds, m).0, n) && Upto(h, cmds, m).0.site == h.site
  {
    if m > 0 {
      var cmds := ApplyIpScript(spec.name, spec.ip.value.parsed.value, spec.ip.value, f.applyHides);
      IpScriptKeeps(h, spec, f, n, m - 1);
      var (h1, moving, ok) := Upto(h, cmds, m - 1);
      if ok {
        IpStepKeeps(h1, moving, cmds[m - 1], n);
        KeptTransitive(h, h1, Step(h1, moving, cmds[m - 1]).0, n);
      }
    }
  }

  /** The adapter half, cut anywhere: a vNIC that is not relocated keeps its interface. */
  lemma AdapterKeeps(h: Host, spec: Spec, f: Faults, n: Iface)
    requires Valid(h) && (n == OfVnic(Lower(spec.name)) ==> !Relocates(h, spec))
    ensures KeptOn(h, AdapterDone(h, spec, ObserveVnic(h, spec.name), f).0, n)
    ensures AdapterDone(h, spec, ObserveVnic(h, spec.name), f).0.site == h.site
  {
    var obs := ObserveVnic(h, spec.name);
    AdapterTouches(h, spec, obs, f);
    var h1 := AdapterDone(h, spec, obs, f).0;
    if n == OfVnic(Lower(spec.name)) && n in h.nets {
      OwnNetStays(h, spec, f);
    } else if n in h.nets {
      assert NetLess(h.nets[n], h1.nets[n], None);
    }
  }

  lemma OwnNetStays(h: Host, spec: Spec, f: Faults)
    requires Valid(h) && !Relocates(h, spec) && OfVnic(Lower(spec.name)) in h.nets
    ensures AdapterDone(h, spec, ObserveVnic(h, spec.name), f).0.nets == h.nets
  {
    var cmds := UpdateScript(spec, ObserveVnic(h, spec.name));
    StaysOnSwitch(h, cmds, if f.adapterCut < |cmds| then f.adapterCut else |cmds|, Lower(spec.name), spec.sw);
  }

  lemma EnsuredKeeps(h: Host, spec: Spec, reading: Option<IpObs>, f: Faults, n: Iface)
    requires Valid(h) && Harmless(h.site, spec, f) && (n == OfVnic(Lower(spec.name)) ==> !Relocates(h, spec))
    ensures KeptOn(h, EnsuredFrom(h, spec, ObserveVnic(h, spec.name), reading, f).0, n)
  {
    var obs := ObserveVnic(h, spec.name);
    AdapterKeeps(h, spec, f, n);
    EnsuredSplits(h, spec, obs, reading, f);
    var h1 := AdapterDone(h, spec, obs, f).0;
    if spec.ip.Some? && spec.ip.value.parsed.Some? {
      IpScriptKeeps(h1, spec, f, n, if f.ipCut < 6 then f.ipCut else 6);
    }
  }

  /** What a pass is asked for interface n: its specs and listings are harmless, and none of
      them relocates the vNIC of that interface. */
  predicate Gentle(h: Host, specs: seq<Spec>, each: seq<Faults>, n: Iface) {
    && |specs| <= |each| && DistinctNames(specs)
    && forall i :: 0 <= i < |specs| ==> Harmless(h.site, specs[i], each[i]) && (n == OfVnic(Lower(specs[i].name)) ==> !Relocates(h, specs[i]))
  }

  /** Where a gentle pass stands: the interface has kept the cluster's, and the vNICs to come
      are as they were. */
  ghost predicate SoFar(h: Host, h': Host, specs: seq<Spec>, n: Iface, m: nat)
    requires m <= |specs|
  {
    && Valid(h') && h'.site == h.site && KeptOn(h, h', n)
    && forall i :: m <= i < |specs| ==> ObserveVnic(h', specs[i].name) == ObserveVnic(h, specs[i].name)
                                        && (Relocates(h', specs[i]) <==> Relocates(h, specs[i]))
  }

  lemma GentleTurn(h: Host, h': Host, specs: seq<Spec>, each: seq<Faults>, reading: Option<IpObs>, n: Iface, m: nat)
    requires m < |specs| && Gentle(h, specs, each, n) && SoFar(h, h', specs, n, m)
    ensures SoFar(h, EnsuredFrom(h', specs[m], ObserveVnic(h, specs[m].name), reading, each[m]).0, specs, n, m + 1)
    ensures SoFar(h, h', specs, n, m + 1)
  {
    var s := specs[m];
    EnsuredKeeps(h', s, reading, each[m], n);
    EnsuredTouches(h', s, ObserveVnic(h', s.name), reading, each[m]);
    KeptTransitive(h, h', EnsuredFrom(h', s, ObserveVnic(h', s.name), reading, each[m]).0, n);
  }

  lemma {:induction false} BatchKeeps(h: Host, specs: seq<Spec>, each: seq<Faults>, n: Iface, m: nat)
    requires m <= |specs| && Gentle(h, specs, each, n) && Valid(h)
    ensures SoFar(h, FromBatch(h, specs, each, m).0, specs, n, m)
  {
    if m > 0 {
      BatchKeeps(h, specs, each, n, m - 1);
      var now := FromBatch(h, specs, each, m - 1);
      BatchTurn(h, specs, each, m, now);
      GentleTurn(h, now.0, specs, each, Some(ReadIp(h, specs[m - 1].name, each[m - 1].batchHides)), n, m - 1);
    }
  }

  lemma {:induction false} OneByOneKeeps(h: Host, specs: seq<Spec>, each: seq<Faults>, n: Iface, m: nat)
    requires m <= |specs| && Gentle(h, specs, each, n) && Valid(h)
    ensures SoFar(h, OneByOne(h, specs, each, m).0, specs, n, m)
  {
    if m > 0 {
      OneByOneKeeps(h, specs, each, n, m - 1);
      var now := OneByOne(h, specs, each, m - 1);
      OneByOneTurn(h, specs, each, m, now);
      GentleTurn(h, now.0, specs, each, None, n, m - 1);
    }
  }

  ghost predicate GentleRun(h: Host, run: seq<PassRun>, n: Iface)
    requires forall i :: 0 <= i < |run| ==> PassOk(run[i])
  {
    forall i :: 0 <= i < |run| ==> Gentle(AfterRun(h, run[..i]), run[i].specs, run[i].each, n)
  }

  /** Over any run of passes - batched, one at a time or deferred, cut and stopped anywhere,
      with any of the queries' own listings of the cluster's addresses hidden - an interface
      keeps every address of the cluster, if no pass relocates its vNIC, no declared address
      is the cluster's and no apply's own listing hides one. */
  lemma {:induction false} ClusterAddressesStay(h: Host, run: seq<PassRun>, n: Iface)
    requires Valid(h) && (forall i :: 0 <= i < |run| ==> PassOk(run[i])) && GentleRun(h, run, n)
    ensures Valid(AfterRun(h, run)) && AfterRun(h, run).site == h.site && KeptOn(h, AfterRun(h, run), n)
  {
    if run != [] {
      var before, p := run[..|run| - 1], run[|run| - 1];
      forall i | 0 <= i < |before| ensures Gentle(AfterRun(h, before[..i]), before[i].specs, before[i].each, n) {
        assert before[..i] == run[..i];
      }
      ClusterAddressesStay(h, before, n);
      var h1 := AfterRun(h, before);
      BatchKeeps(h1, p.specs, p.each, n, p.reached);
      OneByOneKeeps(h1, p.specs, p.each, n, p.reached);
      KeptTransitive(h, h1, AfterPass(h1, p), n);
    }
  }
}
