/** What a settled vNIC is, told from the host's own fields; what a pass leaves alone, and what
    its reports mean. */
module VnicDeclared {
  import opened Wrappers
  import opened Text
  import opened VnicHost
  import opened VnicReconcile
  import opened VnicScripts
  import opened VnicRuns

  // ---- as declared --------------------------------------------------------

  /** A manual address, routable and not the cluster's. */
  predicate Plain(site: Site, a: Addr) {
    a.origin == Manual && !StartsWith(a.ip, "169.254.") && a.ip !in site.clusterIps
  }

  /** The first plain address is the one given, as the host writes it. */
  predicate FirstPlain(site: Site, addrs: seq<Addr>, address: string) {
    exists i :: 0 <= i < |addrs| && Plain(site, addrs[i]) && addrs[i].ip + "/" + NatText(addrs[i].prefix) == address
                && forall j :: 0 <= j < i ==> !Plain(site, addrs[j])
  }

  predicate NetAsDeclared(site: Site, n: Net, cfg: IpConfig) {
    n.gateway == cfg.gateway && n.dns == cfg.dns && (n.registers <==> cfg.dns != []) && FirstPlain(site, n.addrs, cfg.address)
  }

  predicate VnicAsDeclared(site: Site, v: Vnic, spec: Spec) {
    && v.sw == spec.sw && v.vlan == spec.vlan && Same(v.pin, spec.pin)
    && (spec.rdma.Some? && Lower(v.sw) in site.rdmaCapable ==> v.rdma == spec.rdma.value)
  }

  /** The vNIC is there, on the declared switch with the declared VLAN, pin and RDMA where the
      switch offers it; and its interface has what is declared of it. */
  predicate AsDeclared(h: Host, spec: Spec) {
    var k := Lower(spec.name);
    && k in h.vnics && VnicAsDeclared(h.site, h.vnics[k], spec)
    && (spec.ip.Some? ==> OfVnic(k) in h.nets && NetAsDeclared(h.site, h.nets[OfVnic(k)], spec.ip.value))
  }

  /** On its switch with its address, whatever else. */
  predicate InPlace(h: Host, spec: Spec) {
    var k := Lower(spec.name);
    && k in h.vnics && h.vnics[k].sw == spec.sw
    && (spec.ip.Some? ==> OfVnic(k) in h.nets && NetAsDeclared(h.site, h.nets[OfVnic(k)], spec.ip.value))
  }

  /** It is there, on another switch than the declared one. */
  predicate Elsewhere(h: Host, spec: Spec) {
    Lower(spec.name) in h.vnics && h.vnics[Lower(spec.name)].sw != spec.sw
  }

  lemma {:induction false} FirstOfCandidates(site: Site, addrs: seq<Addr>, address: string)
    requires address != ""
    ensures FirstPlain(site, addrs, address) <==>
              var c := Candidates(site, addrs); c != [] && CidrText(c[0].ip, c[0].prefix) == address
  {
    if addrs != [] {
      var rest := addrs[1..];
      FirstOfCandidates(site, rest, address);
      if Plain(site, addrs[0]) {
        assert Candidates(site, addrs)[0] == addrs[0];
      } else {
        assert Candidates(site, addrs) == Candidates(site, rest);
        if i :| 0 <= i < |rest| && Plain(site, rest[i]) && rest[i].ip + "/" + NatText(rest[i].prefix) == address
                && forall j :: 0 <= j < i ==> !Plain(site, rest[j]) {
          assert addrs[i + 1] == rest[i] && forall j :: 0 < j < i + 1 ==> addrs[j] == rest[j - 1];
        }
        if i :| 0 <= i < |addrs| && Plain(site, addrs[i]) && addrs[i].ip + "/" + NatText(addrs[i].prefix) == address
                && forall j :: 0 <= j < i ==> !Plain(site, addrs[j]) {
          assert rest[i - 1] == addrs[i] && forall j :: 0 <= j < i - 1 ==> rest[j] == addrs[j + 1];
        }
      }
    }
  }

  lemma AddressIsSomething(site: Site, cfg: IpConfig)
    requires IpOk(site, cfg)
    ensures cfg.address != ""
  {
    assert |cfg.address| > |cfg.parsed.value.ip|;
  }

  lemma IpSettledMeans(h: Host, spec: Spec)
    requires Valid(h) && SpecOk(h.site, spec) && Lower(spec.name) in h.vnics
    ensures IpSettled(h, spec) <==> (spec.ip.Some? ==> NetAsDeclared(h.site, h.nets[OfVnic(Lower(spec.name))], spec.ip.value))
  {
    if spec.ip.Some? {
      AddressIsSomething(h.site, spec.ip.value);
      FirstOfCandidates(h.site, h.nets[OfVnic(Lower(spec.name))].addrs, spec.ip.value.address);
    }
  }

  /** Settled, which is that the plan is to do nothing and the address agrees, is nothing else
      than as declared. */
  lemma SettledMeans(h: Host, spec: Spec)
    requires Valid(h) && SpecOk(h.site, spec)
    ensures Settled(h, spec) <==> AsDeclared(h, spec)
    ensures Placed(h, spec) <==> InPlace(h, spec)
  {
    if Lower(spec.name) in h.vnics {
      IpSettledMeans(h, spec);
    }
  }

  // ---- what passes leave --------------------------------------------------

  /** Where a smooth pass stands after n specs, each observed in its turn. */
  ghost predicate Advanced(h: Host, h': Host, specs: seq<Spec>, n: nat)
    requires n <= |specs|
  {
    Underway(h, h', specs, n) && forall i :: 0 <= i < n && !Moved(h, specs[i]) ==> Settled(h', specs[i])
  }

  lemma Advances(h: Host, h': Host, h2: Host, specs: seq<Spec>, n: nat)
    requires n < |specs| && AllOk(h.site, specs) && DistinctNames(specs) && DistinctIps(specs) && Advanced(h, h', specs, n)
    requires OnlyTouches(h', h2, Lower(specs[n].name), DesiredIp(specs[n])) && Valid(h2)
    requires Placed(h2, specs[n]) && (!Moved(h, specs[n]) ==> Settled(h2, specs[n]))
    ensures Advanced(h, h2, specs, n + 1)
  {
    forall i | 0 <= i < |specs| && i != n
      ensures ObserveVnic(h2, specs[i].name) == ObserveVnic(h', specs[i].name)
      ensures IpSettled(h', specs[i]) ==> IpSettled(h2, specs[i])
      ensures Placed(h', specs[i]) ==> Placed(h2, specs[i])
      ensures Settled(h', specs[i]) ==> Settled(h2, specs[i])
    {
      OthersKeep(h', h2, Lower(specs[n].name), DesiredIp(specs[n]), specs[i]);
    }
  }

  lemma SingleTurn(h: Host, h': Host, specs: seq<Spec>, each: seq<Faults>, n: nat)
    requires n < |specs| && Smooth(h, specs, each) && Advanced(h, h', specs, n)
    ensures Advanced(h, EnsuredOne(h', specs[n], each[n]).0, specs, n + 1)
  {
    EnsuredReaches(h', specs[n], None, each[n]);
    EnsuredTouches(h', specs[n], ObserveVnic(h', specs[n].name), None, each[n]);
    Advances(h, h', EnsuredOne(h', specs[n], each[n]).0, specs, n);
  }

  /** The hosts of a pass that observes each vNIC in its turn. */
  lemma {:induction false} SingleHosts(h: Host, specs: seq<Spec>, each: seq<Faults>, n: nat) returns (hosts: seq<Host>)
    requires n <= |specs| <= |each|
    ensures |hosts| == n + 1 && hosts[0] == h && hosts[n] == OneByOne(h, specs, each, n).0
    ensures forall k :: 0 <= k < n ==> hosts[k + 1] == EnsuredOne(hosts[k], specs[k], each[k]).0
  {
    hosts := [h];
    if n > 0 {
      var front := SingleHosts(h, specs, each, n - 1);
      hosts := front + [OneByOne(h, specs, each, n).0];
    }
  }

  lemma {:induction false} SingleProgress(h: Host, hosts: seq<Host>, specs: seq<Spec>, each: seq<Faults>, n: nat)
    requires n <= |specs| && Smooth(h, specs, each) && |hosts| == |specs| + 1 && hosts[0] == h
    requires forall k :: 0 <= k < |specs| ==> hosts[k + 1] == EnsuredOne(hosts[k], specs[k], each[k]).0
    ensures Advanced(h, hosts[n], specs, n)
  {
    if n > 0 {
      SingleProgress(h, hosts, specs, each, n - 1);
      SingleTurn(h, hosts[n - 1], specs, each, n - 1);
    }
  }

  /** Whichever way a pass observes, every vNIC ends on its switch with its address, and as
      declared altogether unless the pass moved it. */
  lemma PassDeclares(h: Host, specs: seq<Spec>, batch: Answer, each: seq<Faults>)
    requires Smooth(h, specs, each) && batch != Down
    ensures var h1 := Ensured(h, specs, batch, each).0;
            && Valid(h1) && h1.site == h.site
            && forall i :: 0 <= i < |specs| ==> InPlace(h1, specs[i]) && (AsDeclared(h1, specs[i]) || Elsewhere(h, specs[i]))
  {
    var h1 := Ensured(h, specs, batch, each).0;
    PassProgress(h, specs, each, |specs|);
    var hosts := SingleHosts(h, specs, each, |specs|);
    SingleProgress(h, hosts, specs, each, |specs|);
    forall i | 0 <= i < |specs| ensures InPlace(h1, specs[i]) && (AsDeclared(h1, specs[i]) || Elsewhere(h, specs[i])) {
      SettledMeans(h1, specs[i]);
    }
  }

  /** With specs the host can satisfy and nothing going wrong but the batch, if that: after
      two passes every vNIC is as declared. */
  lemma PassesDeclare(h: Host, specs: seq<Spec>, b1: Answer, e1: seq<Faults>, b2: Answer, e2: seq<Faults>)
    requires |specs| <= |e1| && |specs| <= |e2| && b1 != Down && b2 != Down
    requires Valid(h) && AllOk(h.site, specs) && DistinctNames(specs) && DistinctIps(specs)
    requires AllFaultFree(specs, e1) && AllFaultFree(specs, e2)
    ensures var h2 := Ensured(Ensured(h, specs, b1, e1).0, specs, b2, e2).0;
            forall i :: 0 <= i < |specs| ==> AsDeclared(h2, specs[i])
  {
    PassDeclares(h, specs, b1, e1);
    PassDeclares(Ensured(h, specs, b1, e1).0, specs, b2, e2);
  }

  /** What a move leaves, and why one pass may not do: the vNIC comes back with what was seen
      to differ set, and with the defaults where what was seen agreed. */
  lemma MoveComesBack(h: Host, spec: Spec, cut: nat)
    requires SpecOk(h.site, spec) && cut >= LONGEST && Valid(h) && Elsewhere(h, spec)
    ensures var k := Lower(spec.name); var was, h' := h.vnics[k], Exec(h, UpdateScript(spec, ObserveVnic(h, spec.name)), cut).0;
            && k in h'.vnics && h'.vnics[k].sw == spec.sw
            && h'.vnics[k].vlan == (if was.vlan == spec.vlan then 0 else spec.vlan)
            && h'.vnics[k].pin == (if Same(was.pin, spec.pin) then "" else spec.pin)
            && (h'.vnics[k].rdma <==>
                  spec.rdma == Some(true) && !was.rdma && Lower(was.sw) in h.site.rdmaCapable && Lower(spec.sw) in h.site.rdmaCapable)
  {
    UpdateMoves(h, spec, cut);
  }

  // ---- what is left alone, and what is reported ---------------------------

  /** What a reconcile that goes through reports of the vNIC that was met on h. */
  predicate RightReport(h: Host, spec: Spec, r: Result) {
    var k := Lower(spec.name);
    && r.out == (if k !in h.vnics then Created else if AsDeclared(h, spec) then Unchanged else Updated)
    && r.err == (if spec.rdma == Some(true) && k in h.vnics && Lower(h.vnics[k].sw) !in h.site.rdmaCapable then Refused else NoError)
  }

  /** One reconcile of a vNIC observed on h, on a host that has come to be h', its scripts
      cut anywhere: it issues no script exactly when the vNIC was as declared, and then
      changes nothing; and unless it reports a failed script its report is the right one. */
  lemma ReconcileReports(h: Host, h': Host, spec: Spec, f: Faults)
    requires Valid(h) && SpecOk(h.site, spec) && f.ip
    ensures var (h2, r) := EnsuredFrom(h', spec, ObserveVnic(h, spec.name), Some(ObserveIp(h, spec.name)), f);
            && (r.acts == 0 <==> AsDeclared(h, spec)) && (AsDeclared(h, spec) ==> h2 == h' && RightReport(h, spec, r))
            && (r.err == ActFailed || RightReport(h, spec, r))
  {
    SettledMeans(h, spec);
  }

  lemma AdapterNotCut(h: Host, spec: Spec, obs: VnicObs, f: Faults)
    requires AdapterDone(h, spec, obs, f).2
    ensures AdapterDone(h, spec, obs, f) == AdapterDone(h, spec, obs, f.(adapterCut := LONGEST, ipCut := LONGEST))
  {
  }

  lemma IpNotCut(h: Host, name: string, cfg: IpConfig, reading: Option<IpObs>, f: Faults)
    requires ReconciledIp(h, name, cfg, reading, f).1.err != ActFailed
    ensures ReconciledIp(h, name, cfg, reading, f) == ReconciledIp(h, name, cfg, reading, f.(adapterCut := LONGEST, ipCut := LONGEST))
  {
  }

  /** A script that is cut, wherever, is reported as failed. */
  lemma CutIsReported(h: Host, spec: Spec, obs: VnicObs, reading: Option<IpObs>, f: Faults)
    requires EnsuredFrom(h, spec, obs, reading, f).1.err != ActFailed
    ensures EnsuredFrom(h, spec, obs, reading, f) == EnsuredFrom(h, spec, obs, reading, f.(adapterCut := LONGEST, ipCut := LONGEST))
  {
    var (h1, adapter, ok) := AdapterDone(h, spec, obs, f);
    if obs.known && ok {
      AdapterNotCut(h, spec, obs, f);
      if spec.ip.Some? {
        IpNotCut(h1, spec.name, spec.ip.value, if adapter == Created || MovesSwitch(spec, obs) then None else reading, f);
      }
    }
  }

  /** A reconcile that reports no failure leaves the vNIC as declared - or, if it moved it,
      on its switch with its address - wherever its scripts might have been cut. */
  lemma SuccessMeansDeclared(h: Host, spec: Spec, reading: Option<IpObs>, f: Faults)
    requires Valid(h) && SpecOk(h.site, spec) && f.vnic == Answered && f.ip && f.batchHides == f.readHides == f.applyHides == {}
    requires reading.None? || reading == Some(ObserveIp(h, spec.name))
    requires EnsuredFrom(h, spec, ObserveVnic(h, spec.name), reading, f).1.err in {NoError, Refused}
    ensures var h' := EnsuredFrom(h, spec, ObserveVnic(h, spec.name), reading, f).0;
            InPlace(h', spec) && (AsDeclared(h', spec) || Elsewhere(h, spec))
  {
    var obs := ObserveVnic(h, spec.name);
    CutIsReported(h, spec, obs, reading, f);
    EnsuredReaches(h, spec, reading, f.(adapterCut := LONGEST, ipCut := LONGEST));
    EnsuredTouches(h, spec, obs, reading, f);
    SettledMeans(EnsuredFrom(h, spec, obs, reading, f).0, spec);
  }

  /** Every turn of a batch, whatever it meets, gives its own result, from what was seen at
      the start. */
  lemma {:induction false} BatchResults(h: Host, specs: seq<Spec>, each: seq<Faults>, i: nat, n: nat) returns (h1: Host)
    requires i < n <= |specs| <= |each|
    ensures |FromBatch(h, specs, each, n).1| == n && FromBatch(h, specs, each, n).1[i] == TurnOf(h, h1, specs[i], each[i]).1
  {
    var now := FromBatch(h, specs, each, n - 1);
    BatchLength(h, specs, each, n - 1);
    BatchTurn(h, specs, each, n, now);
    h1 := now.0;
    if i < n - 1 {
      h1 := BatchResults(h, specs, each, i, n - 1);
    }
  }

  lemma {:induction false} BatchLength(h: Host, specs: seq<Spec>, each: seq<Faults>, n: nat)
    requires n <= |specs| <= |each|
    ensures |FromBatch(h, specs, each, n).1| == n
  {
    if n > 0 {
      BatchLength(h, specs, each, n - 1);
    }
  }

  /** A pass that nothing goes wrong in reports every vNIC rightly, and works on exactly
      those that were not as declared. */
  lemma PassReports(h: Host, specs: seq<Spec>, each: seq<Faults>)
    requires Smooth(h, specs, each)
    ensures var rs := Ensured(h, specs, Answered, each).1;
            |rs| == |specs| && forall i :: 0 <= i < |specs| ==> RightReport(h, specs[i], rs[i]) && (rs[i].acts == 0 <==> AsDeclared(h, specs[i]))
  {
    PassProgress(h, specs, each, |specs|);
    forall i | 0 <= i < |specs|
      ensures var rs := Ensured(h, specs, Answered, each).1;
              |rs| == |specs| && RightReport(h, specs[i], rs[i]) && (rs[i].acts == 0 <==> AsDeclared(h, specs[i]))
    {
      var h1 := BatchResults(h, specs, each, i, |specs|);
      ReconcileReports(h, h1, specs[i], each[i]);
    }
  }

  /** A malformed address, and one whose interface is to be read and does not answer, is
      reported and not applied: the host is as the adapter half leaves it, and what that half
      changed is reported too. */
  lemma UnreadAddressNotApplied(h: Host, spec: Spec, obs: VnicObs, reading: Option<IpObs>, f: Faults)
    requires obs.known && spec.ip.Some? && (spec.ip.value.parsed.None? || (reading.None? && !f.ip))
    ensures var (h1, adapter, ok) := AdapterDone(h, spec, obs, f); var (h', r) := EnsuredFrom(h, spec, obs, reading, f);
            && h' == h1 && r.out == (if ok then adapter else Unchanged)
            && r.err == (if !ok then ActFailed else if spec.ip.value.parsed.None? then BadAddress else QueryFailed)
  {
  }

  // ---- what an apply leaves -----------------------------------------------

  /** Applying an address leaves on the interface what was declared and, of what was there,
      exactly what is neither manual nor leased or is listed as the cluster's; it takes the
      address, and nothing else, off every other interface, and off the devices no longer
      present. */
  lemma ApplyLeavesExactly(h: Host, name: string, cfg: IpConfig, hidden: set<string>, a: Addr, m: Iface)
    requires cfg.parsed.Some? && OfVnic(Lower(name)) in h.nets && m in h.nets && m != OfVnic(Lower(name))
    ensures var c, n := cfg.parsed.value, OfVnic(Lower(name));
            var h' := Exec(h, ApplyIpScript(name, c, cfg, hidden), LONGEST).0;
            && n in h'.nets && m in h'.nets
            && h'.nets[n].gateway == cfg.gateway && h'.nets[n].dns == cfg.dns && (h'.nets[n].registers <==> cfg.dns != [])
            && (a in h'.nets[n].addrs <==>
                  || a == Addr(c.ip, c.prefix, Manual)
                  || (a in h.nets[n].addrs && a.ip != c.ip && (a.origin == Other || (a.ip in h.site.clusterIps && a.ip !in hidden))))
            && (a in h'.nets[m].addrs <==> a in h.nets[m].addrs && a.ip != c.ip)
            && h'.nets[m] == h.nets[m].(addrs := h'.nets[m].addrs)
            && h'.ghosts == h.ghosts - {c.ip}
  {
    var c, n := cfg.parsed.value, OfVnic(Lower(name));
    IpScriptRuns(h, name, cfg, hidden, LONGEST);
    WithoutHolds(h.nets[m].addrs, c.ip, a);
    WithoutHolds(h.nets[n].addrs, c.ip, a);
    NotOwnedHolds(Hiding(h.site, hidden), Without(h.nets[n].addrs, c.ip), a);
  }
}
