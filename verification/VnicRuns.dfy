/** Whole passes over the management vNICs: convergence, the batch against the
    one-at-a-time path, outages, and faults. */
module VnicRuns {
  import opened Wrappers
  import opened Text
  import opened VnicHost
  import opened VnicReconcile
  import opened VnicScripts

  // ---- the conditions a pass needs ----------------------------------------

  predicate DistinctNames(specs: seq<Spec>) {
    forall i, j :: 0 <= i < j < |specs| ==> Lower(specs[i].name) != Lower(specs[j].name)
  }

  predicate DistinctIps(specs: seq<Spec>) {
    forall i, j :: 0 <= i < j < |specs| && DesiredIp(specs[i]).Some? ==> DesiredIp(specs[i]) != DesiredIp(specs[j])
  }

  predicate AllOk(site: Site, specs: seq<Spec>) {
    forall i :: 0 <= i < |specs| ==> SpecOk(site, specs[i])
  }

  predicate AllFaultFree(specs: seq<Spec>, each: seq<Faults>)
    requires |specs| <= |each|
  {
    forall i :: 0 <= i < |specs| ==> FaultFree(each[i])
  }

  // ---- one spec's effect on another ---------------------------------------

  lemma DigitsOnly(n: nat, i: nat)
    requires i < |NatText(n)|
    ensures NatText(n)[i] != '/'
  {
    AllDigits(n);
  }

  lemma CidrTextTellsIp(a: string, p: nat, b: string, q: nat)
    requires CidrText(a, p) == CidrText(b, q)
    ensures a == b
  {
    var s, t := CidrText(a, p), CidrText(b, q);
    if |a| < |b| {
      assert t[|b|] == '/' && s[|b|] == NatText(p)[|b| - |a| - 1];
      DigitsOnly(p, |b| - |a| - 1);
    } else if |b| < |a| {
      assert s[|a|] == '/' && t[|a|] == NatText(q)[|a| - |b| - 1];
      DigitsOnly(q, |a| - |b| - 1);
    } else {
      assert a == s[..|a|] && b == t[..|b|];
    }
  }

  /** An interface that shows the declared address still shows it after some other
      address was freed. */
  lemma StillShown(site: Site, n: Net, n': Net, cfg: IpConfig, freed: Option<string>)
    requires NetLess(n, n', freed) && IpOk(site, cfg) && freed != Some(cfg.parsed.value.ip)
    requires !IpDiffers(cfg, ObserveNet(site, n))
    ensures !IpDiffers(cfg, ObserveNet(site, n'))
  {
    if n' != n {
      FreeingCommutes(site, n.addrs, freed.value);
      var c := Candidates(site, n.addrs);
      CidrTextTellsIp(c[0].ip, c[0].prefix, cfg.parsed.value.ip, cfg.parsed.value.prefix);
      assert Without(c, freed.value) == [c[0]] + Without(c[1..], freed.value);
    }
  }

  /** What reconciling one vNIC does to a differently named, differently addressed
      one: nothing its observation or its settledness depends on. */
  lemma OthersKeep(h: Host, h': Host, k: string, freed: Option<string>, spec: Spec)
    requires OnlyTouches(h, h', k, freed) && Lower(spec.name) != k
    requires SpecOk(h.site, spec) && (freed.Some? ==> freed != DesiredIp(spec))
    ensures ObserveVnic(h', spec.name) == ObserveVnic(h, spec.name)
    ensures IpSettled(h, spec) ==> IpSettled(h', spec)
    ensures Placed(h, spec) ==> Placed(h', spec)
    ensures Settled(h, spec) ==> Settled(h', spec)
  {
    var n := OfVnic(Lower(spec.name));
    if spec.ip.Some? && IpSettled(h, spec) && n in h.nets {
      StillShown(h.site, h.nets[n], h'.nets[n], spec.ip.value, freed);
    }
  }

  // ---- one spec, no faults ------------------------------------------------

  /** A reading taken earlier in the pass may be stale, but if it agrees with the
      declaration then the interface still does. */
  predicate ReadingHolds(h: Host, spec: Spec, reading: Option<IpObs>) {
    spec.ip.Some? && reading.Some? && !IpDiffers(spec.ip.value, reading.value) ==> IpSettled(h, spec)
  }

  lemma IpReaches(h: Host, spec: Spec, reading: Option<IpObs>, f: Faults)
    requires Valid(h) && SpecOk(h.site, spec) && FaultFree(f) && spec.ip.Some?
    requires Lower(spec.name) in h.vnics && ReadingHolds(h, spec, reading)
    ensures var (h', r) := ReconciledIp(h, spec.name, spec.ip.value, reading, f);
            r.err == NoError && h'.vnics == h.vnics && h'.site == h.site && IpSettled(h', spec)
  {
    IpTouches(h, spec, reading, f);
    IpSettlesExactlyWhen(h, spec.name, spec.ip.value, f.applyHides, f.ipCut);
  }

  /** One uninterrupted reconcile from a current vNIC reading places the vNIC; it
      settles it unless it had to move it between switches. */
  lemma EnsuredReaches(h: Host, spec: Spec, reading: Option<IpObs>, f: Faults)
    requires Valid(h) && SpecOk(h.site, spec) && FaultFree(f)
    requires ReadingHolds(h, spec, reading)
    ensures var obs := ObserveVnic(h, spec.name);
            var (h', r) := EnsuredFrom(h, spec, obs, reading, f);
            && Placed(h', spec)
            && (!MovesSwitch(spec, obs) ==> Settled(h', spec))
            && r.err == (if RdmaRefused(spec, obs) then Refused else NoError)
            && (r.out == Created <==> !obs.exists_)
  {
    var obs := ObserveVnic(h, spec.name);
    AdapterReaches(h, spec, f);
    var (h1, adapter, ok) := AdapterDone(h, spec, obs, f);
    if spec.ip.Some? {
      var next := if adapter == Created || MovesSwitch(spec, obs) then None else reading;
      IpReaches(h1, spec, next, f);
    }
  }

  /** The adapter half puts the vNIC on its switch, and settles it unless it moved it. */
  lemma AdapterReaches(h: Host, spec: Spec, f: Faults)
    requires Valid(h) && SpecOk(h.site, spec) && FaultFree(f)
    ensures var obs, k := ObserveVnic(h, spec.name), Lower(spec.name);
            var (h1, adapter, ok) := AdapterDone(h, spec, obs, f);
            && ok && Valid(h1) && h1.site == h.site && k in h1.vnics && h1.vnics[k].sw == spec.sw
            && (adapter == Created <==> !obs.exists_)
            && (obs.exists_ && !MovesSwitch(spec, obs) ==> h1.nets == h.nets)
            && (!MovesSwitch(spec, obs) ==> PlanVnic(spec, ObserveVnic(h1, spec.name)) == Noop)
  {
    var obs := ObserveVnic(h, spec.name);
    AdapterTouches(h, spec, obs, f);
    if !obs.exists_ {
      CreateRuns(h, spec, f.adapterCut);
    } else if MovesSwitch(spec, obs) {
      UpdateMoves(h, spec, f.adapterCut);
    } else if PlanVnic(spec, obs) == Update {
      UpdateInPlace(h, spec, f.adapterCut);
    }
  }

  /** Once settled, a vNIC costs a pass nothing: no script, nothing changed, and the
      one thing left to report is RDMA on an interface that has none. */
  lemma SettledIsQuiet(h: Host, spec: Spec, reading: Option<IpObs>, f: Faults)
    requires Settled(h, spec) && (spec.ip.Some? ==> spec.ip.value.parsed.Some?)
    requires f.ip && (spec.ip.Some? ==> !IpDiffers(spec.ip.value, if reading.Some? then reading.value else ReadIp(h, spec.name, f.readHides)))
    ensures EnsuredFrom(h, spec, ObserveVnic(h, spec.name), reading, f)
         == (h, Result(Unchanged, if RdmaRefused(spec, ObserveVnic(h, spec.name)) then Refused else NoError, 0))
  {
  }

  // ---- convergence --------------------------------------------------------

  predicate Moved(h: Host, spec: Spec) {
    MovesSwitch(spec, ObserveVnic(h, spec.name))
  }

  function QuietResult(h: Host, spec: Spec): Result {
    Result(Unchanged, if RdmaRefused(spec, ObserveVnic(h, spec.name)) then Refused else NoError, 0)
  }

  /** What a pass needs of its specs and of the machine. */
  ghost predicate Smooth(h: Host, specs: seq<Spec>, each: seq<Faults>) {
    && |specs| <= |each| && Valid(h) && AllOk(h.site, specs)
    && DistinctNames(specs) && DistinctIps(specs) && AllFaultFree(specs, each)
  }

  /** The state a smooth pass is in after n specs: those done are placed, those to
      come look as they did. */
  ghost predicate Underway(h: Host, h': Host, specs: seq<Spec>, n: nat)
    requires n <= |specs|
  {
    && Valid(h') && h'.site == h.site
    && (forall i :: 0 <= i < n ==> Placed(h', specs[i]))
    && (forall i :: n <= i < |specs| ==> ObserveVnic(h', specs[i].name) == ObserveVnic(h, specs[i].name))
    && (forall i :: n <= i < |specs| && IpSettled(h, specs[i]) ==> IpSettled(h', specs[i]))
  }

  function TurnOf(h: Host, h': Host, spec: Spec, f: Faults): (Host, Result) {
    EnsuredFrom(h', spec, ObserveVnic(h, spec.name), Some(ReadIp(h, spec.name, f.batchHides)), f)
  }

  /** What a smooth pass reports about one spec. */
  ghost predicate RightResult(h: Host, spec: Spec, r: Result) {
    && r.err == (if RdmaRefused(spec, ObserveVnic(h, spec.name)) then Refused else NoError)
    && (r.out == Created <==> Lower(spec.name) !in h.vnics)
    && (Settled(h, spec) ==> r == QuietResult(h, spec))
  }

  lemma OneTurn(h: Host, h': Host, specs: seq<Spec>, each: seq<Faults>, n: nat)
    requires n < |specs| && Smooth(h, specs, each) && Underway(h, h', specs, n)
    ensures Underway(h, TurnOf(h, h', specs[n], each[n]).0, specs, n + 1)
    ensures var (h2, r) := TurnOf(h, h', specs[n], each[n]);
            && (!Moved(h, specs[n]) ==> Settled(h2, specs[n]))
            && RightResult(h, specs[n], r)
            && (Settled(h, specs[n]) ==> h2 == h')
    ensures forall i :: 0 <= i < n && Settled(h', specs[i]) ==> Settled(TurnOf(h, h', specs[n], each[n]).0, specs[i])
  {
    var s, reading := specs[n], Some(ReadIp(h, specs[n].name, each[n].batchHides));
    var h2 := TurnOf(h, h', s, each[n]).0;
    EnsuredReaches(h', s, reading, each[n]);
    EnsuredTouches(h', s, ObserveVnic(h', s.name), reading, each[n]);
    if Settled(h, s) {
      SettledIsQuiet(h', s, reading, each[n]);
    }
    forall i | 0 <= i < |specs| && i != n
      ensures ObserveVnic(h2, specs[i].name) == ObserveVnic(h', specs[i].name)
      ensures IpSettled(h', specs[i]) ==> IpSettled(h2, specs[i])
      ensures Placed(h', specs[i]) ==> Placed(h2, specs[i])
      ensures Settled(h', specs[i]) ==> Settled(h2, specs[i])
    {
      OthersKeep(h', h2, Lower(s.name), DesiredIp(s), specs[i]);
    }
  }

  predicate AllSettled(h: Host, specs: seq<Spec>) {
    forall i :: 0 <= i < |specs| ==> Settled(h, specs[i])
  }

  /** Where a smooth pass stands after n specs, with the results so far. */
  ghost predicate Progress(h: Host, h': Host, rs: seq<Result>, specs: seq<Spec>, n: nat)
    requires n <= |specs|
  {
    && Underway(h, h', specs, n)
    && (forall i :: 0 <= i < n && !Moved(h, specs[i]) ==> Settled(h', specs[i]))
    && |rs| == n
    && (forall i :: 0 <= i < n ==> RightResult(h, specs[i], rs[i]))
    && (AllSettled(h, specs) ==> h' == h)
  }

  lemma TurnProgress(h: Host, h': Host, rs: seq<Result>, specs: seq<Spec>, each: seq<Faults>, n: nat)
    requires n < |specs| && Smooth(h, specs, each) && Progress(h, h', rs, specs, n)
    ensures Progress(h, TurnOf(h, h', specs[n], each[n]).0, rs + [TurnOf(h, h', specs[n], each[n]).1], specs, n + 1)
  {
    OneTurn(h, h', specs, each, n);
  }

  /** Every spec of a smooth pass is placed, those it did not move are settled, and
      every result is the right one: creations for exactly the absent vNICs, no
      error but refused RDMA, nothing for what was settled. */
  lemma {:induction false} PassProgress(h: Host, specs: seq<Spec>, each: seq<Faults>, n: nat)
    requires n <= |specs| && Smooth(h, specs, each)
    ensures Progress(h, FromBatch(h, specs, each, n).0, FromBatch(h, specs, each, n).1, specs, n)
  {
    if n > 0 {
      PassProgress(h, specs, each, n - 1);
      var (h1, rs) := FromBatch(h, specs, each, n - 1);
      TurnProgress(h, h1, rs, specs, each, n - 1);
    }
  }

  function Pass(h: Host, specs: seq<Spec>, each: seq<Faults>): Host
    requires |specs| <= |each|
  {
    Ensured(h, specs, Answered, each).0
  }

  /** Convergence. With Hyper-V answering and specs the host can satisfy, two passes
      settle every vNIC; the second works only on vNICs the first moved between
      switches; and every pass after that issues no script, changes nothing, and
      reports nothing but RDMA asked of an interface that has none. */
  lemma Converges(h: Host, specs: seq<Spec>, e1: seq<Faults>, e2: seq<Faults>, e3: seq<Faults>)
    requires |specs| <= |e1| && |specs| <= |e2| && |specs| <= |e3|
    requires Valid(h) && AllOk(h.site, specs) && DistinctNames(specs) && DistinctIps(specs)
    requires AllFaultFree(specs, e1) && AllFaultFree(specs, e2) && AllFaultFree(specs, e3)
    ensures var h1 := Pass(h, specs, e1);
            var (h2, r2) := Ensured(h1, specs, Answered, e2);
            var (h3, r3) := Ensured(h2, specs, Answered, e3);
            && |r2| == |r3| == |specs|
            && (forall i :: 0 <= i < |specs| ==> Settled(h2, specs[i]))
            && (forall i :: 0 <= i < |specs| && r2[i].acts > 0 ==> Moved(h, specs[i]))
            && h3 == h2
            && (forall i :: 0 <= i < |specs| ==> r3[i] == QuietResult(h2, specs[i]))
  {
    FirstPass(h, specs, e1);
    var h1 := Pass(h, specs, e1);
    SecondPass(h, h1, specs, e2);
    QuietPass(Pass(h1, specs, e2), specs, e3);
  }

  /** A pass from anywhere places every vNIC and settles those it does not move. */
  lemma FirstPass(h: Host, specs: seq<Spec>, each: seq<Faults>)
    requires Smooth(h, specs, each)
    ensures var h1 := Pass(h, specs, each);
            && Valid(h1) && h1.site == h.site
            && (forall i :: 0 <= i < |specs| ==> Placed(h1, specs[i]) && (!Moved(h, specs[i]) ==> Settled(h1, specs[i])))
  {
    PassProgress(h, specs, each, |specs|);
  }

  /** A pass over placed vNICs settles them all, at no cost for those already settled. */
  lemma SecondPass(h: Host, h1: Host, specs: seq<Spec>, each: seq<Faults>)
    requires Smooth(h1, specs, each)
    requires forall i :: 0 <= i < |specs| ==> Placed(h1, specs[i]) && (!Moved(h, specs[i]) ==> Settled(h1, specs[i]))
    ensures var (h2, rs) := Ensured(h1, specs, Answered, each);
            && Valid(h2) && h2.site == h1.site && |rs| == |specs| && AllSettled(h2, specs)
            && (forall i :: 0 <= i < |specs| && rs[i].acts > 0 ==> Moved(h, specs[i]))
  {
    PassProgress(h1, specs, each, |specs|);
    forall i | 0 <= i < |specs| ensures !Moved(h1, specs[i]) {
      assert Placed(h1, specs[i]);
    }
  }

  lemma QuietPass(h: Host, specs: seq<Spec>, each: seq<Faults>)
    requires Smooth(h, specs, each) && AllSettled(h, specs)
    ensures var (h', rs) := Ensured(h, specs, Answered, each);
            h' == h && |rs| == |specs| && forall i :: 0 <= i < |specs| ==> rs[i] == QuietResult(h, specs[i])
  {
    PassProgress(h, specs, each, |specs|);
  }

  // ---- an answer in part --------------------------------------------------

  /** Which of the readings inside an answered query were answered; each is asked for
      silently, and unanswered it reads as nothing. hidden are the addresses missing from
      the listing of the cluster's, all of them if that goes unanswered. */
  datatype Parts = Parts(vlan: bool, pin: bool, rdma: bool, address: bool, route: bool, dns: bool, registers: bool,
                         hidden: set<string>)

  function PartVnic(obs: VnicObs, q: Parts): VnicObs {
    obs.(vlan := if q.vlan then obs.vlan else 0, pin := if q.pin then obs.pin else "",
         rdma := q.rdma && obs.rdma, rdmaKnown := q.rdma && obs.rdmaKnown)
  }

  function PartIp(h: Host, name: string, q: Parts): IpObs {
    var obs := ReadIp(h, name, q.hidden);
    IpObs(if q.address then obs.address else "", if q.route then obs.gateway else "", if q.dns then obs.dns else [], q.registers && obs.registers)
  }

  /** A hidden address of the cluster that would be read if it were not the cluster's. */
  predicate Unmasked(site: Site, a: Addr, hidden: set<string>) {
    a.ip in site.clusterIps && a.ip in hidden && a.origin == Manual && !IsApipa(a.ip)
  }

  /** One stands before every address there is to read. */
  predicate Intrudes(site: Site, addrs: seq<Addr>, hidden: set<string>) {
    exists i :: 0 <= i < |addrs| && Unmasked(site, addrs[i], hidden) && forall j :: 0 <= j < i ==> !Readable(site, addrs[j])
  }

  /** What is read first is an intruder, if there is one, and else what is there. */
  lemma {:induction false} ReadsIntruder(site: Site, addrs: seq<Addr>, hidden: set<string>)
    ensures var c, seen := Candidates(site, addrs), Candidates(Hiding(site, hidden), addrs);
            && (Intrudes(site, addrs, hidden) ==> seen != [] && seen[0].ip in site.clusterIps)
            && (!Intrudes(site, addrs, hidden) ==> (seen == [] <==> c == []) && (c != [] ==> seen[0] == c[0]))
            && (c != [] ==> c[0].ip !in site.clusterIps)
  {
    if addrs != [] {
      var rest := addrs[1..];
      ReadsIntruder(site, rest, hidden);
      if Readable(site, addrs[0]) {
        assert !Intrudes(site, addrs, hidden);
      } else if Unmasked(site, addrs[0], hidden) {
        assert Intrudes(site, addrs, hidden);
      } else {
        if Intrudes(site, rest, hidden) {
          var i :| 0 <= i < |rest| && Unmasked(site, rest[i], hidden) && forall j :: 0 <= j < i ==> !Readable(site, rest[j]);
          assert forall j :: 0 < j < i + 1 ==> addrs[j] == rest[j - 1];
          assert Unmasked(site, addrs[i + 1], hidden);
        }
        if Intrudes(site, addrs, hidden) {
          var i :| 0 <= i < |addrs| && Unmasked(site, addrs[i], hidden) && forall j :: 0 <= j < i ==> !Readable(site, addrs[j]);
          assert forall j :: 0 <= j < i - 1 ==> rest[j] == addrs[j + 1];
          assert Unmasked(site, rest[i - 1], hidden);
        }
      }
    }
  }

  predicate IntrudesOn(h: Host, name: string, hidden: set<string>) {
    OfVnic(Lower(name)) in h.nets && Intrudes(h.site, h.nets[OfVnic(Lower(name))].addrs, hidden)
  }

  lemma PartialVnic(h: Host, spec: Spec, q: Parts)
    requires Settled(h, spec)
    ensures var obs := PartVnic(ObserveVnic(h, spec.name), q);
            && PlanVnic(spec, obs) != Create
            && (PlanVnic(spec, obs) == Update <==> (!q.vlan && spec.vlan != 0) || (!q.pin && spec.pin != ""))
            && (RdmaRefused(spec, obs) <==> RdmaRefused(spec, ObserveVnic(h, spec.name)) || (spec.rdma == Some(true) && !q.rdma))
  {
    assert Same("", spec.pin) <==> spec.pin == "" by {
      assert |Lower("")| == 0 && |Lower(spec.pin)| == |spec.pin|;
    }
  }

  lemma PartialIp(h: Host, spec: Spec, q: Parts)
    requires IpSettled(h, spec) && spec.ip.Some?
    ensures var cfg := spec.ip.value;
            IpDiffers(cfg, PartIp(h, spec.name, q)) <==>
              || (if q.address then IntrudesOn(h, spec.name, q.hidden) else cfg.address != "")
              || (!q.route && cfg.gateway != "") || (cfg.dns != [] && (!q.dns || !q.registers))
  {
    var n, cfg := OfVnic(Lower(spec.name)), spec.ip.value;
    var obs, seen := ObserveIp(h, spec.name), ReadIp(h, spec.name, q.hidden);
    if n in h.nets {
      SeenAddress(h.site, h.nets[n], q.hidden);
    }
    assert seen.(address := "") == obs.(address := "");
    assert seen.address == obs.address <==> !IntrudesOn(h, spec.name, q.hidden);
  }

  /** A settled vNIC is never taken for absent, but it is written to after an answer in
      part exactly when what went unanswered was declared, or the listing of the cluster's
      addresses hid one that stands before the declared; and RDMA that went unanswered is
      reported as refused. */
  lemma PartialAnswerWritesExactlyWhen(h: Host, spec: Spec, q: Parts)
    requires Settled(h, spec)
    ensures var obs := PartVnic(ObserveVnic(h, spec.name), q);
            && PlanVnic(spec, obs) != Create
            && (PlanVnic(spec, obs) == Update <==> (!q.vlan && spec.vlan != 0) || (!q.pin && spec.pin != ""))
            && (RdmaRefused(spec, obs) <==> RdmaRefused(spec, ObserveVnic(h, spec.name)) || (spec.rdma == Some(true) && !q.rdma))
    ensures spec.ip.Some? ==>
              var cfg := spec.ip.value;
              IpDiffers(cfg, PartIp(h, spec.name, q)) <==>
                || (if q.address then IntrudesOn(h, spec.name, q.hidden) else cfg.address != "")
                || (!q.route && cfg.gateway != "") || (cfg.dns != [] && (!q.dns || !q.registers))
  {
    PartialVnic(h, spec, q);
    if spec.ip.Some? {
      PartialIp(h, spec, q);
    }
  }

  lemma SeenAddress(site: Site, n: Net, hidden: set<string>)
    ensures ObserveNet(Hiding(site, hidden), n).(address := "") == ObserveNet(site, n).(address := "")
    ensures ObserveNet(Hiding(site, hidden), n).address == ObserveNet(site, n).address <==> !Intrudes(site, n.addrs, hidden)
  {
    ReadsIntruder(site, n.addrs, hidden);
    var c, seen := Candidates(site, n.addrs), Candidates(Hiding(site, hidden), n.addrs);
    if Intrudes(site, n.addrs, hidden) {
      var text := CidrText(seen[0].ip, seen[0].prefix);
      assert |text| > |seen[0].ip|;
      if c != [] && text == CidrText(c[0].ip, c[0].prefix) {
        CidrTextTellsIp(seen[0].ip, seen[0].prefix, c[0].ip, c[0].prefix);
      }
    }
  }

  // ---- what cannot settle -------------------------------------------------

  predicate UpdatesOnly(cmds: seq<Cmd>, k: string, sw: string) {
    forall i :: 0 <= i < |cmds| ==>
      && About(cmds[i], k, None) && !cmds[i].AddVnic?
      && !cmds[i].ClearAddresses? && !cmds[i].ClearRoute? && !cmds[i].NewAddress? && !cmds[i].SetDns? && !cmds[i].SetRegister?
      && (cmds[i].RemoveIfElsewhere? ==> cmds[i].sw == sw)
  }

  /** An update of a vNIC that is on its switch, spelling apart, moves nothing:
      it stays on that switch and no interface changes, wherever the script is cut. */
  lemma {:induction false} StaysOnSwitch(h: Host, cmds: seq<Cmd>, n: nat, k: string, sw: string)
    requires n <= |cmds| && UpdatesOnly(cmds, k, sw)
    requires k in h.vnics && Same(h.vnics[k].sw, sw)
    ensures var (h', moving, ok) := Upto(h, cmds, n);
            && !moving && h'.nets == h.nets && h'.site == h.site && h'.duplicates == h.duplicates
            && k in h'.vnics && h'.vnics[k].sw == h.vnics[k].sw
  {
    if n > 0 {
      StaysOnSwitch(h, cmds, n - 1, k, sw);
    }
  }

  /** A target switch spelled in another case than the host's never settles: the
      plan sees a difference, the script's guard sees none, and the next plan sees
      the same difference again. */
  lemma CaseMismatchNeverSettles(h: Host, spec: Spec, reading: Option<IpObs>, f: Faults)
    requires Lower(spec.name) in h.vnics && Same(h.vnics[Lower(spec.name)].sw, spec.sw) && h.vnics[Lower(spec.name)].sw != spec.sw
    ensures var obs := ObserveVnic(h, spec.name);
            var h' := EnsuredFrom(h, spec, obs, reading, f).0;
            && PlanVnic(spec, obs) == Update
            && Lower(spec.name) in h'.vnics && h'.vnics[Lower(spec.name)].sw == h.vnics[Lower(spec.name)].sw
  {
    var k, obs := Lower(spec.name), ObserveVnic(h, spec.name);
    var cmds := UpdateScript(spec, obs);
    StaysOnSwitch(h, cmds, if f.adapterCut < |cmds| then f.adapterCut else |cmds|, k, spec.sw);
    if spec.ip.Some? && DesiredIp(spec).Some? {
      var h1 := AdapterDone(h, spec, obs, f).0;
      var ips := ApplyIpScript(spec.name, spec.ip.value.parsed.value, spec.ip.value, f.applyHides);
      IpScriptKeepsVnics(h1, ips, if f.ipCut < |ips| then f.ipCut else |ips|);
    }
  }

  lemma {:induction false} IpScriptKeepsVnics(h: Host, cmds: seq<Cmd>, n: nat)
    requires n <= |cmds|
    requires forall i :: 0 <= i < |cmds| ==> cmds[i].FreeAddress? || cmds[i].ClearAddresses? || cmds[i].ClearRoute? || cmds[i].NewAddress? || cmds[i].SetDns? || cmds[i].SetRegister?
    ensures Upto(h, cmds, n).0.vnics == h.vnics && Upto(h, cmds, n).0.duplicates == h.duplicates
  {
    if n > 0 {
      IpScriptKeepsVnics(h, cmds, n - 1);
    }
  }

  // ---- the batch against one at a time ------------------------------------

  /** net.ParseCIDR reads an address the host prints back as that address. */
  predicate ReadsBack(cfg: IpConfig, a: Addr) {
    cfg.parsed.Some? && cfg.address == CidrText(a.ip, a.prefix) ==> cfg.parsed.value.ip == a.ip
  }

  function Shown(h: Host, spec: Spec): seq<Addr> {
    var n := OfVnic(Lower(spec.name));
    if n in h.nets then Candidates(h.site, h.nets[n].addrs) else []
  }

  /** At most one address to read, and one the declaration cannot be confused with. */
  predicate ReadsPlainly(h: Host, spec: Spec) {
    && |Shown(h, spec)| <= 1
    && (spec.ip.Some? ==> spec.ip.value.address != "")
    && (spec.ip.Some? && |Shown(h, spec)| == 1 ==> ReadsBack(spec.ip.value, Shown(h, spec)[0]))
  }

  /** What has become of a vNIC not yet reached: the same vNIC, and an interface that
      differs at most by having lost an address some other spec wanted. */
  predicate Waiting(h: Host, h': Host, spec: Spec) {
    && ObserveVnic(h', spec.name) == ObserveVnic(h, spec.name)
    && (OfVnic(Lower(spec.name)) in h'.nets <==> OfVnic(Lower(spec.name)) in h.nets)
    && ObserveIp(h', spec.name).(address := "") == ObserveIp(h, spec.name).(address := "")
    && (Shown(h', spec) == Shown(h, spec)
        || (Shown(h', spec) == [] && |Shown(h, spec)| == 1 && Some(Shown(h, spec)[0].ip) != DesiredIp(spec)))
  }

  lemma WaitingStep(h: Host, h1: Host, h2: Host, k: string, freed: Option<string>, spec: Spec)
    requires Waiting(h, h1, spec) && |Shown(h, spec)| <= 1 && h1.site == h.site
    requires OnlyTouches(h1, h2, k, freed) && Lower(spec.name) != k && (freed.Some? ==> freed != DesiredIp(spec))
    ensures Waiting(h, h2, spec)
  {
    var n := OfVnic(Lower(spec.name));
    if n in h1.nets && h2.nets[n] != h1.nets[n] {
      FreeingCommutes(h1.site, h1.nets[n].addrs, freed.value);
      var c := Shown(h1, spec);
      if c != [] {
        assert c == [c[0]] + [] && c[1..] == [];
        assert Without(c, freed.value) == if c[0].ip == freed.value then [] else c;
      }
    }
  }

  /** An adapter script that neither creates nor moves leaves every interface alone,
      cut or not, so reading the address before or after it is the same. */
  lemma AdapterKeepsNets(h: Host, spec: Spec, f: Faults)
    requires var obs := ObserveVnic(h, spec.name); obs.exists_ && !MovesSwitch(spec, obs)
    ensures AdapterDone(h, spec, ObserveVnic(h, spec.name), f).0.nets == h.nets
    ensures AdapterDone(h, spec, ObserveVnic(h, spec.name), f).0.site == h.site
  {
    var cmds := UpdateScript(spec, ObserveVnic(h, spec.name));
    StaysOnSwitch(h, cmds, if f.adapterCut < |cmds| then f.adapterCut else |cmds|, Lower(spec.name), spec.sw);
  }

  /** Deciding from the batch's stale address reading is deciding from a fresh one. */
  lemma StaleReadingIsEnough(h: Host, h': Host, spec: Spec, f: Faults)
    requires Waiting(h, h', spec) && ReadsPlainly(h, spec) && h'.site == h.site && f.ip && f.batchHides == f.readHides == {}
    ensures EnsuredFrom(h', spec, ObserveVnic(h, spec.name), Some(ReadIp(h, spec.name, f.batchHides)), f)
         == EnsuredFrom(h', spec, ObserveVnic(h', spec.name), None, f)
  {
    var obs := ObserveVnic(h', spec.name);
    if obs.exists_ && !MovesSwitch(spec, obs) {
      AdapterKeepsNets(h', spec, f);
    }
  }

  predicate AllAnswer(specs: seq<Spec>, each: seq<Faults>)
    requires |specs| <= |each|
  {
    forall i :: 0 <= i < |specs| ==> each[i].vnic == Answered && each[i].ip && each[i].batchHides == each[i].readHides == {}
  }

  predicate AllWaiting(h: Host, h': Host, specs: seq<Spec>, n: nat)
    requires n <= |specs|
  {
    && h'.site == h.site
    && forall i :: n <= i < |specs| ==> Waiting(h, h', specs[i])
  }

  predicate AllReadPlainly(h: Host, specs: seq<Spec>) {
    forall i :: 0 <= i < |specs| ==> ReadsPlainly(h, specs[i])
  }

  lemma RefineTurn(h: Host, h': Host, specs: seq<Spec>, each: seq<Faults>, n: nat)
    requires n < |specs| <= |each|
    requires DistinctNames(specs) && DistinctIps(specs) && AllAnswer(specs, each) && AllReadPlainly(h, specs)
    requires AllWaiting(h, h', specs, n)
    ensures TurnOf(h, h', specs[n], each[n]) == EnsuredOne(h', specs[n], each[n])
    ensures AllWaiting(h, TurnOf(h, h', specs[n], each[n]).0, specs, n + 1)
  {
    var s := specs[n];
    var h2 := TurnOf(h, h', s, each[n]).0;
    StaleReadingIsEnough(h, h', s, each[n]);
    EnsuredTouches(h', s, ObserveVnic(h, s.name), Some(ReadIp(h, s.name, each[n].batchHides)), each[n]);
    forall i | n < i < |specs| ensures Waiting(h, h2, specs[i]) {
      WaitingStep(h, h', h2, Lower(s.name), DesiredIp(s), specs[i]);
    }
  }

  lemma BatchTurn(h: Host, specs: seq<Spec>, each: seq<Faults>, n: nat, now: (Host, seq<Result>))
    requires 0 < n <= |specs| <= |each| && now == FromBatch(h, specs, each, n - 1)
    ensures var (h2, r) := TurnOf(h, now.0, specs[n - 1], each[n - 1]);
            FromBatch(h, specs, each, n) == (h2, now.1 + [r])
  {
  }

  lemma OneByOneTurn(h: Host, specs: seq<Spec>, each: seq<Faults>, n: nat, now: (Host, seq<Result>))
    requires 0 < n <= |specs| <= |each| && now == OneByOne(h, specs, each, n - 1)
    ensures var (h2, r) := EnsuredOne(now.0, specs[n - 1], each[n - 1]);
            OneByOne(h, specs, each, n) == (h2, now.1 + [r])
  {
  }

  /** The batched pass refines the sequential one: deciding every vNIC from one
      observation leaves the same host and the same results as observing each just
      before acting on it - whichever act scripts are cut, and although applying one
      address may take it off another vNIC and make that one's reading stale. */
  lemma {:induction false} BatchRefinesOneByOne(h: Host, specs: seq<Spec>, each: seq<Faults>, n: nat)
    requires n <= |specs| <= |each|
    requires DistinctNames(specs) && DistinctIps(specs) && AllAnswer(specs, each) && AllReadPlainly(h, specs)
    ensures FromBatch(h, specs, each, n) == OneByOne(h, specs, each, n)
    ensures AllWaiting(h, FromBatch(h, specs, each, n).0, specs, n)
  {
    if n == 0 {
      AllWaitAtFirst(h, specs);
    } else {
      BatchRefinesOneByOne(h, specs, each, n - 1);
      RefineNext(h, specs, each, n, FromBatch(h, specs, each, n - 1));
    }
  }

  lemma AllWaitAtFirst(h: Host, specs: seq<Spec>)
    ensures AllWaiting(h, h, specs, 0)
  {
  }

  lemma RefineNext(h: Host, specs: seq<Spec>, each: seq<Faults>, n: nat, now: (Host, seq<Result>))
    requires 0 < n <= |specs| <= |each|
    requires DistinctNames(specs) && DistinctIps(specs) && AllAnswer(specs, each) && AllReadPlainly(h, specs)
    requires now == FromBatch(h, specs, each, n - 1) == OneByOne(h, specs, each, n - 1) && AllWaiting(h, now.0, specs, n - 1)
    ensures FromBatch(h, specs, each, n) == OneByOne(h, specs, each, n)
    ensures AllWaiting(h, FromBatch(h, specs, each, n).0, specs, n)
  {
    RefineTurn(h, now.0, specs, each, n - 1);
    BatchTurn(h, specs, each, n, now);
    OneByOneTurn(h, specs, each, n, now);
  }

  // ---- unknown is never absent --------------------------------------------

  predicate AddsOnlyFirst(cmds: seq<Cmd>, k: string) {
    forall i :: 0 <= i < |cmds| ==>
      (cmds[i].FreeAddress? || Owner(cmds[i]) == k) && (i > 0 ==> !cmds[i].AddVnic?)
  }

  /** A script that adds only where nothing of the name is left never doubles it. */
  lemma {:induction false} NothingDoubled(h: Host, cmds: seq<Cmd>, n: nat, k: string)
    requires n <= |cmds| && AddsOnlyFirst(cmds, k)
    requires cmds != [] && cmds[0].AddVnic? ==> k !in h.vnics
    ensures Upto(h, cmds, n).0.duplicates == h.duplicates
    ensures Upto(h, cmds, n).2 && Upto(h, cmds, n).1 ==> k !in Upto(h, cmds, n).0.vnics
  {
    if n > 0 {
      NothingDoubled(h, cmds, n - 1, k);
    }
  }

  lemma AdapterDoublesNothing(h: Host, spec: Spec, obs: VnicObs, f: Faults)
    requires obs.exists_ <==> Lower(spec.name) in h.vnics
    ensures AdapterDone(h, spec, obs, f).0.duplicates == h.duplicates
  {
    var k := Lower(spec.name);
    if obs.exists_ {
      var cmds := UpdateScript(spec, obs);
      assert AddsOnlyFirst(cmds, k) && !cmds[0].AddVnic?;
      NothingDoubled(h, cmds, if f.adapterCut < |cmds| then f.adapterCut else |cmds|, k);
    } else {
      var cmds := CreateScript(spec);
      assert AddsOnlyFirst(cmds, k);
      NothingDoubled(h, cmds, if f.adapterCut < |cmds| then f.adapterCut else |cmds|, k);
    }
  }

  lemma IpKeepsVnics(h: Host, name: string, cfg: IpConfig, reading: Option<IpObs>, f: Faults)
    ensures ReconciledIp(h, name, cfg, reading, f).0.vnics == h.vnics
    ensures ReconciledIp(h, name, cfg, reading, f).0.duplicates == h.duplicates
  {
    if cfg.parsed.Some? {
      var ips := ApplyIpScript(name, cfg.parsed.value, cfg, f.applyHides);
      IpScriptKeepsVnics(h, ips, if f.ipCut < |ips| then f.ipCut else |ips|);
    }
  }

  /** The host after the adapter half goes through the IPv4 half, or is the result. */
  lemma EnsuredSplits(h: Host, spec: Spec, obs: VnicObs, observedIp: Option<IpObs>, f: Faults)
    requires obs.known
    ensures var (h1, adapter, ok) := AdapterDone(h, spec, obs, f);
            EnsuredFrom(h, spec, obs, observedIp, f).0 ==
              if !ok || spec.ip.None? then h1
              else ReconciledIp(h1, spec.name, spec.ip.value, if adapter == Created || MovesSwitch(spec, obs) then None else observedIp, f).0
  {
  }

  /** Acting on what was truly observed creates nothing that is there, and acting on
      no observation does nothing at all. */
  lemma ActsOnWhatItSaw(h: Host, spec: Spec, obs: VnicObs, reading: Option<IpObs>, f: Faults)
    requires obs.known ==> (obs.exists_ <==> Lower(spec.name) in h.vnics)
    ensures EnsuredFrom(h, spec, obs, reading, f).0.duplicates == h.duplicates
    ensures !obs.known ==> EnsuredFrom(h, spec, obs, reading, f) == (h, Result(Unchanged, Unavailable, 0))
  {
    if obs.known {
      AdapterDoublesNothing(h, spec, obs, f);
      EnsuredSplits(h, spec, obs, reading, f);
      if spec.ip.Some? {
        var (h1, adapter, _) := AdapterDone(h, spec, obs, f);
        IpKeepsVnics(h1, spec.name, spec.ip.value, if adapter == Created || MovesSwitch(spec, obs) then None else reading, f);
      }
    }
  }

  /** One pass of a run: how the batch query was met, what each vNIC met, and how
      many specs were reached before the agent was stopped. */
  datatype PassRun = PassRun(specs: seq<Spec>, batch: Answer, each: seq<Faults>, reached: nat)

  predicate PassOk(p: PassRun) {
    |p.specs| <= |p.each| && p.reached <= |p.specs| && DistinctNames(p.specs)
  }

  function AfterPass(h: Host, p: PassRun): Host
    requires PassOk(p)
  {
    match p.batch
    case Answered => FromBatch(h, p.specs, p.each, p.reached).0
    case Down => h
    case Broken => OneByOne(h, p.specs, p.each, p.reached).0
  }

  function AfterRun(h: Host, run: seq<PassRun>): Host
    requires forall i :: 0 <= i < |run| ==> PassOk(run[i])
  {
    if run == [] then h else AfterPass(AfterRun(h, run[..|run| - 1]), run[|run| - 1])
  }

  /** The vNICs still to come are there or not exactly as the batch saw. */
  ghost predicate SamePresence(h: Host, h': Host, specs: seq<Spec>, n: nat)
    requires n <= |specs|
  {
    forall i :: n <= i < |specs| ==> (Lower(specs[i].name) in h'.vnics <==> Lower(specs[i].name) in h.vnics)
  }

  lemma PresenceTurn(h: Host, h': Host, specs: seq<Spec>, n: nat, f: Faults)
    requires n < |specs| && DistinctNames(specs) && SamePresence(h, h', specs, n)
    ensures SamePresence(h, TurnOf(h, h', specs[n], f).0, specs, n + 1)
    ensures TurnOf(h, h', specs[n], f).0.duplicates == h'.duplicates
  {
    var s := specs[n];
    EnsuredTouches(h', s, ObserveVnic(h, s.name), Some(ReadIp(h, s.name, f.batchHides)), f);
    ActsOnWhatItSaw(h', s, ObserveVnic(h, s.name), Some(ReadIp(h, s.name, f.batchHides)), f);
  }

  lemma {:induction false} BatchDoublesNothing(h: Host, specs: seq<Spec>, each: seq<Faults>, n: nat)
    requires n <= |specs| <= |each| && DistinctNames(specs)
    ensures SamePresence(h, FromBatch(h, specs, each, n).0, specs, n)
    ensures FromBatch(h, specs, each, n).0.duplicates == h.duplicates
  {
    if n > 0 {
      BatchDoublesNothing(h, specs, each, n - 1);
      PresenceTurn(h, FromBatch(h, specs, each, n - 1).0, specs, n - 1, each[n - 1]);
    }
  }

  lemma {:induction false} OneByOneDoublesNothing(h: Host, specs: seq<Spec>, each: seq<Faults>, n: nat)
    requires n <= |specs| <= |each|
    ensures OneByOne(h, specs, each, n).0.duplicates == h.duplicates
  {
    if n > 0 {
      OneByOneDoublesNothing(h, specs, each, n - 1);
      var h1 := OneByOne(h, specs, each, n - 1).0;
      var s, f := specs[n - 1], each[n - 1];
      ActsOnWhatItSaw(h1, s, if f.vnic == Down then NOT_OBSERVED else ObserveVnic(h1, s.name), None, f);
    }
  }

  /** In every run - Hyper-V answering, down or failing at any query, scripts cut
      anywhere, the agent stopped anywhere - no vNIC that exists is ever created a
      second time. */
  lemma {:induction false} UnknownIsNeverAbsent(h: Host, run: seq<PassRun>)
    requires forall i :: 0 <= i < |run| ==> PassOk(run[i])
    ensures AfterRun(h, run).duplicates == h.duplicates
  {
    if run != [] {
      var p := run[|run| - 1];
      var h1 := AfterRun(h, run[..|run| - 1]);
      UnknownIsNeverAbsent(h, run[..|run| - 1]);
      BatchDoublesNothing(h1, p.specs, p.each, p.reached);
      OneByOneDoublesNothing(h1, p.specs, p.each, p.reached);
    }
  }

  /** An unanswered batch writes nothing and reports every vNIC unobserved. */
  lemma UnansweredWritesNothing(h: Host, specs: seq<Spec>, each: seq<Faults>)
    requires |specs| <= |each|
    ensures Ensured(h, specs, Down, each).0 == h
    ensures forall i :: 0 <= i < |specs| ==> Ensured(h, specs, Down, each).1[i] == Result(Unchanged, Unavailable, 0)
    ensures forall spec: Spec, f: Faults {:trigger EnsuredOne(h, spec, f)} :: f.vnic != Answered ==>
              EnsuredOne(h, spec, f) == (h, Result(Unchanged, if f.vnic == Down then Unavailable else QueryFailed, 0))
  {
  }

  /** Distinct names are what it takes: two specs whose names differ in case alone,
      for a vNIC the host lacks, are both created from one batch - and only one of
      them when each is observed in turn. */
  lemma CollidingNamesDouble(h: Host, a: Spec, b: Spec, f: Faults)
    requires FaultFree(f) && Same(a.name, b.name) && Lower(a.name) !in h.vnics
    requires SpecOk(h.site, a) && SpecOk(h.site, b) && a.ip.None? && b.ip.None?
    ensures Lower(a.name) in FromBatch(h, [a, b], [f, f], 2).0.duplicates
    ensures OneByOne(h, [a, b], [f, f], 2).0.duplicates == h.duplicates
  {
    var specs, each := [a, b], [f, f];
    var h1 := FromBatch(h, specs, each, 1).0;
    assert FromBatch(h, specs, each, 0) == (h, []);
    CreateRuns(h, a, f.adapterCut);
    assert Lower(a.name) in h1.vnics;
    AdapterTouches(h, a, ObserveVnic(h, a.name), f);
    var cmds := CreateScript(b);
    assert Upto(h1, cmds, 0) == (h1, false, true);
    assert Lower(b.name) in Upto(h1, cmds, 1).0.duplicates;
    DuplicatesStay(h1, cmds, 1, |cmds|);
    OneByOneDoublesNothing(h, specs, each, 2);
  }

  lemma {:induction false} DuplicatesStay(h: Host, cmds: seq<Cmd>, m: nat, n: nat)
    requires m <= n <= |cmds|
    ensures Upto(h, cmds, m).0.duplicates <= Upto(h, cmds, n).0.duplicates
  {
    if m < n {
      DuplicatesStay(h, cmds, m, n - 1);
    }
  }

  // ---- faults stay where they happen --------------------------------------

  /** Two interfaces that agree on whether they can be read to hold address p. */
  ghost predicate Agree(site: Site, a: Net, b: Net, p: Option<string>) {
    p.Some? ==> forall x: Addr :: x.ip == p.value && Readable(site, x) ==> (x in a.addrs <==> x in b.addrs)
  }

  /** Two hosts alike as far as vNIC k is concerned, its addresses other than p aside. */
  ghost predicate Alike(h: Host, h': Host, k: string, p: Option<string>) {
    && h'.site == h.site
    && (k in h'.vnics <==> k in h.vnics) && (k in h.vnics ==> h'.vnics[k] == h.vnics[k])
    && (OfVnic(k) in h'.nets <==> OfVnic(k) in h.nets)
    && (OfVnic(k) in h.nets ==> h'.nets[OfVnic(k)].(addrs := []) == h.nets[OfVnic(k)].(addrs := []) && Agree(h.site, h.nets[OfVnic(k)], h'.nets[OfVnic(k)], p))
  }

  lemma {:induction false} WithoutHolds(addrs: seq<Addr>, ip: string, x: Addr)
    ensures x in Without(addrs, ip) <==> x in addrs && x.ip != ip
  {
    if addrs != [] {
      WithoutHolds(addrs[1..], ip, x);
    }
  }

  lemma {:induction false} NotOwnedHolds(site: Site, addrs: seq<Addr>, x: Addr)
    ensures x in NotOwned(site, addrs) <==> x in addrs && !Owned(site, x)
  {
    if addrs != [] {
      NotOwnedHolds(site, addrs[1..], x);
    }
  }

  lemma FreedAgree(site: Site, a: Net, b: Net, ip: string, p: Option<string>)
    requires Agree(site, a, b, p)
    ensures Agree(site, a.(addrs := Without(a.addrs, ip)), b.(addrs := Without(b.addrs, ip)), p)
    ensures p != Some(ip) ==> Agree(site, a, a.(addrs := Without(a.addrs, ip)), p)
  {
    forall x ensures x in Without(a.addrs, ip) <==> x in a.addrs && x.ip != ip {
      WithoutHolds(a.addrs, ip, x);
    }
    forall x ensures x in Without(b.addrs, ip) <==> x in b.addrs && x.ip != ip {
      WithoutHolds(b.addrs, ip, x);
    }
  }

  lemma ClearedAgree(site: Site, hidden: set<string>, a: Net, b: Net, p: Option<string>)
    ensures var shown := Hiding(site, hidden);
            Agree(site, a.(addrs := NotOwned(shown, a.addrs)), b.(addrs := NotOwned(shown, b.addrs)), p)
  {
    var shown := Hiding(site, hidden);
    forall x ensures x in NotOwned(shown, a.addrs) <==> x in a.addrs && !Owned(shown, x) {
      NotOwnedHolds(shown, a.addrs, x);
    }
    forall x ensures x in NotOwned(shown, b.addrs) <==> x in b.addrs && !Owned(shown, x) {
      NotOwnedHolds(shown, b.addrs, x);
    }
  }

  lemma {:induction false} AlikeScripts(h: Host, h': Host, cmds: seq<Cmd>, n: nat, k: string, ip: Option<string>, p: Option<string>)
    requires n <= |cmds| && AllAbout(cmds, k, ip) && Alike(h, h', k, p)
    ensures Alike(Upto(h, cmds, n).0, Upto(h', cmds, n).0, k, p)
    ensures Upto(h, cmds, n).1 == Upto(h', cmds, n).1 && Upto(h, cmds, n).2 == Upto(h', cmds, n).2
  {
    if n > 0 {
      AlikeScripts(h, h', cmds, n - 1, k, ip, p);
      var (h1, m1, ok) := Upto(h, cmds, n - 1);
      if ok {
        AlikeStep(h1, Upto(h', cmds, n - 1).0, m1, cmds[n - 1], k, ip, p);
      }
    }
  }

  lemma AlikeNet(h: Host, h': Host, moving: bool, c: Cmd, k: string, p: Option<string>)
    requires c.FreeAddress? || c.ClearAddresses? || c.ClearRoute? || c.NewAddress? || c.SetDns? || c.SetRegister?
    requires (c.FreeAddress? || Owner(c) == k) && Alike(h, h', k, p)
    ensures Alike(Step(h, moving, c).0, Step(h', moving, c).0, k, p)
    ensures Step(h, moving, c).1 == Step(h', moving, c).1 && Step(h, moving, c).2 == Step(h', moving, c).2
  {
    var n := OfVnic(k);
    if n in h.nets {
      if c.FreeAddress? {
        FreedAgree(h.site, h.nets[n], h'.nets[n], c.ip, p);
      } else if c.ClearAddresses? {
        ClearedAgree(h.site, c.hidden, h.nets[n], h'.nets[n], p);
      }
    }
  }

  lemma AlikeVnic(h: Host, h': Host, moving: bool, c: Cmd, k: string, p: Option<string>)
    requires c.AddVnic? || c.RemoveIfElsewhere? || c.AddIfRemoved? || c.SetVlan? || c.ClearPin? || c.SetPin? || c.SetRdma?
    requires Owner(c) == k && Alike(h, h', k, p)
    ensures Alike(Step(h, moving, c).0, Step(h', moving, c).0, k, p)
    ensures Step(h, moving, c).1 == Step(h', moving, c).1 && Step(h, moving, c).2 == Step(h', moving, c).2
  {
  }

  lemma AlikeStep(h: Host, h': Host, moving: bool, c: Cmd, k: string, ip: Option<string>, p: Option<string>)
    requires About(c, k, ip) && Alike(h, h', k, p)
    ensures Alike(Step(h, moving, c).0, Step(h', moving, c).0, k, p)
    ensures Step(h, moving, c).1 == Step(h', moving, c).1 && Step(h, moving, c).2 == Step(h', moving, c).2
  {
    if c.FreeAddress? || c.ClearAddresses? || c.ClearRoute? || c.NewAddress? || c.SetDns? || c.SetRegister? {
      AlikeNet(h, h', moving, c, k, p);
    } else {
      AlikeVnic(h, h', moving, c, k, p);
    }
  }

  /** A vNIC just created or moved has the interface Windows gives a new one. */
  lemma FreshInterface(h: Host, spec: Spec, f: Faults)
    requires var obs := ObserveVnic(h, spec.name);
             (!obs.exists_ || MovesSwitch(spec, obs)) && AdapterDone(h, spec, obs, f).2
    requires Valid(h) && FindSame(h.site.switches, spec.sw) == Some(spec.sw)
    ensures var h1 := AdapterDone(h, spec, ObserveVnic(h, spec.name), f).0;
            OfVnic(Lower(spec.name)) in h1.nets && h1.nets[OfVnic(Lower(spec.name))] == h.site.newNet
  {
    var obs, k := ObserveVnic(h, spec.name), Lower(spec.name);
    if !obs.exists_ {
      var cmds := CreateScript(spec);
      assert Upto(h, cmds, 0) == (h, false, true);
      assert Upto(h, cmds, 1).2 && Upto(h, cmds, 1).0.nets == h.nets[OfVnic(k) := h.site.newNet];
      VnicCommandsKeepNets(h, cmds, 1, |cmds|);
    } else {
      var cmds := UpdateScript(spec, obs);
      if Same(h.vnics[k].sw, spec.sw) {
        FindStops(h.site.switches, h.vnics[k].sw, spec.sw);
        assert false;
      }
      assert Upto(h, cmds, 0) == (h, false, true);
      assert Upto(h, cmds, 1).1 && Upto(h, cmds, 1).2;
      assert Upto(h, cmds, 2).2 && Upto(h, cmds, 2).0.nets == (h.nets - {OfVnic(k)})[OfVnic(k) := h.site.newNet];
      VnicCommandsKeepNets(h, cmds, 2, |cmds|);
    }
  }

  lemma {:induction false} VnicCommandsKeepNets(h: Host, cmds: seq<Cmd>, m: nat, n: nat)
    requires m <= n <= |cmds|
    requires forall i :: m <= i < |cmds| ==> cmds[i].SetVlan? || cmds[i].ClearPin? || cmds[i].SetPin? || cmds[i].SetRdma?
    ensures Upto(h, cmds, n).0.nets == Upto(h, cmds, m).0.nets
  {
    if m < n {
      VnicCommandsKeepNets(h, cmds, m, n - 1);
    }
  }

  lemma AlikeAdapter(h: Host, h': Host, spec: Spec, obs: VnicObs, f: Faults, p: Option<string>)
    requires Alike(h, h', Lower(spec.name), p)
    ensures Alike(AdapterDone(h, spec, obs, f).0, AdapterDone(h', spec, obs, f).0, Lower(spec.name), p)
    ensures AdapterDone(h, spec, obs, f).1 == AdapterDone(h', spec, obs, f).1
    ensures AdapterDone(h, spec, obs, f).2 == AdapterDone(h', spec, obs, f).2
  {
    var k := Lower(spec.name);
    var create, update := CreateScript(spec), UpdateScript(spec, obs);
    assert AllAbout(create, k, None) && AllAbout(update, k, None);
    AlikeScripts(h, h', create, if f.adapterCut < |create| then f.adapterCut else |create|, k, None, p);
    AlikeScripts(h, h', update, if f.adapterCut < |update| then f.adapterCut else |update|, k, None, p);
  }

  lemma AlikeIp(h: Host, h': Host, spec: Spec, reading: Option<IpObs>, f: Faults, p: Option<string>)
    requires spec.ip.Some? && Alike(h, h', Lower(spec.name), p)
    requires reading.None? ==> ReadIp(h, spec.name, f.readHides) == ReadIp(h', spec.name, f.readHides)
    ensures Alike(ReconciledIp(h, spec.name, spec.ip.value, reading, f).0, ReconciledIp(h', spec.name, spec.ip.value, reading, f).0, Lower(spec.name), p)
    ensures ReconciledIp(h, spec.name, spec.ip.value, reading, f).1 == ReconciledIp(h', spec.name, spec.ip.value, reading, f).1
  {
    if DesiredIp(spec).Some? {
      var ips := ApplyIpScript(spec.name, spec.ip.value.parsed.value, spec.ip.value, f.applyHides);
      AlikeScripts(h, h', ips, if f.ipCut < |ips| then f.ipCut else |ips|, Lower(spec.name), DesiredIp(spec), p);
    }
  }

  lemma SameFreshReading(h: Host, h': Host, spec: Spec, f: Faults, p: Option<string>)
    requires Alike(h, h', Lower(spec.name), p) && Valid(h) && Valid(h')
    requires FindSame(h.site.switches, spec.sw) == Some(spec.sw)
    requires var obs := ObserveVnic(h, spec.name);
             (!obs.exists_ || MovesSwitch(spec, obs)) && AdapterDone(h, spec, obs, f).2
    ensures var obs := ObserveVnic(h, spec.name);
            ReadIp(AdapterDone(h, spec, obs, f).0, spec.name, f.readHides) == ReadIp(AdapterDone(h', spec, obs, f).0, spec.name, f.readHides)
  {
    AlikeAdapter(h, h', spec, ObserveVnic(h, spec.name), f, p);
    FreshInterface(h, spec, f);
    FreshInterface(h', spec, f);
  }

  /** Reconciling the same spec from the same readings on two hosts alike in it gives
      the same result, and the hosts stay alike in it. */
  lemma AlikeEnsured(h: Host, h': Host, spec: Spec, reading: IpObs, f: Faults, p: Option<string>)
    requires Alike(h, h', Lower(spec.name), p) && Valid(h) && Valid(h')
    requires FindSame(h.site.switches, spec.sw) == Some(spec.sw)
    ensures var obs := ObserveVnic(h, spec.name);
            && EnsuredFrom(h, spec, obs, Some(reading), f).1 == EnsuredFrom(h', spec, obs, Some(reading), f).1
            && Alike(EnsuredFrom(h, spec, obs, Some(reading), f).0, EnsuredFrom(h', spec, obs, Some(reading), f).0, Lower(spec.name), p)
  {
    var obs := ObserveVnic(h, spec.name);
    AlikeAdapter(h, h', spec, obs, f, p);
    var (h1, adapter, ok) := AdapterDone(h, spec, obs, f);
    var h1' := AdapterDone(h', spec, obs, f).0;
    if ok && spec.ip.Some? {
      if adapter == Created || MovesSwitch(spec, obs) {
        SameFreshReading(h, h', spec, f, p);
        AlikeIp(h1, h1', spec, None, f, p);
      } else {
        AlikeIp(h1, h1', spec, Some(reading), f, p);
      }
    }
  }

  predicate AllFound(site: Site, specs: seq<Spec>) {
    forall i :: 0 <= i < |specs| ==> FindSame(site.switches, specs[i].sw) == Some(specs[i].sw)
  }

  lemma TouchedElsewhereIsAlike(h: Host, h': Host, k: string, ip: Option<string>, j: string, p: Option<string>)
    requires OnlyTouches(h, h', k, ip) && j != k && (p.Some? ==> ip != p)
    ensures Alike(h, h', j, p)
  {
    var n := OfVnic(j);
    if n in h.nets && h'.nets[n] != h.nets[n] {
      FreedAgree(h.site, h.nets[n], h.nets[n], ip.value, p);
    }
  }

  lemma AlikeOn(a: Host, b: Host, c: Host, k: string, p: Option<string>)
    requires Alike(a, b, k, p) && Alike(b, c, k, p)
    ensures Alike(a, c, k, p) && Alike(b, a, k, p)
  {
  }

  /** Two passes after n specs, seen from vNIC j. */
  ghost predicate LocalSoFar(h: Host, a: (Host, seq<Result>), b: (Host, seq<Result>), k: string, p: Option<string>,
      j: nat, n: nat) {
    && Valid(a.0) && Valid(b.0) && |a.1| == |b.1| == n
    && a.0.site == h.site
    && Alike(a.0, b.0, k, p)
    && (n <= j ==> Alike(h, a.0, k, p))
    && (j < n ==> a.1[j] == b.1[j])
  }

  lemma OwnTurn(h: Host, a: Host, b: Host, spec: Spec, f: Faults, p: Option<string>)
    requires Valid(a) && Valid(b) && Alike(a, b, Lower(spec.name), p) && Alike(h, a, Lower(spec.name), p)
    requires FindSame(h.site.switches, spec.sw) == Some(spec.sw)
    ensures TurnOf(h, a, spec, f).1 == TurnOf(h, b, spec, f).1
    ensures Alike(TurnOf(h, a, spec, f).0, TurnOf(h, b, spec, f).0, Lower(spec.name), p)
  {
    assert ObserveVnic(a, spec.name) == ObserveVnic(h, spec.name);
    AlikeEnsured(a, b, spec, ReadIp(h, spec.name, f.batchHides), f, p);
  }

  lemma OtherTurn(h: Host, a: Host, b: Host, spec: Spec, f: Faults, f': Faults, k: string, p: Option<string>)
    requires Alike(a, b, k, p) && Lower(spec.name) != k && (p.Some? ==> DesiredIp(spec) != p)
    ensures Alike(TurnOf(h, a, spec, f).0, TurnOf(h, b, spec, f').0, k, p)
    ensures Alike(h, a, k, p) ==> Alike(h, TurnOf(h, a, spec, f).0, k, p)
  {
    EnsuredTouches(a, spec, ObserveVnic(h, spec.name), Some(ReadIp(h, spec.name, f.batchHides)), f);
    EnsuredTouches(b, spec, ObserveVnic(h, spec.name), Some(ReadIp(h, spec.name, f'.batchHides)), f');
    var a2, b2 := TurnOf(h, a, spec, f).0, TurnOf(h, b, spec, f').0;
    TouchedElsewhereIsAlike(a, a2, Lower(spec.name), DesiredIp(spec), k, p);
    TouchedElsewhereIsAlike(b, b2, Lower(spec.name), DesiredIp(spec), k, p);
    AlikeOn(a, b, b2, k, p);
    AlikeOn(a, a2, a2, k, p);
    AlikeOn(a2, a, b2, k, p);
    if Alike(h, a, k, p) {
      AlikeOn(h, a, a2, k, p);
    }
  }

  /** What is asked of address p, if it is to be followed: it is vNIC j's own, and no other
      spec declares it. */
  predicate Followed(specs: seq<Spec>, j: nat, p: Option<string>)
    requires j < |specs|
  {
    p.Some? ==> p == DesiredIp(specs[j]) && forall i :: 0 <= i < |specs| && i != j ==> DesiredIp(specs[i]) != p
  }

  lemma LocalTurn(h: Host, a: (Host, seq<Result>), b: (Host, seq<Result>), specs: seq<Spec>, f: Faults, f': Faults,
      p: Option<string>, j: nat, n: nat)
    requires n < |specs| && j < |specs| && DistinctNames(specs) && AllFound(h.site, specs) && Followed(specs, j, p)
    requires LocalSoFar(h, a, b, Lower(specs[j].name), p, j, n) && (n == j ==> f == f')
    ensures var (a2, ra) := TurnOf(h, a.0, specs[n], f);
            var (b2, rb) := TurnOf(h, b.0, specs[n], f');
            LocalSoFar(h, (a2, a.1 + [ra]), (b2, b.1 + [rb]), Lower(specs[j].name), p, j, n + 1)
  {
    var s := specs[n];
    TurnValid(h, a.0, s, f);
    TurnValid(h, b.0, s, f');
    if n == j {
      OwnTurn(h, a.0, b.0, s, f, p);
    } else {
      OtherTurn(h, a.0, b.0, s, f, f', Lower(specs[j].name), p);
    }
  }

  lemma TurnValid(h: Host, a: Host, spec: Spec, f: Faults)
    requires Valid(a)
    ensures Valid(TurnOf(h, a, spec, f).0) && TurnOf(h, a, spec, f).0.site == a.site
  {
    EnsuredTouches(a, spec, ObserveVnic(h, spec.name), Some(ReadIp(h, spec.name, f.batchHides)), f);
  }

  /** Faults stay where they happen: in two passes that differ only in the faults
      other vNICs meet - answers, cuts, errors - vNIC j gets the same result and is
      left alike, addresses other than its own declared one aside. */
  lemma {:induction false} FaultsStayLocal(h: Host, specs: seq<Spec>, each: seq<Faults>, each': seq<Faults>,
      p: Option<string>, j: nat, n: nat)
    requires n <= |specs| <= |each| && |specs| <= |each'| && j < |specs| && each[j] == each'[j]
    requires DistinctNames(specs) && Valid(h) && AllFound(h.site, specs) && Followed(specs, j, p)
    ensures LocalSoFar(h, FromBatch(h, specs, each, n), FromBatch(h, specs, each', n), Lower(specs[j].name), p, j, n)
  {
    if n > 0 {
      FaultsStayLocal(h, specs, each, each', p, j, n - 1);
      LocalTurn(h, FromBatch(h, specs, each, n - 1), FromBatch(h, specs, each', n - 1), specs, each[n - 1], each'[n - 1], p, j, n - 1);
    }
  }

  /** At most one address can be read. */
  predicate LoneNet(site: Site, n: Net) {
    |Candidates(site, n.addrs)| <= 1
  }

  predicate Lone(h: Host, k: string) {
    OfVnic(k) in h.nets ==> LoneNet(h.site, h.nets[OfVnic(k)])
  }

  lemma {:induction false} CandidatesHold(site: Site, addrs: seq<Addr>, x: Addr)
    ensures x in Candidates(site, addrs) <==> x in addrs && Readable(site, x)
  {
    if addrs != [] {
      CandidatesHold(site, addrs[1..], x);
    }
  }

  lemma {:induction false} WithoutShorter(addrs: seq<Addr>, ip: string)
    ensures |Without(addrs, ip)| <= |addrs|
  {
    if addrs != [] {
      WithoutShorter(addrs[1..], ip);
    }
  }

  lemma FreedLone(site: Site, n: Net, ip: string)
    requires LoneNet(site, n)
    ensures LoneNet(site, n.(addrs := Without(n.addrs, ip)))
  {
    FreeingCommutes(site, n.addrs, ip);
    WithoutShorter(Candidates(site, n.addrs), ip);
  }

  lemma LoneStep(h: Host, moving: bool, c: Cmd, k: string)
    requires Lone(h, k) && LoneNet(h.site, h.site.newNet) && !c.NewAddress?
    ensures Lone(Step(h, moving, c).0, k)
  {
    var n := OfVnic(k);
    if n in h.nets {
      if c.FreeAddress? {
        FreedLone(h.site, h.nets[n], c.ip);
      }
      NothingOwnedIsReadable(h.site, if c.ClearAddresses? then c.hidden else {}, h.nets[n].addrs);
    }
  }

  lemma LoneNext(h: Host, cmds: seq<Cmd>, n: nat, now: (Host, bool, bool), k: string)
    requires 0 < n <= |cmds| && now == Upto(h, cmds, n - 1) && Lone(now.0, k) && LoneNet(now.0.site, now.0.site.newNet) && !cmds[n - 1].NewAddress?
    ensures Lone(Upto(h, cmds, n).0, k) && Upto(h, cmds, n).0.site == now.0.site
  {
    if now.2 {
      LoneStep(now.0, now.1, cmds[n - 1], k);
    }
  }

  lemma {:induction false} LoneUpto(h: Host, cmds: seq<Cmd>, n: nat, k: string)
    requires n <= |cmds| && Lone(h, k) && LoneNet(h.site, h.site.newNet) && forall i :: 0 <= i < n ==> !cmds[i].NewAddress?
    ensures Lone(Upto(h, cmds, n).0, k) && Upto(h, cmds, n).0.site == h.site
  {
    if n > 0 {
      LoneUpto(h, cmds, n - 1, k);
      LoneNext(h, cmds, n, Upto(h, cmds, n - 1), k);
    }
  }

  /** Wherever the address script is cut: it clears what can be read before it adds. */
  lemma LoneIpScript(h: Host, name: string, c: Cidr, cfg: IpConfig, hidden: set<string>, n: nat)
    requires n <= 6 && Lone(h, Lower(name)) && LoneNet(h.site, h.site.newNet)
    ensures Lone(Upto(h, ApplyIpScript(name, c, cfg, hidden), n).0, Lower(name))
  {
    var cmds, k := ApplyIpScript(name, c, cfg, hidden), Lower(name);
    LoneUpto(h, cmds, if n < 3 then n else 3, k);
    if n > 3 {
      ClearedBeforeAdding(h, name, c, cfg, hidden);
      LoneAdding(Upto(h, cmds, 3), name, c, cfg, k);
      LoneAfterAdding(h, cmds, n, k);
    }
  }

  /** With nothing left to read, the one address added is all there is. */
  lemma LoneAdding(now: (Host, bool, bool), name: string, c: Cidr, cfg: IpConfig, k: string)
    requires k == Lower(name) && (OfVnic(k) in now.0.nets ==> Candidates(now.0.site, now.0.nets[OfVnic(k)].addrs) == [])
    ensures var h' := Step(now.0, now.1, NewAddress(name, c.ip, c.prefix, cfg.gateway)).0; Lone(h', k) && h'.site == now.0.site
  {
    if OfVnic(k) in now.0.nets {
      CandidatesAppend(now.0.site, now.0.nets[OfVnic(k)].addrs, [Addr(c.ip, c.prefix, Manual)]);
    }
  }

  /** The commands behind it touch no address. */
  lemma {:induction false} LoneAfterAdding(h: Host, cmds: seq<Cmd>, n: nat, k: string)
    requires 3 < n <= |cmds| && forall i :: 4 <= i < |cmds| ==> cmds[i].SetDns? || cmds[i].SetRegister?
    requires var (h3, m3, ok3) := Upto(h, cmds, 3);
             Lone(h3, k) && LoneNet(h3.site, h3.site.newNet) && Lone(Step(h3, m3, cmds[3]).0, k) && Step(h3, m3, cmds[3]).0.site == h3.site
    ensures Lone(Upto(h, cmds, n).0, k) && LoneNet(Upto(h, cmds, n).0.site, Upto(h, cmds, n).0.site.newNet)
  {
    if n > 4 {
      LoneAfterAdding(h, cmds, n - 1, k);
      LoneNext(h, cmds, n, Upto(h, cmds, n - 1), k);
    }
  }

  lemma ClearedBeforeAdding(h: Host, name: string, c: Cidr, cfg: IpConfig, hidden: set<string>)
    ensures var h3 := Upto(h, ApplyIpScript(name, c, cfg, hidden), 3).0;
            h3.site == h.site && (OfVnic(Lower(name)) in h3.nets ==> Candidates(h3.site, h3.nets[OfVnic(Lower(name))].addrs) == [])
  {
    var cmds, n := ApplyIpScript(name, c, cfg, hidden), OfVnic(Lower(name));
    assert Upto(h, cmds, 0) == (h, false, true);
    var h1 := Upto(h, cmds, 1).0;
    var h2 := Upto(h, cmds, 2).0;
    if n in h1.nets {
      NothingOwnedIsReadable(h1.site, hidden, h1.nets[n].addrs);
      assert h2.nets[n].addrs == NotOwned(Hiding(h1.site, hidden), h1.nets[n].addrs);
    }
  }

  lemma LoneAdapter(h: Host, spec: Spec, obs: VnicObs, f: Faults)
    requires Lone(h, Lower(spec.name)) && LoneNet(h.site, h.site.newNet)
    ensures Lone(AdapterDone(h, spec, obs, f).0, Lower(spec.name)) && AdapterDone(h, spec, obs, f).0.site == h.site
  {
    var create, update := CreateScript(spec), UpdateScript(spec, obs);
    LoneUpto(h, create, if f.adapterCut < |create| then f.adapterCut else |create|, Lower(spec.name));
    LoneUpto(h, update, if f.adapterCut < |update| then f.adapterCut else |update|, Lower(spec.name));
  }

  lemma LoneIp(h: Host, spec: Spec, reading: Option<IpObs>, f: Faults)
    requires Lone(h, Lower(spec.name)) && LoneNet(h.site, h.site.newNet) && spec.ip.Some?
    ensures Lone(ReconciledIp(h, spec.name, spec.ip.value, reading, f).0, Lower(spec.name))
  {
    if DesiredIp(spec).Some? {
      LoneIpScript(h, spec.name, spec.ip.value.parsed.value, spec.ip.value, f.applyHides, if f.ipCut < 6 then f.ipCut else 6);
    }
  }

  lemma LoneTurn(h: Host, spec: Spec, obs: VnicObs, reading: Option<IpObs>, f: Faults)
    requires Lone(h, Lower(spec.name)) && LoneNet(h.site, h.site.newNet)
    ensures Lone(EnsuredFrom(h, spec, obs, reading, f).0, Lower(spec.name))
  {
    if obs.known {
      EnsuredSplits(h, spec, obs, reading, f);
      LoneAdapter(h, spec, obs, f);
      var (h1, adapter, ok) := AdapterDone(h, spec, obs, f);
      if spec.ip.Some? {
        LoneIp(h1, spec, if adapter == Created || MovesSwitch(spec, obs) then None else reading, f);
      }
    }
  }

  lemma {:induction false} LonePass(h: Host, specs: seq<Spec>, each: seq<Faults>, j: nat, n: nat)
    requires n <= |specs| <= |each| && j < |specs| && DistinctNames(specs)
    requires Lone(h, Lower(specs[j].name)) && LoneNet(h.site, h.site.newNet)
    ensures Lone(FromBatch(h, specs, each, n).0, Lower(specs[j].name)) && FromBatch(h, specs, each, n).0.site == h.site
  {
    if n > 0 {
      LonePass(h, specs, each, j, n - 1);
      var h1, s, k := FromBatch(h, specs, each, n - 1).0, specs[n - 1], Lower(specs[j].name);
      EnsuredTouches(h1, s, ObserveVnic(h, s.name), Some(ReadIp(h, s.name, each[n - 1].batchHides)), each[n - 1]);
      if n - 1 == j {
        LoneTurn(h1, s, ObserveVnic(h, s.name), Some(ReadIp(h, s.name, each[n - 1].batchHides)), each[n - 1]);
      } else {
        TouchedElsewhereLone(h1, TurnOf(h, h1, s, each[n - 1]).0, Lower(s.name), DesiredIp(s), k);
      }
    }
  }

  lemma TouchedElsewhereLone(h: Host, h': Host, k: string, ip: Option<string>, j: string)
    requires OnlyTouches(h, h', k, ip) && j != k && Lone(h, j)
    ensures Lone(h', j)
  {
    var n := OfVnic(j);
    if n in h.nets && h'.nets[n] != h.nets[n] {
      FreedLone(h.site, h.nets[n], ip.value);
    }
  }

  lemma SettledAgrees(h: Host, h': Host, spec: Spec)
    requires Alike(h, h', Lower(spec.name), DesiredIp(spec)) && SpecOk(h.site, spec)
    requires Lone(h, Lower(spec.name)) && Lone(h', Lower(spec.name)) && IpSettled(h, spec)
    ensures IpSettled(h', spec)
  {
    var n := OfVnic(Lower(spec.name));
    if spec.ip.Some? && n in h.nets {
      var c, c', cfg := Candidates(h.site, h.nets[n].addrs), Candidates(h.site, h'.nets[n].addrs), spec.ip.value;
      assert cfg.address != "" by { assert |cfg.address| > |cfg.parsed.value.ip|; }
      assert c == [c[0]];
      CidrTextTellsIp(c[0].ip, c[0].prefix, cfg.parsed.value.ip, cfg.parsed.value.prefix);
      CandidatesHold(h.site, h.nets[n].addrs, c[0]);
      CandidatesHold(h.site, h'.nets[n].addrs, c[0]);
      assert c' == [c[0]];
    }
  }

  /** With distinct addresses and at most one to be read, that goes for the address too:
      vNIC j ends with its declared address shown in both passes or in neither. */
  lemma {:induction false} FaultsLeaveSettled(h: Host, specs: seq<Spec>, each: seq<Faults>, each': seq<Faults>, j: nat)
    requires |specs| <= |each| && |specs| <= |each'| && j < |specs| && each[j] == each'[j]
    requires DistinctNames(specs) && DistinctIps(specs) && Valid(h) && AllOk(h.site, specs)
    requires Lone(h, Lower(specs[j].name)) && LoneNet(h.site, h.site.newNet)
    ensures var a, b := FromBatch(h, specs, each, |specs|), FromBatch(h, specs, each', |specs|);
            && |a.1| == |specs| && |b.1| == |specs|
            && a.1[j] == b.1[j] && (IpSettled(a.0, specs[j]) <==> IpSettled(b.0, specs[j]))
  {
    var p := DesiredIp(specs[j]);
    assert Followed(specs, j, p);
    FaultsStayLocal(h, specs, each, each', p, j, |specs|);
    LonePass(h, specs, each, j, |specs|);
    LonePass(h, specs, each', j, |specs|);
    var a, b := FromBatch(h, specs, each, |specs|).0, FromBatch(h, specs, each', |specs|).0;
    AlikeOn(a, b, b, Lower(specs[j].name), p);
    if IpSettled(a, specs[j]) {
      SettledAgrees(a, b, specs[j]);
    }
    if IpSettled(b, specs[j]) {
      SettledAgrees(b, a, specs[j]);
    }
  }

  // ---- no vNIC is stranded ------------------------------------------------

  /** A move whose target switch is not on the host removes nothing: the vNIC, its
      switch and its interface are as they were, wherever the script is cut. */
  lemma MoveNeverStrands(h: Host, spec: Spec, f: Faults)
    requires Lower(spec.name) in h.vnics && FindSame(h.site.switches, spec.sw).None?
    requires FindSame(h.site.switches, h.vnics[Lower(spec.name)].sw).Some?
    ensures EnsuredFrom(h, spec, ObserveVnic(h, spec.name), None, f) == (h, Result(Unchanged, ActFailed, 1))
  {
    var obs, k := ObserveVnic(h, spec.name), Lower(spec.name);
    if Same(h.vnics[k].sw, spec.sw) {
      FindStops(h.site.switches, h.vnics[k].sw, spec.sw);
      assert false;
    }
    var cmds := UpdateScript(spec, obs);
    assert Upto(h, cmds, 0) == (h, false, true);
    assert Upto(h, cmds, 1) == (h, false, false);
    StaysThrown(h, cmds, 1);
  }
}
