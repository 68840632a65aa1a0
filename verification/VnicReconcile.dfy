/** Management vNICs: observe, plan, apply - one at a time, and from one batch. */
module VnicReconcile {
  import opened Wrappers
  import opened Text
  import opened VnicHost

  // ---- desired state and observations -------------------------------------

  datatype Cidr = Cidr(ip: string, prefix: nat)

  /** parsed is what net.ParseCIDR makes of the declared address. */
  datatype IpConfig = IpConfig(address: string, parsed: Option<Cidr>, gateway: string, dns: seq<string>)

  datatype Spec = Spec(name: string, sw: string, vlan: nat, pin: string, rdma: Option<bool>, ip: Option<IpConfig>)

  datatype VnicObs = VnicObs(exists_: bool, sw: string, vlan: nat, pin: string, rdma: bool, rdmaKnown: bool, known: bool)

  datatype IpObs = IpObs(address: string, gateway: string, dns: seq<string>, registers: bool)

  function CidrText(ip: string, prefix: nat): string {
    ip + "/" + NatText(prefix)
  }

  const NOT_OBSERVED := VnicObs(false, "", 0, "", false, false, false)

  function ObserveVnic(h: Host, name: string): VnicObs {
    var k := Lower(name);
    if k !in h.vnics then VnicObs(false, "", 0, "", false, false, true)
    else
      var v := h.vnics[k];
      var known := Lower(v.sw) in h.site.rdmaCapable;
      VnicObs(true, v.sw, v.vlan, v.pin, known && v.rdma, known, true)
  }

  function ObserveNet(site: Site, n: Net): IpObs {
    var c := Candidates(site, n.addrs);
    IpObs(if c == [] then "" else CidrText(c[0].ip, c[0].prefix), n.gateway, n.dns, n.registers)
  }

  function ObserveIp(h: Host, name: string): IpObs {
    var n := OfVnic(Lower(name));
    if n in h.nets then ObserveNet(h.site, h.nets[n]) else IpObs("", "", [], false)
  }

  /** What is read with some of the cluster's addresses hidden from the listing. */
  function ReadIp(h: Host, name: string, hidden: set<string>): IpObs {
    if hidden == {} then ObserveIp(h, name) else ObserveIp(h.(site := Hiding(h.site, hidden)), name)
  }

  // ---- decisions ----------------------------------------------------------

  datatype Plan = Noop | Create | Update

  function PlanVnic(spec: Spec, obs: VnicObs): Plan {
    if !obs.exists_ then Create
    else if obs.sw != spec.sw || obs.vlan != spec.vlan then Update
    else if !Same(obs.pin, spec.pin) then Update
    else if spec.rdma.Some? && obs.rdmaKnown && spec.rdma.value != obs.rdma then Update
    else Noop
  }

  predicate RdmaRefused(spec: Spec, obs: VnicObs) {
    spec.rdma == Some(true) && obs.exists_ && !obs.rdmaKnown
  }

  predicate IpDiffers(desired: IpConfig, obs: IpObs) {
    || desired.address != obs.address
    || desired.gateway != obs.gateway
    || (desired.dns != []) != obs.registers
    || desired.dns != obs.dns
  }

  // ---- scripts ------------------------------------------------------------

  function VlanCommand(spec: Spec): seq<Cmd> {
    [SetVlan(spec.name, spec.vlan)]
  }

  function AffinityCommand(spec: Spec): seq<Cmd> {
    if spec.pin == "" then [ClearPin(spec.name)] else [ClearPin(spec.name), SetPin(spec.name, spec.pin)]
  }

  function RdmaCommand(spec: Spec): seq<Cmd> {
    if spec.rdma.None? then [] else [SetRdma(spec.name, spec.rdma.value)]
  }

  function CreateScript(spec: Spec): seq<Cmd> {
    [AddVnic(spec.name, spec.sw)] + VlanCommand(spec) + AffinityCommand(spec) + RdmaCommand(spec)
  }

  /** Only what the observation says has drifted, after the guarded move. */
  function UpdateScript(spec: Spec, obs: VnicObs): seq<Cmd> {
    [RemoveIfElsewhere(spec.name, spec.sw), AddIfRemoved(spec.name, spec.sw)]
      + (if obs.vlan != spec.vlan then VlanCommand(spec) else [])
      + (if !Same(obs.pin, spec.pin) then AffinityCommand(spec) else [])
      + (if spec.rdma.Some? && obs.rdmaKnown && spec.rdma.value != obs.rdma then RdmaCommand(spec) else [])
  }

  function ApplyIpScript(name: string, c: Cidr, cfg: IpConfig, hidden: set<string>): seq<Cmd> {
    [FreeAddress(c.ip), ClearAddresses(name, hidden), ClearRoute(name),
     NewAddress(name, c.ip, c.prefix, cfg.gateway), SetDns(name, cfg.dns), SetRegister(name, cfg.dns != [])]
  }

  /** No script here is longer than this. */
  const LONGEST: nat := 6

  // ---- one vNIC -----------------------------------------------------------

  datatype Outcome = Unchanged | Created | Updated

  datatype Error = NoError | QueryFailed | Unavailable | ActFailed | BadAddress | Refused

  /** acts counts the act scripts issued. */
  datatype Result = Result(out: Outcome, err: Error, acts: nat)

  datatype Answer = Answered | Down | Broken

  /** What a pass meets at one vNIC: the answer to its own query, whether its IP
      query answers, and where its two act scripts are cut; and the cluster's addresses
      hidden from the listings of the batch, of its IP query and of its IP script. */
  datatype Faults = Faults(vnic: Answer, ip: bool, adapterCut: nat, ipCut: nat,
                           batchHides: set<string>, readHides: set<string>, applyHides: set<string>)

  predicate FaultFree(f: Faults) {
    && f.vnic == Answered && f.ip && f.adapterCut >= LONGEST && f.ipCut >= LONGEST
    && f.batchHides == {} && f.readHides == {} && f.applyHides == {}
  }

  /** The batch lists the cluster's addresses once for all of its vNICs. */
  predicate OneListing(each: seq<Faults>) {
    forall i, j :: 0 <= i < j < |each| ==> each[i].batchHides == each[j].batchHides
  }

  /** The IPv4 half. observed is the caller's reading, or None to read now. */
  function ReconciledIp(h: Host, name: string, desired: IpConfig, observed: Option<IpObs>, f: Faults): (Host, Result) {
    if desired.parsed.None? then (h, Result(Unchanged, BadAddress, 0))
    else if observed.None? && !f.ip then (h, Result(Unchanged, QueryFailed, 0))
    else
      var obs := if observed.Some? then observed.value else ReadIp(h, name, f.readHides);
      if !IpDiffers(desired, obs) then (h, Result(Unchanged, NoError, 0))
      else
        var (h', ok) := Exec(h, ApplyIpScript(name, desired.parsed.value, desired, f.applyHides), f.ipCut);
        (h', if ok then Result(Updated, NoError, 1) else Result(Unchanged, ActFailed, 1))
  }

  predicate MovesSwitch(spec: Spec, obs: VnicObs) {
    obs.exists_ && obs.sw != spec.sw
  }

  /** The adapter half: the host, its outcome, and whether it went through. */
  function AdapterDone(h: Host, spec: Spec, obs: VnicObs, f: Faults): (Host, Outcome, bool) {
    match PlanVnic(spec, obs)
    case Noop => (h, Unchanged, true)
    case Create =>
      var (h', ok) := Exec(h, CreateScript(spec), f.adapterCut);
      (h', if ok then Created else Unchanged, ok)
    case Update =>
      var (h', ok) := Exec(h, UpdateScript(spec, obs), f.adapterCut);
      (h', if ok then Updated else Unchanged, ok)
  }

  function EnsuredFrom(h: Host, spec: Spec, obs: VnicObs, observedIp: Option<IpObs>, f: Faults): (Host, Result) {
    if !obs.known then (h, Result(Unchanged, Unavailable, 0))
    else
      var (h1, adapter, ok) := AdapterDone(h, spec, obs, f);
      var acts := if PlanVnic(spec, obs) == Noop then 0 else 1;
      if !ok then (h1, Result(Unchanged, ActFailed, acts))
      else if spec.ip.None? then (h1, Result(adapter, if RdmaRefused(spec, obs) then Refused else NoError, acts))
      else
        var reading := if adapter == Created || MovesSwitch(spec, obs) then None else observedIp;
        var (h2, r) := ReconciledIp(h1, spec.name, spec.ip.value, reading, f);
        if r.err != NoError then (h2, Result(adapter, r.err, acts + r.acts))
        else
          var out := if adapter == Created then Created
                     else if adapter == Updated || r.out == Updated then Updated else Unchanged;
          (h2, Result(out, if RdmaRefused(spec, obs) then Refused else NoError, acts + r.acts))
  }

  function EnsuredOne(h: Host, spec: Spec, f: Faults): (Host, Result) {
    if f.vnic == Broken then (h, Result(Unchanged, QueryFailed, 0))
    else EnsuredFrom(h, spec, if f.vnic == Down then NOT_OBSERVED else ObserveVnic(h, spec.name), None, f)
  }

  // ---- a pass -------------------------------------------------------------

  /** The first n specs, each observed just before it is acted on. */
  function OneByOne(h: Host, specs: seq<Spec>, each: seq<Faults>, n: nat): (Host, seq<Result>)
    requires n <= |specs| && |specs| <= |each|
  {
    if n == 0 then (h, [])
    else
      var (h1, rs) := OneByOne(h, specs, each, n - 1);
      var (h2, r) := EnsuredOne(h1, specs[n - 1], each[n - 1]);
      (h2, rs + [r])
  }

  /** The first n specs, all decided from what was seen at the start. */
  function FromBatch(h: Host, specs: seq<Spec>, each: seq<Faults>, n: nat): (Host, seq<Result>)
    requires n <= |specs| && |specs| <= |each|
  {
    if n == 0 then (h, [])
    else
      var (h1, rs) := FromBatch(h, specs, each, n - 1);
      var s := specs[n - 1];
      var (h2, r) := EnsuredFrom(h1, s, ObserveVnic(h, s.name), Some(ReadIp(h, s.name, each[n - 1].batchHides)), each[n - 1]);
      (h2, rs + [r])
  }

  function AllUnavailable(n: nat): (r: seq<Result>)
    ensures |r| == n
  {
    seq(n, i => Result(Unchanged, Unavailable, 0))
  }

  function Ensured(h: Host, specs: seq<Spec>, batch: Answer, each: seq<Faults>): (Host, seq<Result>)
    requires |specs| <= |each|
  {
    match batch
    case Answered => FromBatch(h, specs, each, |specs|)
    case Down => (h, AllUnavailable(|specs|))
    case Broken => OneByOne(h, specs, each, |specs|)
  }

  // ---- the procedures -----------------------------------------------------

  method ReconcileVnicIp(m: Machine, name: string, desired: IpConfig, observed: Option<IpObs>, f: Faults) returns (r: Result)
    modifies m
    ensures (m.Contents(), r) == ReconciledIp(old(m.Contents()), name, desired, observed, f)
  {
    if desired.parsed.None? {
      return Result(Unchanged, BadAddress, 0);
    }
    var obs: IpObs;
    if observed.Some? {
      obs := observed.value;
    } else if !f.ip {
      return Result(Unchanged, QueryFailed, 0);
    } else {
      obs := ReadIp(m.Contents(), name, f.readHides);
    }
    if !IpDiffers(desired, obs) {
      return Result(Unchanged, NoError, 0);
    }
    var ok := m.Run(ApplyIpScript(name, desired.parsed.value, desired, f.applyHides), f.ipCut);
    return if ok then Result(Updated, NoError, 1) else Result(Unchanged, ActFailed, 1);
  }

  method EnsureMgmtVnicFrom(m: Machine, spec: Spec, obs: VnicObs, observedIp: Option<IpObs>, f: Faults) returns (r: Result)
    modifies m
    ensures (m.Contents(), r) == EnsuredFrom(old(m.Contents()), spec, obs, observedIp, f)
  {
    if !obs.known {
      return Result(Unchanged, Unavailable, 0);
    }
    var adapter, acts := Unchanged, 0;
    var movedSwitch := obs.exists_ && obs.sw != spec.sw;
    match PlanVnic(spec, obs) {
      case Create =>
        acts := 1;
        var ok := m.Run(CreateScript(spec), f.adapterCut);
        if !ok {
          return Result(Unchanged, ActFailed, acts);
        }
        adapter := Created;
      case Update =>
        acts := 1;
        var ok := m.Run(UpdateScript(spec, obs), f.adapterCut);
        if !ok {
          return Result(Unchanged, ActFailed, acts);
        }
        adapter := Updated;
      case Noop =>
    }
    var ipChanged := false;
    if spec.ip.Some? {
      var reading := observedIp;
      if adapter == Created || movedSwitch {
        reading := None;
      }
      var ip := ReconcileVnicIp(m, spec.name, spec.ip.value, reading, f);
      acts := acts + ip.acts;
      if ip.err != NoError {
        return Result(adapter, ip.err, acts);
      }
      ipChanged := ip.out == Updated;
    }
    var outcome := Unchanged;
    if adapter == Created {
      outcome := Created;
    } else if adapter == Updated || ipChanged {
      outcome := Updated;
    }
    return Result(outcome, if RdmaRefused(spec, obs) then Refused else NoError, acts);
  }

  method EnsureMgmtVnic(m: Machine, spec: Spec, f: Faults) returns (r: Result)
    modifies m
    ensures (m.Contents(), r) == EnsuredOne(old(m.Contents()), spec, f)
  {
    if f.vnic == Broken {
      return Result(Unchanged, QueryFailed, 0);
    }
    var obs := if f.vnic == Down then NOT_OBSERVED else ObserveVnic(m.Contents(), spec.name);
    r := EnsureMgmtVnicFrom(m, spec, obs, None, f);
  }

  /** One enumeration for every name; a name that is missing from an answered
      batch is filled in as known to be absent. */
  method QueryVnicsBatch(m: Machine, specs: seq<Spec>, hidden: set<string>)
    returns (adapters: map<string, VnicObs>, ips: map<string, IpObs>)
    ensures forall i :: 0 <= i < |specs| ==>
              && Lower(specs[i].name) in adapters && adapters[Lower(specs[i].name)] == ObserveVnic(m.Contents(), specs[i].name)
              && Lower(specs[i].name) in ips && ips[Lower(specs[i].name)] == ReadIp(m.Contents(), specs[i].name, hidden)
  {
    adapters, ips := map[], map[];
    for i := 0 to |specs|
      invariant forall k :: k in adapters ==> k in m.vnics && adapters[k] == ObserveVnic(m.Contents(), k)
      invariant forall k :: k in ips ==> ips[k] == ReadIp(m.Contents(), k, hidden)
      invariant forall j :: 0 <= j < i ==> Lower(specs[j].name) in ips
      invariant forall j :: 0 <= j < i && Lower(specs[j].name) in m.vnics ==> Lower(specs[j].name) in adapters
    {
      var k := Lower(specs[i].name);
      LowerIdempotent(specs[i].name);
      if k in m.vnics {
        adapters := adapters[k := ObserveVnic(m.Contents(), specs[i].name)];
      }
      ips := ips[k := ReadIp(m.Contents(), specs[i].name, hidden)];
    }
    for i := 0 to |specs|
      invariant forall k :: k in adapters ==> adapters[k] == ObserveVnic(m.Contents(), k)
      invariant forall j :: 0 <= j < i ==> Lower(specs[j].name) in adapters
      invariant forall j :: 0 <= j < |specs| && Lower(specs[j].name) in m.vnics ==> Lower(specs[j].name) in adapters
    {
      var k := Lower(specs[i].name);
      LowerIdempotent(specs[i].name);
      if k !in adapters {
        adapters := adapters[k := VnicObs(false, "", 0, "", false, false, true)];
      }
    }
    forall i | 0 <= i < |specs|
      ensures ObserveVnic(m.Contents(), Lower(specs[i].name)) == ObserveVnic(m.Contents(), specs[i].name)
      ensures ReadIp(m.Contents(), Lower(specs[i].name), hidden) == ReadIp(m.Contents(), specs[i].name, hidden)
    {
      LowerIdempotent(specs[i].name);
    }
  }

  /** Every vNIC from one observation pass, falling back to one at a time when the
      batch breaks, and deferring the whole pass when Hyper-V does not answer. */
  method EnsureMgmtVnics(m: Machine, specs: seq<Spec>, batch: Answer, each: seq<Faults>) returns (results: seq<Result>)
    requires |specs| <= |each| && OneListing(each)
    modifies m
    ensures (m.Contents(), results) == Ensured(old(m.Contents()), specs, batch, each)
  {
    ghost var was := m.Contents();
    results := [];
    if batch == Down {
      for i := 0 to |specs|
        invariant m.Contents() == was && results == AllUnavailable(i)
      {
        results := results + [Result(Unchanged, Unavailable, 0)];
      }
      return;
    }
    if batch == Broken {
      for i := 0 to |specs|
        invariant (m.Contents(), results) == OneByOne(was, specs, each, i)
      {
        var r := EnsureMgmtVnic(m, specs[i], each[i]);
        results := results + [r];
      }
      return;
    }
    var hidden := if |each| > 0 then each[0].batchHides else {};
    var adapters, ips := QueryVnicsBatch(m, specs, hidden);
    for i := 0 to |specs|
      invariant (m.Contents(), results) == FromBatch(was, specs, each, i)
    {
      var k := Lower(specs[i].name);
      var r := EnsureMgmtVnicFrom(m, specs[i], adapters[k], Some(ips[k]), each[i]);
      results := results + [r];
    }
  }
}
