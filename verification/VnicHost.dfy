/** A host's management vNICs and their IPv4 interfaces, and the commands the
    generated scripts run against them. */
module VnicHost {
  import opened Wrappers
  import opened Text

  datatype Origin = Manual | Dhcp | Other

  datatype Addr = Addr(ip: string, prefix: nat, origin: Origin)

  /** One IPv4 interface. */
  datatype Net = Net(addrs: seq<Addr>, gateway: string, dns: seq<string>, registers: bool)

  /** A management vNIC: its switch as the host spells it, VLAN (0 untagged), the
      team member it is pinned to ("" for none), and RDMA. */
  datatype Vnic = Vnic(sw: string, vlan: nat, pin: string, rdma: bool)

  /** Interfaces belong to a vNIC or to something else; names are lower-cased. */
  datatype Iface = OfVnic(name: string) | Physical(name: string)

  /** What no command here changes: the switches, which adapters each one teams,
      which switches offer RDMA, the cluster's own addresses, and what Windows
      gives the interface of a new vNIC. */
  datatype Site = Site(
    switches: seq<string>,
    teams: map<string, set<string>>,
    rdmaCapable: set<string>,
    clusterIps: set<string>,
    newNet: Net)

  /** ghosts are addresses held by devices no longer present; duplicates are the
      names a second vNIC was ever added under. */
  datatype Host = Host(
    site: Site,
    vnics: map<string, Vnic>,
    nets: map<Iface, Net>,
    ghosts: set<string>,
    duplicates: set<string>)

  datatype Cmd =
    | AddVnic(name: string, sw: string)
    | RemoveIfElsewhere(name: string, sw: string)
    | AddIfRemoved(name: string, sw: string)
    | SetVlan(name: string, vlan: nat)
    | ClearPin(name: string)
    | SetPin(name: string, adapter: string)
    | SetRdma(name: string, on: bool)
    | FreeAddress(ip: string)
    | ClearAddresses(name: string, hidden: set<string>)
    | ClearRoute(name: string)
    | NewAddress(name: string, ip: string, prefix: nat, gateway: string)
    | SetDns(name: string, dns: seq<string>)
    | SetRegister(name: string, on: bool)

  // ---- addresses ----------------------------------------------------------

  function Without(addrs: seq<Addr>, ip: string): seq<Addr> {
    if addrs == [] then []
    else (if addrs[0].ip == ip then [] else [addrs[0]]) + Without(addrs[1..], ip)
  }

  predicate IsApipa(ip: string) {
    StartsWith(ip, "169.254.")
  }

  /** The addresses the observation reads: manual, routable, not the cluster's. */
  predicate Readable(site: Site, a: Addr) {
    a.origin == Manual && !IsApipa(a.ip) && a.ip !in site.clusterIps
  }

  function Candidates(site: Site, addrs: seq<Addr>): seq<Addr> {
    if addrs == [] then []
    else (if Readable(site, addrs[0]) then [addrs[0]] else []) + Candidates(site, addrs[1..])
  }

  /** The site as a listing of the cluster's addresses shows it that leaves some out. The
      listing is silent: without an answer it leaves out all of them. */
  function Hiding(site: Site, hidden: set<string>): Site {
    if hidden == {} then site else site.(clusterIps := site.clusterIps - hidden)
  }

  predicate Owned(site: Site, a: Addr) {
    a.origin != Other && a.ip !in site.clusterIps
  }

  /** The apply keeps what it does not own: anything neither manual nor leased,
      and every address the cluster holds. */
  function NotOwned(site: Site, addrs: seq<Addr>): seq<Addr> {
    if addrs == [] then []
    else (if Owned(site, addrs[0]) then [] else [addrs[0]]) + NotOwned(site, addrs[1..])
  }

  lemma {:induction false} FreeingCommutes(site: Site, addrs: seq<Addr>, ip: string)
    ensures Candidates(site, Without(addrs, ip)) == Without(Candidates(site, addrs), ip)
  {
    if addrs != [] {
      FreeingCommutes(site, addrs[1..], ip);
      var rest, c := Without(addrs[1..], ip), Candidates(site, addrs[1..]);
      assert ([addrs[0]] + rest)[1..] == rest && [] + rest == rest;
      assert ([addrs[0]] + c)[1..] == c && [] + c == c;
    }
  }

  lemma {:induction false} NothingOwnedIsReadable(site: Site, hidden: set<string>, addrs: seq<Addr>)
    ensures Candidates(site, NotOwned(Hiding(site, hidden), addrs)) == []
  {
    if addrs != [] {
      NothingOwnedIsReadable(site, hidden, addrs[1..]);
      var rest := NotOwned(Hiding(site, hidden), addrs[1..]);
      assert ([addrs[0]] + rest)[1..] == rest && [] + rest == rest;
    }
  }

  lemma {:induction false} CandidatesAppend(site: Site, a: seq<Addr>, b: seq<Addr>)
    ensures Candidates(site, a + b) == Candidates(site, a) + Candidates(site, b)
  {
    if a == [] {
      assert a + b == b;
    } else {
      assert (a + b)[1..] == a[1..] + b;
      CandidatesAppend(site, a[1..], b);
    }
  }

  // ---- commands -----------------------------------------------------------

  function WithAdded(h: Host, name: string, sw: string): Host {
    var k := Lower(name);
    if k in h.vnics then h.(duplicates := h.duplicates + {k})
    else h.(vnics := h.vnics[k := Vnic(sw, 0, "", false)], nets := h.nets[OfVnic(k) := h.site.newNet])
  }

  function NetUpdate(h: Host, name: string, n: Net): Host {
    h.(nets := h.nets[OfVnic(Lower(name)) := n])
  }

  /** One command: the host after it, whether the guarded move is under way, and
      whether the script goes on. */
  function Step(h: Host, moving: bool, c: Cmd): (Host, bool, bool) {
    match c
    case AddVnic(name, sw) =>
      (match FindSame(h.site.switches, sw)
       case None => (h, moving, false)
       case Some(s) => (WithAdded(h, name, s), moving, true))
    case RemoveIfElsewhere(name, sw) =>
      var k := Lower(name);
      if k !in h.vnics || Same(h.vnics[k].sw, sw) then (h, false, true)
      else if FindSame(h.site.switches, sw).None? then (h, false, false)
      else (h.(vnics := h.vnics - {k}, nets := h.nets - {OfVnic(k)}), true, true)
    case AddIfRemoved(name, sw) =>
      if !moving then (h, false, true) else
      (match FindSame(h.site.switches, sw)
       case None => (h, moving, false)
       case Some(s) => (WithAdded(h, name, s), false, true))
    case SetVlan(name, vlan) =>
      var k := Lower(name);
      if k !in h.vnics then (h, moving, false)
      else (h.(vnics := h.vnics[k := h.vnics[k].(vlan := vlan)]), moving, true)
    case ClearPin(name) =>
      var k := Lower(name);
      if k !in h.vnics then (h, moving, true)
      else (h.(vnics := h.vnics[k := h.vnics[k].(pin := "")]), moving, true)
    case SetPin(name, adapter) =>
      var k := Lower(name);
      if k !in h.vnics || !Teamed(h.site, h.vnics[k].sw, adapter) then (h, moving, false)
      else (h.(vnics := h.vnics[k := h.vnics[k].(pin := adapter)]), moving, true)
    case SetRdma(name, on) =>
      var k := Lower(name);
      if k !in h.vnics || Lower(h.vnics[k].sw) !in h.site.rdmaCapable then (h, moving, true)
      else (h.(vnics := h.vnics[k := h.vnics[k].(rdma := on)]), moving, true)
    case FreeAddress(ip) =>
      (h.(nets := map n | n in h.nets :: h.nets[n].(addrs := Without(h.nets[n].addrs, ip))), moving, true)
    case ClearAddresses(name, hidden) =>
      var n := OfVnic(Lower(name));
      if n !in h.nets then (h, moving, true)
      else (NetUpdate(h, name, h.nets[n].(addrs := NotOwned(Hiding(h.site, hidden), h.nets[n].addrs))), moving, true)
    case ClearRoute(name) =>
      var n := OfVnic(Lower(name));
      if n !in h.nets then (h, moving, true)
      else (NetUpdate(h, name, h.nets[n].(gateway := "")), moving, true)
    case NewAddress(name, ip, prefix, gateway) =>
      var n := OfVnic(Lower(name));
      if n !in h.nets then (h, moving, false)
      else
        var net := h.nets[n].(addrs := h.nets[n].addrs + [Addr(ip, prefix, Manual)]);
        (NetUpdate(h, name, if gateway == "" then net else net.(gateway := gateway)).(ghosts := h.ghosts - {ip}), moving, true)
    case SetDns(name, dns) =>
      var n := OfVnic(Lower(name));
      if n !in h.nets then (h, moving, false)
      else (NetUpdate(h, name, h.nets[n].(dns := dns)), moving, true)
    case SetRegister(name, on) =>
      var n := OfVnic(Lower(name));
      if n !in h.nets then (h, moving, true)
      else (NetUpdate(h, name, h.nets[n].(registers := on)), moving, true)
  }

  predicate Teamed(site: Site, sw: string, adapter: string) {
    Lower(sw) in site.teams && Lower(adapter) in site.teams[Lower(sw)]
  }

  /** The script's first n commands; a command that throws ends it. */
  function Upto(h: Host, cmds: seq<Cmd>, n: nat): (Host, bool, bool)
    requires n <= |cmds|
  {
    if n == 0 then (h, false, true)
    else
      var (h1, moving, ok) := Upto(h, cmds, n - 1);
      if ok then Step(h1, moving, cmds[n - 1]) else (h1, moving, false)
  }

  /** A script run that is cut before the command numbered cut, if it gets there. */
  function Exec(h: Host, cmds: seq<Cmd>, cut: nat): (Host, bool) {
    var (h', _, ok) := Upto(h, cmds, if cut < |cmds| then cut else |cmds|);
    (h', ok && cut >= |cmds|)
  }

  // ---- the machine --------------------------------------------------------

  class Machine {
    const site: Site
    var vnics: map<string, Vnic>
    var nets: map<Iface, Net>
    var ghosts: set<string>
    var duplicates: set<string>

    function Contents(): Host
      reads this
    {
      Host(site, vnics, nets, ghosts, duplicates)
    }

    constructor (h: Host)
      ensures Contents() == h
    {
      site, vnics, nets, ghosts, duplicates := h.site, h.vnics, h.nets, h.ghosts, h.duplicates;
    }

    method Add(name: string, sw: string) returns (ok: bool)
      modifies this
      ensures ok == FindSame(site.switches, sw).Some?
      ensures Contents() == if ok then WithAdded(old(Contents()), name, FindSame(site.switches, sw).value) else old(Contents())
    {
      var found := FindSame(site.switches, sw);
      if found.None? {
        return false;
      }
      var k := Lower(name);
      if k in vnics {
        duplicates := duplicates + {k};
      } else {
        vnics := vnics[k := Vnic(found.value, 0, "", false)];
        nets := nets[OfVnic(k) := site.newNet];
      }
      return true;
    }

    method Do(c: Cmd, moving: bool) returns (moving': bool, ok: bool)
      modifies this
      ensures (Contents(), moving', ok) == Step(old(Contents()), moving, c)
    {
      moving', ok := moving, true;
      match c
      case AddVnic(name, sw) =>
        ok := Add(name, sw);
      case RemoveIfElsewhere(name, sw) =>
        var k := Lower(name);
        moving' := false;
        if k in vnics && !Same(vnics[k].sw, sw) {
          if FindSame(site.switches, sw).None? {
            return false, false;
          }
          vnics := vnics - {k};
          nets := nets - {OfVnic(k)};
          moving' := true;
        }
      case AddIfRemoved(name, sw) =>
        if moving {
          ok := Add(name, sw);
          moving' := !ok;
        }
      case SetVlan(name, vlan) =>
        var k := Lower(name);
        if k !in vnics {
          return moving, false;
        }
        vnics := vnics[k := vnics[k].(vlan := vlan)];
      case ClearPin(name) =>
        var k := Lower(name);
        if k in vnics {
          vnics := vnics[k := vnics[k].(pin := "")];
        }
      case SetPin(name, adapter) =>
        var k := Lower(name);
        if k !in vnics || !Teamed(site, vnics[k].sw, adapter) {
          return moving, false;
        }
        vnics := vnics[k := vnics[k].(pin := adapter)];
      case SetRdma(name, on) =>
        var k := Lower(name);
        if k in vnics && Lower(vnics[k].sw) in site.rdmaCapable {
          vnics := vnics[k := vnics[k].(rdma := on)];
        }
      case FreeAddress(ip) =>
        nets := map n | n in nets :: nets[n].(addrs := Without(nets[n].addrs, ip));
      case ClearAddresses(name, hidden) =>
        var n := OfVnic(Lower(name));
        if n in nets {
          nets := nets[n := nets[n].(addrs := NotOwned(Hiding(site, hidden), nets[n].addrs))];
        }
      case ClearRoute(name) =>
        var n := OfVnic(Lower(name));
        if n in nets {
          nets := nets[n := nets[n].(gateway := "")];
        }
      case NewAddress(name, ip, prefix, gateway) =>
        var n := OfVnic(Lower(name));
        if n !in nets {
          return moving, false;
        }
        // a claim left by a removed adapter is released, and only then
        if ip in ghosts {
          ghosts := ghosts - {ip};
        }
        var net := nets[n].(addrs := nets[n].addrs + [Addr(ip, prefix, Manual)]);
        nets := nets[n := if gateway == "" then net else net.(gateway := gateway)];
        assert ghosts == old(ghosts) - {ip};
      case SetDns(name, dns) =>
        var n := OfVnic(Lower(name));
        if n !in nets {
          return moving, false;
        }
        nets := nets[n := nets[n].(dns := dns)];
      case SetRegister(name, on) =>
        var n := OfVnic(Lower(name));
        if n in nets {
          nets := nets[n := nets[n].(registers := on)];
        }
    }

    method Run(cmds: seq<Cmd>, cut: nat) returns (ok: bool)
      modifies this
      ensures (Contents(), ok) == Exec(old(Contents()), cmds, cut)
    {
      ghost var was := Contents();
      var moving := false;
      ok := true;
      var i := 0;
      while ok && i < |cmds| && i < cut
        invariant i <= |cmds| && i <= cut
        invariant (Contents(), moving, ok) == Upto(was, cmds, i)
        decreases |cmds| - i
      {
        ghost var now := (Contents(), moving, ok);
        moving, ok := Do(cmds[i], moving);
        UptoNext(was, cmds, i, now, (Contents(), moving, ok));
        i := i + 1;
      }
      if !ok {
        StaysThrown(was, cmds, i);
      }
      if ok && i < |cmds| {
        return false;
      }
    }
  }

  lemma UptoNext(h: Host, cmds: seq<Cmd>, n: nat, now: (Host, bool, bool), next: (Host, bool, bool))
    requires n < |cmds| && now == Upto(h, cmds, n) && now.2 && next == Step(now.0, now.1, cmds[n])
    ensures Upto(h, cmds, n + 1) == next
  {
  }

  lemma {:induction false} StaysThrown(h: Host, cmds: seq<Cmd>, n: nat)
    requires n <= |cmds| && !Upto(h, cmds, n).2
    ensures forall m :: n <= m <= |cmds| ==> Upto(h, cmds, m) == Upto(h, cmds, n)
    decreases |cmds| - n
  {
    if n < |cmds| {
      StaysThrown(h, cmds, n + 1);
    }
  }
}
