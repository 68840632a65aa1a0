/** Connecting a host to its array: additive portals and logins, with no second path
    before multipath is in effect. */
module Iscsi {
  import opened Wrappers
  import opened Text

  // ---- addresses ----------------------------------------------------------

  predicate AllDigits(s: string) {
    s != "" && forall i :: 0 <= i < |s| ==> IsDigit(s[i])
  }

  /** The last colon from position i down that leaves something before it and digits
      behind it. */
  function PortColon(p: string, i: nat): (r: Option<nat>)
    requires i <= |p|
    ensures r.Some? ==> 0 < r.value < i && p[r.value] == ':' && AllDigits(p[r.value + 1..])
  {
    if i <= 1 then None
    else if p[i - 1] == ':' && AllDigits(p[i..]) then Some(i - 1)
    else PortColon(p, i - 1)
  }

  /** The address of a portal written with or without a port. */
  function AddressOf(portal: string): string {
    match PortColon(portal, |portal|)
    case None => portal
    case Some(i) => portal[..i]
  }

  /** What a registered portal is known by: the address and the port, 3260 if none is
      written. */
  function Endpoint(portal: string): string {
    match PortColon(portal, |portal|)
    case None => portal + ":3260"
    case Some(i) => portal
  }

  lemma {:induction false} ColonSkipsDigits(addr: string, port: string, k: nat)
    requires AllDigits(port) && addr != "" && k <= |port|
    ensures PortColon(addr + ":" + port, |addr| + 1 + k) == Some(|addr|)
  {
    var p := addr + ":" + port;
    if k == 0 {
      assert p[|addr| + 1..] == port;
    } else {
      assert p[|addr| + k] == port[k - 1];
      ColonSkipsDigits(addr, port, k - 1);
    }
  }

  /** A port written behind an address is taken off again, whatever colons the address
      itself contains. */
  lemma AddressRoundTrip(addr: string, port: string)
    requires addr != "" && AllDigits(port)
    ensures AddressOf(addr + ":" + port) == addr
  {
    var p := addr + ":" + port;
    ColonSkipsDigits(addr, port, |port|);
    assert |p| == |addr| + 1 + |port|;
    assert PortColon(p, |p|) == Some(|addr|);
    assert p[..|addr|] == addr;
  }

  // ---- the host -----------------------------------------------------------

  datatype Session = Session(target: string, portal: string, persistent: bool, multipath: bool)

  /** A login the initiator restores at boot. */
  datatype Favourite = Favourite(target: string, portal: string, multipath: bool)

  /** up are the portals that answer; offers the targets each would let in; driver, the
      MPIO driver running; claimAtBoot, the claim as it was when the host started. */
  datatype Host = Host(
    automatic: bool, running: bool,
    installed: bool, claim: bool, driver: bool, claimAtBoot: bool,
    portals: set<string>, sessions: seq<Session>, favourites: set<Favourite>,
    up: set<string>, offers: set<(string, string)>, advertised: seq<string>)

  /** Names and addresses are in lower case. No targets means all that is advertised. */
  datatype Spec = Spec(portals: seq<string>, targets: seq<string>, enableMpio: Option<bool>)

  /** Several portals need multipath whatever was declared; a single one gets it on demand. */
  predicate Required(spec: Spec) {
    |spec.portals| > 1 || spec.enableMpio == Some(true)
  }

  method MpioRequired(spec: Spec) returns (required: bool, overridden: bool)
    ensures required == Required(spec)
    ensures overridden <==> |spec.portals| > 1 && spec.enableMpio == Some(false)
  {
    var multipath := |spec.portals| > 1;
    if spec.enableMpio.None? {
      return multipath, false;
    }
    if multipath && !spec.enableMpio.value {
      return true, true;
    }
    return spec.enableMpio.value, false;
  }

  /** What a pass meets: whether the feature's install asks for a restart, whether its
      commands are usable yet, whether a session can be registered, the portals whose
      discovery is refused, and whether the sessions are listed when it asks for them -
      silently, so that without an answer there seem to be none. */
  datatype Env = Env(restart: bool, claimable: bool, registers: bool, refusing: set<string>, listed: bool)

  /** What the script reads: the claim is set and the driver runs. */
  predicate InEffect(h: Host) {
    h.installed && h.claim && h.driver
  }

  /** What is true of the host: the driver runs and the claim was there when it started. */
  predicate Coalesces(h: Host) {
    h.installed && h.driver && h.claimAtBoot
  }

  // ---- the steps of a pass ------------------------------------------------

  function ServiceUp(h: Host): (Host, bool) {
    (h.(automatic := true, running := true), !h.automatic || !h.running)
  }

  /** Install and claim: the host, whether it changed, and whether a restart is due. */
  function Multipathed(h: Host, env: Env): (Host, bool, bool) {
    var h1 := h.(installed := true);
    var reboot := !h.installed && env.restart;
    if h1.claim || !env.claimable then (h1, !h.installed, reboot)
    else (h1.(claim := true), true, true)
  }

  /** One portal: registered if it is missing, answers, and accepts discovery. */
  function PortalAdded(h: Host, p: string, env: Env): (Host, bool) {
    if Endpoint(p) in h.portals || AddressOf(p) !in h.up || p in env.refusing then (h, false)
    else (h.(portals := h.portals + {Endpoint(p)}), true)
  }

  function Portals(h: Host, spec: Spec, env: Env, n: nat): (Host, bool)
    requires n <= |spec.portals|
  {
    if n == 0 then (h, false)
    else
      var (h1, changed) := Portals(h, spec, env, n - 1);
      var (h2, added) := PortalAdded(h1, spec.portals[n - 1], env);
      (h2, changed || added)
  }

  lemma PortalsNext(h: Host, spec: Spec, env: Env, n: nat, now: (Host, bool), next: (Host, bool))
    requires n < |spec.portals| && now == Portals(h, spec, env, n) && next == PortalAdded(now.0, spec.portals[n], env)
    ensures Portals(h, spec, env, n + 1) == (next.0, now.1 || next.1)
  {
  }

  predicate HasSession(sessions: seq<Session>, target: string) {
    exists i :: 0 <= i < |sessions| && sessions[i].target == target
  }

  predicate HasPath(sessions: seq<Session>, target: string, portal: string) {
    exists i :: 0 <= i < |sessions| && sessions[i].target == target && sessions[i].portal == portal
  }

  /** A second session to a target is let in only if it says it is one of several. */
  function Connected(h: Host, target: string, portal: string, multi: bool): (Host, bool) {
    if portal !in h.up || (target, portal) !in h.offers || (HasSession(h.sessions, target) && !multi) then (h, false)
    else (h.(sessions := h.sessions + [Session(target, portal, true, multi)],
             favourites := h.favourites + {Favourite(target, portal, multi)}), true)
  }

  function Registered(s: Session, target: string): Session {
    if s.target == target then s.(persistent := true) else s
  }

  function RegisteredAll(sessions: seq<Session>, target: string): (r: seq<Session>)
    ensures |r| == |sessions|
    ensures forall i :: 0 <= i < |r| ==> r[i] == Registered(sessions[i], target)
  {
    seq(|sessions|, i requires 0 <= i < |sessions| => Registered(sessions[i], target))
  }

  predicate Fleeting(sessions: seq<Session>, target: string) {
    exists i :: 0 <= i < |sessions| && sessions[i].target == target && !sessions[i].persistent
  }

  function Favourites(sessions: seq<Session>, target: string): set<Favourite> {
    set i | 0 <= i < |sessions| && sessions[i].target == target && !sessions[i].persistent ::
      Favourite(sessions[i].target, sessions[i].portal, sessions[i].multipath)
  }

  function MadePersistent(h: Host, target: string, env: Env): (Host, bool) {
    if !env.listed || !env.registers || !Fleeting(h.sessions, target) then (h, false)
    else (h.(sessions := RegisteredAll(h.sessions, target),
             favourites := h.favourites + Favourites(h.sessions, target)), true)
  }

  /** The portals in want that carried no session when the target was looked at. */
  function Paths(h: Host, before: seq<Session>, target: string, want: seq<string>, multi: bool, m: nat): (Host, bool)
    requires m <= |want|
  {
    if m == 0 then (h, false)
    else
      var (h1, changed) := Paths(h, before, target, want, multi, m - 1);
      if HasPath(before, target, want[m - 1]) then (h1, changed)
      else
        var (h2, joined) := Connected(h1, target, want[m - 1], multi);
        (h2, changed || joined)
  }

  function Listed(h: Host, env: Env): seq<Session> {
    if env.listed then h.sessions else []
  }

  function Logins(h: Host, wanted: seq<string>, want: seq<string>, multi: bool, env: Env, n: nat): (Host, bool)
    requires n <= |wanted|
  {
    if n == 0 then (h, false)
    else
      var (h1, changed) := Logins(h, wanted, want, multi, env, n - 1);
      var (h2, made) := MadePersistent(h1, wanted[n - 1], env);
      var (h3, joined) := Paths(h2, Listed(h1, env), wanted[n - 1], want, multi, |want|);
      (h3, changed || made || joined)
  }

  function Addresses(portals: seq<string>): (r: seq<string>)
    ensures |r| == |portals|
    ensures forall i :: 0 <= i < |r| ==> r[i] == AddressOf(portals[i])
  {
    seq(|portals|, i requires 0 <= i < |portals| => AddressOf(portals[i]))
  }

  /** The one portal to log in through while multipath is required and not in effect;
      blank for no restriction. */
  function Restriction(spec: Spec, effective: bool): string {
    if Required(spec) && !effective && |spec.portals| > 1 then AddressOf(spec.portals[0]) else ""
  }

  function Wanted(h: Host, spec: Spec): seq<string> {
    if spec.targets == [] then h.advertised else spec.targets
  }

  function WantPortals(spec: Spec, effective: bool): seq<string> {
    if Restriction(spec, effective) != "" then [Restriction(spec, effective)] else Addresses(spec.portals)
  }

  function Passed(h: Host, spec: Spec, env: Env): (Host, bool) {
    var (h1, c1) := ServiceUp(h);
    var (h2, c2, reboot) := if Required(spec) then Multipathed(h1, env) else (h1, false, false);
    var effective := Required(spec) && InEffect(h2) && !reboot;
    var (h3, c3) := Portals(h2, spec, env, |spec.portals|);
    var (h4, c4) := Logins(h3, Wanted(h3, spec), WantPortals(spec, effective), effective, env, |Wanted(h3, spec)|);
    (h4, c1 || c2 || c3 || c4)
  }

  // ---- the procedure ------------------------------------------------------

  class Initiator {
    var automatic: bool
    var running: bool
    var installed: bool
    var claim: bool
    var driver: bool
    var claimAtBoot: bool
    var portals: set<string>
    var sessions: seq<Session>
    var favourites: set<Favourite>
    const up: set<string>
    const offers: set<(string, string)>
    const advertised: seq<string>

    function Contents(): Host
      reads this
    {
      Host(automatic, running, installed, claim, driver, claimAtBoot, portals, sessions, favourites, up, offers, advertised)
    }

    constructor (h: Host)
      ensures Contents() == h
    {
      automatic, running := h.automatic, h.running;
      installed, claim, driver, claimAtBoot := h.installed, h.claim, h.driver, h.claimAtBoot;
      portals, sessions, favourites := h.portals, h.sessions, h.favourites;
      up, offers, advertised := h.up, h.offers, h.advertised;
    }

    method Connect(target: string, portal: string, multi: bool) returns (ok: bool)
      modifies this
      ensures (Contents(), ok) == Connected(old(Contents()), target, portal, multi)
    {
      if portal !in up || (target, portal) !in offers || (HasSession(sessions, target) && !multi) {
        return false;
      }
      sessions := sessions + [Session(target, portal, true, multi)];
      favourites := favourites + {Favourite(target, portal, multi)};
      return true;
    }

    method RegisterSessions(target: string, env: Env) returns (changed: bool)
      modifies this
      ensures (Contents(), changed) == MadePersistent(old(Contents()), target, env)
    {
      if !env.listed || !env.registers || !Fleeting(sessions, target) {
        return false;
      }
      favourites := favourites + Favourites(sessions, target);
      sessions := RegisteredAll(sessions, target);
      return true;
    }

    method LogIn(target: string, want: seq<string>, multi: bool, env: Env) returns (changed: bool)
      modifies this
      ensures var was := old(Contents());
              var (h2, made) := MadePersistent(was, target, env);
              var (h3, joined) := Paths(h2, Listed(was, env), target, want, multi, |want|);
              Contents() == h3 && changed == (made || joined)
    {
      var existing := if env.listed then sessions else [];
      changed := RegisterSessions(target, env);
      ghost var made, h2 := changed, Contents();
      var covered: set<string> := set i | 0 <= i < |existing| && existing[i].target == target :: existing[i].portal;
      ghost var joined := false;
      for m := 0 to |want|
        invariant (Contents(), joined) == Paths(h2, existing, target, want, multi, m)
        invariant changed == (made || joined)
      {
        assert HasPath(existing, target, want[m]) <==> want[m] in covered;
        if want[m] in covered {
          continue;
        }
        var ok := Connect(target, want[m], multi);
        joined := joined || ok;
        changed := changed || ok;
      }
    }

    method SetUpMultipath(spec: Spec, env: Env) returns (changed: bool, effective: bool)
      modifies this
      ensures var (h1, c1) := ServiceUp(old(Contents()));
              var (h2, c2, reboot) := if Required(spec) then Multipathed(h1, env) else (h1, false, false);
              Contents() == h2 && changed == (c1 || c2) && effective == (Required(spec) && InEffect(h2) && !reboot)
    {
      changed, effective := false, false;
      if !automatic { automatic := true; changed := true; }
      if !running { running := true; changed := true; }
      var reboot := false;
      if Required(spec) {
        if !installed {
          installed := true;
          changed := true;
          reboot := env.restart;
        }
        if !claim && env.claimable {
          claim := true;
          changed := true;
          reboot := true;
        }
        effective := installed && claim && driver && !reboot;
      }
    }

    method RegisterPortal(p: string, env: Env) returns (added: bool)
      modifies this`portals
      ensures (Contents(), added) == PortalAdded(old(Contents()), p, env)
    {
      added := Endpoint(p) !in portals && AddressOf(p) in up && p !in env.refusing;
      if added {
        portals := portals + {Endpoint(p)};
      }
    }

    method RegisterPortals(spec: Spec, env: Env) returns (changed: bool)
      modifies this`portals
      ensures (Contents(), changed) == Portals(old(Contents()), spec, env, |spec.portals|)
    {
      ghost var was := Contents();
      changed := false;
      for n := 0 to |spec.portals|
        invariant (Contents(), changed) == Portals(was, spec, env, n)
      {
        ghost var now := Contents();
        var added := RegisterPortal(spec.portals[n], env);
        PortalsNext(was, spec, env, n, (now, changed), (Contents(), added));
        changed := changed || added;
      }
    }

    method LogInAll(wanted: seq<string>, want: seq<string>, multi: bool, env: Env) returns (changed: bool)
      modifies this
      ensures (Contents(), changed) == Logins(old(Contents()), wanted, want, multi, env, |wanted|)
    {
      ghost var was := Contents();
      changed := false;
      for n := 0 to |wanted|
        invariant (Contents(), changed) == Logins(was, wanted, want, multi, env, n)
      {
        var ok := LogIn(wanted[n], want, multi, env);
        changed := changed || ok;
      }
    }

    method EnsureSessions(spec: Spec, env: Env) returns (changed: bool)
      modifies this
      ensures (Contents(), changed) == Passed(old(Contents()), spec, env)
    {
      var setUp, effective := SetUpMultipath(spec, env);
      var registered := RegisterPortals(spec, env);
      var restrict := "";
      if Required(spec) && !effective && |spec.portals| > 1 {
        restrict := AddressOf(spec.portals[0]);
      }
      var want := if restrict != "" then [restrict] else Addresses(spec.portals);
      var wanted := if spec.targets == [] then advertised else spec.targets;
      var joined := LogInAll(wanted, want, effective, env);
      return setUp || registered || joined;
    }
  }

  // ---- additive -----------------------------------------------------------

  /** Nothing lost: every portal stays, every session stays in place, at most made
      persistent, and every restored login stays. */
  predicate Grows(h: Host, h': Host) {
    && h.portals <= h'.portals && h.favourites <= h'.favourites
    && |h.sessions| <= |h'.sessions|
    && forall i :: 0 <= i < |h.sessions| ==>
         h'.sessions[i] == h.sessions[i] || h'.sessions[i] == h.sessions[i].(persistent := true)
  }

  lemma AddedGrows(h: Host, h1: Host, p: string, env: Env)
    requires Grows(h, h1) && h1.(portals := h.portals) == h
    ensures Grows(h, PortalAdded(h1, p, env).0) && PortalAdded(h1, p, env).0.(portals := h.portals) == h
  {
  }

  lemma {:induction false} PortalsGrow(h: Host, spec: Spec, env: Env, n: nat)
    requires n <= |spec.portals|
    ensures Grows(h, Portals(h, spec, env, n).0)
    ensures Portals(h, spec, env, n).0.(portals := h.portals) == h
  {
    if n > 0 {
      PortalsGrow(h, spec, env, n - 1);
      AddedGrows(h, Portals(h, spec, env, n - 1).0, spec.portals[n - 1], env);
    }
  }

  lemma {:induction false} PathsGrow(h: Host, before: seq<Session>, target: string, want: seq<string>, multi: bool, m: nat)
    requires m <= |want|
    ensures Grows(h, Paths(h, before, target, want, multi, m).0)
  {
    if m > 0 {
      PathsGrow(h, before, target, want, multi, m - 1);
    }
  }

  lemma MadePersistentGrows(h: Host, target: string, env: Env)
    ensures Grows(h, MadePersistent(h, target, env).0)
  {
  }

  lemma {:induction false} LoginsGrow(h: Host, wanted: seq<string>, want: seq<string>, multi: bool, env: Env, n: nat)
    requires n <= |wanted|
    ensures Grows(h, Logins(h, wanted, want, multi, env, n).0)
  {
    if n > 0 {
      LoginsGrow(h, wanted, want, multi, env, n - 1);
      var h1 := Logins(h, wanted, want, multi, env, n - 1).0;
      var h2 := MadePersistent(h1, wanted[n - 1], env).0;
      MadePersistentGrows(h1, wanted[n - 1], env);
      PathsGrow(h2, Listed(h1, env), wanted[n - 1], want, multi, |want|);
    }
  }

  /** A pass never takes away a portal, a session or a restored login. */
  lemma PassRemovesNothing(h: Host, spec: Spec, env: Env)
    ensures Grows(h, Passed(h, spec, env).0)
  {
    var h1 := ServiceUp(h).0;
    var (h2, _, reboot) := if Required(spec) then Multipathed(h1, env) else (h1, false, false);
    var effective := Required(spec) && InEffect(h2) && !reboot;
    PortalsGrow(h2, spec, env, |spec.portals|);
    var h3 := Portals(h2, spec, env, |spec.portals|).0;
    LoginsGrow(h3, Wanted(h3, spec), WantPortals(spec, effective), effective, env, |Wanted(h3, spec)|);
  }
}
