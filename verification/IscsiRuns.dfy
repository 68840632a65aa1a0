/** iSCSI paths over whole runs of passes, restarts and portal outages. */
module IscsiRuns {
  import opened Wrappers
  import opened Text
  import opened Iscsi

  // ---- runs ---------------------------------------------------------------

  /** offered is what the array would let in from then on. */
  datatype Event =
    | Pass(env: Env)
    | Restart
    | Drop(portal: string)
    | Return(portal: string)
    | Offers(offered: set<(string, string)>)

  /** The sessions the restored logins give, each once. */
  function Restored(favs: seq<Favourite>, up: set<string>): seq<Session> {
    if favs == [] then []
    else
      var last := favs[|favs| - 1];
      var before := Restored(favs[..|favs| - 1], up);
      if last.portal in up then before + [Session(last.target, last.portal, true, last.multipath)] else before
  }

  /** An order the initiator may restore its logins in: each once, and any of the same
      path only once. */
  ghost predicate Listing(order: seq<Favourite>, favs: set<Favourite>) {
    && (forall f :: f in order ==> f in favs)
    && forall i, j :: 0 <= i < j < |order| ==> order[i].target != order[j].target || order[i].portal != order[j].portal
  }

  function WithoutPortal(sessions: seq<Session>, portal: string): seq<Session> {
    if sessions == [] then []
    else
      var last := sessions[|sessions| - 1];
      var before := WithoutPortal(sessions[..|sessions| - 1], portal);
      if last.portal == portal then before else before + [last]
  }

  /** A step of a run; order is how logins were restored, where the event restores any. */
  ghost predicate Next(h: Host, spec: Spec, e: Event, order: seq<Favourite>, h': Host) {
    match e
    case Pass(env) => h' == Passed(h, spec, env).0
    case Restart =>
      && Listing(order, h.favourites)
      && h' == h.(running := h.automatic, driver := h.installed, claimAtBoot := h.claim,
                  sessions := if h.automatic then Restored(order, h.up) else [])
    case Drop(portal) => h' == h.(up := h.up - {portal}, sessions := WithoutPortal(h.sessions, portal))
    case Return(portal) =>
      && Listing(order, h.favourites)
      && (forall f :: f in order ==> f.portal == portal && !HasPath(h.sessions, f.target, f.portal))
      && h' == h.(up := h.up + {portal}, sessions := h.sessions + Restored(order, h.up + {portal}))
    case Offers(offered) => h' == h.(offers := offered)
  }

  // ---- at most one path ---------------------------------------------------

  predicate SinglePaths(sessions: seq<Session>) {
    forall i, j :: 0 <= i < j < |sessions| ==> sessions[i].target != sessions[j].target
  }

  predicate AllThrough(sessions: seq<Session>, portal: string) {
    forall i :: 0 <= i < |sessions| ==> sessions[i].portal == portal
  }

  predicate FavouritesThrough(favs: set<Favourite>, portal: string) {
    forall f :: f in favs ==> f.portal == portal
  }

  /** One session a target at most, all through the one portal, and the logins to be
      restored through it too. */
  predicate OnePath(h: Host, portal: string) {
    SinglePaths(h.sessions) && AllThrough(h.sessions, portal) && FavouritesThrough(h.favourites, portal)
  }

  /** The specification the property is about: two portals or more, and a first portal
      that is not blank. */
  predicate Multi(spec: Spec) {
    |spec.portals| > 1 && AddressOf(spec.portals[0]) != ""
  }

  predicate Guarded(h: Host, spec: Spec)
    requires Multi(spec)
  {
    (h.driver ==> h.installed) && (!InEffect(h) ==> OnePath(h, AddressOf(spec.portals[0])))
  }

  lemma ConnectedOnePath(h: Host, target: string, portal: string)
    requires OnePath(h, portal)
    ensures OnePath(Connected(h, target, portal, false).0, portal)
  {
  }

  lemma {:induction false} PathsOnePath(h: Host, before: seq<Session>, target: string, portal: string, m: nat)
    requires m <= 1 && OnePath(h, portal)
    ensures OnePath(Paths(h, before, target, [portal], false, m).0, portal)
  {
    if m == 1 {
      PathsOnePath(h, before, target, portal, 0);
      ConnectedOnePath(h, target, portal);
    }
  }

  lemma {:induction false} LoginsOnePath(h: Host, wanted: seq<string>, portal: string, env: Env, n: nat)
    requires n <= |wanted| && OnePath(h, portal)
    ensures OnePath(Logins(h, wanted, [portal], false, env, n).0, portal)
  {
    if n > 0 {
      LoginsOnePath(h, wanted, portal, env, n - 1);
      var h1 := Logins(h, wanted, [portal], false, env, n - 1).0;
      PathsOnePath(MadePersistent(h1, wanted[n - 1], env).0, Listed(h1, env), wanted[n - 1], portal, 1);
    }
  }

  /** The hosts differ in their sessions and in what is to be restored, at most. */
  predicate OnlySessions(h: Host, h': Host) {
    h' == h.(sessions := h'.sessions, favourites := h'.favourites)
  }

  lemma {:induction false} PathsKeepDriver(h: Host, before: seq<Session>, target: string, want: seq<string>, multi: bool, m: nat)
    requires m <= |want|
    ensures OnlySessions(h, Paths(h, before, target, want, multi, m).0)
  {
    if m > 0 {
      PathsKeepDriver(h, before, target, want, multi, m - 1);
      var h1 := Paths(h, before, target, want, multi, m - 1).0;
    }
  }

  lemma {:induction false} LoginsKeepDriver(h: Host, wanted: seq<string>, want: seq<string>, multi: bool, env: Env, n: nat)
    requires n <= |wanted|
    ensures OnlySessions(h, Logins(h, wanted, want, multi, env, n).0)
  {
    if n > 0 {
      LoginsKeepDriver(h, wanted, want, multi, env, n - 1);
      var h1 := Logins(h, wanted, want, multi, env, n - 1).0;
      var h2 := MadePersistent(h1, wanted[n - 1], env).0;
      PathsKeepDriver(h2, Listed(h1, env), wanted[n - 1], want, multi, |want|);
    }
  }

  /** The host when the logins begin, and whether multipath counts as in effect. */
  function BeforeLogins(h: Host, spec: Spec, env: Env): (Host, bool) {
    var h1 := ServiceUp(h).0;
    var (h2, _, reboot) := if Required(spec) then Multipathed(h1, env) else (h1, false, false);
    (Portals(h2, spec, env, |spec.portals|).0, Required(spec) && InEffect(h2) && !reboot)
  }

  lemma PassSplits(h: Host, spec: Spec, env: Env)
    ensures var (h3, effective) := BeforeLogins(h, spec, env);
            && Passed(h, spec, env).0 == Logins(h3, Wanted(h3, spec), WantPortals(spec, effective), effective, env, |Wanted(h3, spec)|).0
            && h3 == h.(automatic := true, running := true, installed := h.installed || Required(spec),
                        claim := h.claim || (Required(spec) && env.claimable), portals := h3.portals)
  {
    var h1 := ServiceUp(h).0;
    var (h2, _, reboot) := if Required(spec) then Multipathed(h1, env) else (h1, false, false);
    PortalsGrow(h2, spec, env, |spec.portals|);
  }

  lemma PassGuarded(h: Host, spec: Spec, env: Env)
    requires Multi(spec) && Guarded(h, spec)
    ensures Guarded(Passed(h, spec, env).0, spec)
  {
    PassSplits(h, spec, env);
    var (h3, effective) := BeforeLogins(h, spec, env);
    var portal := AddressOf(spec.portals[0]);
    LoginsKeepDriver(h3, Wanted(h3, spec), WantPortals(spec, effective), effective, env, |Wanted(h3, spec)|);
    if !effective {
      assert WantPortals(spec, false) == [portal];
      LoginsOnePath(h3, Wanted(h3, spec), portal, env, |Wanted(h3, spec)|);
    }
  }

  predicate ComesFrom(favs: seq<Favourite>, up: set<string>, s: Session) {
    exists k :: 0 <= k < |favs| && favs[k].target == s.target && favs[k].portal == s.portal && favs[k].portal in up
  }

  lemma {:induction false} RestoredIs(favs: seq<Favourite>, up: set<string>)
    ensures forall i :: 0 <= i < |Restored(favs, up)| ==> ComesFrom(favs, up, Restored(favs, up)[i])
  {
    if favs != [] {
      var front, last := favs[..|favs| - 1], favs[|favs| - 1];
      RestoredIs(front, up);
      var r := Restored(front, up);
      forall i | 0 <= i < |Restored(favs, up)| ensures ComesFrom(favs, up, Restored(favs, up)[i]) {
        if i < |r| {
          var k :| 0 <= k < |front| && front[k].target == r[i].target && front[k].portal == r[i].portal && front[k].portal in up;
          assert favs[k] == front[k];
        } else {
          assert favs[|favs| - 1].portal in up;
        }
      }
    }
  }

  /** Logins of one portal restore to distinct targets. */
  lemma {:induction false} RestoredSingle(favs: seq<Favourite>, up: set<string>, portal: string)
    requires forall i, j :: 0 <= i < j < |favs| ==> favs[i].target != favs[j].target || favs[i].portal != favs[j].portal
    requires forall i :: 0 <= i < |favs| ==> favs[i].portal == portal
    ensures SinglePaths(Restored(favs, up)) && AllThrough(Restored(favs, up), portal)
  {
    if favs != [] {
      var front, last := favs[..|favs| - 1], favs[|favs| - 1];
      RestoredSingle(front, up, portal);
      RestoredIs(front, up);
      var r := Restored(front, up);
      forall i | 0 <= i < |r| ensures r[i].target != last.target {
        var k :| 0 <= k < |front| && front[k].target == r[i].target && front[k].portal == r[i].portal && front[k].portal in up;
        assert favs[k] == front[k];
      }
    }
  }

  lemma {:induction false} DroppedStill(sessions: seq<Session>, portal: string)
    ensures |WithoutPortal(sessions, portal)| <= |sessions|
    ensures forall s :: s in WithoutPortal(sessions, portal) ==> s in sessions
    ensures SinglePaths(sessions) ==> SinglePaths(WithoutPortal(sessions, portal))
  {
    if sessions != [] {
      DroppedStill(sessions[..|sessions| - 1], portal);
      var rest := WithoutPortal(sessions[..|sessions| - 1], portal);
      if SinglePaths(sessions) {
        forall i | 0 <= i < |rest| ensures rest[i].target != sessions[|sessions| - 1].target {
          assert rest[i] in sessions[..|sessions| - 1];
        }
      }
    }
  }

  lemma RestartGuarded(h: Host, spec: Spec, order: seq<Favourite>, h': Host)
    requires Multi(spec) && Guarded(h, spec) && Next(h, spec, Restart, order, h')
    ensures InEffect(h) ==> InEffect(h')
    ensures Guarded(h', spec)
  {
    if !InEffect(h') {
      RestoredSingle(order, h.up, AddressOf(spec.portals[0]));
    }
  }

  lemma ReturnGuarded(h: Host, spec: Spec, portal: string, order: seq<Favourite>, h': Host)
    requires Multi(spec) && Guarded(h, spec) && Next(h, spec, Return(portal), order, h')
    ensures Guarded(h', spec)
  {
    if !InEffect(h') {
      var first := AddressOf(spec.portals[0]);
      var back := Restored(order, h.up + {portal});
      RestoredSingle(order, h.up + {portal}, first);
      RestoredIs(order, h.up + {portal});
      forall i, j | 0 <= i < |h.sessions| && 0 <= j < |back| ensures h.sessions[i].target != back[j].target {
        var k :| 0 <= k < |order| && order[k].target == back[j].target && order[k].portal == back[j].portal && order[k].portal in h.up + {portal};
        assert order[k] in order && !HasPath(h.sessions, order[k].target, order[k].portal);
        assert h.sessions[i].portal == first;
      }
    }
  }

  /** A run: the state before each event and after the last, and how logins were
      restored at each. */
  ghost predicate Run(states: seq<Host>, spec: Spec, events: seq<Event>, orders: seq<seq<Favourite>>) {
    && |states| == |events| + 1 && |orders| == |events|
    && forall i :: 0 <= i < |events| ==> Next(states[i], spec, events[i], orders[i], states[i + 1])
  }

  lemma StepGuarded(h: Host, spec: Spec, e: Event, order: seq<Favourite>, h': Host)
    requires Multi(spec) && Guarded(h, spec) && Next(h, spec, e, order, h')
    ensures Guarded(h', spec)
  {
    match e
    case Pass(env) => PassGuarded(h, spec, env);
    case Restart => RestartGuarded(h, spec, order, h');
    case Drop(portal) =>
      DroppedStill(h.sessions, portal);
      var rest := WithoutPortal(h.sessions, portal);
      forall i | !InEffect(h) && 0 <= i < |rest| ensures rest[i].portal == AddressOf(spec.portals[0]) {
        assert rest[i] in h.sessions;
      }
    case Return(portal) => ReturnGuarded(h, spec, portal, order, h');
    case Offers(_) =>
  }

  /** Over every run of passes, restarts and outages from a host without sessions or
      logins to restore: while multipath does not read as in effect, no target has a
      second session. */
  lemma {:induction false} NeverTwoPathsEarly(states: seq<Host>, spec: Spec, events: seq<Event>, orders: seq<seq<Favourite>>)
    requires Multi(spec) && Run(states, spec, events, orders)
    requires states[0].sessions == [] && states[0].favourites == {} && (states[0].driver ==> states[0].installed)
    ensures Guarded(states[|events|], spec)
  {
    if events != [] {
      var n := |events| - 1;
      NeverTwoPathsEarly(states[..n + 1], spec, events[..n], orders[..n]);
      StepGuarded(states[n], spec, events[n], orders[n], states[n + 1]);
    }
  }

  /** What a blank first portal does: it reads as no restriction, and a pass logs in
      through every portal there and then. */
  lemma BlankPortalUnrestricted(spec: Spec, effective: bool)
    requires |spec.portals| > 1
    ensures WantPortals(spec, effective) == Addresses(spec.portals)
        <==> !Required(spec) || effective || AddressOf(spec.portals[0]) == ""
  {
    if WantPortals(spec, effective) == Addresses(spec.portals) {
      assert |WantPortals(spec, effective)| > 1;
    }
  }

  // ---- reading as in effect, and being in effect --------------------------

  /** What reads as in effect is. */
  predicate Honest(h: Host) {
    InEffect(h) ==> Coalesces(h)
  }

  /** A pass makes multipath read as in effect when it is not, if and only if it sets
      the claim on a host whose driver was already running. */
  lemma PassStaysHonestExactlyWhen(h: Host, spec: Spec, env: Env)
    requires Required(spec) && Honest(h) && (h.driver ==> h.installed) && (h.claimAtBoot ==> h.claim)
    ensures Honest(Passed(h, spec, env).0) <==> !(h.driver && !h.claim && env.claimable)
  {
    PassSplits(h, spec, env);
    var (h3, effective) := BeforeLogins(h, spec, env);
    LoginsKeepDriver(h3, Wanted(h3, spec), WantPortals(spec, effective), effective, env, |Wanted(h3, spec)|);
  }

  /** The pass would set the claim under a driver that runs already. */
  predicate ClaimsUnderDriver(h: Host, e: Event) {
    e.Pass? && h.driver && !h.claim && e.env.claimable
  }

  /** What reads as in effect is, and while it is not no target has a second session. */
  predicate Truthful(h: Host, spec: Spec)
    requires Multi(spec)
  {
    Guarded(h, spec) && Honest(h) && (h.claimAtBoot ==> h.claim)
  }

  lemma StepTruthful(h: Host, spec: Spec, e: Event, order: seq<Favourite>, h': Host)
    requires Multi(spec) && Truthful(h, spec) && Next(h, spec, e, order, h') && !ClaimsUnderDriver(h, e)
    ensures Truthful(h', spec)
  {
    StepGuarded(h, spec, e, order, h');
    if e.Pass? {
      PassStaysHonestExactlyWhen(h, spec, e.env);
      PassSplits(h, spec, e.env);
      var (h3, effective) := BeforeLogins(h, spec, e.env);
      LoginsKeepDriver(h3, Wanted(h3, spec), WantPortals(spec, effective), effective, e.env, |Wanted(h3, spec)|);
    }
  }

  /** Over every run of passes, restarts and outages in which no pass sets the claim under
      a running driver: while nothing coalesces its paths - whatever multipath reads as -
      no target has a second session. */
  lemma {:induction false} NeverTwoUncoalesced(states: seq<Host>, spec: Spec, events: seq<Event>, orders: seq<seq<Favourite>>)
    requires Multi(spec) && Run(states, spec, events, orders)
    requires states[0].sessions == [] && states[0].favourites == {} && (states[0].driver ==> states[0].installed)
    requires Honest(states[0]) && (states[0].claimAtBoot ==> states[0].claim)
    requires forall i :: 0 <= i < |events| ==> !ClaimsUnderDriver(states[i], events[i])
    ensures Truthful(states[|events|], spec)
    ensures !Coalesces(states[|events|]) ==> SinglePaths(states[|events|].sessions)
  {
    if events != [] {
      var n := |events| - 1;
      NeverTwoUncoalesced(states[..n + 1], spec, events[..n], orders[..n]);
      StepTruthful(states[n], spec, events[n], orders[n], states[n + 1]);
    }
  }

  /** And in a run that does, whatever came before: if afterwards the portals answer for
      some target and no restart comes, the next pass opens a second session to it that
      nothing coalesces. */
  lemma ClaimUnderDriverOpensPaths(h: Host, spec: Spec, env: Env, h1: Host, next: Env, i: nat, j: nat)
    requires Required(spec) && h.installed && ClaimsUnderDriver(h, Pass(env)) && !h.claimAtBoot && AllPersistent(h.sessions)
    requires h1 == Passed(h, spec, env).0.(up := h1.up, offers := h1.offers)
    requires AllAnswer(h1, Wanted(h1, spec), Addresses(spec.portals)) && Wanted(h1, spec) != [] && next.refusing == {}
    requires i < j < |spec.portals| && AddressOf(spec.portals[i]) != AddressOf(spec.portals[j])
    ensures var h2 := Passed(h1, spec, next).0; !Coalesces(h2) && !SinglePaths(h2.sessions)
  {
    PassSplits(h, spec, env);
    var (h3, effective) := BeforeLogins(h, spec, env);
    LoginsKeepDriver(h3, Wanted(h3, spec), WantPortals(spec, effective), effective, env, |Wanted(h3, spec)|);
    LoginsPersistent(h3, Wanted(h3, spec), WantPortals(spec, effective), effective, env, |Wanted(h3, spec)|);
    assert InEffect(h1) && !h1.claimAtBoot && AllPersistent(h1.sessions);
    forall k | 0 <= k < |spec.portals| ensures AddressOf(spec.portals[k]) in h1.up {
      assert Addresses(spec.portals)[k] in h1.up && (Wanted(h1, spec)[0], Addresses(spec.portals)[k]) in h1.offers;
    }
    OnePassCovers(h1, spec, next, next);
    var h2, t := Passed(h1, spec, next).0, Wanted(h1, spec)[0];
    assert HasPath(h2.sessions, t, Addresses(spec.portals)[i]) && HasPath(h2.sessions, t, Addresses(spec.portals)[j]);
    PassSplits(h1, spec, next);
    var (h4, effective') := BeforeLogins(h1, spec, next);
    LoginsKeepDriver(h4, Wanted(h4, spec), WantPortals(spec, effective'), effective', next, |Wanted(h4, spec)|);
  }

  /** The shortest such run: two passes on a host whose driver runs, with no restart
      between. */
  lemma SecondPassTooEarly(a: string, b: string, t: string, env: Env)
    requires a != b && a != "" && AddressOf(a) == a && AddressOf(b) == b && env == Env(false, true, true, {}, true)
    ensures var spec := Spec([a, b], [t], None);
            var h := Host(true, true, true, false, true, false, {Endpoint(a), Endpoint(b)}, [], {}, {a, b}, {(t, a), (t, b)}, []);
            var h1 := Passed(h, spec, env).0;
            var h2 := Passed(h1, spec, env).0;
            && h1.sessions == [Session(t, a, true, false)]
            && h2.sessions == [Session(t, a, true, false), Session(t, b, true, true)]
            && !Coalesces(h2)
  {
    var spec := Spec([a, b], [t], None);
    var h := Host(true, true, true, false, true, false, {Endpoint(a), Endpoint(b)}, [], {}, {a, b}, {(t, a), (t, b)}, []);
    var s1 := Session(t, a, true, false);
    PortalsKnown(h.(claim := true), spec, env, 2);
    OneLogin(h.(claim := true), t, [a], false, env);
    var h1 := Passed(h, spec, env).0;
    assert h1.sessions == [s1];
    PortalsKnown(h1, spec, env, 2);
    OneLogin(h1, t, [a, b], true, env);
    assert HasPath([s1], t, a) by { assert [s1][0] == s1; }
    assert !HasPath([s1], t, b);
    assert Addresses(spec.portals) == [a, b];
    assert !Fleeting(h1.sessions, t);
    assert Paths(h1, [s1], t, [a, b], true, 0) == (h1, false);
    assert Paths(h1, [s1], t, [a, b], true, 1) == (h1, false);
    assert Paths(h1, [s1], t, [a, b], true, 2).0.sessions == [s1] + [Session(t, b, true, true)];
  }

  lemma {:induction false} PortalsKnown(h: Host, spec: Spec, env: Env, n: nat)
    requires n <= |spec.portals| && forall i :: 0 <= i < |spec.portals| ==> Endpoint(spec.portals[i]) in h.portals
    ensures Portals(h, spec, env, n) == (h, false)
  {
    if n > 0 {
      PortalsKnown(h, spec, env, n - 1);
    }
  }

  lemma OneLogin(h: Host, t: string, want: seq<string>, multi: bool, env: Env)
    requires !Fleeting(h.sessions, t)
    ensures Logins(h, [t], want, multi, env, 1) == Paths(h, Listed(h, env), t, want, multi, |want|)
  {
    assert Logins(h, [t], want, multi, env, 0) == (h, false);
    assert MadePersistent(h, t, env) == (h, false);
  }

  // ---- coverage -----------------------------------------------------------

  predicate AllPersistent(sessions: seq<Session>) {
    forall i :: 0 <= i < |sessions| ==> sessions[i].persistent
  }

  predicate Covers(h: Host, targets: seq<string>, portals: seq<string>, n: nat)
    requires n <= |targets|
  {
    forall t, p :: 0 <= t < n && 0 <= p < |portals| ==> HasPath(h.sessions, targets[t], portals[p])
  }

  /** Every portal answers and would let the host in to every target wanted. */
  predicate AllAnswer(h: Host, targets: seq<string>, portals: seq<string>) {
    forall t, p :: 0 <= t < |targets| && 0 <= p < |portals| ==> portals[p] in h.up && (targets[t], portals[p]) in h.offers
  }

  lemma GrownPath(h: Host, h': Host, target: string, portal: string)
    requires Grows(h, h') && HasPath(h.sessions, target, portal)
    ensures HasPath(h'.sessions, target, portal)
  {
    var i :| 0 <= i < |h.sessions| && h.sessions[i].target == target && h.sessions[i].portal == portal;
    assert h'.sessions[i].target == target && h'.sessions[i].portal == portal;
  }

  lemma PathTurn(h: Host, h1: Host, before: seq<Session>, target: string, portal: string)
    requires portal in h1.up && (target, portal) in h1.offers && Grows(h, h1)
    requires HasPath(before, target, portal) ==> HasPath(h.sessions, target, portal)
    ensures var h2 := if HasPath(before, target, portal) then h1 else Connected(h1, target, portal, true).0;
            Grows(h1, h2) && HasPath(h2.sessions, target, portal)
  {
    if HasPath(before, target, portal) {
      GrownPath(h, h1, target, portal);
    } else {
      var h2 := Connected(h1, target, portal, true).0;
      assert h2.sessions[|h1.sessions|].portal == portal;
    }
  }

  lemma {:induction false} PathsCover(h: Host, before: seq<Session>, target: string, want: seq<string>, m: nat)
    requires m <= |want| && forall p :: 0 <= p < |want| ==> want[p] in h.up && (target, want[p]) in h.offers
    requires forall p :: HasPath(before, target, p) ==> HasPath(h.sessions, target, p)
    ensures forall p :: 0 <= p < m ==> HasPath(Paths(h, before, target, want, true, m).0.sessions, target, want[p])
  {
    if m > 0 {
      PathsCover(h, before, target, want, m - 1);
      PathsGrow(h, before, target, want, true, m - 1);
      PathsKeepDriver(h, before, target, want, true, m - 1);
      var h1 := Paths(h, before, target, want, true, m - 1).0;
      var h2 := Paths(h, before, target, want, true, m).0;
      PathTurn(h, h1, before, target, want[m - 1]);
      forall p | 0 <= p < m - 1 ensures HasPath(h2.sessions, target, want[p]) {
        GrownPath(h1, h2, target, want[p]);
      }
    }
  }

  /** One target's turn: what was covered stays so, and the target is covered too. */
  lemma CoverTurn(h1: Host, h3: Host, wanted: seq<string>, want: seq<string>, env: Env, n: nat)
    requires n < |wanted| && AllAnswer(h1, wanted, want) && Covers(h1, wanted, want, n)
    requires h3 == Paths(MadePersistent(h1, wanted[n], env).0, Listed(h1, env), wanted[n], want, true, |want|).0
    ensures Covers(h3, wanted, want, n + 1)
  {
    var h2 := MadePersistent(h1, wanted[n], env).0;
    MadePersistentGrows(h1, wanted[n], env);
    forall p | HasPath(h1.sessions, wanted[n], p) ensures HasPath(h2.sessions, wanted[n], p) {
      GrownPath(h1, h2, wanted[n], p);
    }
    PathsCover(h2, Listed(h1, env), wanted[n], want, |want|);
    PathsGrow(h2, Listed(h1, env), wanted[n], want, true, |want|);
    GrowsOn(h1, h2, h3);
    StaysCovered(h1, h3, wanted, want, n);
    CoversNext(h3, wanted, want, n);
  }

  lemma GrowsOn(a: Host, b: Host, c: Host)
    requires Grows(a, b) && Grows(b, c)
    ensures Grows(a, c)
  {
  }

  lemma CoversNext(h: Host, targets: seq<string>, portals: seq<string>, n: nat)
    requires n < |targets| && Covers(h, targets, portals, n) && forall p :: 0 <= p < |portals| ==> HasPath(h.sessions, targets[n], portals[p])
    ensures Covers(h, targets, portals, n + 1)
  {
  }

  lemma StaysCovered(h: Host, h': Host, targets: seq<string>, portals: seq<string>, n: nat)
    requires n <= |targets| && Grows(h, h') && Covers(h, targets, portals, n)
    ensures Covers(h', targets, portals, n)
  {
    forall t, p | 0 <= t < n && 0 <= p < |portals| ensures HasPath(h'.sessions, targets[t], portals[p]) {
      GrownPath(h, h', targets[t], portals[p]);
    }
  }

  lemma LoginsNext(h: Host, wanted: seq<string>, want: seq<string>, env: Env, n: nat, h1: Host)
    requires n < |wanted| && h1 == Logins(h, wanted, want, true, env, n).0 && AllAnswer(h, wanted, want)
    ensures AllAnswer(h1, wanted, want)
    ensures Logins(h, wanted, want, true, env, n + 1).0
         == Paths(MadePersistent(h1, wanted[n], env).0, Listed(h1, env), wanted[n], want, true, |want|).0
  {
    LoginsKeepDriver(h, wanted, want, true, env, n);
  }

  lemma {:induction false} LoginsCover(h: Host, wanted: seq<string>, want: seq<string>, env: Env, n: nat)
    requires n <= |wanted| && AllAnswer(h, wanted, want)
    ensures Covers(Logins(h, wanted, want, true, env, n).0, wanted, want, n)
  {
    if n > 0 {
      LoginsCover(h, wanted, want, env, n - 1);
      var h1 := Logins(h, wanted, want, true, env, n - 1).0;
      LoginsNext(h, wanted, want, env, n - 1, h1);
      CoverTurn(h1, Logins(h, wanted, want, true, env, n).0, wanted, want, env, n - 1);
    }
  }

  lemma {:induction false} PathsQuiet(h: Host, target: string, want: seq<string>, multi: bool, m: nat)
    requires m <= |want| && forall p :: 0 <= p < |want| ==> HasPath(h.sessions, target, want[p])
    ensures Paths(h, h.sessions, target, want, multi, m) == (h, false)
  {
    if m > 0 {
      PathsQuiet(h, target, want, multi, m - 1);
    }
  }

  lemma {:induction false} LoginsQuiet(h: Host, wanted: seq<string>, want: seq<string>, multi: bool, env: Env, n: nat)
    requires n <= |wanted| && Covers(h, wanted, want, |wanted|) && AllPersistent(h.sessions) && env.listed
    ensures Logins(h, wanted, want, multi, env, n) == (h, false)
  {
    if n > 0 {
      LoginsQuiet(h, wanted, want, multi, env, n - 1);
      PathsQuiet(h, wanted[n - 1], want, multi, |want|);
      assert MadePersistent(h, wanted[n - 1], env) == (h, false);
    }
  }

  lemma {:induction false} PathsPersistent(h: Host, before: seq<Session>, target: string, want: seq<string>, multi: bool, m: nat)
    requires m <= |want| && AllPersistent(h.sessions)
    ensures AllPersistent(Paths(h, before, target, want, multi, m).0.sessions)
  {
    if m > 0 {
      PathsPersistent(h, before, target, want, multi, m - 1);
    }
  }

  lemma {:induction false} LoginsPersistent(h: Host, wanted: seq<string>, want: seq<string>, multi: bool, env: Env, n: nat)
    requires n <= |wanted| && AllPersistent(h.sessions)
    ensures AllPersistent(Logins(h, wanted, want, multi, env, n).0.sessions)
  {
    if n > 0 {
      LoginsPersistent(h, wanted, want, multi, env, n - 1);
      var h1 := Logins(h, wanted, want, multi, env, n - 1).0;
      assert MadePersistent(h1, wanted[n - 1], env) == (h1, false);
      PathsPersistent(h1, Listed(h1, env), wanted[n - 1], want, multi, |want|);
    }
  }

  /** Once multipath is in effect and every portal answers, one pass covers every pair of
      target and portal, and the next reports no change. */
  lemma OnePassCovers(h: Host, spec: Spec, env: Env, next: Env)
    requires Required(spec) && InEffect(h) && AllPersistent(h.sessions)
    requires AllAnswer(h, Wanted(h, spec), Addresses(spec.portals)) && env.refusing == {}
    requires forall i :: 0 <= i < |spec.portals| ==> AddressOf(spec.portals[i]) in h.up
    ensures var h1 := Passed(h, spec, env).0;
            && Covers(h1, Wanted(h, spec), Addresses(spec.portals), |Wanted(h, spec)|)
            && (next.listed ==> Passed(h1, spec, next) == (h1, false))
  {
    PassSplits(h, spec, env);
    var (h3, effective) := BeforeLogins(h, spec, env);
    var wanted, want := Wanted(h3, spec), Addresses(spec.portals);
    LoginsCover(h3, wanted, want, env, |wanted|);
    LoginsPersistent(h3, wanted, want, true, env, |wanted|);
    LoginsKeepDriver(h3, wanted, want, true, env, |wanted|);
    var h1 := Passed(h, spec, env).0;
    AllRegistered(h, spec, env);
    PortalsKnown(h1, spec, next, |spec.portals|);
    if next.listed {
      LoginsQuiet(h1, wanted, want, true, next, |wanted|);
    }
    assert ServiceUp(h1) == (h1, false) && Multipathed(h1, next) == (h1, false, false);
  }

  lemma AllRegistered(h: Host, spec: Spec, env: Env)
    requires env.refusing == {} && forall i :: 0 <= i < |spec.portals| ==> AddressOf(spec.portals[i]) in h.up
    ensures forall i :: 0 <= i < |spec.portals| ==> Endpoint(spec.portals[i]) in BeforeLogins(h, spec, env).0.portals
  {
    var h1 := ServiceUp(h).0;
    var (h2, _, _) := if Required(spec) then Multipathed(h1, env) else (h1, false, false);
    RegistersUpTo(h2, spec, env, |spec.portals|);
  }

  lemma {:induction false} RegistersUpTo(h: Host, spec: Spec, env: Env, n: nat)
    requires n <= |spec.portals| && env.refusing == {} && forall i :: 0 <= i < |spec.portals| ==> AddressOf(spec.portals[i]) in h.up
    ensures forall i :: 0 <= i < n ==> Endpoint(spec.portals[i]) in Portals(h, spec, env, n).0.portals
    ensures Portals(h, spec, env, n).0.up == h.up
  {
    if n > 0 {
      RegistersUpTo(h, spec, env, n - 1);
      AddedIsThere(Portals(h, spec, env, n - 1).0, spec.portals[n - 1], env);
    }
  }

  lemma AddedIsThere(h: Host, p: string, env: Env)
    requires AddressOf(p) in h.up && p !in env.refusing
    ensures var h1 := PortalAdded(h, p, env).0; Endpoint(p) in h1.portals && h.portals <= h1.portals && h1.up == h.up
  {
  }

  /** From no sessions, every session of a run is persistent, so the precondition of
      that holds of any state a run reaches. */
  lemma {:induction false} RunStaysPersistent(states: seq<Host>, spec: Spec, events: seq<Event>, orders: seq<seq<Favourite>>)
    requires Run(states, spec, events, orders) && AllPersistent(states[0].sessions)
    ensures AllPersistent(states[|events|].sessions)
  {
    if events != [] {
      var n := |events| - 1;
      RunStaysPersistent(states[..n + 1], spec, events[..n], orders[..n]);
      StepPersistent(states[n], spec, events[n], orders[n], states[n + 1]);
    }
  }

  lemma StepPersistent(h: Host, spec: Spec, e: Event, order: seq<Favourite>, h': Host)
    requires AllPersistent(h.sessions) && Next(h, spec, e, order, h')
    ensures AllPersistent(h'.sessions)
  {
    match e
    case Pass(env) =>
      PassSplits(h, spec, env);
      var (h3, effective) := BeforeLogins(h, spec, env);
      LoginsPersistent(h3, Wanted(h3, spec), WantPortals(spec, effective), effective, env, |Wanted(h3, spec)|);
    case Restart => RestoredPersistent(order, h.up);
    case Drop(portal) =>
      DroppedStill(h.sessions, portal);
      forall i | 0 <= i < |h'.sessions| ensures h'.sessions[i].persistent {
        assert h'.sessions[i] in h.sessions;
      }
    case Return(portal) => RestoredPersistent(order, h.up + {portal});
    case Offers(_) =>
  }

  lemma {:induction false} RestoredPersistent(favs: seq<Favourite>, up: set<string>)
    ensures AllPersistent(Restored(favs, up))
  {
    if favs != [] {
      RestoredPersistent(favs[..|favs| - 1], up);
    }
  }
}
