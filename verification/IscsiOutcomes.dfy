/** What one pass leaves on the host, told from the host as it was, the declaration and what
    the pass meets. */
module IscsiOutcomes {
  import opened Wrappers
  import opened Text
  import opened Iscsi
  import opened IscsiRuns

  // ---- portals and multipath ----------------------------------------------

  /** The portal answers, does not refuse discovery, and registers as e. */
  predicate Takes(h: Host, env: Env, portal: string, e: string) {
    Endpoint(portal) == e && AddressOf(portal) in h.up && portal !in env.refusing
  }

  /** One of the first n declared portals does. */
  predicate Registers(h: Host, spec: Spec, env: Env, n: nat, e: string) {
    exists i :: 0 <= i < n <= |spec.portals| && Takes(h, env, spec.portals[i], e)
  }

  lemma RegistersNext(h: Host, spec: Spec, env: Env, n: nat, e: string)
    requires n < |spec.portals|
    ensures var p := spec.portals[n];
            Registers(h, spec, env, n + 1, e) <==> Registers(h, spec, env, n, e) || Takes(h, env, p, e)
  {
  }

  /** Only portals are added: these are e among them, and whether any was. */
  predicate PortalsOnly(h: Host, h': Host, changed: bool) {
    h' == h.(portals := h'.portals) && (changed <==> h'.portals != h.portals) && h.portals <= h'.portals
  }

  lemma PortalTurn(h: Host, h1: Host, c1: bool, p: string, env: Env, e: string)
    requires PortalsOnly(h, h1, c1)
    ensures var (h2, added) := PortalAdded(h1, p, env);
            PortalsOnly(h, h2, c1 || added) && (e in h2.portals <==> e in h1.portals || Takes(h, env, p, e))
  {
    var (h2, added) := PortalAdded(h1, p, env);
    if added {
      assert Endpoint(p) in h2.portals && Endpoint(p) !in h.portals;
    }
  }

  predicate PortalsAfter(h: Host, spec: Spec, env: Env, n: nat, e: string, now: (Host, bool)) {
    PortalsOnly(h, now.0, now.1) && (e in now.0.portals <==> e in h.portals || Registers(h, spec, env, n, e))
  }

  lemma PortalsTurn(h: Host, spec: Spec, env: Env, n: nat, e: string, now: (Host, bool))
    requires n < |spec.portals| && now == Portals(h, spec, env, n) && PortalsAfter(h, spec, env, n, e, now)
    ensures PortalsAfter(h, spec, env, n + 1, e, Portals(h, spec, env, n + 1))
  {
    RegistersNext(h, spec, env, n, e);
    PortalTurn(h, now.0, now.1, spec.portals[n], env, e);
    PortalsNext(h, spec, env, n, now, PortalAdded(now.0, spec.portals[n], env));
  }

  lemma {:induction false} PortalsAre(h: Host, spec: Spec, env: Env, n: nat, e: string)
    requires n <= |spec.portals|
    ensures PortalsAfter(h, spec, env, n, e, Portals(h, spec, env, n))
  {
    if n == 0 {
      assert Portals(h, spec, env, 0) == (h, false);
    } else {
      PortalsAre(h, spec, env, n - 1, e);
      PortalsTurn(h, spec, env, n - 1, e, Portals(h, spec, env, n - 1));
    }
  }

  /** A portal written without a port registers with the default one. */
  lemma DefaultPort(portal: string)
    requires ':' !in portal
    ensures AddressOf(portal) == portal && Endpoint(portal) == portal + ":3260"
  {
    assert PortColon(portal, |portal|).None?;
  }

  // ---- sessions -----------------------------------------------------------

  /** A session that a pass may add: to a target and through a portal that are wanted, where
      the portal answers and lets the host in; and unless it is one of several, to a target
      that has none. */
  predicate MayAdd(h: Host, s: Session, targets: seq<string>, want: seq<string>, multi: bool) {
    && s.target in targets && s.portal in want && s.portal in h.up && (s.target, s.portal) in h.offers
    && s.persistent && s.multipath == multi && (!multi ==> !HasSession(h.sessions, s.target))
  }

  predicate AddsOnly(h: Host, h': Host, targets: seq<string>, want: seq<string>, multi: bool, listed: bool) {
    && |h.sessions| <= |h'.sessions|
    && (forall k :: |h.sessions| <= k < |h'.sessions| ==>
          && MayAdd(h, h'.sessions[k], targets, want, multi)
          && (listed ==> !HasPath(h.sessions, h'.sessions[k].target, h'.sessions[k].portal)))
    && (!multi ==> forall k, l :: |h.sessions| <= k < l < |h'.sessions| ==> h'.sessions[k].target != h'.sessions[l].target)
  }

  function FavouriteOf(s: Session): Favourite {
    Favourite(s.target, s.portal, s.multipath)
  }

  /** Where the logins through the first portals leave the host. */
  predicate Added(h: Host, h': Host, changed: bool, before: seq<Session>, target: string, want: seq<string>, multi: bool) {
    var c := |h.sessions|;
    && OnlySessions(h, h') && c <= |h'.sessions| && h'.sessions[..c] == h.sessions
    && (forall k :: c <= k < |h'.sessions| ==> MayAdd(h, h'.sessions[k], [target], want, multi) && !HasPath(before, target, h'.sessions[k].portal))
    && (!multi ==> |h'.sessions| <= c + 1)
    && (changed <==> |h'.sessions| > c)
  }

  lemma ConnectAdds(h: Host, h1: Host, c1: bool, before: seq<Session>, target: string, want: seq<string>, multi: bool, portal: string)
    requires Added(h, h1, c1, before, target, want, multi) && portal in want && !HasPath(before, target, portal)
    ensures var (h2, ok) := Connected(h1, target, portal, multi); Added(h, h2, c1 || ok, before, target, want, multi)
  {
    var (h2, ok) := Connected(h1, target, portal, multi);
    if |h1.sessions| > |h.sessions| {
      assert MayAdd(h, h1.sessions[|h.sessions|], [target], want, multi);
      assert HasSession(h1.sessions, target) by { assert h1.sessions[|h.sessions|].target == target; }
    }
    if ok {
      assert h2.sessions[..|h.sessions|] == h1.sessions[..|h.sessions|];
      assert forall k :: 0 <= k < |h.sessions| ==> h1.sessions[k] == h1.sessions[..|h.sessions|][k];
      if !multi {
        SessionsLast(h, h1, target, portal);
      }
    }
  }

  lemma {:induction false} PathsAdd(h: Host, before: seq<Session>, target: string, want: seq<string>, multi: bool, m: nat)
    requires m <= |want|
    ensures var (h', changed) := Paths(h, before, target, want, multi, m); Added(h, h', changed, before, target, want, multi)
  {
    if m == 0 {
      assert h.sessions[..|h.sessions|] == h.sessions;
    } else {
      PathsAdd(h, before, target, want, multi, m - 1);
      var (h1, c1) := Paths(h, before, target, want, multi, m - 1);
      if !HasPath(before, target, want[m - 1]) {
        ConnectAdds(h, h1, c1, before, target, want, multi, want[m - 1]);
      }
    }
  }

  lemma {:induction false} PathsFavour(h: Host, before: seq<Session>, target: string, want: seq<string>, multi: bool, m: nat, f: Favourite)
    requires m <= |want|
    ensures var h' := Paths(h, before, target, want, multi, m).0;
            |h.sessions| <= |h'.sessions| &&
            (f in h'.favourites <==> f in h.favourites || exists k :: |h.sessions| <= k < |h'.sessions| && FavouriteOf(h'.sessions[k]) == f)
  {
    if m > 0 {
      PathsFavour(h, before, target, want, multi, m - 1, f);
      var h1, h2 := Paths(h, before, target, want, multi, m - 1).0, Paths(h, before, target, want, multi, m).0;
      if h2 != h1 {
        assert h2.sessions[|h1.sessions|] == Session(target, want[m - 1], true, multi);
        if k :| |h.sessions| <= k < |h1.sessions| && FavouriteOf(h1.sessions[k]) == f {
          assert h2.sessions[k] == h1.sessions[k];
        }
      }
    }
  }

  /** A session of a wanted target is made persistent where they are listed and can be. */
  function KeptAs(s: Session, targets: seq<string>, env: Env): Session {
    if s.target in targets && env.listed && env.registers then s.(persistent := true) else s
  }

  predicate OldOnes(h: Host, h': Host, targets: seq<string>, env: Env) {
    |h.sessions| <= |h'.sessions| && forall i :: 0 <= i < |h.sessions| ==> h'.sessions[i] == KeptAs(h.sessions[i], targets, env)
  }

  /** The logins to restore are those there were, and those of the sessions that came or were
      made persistent. */
  ghost predicate Restores(h: Host, h': Host, f: Favourite) {
    f in h'.favourites <==>
      || f in h.favourites
      || exists k: nat :: NewlyKept(h, h', k, f)
  }

  lemma MadePersistentIs(h: Host, target: string, env: Env)
    ensures var (h', changed) := MadePersistent(h, target, env);
            && OnlySessions(h, h') && |h'.sessions| == |h.sessions|
            && (forall i :: 0 <= i < |h.sessions| ==> h'.sessions[i] == KeptAs(h.sessions[i], [target], env))
            && (changed <==> h'.sessions != h.sessions)
  {
    var h' := MadePersistent(h, target, env).0;
    if env.listed && env.registers && Fleeting(h.sessions, target) {
      var i :| 0 <= i < |h.sessions| && h.sessions[i].target == target && !h.sessions[i].persistent;
      assert h'.sessions[i] == Registered(h.sessions[i], target) != h.sessions[i];
    } else {
      NotFleeting(h, target, env);
    }
  }

  lemma NotFleeting(h: Host, target: string, env: Env)
    requires !(env.listed && env.registers && Fleeting(h.sessions, target))
    ensures forall i :: 0 <= i < |h.sessions| ==> h.sessions[i] == KeptAs(h.sessions[i], [target], env)
  {
  }

  /** Three steps of one target's turn: as it was before all turns, before this one, and with
      its sessions made persistent; and after it. */
  predicate Turn(h1: Host, h2: Host, h3: Host, target: string, want: seq<string>, multi: bool, env: Env) {
    && h2 == MadePersistent(h1, target, env).0
    && h3 == Paths(h2, Listed(h1, env), target, want, multi, |want|).0
  }

  lemma OldTurn(h: Host, h1: Host, h2: Host, h3: Host, targets: seq<string>, target: string, want: seq<string>, multi: bool, env: Env)
    requires Turn(h1, h2, h3, target, want, multi, env) && OldOnes(h, h1, targets, env)
    ensures OldOnes(h, h3, targets + [target], env) && OnlySessions(h1, h3) && |h1.sessions| == |h2.sessions| <= |h3.sessions|
    ensures forall k :: 0 <= k < |h1.sessions| ==> h3.sessions[k] == KeptAs(h1.sessions[k], [target], env)
  {
    MadePersistentIs(h1, target, env);
    PathsAdd(h2, Listed(h1, env), target, want, multi, |want|);
    assert forall k :: 0 <= k < |h1.sessions| ==> h3.sessions[k] == h3.sessions[..|h2.sessions|][k];
  }

  lemma AddTurn(h: Host, h1: Host, h2: Host, h3: Host, targets: seq<string>, target: string, want: seq<string>, multi: bool, env: Env)
    requires Turn(h1, h2, h3, target, want, multi, env) && OldOnes(h, h1, targets, env) && OnlySessions(h, h1)
    requires AddsOnly(h, h1, targets, want, multi, env.listed)
    ensures AddsOnly(h, h3, targets + [target], want, multi, env.listed)
  {
    OldTurn(h, h1, h2, h3, targets, target, want, multi, env);
    MadePersistentIs(h1, target, env);
    PathsAdd(h2, Listed(h1, env), target, want, multi, |want|);
    forall k | |h1.sessions| <= k < |h3.sessions|
      ensures MayAdd(h, h3.sessions[k], targets + [target], want, multi)
      ensures env.listed ==> !HasPath(h.sessions, h3.sessions[k].target, h3.sessions[k].portal)
      ensures !multi ==> !HasSession(h1.sessions, target)
    {
      assert MayAdd(h2, h3.sessions[k], [target], want, multi);
      SessionsLast(h, h1, target, h3.sessions[k].portal);
      SessionsLast(h1, h2, target, h3.sessions[k].portal);
    }
    forall k | |h.sessions| <= k < |h1.sessions| ensures h3.sessions[k] == h1.sessions[k] {
    }
  }

  lemma SessionsLast(h: Host, h': Host, target: string, portal: string)
    requires |h.sessions| <= |h'.sessions|
    requires forall i :: 0 <= i < |h.sessions| ==> h'.sessions[i].target == h.sessions[i].target && h'.sessions[i].portal == h.sessions[i].portal
    ensures HasSession(h.sessions, target) ==> HasSession(h'.sessions, target)
    ensures HasPath(h.sessions, target, portal) ==> HasPath(h'.sessions, target, portal)
  {
    if i :| 0 <= i < |h.sessions| && h.sessions[i].target == target {
      assert h'.sessions[i].target == target;
    }
    if i :| 0 <= i < |h.sessions| && h.sessions[i].target == target && h.sessions[i].portal == portal {
      assert h'.sessions[i].target == target && h'.sessions[i].portal == portal;
    }
  }

  /** The session is there, persistent, and was not so to begin with. */
  predicate NewlyKept(h: Host, h': Host, k: nat, f: Favourite) {
    && k < |h'.sessions| && FavouriteOf(h'.sessions[k]) == f && h'.sessions[k].persistent
    && !(k < |h.sessions| && h.sessions[k].persistent)
  }

  lemma FavourKept(h: Host, h1: Host, h2: Host, targets: seq<string>, target: string, env: Env, f: Favourite)
    requires h2 == MadePersistent(h1, target, env).0 && Restores(h, h1, f) && OldOnes(h, h1, targets, env)
    requires forall k :: |h.sessions| <= k < |h1.sessions| ==> h1.sessions[k].persistent
    ensures Restores(h, h2, f)
  {
    PersistentFavour(h1, target, env, f);
    MadePersistentIs(h1, target, env);
    assert forall k :: 0 <= k < |h1.sessions| ==> FavouriteOf(h2.sessions[k]) == FavouriteOf(h1.sessions[k]);
    assert forall k: nat :: NewlyKept(h, h1, k, f) ==> NewlyKept(h, h2, k, f);
    assert forall k: nat :: NewlyKept(h1, h2, k, f) && k < |h1.sessions| ==> NewlyKept(h, h2, k, f);
    assert forall k: nat :: NewlyKept(h, h2, k, f) ==> NewlyKept(h, h1, k, f) || NewlyKept(h1, h2, k, f);
  }

  lemma FavourAdded(h: Host, h2: Host, h3: Host, before: seq<Session>, target: string, want: seq<string>, multi: bool, f: Favourite)
    requires h3 == Paths(h2, before, target, want, multi, |want|).0 && |h.sessions| <= |h2.sessions| && Restores(h, h2, f)
    ensures Restores(h, h3, f)
  {
    PathsAdd(h2, before, target, want, multi, |want|);
    PathsFavour(h2, before, target, want, multi, |want|, f);
    assert forall k :: 0 <= k < |h2.sessions| ==> h3.sessions[k] == h3.sessions[..|h2.sessions|][k];
    assert forall k: nat :: NewlyKept(h, h2, k, f) ==> NewlyKept(h, h3, k, f);
    assert forall k :: |h2.sessions| <= k < |h3.sessions| && FavouriteOf(h3.sessions[k]) == f ==> NewlyKept(h, h3, k, f);
    assert forall k: nat :: NewlyKept(h, h3, k, f) && k < |h2.sessions| ==> NewlyKept(h, h2, k, f);
  }

  lemma FavourTurn(h: Host, h1: Host, h2: Host, h3: Host, targets: seq<string>, target: string, want: seq<string>, multi: bool, env: Env, f: Favourite)
    requires Turn(h1, h2, h3, target, want, multi, env) && OldOnes(h, h1, targets, env) && AddsOnly(h, h1, targets, want, multi, env.listed)
    requires Restores(h, h1, f)
    ensures Restores(h, h3, f)
  {
    MadePersistentIs(h1, target, env);
    forall k | |h.sessions| <= k < |h1.sessions| ensures h1.sessions[k].persistent {
      assert MayAdd(h, h1.sessions[k], targets, want, multi);
    }
    FavourKept(h, h1, h2, targets, target, env, f);
    FavourAdded(h, h2, h3, Listed(h1, env), target, want, multi, f);
  }

  lemma PersistentFavour(h: Host, target: string, env: Env, f: Favourite)
    ensures Restores(h, MadePersistent(h, target, env).0, f)
  {
    var h' := MadePersistent(h, target, env).0;
    MadePersistentIs(h, target, env);
    if f in h'.favourites && f !in h.favourites {
      assert f in Favourites(h.sessions, target) && env.listed && env.registers;
      var k :| 0 <= k < |h.sessions| && h.sessions[k].target == target && !h.sessions[k].persistent && f == FavouriteOf(h.sessions[k]);
      assert h.sessions[k].target in [target] && FavouriteOf(h'.sessions[k]) == FavouriteOf(h.sessions[k]);
      assert NewlyKept(h, h', k, f);
    }
    if k: nat :| NewlyKept(h, h', k, f) {
      assert h'.sessions[k] != h.sessions[k] && h.sessions[k].target == target;
      assert FavouriteOf(h.sessions[k]) == f && f in Favourites(h.sessions, target);
    }
  }

  /** Where the logins to the first n targets leave the host. */
  ghost predicate LoggedIn(h: Host, h': Host, changed: bool, targets: seq<string>, want: seq<string>, multi: bool, env: Env) {
    && OnlySessions(h, h') && OldOnes(h, h', targets, env) && AddsOnly(h, h', targets, want, multi, env.listed)
    && (changed <==> h'.sessions != h.sessions)
  }

  lemma LoginTurn(h: Host, h1: Host, h2: Host, h3: Host, c1: bool, c3: bool, targets: seq<string>, target: string, want: seq<string>, multi: bool, env: Env)
    requires Turn(h1, h2, h3, target, want, multi, env) && LoggedIn(h, h1, c1, targets, want, multi, env)
    requires c3 == (c1 || MadePersistent(h1, target, env).1 || Paths(h2, Listed(h1, env), target, want, multi, |want|).1)
    ensures LoggedIn(h, h3, c3, targets + [target], want, multi, env)
  {
    OldTurn(h, h1, h2, h3, targets, target, want, multi, env);
    AddTurn(h, h1, h2, h3, targets, target, want, multi, env);
    MadePersistentIs(h1, target, env);
    PathsAdd(h2, Listed(h1, env), target, want, multi, |want|);
    if |h3.sessions| == |h2.sessions| {
      assert h3.sessions[..|h2.sessions|] == h3.sessions;
    }
    if h1.sessions != h.sessions && |h1.sessions| == |h.sessions| {
      var i :| 0 <= i < |h.sessions| && h1.sessions[i] != h.sessions[i];
      assert h3.sessions[i] != h.sessions[i];
    }
  }

  lemma {:induction false} LoginsLeave(h: Host, wanted: seq<string>, want: seq<string>, multi: bool, env: Env, n: nat, f: Favourite)
    requires n <= |wanted|
    ensures var (h', changed) := Logins(h, wanted, want, multi, env, n);
            LoggedIn(h, h', changed, wanted[..n], want, multi, env) && Restores(h, h', f)
  {
    if n > 0 {
      LoginsLeave(h, wanted, want, multi, env, n - 1, f);
      var (h1, c1) := Logins(h, wanted, want, multi, env, n - 1);
      var h2 := MadePersistent(h1, wanted[n - 1], env).0;
      var (h3, c3) := Logins(h, wanted, want, multi, env, n);
      assert wanted[..n] == wanted[..n - 1] + [wanted[n - 1]];
      LoginTurn(h, h1, h2, h3, c1, c3, wanted[..n - 1], wanted[n - 1], want, multi, env);
      FavourTurn(h, h1, h2, h3, wanted[..n - 1], wanted[n - 1], want, multi, env, f);
    }
  }

  // ---- which pairs get a session ------------------------------------------

  /** A portal that lets the host in to the target gets it a session: one of its own if there
      may be several, and any at all if not. */
  predicate Gets(sessions: seq<Session>, target: string, portal: string, multi: bool) {
    if multi then HasPath(sessions, target, portal) else HasSession(sessions, target)
  }

  lemma ConnectReaches(h: Host, target: string, portal: string, multi: bool)
    requires portal in h.up && (target, portal) in h.offers
    ensures Gets(Connected(h, target, portal, multi).0.sessions, target, portal, multi)
  {
    var h' := Connected(h, target, portal, multi).0;
    if h' != h {
      assert h'.sessions[|h.sessions|] == Session(target, portal, true, multi);
    }
  }

  lemma PathsPrefix(h: Host, before: seq<Session>, target: string, want: seq<string>, multi: bool, m: nat)
    requires m <= |want|
    ensures var h' := Paths(h, before, target, want, multi, m).0;
            OnlySessions(h, h') && |h.sessions| <= |h'.sessions| && forall k :: 0 <= k < |h.sessions| ==> h'.sessions[k] == h.sessions[k]
  {
    PathsAdd(h, before, target, want, multi, m);
    var h' := Paths(h, before, target, want, multi, m).0;
    assert forall k :: 0 <= k < |h.sessions| ==> h'.sessions[k] == h'.sessions[..|h.sessions|][k];
  }

  lemma PathsNext(h: Host, before: seq<Session>, target: string, want: seq<string>, multi: bool, m: nat, h1: Host)
    requires m < |want| && h1 == Paths(h, before, target, want, multi, m).0
    ensures var h2 := Paths(h, before, target, want, multi, m + 1).0;
            && h2 == (if HasPath(before, target, want[m]) then h1 else Connected(h1, target, want[m], multi).0)
            && |h1.sessions| <= |h2.sessions| && forall k :: 0 <= k < |h1.sessions| ==> h2.sessions[k] == h1.sessions[k]
  {
  }

  lemma {:induction false} PathsReach(h: Host, before: seq<Session>, target: string, want: seq<string>, multi: bool, m: nat, i: nat)
    requires i < m <= |want| && want[i] in h.up && (target, want[i]) in h.offers
    requires HasPath(before, target, want[i]) ==> Gets(h.sessions, target, want[i], multi)
    ensures Gets(Paths(h, before, target, want, multi, m).0.sessions, target, want[i], multi)
  {
    var h1 := Paths(h, before, target, want, multi, m - 1).0;
    PathsPrefix(h, before, target, want, multi, m - 1);
    PathsNext(h, before, target, want, multi, m - 1, h1);
    if i < m - 1 {
      PathsReach(h, before, target, want, multi, m - 1, i);
      SessionsLast(h1, Paths(h, before, target, want, multi, m).0, target, want[i]);
    } else if HasPath(before, target, want[i]) {
      SessionsLast(h, h1, target, want[i]);
    } else {
      ConnectReaches(h1, target, want[i], multi);
    }
  }

  lemma {:induction false} LoginsReach(h: Host, wanted: seq<string>, want: seq<string>, multi: bool, env: Env, n: nat, t: nat, i: nat)
    requires t < n <= |wanted| && i < |want| && want[i] in h.up && (wanted[t], want[i]) in h.offers
    ensures Gets(Logins(h, wanted, want, multi, env, n).0.sessions, wanted[t], want[i], multi)
  {
    var h1, h3 := Logins(h, wanted, want, multi, env, n - 1).0, Logins(h, wanted, want, multi, env, n).0;
    var h2 := MadePersistent(h1, wanted[n - 1], env).0;
    LoginsKeepDriver(h, wanted, want, multi, env, n - 1);
    MadePersistentIs(h1, wanted[n - 1], env);
    PathsPrefix(h2, Listed(h1, env), wanted[n - 1], want, multi, |want|);
    if t < n - 1 {
      LoginsReach(h, wanted, want, multi, env, n - 1, t, i);
      SessionsLast(h1, h3, wanted[t], want[i]);
    } else {
      SessionsLast(h1, h2, wanted[t], want[i]);
      if HasPath(Listed(h1, env), wanted[t], want[i]) {
        var k :| 0 <= k < |h1.sessions| && h1.sessions[k].target == wanted[t] && h1.sessions[k].portal == want[i];
        assert h2.sessions[k].target == wanted[t] && h2.sessions[k].portal == want[i];
      }
      PathsReach(h2, Listed(h1, env), wanted[t], want, multi, |want|, i);
    }
  }

  // ---- the pass -----------------------------------------------------------

  /** Several portals are declared, or multipath asked for. */
  predicate Several(spec: Spec) {
    |spec.portals| > 1 || spec.enableMpio == Some(true)
  }

  /** A pass counts multipath as in effect: it is required, was claimed before under a driver
      that runs, and its feature was installed or asks for no restart. */
  predicate Effective(h: Host, spec: Spec, env: Env) {
    Several(spec) && h.claim && h.driver && (h.installed || !env.restart)
  }

  /** The targets a pass logs in to, and the portals it does so through. */
  function Targets(h: Host, spec: Spec): seq<string> {
    if |spec.targets| == 0 then h.advertised else spec.targets
  }

  predicate Through(h: Host, spec: Spec, env: Env, portal: string) {
    if |spec.portals| > 1 && !Effective(h, spec, env) && AddressOf(spec.portals[0]) != "" then portal == AddressOf(spec.portals[0])
    else exists i :: 0 <= i < |spec.portals| && portal == AddressOf(spec.portals[i])
  }

  lemma SetUpIs(h: Host, spec: Spec, env: Env)
    ensures var (h1, c1) := ServiceUp(h);
            var (h2, c2, reboot) := if Required(spec) then Multipathed(h1, env) else (h1, false, false);
            && h2 == h.(automatic := true, running := true, installed := h.installed || Several(spec), claim := h.claim || (Several(spec) && env.claimable))
            && (c1 || c2 <==> h2 != h)
            && (Required(spec) && InEffect(h2) && !reboot <==> Effective(h, spec, env))
  {
  }

  lemma ThroughIs(h: Host, spec: Spec, env: Env, p: string)
    ensures p in WantPortals(spec, Effective(h, spec, env)) <==> Through(h, spec, env, p)
  {
    assert forall i :: 0 <= i < |spec.portals| ==> Addresses(spec.portals)[i] == AddressOf(spec.portals[i]);
  }

  lemma PassIs(h: Host, spec: Spec, env: Env) returns (h3: Host, want: seq<string>)
    ensures h3 == h.(automatic := true, running := true, installed := h.installed || Several(spec),
                     claim := h.claim || (Several(spec) && env.claimable), portals := h3.portals)
    ensures forall e :: e in h3.portals <==> e in h.portals || Registers(h, spec, env, |spec.portals|, e)
    ensures forall p :: p in want <==> Through(h, spec, env, p)
    ensures var (l, joined) := Logins(h3, Targets(h, spec), want, Effective(h, spec, env), env, |Targets(h, spec)|);
            Passed(h, spec, env).0 == l && (Passed(h, spec, env).1 <==> joined || h3 != h)
  {
    SetUpIs(h, spec, env);
    var h1 := ServiceUp(h).0;
    var h2 := if Required(spec) then Multipathed(h1, env).0 else h1;
    h3 := Portals(h2, spec, env, |spec.portals|).0;
    forall e ensures e in h3.portals <==> e in h.portals || Registers(h, spec, env, |spec.portals|, e) {
      PortalsAre(h2, spec, env, |spec.portals|, e);
      assert forall p :: Takes(h2, env, p, e) <==> Takes(h, env, p, e);
    }
    PortalsAre(h2, spec, env, |spec.portals|, "");
    want := WantPortals(spec, Effective(h, spec, env));
    forall p ensures p in want <==> Through(h, spec, env, p) {
      ThroughIs(h, spec, env, p);
    }
  }

  /** Everything else than sessions and the logins to restore: the service is up, the feature
      installed and claimed if multipath is required and its commands are usable; and what is
      registered is what was, and every declared portal that answers and does not refuse. */
  lemma PassSetsUp(h: Host, spec: Spec, env: Env, e: string)
    ensures var h' := Passed(h, spec, env).0;
            && h'.automatic && h'.running && (h'.installed <==> h.installed || Several(spec))
            && (h'.claim <==> h.claim || (Several(spec) && env.claimable))
            && h'.driver == h.driver && h'.claimAtBoot == h.claimAtBoot
            && h'.up == h.up && h'.offers == h.offers && h'.advertised == h.advertised
            && (e in h'.portals <==> e in h.portals || Registers(h, spec, env, |spec.portals|, e))
  {
    var h3, want := PassIs(h, spec, env);
    LoginsKeepDriver(h3, Targets(h, spec), want, Effective(h, spec, env), env, |Targets(h, spec)|);
  }

  /** A pass says that something changed if and only if something did. */
  lemma ChangedExactlyWhen(h: Host, spec: Spec, env: Env)
    ensures Passed(h, spec, env).1 <==> Passed(h, spec, env).0 != h
  {
    var h3, want := PassIs(h, spec, env);
    var targets := Targets(h, spec);
    var (h', joined) := Logins(h3, targets, want, Effective(h, spec, env), env, |targets|);
    LoginsLeave(h3, targets, want, Effective(h, spec, env), env, |targets|, Favourite("", "", false));
    if !joined {
      forall f ensures f in h'.favourites <==> f in h3.favourites {
        LoginsLeave(h3, targets, want, Effective(h, spec, env), env, |targets|, f);
      }
      assert h' == h3;
    }
  }

  /** The sessions of a pass: those there were, made persistent where their target is wanted
      and sessions are listed and can be registered; and added ones, each of a wanted target
      through a portal that lets the host in, none beside one that was listed, and none
      beside any unless multipath is in effect, which they then say. */
  lemma PassLogsIn(h: Host, spec: Spec, env: Env, k: nat)
    requires k < |Passed(h, spec, env).0.sessions|
    ensures var s, multi := Passed(h, spec, env).0.sessions[k], Effective(h, spec, env);
            if k < |h.sessions| then
              s == h.sessions[k].(persistent := h.sessions[k].persistent || (h.sessions[k].target in Targets(h, spec) && env.listed && env.registers))
            else
              && s.target in Targets(h, spec) && Through(h, spec, env, s.portal) && s.portal in h.up && (s.target, s.portal) in h.offers
              && s.persistent && (s.multipath <==> multi) && (!multi ==> !HasSession(h.sessions, s.target))
              && (env.listed ==> !HasPath(h.sessions, s.target, s.portal))
              && (!multi ==> forall l :: |h.sessions| <= l < k ==> Passed(h, spec, env).0.sessions[l].target != s.target)
  {
    var h3, want := PassIs(h, spec, env);
    var targets, multi := Targets(h, spec), Effective(h, spec, env);
    assert targets[..|targets|] == targets;
    LoginsLeave(h3, targets, want, multi, env, |targets|, Favourite("", "", false));
    var h' := Logins(h3, targets, want, multi, env, |targets|).0;
    if k >= |h.sessions| {
      assert MayAdd(h3, h'.sessions[k], targets, want, multi);
    }
  }

  /** No pair is left out: for every wanted target and every portal it is to be logged in
      through that answers and lets the host in, there is a session through that portal if
      multipath is in effect, and some session if not. */
  lemma PassReaches(h: Host, spec: Spec, env: Env, target: string, portal: string)
    requires target in Targets(h, spec) && Through(h, spec, env, portal) && portal in h.up && (target, portal) in h.offers
    ensures var sessions := Passed(h, spec, env).0.sessions;
            if Effective(h, spec, env) then HasPath(sessions, target, portal) else HasSession(sessions, target)
  {
    var h3, want := PassIs(h, spec, env);
    var targets := Targets(h, spec);
    var t :| 0 <= t < |targets| && targets[t] == target;
    assert portal in want;
    var i :| 0 <= i < |want| && want[i] == portal;
    LoginsReach(h3, targets, want, Effective(h, spec, env), env, |targets|, t, i);
  }

  /** The logins restored at boot: those that were, and those of the sessions a pass added or
      made persistent. */
  lemma PassRestores(h: Host, spec: Spec, env: Env, f: Favourite)
    ensures Restores(h, Passed(h, spec, env).0, f)
  {
    var h3, want := PassIs(h, spec, env);
    LoginsLeave(h3, Targets(h, spec), want, Effective(h, spec, env), env, |Targets(h, spec)|, f);
    assert forall k: nat :: NewlyKept(h, Passed(h, spec, env).0, k, f) <==> NewlyKept(h3, Passed(h, spec, env).0, k, f);
  }
}
