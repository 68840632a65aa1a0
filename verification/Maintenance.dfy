/** A cluster node's maintenance: pause it, resume it, and clear what an old manual
    enable left behind - while the cluster acts on its own at any moment. */
module Maintenance {
  import opened Wrappers

  datatype Intent = Observe | Enter | Exit

  datatype NodeState = Up | Paused | Down

  /** The node as the cluster holds it: its state, whether it drains, whether its scale
      unit is in storage maintenance, and its disks that are. */
  datatype Node = Node(state: NodeState, draining: bool, unit: bool, disks: seq<nat>)

  /** Every command a script could give; Enable is the one it must not. */
  datatype Cmd = Suspend | Resume | Enable | ClearUnit | ClearDisk(disk: nat)

  datatype SuspendReply = Accepted | Degraded | Refused

  /** A command as it was given: at which moment, and the node it met. */
  datatype Given = Given(cmd: Cmd, at: nat, met: Node)

  /** k is the next moment; the script's readings and commands have one each. */
  datatype World = World(node: Node, k: nat, log: seq<Given>)

  /** turns are the cluster's own: what it, or an operator, has made of the node since the
      moment before. mute are the moments whose reading goes unanswered, which passes for
      nothing found; deaf those whose clearing does not take. */
  datatype Env = Env(member: bool, turns: seq<Option<Node>>, mute: set<nat>, deaf: set<nat>,
                     suspend: SuspendReply, resumes: bool)

  predicate StorageOut(n: Node) {
    n.unit || n.disks != []
  }

  datatype Report =
    | NotMember
    | Threw
    | State(paused: bool, draining: bool, storageOut: bool, stuck: bool, blocked: bool, changed: bool)

  // ---- a moment, a reading, a command -------------------------------------

  function TurnAt(env: Env, k: nat): Option<Node> {
    if k < |env.turns| then env.turns[k] else None
  }

  /** The cluster's turn comes before every reading and every command. */
  function Turned(w: World, env: Env): World {
    w.(node := if TurnAt(env, w.k).Some? then TurnAt(env, w.k).value else w.node, k := w.k + 1)
  }

  /** The reading made at the moment that has just come is answered. */
  predicate Heard(w: World, env: Env) {
    w.k > 0 && w.k - 1 !in env.mute
  }

  function Without(s: seq<nat>, d: nat): seq<nat> {
    if s == [] then [] else (if s[0] == d then [] else [s[0]]) + Without(s[1..], d)
  }

  function Effect(c: Cmd, n: Node): Node {
    match c
    case Suspend => n.(state := Paused, draining := true)
    case Resume => n.(state := if n.state == Paused then Up else n.state, draining := false)
    case Enable => n.(unit := true)
    case ClearUnit => n.(unit := false)
    case ClearDisk(d) => n.(disks := Without(n.disks, d))
  }

  function Give(w: World, c: Cmd, takes: bool, env: Env): World {
    var w1 := Turned(w, env);
    w1.(node := if takes then Effect(c, w1.node) else w1.node, log := w1.log + [Given(c, w.k, w1.node)])
  }

  // ---- a pass, as a function of what it meets -----------------------------

  function ClearedDisks(w: World, disks: seq<nat>, i: nat, env: Env): World
    requires i <= |disks|
  {
    if i == 0 then w
    else
      var w1 := ClearedDisks(w, disks, i - 1, env);
      Give(w1, ClearDisk(disks[i - 1]), w1.k !in env.deaf, env)
  }

  function UnitCleared(w: World, env: Env): World {
    var w1 := Turned(w, env);
    if Heard(w1, env) && w1.node.unit then Give(w1, ClearUnit, w1.k !in env.deaf, env) else w1
  }

  /** The unit, then every disk still in maintenance, then a last look. */
  function Cleared(w: World, env: Env): (World, bool) {
    var w1 := Turned(UnitCleared(w, env), env);
    var disks := if Heard(w1, env) then w1.node.disks else [];
    var w2 := Turned(ClearedDisks(w1, disks, |disks|, env), env);
    (w2, !(Heard(w2, env) && StorageOut(w2.node)))
  }

  /** How far a pass has got: the world, whether it takes the node for paused, and what it
      has to report. */
  datatype Acting = Acting(w: World, paused: bool, changed: bool, blocked: bool, threw: bool)

  function Entered(w: World, paused: bool, env: Env): Acting {
    if paused then Acting(w, true, false, false, false)
    else Acting(Give(w, Suspend, env.suspend == Accepted, env), false, env.suspend == Accepted, env.suspend == Degraded, env.suspend == Refused)
  }

  function Left(w: World, paused: bool, env: Env): Acting {
    if !paused then Acting(w, false, false, false, false)
    else
      var w1 := Give(w, Resume, env.resumes, env);
      if !env.resumes then Acting(w1, true, false, false, true)
      else
        var w2 := Turned(w1, env);
        Acting(w2, if Heard(w2, env) then w2.node.state == Paused else true, true, false, false)
  }

  function Healed(a: Acting, out: bool, env: Env): Acting {
    if a.threw || a.paused || !out then a
    else
      var (w1, cleared) := Cleared(a.w, env);
      a.(w := w1, changed := a.changed || cleared)
  }

  /** The two readings a pass begins with: the node's state, and - where the answer can
      matter - its storage. */
  function Begun(n: Node, env: Env): World {
    Turned(Turned(World(n, 0, []), env), env)
  }

  predicate PausedAtStart(n: Node, env: Env) {
    Turned(World(n, 0, []), env).node.state == Paused
  }

  predicate ReadOut(n: Node, intent: Intent, deep: bool, env: Env) {
    (deep || PausedAtStart(n, env) || intent == Enter) && Heard(Begun(n, env), env) && StorageOut(Begun(n, env).node)
  }

  function Acted(n: Node, intent: Intent, deep: bool, env: Env): Acting {
    var w, paused := Begun(n, env), PausedAtStart(n, env);
    match intent
    case Observe => Acting(w, paused, false, false, false)
    case Enter => Entered(w, paused, env)
    case Exit => Healed(Left(w, paused, env), ReadOut(n, intent, deep, env), env)
  }

  /** The report, from what was read at the beginning or, after a change, from a last
      reading. */
  function Finished(a: Acting, intent: Intent, draining: bool, out: bool, env: Env): (World, Report) {
    if a.threw then (a.w, Threw)
    else if !a.changed then (a.w, State(a.paused, draining, out, intent == Exit && !a.paused && out, a.blocked, false))
    else
      var w1 := Turned(a.w, env);
      var w2 := Turned(w1, env);
      var paused := if Heard(w1, env) then w1.node.state == Paused else a.paused;
      var out := Heard(w2, env) && StorageOut(w2.node);
      (w2, State(paused, if Heard(w1, env) then w1.node.draining else draining, out, intent == Exit && !paused && out, a.blocked, true))
  }

  function Ensured(n: Node, intent: Intent, deep: bool, env: Env): (World, Report) {
    var w0 := Turned(World(n, 0, []), env);
    if !env.member then (w0, NotMember)
    else Finished(Acted(n, intent, deep, env), intent, w0.node.draining, ReadOut(n, intent, deep, env), env)
  }

  // ---- the script ---------------------------------------------------------

  class Cluster {
    var node: Node
    var k: nat
    var log: seq<Given>

    function Contents(): World
      reads this
    {
      World(node, k, log)
    }

    constructor (n: Node)
      ensures Contents() == World(n, 0, [])
    {
      node, k, log := n, 0, [];
    }

    method Turn(env: Env)
      modifies this
      ensures Contents() == Turned(old(Contents()), env)
    {
      if k < |env.turns| && env.turns[k].Some? {
        node := env.turns[k].value;
      }
      k := k + 1;
    }

    method Command(c: Cmd, takes: bool, env: Env)
      modifies this
      ensures Contents() == Give(old(Contents()), c, takes, env)
    {
      Turn(env);
      log := log + [Given(c, k - 1, node)];
      if takes {
        node := Effect(c, node);
      }
    }

    /** Disabling maintenance on the unit, then on every disk still in it. */
    method ClearStorage(env: Env) returns (cleared: bool)
      modifies this
      ensures (Contents(), cleared) == Cleared(old(Contents()), env)
    {
      Turn(env);
      if Heard(Contents(), env) && node.unit {
        Command(ClearUnit, k !in env.deaf, env);
      }
      Turn(env);
      ghost var was := Contents();
      var disks := if Heard(Contents(), env) then node.disks else [];
      for i := 0 to |disks|
        invariant Contents() == ClearedDisks(was, disks, i, env)
      {
        Command(ClearDisk(disks[i]), k !in env.deaf, env);
      }
      Turn(env);
      return !(Heard(Contents(), env) && StorageOut(node));
    }

    method EnterMaintenance(paused: bool, env: Env) returns (changed: bool, blocked: bool, threw: bool)
      modifies this
      ensures Acting(Contents(), paused, changed, blocked, threw) == Entered(old(Contents()), paused, env)
    {
      if paused {
        return false, false, false;
      }
      Command(Suspend, env.suspend == Accepted, env);
      return env.suspend == Accepted, env.suspend == Degraded, env.suspend == Refused;
    }

    method LeaveMaintenance(wasPaused: bool, storageOut: bool, env: Env) returns (paused: bool, changed: bool, threw: bool)
      modifies this
      ensures Acting(Contents(), paused, changed, false, threw) == Healed(Left(old(Contents()), wasPaused, env), storageOut, env)
    {
      paused, changed, threw := wasPaused, false, false;
      if paused {
        Command(Resume, env.resumes, env);
        if !env.resumes {
          threw := true;
          return;
        }
        changed := true;
        Turn(env);
        if Heard(Contents(), env) {
          paused := node.state == Paused;
        }
      }
      if !paused && storageOut {
        var cleared := ClearStorage(env);
        changed := changed || cleared;
      }
    }

    method EnsureMaintenance(intent: Intent, deep: bool, env: Env) returns (r: Report)
      requires k == 0 && log == []
      modifies this
      ensures (Contents(), r) == Ensured(old(node), intent, deep, env)
    {
      Turn(env);
      if !env.member {
        return NotMember;
      }
      var paused, draining := node.state == Paused, node.draining;
      var changed, blocked, threw := false, false, false;
      var read := deep || paused || intent == Enter;
      Turn(env);
      var storageOut := read && Heard(Contents(), env) && StorageOut(node);
      match intent {
        case Observe =>
        case Enter => changed, blocked, threw := EnterMaintenance(paused, env);
        case Exit => paused, changed, threw := LeaveMaintenance(paused, storageOut, env);
      }
      if threw {
        return Threw;
      }
      r := Finish(intent, paused, draining, storageOut, blocked, changed, env);
    }

    method Finish(intent: Intent, wasPaused: bool, wasDraining: bool, wasOut: bool, blocked: bool, changed: bool, env: Env)
      returns (r: Report)
      modifies this
      ensures (Contents(), r) == Finished(Acting(old(Contents()), wasPaused, changed, blocked, false), intent, wasDraining, wasOut, env)
    {
      var paused, draining, storageOut := wasPaused, wasDraining, wasOut;
      if changed {
        Turn(env);
        if Heard(Contents(), env) {
          paused, draining := node.state == Paused, node.draining;
        }
        Turn(env);
        storageOut := Heard(Contents(), env) && StorageOut(node);
      }
      return State(paused, draining, storageOut, intent == Exit && !paused && storageOut, blocked, changed);
    }
  }

  // ---- which commands are given -------------------------------------------

  predicate IsClear(c: Cmd) {
    c.ClearUnit? || c.ClearDisk?
  }

  predicate OnlyClears(log: seq<Given>, log': seq<Given>) {
    log <= log' && forall i :: |log| <= i < |log'| ==> IsClear(log'[i].cmd)
  }

  lemma {:induction false} DisksOnlyClear(w: World, disks: seq<nat>, i: nat, env: Env)
    requires i <= |disks|
    ensures OnlyClears(w.log, ClearedDisks(w, disks, i, env).log)
  {
    if i > 0 {
      DisksOnlyClear(w, disks, i - 1, env);
    }
  }

  lemma ClearingOnlyClears(w: World, env: Env)
    ensures OnlyClears(w.log, Cleared(w, env).0.log)
  {
    var w1 := Turned(UnitCleared(w, env), env);
    var disks := if Heard(w1, env) then w1.node.disks else [];
    DisksOnlyClear(w1, disks, |disks|, env);
  }

  /** Whatever the cluster does meanwhile: observing gives no command, entering only a
      suspend, and leaving a resume of a node read as paused and clears; storage
      maintenance is never enabled. */
  lemma WhoGives(n: Node, intent: Intent, deep: bool, env: Env)
    ensures forall g :: g in Ensured(n, intent, deep, env).0.log ==>
              || (intent == Enter && g.cmd == Suspend && !PausedAtStart(n, env))
              || (intent == Exit && g.cmd == Resume && PausedAtStart(n, env))
              || (intent == Exit && IsClear(g.cmd))
    ensures intent == Observe ==> Ensured(n, intent, deep, env).0.log == []
  {
    if intent == Exit {
      ClearingOnlyClears(Left(Begun(n, env), PausedAtStart(n, env), env).w, env);
    }
  }

  // ---- a clear that meets a paused node -----------------------------------

  /** The state at moment m of a node that is in state s at moment k, when the script
      itself does not change it. */
  function StateAt(env: Env, k: nat, s: NodeState, m: nat): NodeState
    requires k <= m
    decreases m
  {
    if m == k then s
    else if TurnAt(env, m).Some? then TurnAt(env, m).value.state
    else StateAt(env, k, s, m - 1)
  }

  /** The cluster's last turn after moment k and up to m pauses the node. */
  predicate PausedSince(env: Env, k: nat, m: nat) {
    exists j :: k < j <= m && TurnAt(env, j).Some? && TurnAt(env, j).value.state == Paused
      && forall i :: j < i <= m ==> TurnAt(env, i).None?
  }

  lemma {:induction false} StateAtPaused(env: Env, k: nat, s: NodeState, m: nat)
    requires k <= m && s != Paused
    ensures StateAt(env, k, s, m) == Paused <==> PausedSince(env, k, m)
    decreases m
  {
    if m > k {
      StateAtPaused(env, k, s, m - 1);
      if TurnAt(env, m).None? && PausedSince(env, k, m) {
        var j :| k < j <= m && TurnAt(env, j).Some? && TurnAt(env, j).value.state == Paused && forall i :: j < i <= m ==> TurnAt(env, i).None?;
        assert j <= m - 1;
      }
    }
  }

  /** Since moment k only the cluster has changed the node's state, and every clear met
      what the cluster had made of it. */
  predicate Tracks(w: World, env: Env, k: nat, s: NodeState) {
    && k < w.k && w.node.state == StateAt(env, k, s, w.k - 1)
    && forall i :: 0 <= i < |w.log| && IsClear(w.log[i].cmd) ==>
         k < w.log[i].at < w.k && w.log[i].met.state == StateAt(env, k, s, w.log[i].at)
  }

  lemma TrackGiven(w: World, env: Env, k: nat, s: NodeState, c: Cmd, takes: bool)
    requires Tracks(w, env, k, s) && IsClear(c)
    ensures Tracks(Turned(w, env), env, k, s) && Tracks(Give(w, c, takes, env), env, k, s)
  {
  }

  lemma {:induction false} TrackDisks(w: World, disks: seq<nat>, i: nat, env: Env, k: nat, s: NodeState)
    requires i <= |disks| && Tracks(w, env, k, s)
    ensures Tracks(ClearedDisks(w, disks, i, env), env, k, s)
  {
    if i > 0 {
      TrackDisks(w, disks, i - 1, env, k, s);
      var w1 := ClearedDisks(w, disks, i - 1, env);
      TrackGiven(w1, env, k, s, ClearDisk(disks[i - 1]), w1.k !in env.deaf);
    }
  }

  lemma TrackClearing(w: World, env: Env, k: nat, s: NodeState)
    requires Tracks(w, env, k, s)
    ensures Tracks(Cleared(w, env).0, env, k, s)
  {
    var w0 := Turned(w, env);
    TrackGiven(w, env, k, s, ClearUnit, true);
    TrackGiven(w0, env, k, s, ClearUnit, w0.k !in env.deaf);
    var u := UnitCleared(w, env);
    TrackGiven(u, env, k, s, ClearUnit, true);
    var w1 := Turned(u, env);
    var disks := if Heard(w1, env) then w1.node.disks else [];
    TrackDisks(w1, disks, |disks|, env, k, s);
    TrackGiven(ClearedDisks(w1, disks, |disks|, env), env, k, s, ClearUnit, true);
  }

  /** The moment of the last reading of the node's state before storage is decided on. */
  function LastRead(n: Node, env: Env): nat {
    if PausedAtStart(n, env) then 3 else 0
  }

  /** The guard is as good as the reading it rests on: a clear meets a paused node if and
      only if the cluster has paused it since the script last read it - after the first
      reading of a node that was un-paused, after the re-read of one that was resumed. */
  lemma ClearMeetsPausedExactlyWhen(n: Node, deep: bool, env: Env, i: nat)
    requires i < |Ensured(n, Exit, deep, env).0.log| && IsClear(Ensured(n, Exit, deep, env).0.log[i].cmd)
    ensures var g := Ensured(n, Exit, deep, env).0.log[i];
            g.met.state == Paused <==> PausedSince(env, LastRead(n, env), g.at)
  {
    var a := Left(Begun(n, env), PausedAtStart(n, env), env);
    var k := LastRead(n, env);
    var s := if PausedAtStart(n, env) then a.w.node.state else Turned(World(n, 0, []), env).node.state;
    assert forall j :: 0 <= j < |a.w.log| ==> !IsClear(a.w.log[j].cmd);
    assert !PausedAtStart(n, env) ==> StateAt(env, 0, s, 0) == s;
    assert a.w.node.state == StateAt(env, k, s, a.w.k - 1);
    TrackClearing(a.w, env, k, s);
    StateAtPaused(env, k, s, Ensured(n, Exit, deep, env).0.log[i].at);
  }

  /** It happens: paused again between the re-read and the clearing of its unit. */
  lemma ClearMeetsPausedExample(deep: bool)
    ensures var paused := Node(Paused, true, true, []);
            var env := Env(true, [None, None, None, None, Some(paused)], {}, {}, Accepted, true);
            var log := Ensured(paused, Exit, deep, env).0.log;
            |log| == 2 && log[0].cmd == Resume && log[1] == Given(ClearUnit, 5, paused)
  {
    var paused := Node(Paused, true, true, []);
    var env := Env(true, [None, None, None, None, Some(paused)], {}, {}, Accepted, true);
    var a := Left(Begun(paused, env), true, env);
    assert a.w.node == Node(Up, false, true, []) && a.w.k == 4;
    var u := UnitCleared(a.w, env);
    assert u.log == [Given(Resume, 2, paused), Given(ClearUnit, 5, paused)];
    var w1 := Turned(u, env);
    assert w1.node.disks == [] && ClearedDisks(w1, [], 0, env) == w1;
  }

  // ---- what a pass leaves behind ------------------------------------------

  /** The cluster leaves the node alone and answers every reading. */
  predicate Quiet(env: Env) {
    env.member && env.turns == [] && env.mute == {} && env.resumes
  }

  predicate Distinct(s: seq<nat>) {
    forall i, j :: 0 <= i < j < |s| ==> s[i] != s[j]
  }

  lemma {:induction false} WithoutKeeps(s: seq<nat>, d: nat, x: nat)
    ensures x in Without(s, d) <==> x in s && x != d
  {
    if s != [] {
      WithoutKeeps(s[1..], d, x);
    }
  }

  predicate DeafAt(env: Env, k: nat, j: nat) {
    k + j in env.deaf
  }

  /** The disk is among them, and none of the first i clears of it took. */
  predicate Missed(disks: seq<nat>, i: nat, env: Env, k: nat, x: nat)
    requires i <= |disks|
  {
    x in disks && forall j :: 0 <= j < i && disks[j] == x ==> DeafAt(env, k, j)
  }

  /** From position m on, the log holds the clears of the disks, given from moment k on. */
  predicate LogsClears(log: seq<Given>, m: nat, disks: seq<nat>, k: nat) {
    && |log| == m + |disks|
    && forall q :: m <= q < |log| ==> IsClear(log[q].cmd) && log[q].at == k + (q - m)
  }

  lemma {:induction false} DisksLog(w: World, disks: seq<nat>, i: nat, env: Env)
    requires i <= |disks|
    ensures ClearedDisks(w, disks, i, env).k == w.k + i
    ensures LogsClears(ClearedDisks(w, disks, i, env).log, |w.log|, disks[..i], w.k)
  {
    if i > 0 {
      DisksLog(w, disks, i - 1, env);
    }
  }

  /** After the first i clears the disks still in maintenance are those not yet come to
      and those whose clear did not take. */
  lemma {:induction false} DisksLeft(w: World, i: nat, env: Env, x: nat)
    requires i <= |w.node.disks| && env.turns == []
    ensures var w1 := ClearedDisks(w, w.node.disks, i, env);
            && w1.node.state == w.node.state && w1.node.unit == w.node.unit
            && (x in w1.node.disks <==> Missed(w.node.disks, i, env, w.k, x))
  {
    if i > 0 {
      DisksLeft(w, i - 1, env, x);
      DisksLog(w, w.node.disks, i - 1, env);
      assert w.k + (i - 1) in env.deaf <==> DeafAt(env, w.k, i - 1);
      WithoutKeeps(ClearedDisks(w, w.node.disks, i - 1, env).node.disks, w.node.disks[i - 1], x);
    }
  }

  /** Some clear among what was given from position n on did not take. */
  predicate SomeDeaf(log: seq<Given>, n: nat, env: Env) {
    exists i :: n <= i < |log| && IsClear(log[i].cmd) && log[i].at in env.deaf
  }

  lemma LoggedDeaf(log: seq<Given>, m: nat, disks: seq<nat>, k: nat, env: Env)
    requires LogsClears(log, m, disks, k)
    ensures SomeDeaf(log, m, env) <==> exists j :: 0 <= j < |disks| && DeafAt(env, k, j)
  {
    if SomeDeaf(log, m, env) {
      var q :| m <= q < |log| && IsClear(log[q].cmd) && log[q].at in env.deaf;
      assert DeafAt(env, k, q - m);
    }
    if j :| 0 <= j < |disks| && DeafAt(env, k, j) {
      assert log[m + j].at in env.deaf;
    }
  }

  lemma LeftExactlyWhen(w: World, disks: seq<nat>, env: Env)
    requires env.turns == [] && disks == w.node.disks && Distinct(disks)
    ensures ClearedDisks(w, disks, |disks|, env).node.disks != [] <==> exists j :: 0 <= j < |disks| && DeafAt(env, w.k, j)
  {
    var left := ClearedDisks(w, disks, |disks|, env).node.disks;
    forall x ensures x in left <==> Missed(disks, |disks|, env, w.k, x) {
      DisksLeft(w, |disks|, env, x);
    }
    SomeMissed(disks, left, env, w.k);
  }

  lemma SomeMissed(disks: seq<nat>, left: seq<nat>, env: Env, k: nat)
    requires Distinct(disks) && forall x :: x in left <==> Missed(disks, |disks|, env, k, x)
    ensures left != [] <==> exists j :: 0 <= j < |disks| && DeafAt(env, k, j)
  {
    if left != [] {
      assert left[0] in left;
    }
    if j :| 0 <= j < |disks| && DeafAt(env, k, j) {
      assert Missed(disks, |disks|, env, k, disks[j]);
      assert disks[j] in left;
    }
  }

  lemma DisksClear(w: World, env: Env)
    requires env.turns == [] && Distinct(w.node.disks)
    ensures var w1 := ClearedDisks(w, w.node.disks, |w.node.disks|, env);
            && w1.node.state == w.node.state && w1.node.unit == w.node.unit && w.log <= w1.log
            && (w1.node.disks != [] <==> SomeDeaf(w1.log, |w.log|, env))
  {
    var disks := w.node.disks;
    DisksLeft(w, |disks|, env, 0);
    DisksOnlyClear(w, disks, |disks|, env);
    DisksLog(w, disks, |disks|, env);
    assert disks[..|disks|] == disks;
    LoggedDeaf(ClearedDisks(w, disks, |disks|, env).log, |w.log|, disks, w.k, env);
    LeftExactlyWhen(w, disks, env);
  }

  /** With the cluster quiet, storage is out after a clearing exactly if some clear did not
      take. */
  lemma ClearingClears(w: World, env: Env)
    requires Quiet(env) && Distinct(w.node.disks)
    ensures var (w1, cleared) := Cleared(w, env);
            && w1.node.state == w.node.state && w.log <= w1.log
            && (cleared <==> !StorageOut(w1.node)) && (StorageOut(w1.node) <==> SomeDeaf(w1.log, |w.log|, env))
  {
    var v := Turned(UnitCleared(w, env), env);
    DisksClear(v, env);
    UnitClears(w, v, Cleared(w, env).0.log, env);
  }

  lemma UnitClears(w: World, v: World, log: seq<Given>, env: Env)
    requires Quiet(env) && v == Turned(UnitCleared(w, env), env) && v.log <= log
    ensures v.node.state == w.node.state && v.node.disks == w.node.disks && w.log <= v.log
    ensures SomeDeaf(log, |w.log|, env) <==> v.node.unit || SomeDeaf(log, |v.log|, env)
  {
    if |v.log| > |w.log| {
      assert log[|w.log|] == v.log[|w.log|];
    }
    if SomeDeaf(log, |v.log|, env) {
      var i :| |v.log| <= i < |log| && IsClear(log[i].cmd) && log[i].at in env.deaf;
      assert |w.log| <= i;
    }
  }

  /** What a quiet exit pass does: the node is un-paused, its storage - if it was read - is
      in service exactly when every clear took, and stuck storage is reported exactly when
      one did not. */
  lemma ExitLeaves(n: Node, deep: bool, env: Env)
    requires Quiet(env) && Distinct(n.disks)
    ensures var (w, r) := Ensured(n, Exit, deep, env);
            && w.node.state == (if n.state == Paused then Up else n.state)
            && (deep || n.state == Paused ==> (StorageOut(w.node) <==> SomeDeaf(w.log, 0, env)))
            && r.State? && !r.paused && (r.stuck <==> SomeDeaf(w.log, 0, env))
  {
    var a := Left(Begun(n, env), PausedAtStart(n, env), env);
    assert Begun(n, env).node == n && (PausedAtStart(n, env) <==> n.state == Paused);
    if ReadOut(n, Exit, deep, env) {
      ClearingClears(a.w, env);
      var w1 := Cleared(a.w, env).0;
      assert SomeDeaf(w1.log, 0, env) <==> SomeDeaf(w1.log, |a.w.log|, env) by {
        assert forall i :: 0 <= i < |a.w.log| ==> w1.log[i] == a.w.log[i] && !IsClear(a.w.log[i].cmd);
      }
    } else {
      assert forall i :: 0 <= i < |a.w.log| ==> !IsClear(a.w.log[i].cmd);
    }
  }

  /** What it reports: the node un-paused, as draining as it is, its storage as it is where
      that was read, and a change if it resumed the node or got its storage into service. */
  lemma ExitReports(n: Node, deep: bool, env: Env)
    requires Quiet(env) && Distinct(n.disks)
    ensures var (w, r) := Ensured(n, Exit, deep, env); var read := deep || n.state == Paused;
            && r.State? && !r.paused && !r.blocked
            && (r.draining <==> n.draining && n.state != Paused)
            && (r.storageOut <==> read && StorageOut(w.node))
            && (r.changed <==> n.state == Paused || (deep && StorageOut(n) && !StorageOut(w.node)))
            && (n.state == Paused ==> w.log != [] && w.log[0] == Given(Resume, 2, n))
            && (!read || !StorageOut(n) ==> forall g :: g in w.log ==> g.cmd == Resume)
  {
    var a := Left(Begun(n, env), PausedAtStart(n, env), env);
    assert Begun(n, env) == World(n, 2, []);
    if ReadOut(n, Exit, deep, env) {
      ClearingClears(a.w, env);
      ClearingOnlyClears(a.w, env);
      QuietDraining(a.w, env);
    }
  }

  lemma QuietDraining(w: World, env: Env)
    requires Quiet(env)
    ensures Cleared(w, env).0.node.draining == w.node.draining
  {
    var v := Turned(UnitCleared(w, env), env);
    DisksKeepDraining(v, v.node.disks, |v.node.disks|, env);
  }

  lemma {:induction false} DisksKeepDraining(w: World, disks: seq<nat>, i: nat, env: Env)
    requires i <= |disks| && env.turns == []
    ensures ClearedDisks(w, disks, i, env).node.draining == w.node.draining
  {
    if i > 0 {
      DisksKeepDraining(w, disks, i - 1, env);
    }
  }

  /** A resume that does not go through throws, and nothing is cleared behind it; nor is
      anything when the re-read after a resume goes unanswered. */
  lemma NothingClearedUnresumed(n: Node, deep: bool, env: Env)
    requires env.member && PausedAtStart(n, env)
    ensures var (w, r) := Ensured(n, Exit, deep, env);
            && (r == Threw <==> !env.resumes)
            && (!env.resumes || 3 in env.mute ==> |w.log| == 1 && w.log[0].cmd == Resume)
  {
  }

  /** What a quiet enter pass does: one suspend of a node that is not paused, which moves it
      exactly if it is accepted, and the report says which; and nothing to one that is. */
  lemma EnterLeaves(n: Node, deep: bool, env: Env)
    requires Quiet(env)
    ensures var (w, r) := Ensured(n, Enter, deep, env); var out := StorageOut(n);
            if n.state == Paused then w.node == n && w.log == [] && r == State(true, n.draining, out, false, false, false)
            else
              && w.log == [Given(Suspend, 2, n)]
              && w.node == (if env.suspend == Accepted then n.(state := Paused, draining := true) else n)
              && r == (match env.suspend
                       case Accepted => State(true, true, out, false, false, true)
                       case Degraded => State(false, n.draining, out, false, true, false)
                       case Refused => Threw)
  {
    assert Begun(n, env) == World(n, 2, []);
  }

  /** Observing reports the node as its first reading shows it, and its storage as the second
      does - which is asked for only of a paused node, or by a deep pass - and a host that is
      no member reports that; neither gives a command. */
  lemma ObserveReports(n: Node, deep: bool, env: Env)
    ensures var (w, r) := Ensured(n, Observe, deep, env);
            var first := if |env.turns| > 0 && env.turns[0].Some? then env.turns[0].value else n;
            var second := if |env.turns| > 1 && env.turns[1].Some? then env.turns[1].value else first;
            && w.log == []
            && r == (if !env.member then NotMember
                     else State(first.state == Paused, first.draining,
                                (deep || first.state == Paused) && 1 !in env.mute && (second.unit || second.disks != []), false, false, false))
    ensures !env.member ==> forall intent :: Ensured(n, intent, deep, env) == (Ensured(n, Observe, deep, env).0, NotMember)
  {
  }

  /** Leaving is a fixed point: behind a quiet deep exit whose clears took, a quiet exit
      gives no command and reports no change. */
  lemma ExitSettles(n: Node, env: Env, deep: bool, next: Env)
    requires Quiet(env) && Quiet(next) && Distinct(n.disks) && env.deaf == {}
    ensures var n' := Ensured(n, Exit, true, env).0.node;
            && n'.state != Paused && !StorageOut(n')
            && Ensured(n', Exit, deep, next) == (World(n', 2, []), State(false, n'.draining, false, false, false, false))
  {
    ExitLeaves(n, true, env);
    var n' := Ensured(n, Exit, true, env).0.node;
    assert Begun(n', next) == World(n', 2, []);
  }

  /** Entering is one too: a suspend that is accepted leaves the node paused, and entering
      again - whatever is asked of its storage - gives no command and reports no change
      while the cluster has not un-paused it. */
  lemma EnterSettles(n: Node, deep: bool, env: Env, next: Env)
    requires Quiet(env) && env.suspend == Accepted && next.member
    requires PausedAtStart(Ensured(n, Enter, deep, env).0.node, next)
    ensures var n' := Ensured(n, Enter, deep, env).0.node;
            var (w, r) := Ensured(n', Enter, deep, next);
            && n'.state == Paused && w.log == [] && r.State? && r.paused && !r.blocked && !r.changed
  {
    assert Begun(n, env).node == n;
  }

  /** A pool too degraded to pause is no failure and no change: one command that moves
      nothing, and the request stands. */
  lemma DegradedOnlyBlocks(n: Node, deep: bool, env: Env)
    requires Quiet(env) && env.suspend == Degraded && n.state != Paused
    ensures var (w, r) := Ensured(n, Enter, deep, env);
            && w.node == n && |w.log| == 1 && r.State? && r.blocked && !r.changed && !r.paused
  {
    assert Begun(n, env).node == n;
  }

  /** A shallow pass does to the node what a deep one does, except that on exit it leaves
      the storage of a node alone that was un-paused when the pass began. */
  lemma ShallowAgainstDeep(n: Node, intent: Intent, env: Env)
    ensures var shallow, full := Ensured(n, intent, false, env).0, Ensured(n, intent, true, env).0;
            if intent == Exit && env.member && !PausedAtStart(n, env) && ReadOut(n, intent, true, env)
            then shallow == Begun(n, env) && full.log == Cleared(Begun(n, env), env).0.log
            else shallow.log == full.log && shallow.node == full.node
  {
    assert Begun(n, env).log == [];
  }

  // ---- runs ---------------------------------------------------------------

  /** A run of passes with the intent each was given; what the cluster does between two of
      them is the first turn of the second. */
  datatype Pass = Pass(intent: Intent, deep: bool, env: Env)

  function After(n: Node, run: seq<Pass>, m: nat): (Node, seq<Given>)
    requires m <= |run|
  {
    if m == 0 then (n, [])
    else
      var (n1, log) := After(n, run, m - 1);
      var w := Ensured(n1, run[m - 1].intent, run[m - 1].deep, run[m - 1].env).0;
      (w.node, log + w.log)
  }

  predicate NeverPauses(env: Env) {
    forall k :: 0 <= k < |env.turns| && env.turns[k].Some? ==> env.turns[k].value.state != Paused
  }

  lemma PassSafe(n: Node, p: Pass)
    ensures forall g :: g in Ensured(n, p.intent, p.deep, p.env).0.log ==> g.cmd != Enable && (p.intent != Exit ==> g.cmd == Suspend)
    ensures NeverPauses(p.env) ==>
              forall g :: g in Ensured(n, p.intent, p.deep, p.env).0.log && IsClear(g.cmd) ==> g.met.state != Paused
  {
    WhoGives(n, p.intent, p.deep, p.env);
    var log := Ensured(n, p.intent, p.deep, p.env).0.log;
    if NeverPauses(p.env) {
      forall i | 0 <= i < |log| && IsClear(log[i].cmd) ensures log[i].met.state != Paused {
        ClearMeetsPausedExactlyWhen(n, p.deep, p.env, i);
      }
    }
  }

  /** Over every run: no enable; without an exit pass nothing is resumed and nothing
      cleared; and while the cluster pauses nothing by itself in the middle of a pass or
      between two, no clear ever meets a paused node. */
  lemma {:induction false} RunIsSafe(n: Node, run: seq<Pass>, m: nat)
    requires m <= |run|
    ensures forall g :: g in After(n, run, m).1 ==> g.cmd != Enable
    ensures (forall i :: 0 <= i < m ==> run[i].intent != Exit) ==> forall g :: g in After(n, run, m).1 ==> g.cmd == Suspend
    ensures (forall i :: 0 <= i < m ==> NeverPauses(run[i].env)) ==> forall g :: g in After(n, run, m).1 && IsClear(g.cmd) ==> g.met.state != Paused
  {
    if m > 0 {
      RunIsSafe(n, run, m - 1);
      PassSafe(After(n, run, m - 1).0, run[m - 1]);
    }
  }
}
