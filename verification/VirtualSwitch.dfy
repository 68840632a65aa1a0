/** The SET switch reconcile: observe, plan, create or update. */
module VirtualSwitch {
  import opened Wrappers
  import opened Text
  import opened Ordering
  import StringSets

  datatype LoadBalancing = HyperVPort | Dynamic | Unset

  datatype Spec = Spec(name: string, team: seq<string>, lb: LoadBalancing, mgmt: bool)

  /** A switch as the host holds it. The team names are the host's own spelling; vnics are
      the management vNICs on it, which is all that shows whether it serves the host. */
  datatype Switch = Switch(team: seq<string>, lb: string, vnics: set<string>)

  datatype Observation = Observation(exists_: bool, team: seq<string>, lb: string, mgmt: bool, known: bool)

  datatype Plan = Noop | Create | Update

  /** How Hyper-V met the query: answered, did not answer, or the script broke. Within an
      answered one the team, each of its members - hidden are those not found - and the
      management vNICs are asked for silently. */
  datatype Answer = Answered(team: bool, hidden: set<string>, mgmt: bool) | Down | Broken

  const WHOLE := Answered(true, {}, true)

  datatype Outcome = Unchanged | Created | Updated

  datatype Error = NoError | QueryFailed | Unavailable | ActFailed

  function LbText(l: LoadBalancing): string {
    match l
    case HyperVPort => "HyperVPort"
    case Dynamic => "Dynamic"
    case Unset => ""
  }

  predicate Matches(spec: Spec, obs: Observation) {
    && Elements(spec.team) == Elements(obs.team)
    && LbText(spec.lb) == obs.lb
    && spec.mgmt == obs.mgmt
  }

  method PlanSwitch(spec: Spec, obs: Observation) returns (plan: Plan)
    ensures plan == Create <==> !obs.exists_
    ensures plan == Noop <==> obs.exists_ && Matches(spec, obs)
  {
    if !obs.exists_ {
      return Create;
    }
    var same := StringSets.SameStringSet(spec.team, obs.team);
    if !same || LbText(spec.lb) != obs.lb || spec.mgmt != obs.mgmt {
      return Update;
    }
    return Noop;
  }

  // ---- the host -----------------------------------------------------------

  datatype State = State(switches: map<string, Switch>, adapters: seq<string>, defaultLb: string)

  predicate ValidState(s: State) {
    && s.defaultLb != ""
    && forall k :: k in s.switches ==> s.switches[k].lb != ""
  }

  function Found(team: seq<string>, hidden: set<string>): (r: seq<string>)
    ensures Elements(r) == Elements(team) - hidden
    ensures hidden == {} ==> r == team
  {
    if team == [] then []
    else
      var rest := Found(team[1..], hidden);
      assert Elements(team) == {team[0]} + Elements(team[1..]) && Elements([team[0]] + rest) == {team[0]} + Elements(rest);
      if team[0] in hidden then rest else [team[0]] + rest
  }

  function Observe(s: State, name: string, answer: Answer): Observation {
    if !answer.Answered? then Observation(false, [], "", false, false)
    else if Lower(name) !in s.switches then Observation(false, [], "", false, true)
    else
      var sw := s.switches[Lower(name)];
      Observation(true, if answer.team then Found(sw.team, answer.hidden) else [], if answer.team then sw.lb else "", answer.mgmt && sw.vnics != {}, true)
  }

  predicate AllFound(adapters: seq<string>, team: seq<string>) {
    forall i :: 0 <= i < |team| ==> FindSame(adapters, team[i]).Some?
  }

  function Resolved(adapters: seq<string>, team: seq<string>): (r: seq<string>)
    requires AllFound(adapters, team)
    ensures |r| == |team|
  {
    seq(|team|, i requires 0 <= i < |team| => FindSame(adapters, team[i]).value)
  }

  /** Serving the host takes a management vNIC, of the switch's name if there is none yet;
      not serving it takes all of them away. */
  function Serving(vnics: set<string>, mgmt: bool, k: string): set<string> {
    if !mgmt then {} else if vnics == {} then {k} else vnics
  }

  /** The create script, cut before the command numbered cut. */
  function CreateScript(s: State, spec: Spec, cut: nat): (State, bool) {
    var k := Lower(spec.name);
    if cut == 0 || !AllFound(s.adapters, spec.team) then (s, false)
    else
      var made := Switch(Resolved(s.adapters, spec.team), s.defaultLb, Serving({}, spec.mgmt, k));
      var s1 := s.(switches := s.switches[k := made]);
      if LbText(spec.lb) == "" then (s1, true)
      else if cut == 1 then (s1, false)
      else (s1.(switches := s1.switches[k := s1.switches[k].(lb := LbText(spec.lb))]), true)
  }

  /** The update script: team, load balancing when declared, management flag. */
  function UpdateScript(s: State, spec: Spec, cut: nat): (State, bool)
    requires Lower(spec.name) in s.switches
  {
    var k := Lower(spec.name);
    if cut == 0 || !AllFound(s.adapters, spec.team) then (s, false)
    else
      var s1 := s.(switches := s.switches[k := s.switches[k].(team := Resolved(s.adapters, spec.team))]);
      if LbText(spec.lb) != "" && cut == 1 then (s1, false)
      else
        var s2 := if LbText(spec.lb) == "" then s1
                  else s1.(switches := s1.switches[k := s1.switches[k].(lb := LbText(spec.lb))]);
        if cut == (if LbText(spec.lb) == "" then 1 else 2) then (s2, false)
        else (s2.(switches := s2.switches[k := s2.switches[k].(vnics := Serving(s2.switches[k].vnics, spec.mgmt, k))]), true)
  }

  const NO_CUT: nat := 3

  function Ensured(s: State, spec: Spec, answer: Answer, cut: nat): (State, Outcome, Error) {
    var obs := Observe(s, spec.name, answer);
    if answer == Broken then (s, Unchanged, QueryFailed)
    else if !obs.known then (s, Unchanged, Unavailable)
    else if !obs.exists_ then
      var (s', ok) := CreateScript(s, spec, cut);
      (s', if ok then Created else Unchanged, if ok then NoError else ActFailed)
    else if Matches(spec, obs) then (s, Unchanged, NoError)
    else
      var (s', ok) := UpdateScript(s, spec, cut);
      (s', if ok then Updated else Unchanged, if ok then NoError else ActFailed)
  }

  class Host {
    var switches: map<string, Switch>
    const adapters: seq<string>
    const defaultLb: string

    function Contents(): State
      reads this
    {
      State(switches, adapters, defaultLb)
    }

    constructor (switches: map<string, Switch>, adapters: seq<string>, defaultLb: string)
      ensures Contents() == State(switches, adapters, defaultLb)
    {
      this.switches, this.adapters, this.defaultLb := switches, adapters, defaultLb;
    }

    method RunCreate(spec: Spec, cut: nat) returns (ok: bool)
      modifies this
      ensures (Contents(), ok) == CreateScript(old(Contents()), spec, cut)
    {
      if cut == 0 || !AllFound(adapters, spec.team) {
        return false;
      }
      var k := Lower(spec.name);
      switches := switches[k := Switch(Resolved(adapters, spec.team), defaultLb, Serving({}, spec.mgmt, k))];
      if LbText(spec.lb) != "" {
        if cut == 1 {
          return false;
        }
        switches := switches[k := switches[k].(lb := LbText(spec.lb))];
      }
      return true;
    }

    method RunUpdate(spec: Spec, cut: nat) returns (ok: bool)
      requires Lower(spec.name) in switches
      modifies this
      ensures (Contents(), ok) == UpdateScript(old(Contents()), spec, cut)
    {
      var k, left := Lower(spec.name), cut;
      if left == 0 || !AllFound(adapters, spec.team) {
        return false;
      }
      switches := switches[k := switches[k].(team := Resolved(adapters, spec.team))];
      left := left - 1;
      if LbText(spec.lb) != "" {
        if left == 0 {
          return false;
        }
        switches := switches[k := switches[k].(lb := LbText(spec.lb))];
        left := left - 1;
      }
      if left == 0 {
        return false;
      }
      switches := switches[k := switches[k].(vnics := Serving(switches[k].vnics, spec.mgmt, k))];
      return true;
    }

    method EnsureSwitch(spec: Spec, answer: Answer, cut: nat) returns (out: Outcome, err: Error)
      modifies this
      ensures (Contents(), out, err) == Ensured(old(Contents()), spec, answer, cut)
    {
      var obs := Observe(Contents(), spec.name, answer);
      if answer == Broken {
        return Unchanged, QueryFailed;
      }
      if !obs.known {
        return Unchanged, Unavailable;
      }
      var plan := PlanSwitch(spec, obs);
      match plan
      case Noop =>
        return Unchanged, NoError;
      case Create =>
        var ok := RunCreate(spec, cut);
        return if ok then Created else Unchanged, if ok then NoError else ActFailed;
      case Update =>
        var ok := RunUpdate(spec, cut);
        return if ok then Updated else Unchanged, if ok then NoError else ActFailed;
    }
  }

  // ---- unknown is never absent -------------------------------------------

  /** One call in a run: what was declared, whether Hyper-V answered, and where
      the act script was cut. */
  datatype Call = Call(spec: Spec, answer: Answer, cut: nat)

  function After(s: State, calls: seq<Call>): State {
    if calls == [] then s
    else
      var c := calls[|calls| - 1];
      Ensured(After(s, calls[..|calls| - 1]), c.spec, c.answer, c.cut).0
  }

  /** No switch that exists is ever built over, an unanswered query writes
      nothing, and an answered absence is still built. */
  lemma UnknownIsNeverAbsent(s: State, spec: Spec, answer: Answer, cut: nat)
    ensures var (s', out, err) := Ensured(s, spec, answer, cut);
            && (!answer.Answered? ==> s' == s && out == Unchanged && err == (if answer == Down then Unavailable else QueryFailed))
            && (out == Created ==> Lower(spec.name) !in s.switches && answer.Answered?)
            && (answer.Answered? && Lower(spec.name) !in s.switches && cut >= 2 && AllFound(s.adapters, spec.team)
                ==> out == Created && Lower(spec.name) in s'.switches)
            && (forall k :: k != Lower(spec.name) ==> (k in s'.switches <==> k in s.switches) && (k in s.switches ==> s'.switches[k] == s.switches[k]))
            && s.switches.Keys <= s'.switches.Keys
  {
  }

  /** Over any run - outages and cut scripts anywhere - no switch disappears,
      every switch keeps a load-balancing algorithm, and the ones no call names are
      left exactly as they were. */
  lemma {:induction false} RunsKeepSwitches(s: State, calls: seq<Call>)
    requires ValidState(s)
    ensures ValidState(After(s, calls))
    ensures After(s, calls).adapters == s.adapters && s.switches.Keys <= After(s, calls).switches.Keys
    ensures forall k :: k in s.switches && (forall i :: 0 <= i < |calls| ==> Lower(calls[i].spec.name) != k)
              ==> After(s, calls).switches[k] == s.switches[k]
  {
    if calls != [] {
      var front, c := calls[..|calls| - 1], calls[|calls| - 1];
      RunsKeepSwitches(s, front);
      UnknownIsNeverAbsent(After(s, front), c.spec, c.answer, c.cut);
      assert forall i :: 0 <= i < |front| ==> front[i] == calls[i];
    }
  }

  /** A switch that is as declared is rewritten after an answer in part exactly when what
      went unanswered was declared: its team or algorithm, one of its members, or that it
      serves the host. */
  lemma PartialAnswerWritesExactlyWhen(s: State, spec: Spec, answer: Answer)
    requires answer.Answered? && Lower(spec.name) in s.switches && AllFound(s.adapters, spec.team)
    requires Matches(spec, Observe(s, spec.name, WHOLE))
    ensures Ensured(s, spec, answer, NO_CUT).1 == Updated <==>
              || (if answer.team then exists i :: 0 <= i < |spec.team| && spec.team[i] in answer.hidden
                  else spec.team != [] || LbText(spec.lb) != "")
              || (!answer.mgmt && spec.mgmt)
    ensures Ensured(s, spec, answer, NO_CUT).1 != Updated ==> Ensured(s, spec, answer, NO_CUT).0 == s
  {
    var sw := s.switches[Lower(spec.name)];
    assert Elements(sw.team) == Elements(spec.team);
    if spec.team != [] {
      assert spec.team[0] in Elements(spec.team);
    }
    if i :| 0 <= i < |spec.team| && spec.team[i] in answer.hidden {
      assert spec.team[i] in Elements(spec.team) && spec.team[i] !in Elements(sw.team) - answer.hidden;
    } else {
      assert Elements(spec.team) - answer.hidden == Elements(spec.team);
    }
  }

  // ---- settling -----------------------------------------------------------

  /** What the reconcile can settle on: a declared algorithm, and team members
      spelled as the host spells them. */
  predicate Settleable(adapters: seq<string>, spec: Spec) {
    && LbText(spec.lb) != ""
    && forall i :: 0 <= i < |spec.team| ==> FindSame(adapters, spec.team[i]) == Some(spec.team[i])
  }

  lemma ResolvedElements(adapters: seq<string>, team: seq<string>)
    requires AllFound(adapters, team)
    ensures Elements(Resolved(adapters, team)) == Elements(team)
       <==> forall i :: 0 <= i < |team| ==> FindSame(adapters, team[i]) == Some(team[i])
  {
    var r := Resolved(adapters, team);
    if Elements(r) == Elements(team) {
      forall i | 0 <= i < |team| ensures FindSame(adapters, team[i]) == Some(team[i]) {
        assert team[i] in Elements(r);
        var j :| 0 <= j < |r| && r[j] == team[i];
        FindIsSame(adapters, team[j]);
        FindStops(adapters, team[i], team[j]);
      }
    }
    if forall i :: 0 <= i < |team| ==> FindSame(adapters, team[i]) == Some(team[i]) {
      assert r == team;
    }
  }

  /** After one whole pass has acted, the next changes nothing if and only if the
      spec names an algorithm and spells its members as the host does. Otherwise
      every pass rewrites a live team. */
  lemma SettlesExactlyWhen(s: State, spec: Spec)
    requires ValidState(s)
    requires AllFound(s.adapters, spec.team)
    requires Ensured(s, spec, WHOLE, NO_CUT).1 != Unchanged
    ensures var s' := Ensured(s, spec, WHOLE, NO_CUT).0;
            && (Ensured(s', spec, WHOLE, NO_CUT).1 == Unchanged <==> Settleable(s.adapters, spec))
            && (Settleable(s.adapters, spec) ==> Ensured(s', spec, WHOLE, NO_CUT) == (s', Unchanged, NoError))
            && (!Settleable(s.adapters, spec) ==> Ensured(s', spec, WHOLE, NO_CUT).1 == Updated)
  {
    var s' := Ensured(s, spec, WHOLE, NO_CUT).0;
    ResolvedElements(s.adapters, spec.team);
    ActedLeaves(s, spec);
    assert Observe(s', spec.name, WHOLE).team == Resolved(s.adapters, spec.team);
  }

  /** The switch as a whole pass that acted leaves it. */
  lemma ActedLeaves(s: State, spec: Spec)
    requires ValidState(s) && AllFound(s.adapters, spec.team) && Ensured(s, spec, WHOLE, NO_CUT).1 != Unchanged
    ensures var s' := Ensured(s, spec, WHOLE, NO_CUT).0;
            && s'.adapters == s.adapters && Lower(spec.name) in s'.switches
            && (var sw := s'.switches[Lower(spec.name)];
                sw.team == Resolved(s.adapters, spec.team) && sw.lb != "" && (LbText(spec.lb) != "" ==> sw.lb == LbText(spec.lb))
                && (sw.vnics != {} <==> spec.mgmt))
  {
  }

  // ---- what a call leaves -------------------------------------------------

  /** The algorithm as the host spells it. */
  predicate Runs(lb: string, declared: LoadBalancing) {
    && (declared == HyperVPort ==> lb == "HyperVPort")
    && (declared == Dynamic ==> lb == "Dynamic")
    && (declared == Unset ==> lb == "")
  }

  /** The same members in any order, the algorithm declared, and serving the host or not. */
  predicate AsDeclared(sw: Switch, spec: Spec) {
    && (forall i :: 0 <= i < |sw.team| ==> sw.team[i] in spec.team)
    && (forall i :: 0 <= i < |spec.team| ==> spec.team[i] in sw.team)
    && Runs(sw.lb, spec.lb) && (sw.vnics != {} <==> spec.mgmt)
  }

  lemma SameMembers(a: seq<string>, b: seq<string>)
    ensures Elements(a) == Elements(b) <==> (forall i :: 0 <= i < |a| ==> a[i] in b) && (forall i :: 0 <= i < |b| ==> b[i] in a)
  {
    assert forall x :: x in Elements(a) <==> x in a;
    assert forall x :: x in Elements(b) <==> x in b;
    if Elements(a) == Elements(b) {
      forall i | 0 <= i < |a| ensures a[i] in b {
        assert a[i] in Elements(a);
      }
      forall i | 0 <= i < |b| ensures b[i] in a {
        assert b[i] in Elements(b);
      }
    }
  }

  /** A call that sees everything leaves a switch alone, and reports no change, if and only if
      it is as declared. */
  lemma LeftAloneExactlyWhen(s: State, spec: Spec, cut: nat)
    ensures var (s', out, err) := Ensured(s, spec, WHOLE, cut);
            && (out == Unchanged && err == NoError <==> Lower(spec.name) in s.switches && AsDeclared(s.switches[Lower(spec.name)], spec))
            && (out == Unchanged && err == NoError ==> s' == s)
  {
    if Lower(spec.name) in s.switches {
      SameMembers(s.switches[Lower(spec.name)].team, spec.team);
    }
  }

  /** The commands a whole script is. */
  function Commands(spec: Spec, exists_: bool): nat {
    (if exists_ then 2 else 1) + if spec.lb == Unset then 0 else 1
  }

  /** The script ran to the end: every member was found among the adapters, and nothing cut
      it. */
  predicate RunsWhole(s: State, spec: Spec, cut: nat) {
    AllFound(s.adapters, spec.team) && cut >= Commands(spec, Lower(spec.name) in s.switches)
  }

  /** Member by member the adapter of the declared name. */
  predicate Teams(team: seq<string>, adapters: seq<string>, declared: seq<string>) {
    |team| == |declared| && forall i :: 0 <= i < |team| ==> team[i] in adapters && Same(team[i], declared[i])
  }

  lemma ResolvedTeams(adapters: seq<string>, team: seq<string>)
    requires AllFound(adapters, team)
    ensures Teams(Resolved(adapters, team), adapters, team)
  {
    forall i | 0 <= i < |team| ensures Resolved(adapters, team)[i] in adapters && Same(Resolved(adapters, team)[i], team[i]) {
      FindIsSame(adapters, team[i]);
    }
  }

  /** A call that acts, cut anywhere, and the switch then: the report says whether the script
      ran to the end; a member that is not found, or a cut before the first command, leaves
      all as it was; else the team is the declared one, the declared algorithm is set if the
      script got that far, and whether it serves the host is settled last. */
  lemma ActsExactly(s: State, spec: Spec, answer: Answer, cut: nat)
    requires Ensured(s, spec, answer, cut).1 != Unchanged || Ensured(s, spec, answer, cut).2 == ActFailed
    ensures var (s', out, err) := Ensured(s, spec, answer, cut); var k := Lower(spec.name); var was := k in s.switches;
            && (err == (if RunsWhole(s, spec, cut) then NoError else ActFailed))
            && (out == (if err == ActFailed then Unchanged else if was then Updated else Created))
            && (cut == 0 || !AllFound(s.adapters, spec.team) ==> s' == s)
            && (cut > 0 && AllFound(s.adapters, spec.team) ==>
                  && k in s'.switches
                  && var sw := s'.switches[k];
                     && Teams(sw.team, s.adapters, spec.team)
                     && (if spec.lb != Unset && cut >= 2 then Runs(sw.lb, spec.lb) else sw.lb == if was then s.switches[k].lb else s.defaultLb)
                     && sw.vnics == (if was && !RunsWhole(s, spec, cut) then s.switches[k].vnics
                                     else if !spec.mgmt then {} else if was && s.switches[k].vnics != {} then s.switches[k].vnics else {k}))
  {
    if AllFound(s.adapters, spec.team) {
      ResolvedTeams(s.adapters, spec.team);
    }
  }
}
