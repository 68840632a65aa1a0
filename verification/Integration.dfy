/** Guest integration services: what is declared against what the host reports, printed
    as a script, read back, and carried out. */
module Integration {
  import opened Wrappers
  import opened Text
  import opened Ordering
  import opened Literals

  // ---- declared and reported ----------------------------------------------

  /** None is unmanaged. */
  datatype Want = Want(guestInterface: Option<bool>, heartbeat: Option<bool>, keyValue: Option<bool>,
                       shutdown: Option<bool>, timeSync: Option<bool>, vss: Option<bool>)

  const NAMES: seq<string> :=
    ["Guest Service Interface", "Heartbeat", "Key-Value Pair Exchange", "Shutdown", "Time Synchronization", "VSS"]

  function Declared(w: Want, i: nat): Option<bool>
    requires i < |NAMES|
  {
    if i == 0 then w.guestInterface else if i == 1 then w.heartbeat else if i == 2 then w.keyValue
    else if i == 3 then w.shutdown else if i == 4 then w.timeSync else w.vss
  }

  datatype Service = Service(name: string, enabled: bool)

  /** What the host reports, by lower-cased name; a name reported twice counts as last
      reported. */
  function Reported(have: seq<Service>): map<string, bool> {
    if have == [] then map[]
    else Reported(have[..|have| - 1])[Lower(have[|have| - 1].name) := have[|have| - 1].enabled]
  }

  lemma NamesDistinct(i: nat, j: nat)
    requires i < |NAMES| && j < |NAMES| && Lower(NAMES[i]) == Lower(NAMES[j])
    ensures i == j
  {
    assert |NAMES[0]| == 23 && |NAMES[1]| == 9 && |NAMES[2]| == 23 && |NAMES[3]| == 8 && |NAMES[4]| == 20 && |NAMES[5]| == 3;
    assert |Lower(NAMES[i])| == |NAMES[i]| && |Lower(NAMES[j])| == |NAMES[j]|;
    assert Lower(NAMES[0])[0] == 'g' && Lower(NAMES[2])[0] == 'k';
  }

  // ---- the plan -----------------------------------------------------------

  /** Service i is declared to be on, is reported, and is not that. */
  predicate Differs(w: Want, actual: map<string, bool>, i: nat, on: bool)
    requires i < |NAMES|
  {
    Declared(w, i) == Some(on) && Lower(NAMES[i]) in actual && actual[Lower(NAMES[i])] != on
  }

  function Collected(w: Want, actual: map<string, bool>, on: bool, n: nat): seq<string>
    requires n <= |NAMES|
  {
    if n == 0 then []
    else Collected(w, actual, on, n - 1) + if Differs(w, actual, n - 1, on) then [NAMES[n - 1]] else []
  }

  method SortList(items: seq<string>) returns (sorted: seq<string>)
    ensures sorted == Sort(items)
  {
    var a := new string[|items|](i requires 0 <= i < |items| => items[i]);
    assert a[..] == items;
    SortStrings(a);
    return a[..];
  }

  function Plan(want: Option<Want>, have: seq<Service>): (seq<string>, seq<string>) {
    match want
    case None => ([], [])
    case Some(w) =>
      (Sort(Collected(w, Reported(have), true, |NAMES|)), Sort(Collected(w, Reported(have), false, |NAMES|)))
  }

  method IntegrationPlan(want: Option<Want>, have: seq<Service>) returns (enable: seq<string>, disable: seq<string>)
    ensures (enable, disable) == Plan(want, have)
  {
    enable, disable := [], [];
    if want.None? {
      return;
    }
    var actual: map<string, bool> := map[];
    for i := 0 to |have|
      invariant actual == Reported(have[..i])
    {
      assert have[..i + 1][..i] == have[..i];
      actual := actual[Lower(have[i].name) := have[i].enabled];
    }
    assert have[..|have|] == have;
    for i := 0 to |NAMES|
      invariant enable == Collected(want.value, actual, true, i)
      invariant disable == Collected(want.value, actual, false, i)
    {
      var v := Declared(want.value, i);
      if v.None? {
        continue;
      }
      var k := Lower(NAMES[i]);
      if k !in actual || actual[k] == v.value {
        continue;
      }
      if v.value {
        enable := enable + [NAMES[i]];
      } else {
        disable := disable + [NAMES[i]];
      }
    }
    enable := SortList(enable);
    disable := SortList(disable);
  }

  /** Each service is declared under its own name. */
  lemma DeclaredByName(w: Want)
    ensures |NAMES| == 6
    ensures forall i :: 0 <= i < |NAMES| ==>
              && (NAMES[i] == "Guest Service Interface" ==> Declared(w, i) == w.guestInterface)
              && (NAMES[i] == "Heartbeat" ==> Declared(w, i) == w.heartbeat)
              && (NAMES[i] == "Key-Value Pair Exchange" ==> Declared(w, i) == w.keyValue)
              && (NAMES[i] == "Shutdown" ==> Declared(w, i) == w.shutdown)
              && (NAMES[i] == "Time Synchronization" ==> Declared(w, i) == w.timeSync)
              && (NAMES[i] == "VSS" ==> Declared(w, i) == w.vss)
  {
    assert NAMES[0] == "Guest Service Interface" && NAMES[1] == "Heartbeat" && NAMES[2] == "Key-Value Pair Exchange";
    assert NAMES[3] == "Shutdown" && NAMES[4] == "Time Synchronization" && NAMES[5] == "VSS";
  }

  /** What is not declared has no plan. */
  lemma NothingDeclared(have: seq<Service>)
    ensures Plan(None, have) == ([], []) && Plan(Some(Want(None, None, None, None, None, None)), have) == ([], [])
  {
    NothingCollected(Reported(have), true, |NAMES|);
    NothingCollected(Reported(have), false, |NAMES|);
    assert Sort([]) == [] by { SortKeeps([]); }
  }

  lemma {:induction false} NothingCollected(actual: map<string, bool>, on: bool, n: nat)
    requires n <= |NAMES|
    ensures Collected(Want(None, None, None, None, None, None), actual, on, n) == []
  {
    if n > 0 {
      NothingCollected(actual, on, n - 1);
    }
  }

  /** The last report of a name, letter case apart. */
  predicate LastReport(have: seq<Service>, i: nat, k: string) {
    && i < |have| && Lower(have[i].name) == k
    && forall j :: i < j < |have| ==> Lower(have[j].name) != k
  }

  lemma {:induction false} ReportedIs(have: seq<Service>, k: string)
    ensures k in Reported(have) <==> exists i: nat :: LastReport(have, i, k)
    ensures forall i: nat :: LastReport(have, i, k) ==> k in Reported(have) && Reported(have)[k] == have[i].enabled
  {
    if have != [] {
      var front, last := have[..|have| - 1], |have| - 1;
      ReportedIs(front, k);
      if Lower(have[last].name) == k {
        assert LastReport(have, last, k);
        assert forall i: nat :: LastReport(have, i, k) ==> i == last;
      } else {
        forall i: nat ensures LastReport(have, i, k) <==> LastReport(front, i, k) {
          assert forall j :: 0 <= j < last ==> front[j] == have[j];
        }
      }
    }
  }

  lemma {:induction false} CollectedIs(w: Want, actual: map<string, bool>, on: bool, n: nat, name: string)
    requires n <= |NAMES|
    ensures name in Collected(w, actual, on, n) <==> exists i :: 0 <= i < n && NAMES[i] == name && Differs(w, actual, i, on)
  {
    if n > 0 {
      CollectedIs(w, actual, on, n - 1, name);
    }
  }

  /** The plan names exactly the services that are declared, reported and different;
      both lists are sorted, and they have nothing in common. */
  lemma PlanIs(w: Want, have: seq<Service>, name: string)
    ensures var (enable, disable) := Plan(Some(w), have);
            && Sorted(enable) && Sorted(disable)
            && (name in enable <==> exists i :: 0 <= i < |NAMES| && NAMES[i] == name && Differs(w, Reported(have), i, true))
            && (name in disable <==> exists i :: 0 <= i < |NAMES| && NAMES[i] == name && Differs(w, Reported(have), i, false))
            && !(name in enable && name in disable)
  {
    var actual := Reported(have);
    var on, off := Collected(w, actual, true, |NAMES|), Collected(w, actual, false, |NAMES|);
    SortKeeps(on);
    SortKeeps(off);
    CollectedIs(w, actual, true, |NAMES|, name);
    CollectedIs(w, actual, false, |NAMES|, name);
    assert name in Sort(on) <==> name in Elements(Sort(on));
    assert name in Sort(off) <==> name in Elements(Sort(off));
    assert name in on <==> name in Elements(on);
    assert name in off <==> name in Elements(off);
  }

  // ---- the script ---------------------------------------------------------

  datatype Cmd = Cmd(on: bool, vm: string, name: string)

  const HEADER := "$ErrorActionPreference = 'Stop'\n"
  const ENABLE := "Enable-VMIntegrationService -VMName "
  const DISABLE := "Disable-VMIntegrationService -VMName "
  const NAME := " -Name "
  const STOP := " -ErrorAction Stop\n"

  function Verb(on: bool): string {
    if on then ENABLE else DISABLE
  }

  function Line(c: Cmd): string {
    Verb(c.on) + PsQuote(c.vm) + NAME + PsQuote(c.name) + STOP
  }

  function Lines(cmds: seq<Cmd>): string {
    if cmds == [] then "" else Lines(cmds[..|cmds| - 1]) + Line(cmds[|cmds| - 1])
  }

  function CommandsFor(vm: string, on: bool, names: seq<string>): (r: seq<Cmd>)
    ensures |r| == |names|
    ensures forall i :: 0 <= i < |names| ==> r[i] == Cmd(on, vm, names[i])
  {
    seq(|names|, i requires 0 <= i < |names| => Cmd(on, vm, names[i]))
  }

  method AppendLines(head: string, vm: string, on: bool, names: seq<string>) returns (text: string)
    ensures text == head + Lines(CommandsFor(vm, on, names))
  {
    text := head;
    ghost var cmds := CommandsFor(vm, on, names);
    assert head + "" == head;
    for i := 0 to |names|
      invariant text == head + Lines(cmds[..i])
    {
      NextLine(head, cmds, i);
      text := text + Line(Cmd(on, vm, names[i]));
    }
    assert cmds[..|names|] == cmds;
  }

  method IntegrationScript(vm: string, enable: seq<string>, disable: seq<string>) returns (text: string)
    ensures text == HEADER + Lines(CommandsFor(vm, true, enable) + CommandsFor(vm, false, disable))
  {
    text := AppendLines(HEADER, vm, true, enable);
    text := AppendLines(text, vm, false, disable);
    LinesConcat(CommandsFor(vm, true, enable), CommandsFor(vm, false, disable));
    Grouped(HEADER, Lines(CommandsFor(vm, true, enable)), Lines(CommandsFor(vm, false, disable)));
  }

  lemma {:induction false} LinesConcat(a: seq<Cmd>, b: seq<Cmd>)
    ensures Lines(a + b) == Lines(a) + Lines(b)
  {
    if b == [] {
      assert a + b == a && Lines(a) + "" == Lines(a);
    } else {
      var front, last := b[..|b| - 1], b[|b| - 1];
      assert a + b == (a + front) + [last] && b == front + [last];
      LinesConcat(a, front);
      Grouped(Lines(a), Lines(front), Line(last));
    }
  }

  lemma NextLine(head: string, cmds: seq<Cmd>, i: nat)
    requires i < |cmds|
    ensures head + Lines(cmds[..i + 1]) == (head + Lines(cmds[..i])) + Line(cmds[i])
  {
    assert cmds[..i + 1][..i] == cmds[..i];
    Grouped(head, Lines(cmds[..i]), Line(cmds[i]));
  }

  lemma Grouped(a: string, b: string, c: string)
    ensures (a + b) + c == a + (b + c)
  {
  }

  // ---- the reader ---------------------------------------------------------

  function After(t: string, prefix: string): Option<string> {
    if StartsWith(t, prefix) then Some(t[|prefix|..]) else None
  }

  /** The rest of a command line behind its verb. */
  function ReadArguments(t: string, on: bool): (r: Option<(Cmd, string)>)
    ensures r.Some? ==> |r.value.1| < |t|
  {
    match ReadLiteral(t)
    case None => None
    case Some((vm, t1)) =>
      match After(t1, NAME)
      case None => None
      case Some(t2) =>
        match ReadLiteral(t2)
        case None => None
        case Some((name, t3)) =>
          match After(t3, STOP) case None => None case Some(t4) => Some((Cmd(on, vm, name), t4))
  }

  function ReadCommand(t: string): (r: Option<(Cmd, string)>)
    ensures r.Some? ==> |r.value.1| < |t|
  {
    if After(t, ENABLE).Some? then ReadArguments(After(t, ENABLE).value, true)
    else if After(t, DISABLE).Some? then ReadArguments(After(t, DISABLE).value, false)
    else None
  }

  function ReadCommands(t: string): Option<seq<Cmd>>
    decreases |t|
  {
    if t == "" then Some([])
    else
      match ReadCommand(t)
      case None => None
      case Some((c, rest)) =>
        match ReadCommands(rest) case None => None case Some(cs) => Some([c] + cs)
  }

  function ReadScript(t: string): Option<seq<Cmd>> {
    match After(t, HEADER) case None => None case Some(rest) => ReadCommands(rest)
  }

  /** The arguments of a line, with names for the fixed texts between them. */
  lemma ArgumentsSplit(q: string, name: string, p: string, stop: string, rest: string)
    ensures q + name + p + stop + rest == q + (name + (p + (stop + rest)))
  {
    Grouped(q, name, p);
    Grouped(q, name + p, stop);
    Grouped(q, name + p + stop, rest);
    Grouped(name, p, stop);
    Grouped(name, p + stop, rest);
    Grouped(p, stop, rest);
  }

  lemma ArgumentsRoundTrip(c: Cmd, rest: string)
    ensures ReadArguments(PsQuote(c.vm) + NAME + PsQuote(c.name) + STOP + rest, c.on) == Some((c, rest))
  {
    var t3 := STOP + rest;
    var t2 := PsQuote(c.name) + t3;
    var t1 := NAME + t2;
    ArgumentsSplit(PsQuote(c.vm), NAME, PsQuote(c.name), STOP, rest);
    assert NAME[0] == ' ' && STOP[0] == ' ' && t1[0] == NAME[0] && t3[0] == STOP[0];
    LiteralRoundTrip(c.vm, t1);
    LiteralRoundTrip(c.name, t3);
  }

  lemma VerbRoundTrip(on: bool, args: string)
    ensures ReadCommand(Verb(on) + args) == ReadArguments(args, on)
  {
    if !on {
      assert (DISABLE + args)[0] == DISABLE[0] && DISABLE[0] == 'D' && ENABLE[0] == 'E';
    }
  }

  lemma LineSplit(verb: string, q: string, name: string, p: string, stop: string, rest: string)
    ensures (verb + q + name + p + stop) + rest == verb + (q + name + p + stop + rest)
  {
    Grouped(verb, q, name);
    Grouped(verb, q + name, p);
    Grouped(verb, q + name + p, stop);
    Grouped(verb, q + name + p + stop, rest);
  }

  lemma CommandRoundTrip(c: Cmd, rest: string)
    ensures ReadCommand(Line(c) + rest) == Some((c, rest))
  {
    LineSplit(Verb(c.on), PsQuote(c.vm), NAME, PsQuote(c.name), STOP, rest);
    VerbRoundTrip(c.on, PsQuote(c.vm) + NAME + PsQuote(c.name) + STOP + rest);
    ArgumentsRoundTrip(c, rest);
  }

  lemma {:induction false} LinesFront(c: Cmd, cmds: seq<Cmd>)
    ensures Lines([c] + cmds) == Line(c) + Lines(cmds)
  {
    if cmds == [] {
      assert [c] + cmds == [c] && Line(c) + "" == Line(c);
    } else {
      var front, last := cmds[..|cmds| - 1], cmds[|cmds| - 1];
      assert cmds == front + [last] && [c] + cmds == ([c] + front) + [last];
      LinesFront(c, front);
      Grouped(Line(c), Lines(front), Line(last));
    }
  }

  lemma {:induction false} CommandsRoundTrip(cmds: seq<Cmd>)
    ensures ReadCommands(Lines(cmds)) == Some(cmds)
  {
    if cmds != [] {
      var rest := cmds[1..];
      assert cmds == [cmds[0]] + rest;
      LinesFront(cmds[0], rest);
      CommandsRoundTrip(rest);
      CommandRoundTrip(cmds[0], Lines(rest));
      assert Lines(cmds) != "" by { assert |Line(cmds[0])| > 0; }
    }
  }

  /** A printed script is read back as exactly the commands it was printed from, whatever
      the VM and the services are called. */
  lemma ScriptRoundTrip(cmds: seq<Cmd>)
    ensures ReadScript(HEADER + Lines(cmds)) == Some(cmds)
  {
    CommandsRoundTrip(cmds);
  }

  // ---- carrying it out ----------------------------------------------------

  /** The services of the VM after the first n commands; a command for a service it does
      not have throws. */
  function Executed(services: map<string, bool>, cmds: seq<Cmd>, n: nat): (map<string, bool>, bool)
    requires n <= |cmds|
  {
    if n == 0 then (services, true)
    else
      var (before, ok) := Executed(services, cmds, n - 1);
      var c := cmds[n - 1];
      if !ok || Lower(c.name) !in before then (before, false) else (before[Lower(c.name) := c.on], true)
  }

  /** Every command is for a service the VM has, and no two disagree about one. */
  predicate Consistent(services: map<string, bool>, cmds: seq<Cmd>) {
    && (forall i :: 0 <= i < |cmds| ==> Lower(cmds[i].name) in services)
    && forall i, j :: 0 <= i < |cmds| && 0 <= j < |cmds| && Lower(cmds[i].name) == Lower(cmds[j].name) ==> cmds[i].on == cmds[j].on
  }

  predicate Names(cmds: seq<Cmd>, n: nat, k: string)
    requires n <= |cmds|
  {
    exists i :: 0 <= i < n && Lower(cmds[i].name) == k
  }

  lemma {:induction false} ExecutedIs(services: map<string, bool>, cmds: seq<Cmd>, n: nat, k: string)
    requires n <= |cmds| && Consistent(services, cmds)
    ensures var (after, ok) := Executed(services, cmds, n);
            && ok && after.Keys == services.Keys
            && (!Names(cmds, n, k) && k in services ==> after[k] == services[k])
            && forall i :: 0 <= i < n && Lower(cmds[i].name) == k ==> after[k] == cmds[i].on
  {
    if n > 0 {
      ExecutedIs(services, cmds, n - 1, k);
    }
  }

  class Vm {
    const name: string
    var services: map<string, bool>

    constructor (n: string, s: map<string, bool>)
      ensures name == n && services == s
    {
      name, services := n, s;
    }

    /** Running a script, up to the command numbered cut. */
    method Run(text: string, cut: nat) returns (ok: bool)
      requires ReadScript(text).Some?
      modifies this
      ensures var cmds := ReadScript(text).value;
              var n := if cut < |cmds| then cut else |cmds|;
              services == Executed(old(services), cmds, n).0 && ok == (Executed(old(services), cmds, n).1 && cut >= |cmds|)
    {
      var cmds := ReadScript(text).value;
      ok := true;
      ghost var was := services;
      for i := 0 to if cut < |cmds| then cut else |cmds|
        invariant ok && (services, ok) == Executed(was, cmds, i)
      {
        if Lower(cmds[i].name) !in services {
          StaysThrown(was, cmds, i + 1, if cut < |cmds| then cut else |cmds|);
          return false;
        }
        services := services[Lower(cmds[i].name) := cmds[i].on];
      }
      ok := cut >= |cmds|;
    }

    method ApplyIntegrationServices(want: Option<Want>, have: seq<Service>, cut: nat) returns (updated: bool, threw: bool)
      modifies this
      ensures var (enable, disable) := Plan(want, have);
              var cmds := CommandsFor(name, true, enable) + CommandsFor(name, false, disable);
              var n := if cut < |cmds| then cut else |cmds|;
              && services == Executed(old(services), cmds, n).0
              && threw == !(Executed(old(services), cmds, n).1 && cut >= |cmds|)
              && updated == (!threw && cmds != [])
    {
      var enable, disable := IntegrationPlan(want, have);
      ghost var cmds := CommandsFor(name, true, enable) + CommandsFor(name, false, disable);
      if |enable| == 0 && |disable| == 0 {
        assert cmds == [];
        return false, false;
      }
      var text := IntegrationScript(name, enable, disable);
      ScriptRoundTrip(cmds);
      var ok := Run(text, cut);
      return ok, !ok;
    }
  }

  lemma {:induction false} StaysThrown(services: map<string, bool>, cmds: seq<Cmd>, m: nat, n: nat)
    requires m <= n <= |cmds| && !Executed(services, cmds, m).1
    ensures Executed(services, cmds, n) == Executed(services, cmds, m)
    decreases n
  {
    if m < n {
      StaysThrown(services, cmds, m, n - 1);
    }
  }

  // ---- plan, text, effect -------------------------------------------------

  function Commands(vm: string, want: Option<Want>, have: seq<Service>): seq<Cmd> {
    CommandsFor(vm, true, Plan(want, have).0) + CommandsFor(vm, false, Plan(want, have).1)
  }

  /** What the declaration says of a service, whatever its case; None where it says
      nothing. */
  predicate DeclaredAs(w: Want, k: string, on: bool) {
    exists i :: 0 <= i < |NAMES| && Lower(NAMES[i]) == k && Declared(w, i) == Some(on)
  }

  predicate Unmanaged(w: Want, k: string) {
    !DeclaredAs(w, k, true) && !DeclaredAs(w, k, false)
  }

  /** A command of the plan is for a declared service that differs. */
  lemma CommandMeans(vm: string, w: Want, have: seq<Service>, n: nat)
    requires n < |Commands(vm, Some(w), have)|
    ensures var c := Commands(vm, Some(w), have)[n];
            exists i :: 0 <= i < |NAMES| && NAMES[i] == c.name && Differs(w, Reported(have), i, c.on)
  {
    var c := Commands(vm, Some(w), have)[n];
    var (enable, disable) := Plan(Some(w), have);
    PlanIs(w, have, c.name);
    if n < |enable| {
      assert c.name == enable[n];
    } else {
      assert c.name == disable[n - |enable|];
    }
  }

  lemma PlanConsistent(vm: string, w: Want, have: seq<Service>)
    ensures Consistent(Reported(have), Commands(vm, Some(w), have))
  {
    var cmds := Commands(vm, Some(w), have);
    forall a | 0 <= a < |cmds| ensures Lower(cmds[a].name) in Reported(have) {
      CommandMeans(vm, w, have, a);
    }
    forall a, b | 0 <= a < |cmds| && 0 <= b < |cmds| && Lower(cmds[a].name) == Lower(cmds[b].name)
      ensures cmds[a].on == cmds[b].on
    {
      CommandMeans(vm, w, have, a);
      CommandMeans(vm, w, have, b);
      var i :| 0 <= i < |NAMES| && NAMES[i] == cmds[a].name && Differs(w, Reported(have), i, cmds[a].on);
      var j :| 0 <= j < |NAMES| && NAMES[j] == cmds[b].name && Differs(w, Reported(have), j, cmds[b].on);
      NamesDistinct(i, j);
    }
  }

  lemma DifferingIsNamed(vm: string, w: Want, have: seq<Service>, i: nat, on: bool)
    requires i < |NAMES| && Differs(w, Reported(have), i, on)
    ensures Cmd(on, vm, NAMES[i]) in Commands(vm, Some(w), have)
  {
    PlanIs(w, have, NAMES[i]);
  }

  /** Printed, read back and carried out, the plan makes every service that is declared
      and reported what it is declared to be and leaves every other as it was. */
  lemma PlanTakesEffect(vm: string, w: Want, have: seq<Service>, k: string)
    requires k in Reported(have)
    ensures var cmds := Commands(vm, Some(w), have);
            && ReadScript(HEADER + Lines(cmds)) == Some(cmds)
            && var (after, ok) := Executed(Reported(have), cmds, |cmds|);
               && ok && after.Keys == Reported(have).Keys
               && (forall on :: DeclaredAs(w, k, on) ==> after[k] == on)
               && (Unmanaged(w, k) ==> after[k] == Reported(have)[k])
  {
    var cmds, actual := Commands(vm, Some(w), have), Reported(have);
    ScriptRoundTrip(cmds);
    PlanConsistent(vm, w, have);
    ExecutedIs(actual, cmds, |cmds|, k);
    if Names(cmds, |cmds|, k) {
      var n :| 0 <= n < |cmds| && Lower(cmds[n].name) == k;
      CommandMeans(vm, w, have, n);
      var i :| 0 <= i < |NAMES| && NAMES[i] == cmds[n].name && Differs(w, actual, i, cmds[n].on);
      forall on | DeclaredAs(w, k, on) ensures on == cmds[n].on {
        var j :| 0 <= j < |NAMES| && Lower(NAMES[j]) == k && Declared(w, j) == Some(on);
        NamesDistinct(i, j);
      }
      assert DeclaredAs(w, k, cmds[n].on);
    } else {
      forall on | DeclaredAs(w, k, on) ensures actual[k] == on {
        var j :| 0 <= j < |NAMES| && Lower(NAMES[j]) == k && Declared(w, j) == Some(on);
        if actual[k] != on {
          DifferingIsNamed(vm, w, have, j, on);
        }
      }
    }
  }

  /** Cut short, it leaves every service either as it was or as declared. */
  lemma CutShortIsSafe(vm: string, w: Want, have: seq<Service>, n: nat, k: string)
    requires n <= |Commands(vm, Some(w), have)| && k in Reported(have)
    ensures var (after, ok) := Executed(Reported(have), Commands(vm, Some(w), have), n);
            ok && k in after && (after[k] == Reported(have)[k] || DeclaredAs(w, k, after[k]))
  {
    var cmds := Commands(vm, Some(w), have);
    PlanConsistent(vm, w, have);
    ExecutedIs(Reported(have), cmds, n, k);
    if Names(cmds, n, k) {
      var i :| 0 <= i < n && Lower(cmds[i].name) == k;
      CommandMeans(vm, w, have, i);
    }
  }

  /** Planned again from what the host then reports, there is nothing to do. */
  lemma ReplanIsEmpty(vm: string, w: Want, have: seq<Service>, later: seq<Service>)
    requires Reported(later) == Executed(Reported(have), Commands(vm, Some(w), have), |Commands(vm, Some(w), have)|).0
    ensures Plan(Some(w), later) == ([], [])
  {
    var (enable, disable) := Plan(Some(w), later);
    forall i, on | 0 <= i < |NAMES| ensures !Differs(w, Reported(later), i, on) {
      if Differs(w, Reported(later), i, on) {
        var k := Lower(NAMES[i]);
        PlanConsistent(vm, w, have);
        ExecutedIs(Reported(have), Commands(vm, Some(w), have), |Commands(vm, Some(w), have)|, k);
        PlanTakesEffect(vm, w, have, k);
        assert DeclaredAs(w, k, on);
      }
    }
    if enable != [] {
      PlanIs(w, later, enable[0]);
    }
    if disable != [] {
      PlanIs(w, later, disable[0]);
    }
  }
}
