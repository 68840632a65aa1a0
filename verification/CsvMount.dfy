/** Giving cluster shared volumes the mount points their declarations name: every
    member runs the pass, each volume's owner renames. */
module CsvMount {
  import opened Wrappers
  import opened Text

  // ---- PowerShell's -like -------------------------------------------------

  function Index(p: string, c: char, i: nat): (r: Option<nat>)
    requires i <= |p|
    ensures r.Some? ==> i <= r.value < |p| && p[r.value] == c && forall k :: i <= k < r.value ==> p[k] != c
    ensures r.None? ==> forall k :: i <= k < |p| ==> p[k] != c
    decreases |p| - i
  {
    if i == |p| then None else if p[i] == c then Some(i) else Index(p, c, i + 1)
  }

  /** The characters and ranges between a pair of brackets. */
  predicate InSet(c: char, body: string) {
    if body == "" then false
    else if |body| >= 3 && body[1] == '-' then LowerChar(body[0]) <= LowerChar(c) <= LowerChar(body[2]) || InSet(c, body[3..])
    else LowerChar(body[0]) == LowerChar(c) || InSet(c, body[1..])
  }

  /** An unclosed bracket throws, and the caller then sees no match. */
  predicate Like(s: string, p: string)
    decreases |p|, |s|
  {
    if p == "" then s == ""
    else if p[0] == '*' then Like(s, p[1..]) || (s != "" && Like(s[1..], p))
    else if p[0] == '?' then s != "" && Like(s[1..], p[1..])
    else if p[0] == '`' && |p| > 1 then s != "" && LowerChar(s[0]) == LowerChar(p[1]) && Like(s[1..], p[2..])
    else if p[0] == '[' then
      match Index(p, ']', 1)
      case None => false
      case Some(end) => s != "" && InSet(s[0], p[1..end]) && Like(s[1..], p[end + 1..])
    else s != "" && LowerChar(s[0]) == LowerChar(p[0]) && Like(s[1..], p[1..])
  }

  predicate NoWildcard(p: string) {
    forall i :: 0 <= i < |p| ==> p[i] !in {'*', '?', '[', '`'}
  }

  lemma {:induction false} StarMatchesAll(s: string)
    ensures Like(s, "*")
  {
    assert "*"[1..] == "";
    if s != "" {
      StarMatchesAll(s[1..]);
    }
  }

  /** Without a wildcard in it, a path followed by a star matches what begins with it. */
  lemma {:induction false} LikePrefix(s: string, p: string)
    requires NoWildcard(p)
    ensures Like(s, p + "*") <==> StartsWith(Lower(s), Lower(p))
    decreases |p|
  {
    if p == "" {
      assert p + "*" == "*";
      StarMatchesAll(s);
      assert Lower(s)[..0] == Lower(p);
    } else {
      assert (p + "*")[1..] == p[1..] + "*" && (p + "*")[0] == p[0];
      if s != "" {
        LikePrefix(s[1..], p[1..]);
        PrefixStep(s, p);
      }
    }
  }

  lemma PrefixStep(s: string, p: string)
    requires s != "" && p != ""
    ensures StartsWith(Lower(s), Lower(p)) <==> LowerChar(s[0]) == LowerChar(p[0]) && StartsWith(Lower(s[1..]), Lower(p[1..]))
  {
    var a, b := Lower(s), Lower(p);
    assert Lower(s[1..]) == a[1..] && Lower(p[1..]) == b[1..];
    if |p| <= |s| {
      assert a[..|b|] == [a[0]] + a[1..][..|b| - 1];
      assert b == [b[0]] + b[1..];
    }
  }

  /** Brackets match one character of those they list, letter case apart - by itself or in a
      range - and are no match for themselves. */
  lemma BracketsMatchOne(s: string, body: string, rest: string)
    requires forall i :: 0 <= i < |body| ==> body[i] != ']'
    ensures Like(s, "[" + body + "]" + rest) <==> s != "" && InSet(s[0], body) && Like(s[1..], rest)
  {
    var p := "[" + body + "]" + rest;
    assert |p| == |body| + 2 + |rest| && p[0] == '[' && p[|body| + 1] == ']';
    forall i | 1 <= i < |body| + 1 ensures p[i] == body[i - 1] && p[i] != ']' {
    }
    assert Index(p, ']', 1) == Some(|body| + 1);
    assert p[1..|body| + 1] == body;
    assert p[|body| + 2..] == rest;
  }

  lemma {:induction false} ListedExactlyWhen(c: char, body: string)
    requires forall i :: 0 <= i < |body| ==> body[i] != '-'
    ensures InSet(c, body) <==> exists i :: 0 <= i < |body| && LowerChar(body[i]) == LowerChar(c)
  {
    if body != "" {
      ListedExactlyWhen(c, body[1..]);
      assert forall i :: 0 < i < |body| ==> body[i] == body[1..][i - 1];
      assert forall i :: 0 <= i < |body| - 1 ==> body[1..][i] == body[i + 1];
    }
  }

  lemma InRangeExactlyWhen(c: char, from: char, to: char)
    ensures InSet(c, [from, '-', to]) <==> LowerChar(from) <= LowerChar(c) <= LowerChar(to)
  {
    assert [from, '-', to][3..] == "";
  }

  // ---- the name a volume is declared under --------------------------------

  /** What stands in the last pair of brackets, if the name ends with one. */
  function Wrapped(name: string): Option<string> {
    InBrackets(TrimRight(name))
  }

  function InBrackets(t: string): Option<string> {
    if t == "" || t[|t| - 1] != ')' then None
    else
      match Index(t, '(', AfterClosing(t, |t| - 1))
      case None => None
      case Some(i) => if i + 1 < |t| - 1 then Some(t[i + 1..|t| - 1]) else None
  }

  /** Just behind the last closing bracket before position n, or 0. */
  function AfterClosing(t: string, n: nat): (r: nat)
    requires n <= |t|
    ensures r <= n && (r > 0 ==> t[r - 1] == ')') && forall i :: r <= i < n ==> t[i] != ')'
  {
    if n == 0 then 0 else if t[n - 1] == ')' then n else AfterClosing(t, n - 1)
  }

  function KeyOf(name: string, want: map<string, string>): string {
    if Lower(name) !in want && Wrapped(name).Some? then Wrapped(name).value else name
  }

  /** The directory wanted for a volume; blank for none. The keys are lower-case. */
  function TargetOf(name: string, want: map<string, string>): string {
    var k := Lower(KeyOf(name, want));
    if k in want then want[k] else ""
  }

  /** A volume from the pool, wrapped as the cluster wraps it, is found under its own name. */
  lemma PoolNameFound(wrapper: string, name: string, want: map<string, string>)
    requires (forall i :: 0 <= i < |wrapper| ==> wrapper[i] !in {'(', ')'}) && (forall i :: 0 <= i < |name| ==> name[i] != ')') && name != ""
    requires Lower(wrapper + "(" + name + ")") !in want && Lower(name) in want
    ensures TargetOf(wrapper + "(" + name + ")", want) == want[Lower(name)]
  {
    var t := wrapper + "(" + name + ")";
    assert TrimRight(t) == t;
    assert t[|t| - 1] == ')' && t[|wrapper|] == '(';
    forall i | 0 <= i < |t| - 1 ensures t[i] != ')' {
      if i < |wrapper| { assert t[i] == wrapper[i]; } else if i > |wrapper| { assert t[i] == name[i - |wrapper| - 1]; }
    }
    assert AfterClosing(t, |t| - 1) == 0;
    assert forall i :: 0 <= i < |wrapper| ==> t[i] == wrapper[i];
    assert Index(t, '(', 0).value == |wrapper|;
    assert t[|wrapper| + 1..|t| - 1] == name;
  }

  predicate Unclosed(s: string) {
    forall i :: 0 <= i < |s| ==> s[i] != ')'
  }

  /** Every opening bracket in it has a closing one behind it. */
  predicate ClosedOff(pre: string) {
    forall i :: 0 <= i < |pre| && pre[i] == '(' ==> exists j :: i < j < |pre| && pre[j] == ')'
  }

  lemma NoOpening(pre: string, from: nat)
    requires ClosedOff(pre) && forall j :: from <= j < |pre| ==> pre[j] != ')'
    ensures forall i :: from <= i < |pre| ==> pre[i] != '('
  {
  }

  lemma LastOpening(pre: string, inner: string, t: string)
    requires Unclosed(inner) && ClosedOff(pre) && t == pre + "(" + inner + ")"
    ensures |t| == |pre| + |inner| + 2 && t[|t| - 1] == ')' && t[|pre| + 1..|t| - 1] == inner
    ensures Index(t, '(', AfterClosing(t, |t| - 1)) == Some(|pre|)
  {
    var from := AfterClosing(t, |t| - 1);
    assert t[|pre|] == '(';
    forall i | |pre| < i < |t| - 1 ensures t[i] != ')' {
      assert t[i] == inner[i - |pre| - 1];
    }
    forall j | from <= j < |pre| ensures pre[j] != ')' {
      assert t[j] == pre[j];
    }
    NoOpening(pre, from);
  }

  /** What is taken from a wrapped name is exactly what stands in a pair of brackets at its
      end, white space apart, and holds no closing bracket itself: from the first opening one
      behind the last pair before it. */
  lemma WrappedExactlyWhen(name: string, pre: string, inner: string)
    requires inner != "" && Unclosed(inner) && ClosedOff(pre) && TrimRight(name) == pre + "(" + inner + ")"
    ensures Wrapped(name) == Some(inner)
  {
    LastOpening(pre, inner, TrimRight(name));
  }

  lemma SplitsAt(t: string, i: nat)
    requires i < |t| - 1 && t[i] == '(' && t[|t| - 1] == ')'
    ensures t == t[..i] + "(" + t[i + 1..|t| - 1] + ")"
  {
  }

  /** And a name that does not end so is not wrapped. */
  lemma UnwrappedUnless(name: string)
    requires Wrapped(name).Some?
    ensures var t, x := TrimRight(name), Wrapped(name).value;
            x != "" && Unclosed(x) && |t| >= |x| + 2 && t == t[..|t| - |x| - 2] + "(" + x + ")"
  {
    BracketsSplit(TrimRight(name));
  }

  lemma BracketsSplit(t: string)
    requires InBrackets(t).Some?
    ensures var x := InBrackets(t).value; x != "" && Unclosed(x) && |t| >= |x| + 2 && t == t[..|t| - |x| - 2] + "(" + x + ")"
  {
    var from := AfterClosing(t, |t| - 1);
    var i := Index(t, '(', from).value;
    SplitsAt(t, i);
    InnerUnclosed(t, from, i);
  }

  lemma InnerUnclosed(t: string, from: nat, i: nat)
    requires from <= i < |t| - 1 && forall k :: from <= k < |t| - 1 ==> t[k] != ')'
    ensures Unclosed(t[i + 1..|t| - 1])
  {
  }

  /** The directory is that declared under the volume's whole name, and only failing that the
      one declared under the name it wraps; letter case apart. */
  lemma TargetExactlyWhen(name: string, want: map<string, string>)
    ensures TargetOf(name, want) ==
              if Lower(name) in want then want[Lower(name)]
              else if Wrapped(name).Some? && Lower(Wrapped(name).value) in want then want[Lower(Wrapped(name).value)]
              else ""
  {
  }

  // ---- the cluster --------------------------------------------------------

  /** leaf is the mount directory; it is not there while the volume is not up. */
  datatype Vol = Vol(name: string, leaf: string, up: bool, owner: string)

  /** root is the directory the mount points are in; others are directories beside
      them; disks, the virtual disks of the VMs on each node. */
  datatype Cluster = Cluster(root: string, vols: seq<Vol>, others: seq<string>, disks: map<string, seq<string>>)

  /** What a pass read of a volume when it listed them; leaf is blank if it was not up. */
  datatype Reading = Reading(leaf: string, owner: string)

  /** What a turn meets: which of the node's own virtual disks its listing does not show -
      all of them if Hyper-V does not answer - and whether the rename throws. */
  datatype Meet = Meet(hidden: set<nat>, fails: bool)

  predicate OwnsIt(node: string, owner: string) {
    owner == "" || StartsWith(Lower(owner), Lower(node))
  }

  /** The in-use test: of the node's own VMs, and of those shown. */
  predicate InUse(c: Cluster, node: string, cur: string, hidden: set<nat>) {
    node in c.disks && exists i :: 0 <= i < |c.disks[node]| && i !in hidden && Like(c.disks[node][i], cur + "*")
  }

  predicate Mounted(v: Vol, leaf: string) {
    v.up && Same(v.leaf, leaf)
  }

  predicate Exists(c: Cluster, leaf: string) {
    (exists i :: 0 <= i < |c.vols| && Mounted(c.vols[i], leaf)) || ContainsSame(c.others, leaf)
  }

  function FindMount(vols: seq<Vol>, leaf: string, i: nat): (r: Option<nat>)
    requires i <= |vols|
    ensures r.Some? ==> i <= r.value < |vols| && Mounted(vols[r.value], leaf)
    ensures r.None? ==> forall k :: i <= k < |vols| ==> !Mounted(vols[k], leaf)
    decreases |vols| - i
  {
    if i == |vols| then None else if Mounted(vols[i], leaf) then Some(i) else FindMount(vols, leaf, i + 1)
  }

  /** Renaming the directory called leaf, whatever it is by now. */
  function Rename(c: Cluster, leaf: string, target: string): (Cluster, bool) {
    match FindMount(c.vols, leaf, 0)
    case Some(j) => (c.(vols := c.vols[j := c.vols[j].(leaf := target)]), true)
    case None => (c, false)
  }

  /** Every guard of a rename but the in-use test, from what the node read. */
  predicate Due(c: Cluster, node: string, r: Reading, target: string) {
    && target != "" && r.leaf != "" && !Same(r.leaf, target)
    && OwnsIt(node, r.owner)
    && !Exists(c, target)
  }

  /** A node's decision about a volume: rename or leave. */
  predicate Renames(c: Cluster, node: string, r: Reading, target: string, m: Meet) {
    Due(c, node, r, target) && !InUse(c, node, c.root + r.leaf, m.hidden) && !m.fails
  }

  /** One volume's turn in a node's pass. */
  function Turn(c: Cluster, node: string, r: Reading, target: string, m: Meet): (Cluster, bool) {
    if Renames(c, node, r, target, m) then Rename(c, r.leaf, target) else (c, false)
  }

  /** The directory wanted for each volume. */
  function Goals(vols: seq<Vol>, want: map<string, string>): (r: seq<string>)
    ensures |r| == |vols| && forall i :: 0 <= i < |vols| ==> r[i] == TargetOf(vols[i].name, want)
  {
    seq(|vols|, i requires 0 <= i < |vols| => TargetOf(vols[i].name, want))
  }

  /** The first n turns of a pass; the volumes renamed, in order. */
  function Passed(c: Cluster, node: string, seen: seq<Reading>, goals: seq<string>, meets: seq<Meet>, n: nat): (Cluster, seq<nat>)
    requires n <= |seen| == |goals| == |meets|
  {
    if n == 0 then (c, [])
    else
      var (c1, done) := Passed(c, node, seen, goals, meets, n - 1);
      var (c2, renamed) := Turn(c1, node, seen[n - 1], goals[n - 1], meets[n - 1]);
      (c2, if renamed then done + [n - 1] else done)
  }

  lemma PassedNext(c: Cluster, node: string, seen: seq<Reading>, goals: seq<string>, meets: seq<Meet>, n: nat,
      now: (Cluster, seq<nat>), turn: (Cluster, bool))
    requires n < |seen| == |goals| == |meets| && now == Passed(c, node, seen, goals, meets, n)
    requires turn == Turn(now.0, node, seen[n], goals[n], meets[n])
    ensures Passed(c, node, seen, goals, meets, n + 1) == (turn.0, if turn.1 then now.1 + [n] else now.1)
  {
  }

  class Machine {
    const root: string
    var vols: seq<Vol>
    const others: seq<string>
    const disks: map<string, seq<string>>

    function Contents(): Cluster
      reads this
    {
      Cluster(root, vols, others, disks)
    }

    constructor (c: Cluster)
      ensures Contents() == c
    {
      root, vols, others, disks := c.root, c.vols, c.others, c.disks;
    }

    method TryRename(node: string, r: Reading, target: string, m: Meet) returns (renamed: bool)
      modifies this
      ensures (Contents(), renamed) == Turn(old(Contents()), node, r, target, m)
    {
      if target == "" || r.leaf == "" || Same(r.leaf, target) {
        return false;
      }
      if !OwnsIt(node, r.owner) {
        return false;
      }
      if InUse(Contents(), node, root + r.leaf, m.hidden) || Exists(Contents(), target) || m.fails {
        return false;
      }
      var at := FindMount(vols, r.leaf, 0);
      if at.None? {
        return false;
      }
      vols := vols[at.value := vols[at.value].(leaf := target)];
      return true;
    }

    method RenameAll(node: string, seen: seq<Reading>, goals: seq<string>, meets: seq<Meet>) returns (renamed: seq<nat>)
      requires |seen| == |goals| == |meets|
      modifies this
      ensures (Contents(), renamed) == Passed(old(Contents()), node, seen, goals, meets, |seen|)
    {
      ghost var was := Contents();
      renamed := [];
      for n := 0 to |seen|
        invariant (Contents(), renamed) == Passed(was, node, seen, goals, meets, n)
      {
        ghost var now := (Contents(), renamed);
        var ok := TryRename(node, seen[n], goals[n], meets[n]);
        PassedNext(was, node, seen, goals, meets, n, now, (Contents(), ok));
        if ok {
          renamed := renamed + [n];
        }
      }
    }

    method EnsureMountPoints(node: string, seen: seq<Reading>, want: map<string, string>, meets: seq<Meet>)
      returns (renamed: seq<nat>)
      requires |seen| == |vols| == |meets|
      modifies this
      ensures (Contents(), renamed) == Passed(old(Contents()), node, seen, Goals(old(vols), want), meets, |seen|)
    {
      renamed := RenameAll(node, seen, Goals(vols, want), meets);
    }
  }
}

/** Mount points over any interleaving of the members' passes. */
module CsvMountRuns {
  import opened Wrappers
  import opened Text
  import opened CsvMount

  // ---- runs ---------------------------------------------------------------

  /** A volume's turn on some node with what that node read earlier; ownership moving;
      VMs starting and stopping; a volume going offline and coming back under some name. */
  datatype Event =
    | Turns(node: string, i: nat, r: Reading, m: Meet)
    | Moves(i: nat, owner: string)
    | Runs(disks: map<string, seq<string>>)
    | Drops(i: nat)
    | Returns(i: nat, leaf: string)

  predicate Applies(e: Event, goals: seq<string>) {
    (e.Turns? || e.Moves? || e.Drops? || e.Returns?) ==> e.i < |goals|
  }

  /** goals are the directories wanted, volume by volume; no name of a volume changes. A
      volume comes back only where there is no directory. */
  function After(c: Cluster, e: Event, goals: seq<string>): Cluster
    requires Applies(e, goals) && |c.vols| == |goals|
  {
    match e
    case Turns(node, i, r, m) => Turn(c, node, r, goals[i], m).0
    case Moves(i, owner) => c.(vols := c.vols[i := c.vols[i].(owner := owner)])
    case Runs(disks) => c.(disks := disks)
    case Drops(i) => c.(vols := c.vols[i := c.vols[i].(up := false)])
    case Returns(i, leaf) =>
      if leaf == "" || c.vols[i].up || Exists(c, leaf) then c
      else c.(vols := c.vols[i := c.vols[i].(leaf := leaf, up := true)])
  }

  // ---- distinct mount directories, whatever happens -----------------------

  predicate MountsDistinct(vols: seq<Vol>) {
    forall i, j :: 0 <= i < j < |vols| && vols[i].up && vols[j].up ==> !Same(vols[i].leaf, vols[j].leaf)
  }

  lemma StepKeepsMounts(c: Cluster, e: Event, goals: seq<string>)
    requires Applies(e, goals) && |c.vols| == |goals| && MountsDistinct(c.vols)
    ensures |After(c, e, goals).vols| == |goals| && MountsDistinct(After(c, e, goals).vols)
  {
    var vols, vols' := c.vols, After(c, e, goals).vols;
    forall i, j | 0 <= i < j < |vols'| && vols'[i].up && vols'[j].up ensures !Same(vols'[i].leaf, vols'[j].leaf) {
      if e.Turns? && vols' != vols {
        assert vols[i].up && vols[j].up;
        assert !Mounted(vols[i], goals[e.i]) && !Mounted(vols[j], goals[e.i]);
      }
      if e.Returns? && vols' != vols {
        assert i != e.i ==> !Mounted(vols[i], e.leaf);
        assert j != e.i ==> !Mounted(vols[j], e.leaf);
      }
    }
  }

  /** In any run whatever - readings of any age or none, volumes going and coming back
      under any name - the mount directories there are stay pairwise distinct. */
  lemma {:induction false} MountsStayDistinct(states: seq<Cluster>, events: seq<Event>, goals: seq<string>, n: nat)
    requires |states| == |events| + 1 && n <= |events| && |states[0].vols| == |goals|
    requires forall k :: 0 <= k < |events| ==> Applies(events[k], goals) && (|states[k].vols| == |goals| ==> states[k + 1] == After(states[k], events[k], goals))
    requires MountsDistinct(states[0].vols)
    ensures |states[n].vols| == |goals| && MountsDistinct(states[n].vols)
  {
    if n > 0 {
      MountsStayDistinct(states, events, goals, n - 1);
      StepKeepsMounts(states[n - 1], events[n - 1], goals);
    }
  }

  // ---- which volume a turn renames ----------------------------------------

  predicate Distinct(vols: seq<Vol>) {
    && (forall i :: 0 <= i < |vols| ==> vols[i].leaf != "")
    && forall i, j :: 0 <= i < j < |vols| ==> !Same(vols[i].leaf, vols[j].leaf)
  }

  /** No other volume is to have the name volume i has. */
  predicate UnwantedByOthers(vols: seq<Vol>, goals: seq<string>, i: nat)
    requires i < |vols| == |goals|
  {
    forall j :: 0 <= j < |goals| && j != i && goals[j] != "" ==> !Same(vols[i].leaf, goals[j])
  }

  /** Names are distinct, and what is down has a name no other volume will take. */
  predicate Apart(vols: seq<Vol>, goals: seq<string>) {
    && |vols| == |goals| && Distinct(vols)
    && forall i :: 0 <= i < |vols| && !vols[i].up ==> UnwantedByOthers(vols, goals, i)
  }

  predicate Misnamed(v: Vol, goal: string) {
    goal != "" && !Same(v.leaf, goal)
  }

  function CountMisnamed(vols: seq<Vol>, goals: seq<string>, n: nat): nat
    requires n <= |vols| == |goals|
  {
    if n == 0 then 0 else CountMisnamed(vols, goals, n - 1) + if Misnamed(vols[n - 1], goals[n - 1]) then 1 else 0
  }

  /** The reading was true once: since then the volume is where it was read, or it has
      been given its directory. */
  predicate Was(v: Vol, leaf: string, goal: string) {
    v.leaf == leaf || (goal != "" && v.leaf == goal)
  }

  /** A turn acts on a reading that was true once, of a volume that is up or has not been
      renamed since; a volume goes offline only with a name no other is to take, and
      comes back under it. */
  predicate Steady(c: Cluster, e: Event, goals: seq<string>)
    requires |c.vols| == |goals| && Applies(e, goals)
  {
    match e
    case Turns(_, i, r, _) => r.leaf != "" ==> Was(c.vols[i], r.leaf, goals[i]) && (c.vols[i].up || c.vols[i].leaf == r.leaf)
    case Drops(i) => UnwantedByOthers(c.vols, goals, i)
    case Returns(i, leaf) => leaf == c.vols[i].leaf
    case Moves(_, _) => true
    case Runs(_) => true
  }

  lemma SameLeaf(vols: seq<Vol>, leaf: string, i: nat)
    requires Distinct(vols) && i < |vols| && vols[i].leaf == leaf
    ensures FindMount(vols, leaf, 0) == if vols[i].up then Some(i) else None
  {
  }

  /** What a turn renames, if it renames, is the volume it is about: one that has moved
      on since it was read is already at its target, which then exists. */
  lemma TurnRenamesItsOwn(c: Cluster, node: string, i: nat, r: Reading, goal: string, m: Meet)
    requires i < |c.vols| && Distinct(c.vols)
    requires r.leaf != "" ==> Was(c.vols[i], r.leaf, goal) && (c.vols[i].up || c.vols[i].leaf == r.leaf)
    ensures var (c', renamed) := Turn(c, node, r, goal, m);
            && (renamed <==> c.vols[i].up && Renames(c, node, r, goal, m))
            && (renamed ==> c.vols[i].leaf == r.leaf && Misnamed(c.vols[i], goal))
            && c' == (if renamed then c.(vols := c.vols[i := c.vols[i].(leaf := goal)]) else c)
            && (renamed ==> !Exists(c, goal))
  {
    if goal != "" && c.vols[i].up && c.vols[i].leaf == goal {
      assert Mounted(c.vols[i], goal) && Exists(c, goal);
    }
    if Renames(c, node, r, goal, m) {
      SameLeaf(c.vols, r.leaf, i);
    }
  }

  /** A directory of that name is there: a volume's that is up, or another. */
  predicate Taken(c: Cluster, leaf: string) {
    || (exists i :: 0 <= i < |c.vols| && c.vols[i].up && Lower(c.vols[i].leaf) == Lower(leaf))
    || (exists i :: 0 <= i < |c.others| && Lower(c.others[i]) == Lower(leaf))
  }

  lemma {:induction false} ContainsMeans(names: seq<string>, name: string)
    ensures ContainsSame(names, name) <==> exists i :: 0 <= i < |names| && Lower(names[i]) == Lower(name)
  {
    if names != [] {
      ContainsMeans(names[1..], name);
      assert forall i :: 0 < i < |names| ==> names[i] == names[1..][i - 1];
      assert forall i :: 0 <= i < |names| - 1 ==> names[1..][i] == names[i + 1];
    }
  }

  lemma TakenIsThere(c: Cluster, leaf: string)
    ensures Taken(c, leaf) <==> Exists(c, leaf)
  {
    ContainsMeans(c.others, leaf);
    if i :| 0 <= i < |c.vols| && c.vols[i].up && Lower(c.vols[i].leaf) == Lower(leaf) {
      assert Mounted(c.vols[i], leaf);
    }
    if i :| 0 <= i < |c.vols| && Mounted(c.vols[i], leaf) {
      assert c.vols[i].up && Lower(c.vols[i].leaf) == Lower(leaf);
    }
  }

  /** The first volume that is up under the name. */
  predicate FirstUp(vols: seq<Vol>, leaf: string, j: nat) {
    && j < |vols| && vols[j].up && Lower(vols[j].leaf) == Lower(leaf)
    && forall k :: 0 <= k < j && vols[k].up ==> Lower(vols[k].leaf) != Lower(leaf)
  }

  lemma {:induction false} FindsFirst(vols: seq<Vol>, leaf: string, i: nat)
    requires i <= |vols| && forall k :: 0 <= k < i && vols[k].up ==> Lower(vols[k].leaf) != Lower(leaf)
    ensures FindMount(vols, leaf, i).Some? ==> FirstUp(vols, leaf, FindMount(vols, leaf, i).value)
    ensures FindMount(vols, leaf, i).None? ==> forall k :: 0 <= k < |vols| && vols[k].up ==> Lower(vols[k].leaf) != Lower(leaf)
    decreases |vols| - i
  {
    if i < |vols| && !Mounted(vols[i], leaf) {
      FindsFirst(vols, leaf, i + 1);
    }
  }

  /** A turn renames if and only if: a directory is wanted and one was read, and they differ
      beyond case; the owner that was read is the node or begins with its name, or none was;
      there is no directory of the wanted name; no disk of the node's own VMs that the listing
      shows matches the path; the rename does not throw; and some volume is up under the name
      that was read - of which the first gets the wanted name, and nothing else changes. */
  lemma TurnsExactlyWhen(c: Cluster, node: string, r: Reading, goal: string, m: Meet)
    ensures var (c', renamed) := Turn(c, node, r, goal, m);
            && (renamed <==>
                  && goal != "" && r.leaf != "" && Lower(r.leaf) != Lower(goal)
                  && (r.owner == "" || StartsWith(Lower(r.owner), Lower(node)))
                  && !Taken(c, goal) && !m.fails
                  && (node in c.disks ==> forall i :: 0 <= i < |c.disks[node]| && i !in m.hidden ==> !Like(c.disks[node][i], c.root + r.leaf + "*"))
                  && exists j: nat :: FirstUp(c.vols, r.leaf, j))
            && (!renamed ==> c' == c)
            && (renamed ==> forall j: nat :: FirstUp(c.vols, r.leaf, j) ==> c' == c.(vols := c.vols[j := c.vols[j].(leaf := goal)]))
  {
    TakenIsThere(c, goal);
    FindsFirst(c.vols, r.leaf, 0);
    assert (c.root + r.leaf) + "*" == c.root + r.leaf + "*";
  }

  /** A pass is its turns, one for each volume and in their order, each on the cluster the
      one before left; and it reports those that renamed. */
  lemma {:induction false} PassIsItsTurns(c: Cluster, node: string, seen: seq<Reading>, goals: seq<string>, meets: seq<Meet>, n: nat)
    returns (states: seq<Cluster>)
    requires n <= |seen| == |goals| == |meets| == |c.vols|
    ensures |states| == n + 1 && states[0] == c && states[n] == Passed(c, node, seen, goals, meets, n).0
    ensures forall k :: 0 <= k <= n ==> |states[k].vols| == |goals|
    ensures forall k :: 0 <= k < n ==> states[k + 1] == After(states[k], Turns(node, k, seen[k], meets[k]), goals)
    ensures forall k: nat :: k in Passed(c, node, seen, goals, meets, n).1 <==> k < n && Turn(states[k], node, seen[k], goals[k], meets[k]).1
  {
    if n == 0 {
      states := [c];
    } else {
      var front := PassIsItsTurns(c, node, seen, goals, meets, n - 1);
      states := front + [Passed(c, node, seen, goals, meets, n).0];
      var now := Passed(c, node, seen, goals, meets, n - 1);
      PassedNext(c, node, seen, goals, meets, n - 1, now, Turn(now.0, node, seen[n - 1], goals[n - 1], meets[n - 1]));
      assert forall k :: 0 <= k < n ==> states[k] == front[k];
    }
  }

  /** Whatever was read: a turn that renames renames the volume it is about if and only if
      that one is up, under the name that was read. */
  lemma RenamesItsOwnExactlyWhen(c: Cluster, node: string, i: nat, r: Reading, goal: string, m: Meet)
    requires i < |c.vols| && MountsDistinct(c.vols) && Turn(c, node, r, goal, m).1
    ensures Turn(c, node, r, goal, m).0 == c.(vols := c.vols[i := c.vols[i].(leaf := goal)]) <==> Mounted(c.vols[i], r.leaf)
  {
    var j := FindMount(c.vols, r.leaf, 0).value;
    var vols := c.vols[i := c.vols[i].(leaf := goal)];
    if j != i {
      assert vols[j] == c.vols[j] && Same(c.vols[j].leaf, r.leaf) && !Same(r.leaf, goal);
    }
  }

  /** The reading of a volume that has since been renamed and gone offline names another
      by now: the turn gives that one this one's name. */
  lemma StaleReadingHitsAnother(c: Cluster, node: string)
    requires c.others == [] && node !in c.disks
    requires c.vols == [Vol("a", "A", false, node), Vol("b", "B", true, node)]
    ensures Turn(c, node, Reading("B", node), "A", Meet({}, false)) == (c.(vols := [Vol("a", "A", false, node), Vol("b", "A", true, node)]), true)
  {
    assert Lower("A") == "a" && Lower("B") == "b";
    assert !Mounted(c.vols[0], "A") && !Mounted(c.vols[1], "A");
    assert Lower(node)[..|Lower(node)|] == Lower(node);
    assert FindMount(c.vols, "B", 1) == Some(1);
    assert FindMount(c.vols, "B", 0) == Some(1);
    assert c.vols[1 := c.vols[1].(leaf := "A")] == [Vol("a", "A", false, node), Vol("b", "A", true, node)];
  }

  /** Over steady events all names stay distinct, of what is up and what is down. */
  lemma StepKeepsApart(c: Cluster, e: Event, goals: seq<string>)
    requires Apart(c.vols, goals) && Applies(e, goals) && Steady(c, e, goals)
    ensures Apart(After(c, e, goals).vols, goals)
  {
    var vols := c.vols;
    if e.Turns? {
      TurnRenamesItsOwn(c, e.node, e.i, e.r, goals[e.i], e.m);
      if Turn(c, e.node, e.r, goals[e.i], e.m).1 {
        forall k | 0 <= k < |vols| && k != e.i ensures !Same(vols[k].leaf, goals[e.i]) {
          assert vols[k].up ==> !Mounted(vols[k], goals[e.i]);
        }
      }
    }
  }

  /** Once read, always either where it was read or at its target; and once at its
      target, never renamed again. */
  lemma ReadingsAge(c: Cluster, e: Event, goals: seq<string>, k: nat, leaf: string)
    requires Apart(c.vols, goals) && Applies(e, goals) && Steady(c, e, goals) && k < |goals|
    requires Was(c.vols[k], leaf, goals[k])
    ensures |After(c, e, goals).vols| == |goals| && Was(After(c, e, goals).vols[k], leaf, goals[k])
    ensures !Misnamed(c.vols[k], goals[k]) ==> After(c, e, goals).vols[k].leaf == c.vols[k].leaf
  {
    if e.Turns? {
      TurnRenamesItsOwn(c, e.node, e.i, e.r, goals[e.i], e.m);
    }
  }

  lemma {:induction false} SameCount(vols: seq<Vol>, vols': seq<Vol>, goals: seq<string>, n: nat)
    requires n <= |vols| == |vols'| == |goals|
    requires forall k :: 0 <= k < n ==> Misnamed(vols'[k], goals[k]) == Misnamed(vols[k], goals[k])
    ensures CountMisnamed(vols', goals, n) == CountMisnamed(vols, goals, n)
  {
    if n > 0 {
      SameCount(vols, vols', goals, n - 1);
    }
  }

  lemma {:induction false} FixingOneCounts(vols: seq<Vol>, goals: seq<string>, i: nat, n: nat)
    requires i < n <= |vols| == |goals| && Misnamed(vols[i], goals[i])
    ensures CountMisnamed(vols[i := vols[i].(leaf := goals[i])], goals, n) == CountMisnamed(vols, goals, n) - 1
  {
    var fixed := vols[i := vols[i].(leaf := goals[i])];
    if i == n - 1 {
      SameCount(vols, fixed, goals, n - 1);
    } else {
      FixingOneCounts(vols, goals, i, n - 1);
    }
  }

  predicate Renamed(c: Cluster, e: Event, goals: seq<string>)
    requires Applies(e, goals)
  {
    e.Turns? && Turn(c, e.node, e.r, goals[e.i], e.m).1
  }

  /** The number of misnamed volumes drops by one at every rename and never otherwise
      changes. */
  lemma EachRenameCounts(c: Cluster, e: Event, goals: seq<string>)
    requires Apart(c.vols, goals) && Applies(e, goals) && Steady(c, e, goals)
    ensures |After(c, e, goals).vols| == |goals|
    ensures CountMisnamed(After(c, e, goals).vols, goals, |goals|)
         == CountMisnamed(c.vols, goals, |goals|) - if Renamed(c, e, goals) then 1 else 0
  {
    if e.Turns? {
      TurnRenamesItsOwn(c, e.node, e.i, e.r, goals[e.i], e.m);
      if Renamed(c, e, goals) {
        FixingOneCounts(c.vols, goals, e.i, |goals|);
      }
    } else {
      SameCount(c.vols, After(c, e, goals).vols, goals, |goals|);
    }
  }

  /** The reading is true of the state: the directory if the volume is up, or none. */
  predicate ReadAt(c: Cluster, e: Event) {
    e.Turns? && e.i < |c.vols| && e.r.leaf == if c.vols[e.i].up then c.vols[e.i].leaf else ""
  }

  /** What a steady run asks of an event beside the truth of its reading, which comes from
      an earlier state. */
  predicate Orderly(c: Cluster, e: Event, goals: seq<string>)
    requires |c.vols| == |goals| && Applies(e, goals)
  {
    if e.Turns? then c.vols[e.i].up || c.vols[e.i].leaf == e.r.leaf || e.r.leaf == "" else Steady(c, e, goals)
  }

  /** A run: the state before each event and after the last; every turn acts on a
      reading that was true at some point of the run up to it. */
  ghost predicate Run(states: seq<Cluster>, events: seq<Event>, goals: seq<string>) {
    && |states| == |events| + 1
    && (forall n :: 0 <= n < |states| ==> |states[n].vols| == |goals|)
    && (forall n :: 0 <= n < |events| ==> Applies(events[n], goals) && states[n + 1] == After(states[n], events[n], goals))
    && (forall n :: 0 <= n < |events| ==> Orderly(states[n], events[n], goals))
    && (forall n :: 0 <= n < |events| && events[n].Turns? ==> exists m :: 0 <= m <= n && ReadAt(states[m], events[n]))
  }

  /** Every volume is where it was at event m or at its target. */
  ghost predicate SinceThen(states: seq<Cluster>, goals: seq<string>, m: nat, n: nat)
    requires m <= n < |states|
  {
    && |states[m].vols| == |states[n].vols| == |goals|
    && forall k :: 0 <= k < |goals| ==> Was(states[n].vols[k], states[m].vols[k].leaf, goals[k])
  }

  ghost predicate Sound(states: seq<Cluster>, goals: seq<string>, n: nat)
    requires n < |states|
  {
    Apart(states[n].vols, goals) && forall m :: 0 <= m <= n ==> SinceThen(states, goals, m, n)
  }

  lemma SinceTurn(states: seq<Cluster>, events: seq<Event>, goals: seq<string>, m: nat, n: nat)
    requires Run(states, events, goals) && m <= n < |events| && SinceThen(states, goals, m, n)
    requires Apart(states[n].vols, goals) && Steady(states[n], events[n], goals)
    ensures SinceThen(states, goals, m, n + 1)
  {
    forall k | 0 <= k < |goals| ensures Was(states[n + 1].vols[k], states[m].vols[k].leaf, goals[k]) {
      ReadingsAge(states[n], events[n], goals, k, states[m].vols[k].leaf);
    }
  }

  lemma SoundTurn(states: seq<Cluster>, events: seq<Event>, goals: seq<string>, n: nat)
    requires Run(states, events, goals) && n < |events| && Sound(states, goals, n)
    ensures Steady(states[n], events[n], goals)
    ensures Sound(states, goals, n + 1)
  {
    if events[n].Turns? {
      var m :| 0 <= m <= n && ReadAt(states[m], events[n]);
      assert SinceThen(states, goals, m, n);
    }
    StepKeepsApart(states[n], events[n], goals);
    var now := n + 1;
    forall m | 0 <= m <= now ensures SinceThen(states, goals, m, now) {
      if m <= n {
        SinceTurn(states, events, goals, m, n);
      }
    }
  }

  lemma {:induction false} RunsAreSound(states: seq<Cluster>, events: seq<Event>, goals: seq<string>, n: nat)
    requires Run(states, events, goals) && n <= |events| && Apart(states[0].vols, goals)
    ensures Sound(states, goals, n)
  {
    if n > 0 {
      RunsAreSound(states, events, goals, n - 1);
      SoundTurn(states, events, goals, n - 1);
    }
  }

  function RenamesIn(states: seq<Cluster>, events: seq<Event>, goals: seq<string>, n: nat): nat
    requires n <= |events| < |states| && forall k :: 0 <= k < |events| ==> Applies(events[k], goals)
  {
    if n == 0 then 0 else RenamesIn(states, events, goals, n - 1) + if Renamed(states[n - 1], events[n - 1], goals) then 1 else 0
  }

  /** In any such run, by any members, with readings of any age and volumes offline at
      times: the renames made are exactly the volumes no longer misnamed - so no volume is
      renamed twice. */
  lemma {:induction false} RenamesAreFixes(states: seq<Cluster>, events: seq<Event>, goals: seq<string>, n: nat)
    requires Run(states, events, goals) && n <= |events| && Apart(states[0].vols, goals)
    ensures Apart(states[n].vols, goals)
    ensures RenamesIn(states, events, goals, n) == CountMisnamed(states[0].vols, goals, |goals|) - CountMisnamed(states[n].vols, goals, |goals|)
  {
    RunsAreSound(states, events, goals, n);
    if n > 0 {
      RenamesAreFixes(states, events, goals, n - 1);
      RunsAreSound(states, events, goals, n - 1);
      SoundTurn(states, events, goals, n - 1);
      EachRenameCounts(states[n - 1], events[n - 1], goals);
    }
  }

  // ---- who renames, and when ----------------------------------------------

  predicate Uses(disk: string, mount: string) {
    StartsWith(Lower(disk), Lower(mount) + "\\")
  }

  /** A VM on some node has a disk in the directory. */
  predicate UsedOn(c: Cluster, node: string, mount: string) {
    node in c.disks && exists d :: 0 <= d < |c.disks[node]| && Uses(c.disks[node][d], mount)
  }

  predicate UsedSomewhere(c: Cluster, mount: string) {
    exists node :: node in c.disks && UsedOn(c, node, mount)
  }

  /** Some disk of the node's own VMs is shown whose path begins with the directory's. */
  predicate Seen(c: Cluster, node: string, mount: string, hidden: set<nat>) {
    node in c.disks && exists d :: 0 <= d < |c.disks[node]| && d !in hidden && StartsWith(Lower(c.disks[node][d]), Lower(mount))
  }

  lemma SeenIsInUse(c: Cluster, node: string, mount: string, hidden: set<nat>)
    requires NoWildcard(mount)
    ensures Seen(c, node, mount, hidden) <==> InUse(c, node, mount, hidden)
  {
    if node in c.disks {
      forall d | 0 <= d < |c.disks[node]|
        ensures StartsWith(Lower(c.disks[node][d]), Lower(mount)) <==> Like(c.disks[node][d], mount + "*")
      {
        LikePrefix(c.disks[node][d], mount);
      }
    }
  }

  lemma UsedIsSeen(c: Cluster, node: string, mount: string)
    requires UsedOn(c, node, mount)
    ensures Seen(c, node, mount, {})
  {
    var d :| 0 <= d < |c.disks[node]| && Uses(c.disks[node][d], mount);
    var a, b := Lower(c.disks[node][d]), Lower(mount);
    assert a[..|b|] == (b + "\\")[..|b|] == b;
  }

  /** With no wildcard in its path, a directory that VMs of any node use is renamed under
      them exactly when a rename is due, does not throw and finds the directory, and the
      node's listing shows no disk of its own VMs beginning with the path. */
  lemma MovedUnderVmsExactlyWhen(c: Cluster, node: string, r: Reading, goal: string, m: Meet)
    requires NoWildcard(c.root + r.leaf) && UsedSomewhere(c, c.root + r.leaf)
    ensures Turn(c, node, r, goal, m).1 <==>
              && Due(c, node, r, goal) && !m.fails && (exists i :: 0 <= i < |c.vols| && Mounted(c.vols[i], r.leaf))
              && !Seen(c, node, c.root + r.leaf, m.hidden)
  {
    SeenIsInUse(c, node, c.root + r.leaf, m.hidden);
  }

  /** So with the listing answered no node renames a directory one of its own VMs uses. */
  lemma NeverUnderItsOwnVm(c: Cluster, node: string, r: Reading, goal: string, m: Meet)
    requires NoWildcard(c.root + r.leaf) && UsedOn(c, node, c.root + r.leaf) && m.hidden == {}
    ensures Turn(c, node, r, goal, m) == (c, false)
  {
    UsedIsSeen(c, node, c.root + r.leaf);
    SeenIsInUse(c, node, c.root + r.leaf, {});
  }

  /** VMs of other nodes are never looked at: without them the turn does the same. */
  lemma OthersNeverLookedAt(c: Cluster, node: string, r: Reading, goal: string, m: Meet)
    ensures var alone := c.(disks := map n | n in c.disks && n == node :: c.disks[n]);
            Turn(alone, node, r, goal, m) == (Turn(c, node, r, goal, m).0.(disks := alone.disks), Turn(c, node, r, goal, m).1)
  {
    var alone := c.(disks := map n | n in c.disks && n == node :: c.disks[n]);
    assert InUse(alone, node, c.root + r.leaf, m.hidden) <==> InUse(c, node, c.root + r.leaf, m.hidden);
    assert Exists(alone, goal) <==> Exists(c, goal);
  }

  /** Two ways a directory is renamed under a running VM: the VM is another node's, or it
      is this node's and Hyper-V does not answer. */
  lemma UnderAVmExample(root: string, node: string, other: string, answered: bool)
    requires NoWildcard(root) && node != other
    ensures var disk := root + "Volume1\\a.vhdx";
            var c := Cluster(root, [Vol("DS1", "Volume1", true, node)], [], map[(if answered then other else node) := [disk]]);
            && UsedSomewhere(c, root + "Volume1")
            && Turn(c, node, Reading("Volume1", node), "DS1", Meet(if answered then {} else {0}, false)).1
  {
    var disk, mount := root + "Volume1\\a.vhdx", root + "Volume1";
    var holder := if answered then other else node;
    var c := Cluster(root, [Vol("DS1", "Volume1", true, node)], [], map[holder := [disk]]);
    var b := Lower(mount) + "\\";
    assert disk == (mount + "\\") + "a.vhdx" && Lower(disk)[..|b|] == b;
    assert Uses(c.disks[holder][0], mount);
    assert UsedOn(c, holder, mount);
    assert NoWildcard("Volume1") && NoWildcard(mount);
    var r, m := Reading("Volume1", node), Meet(if answered then {} else {0}, false);
    assert |Lower("Volume1")| == 7 && |Lower("DS1")| == 3;
    assert Lower(node)[..|Lower(node)|] == Lower(node);
    assert Mounted(c.vols[0], "Volume1") && !Mounted(c.vols[0], "DS1");
    assert Due(c, node, r, "DS1");
    assert !Seen(c, node, mount, m.hidden);
    MovedUnderVmsExactlyWhen(c, node, r, "DS1", m);
  }

  lemma {:induction false} LikeSkips(s: string, p: string, rest: string, tail: string)
    requires NoWildcard(p) && Lower(s) == Lower(p)
    ensures Like(s + rest, p + tail) <==> Like(rest, tail)
    decreases |p|
  {
    assert |s| == |Lower(s)| == |p|;
    if p == "" {
      assert s + rest == rest && p + tail == tail;
    } else {
      assert (p + tail)[1..] == p[1..] + tail && (s + rest)[1..] == s[1..] + rest;
      assert Lower(s)[0] == Lower(p)[0];
      assert Lower(s[1..]) == Lower(s)[1..] && Lower(p[1..]) == Lower(p)[1..];
      LikeSkips(s[1..], p[1..], rest, tail);
    }
  }

  /** With one, it does: the directory DS[1] is no match for itself, so a disk in it is
      not seen. */
  lemma BracketHidesVm(root: string, file: string)
    requires NoWildcard(root)
    ensures Uses(root + "DS[1]\\" + file, root + "DS[1]")
    ensures !Like(root + "DS[1]\\" + file, root + "DS[1]" + "*")
  {
    var disk := root + "DS[1]\\" + file;
    var front := root + "DS";
    assert NoWildcard("DS") && NoWildcard(front);
    assert disk == front + ("[1]\\" + file);
    assert root + "DS[1]" + "*" == front + "[1]*";
    LikeSkips(front, front, "[1]\\" + file, "[1]*");
    assert Index("[1]*", ']', 1) == Some(2);
    assert "[1]*"[1..2] == "1";
    assert !InSet('[', "1");
    var b := Lower(root + "DS[1]") + "\\";
    assert disk == (root + "DS[1]" + "\\") + file;
    assert Lower(disk)[..|b|] == b;
  }

  /** A node takes a volume for its own exactly when no owner was read or the owner's
      name begins with its own - which a longer name of another member does. */
  lemma OwnsItExactlyWhen(node: string, owner: string)
    ensures OwnsIt(node, owner) <==> owner == "" || (|node| <= |owner| && Same(owner[..|node|], node))
    ensures node != "" ==> OwnsIt(node, node + "0")
  {
    if |node| <= |owner| {
      assert Lower(owner)[..|node|] == Lower(owner[..|node|]);
    }
    assert Lower(node + "0")[..|node|] == Lower(node);
  }
}
