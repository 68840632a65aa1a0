/** Pruning what a host holds and the declaration does not name: discovery portals,
    and the logins it restores at boot, read from a listing. */
module IscsiPrune {
  import opened Wrappers
  import opened Text
  import Iscsi

  // ---- net.SplitHostPort --------------------------------------------------

  function LastIndex(s: string, c: char): (r: Option<nat>)
    ensures r.Some? ==> r.value < |s| && s[r.value] == c && forall i :: r.value < i < |s| ==> s[i] != c
    ensures r.None? ==> forall i :: 0 <= i < |s| ==> s[i] != c
  {
    if s == "" then None
    else if s[|s| - 1] == c then Some(|s| - 1)
    else LastIndex(s[..|s| - 1], c)
  }

  function FirstIndex(s: string, c: char, from: nat): (r: Option<nat>)
    requires from <= |s|
    ensures r.Some? ==> from <= r.value < |s| && s[r.value] == c && forall i :: from <= i < r.value ==> s[i] != c
    ensures r.None? ==> forall i :: from <= i < |s| ==> s[i] != c
    decreases |s| - from
  {
    if from == |s| then None else if s[from] == c then Some(from) else FirstIndex(s, c, from + 1)
  }

  /** The host of host:port or [host]:port; None is Go's error. */
  function SplitHostPort(s: string): Option<string> {
    match LastIndex(s, ':')
    case None => None
    case Some(i) =>
      if s[0] == '[' then
        match FirstIndex(s, ']', 0)
        case None => None
        case Some(end) =>
          if end + 1 != i || FirstIndex(s, '[', 1).Some? || FirstIndex(s, ']', end + 1).Some? then None
          else Some(s[1..end])
      else if FirstIndex(s[..i], ':', 0).Some? || FirstIndex(s, '[', 0).Some? || FirstIndex(s, ']', 0).Some? then None
      else Some(s[..i])
  }

  function HostOf(declared: string): string {
    var h := Trim(declared);
    match SplitHostPort(h) case None => h case Some(x) => x
  }

  predicate Plain(s: string) {
    forall i :: 0 <= i < |s| ==> s[i] !in {':', '[', ']'}
  }

  lemma {:induction false} LastColon(before: string, port: string)
    requires forall i :: 0 <= i < |port| ==> port[i] != ':'
    ensures LastIndex(before + ":" + port, ':') == Some(|before|)
    decreases |port|
  {
    var s := before + ":" + port;
    if port == "" {
      assert s[|s| - 1] == ':';
    } else {
      assert s[|s| - 1] == port[|port| - 1];
      assert s[..|s| - 1] == before + ":" + port[..|port| - 1];
      LastColon(before, port[..|port| - 1]);
    }
  }

  lemma PlainSplit(host: string, port: string)
    requires Plain(host) && Plain(port) && host != ""
    ensures SplitHostPort(host + ":" + port) == Some(host)
  {
    var s := host + ":" + port;
    LastColon(host, port);
    assert s[0] == host[0] && s[..|host|] == host;
    forall k | 0 <= k < |s| ensures s[k] != '[' && s[k] != ']' {
      if k < |host| { assert s[k] == host[k]; } else if k > |host| { assert s[k] == port[k - |host| - 1]; }
    }
  }

  lemma TrimmedStays(s: string)
    requires Trimmed(s)
    ensures Trim(s) == s
  {
    TrimPadded("", s, "");
    assert "" + s + "" == s;
  }

  /** A portal's host is read back from it, with or without a port. */
  lemma HostRoundTrip(host: string, port: string)
    requires Plain(host) && Plain(port) && Trimmed(host) && host != "" && port != "" && Trimmed(port)
    ensures HostOf(host + ":" + port) == host && HostOf(host) == host
  {
    var s := host + ":" + port;
    assert s[0] == host[0] && s[|s| - 1] == port[|port| - 1];
    TrimmedStays(s);
    TrimmedStays(host);
    PlainSplit(host, port);
  }

  lemma BracketSplit(host: string, port: string)
    requires (forall i :: 0 <= i < |host| ==> host[i] !in {'[', ']'}) && Plain(port)
    ensures SplitHostPort("[" + host + "]:" + port) == Some(host)
  {
    var front := "[" + host + "]";
    var s := front + ":" + port;
    assert "[" + host + "]:" + port == s;
    LastColon(front, port);
    forall k | 0 <= k < |s| ensures (s[k] == ']' <==> k == |host| + 1) && (s[k] == '[' <==> k == 0) {
      if 0 < k <= |host| { assert s[k] == host[k - 1]; }
      if k > |front| { assert s[k] == port[k - |front| - 1]; }
    }
    assert s[|host| + 1] == ']';
    assert FirstIndex(s, ']', 0).value == |host| + 1;
    assert s[1..|host| + 1] == host;
  }

  /** A bracketed address loses its brackets here and keeps them where portals are
      registered: the two readings of one declared portal differ. */
  lemma BracketsDiffer(host: string, port: string)
    requires (forall i :: 0 <= i < |host| ==> host[i] !in {'[', ']'}) && Iscsi.AllDigits(port)
    ensures HostOf("[" + host + "]:" + port) == host
    ensures Iscsi.AddressOf("[" + host + "]:" + port) == "[" + host + "]"
  {
    var front := "[" + host + "]";
    var s := front + ":" + port;
    assert "[" + host + "]:" + port == s;
    Iscsi.AddressRoundTrip(front, port);
    BracketSplit(host, port);
    assert s[0] == '[' && s[|s| - 1] == port[|port| - 1];
    TrimmedStays(s);
  }

  // ---- the listing --------------------------------------------------------

  /** A restored login as the listing shows it; what is not shown is blank. */
  datatype Login = Login(target: string, initiator: string, port: string, addr: string)

  /** A line split at its first colon, both halves trimmed. */
  function SplitLine(line: string): Option<(string, string)> {
    match FirstIndex(line, ':', 0)
    case None => None
    case Some(i) => Some((Trim(line[..i]), Trim(line[i + 1..])))
  }

  datatype Reading = Reading(current: Option<Login>, records: seq<Login>)

  function Closed(r: Reading): seq<Login> {
    match r.current case None => r.records case Some(c) => r.records + [c]
  }

  /** What one line adds. Fields before the first target are dropped with the record
      they would have belonged to. */
  function ReadLine(r: Reading, key: string, value: string): Reading {
    if Same(key, "Target Name") then Reading(Some(Login(value, "", "", "")), Closed(r))
    else
      match r.current
      case None => r
      case Some(c) =>
        if Same(key, "Initiator Name") then r.(current := Some(c.(initiator := value)))
        else if Same(key, "Port Number") then r.(current := Some(c.(port := value)))
        else if StartsWith(Lower(key), Lower("Address and Socket")) then r.(current := Some(c.(addr := value)))
        else r
  }

  function ReadAll(lines: seq<string>): Reading {
    if lines == [] then Reading(None, [])
    else
      var r := ReadAll(lines[..|lines| - 1]);
      match SplitLine(lines[|lines| - 1])
      case None => r
      case Some((k, v)) => ReadLine(r, k, v)
  }

  method ReadListing(lines: seq<string>) returns (records: seq<Login>)
    ensures records == Closed(ReadAll(lines))
  {
    var current: Option<Login> := None;
    records := [];
    for i := 0 to |lines|
      invariant Reading(current, records) == ReadAll(lines[..i])
    {
      assert lines[..i + 1][..i] == lines[..i];
      var kv := SplitLine(lines[i]);
      if kv.None? {
        continue;
      }
      var (key, value) := kv.value;
      if Same(key, "Target Name") {
        if current.Some? {
          records := records + [current.value];
        }
        current := Some(Login(value, "", "", ""));
      } else if current.Some? {
        if Same(key, "Initiator Name") {
          current := Some(current.value.(initiator := value));
        } else if Same(key, "Port Number") {
          current := Some(current.value.(port := value));
        } else if StartsWith(Lower(key), Lower("Address and Socket")) {
          current := Some(current.value.(addr := value));
        }
      }
    }
    assert lines[..|lines|] == lines;
    if current.Some? {
      records := records + [current.value];
    }
  }

  /** The white space a listing is laid out with: before the key, around the colon and
      behind the value. */
  datatype Layout = Layout(indent: string, gap: string, lead: string, tail: string)

  predicate Spaces(l: Layout) {
    AllSpace(l.indent) && AllSpace(l.gap) && AllSpace(l.lead) && AllSpace(l.tail)
  }

  function PrintLine(key: string, value: string, l: Layout): string {
    (l.indent + key + l.gap) + ":" + (l.lead + value + l.tail)
  }

  /** A printed line is split into exactly its key and its value, however it is laid
      out and whatever colons the value contains. */
  lemma LineRoundTrip(key: string, value: string, l: Layout)
    requires Spaces(l) && Trimmed(key) && Trimmed(value) && forall i :: 0 <= i < |key| ==> key[i] != ':'
    ensures SplitLine(PrintLine(key, value, l)) == Some((key, value))
  {
    var left, right := l.indent + key + l.gap, l.lead + value + l.tail;
    var line := left + ":" + right;
    forall i | 0 <= i < |left| ensures left[i] != ':' {
      if i < |l.indent| {
        assert left[i] == l.indent[i] && IsSpace(l.indent[i]);
      } else if i < |l.indent| + |key| {
        assert left[i] == key[i - |l.indent|];
      } else {
        assert left[i] == l.gap[i - |l.indent| - |key|] && IsSpace(l.gap[i - |l.indent| - |key|]);
      }
    }
    assert line[|left|] == ':';
    assert FirstIndex(line, ':', 0) == Some(|left|) by {
      assert forall i :: 0 <= i < |left| ==> line[i] == left[i];
    }
    assert line[..|left|] == left && line[|left| + 1..] == right;
    TrimPadded(l.indent, key, l.gap);
    TrimPadded(l.lead, value, l.tail);
  }

  /** One login's lines, in the listing's order. */
  function PrintLogin(g: Login, l: Layout): seq<string> {
    [PrintLine("Target Name", g.target, l), PrintLine("Address and Socket", g.addr, l),
     PrintLine("Initiator Name", g.initiator, l), PrintLine("Port Number", g.port, l)]
  }

  /** Lines between records, or before the first, that are about something else. */
  predicate Noise(lines: seq<string>) {
    forall i :: 0 <= i < |lines| ==> SplitLine(lines[i]).None? || Unrelated(SplitLine(lines[i]).value.0)
  }

  predicate Unrelated(key: string) {
    !Same(key, "Target Name") && !Same(key, "Initiator Name") && !Same(key, "Port Number")
    && !StartsWith(Lower(key), Lower("Address and Socket"))
  }

  /** A listing: each login's lines with noise behind them. */
  function PrintListing(logins: seq<Login>, layouts: seq<Layout>, noise: seq<seq<string>>, head: seq<string>): seq<string>
    requires |layouts| == |noise| == |logins|
  {
    if logins == [] then head
    else
      var n := |logins| - 1;
      PrintListing(logins[..n], layouts[..n], noise[..n], head) + PrintLogin(logins[n], layouts[n]) + noise[n]
  }

  predicate Printable(g: Login) {
    Trimmed(g.target) && Trimmed(g.initiator) && Trimmed(g.port) && Trimmed(g.addr)
  }

  function ReadFrom(r: Reading, lines: seq<string>): Reading {
    if lines == [] then r
    else
      var before := ReadFrom(r, lines[..|lines| - 1]);
      match SplitLine(lines[|lines| - 1])
      case None => before
      case Some((k, v)) => ReadLine(before, k, v)
  }

  lemma {:induction false} ReadConcat(a: seq<string>, b: seq<string>)
    ensures ReadAll(a + b) == ReadFrom(ReadAll(a), b)
  {
    if b == [] {
      assert a + b == a;
    } else {
      assert (a + b)[..|a + b| - 1] == a + b[..|b| - 1];
      ReadConcat(a, b[..|b| - 1]);
    }
  }

  lemma {:induction false} NoiseReadsNothing(r: Reading, lines: seq<string>)
    requires Noise(lines)
    ensures ReadFrom(r, lines) == r
  {
    if lines != [] {
      NoiseReadsNothing(r, lines[..|lines| - 1]);
      var kv := SplitLine(lines[|lines| - 1]);
      if kv.Some? {
        assert Unrelated(kv.value.0);
      }
    }
  }

  lemma KeysTold()
    ensures !Same("Address and Socket", "Target Name") && !Same("Address and Socket", "Initiator Name") && !Same("Address and Socket", "Port Number")
    ensures !Same("Initiator Name", "Target Name") && !Same("Port Number", "Target Name") && !Same("Port Number", "Initiator Name")
  {
    assert |Lower("Address and Socket")| == 18 && |Lower("Target Name")| == 11 && |Lower("Initiator Name")| == 14 && |Lower("Port Number")| == 11;
    assert Lower("Port Number")[0] == 'p' && Lower("Target Name")[0] == 't';
  }

  lemma ReadNext(r: Reading, lines: seq<string>, key: string, value: string, l: Layout)
    requires Spaces(l) && Trimmed(key) && Trimmed(value) && forall i :: 0 <= i < |key| ==> key[i] != ':'
    ensures ReadFrom(r, lines + [PrintLine(key, value, l)]) == ReadLine(ReadFrom(r, lines), key, value)
  {
    LineRoundTrip(key, value, l);
    assert (lines + [PrintLine(key, value, l)])[..|lines|] == lines;
  }

  lemma ReadOne(r: Reading, g: Login, l: Layout)
    requires Printable(g) && Spaces(l)
    ensures ReadFrom(r, PrintLogin(g, l)) == Reading(Some(g), Closed(r))
  {
    var none: seq<string> := [];
    var a := none + [PrintLine("Target Name", g.target, l)];
    var b := a + [PrintLine("Address and Socket", g.addr, l)];
    var c := b + [PrintLine("Initiator Name", g.initiator, l)];
    var d := c + [PrintLine("Port Number", g.port, l)];
    KeysHaveNoColon();
    ReadNext(r, none, "Target Name", g.target, l);
    ReadNext(r, a, "Address and Socket", g.addr, l);
    ReadNext(r, b, "Initiator Name", g.initiator, l);
    ReadNext(r, c, "Port Number", g.port, l);
    FieldsRead(r, g);
    assert PrintLogin(g, l) == d;
  }

  lemma KeysHaveNoColon()
    ensures forall i :: 0 <= i < |"Target Name"| ==> "Target Name"[i] != ':'
    ensures forall i :: 0 <= i < |"Address and Socket"| ==> "Address and Socket"[i] != ':'
    ensures forall i :: 0 <= i < |"Initiator Name"| ==> "Initiator Name"[i] != ':'
    ensures forall i :: 0 <= i < |"Port Number"| ==> "Port Number"[i] != ':'
    ensures Trimmed("Target Name") && Trimmed("Address and Socket") && Trimmed("Initiator Name") && Trimmed("Port Number")
  {
  }

  lemma FieldsRead(r: Reading, g: Login)
    ensures var a := ReadLine(r, "Target Name", g.target);
            var b := ReadLine(a, "Address and Socket", g.addr);
            var c := ReadLine(b, "Initiator Name", g.initiator);
            ReadLine(c, "Port Number", g.port) == Reading(Some(g), Closed(r))
  {
    KeysTold();
  }

  lemma RecordTurn(before: seq<string>, g: Login, l: Layout, noise: seq<string>)
    requires Printable(g) && Spaces(l) && Noise(noise)
    ensures Closed(ReadAll(before + PrintLogin(g, l) + noise)) == Closed(ReadAll(before)) + [g]
  {
    ReadConcat(before, PrintLogin(g, l));
    ReadOne(ReadAll(before), g, l);
    ReadConcat(before + PrintLogin(g, l), noise);
    NoiseReadsNothing(ReadAll(before + PrintLogin(g, l)), noise);
  }

  lemma HeadReadsNothing(head: seq<string>)
    requires Noise(head)
    ensures Closed(ReadAll(head)) == []
  {
    ReadConcat([], head);
    assert [] + head == head;
    NoiseReadsNothing(ReadAll([]), head);
  }

  /** The parser recovers exactly the logins a listing was printed from, whatever the
      layout of each, whatever stands before and between them, and whatever colons
      their values contain. */
  lemma {:induction false} ListingRoundTrip(logins: seq<Login>, layouts: seq<Layout>, noise: seq<seq<string>>, head: seq<string>)
    requires |layouts| == |noise| == |logins|
    requires forall i :: 0 <= i < |logins| ==> Printable(logins[i]) && Spaces(layouts[i]) && Noise(noise[i])
    requires Noise(head)
    ensures Closed(ReadAll(PrintListing(logins, layouts, noise, head))) == logins
  {
    if logins == [] {
      HeadReadsNothing(head);
    } else {
      var n := |logins| - 1;
      ListingRoundTrip(logins[..n], layouts[..n], noise[..n], head);
      RecordTurn(PrintListing(logins[..n], layouts[..n], noise[..n], head), logins[n], layouts[n], noise[n]);
      assert logins == logins[..n] + [logins[n]];
    }
  }

  // ---- pruning ------------------------------------------------------------

  datatype Portal = Portal(addr: string, port: nat)

  /** A session of the host and the addresses it is connected to. */
  datatype Session = Session(target: string, conns: seq<string>)

  /** sessions are the host's; shown are those the first listing shows and connected those
      whose connections it is told of; shownLater, those the listing before the logins
      shows. None of these throws without an answer: then nothing is shown. stuck and
      loginStuck are the removals that throw, by position. */
  datatype Env = Env(sessions: seq<Session>, shown: set<nat>, connected: set<nat>, shownLater: set<nat>,
                     stuck: set<nat>, loginStuck: set<nat>)

  /** Some session is connected to the address. */
  predicate Carries(env: Env, addr: string) {
    exists i :: 0 <= i < |env.sessions| && ContainsSame(env.sessions[i].conns, addr)
  }

  /** Some session is connected to it that the first listing shows with its connections. */
  predicate BusySeen(env: Env, addr: string) {
    exists i :: 0 <= i < |env.sessions| && i in env.shown && i in env.connected && ContainsSame(env.sessions[i].conns, addr)
  }

  predicate Live(env: Env, target: string) {
    exists i :: 0 <= i < |env.sessions| && Same(env.sessions[i].target, target)
  }

  predicate LiveSeen(env: Env, target: string) {
    exists i :: 0 <= i < |env.sessions| && i in env.shownLater && Same(env.sessions[i].target, target)
  }

  /** The addresses of the connections that are shown. */
  method ListBusy(env: Env) returns (busy: seq<string>)
    ensures forall a :: ContainsSame(busy, a) <==> BusySeen(env, a)
  {
    busy := [];
    for i := 0 to |env.sessions|
      invariant forall a :: ContainsSame(busy, a) <==>
                  exists k :: 0 <= k < i && k in env.shown && k in env.connected && ContainsSame(env.sessions[k].conns, a)
    {
      if i in env.shown && i in env.connected {
        forall a ensures ContainsSame(busy + env.sessions[i].conns, a) <==> ContainsSame(busy, a) || ContainsSame(env.sessions[i].conns, a) {
          ContainsEither(busy, env.sessions[i].conns, a);
        }
        busy := busy + env.sessions[i].conns;
      }
    }
  }

  lemma ContainsEither(a: seq<string>, b: seq<string>, x: string)
    ensures ContainsSame(a + b, x) <==> ContainsSame(a, x) || ContainsSame(b, x)
  {
    if i :| 0 <= i < |a| && Same(a[i], x) {
      assert Same((a + b)[i], x);
    }
    if i :| 0 <= i < |b| && Same(b[i], x) {
      assert Same((a + b)[|a| + i], x);
    }
  }

  /** The targets of the sessions that are shown, in lower case. */
  method ListLive(env: Env) returns (live: seq<string>)
    ensures forall t :: ContainsSame(live, t) <==> LiveSeen(env, t)
  {
    live := [];
    for i := 0 to |env.sessions|
      invariant forall t :: ContainsSame(live, t) <==> exists k :: 0 <= k < i && k in env.shownLater && Same(env.sessions[k].target, t)
    {
      if i in env.shownLater {
        var name := Lower(env.sessions[i].target);
        LowerIdempotent(env.sessions[i].target);
        forall t ensures ContainsSame(live + [name], t) <==> ContainsSame(live, t) || Same(env.sessions[i].target, t) {
          ContainsEither(live, [name], t);
          assert ContainsSame([name], t) <==> Same([name][0], t);
        }
        live := live + [name];
      }
    }
  }

  function Hosts(declared: seq<string>): (r: seq<string>)
    ensures |r| == |declared| && forall i :: 0 <= i < |r| ==> r[i] == HostOf(declared[i])
  {
    seq(|declared|, i requires 0 <= i < |declared| => HostOf(declared[i]))
  }

  function NonBlank(targets: seq<string>): seq<string> {
    if targets == [] then []
    else NonBlank(targets[..|targets| - 1]) + if Blank(targets[|targets| - 1]) then [] else [Lower(Trim(targets[|targets| - 1]))]
  }

  predicate PortalGoes(p: Portal, i: nat, hosts: seq<string>, env: Env) {
    !ContainsSame(hosts, p.addr) && !BusySeen(env, p.addr) && i !in env.stuck
  }

  function FirstWord(s: string): string {
    var t := TrimLeft(s);
    if t == "" || IsSpace(t[0]) then "" else TakeWord(t)
  }

  function TakeWord(t: string): string {
    if t == "" || IsSpace(t[0]) then "" else [t[0]] + TakeWord(t[1..])
  }

  predicate LoginGoes(g: Login, i: nat, targets: seq<string>, env: Env) {
    !ContainsSame(targets, g.target) && !LiveSeen(env, g.target) && FirstWord(g.addr) != "" && i !in env.loginStuck
  }

  function PortalsLeft(portals: seq<Portal>, hosts: seq<string>, env: Env, n: nat): seq<Portal>
    requires n <= |portals|
  {
    if n == 0 then []
    else PortalsLeft(portals, hosts, env, n - 1) + if PortalGoes(portals[n - 1], n - 1, hosts, env) then [] else [portals[n - 1]]
  }

  datatype Fate = Declared | Busy | Stuck | Goes

  function FateOf(p: Portal, i: nat, hosts: seq<string>, env: Env): Fate {
    if ContainsSame(hosts, p.addr) then Declared
    else if BusySeen(env, p.addr) then Busy
    else if i in env.stuck then Stuck
    else Goes
  }

  function Sharing(portals: seq<Portal>, fate: Fate, hosts: seq<string>, env: Env, n: nat): seq<Portal>
    requires n <= |portals|
  {
    if n == 0 then []
    else Sharing(portals, fate, hosts, env, n - 1) + if FateOf(portals[n - 1], n - 1, hosts, env) == fate then [portals[n - 1]] else []
  }

  function LoginsLeft(logins: seq<Login>, targets: seq<string>, env: Env, n: nat): seq<Login>
    requires n <= |logins|
  {
    if n == 0 then []
    else LoginsLeft(logins, targets, env, n - 1) + if LoginGoes(logins[n - 1], n - 1, targets, env) then [] else [logins[n - 1]]
  }

  datatype Result = Refused | Pruned(removed: seq<Portal>, kept: seq<Portal>, failed: seq<Portal>, gone: seq<Login>)

  class Machine {
    var portals: seq<Portal>
    var logins: seq<Login>

    constructor (ps: seq<Portal>, gs: seq<Login>)
      ensures portals == ps && logins == gs
    {
      portals, logins := ps, gs;
    }

    method PrunePortals(hosts: seq<string>, env: Env) returns (removed: seq<Portal>, kept: seq<Portal>, failed: seq<Portal>)
      modifies this`portals
      ensures var was := old(portals);
              && portals == PortalsLeft(was, hosts, env, |was|)
              && removed == Sharing(was, Goes, hosts, env, |was|)
              && kept == Sharing(was, Busy, hosts, env, |was|)
              && failed == Sharing(was, Stuck, hosts, env, |was|)
    {
      var busy := ListBusy(env);
      var listed, left := portals, [];
      removed, kept, failed := [], [], [];
      for i := 0 to |listed|
        invariant left == PortalsLeft(listed, hosts, env, i)
        invariant removed == Sharing(listed, Goes, hosts, env, i)
        invariant kept == Sharing(listed, Busy, hosts, env, i)
        invariant failed == Sharing(listed, Stuck, hosts, env, i)
      {
        var h := listed[i];
        if ContainsSame(hosts, h.addr) {
          left := left + [h];
        } else if ContainsSame(busy, h.addr) {
          kept := kept + [h];
          left := left + [h];
        } else if i in env.stuck {
          failed := failed + [h];
          left := left + [h];
        } else {
          removed := removed + [h];
        }
      }
      portals := left;
    }

    method PruneLogins(listing: seq<string>, targets: seq<string>, env: Env) returns (gone: seq<Login>)
      requires Closed(ReadAll(listing)) == logins
      modifies this`logins
      ensures logins == LoginsLeft(old(logins), targets, env, |old(logins)|)
      ensures forall g :: g in gone <==> exists i :: 0 <= i < |old(logins)| && old(logins)[i] == g && LoginGoes(g, i, targets, env)
    {
      var live := ListLive(env);
      var records := ReadListing(listing);
      var left := [];
      gone := [];
      for i := 0 to |records|
        invariant left == LoginsLeft(records, targets, env, i)
        invariant forall g :: g in gone <==> exists k :: 0 <= k < i && records[k] == g && LoginGoes(g, k, targets, env)
      {
        var g := records[i];
        if ContainsSame(targets, g.target) || ContainsSame(live, g.target) || FirstWord(g.addr) == "" || i in env.loginStuck {
          left := left + [g];
        } else {
          gone := gone + [g];
        }
      }
      logins := left;
    }

    method PruneIscsiPortals(declared: seq<string>, declaredTargets: seq<string>, listing: seq<string>, env: Env)
      returns (r: Result)
      requires Closed(ReadAll(listing)) == logins
      modifies this
      ensures declared == [] || declaredTargets == [] ==> r == Refused && portals == old(portals) && logins == old(logins)
      ensures declared != [] && declaredTargets != [] ==>
                r.Pruned? && r.removed == Sharing(old(portals), Goes, Hosts(declared), env, |old(portals)|)
                && r.kept == Sharing(old(portals), Busy, Hosts(declared), env, |old(portals)|)
                && r.failed == Sharing(old(portals), Stuck, Hosts(declared), env, |old(portals)|)
                && (forall g :: g in r.gone <==>
                      exists i :: 0 <= i < |old(logins)| && old(logins)[i] == g && LoginGoes(g, i, NonBlank(declaredTargets), env))
                && portals == PortalsLeft(old(portals), Hosts(declared), env, |old(portals)|)
                && logins == LoginsLeft(old(logins), NonBlank(declaredTargets), env, |old(logins)|)
    {
      if declared == [] || declaredTargets == [] {
        return Refused;
      }
      var targets := [];
      for i := 0 to |declaredTargets|
        invariant targets == NonBlank(declaredTargets[..i])
      {
        assert declaredTargets[..i + 1][..i] == declaredTargets[..i];
        if !Blank(declaredTargets[i]) {
          targets := targets + [Lower(Trim(declaredTargets[i]))];
        }
      }
      assert declaredTargets[..|declaredTargets|] == declaredTargets;
      var removed, kept, failed := PrunePortals(Hosts(declared), env);
      var gone := PruneLogins(listing, targets, env);
      return Pruned(removed, kept, failed, gone);
    }
  }

  // ---- what goes and what stays -------------------------------------------

  lemma {:induction false} LeftIs(portals: seq<Portal>, hosts: seq<string>, env: Env, n: nat, p: Portal)
    requires n <= |portals|
    ensures p in PortalsLeft(portals, hosts, env, n) <==> exists i :: 0 <= i < n && portals[i] == p && !PortalGoes(p, i, hosts, env)
  {
    if n > 0 {
      LeftIs(portals, hosts, env, n - 1, p);
    }
  }

  /** Every session connected to the address is hidden from the first listing, or its
      connections are. */
  predicate HiddenPaths(env: Env, addr: string) {
    forall i :: 0 <= i < |env.sessions| && ContainsSame(env.sessions[i].conns, addr) ==> i !in env.shown || i !in env.connected
  }

  lemma HiddenPathsUnseen(env: Env, addr: string)
    ensures HiddenPaths(env, addr) <==> !BusySeen(env, addr)
    ensures (forall k :: 0 <= k < |env.sessions| ==> k in env.shown && k in env.connected) ==> (HiddenPaths(env, addr) <==> !Carries(env, addr))
  {
  }

  lemma HostsHold(declared: seq<string>, addr: string)
    ensures ContainsSame(Hosts(declared), addr) <==> exists d :: 0 <= d < |declared| && Same(HostOf(declared[d]), addr)
  {
    var hosts := Hosts(declared);
    if d :| 0 <= d < |declared| && Same(HostOf(declared[d]), addr) {
      assert Same(hosts[d], addr);
    }
  }

  /** A portal goes exactly when the declaration does not name its address, its removal
      does not fail, and every session connected to it is hidden from the listing - so
      with everything shown, none that carries a connection. */
  lemma PortalGoesExactlyWhen(portals: seq<Portal>, declared: seq<string>, env: Env, i: nat)
    requires i < |portals| && forall j, k :: 0 <= j < k < |portals| ==> portals[j] != portals[k]
    ensures portals[i] !in PortalsLeft(portals, Hosts(declared), env, |portals|) <==>
              && (forall d :: 0 <= d < |declared| ==> !Same(HostOf(declared[d]), portals[i].addr))
              && HiddenPaths(env, portals[i].addr)
              && i !in env.stuck
    ensures (forall k :: 0 <= k < |env.sessions| ==> k in env.shown && k in env.connected) ==>
              (HiddenPaths(env, portals[i].addr) <==> !Carries(env, portals[i].addr))
  {
    HiddenPathsUnseen(env, portals[i].addr);
    HostsHold(declared, portals[i].addr);
    LeftOrGoes(portals, Hosts(declared), env, i);
  }

  lemma {:induction false} SharingIs(portals: seq<Portal>, fate: Fate, hosts: seq<string>, env: Env, n: nat, p: Portal)
    requires n <= |portals|
    ensures p in Sharing(portals, fate, hosts, env, n) <==> exists i :: 0 <= i < n && portals[i] == p && FateOf(p, i, hosts, env) == fate
  {
    if n > 0 {
      SharingIs(portals, fate, hosts, env, n - 1, p);
    }
  }

  /** And the report says so of each: an undeclared portal is reported as kept for a
      connection that is shown, as failed, or as removed; a declared one as none of these. */
  lemma ReportedExactlyAs(portals: seq<Portal>, declared: seq<string>, env: Env, i: nat)
    requires i < |portals| && forall j, k :: 0 <= j < k < |portals| ==> portals[j] != portals[k]
    ensures var p, hosts, n := portals[i], Hosts(declared), |portals|;
            var undeclared := forall d :: 0 <= d < |declared| ==> !Same(HostOf(declared[d]), p.addr);
            && (p in Sharing(portals, Busy, hosts, env, n) <==> undeclared && !HiddenPaths(env, p.addr))
            && (p in Sharing(portals, Stuck, hosts, env, n) <==> undeclared && HiddenPaths(env, p.addr) && i in env.stuck)
            && (p in Sharing(portals, Goes, hosts, env, n) <==> undeclared && HiddenPaths(env, p.addr) && i !in env.stuck)
  {
    var p, hosts, n := portals[i], Hosts(declared), |portals|;
    HostsHold(declared, p.addr);
    HiddenPathsUnseen(env, p.addr);
    SharingIs(portals, Busy, hosts, env, n, p);
    SharingIs(portals, Stuck, hosts, env, n, p);
    SharingIs(portals, Goes, hosts, env, n, p);
    assert forall k :: 0 <= k < n && portals[k] == p ==> k == i;
  }

  lemma LeftOrGoes(portals: seq<Portal>, hosts: seq<string>, env: Env, i: nat)
    requires i < |portals| && forall j, k :: 0 <= j < k < |portals| ==> portals[j] != portals[k]
    ensures portals[i] !in PortalsLeft(portals, hosts, env, |portals|) <==> PortalGoes(portals[i], i, hosts, env)
  {
    LeftIs(portals, hosts, env, |portals|, portals[i]);
  }

  /** The listing goes unanswered, and the one portal of a working session is removed with
      the login that would have brought it back. */
  lemma UnansweredPruneTakesAll(addr: string, target: string, g: Login, declared: seq<string>, targets: seq<string>)
    requires forall d :: 0 <= d < |declared| ==> !Same(HostOf(declared[d]), addr)
    requires forall d :: 0 <= d < |targets| && !Blank(targets[d]) ==> !Same(Trim(targets[d]), target)
    requires g.target == target && FirstWord(g.addr) != ""
    ensures var env := Env([Session(target, [addr])], {}, {}, {}, {}, {});
            && Carries(env, addr) && Live(env, target)
            && PortalsLeft([Portal(addr, 3260)], Hosts(declared), env, 1) == []
            && LoginsLeft([g], NonBlank(targets), env, 1) == []
  {
    var env := Env([Session(target, [addr])], {}, {}, {}, {}, {});
    var portals := [Portal(addr, 3260)];
    assert Same([addr][0], addr) && ContainsSame(env.sessions[0].conns, addr) && Same(env.sessions[0].target, target);
    assert PortalsLeft(portals, Hosts(declared), env, 0) == [] && LoginsLeft([g], NonBlank(targets), env, 0) == [];
    NonBlankHolds(targets, target);
    assert !ContainsSame(Hosts(declared), addr);
    assert portals[0].addr == addr && PortalGoes(portals[0], 0, Hosts(declared), env);
    assert LoginGoes([g][0], 0, NonBlank(targets), env);
  }

  lemma {:induction false} LoginLeftIs(logins: seq<Login>, targets: seq<string>, env: Env, n: nat, g: Login)
    requires n <= |logins|
    ensures g in LoginsLeft(logins, targets, env, n) <==> exists i :: 0 <= i < n && logins[i] == g && !LoginGoes(g, i, targets, env)
  {
    if n > 0 {
      LoginLeftIs(logins, targets, env, n - 1, g);
    }
  }

  lemma {:induction false} NonBlankHolds(targets: seq<string>, t: string)
    ensures ContainsSame(NonBlank(targets), t) <==> exists i :: 0 <= i < |targets| && !Blank(targets[i]) && Same(Trim(targets[i]), t)
  {
    if targets != [] {
      var front, last := targets[..|targets| - 1], targets[|targets| - 1];
      NonBlankHolds(front, t);
      LowerIdempotent(Trim(last));
      var a, b := NonBlank(front), NonBlank(targets);
      if ContainsSame(a, t) {
        var i :| 0 <= i < |a| && Same(a[i], t);
        assert Same(b[i], t);
      }
      if ContainsSame(b, t) {
        var i :| 0 <= i < |b| && Same(b[i], t);
        if i < |a| { assert a[i] == b[i]; }
      }
      if !Blank(last) && Same(Trim(last), t) {
        assert Same(b[|a|], t);
      }
    }
  }

  predicate HiddenSessions(env: Env, target: string) {
    forall i :: 0 <= i < |env.sessions| && Same(env.sessions[i].target, target) ==> i !in env.shownLater
  }

  /** A restored login goes exactly when its target is undeclared, every session to it is
      hidden from the later listing, it shows an address, and its removal does not fail -
      so with everything shown, none behind a working session. */
  lemma LoginGoesExactlyWhen(logins: seq<Login>, declaredTargets: seq<string>, env: Env, i: nat)
    requires i < |logins| && forall j, k :: 0 <= j < k < |logins| ==> logins[j] != logins[k]
    ensures logins[i] !in LoginsLeft(logins, NonBlank(declaredTargets), env, |logins|) <==>
              && (forall d :: 0 <= d < |declaredTargets| && !Blank(declaredTargets[d]) ==> !Same(Trim(declaredTargets[d]), logins[i].target))
              && HiddenSessions(env, logins[i].target)
              && FirstWord(logins[i].addr) != "" && i !in env.loginStuck
    ensures (forall k :: 0 <= k < |env.sessions| ==> k in env.shownLater) ==>
              (HiddenSessions(env, logins[i].target) <==> !Live(env, logins[i].target))
  {
    LoginLeftOrGoes(logins, NonBlank(declaredTargets), env, i);
    HiddenSessionsUnseen(env, logins[i].target);
    NonBlankHolds(declaredTargets, logins[i].target);
  }

  lemma LoginLeftOrGoes(logins: seq<Login>, targets: seq<string>, env: Env, i: nat)
    requires i < |logins| && forall j, k :: 0 <= j < k < |logins| ==> logins[j] != logins[k]
    ensures logins[i] !in LoginsLeft(logins, targets, env, |logins|) <==> LoginGoes(logins[i], i, targets, env)
  {
    LoginLeftIs(logins, targets, env, |logins|, logins[i]);
  }

  lemma HiddenSessionsUnseen(env: Env, target: string)
    ensures HiddenSessions(env, target) <==> !LiveSeen(env, target)
    ensures (forall k :: 0 <= k < |env.sessions| ==> k in env.shownLater) ==> (HiddenSessions(env, target) <==> !Live(env, target))
  {
  }

  /** The guard asks for a list, not for a name in it: with nothing but blanks declared,
      every login without a live session goes, exactly as with none. */
  lemma {:induction false} BlankTargetsNameNothing(declaredTargets: seq<string>)
    ensures NonBlank(declaredTargets) == [] <==> forall i :: 0 <= i < |declaredTargets| ==> Blank(declaredTargets[i])
    decreases |declaredTargets|
  {
    if declaredTargets != [] {
      var front, last := declaredTargets[..|declaredTargets| - 1], declaredTargets[|declaredTargets| - 1];
      BlankTargetsNameNothing(front);
      assert declaredTargets == front + [last];
      if NonBlank(front) == [] && Blank(last) {
        forall i | 0 <= i < |declaredTargets| ensures Blank(declaredTargets[i]) {
          if i < |front| { assert Blank(front[i]); }
        }
      } else if NonBlank(front) != [] {
        var i :| 0 <= i < |front| && !Blank(front[i]);
        assert !Blank(declaredTargets[i]);
      }
    }
  }
}
