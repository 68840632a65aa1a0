/** Taking an array-presented LUN into the cluster: locate, judge, prepare, hand
    over, name, share, start - stopped after any command, and resumed. */
module Adoption {
  import opened Wrappers
  import opened Text

  // ---- the disk -----------------------------------------------------------

  /** data stands for whatever the partition holds. Foreign is a partition whose
      filesystem cannot be read, Bare one nothing was ever put on; the script
      cannot tell the two apart. */
  datatype Part =
    | Bare
    | Foreign(data: nat)
    | Volume(fs: string, labelled: string, data: nat)

  /** data stands for what a disk holds that has no partition table Windows knows - a
      filesystem or a database written straight to it - and is 0 if that is nothing. */
  datatype Style = Raw(data: nat) | Gpt | Mbr

  /** uid is the identity the cluster reports for it; parts leaves out the reserved ones. */
  datatype Disk = Disk(serial: string, uid: string, number: nat, size: nat,
                       offline: bool, readOnly: bool, style: Style, parts: seq<Part>)

  /** A Physical Disk resource. */
  datatype Res = Res(name: string, uid: string, csv: bool, online: bool)

  datatype Request = Request(name: string, asWitness: bool, wipe: bool, keep: bool, fs: string)

  /** What the cluster offers, with the name it would give the resource. */
  datatype Offer = Offer(uid: string, number: Option<nat>, size: nat, newName: string, accepts: bool)

  /** How starting a resource ends; StaysUnread is a state that cannot be read back. */
  datatype Start = Comes | Stays | StaysUnread | Throws

  /** What the script's readings of the disk show, none of which throws without an
      answer: the partitions when it judges and when it prepares, the filesystems it
      judges by - all but the unread - and the first filesystem once more before it
      formats. */
  datatype Reads = Reads(partsJudged: bool, unread: set<nat>, partsPrepared: bool, volPrepared: bool)

  const ANSWERED := Reads(true, {}, true, true)

  /** left is how many commands get through before the script is stopped; seen, the
      resources the first listing of the cluster shows with their identity - none, if the
      cluster does not answer; sharesSeen, whether its shared volumes are listed;
      listedBefore and listedAfter, whether the names around the joining are;
      listsShared, whether those listings include the shared ones. */
  datatype Env = Env(offers: seq<Offer>, start: Start, renames: bool, seen: set<nat>, sharesSeen: bool,
                     listedBefore: bool, listedAfter: bool, listsShared: bool, look: Reads, left: nat)

  datatype State = State(disk: Disk, cluster: seq<Res>)

  /** A state with the commands that are left. */
  datatype Work = Work(st: State, left: nat)

  datatype Outcome = Changed | Unchanged | Failed

  // What the script makes of the disk, by what its readings g show.

  predicate HasData(d: Disk, g: Reads) {
    !d.style.Raw? && g.partsJudged && d.parts != []
  }

  predicate Ours(d: Disk, name: string, g: Reads) {
    !d.style.Raw? && g.partsJudged && exists i :: 0 <= i < |d.parts| && i !in g.unread && d.parts[i].Volume? && Same(d.parts[i].labelled, name)
  }

  predicate Unreadable(d: Disk, g: Reads) {
    !d.style.Raw? && g.partsJudged && exists i :: 0 <= i < |d.parts| && (!d.parts[i].Volume? || i in g.unread)
  }

  /** Contents it was not told to destroy, nor recognises, nor may keep. */
  predicate Refused(d: Disk, r: Request, g: Reads) {
    HasData(d, g) && !r.wipe && !Ours(d, r.name, g) && (Unreadable(d, g) || !r.keep)
  }

  // ---- locating the LUN ---------------------------------------------------

  datatype Located = Found(at: nat) | Missing | Ambiguous

  predicate Serves(d: Disk, serial: string) {
    d.serial != "" && Same(Trim(d.serial), serial)
  }

  /** The first of the disks that are listed to have the serial; listed is silent, and none
      of them without an answer. */
  function FirstServing(disks: seq<Disk>, listed: set<nat>, serial: string, k: nat): (r: Option<nat>)
    requires k <= |disks|
    ensures r.Some? ==> k <= r.value < |disks| && r.value in listed && Serves(disks[r.value], serial)
    ensures r.Some? ==> forall j :: k <= j < r.value && j in listed ==> !Serves(disks[j], serial)
    ensures r.None? ==> forall j :: k <= j < |disks| && j in listed ==> !Serves(disks[j], serial)
    decreases |disks| - k
  {
    if k == |disks| then None
    else if k in listed && Serves(disks[k], serial) then Some(k)
    else FirstServing(disks, listed, serial, k + 1)
  }

  /** By serial first; then by the target, and only when the target presents one disk. */
  function Locating(disks: seq<Disk>, listed: set<nat>, serial: string, target: string, presented: seq<nat>): Located {
    if serial != "" && FirstServing(disks, listed, serial, 0).Some? then Found(FirstServing(disks, listed, serial, 0).value)
    else if target == "" || presented == [] then Missing
    else if |presented| == 1 then Found(presented[0])
    else Ambiguous
  }

  method Locate(disks: seq<Disk>, listed: set<nat>, serial: string, target: string, presented: seq<nat>) returns (r: Located)
    requires forall i :: 0 <= i < |presented| ==> presented[i] < |disks|
    requires forall i, j :: 0 <= i < j < |presented| ==> presented[i] != presented[j]
    ensures r == Locating(disks, listed, serial, target, presented)
  {
    if serial != "" {
      for i := 0 to |disks|
        invariant FirstServing(disks, listed, serial, 0) == FirstServing(disks, listed, serial, i)
      {
        if i in listed && Serves(disks[i], serial) {
          return Found(i);
        }
      }
    }
    if target == "" || |presented| == 0 {
      return Missing;
    }
    if |presented| > 1 {
      return Ambiguous;
    }
    return Found(presented[0]);
  }

  /** A declared serial does not bind: the disk that is located has another exactly when no
      disk that is listed has the declared one, and the target's one disk has not either. */
  lemma LocatesAnotherExactlyWhen(disks: seq<Disk>, listed: set<nat>, serial: string, target: string, presented: seq<nat>)
    requires forall i :: 0 <= i < |presented| ==> presented[i] < |disks|
    requires serial != "" && Locating(disks, listed, serial, target, presented).Found?
    ensures var at := Locating(disks, listed, serial, target, presented).at;
            at < |disks| &&
            (!Serves(disks[at], serial) <==>
              && (forall i :: 0 <= i < |disks| && i in listed ==> !Serves(disks[i], serial))
              && |presented| == 1 && !Serves(disks[presented[0]], serial))
  {
  }

  /** The disks are not listed, and another LUN is taken although the declared one is there. */
  lemma AnotherLunExample(declared: Disk, other: Disk, serial: string, target: string)
    requires serial != "" && target != "" && Serves(declared, serial) && !Serves(other, serial)
    ensures Locating([declared, other], {}, serial, target, [1]) == Found(1)
    ensures Locating([declared, other], {0, 1}, serial, target, [1]) == Found(0)
  {
    assert FirstServing([declared, other], {}, serial, 2).None?;
  }

  // ---- preparing an unclustered disk --------------------------------------

  datatype Step = Online | Judge | Writable | Clear | Initialize | Partition | Format

  const STEPS: seq<Step> := [Online, Judge, Writable, Clear, Initialize, Partition, Format]

  /** The disk is not yet the way the step would leave it. */
  predicate Due(step: Step, d: Disk, r: Request, g: Reads) {
    match step
    case Online => d.offline
    case Judge => false
    case Writable => d.readOnly
    case Clear => r.wipe && HasData(d, g)
    case Initialize => d.style.Raw?
    case Partition => d.parts == [] || !g.partsPrepared
    case Format => d.parts != [] && (!d.parts[0].Volume? || !g.volPrepared)
  }

  function UseFs(r: Request): string {
    if r.asWitness then "NTFS" else r.fs
  }

  /** A new partition needs a disk without one: it takes all of it. */
  predicate Fits(step: Step, d: Disk) {
    step == Partition ==> d.parts == []
  }

  function Effect(step: Step, d: Disk, r: Request): Disk
    requires step != Judge && (step == Format ==> d.parts != [])
  {
    match step
    case Online => d.(offline := false)
    case Writable => d.(readOnly := false)
    case Clear => d.(style := Raw(0), parts := [])
    case Initialize => d.(style := Gpt)
    case Partition => d.(parts := [Bare])
    case Format => d.(parts := [Volume(UseFs(r), r.name, 0)] + d.parts[1..])
  }

  /** The first n steps; a refusal, a stop or a throw ends them. */
  function Prepared(w: Work, r: Request, g: Reads, n: nat): (Work, bool)
    requires n <= |STEPS|
  {
    if n == 0 then (w, true)
    else
      var (w1, ok) := Prepared(w, r, g, n - 1);
      if !ok then (w1, false) else OneStep(w1, r, g, STEPS[n - 1])
  }

  function OneStep(w: Work, r: Request, g: Reads, step: Step): (Work, bool) {
    if step == Judge then (w, !Refused(w.st.disk, r, g))
    else if !Due(step, w.st.disk, r, g) then (w, true)
    else if w.left == 0 || !Fits(step, w.st.disk) then (w, false)
    else (Work(w.st.(disk := Effect(step, w.st.disk, r)), w.left - 1), true)
  }

  // ---- the cluster --------------------------------------------------------

  predicate Mine(res: Res, d: Disk) {
    d.uid != "" && Same(res.uid, d.uid)
  }

  /** The first resource from k on that is seen and has the disk's identity. */
  function FindHeld(cluster: seq<Res>, d: Disk, seen: set<nat>, k: nat): (r: Option<nat>)
    requires k <= |cluster|
    ensures r.Some? ==> k <= r.value < |cluster| && Mine(cluster[r.value], d) && r.value in seen
    ensures r.None? ==> forall i :: k <= i < |cluster| && i in seen ==> !Mine(cluster[i], d)
    decreases |cluster| - k
  {
    if k == |cluster| then None else if Mine(cluster[k], d) && k in seen then Some(k) else FindHeld(cluster, d, seen, k + 1)
  }

  function FindShared(cluster: seq<Res>, name: string): (r: Option<nat>)
    ensures r.Some? ==> r.value < |cluster| && cluster[r.value].csv && Same(cluster[r.value].name, name)
    ensures r.None? ==> forall i :: 0 <= i < |cluster| && cluster[i].csv ==> !Same(cluster[i].name, name)
  {
    if cluster == [] then None
    else if cluster[0].csv && Same(cluster[0].name, name) then Some(0)
    else
      match FindShared(cluster[1..], name)
      case None => None
      case Some(i) => Some(i + 1)
  }

  function FindNamed(cluster: seq<Res>, name: string, env: Env): (r: Option<nat>)
    ensures r.Some? ==> r.value < |cluster| && Same(cluster[r.value].name, name) && (env.listsShared || !cluster[r.value].csv)
    ensures r.None? ==> forall i :: 0 <= i < |cluster| && (env.listsShared || !cluster[i].csv) ==> !Same(cluster[i].name, name)
  {
    if cluster == [] then None
    else if Same(cluster[0].name, name) && (env.listsShared || !cluster[0].csv) then Some(0)
    else
      match FindNamed(cluster[1..], name, env)
      case None => None
      case Some(i) => Some(i + 1)
  }

  predicate NameTaken(cluster: seq<Res>, name: string) {
    exists i :: 0 <= i < |cluster| && Same(cluster[i].name, name)
  }

  function WithUid(offers: seq<Offer>, uid: string): (r: seq<Offer>)
    ensures forall i :: 0 <= i < |r| ==> r[i] in offers && uid != "" && Same(r[i].uid, uid)
  {
    if offers == [] then []
    else (if uid != "" && Same(offers[0].uid, uid) then [offers[0]] else []) + WithUid(offers[1..], uid)
  }

  function WithNumber(offers: seq<Offer>, number: nat): (r: seq<Offer>)
    ensures forall i :: 0 <= i < |r| ==> r[i] in offers && r[i].number == Some(number)
  {
    if offers == [] then []
    else (if offers[0].number == Some(number) then [offers[0]] else []) + WithNumber(offers[1..], number)
  }

  function WithSize(offers: seq<Offer>, size: nat): (r: seq<Offer>)
    ensures forall i :: 0 <= i < |r| ==> r[i] in offers && r[i].size == size
    ensures r != [] ==> size != 0
  {
    if offers == [] then []
    else (if offers[0].size != 0 && offers[0].size == size then [offers[0]] else []) + WithSize(offers[1..], size)
  }

  /** By identity; failing that by number; failing that by size, if that is unambiguous. */
  function Chosen(offers: seq<Offer>, d: Disk): seq<Offer> {
    if WithUid(offers, d.uid) != [] then WithUid(offers, d.uid)
    else if WithNumber(offers, d.number) != [] then WithNumber(offers, d.number)
    else if |WithSize(offers, d.size)| == 1 then WithSize(offers, d.size)
    else []
  }

  function Added(mine: seq<Offer>): seq<Res> {
    if mine == [] then []
    else (if mine[0].accepts then [Res(mine[0].newName, mine[0].uid, false, false)] else []) + Added(mine[1..])
  }

  /** The listing of names before the joining shows the name. */
  predicate ShownBefore(before: seq<Res>, name: string, env: Env) {
    env.listedBefore && exists i :: 0 <= i < |before| && (env.listsShared || !before[i].csv) && Same(before[i].name, name)
  }

  /** Of the names listed after the joining, the first that was not listed before it. */
  function FirstNew(before: seq<Res>, after: seq<Res>, env: Env, k: nat): (r: Option<string>)
    requires k <= |after|
    ensures r.Some? ==> exists i :: k <= i < |after| && after[i].name == r.value && !ShownBefore(before, after[i].name, env)
                                      && (env.listsShared || !after[i].csv)
    decreases |after| - k
  {
    if !env.listedAfter || k == |after| then None
    else if (env.listsShared || !after[k].csv) && !ShownBefore(before, after[k].name, env) then Some(after[k].name)
    else FirstNew(before, after, env, k + 1)
  }

  /** Add-ClusterDisk, and the resource it made. */
  function Joined(w: Work, env: Env): (Work, Option<nat>) {
    var mine := Chosen(env.offers, w.st.disk);
    if mine == [] || w.left == 0 then (w, None)
    else
      var added := Added(mine);
      var w1 := Work(w.st.(cluster := w.st.cluster + added), w.left - 1);
      match FirstNew(w.st.cluster, w1.st.cluster, env, 0)
      case None => (w1, None)
      case Some(name) => (w1, FindNamed(w1.st.cluster, name, env))
  }

  /** Bringing resource i online: the state, whether it was needed, and whether the
      script goes on. */
  function Started(w: Work, i: nat, env: Env): (Work, bool, bool)
    requires i < |w.st.cluster|
  {
    if w.st.cluster[i].online then (w, false, true)
    else if w.left == 0 || env.start == Throws || env.start == Stays then (w, false, false)
    else if env.start == StaysUnread then (w, true, true)
    else (Work(w.st.(cluster := w.st.cluster[i := w.st.cluster[i].(online := true)]), w.left - 1), true, true)
  }

  /** Renaming resource i. A rename that fails is passed over, and what carries the
      name afterwards is what the script goes on with. */
  function Renamed(w: Work, i: nat, r: Request, env: Env): (Work, Option<nat>)
    requires i < |w.st.cluster|
    ensures Renamed(w, i, r, env).1.Some? ==> Renamed(w, i, r, env).1.value < |Renamed(w, i, r, env).0.st.cluster|
  {
    if r.name == "" || Same(w.st.cluster[i].name, r.name) then (w, Some(i))
    else if w.left == 0 then (w, None)
    else
      var w1 := if !env.renames || NameTaken(w.st.cluster, r.name) then w
                else Work(w.st.(cluster := w.st.cluster[i := w.st.cluster[i].(name := r.name)]), w.left - 1);
      (w1, match FindNamed(w1.st.cluster, r.name, env) case Some(j) => Some(j) case None => Some(i))
  }

  /** Making resource i a shared volume unless one of its name already is, then
      starting it. */
  function Shared(w: Work, i: nat, env: Env): (Work, bool)
    requires i < |w.st.cluster|
  {
    match FindShared(w.st.cluster, w.st.cluster[i].name)
    case Some(j) =>
      var (w1, _, ok) := Started(w, j, env);
      (w1, ok)
    case None =>
      if w.left == 0 then (w, false)
      else
        var w1 := Work(w.st.(cluster := w.st.cluster[i := w.st.cluster[i].(csv := true)]), w.left - 1);
        var (w2, _, ok) := Started(w1, FindShared(w1.st.cluster, w1.st.cluster[i].name).value, env);
        (w2, ok)
  }

  /** Naming and sharing - or, for a witness, naming and starting - resource i. */
  function Finished(w: Work, i: nat, r: Request, env: Env): (State, Outcome)
    requires i < |w.st.cluster|
  {
    match Renamed(w, i, r, env)
    case (w1, None) => (w1.st, Failed)
    case (w1, Some(j)) =>
      if r.asWitness then
        var (w2, _, ok) := Started(w1, j, env);
        (w2.st, if ok then Changed else Failed)
      else
        var (w2, ok) := Shared(w1, j, env);
        (w2.st, if ok then Changed else Failed)
  }

  function OnlyStarted(w: Work, i: nat, env: Env): (State, Outcome)
    requires i < |w.st.cluster|
  {
    var (w1, started, ok) := Started(w, i, env);
    (w1.st, if !ok then Failed else if started then Changed else Unchanged)
  }

  /** The resource that is seen to hold the disk, and the shared volume of the name that
      is listed. */
  function HeldSeen(st: State, env: Env): (r: Option<nat>)
    ensures r.Some? ==> r.value < |st.cluster| && Mine(st.cluster[r.value], st.disk)
  {
    FindHeld(st.cluster, st.disk, env.seen, 0)
  }

  function ShareSeen(st: State, r: Request, env: Env): (s: Option<nat>)
    ensures s.Some? ==> s.value < |st.cluster| && st.cluster[s.value].csv && Same(st.cluster[s.value].name, r.name)
  {
    if env.sharesSeen then FindShared(st.cluster, r.name) else None
  }

  function Adopted(st: State, r: Request, env: Env): (State, Outcome) {
    var w := Work(st, env.left);
    var shared, held := ShareSeen(st, r, env), HeldSeen(st, env);
    if shared.Some? && !r.asWitness then OnlyStarted(w, shared.value, env)
    else if held.Some? && r.asWitness then OnlyStarted(w, held.value, env)
    else if held.Some? then Finished(w, held.value, r, env)
    else
      var (w1, ready) := Prepared(w, r, env.look, |STEPS|);
      if !ready then (w1.st, Failed)
      else
        match Joined(w1, env)
        case (w2, None) => (w2.st, Failed)
        case (w2, Some(i)) => Finished(w2, i, r, env)
  }

  // ---- the procedure ------------------------------------------------------

  class Lun {
    var disk: Disk
    var cluster: seq<Res>
    var left: nat

    function Contents(): Work
      reads this
    {
      Work(State(disk, cluster), left)
    }

    constructor (st: State, commands: nat)
      ensures Contents() == Work(st, commands)
    {
      disk, cluster, left := st.disk, st.cluster, commands;
    }

    method Prepare(r: Request, g: Reads) returns (ok: bool)
      modifies this
      ensures (Contents(), ok) == Prepared(old(Contents()), r, g, |STEPS|)
    {
      ghost var was := Contents();
      ok := true;
      for k := 0 to |STEPS|
        invariant ok && (Contents(), ok) == Prepared(was, r, g, k)
      {
        var step := STEPS[k];
        if step == Judge {
          if Refused(disk, r, g) {
            StaysStopped(was, r, g, k + 1);
            return false;
          }
        } else if Due(step, disk, r, g) {
          if left == 0 || (step == Partition && disk.parts != []) {
            StaysStopped(was, r, g, k + 1);
            return false;
          }
          left := left - 1;
          match step
          case Online => disk := disk.(offline := false);
          case Writable => disk := disk.(readOnly := false);
          case Clear => disk := disk.(style := Raw(0), parts := []);
          case Initialize => disk := disk.(style := Gpt);
          case Partition => disk := disk.(parts := [Bare]);
          case Format => disk := disk.(parts := [Volume(UseFs(r), r.name, 0)] + disk.parts[1..]);
        }
      }
    }

    method Join(env: Env) returns (at: Option<nat>)
      modifies this
      ensures (Contents(), at) == Joined(old(Contents()), env)
    {
      var before := cluster;
      var mine := Chosen(env.offers, disk);
      if mine == [] || left == 0 {
        return None;
      }
      left := left - 1;
      cluster := cluster + Added(mine);
      var name := FirstNew(before, cluster, env, 0);
      if name.None? {
        return None;
      }
      return FindNamed(cluster, name.value, env);
    }

    method EnsureResourceOnline(i: nat, env: Env) returns (started: bool, ok: bool)
      requires i < |cluster|
      modifies this
      ensures (Contents(), started, ok) == Started(old(Contents()), i, env)
    {
      if cluster[i].online {
        return false, true;
      }
      if left == 0 || env.start == Throws || env.start == Stays {
        return false, false;
      }
      if env.start == Comes {
        cluster := cluster[i := cluster[i].(online := true)];
        left := left - 1;
      }
      return true, true;
    }

    method Rename(i: nat, r: Request, env: Env) returns (at: Option<nat>)
      requires i < |cluster|
      modifies this
      ensures (Contents(), at) == Renamed(old(Contents()), i, r, env)
    {
      if r.name == "" || Same(cluster[i].name, r.name) {
        return Some(i);
      }
      if left == 0 {
        return None;
      }
      if env.renames && !NameTaken(cluster, r.name) {
        cluster := cluster[i := cluster[i].(name := r.name)];
        left := left - 1;
      }
      var found := FindNamed(cluster, r.name, env);
      return if found.Some? then found else Some(i);
    }

    method Share(i: nat, env: Env) returns (ok: bool)
      requires i < |cluster|
      modifies this
      ensures (Contents(), ok) == Shared(old(Contents()), i, env)
    {
      var existing := FindShared(cluster, cluster[i].name);
      if existing.None? {
        if left == 0 {
          return false;
        }
        cluster := cluster[i := cluster[i].(csv := true)];
        left := left - 1;
        assert cluster[i].csv;
        existing := FindShared(cluster, cluster[i].name);
      }
      var started: bool;
      started, ok := EnsureResourceOnline(existing.value, env);
    }

    method Finish(i: nat, r: Request, env: Env) returns (out: Outcome)
      requires i < |cluster|
      modifies this
      ensures (Contents().st, out) == Finished(old(Contents()), i, r, env)
    {
      var at := Rename(i, r, env);
      if at.None? {
        return Failed;
      }
      var ok: bool;
      if r.asWitness {
        var started: bool;
        started, ok := EnsureResourceOnline(at.value, env);
      } else {
        ok := Share(at.value, env);
      }
      return if ok then Changed else Failed;
    }

    method Adopt(r: Request, env: Env) returns (out: Outcome)
      requires left == env.left
      modifies this
      ensures (Contents().st, out) == Adopted(old(Contents().st), r, env)
    {
      var held := FindHeld(cluster, disk, env.seen, 0);
      var shared := if env.sharesSeen then FindShared(cluster, r.name) else None;
      if shared.Some? && !r.asWitness {
        var started, ok := EnsureResourceOnline(shared.value, env);
        return if !ok then Failed else if started then Changed else Unchanged;
      }
      if held.Some? && r.asWitness {
        var started, ok := EnsureResourceOnline(held.value, env);
        return if !ok then Failed else if started then Changed else Unchanged;
      }
      var at := held;
      if held.None? {
        var ready := Prepare(r, env.look);
        if !ready {
          return Failed;
        }
        at := Join(env);
        if at.None? {
          return Failed;
        }
      }
      out := Finish(at.value, r, env);
    }
  }

  lemma {:induction false} StaysStopped(w: Work, r: Request, g: Reads, n: nat)
    requires n <= |STEPS| && !Prepared(w, r, g, n).1
    ensures Prepared(w, r, g, |STEPS|) == Prepared(w, r, g, n)
    decreases |STEPS| - n
  {
    if n < |STEPS| {
      StaysStopped(w, r, g, n + 1);
    }
  }

  /** Neither or both of keep and wipe is a mistake nothing guesses about. */
  method AdoptWithContents(lun: Lun, r: Request, env: Env) returns (out: Outcome)
    requires lun.left == env.left
    modifies lun
    ensures r.wipe == r.keep ==> out == Failed && lun.Contents() == old(lun.Contents())
    ensures r.wipe != r.keep ==> (lun.Contents().st, out) == Adopted(old(lun.Contents().st), r, env)
  {
    if r.wipe == r.keep {
      return Failed;
    }
    out := lun.Adopt(r, env);
  }
}
