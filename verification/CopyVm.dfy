/** Moving a VM by copying it: export onto the destination, import there, and only
    then remove the original - with attempts that fail or are killed anywhere, and
    the clearing of what they leave behind. */
module CopyVm {
  import opened Wrappers
  import opened Text
  import SwitchMap

  // ---- paths --------------------------------------------------------------

  function TrimEndSlash(s: string): string {
    if s != "" && s[|s| - 1] == '\\' then TrimEndSlash(s[..|s| - 1]) else s
  }

  function TrimStartSlash(s: string): string {
    if s != "" && s[0] == '\\' then TrimStartSlash(s[1..]) else s
  }

  /** The VM's own folder under the destination path, as the destination spells it. */
  function Target(root: string, vm: string): string {
    TrimEndSlash(root) + "\\" + vm
  }

  /** The file is in the folder. */
  predicate Under(path: string, target: string) {
    StartsWith(Lower(path), Lower(target) + "\\")
  }

  /** The test made before clearing: the path merely begins with the folder's name. */
  predicate Begins(path: string, target: string) {
    path != "" && StartsWith(Lower(path), Lower(target))
  }

  lemma LowerJoins(a: string, b: string)
    ensures Lower(a + b) == Lower(a) + Lower(b)
  {
  }

  /** The configuration found over the share, taken relative to the share and hung off
      the destination's own path, is a file in the VM's folder. */
  lemma ImportPathIsLocal(unc: string, root: string, vm: string, rest: string)
    requires vm != "" && vm[0] != '\\'
    ensures var found := unc + "\\" + vm + "\\" + rest;
            var local := TrimEndSlash(root) + "\\" + TrimStartSlash(found[|unc|..]);
            local == Target(root, vm) + "\\" + rest && Under(local, Target(root, vm))
  {
    var found := unc + "\\" + vm + "\\" + rest;
    assert found[|unc|..] == "\\" + (vm + "\\" + rest);
    assert ("\\" + (vm + "\\" + rest))[1..] == vm + "\\" + rest;
    var t := Target(root, vm);
    assert TrimEndSlash(root) + "\\" + (vm + "\\" + rest) == (t + "\\") + rest;
    LowerJoins(t + "\\", rest);
    LowerJoins(t, "\\");
    assert Lower("\\") == "\\";
  }

  // ---- the two hosts ------------------------------------------------------

  datatype Folder = Absent | Part | Whole

  /** A VM registered on the destination: its own path, those of its disks, and those of the
      disks they are the differences from, which no listing of its disks shows. */
  datatype Reg = Reg(name: string, home: string, disks: seq<string>, parents: seq<string>)

  /** here and off are the VM on the source, role its cluster role there; share is the
      temporary share on the destination. */
  datatype Pair = Pair(here: bool, off: bool, role: bool, folder: Folder, regs: seq<Reg>, share: bool)

  // ---- one attempt, command by command ------------------------------------

  /** After a command the script goes on, throws, or is killed with its agent. */
  datatype End = Goes | Throws | Dies

  /** What a command meets: whether it takes effect and, apart from that, how it ends.
      One that took effect may still throw, when its answer is lost. */
  datatype Meet = Meet(takes: bool, end: End)

  /** What the commands of one attempt meet. For look, takes says the folder was seen if
      there is one; left is what the export leaves; home, disks and parents are what the import
      registers; oldGone says a making that failed had removed an old share first. */
  datatype Attempt = Attempt(reach: Meet, share: Meet, oldGone: bool, look: Meet, write: Meet, left: Folder,
                             find: Meet, join: Meet, home: string, disks: seq<string>, parents: seq<string>,
                             clustered: bool, uncluster: Meet, remove: Meet, drop: Meet)

  const REACH: nat := 0
  const SHARE: nat := 1
  const LOOK: nat := 2
  const EXPORT: nat := 3
  const FIND: nat := 4
  const IMPORT: nat := 5
  const UNCLUSTER: nat := 6
  const REMOVE: nat := 7
  const DROP: nat := 8
  const DONE: nat := 9

  function Meets(a: Attempt): set<Meet> {
    {a.reach, a.share, a.look, a.write, a.find, a.join, a.uncluster, a.remove, a.drop}
  }

  function Stopped(e: End): End {
    if e == Goes then Throws else e
  }

  /** The hosts after one command and how it ended. An export refuses a folder that is
      there, an import needs a whole one, and dropping the share never throws. */
  function Do(p: Pair, vm: string, a: Attempt, c: nat): (Pair, End)
    requires c < DONE
  {
    if c == REACH then (p, if p.here && p.off then a.reach.end else Stopped(a.reach.end))
    else if c == SHARE then
      if a.share.takes || a.share.end == Goes then (p.(share := true), a.share.end)
      else (p.(share := p.share && !a.oldGone), a.share.end)
    else if c == LOOK then (p, if a.look.takes && p.folder != Absent then Stopped(a.look.end) else a.look.end)
    else if c == EXPORT then
      if p.folder != Absent then (p, Stopped(a.write.end))
      else (p.(folder := a.left), if a.left == Whole then a.write.end else Stopped(a.write.end))
    else if c == FIND then (p, if p.folder == Whole then a.find.end else Stopped(a.find.end))
    else if c == IMPORT then
      if a.join.takes && p.folder == Whole then (p.(regs := p.regs + [Reg(vm, a.home, a.disks, a.parents)]), a.join.end)
      else (p, Stopped(a.join.end))
    else if c == UNCLUSTER then
      if !a.clustered || !p.role then (p, Goes)
      else (p.(role := !a.uncluster.takes), a.uncluster.end)
    else if c == REMOVE then
      if a.remove.takes || a.remove.end == Goes then (p.(here := false), a.remove.end) else (p, a.remove.end)
    else (p.(share := p.share && !a.drop.takes), if a.drop.end == Dies then Dies else Goes)
  }

  /** What stands inside the try, from command c on. */
  function Body(p: Pair, vm: string, a: Attempt, c: nat): (Pair, End)
    requires LOOK <= c <= DROP
    decreases DROP - c
  {
    if c == DROP then (p, Goes)
    else
      var (p', end) := Do(p, vm, a, c);
      if end == Goes then Body(p', vm, a, c + 1) else (p', end)
  }

  /** One attempt that nothing comes between: reach, share, then try and finally; a
      killed agent runs no finally. */
  function Copied(p: Pair, vm: string, a: Attempt): (Pair, bool) {
    var (p0, e0) := Do(p, vm, a, REACH);
    if e0 != Goes then (p0, false)
    else
      var (p1, e1) := Do(p0, vm, a, SHARE);
      if e1 != Goes then (p1, false)
      else
        var (p2, e2) := Body(p1, vm, a, LOOK);
        if e2 == Dies then (p2, false)
        else
          var (p3, e3) := Do(p2, vm, a, DROP);
          (p3, e2 == Goes && e3 == Goes)
  }

  /** What a clearing's listing shows: the VMs, if Hyper-V answers, and the disks of
      those it answers for. Without an answer the list is empty and nothing throws. */
  datatype Listing = Listing(answered: bool, drives: set<nat>)

  predicate Shows(regs: seq<Reg>, l: Listing, target: string) {
    l.answered && exists i :: 0 <= i < |regs| && ShowsOne(regs[i], i in l.drives, target)
  }

  predicate ShowsOne(reg: Reg, drives: bool, target: string) {
    Begins(reg.home, target) || (drives && exists j :: 0 <= j < |reg.disks| && Begins(reg.disks[j], target))
  }

  /** The check of a clearing. */
  predicate Passes(p: Pair, l: Listing, target: string) {
    p.folder != Absent && !Shows(p.regs, l, target)
  }

  function Cleared(p: Pair, l: Listing, target: string): (Pair, bool) {
    if Passes(p, l, target) then (p.(folder := Absent), true) else (p, false)
  }

  class Hosts {
    var here: bool
    var off: bool
    var role: bool
    var folder: Folder
    var regs: seq<Reg>
    var share: bool

    function Contents(): Pair
      reads this
    {
      Pair(here, off, role, folder, regs, share)
    }

    constructor (p: Pair)
      ensures Contents() == p
    {
      here, off, role, folder, regs, share := p.here, p.off, p.role, p.folder, p.regs, p.share;
    }

    method Copy(vm: string, a: Attempt) returns (ok: bool)
      modifies this
      ensures (Contents(), ok) == Copied(old(Contents()), vm, a)
    {
      if !here || !off || a.reach.end != Goes {
        return false;
      }
      if a.share.takes || a.share.end == Goes {
        share := true;
      } else if a.oldGone {
        share := false;
      }
      if a.share.end != Goes {
        return false;
      }
      var end := ExportImportRemove(vm, a);
      if end == Dies {
        return false;
      }
      if a.drop.takes {
        share := false;
      }
      return end == Goes && a.drop.end != Dies;
    }

    method ExportImportRemove(vm: string, a: Attempt) returns (end: End)
      modifies this
      ensures (Contents(), end) == Body(old(Contents()), vm, a, LOOK)
    {
      if a.look.takes && folder != Absent {
        return Stopped(a.look.end);
      }
      if a.look.end != Goes {
        return a.look.end;
      }
      if folder != Absent {
        return Stopped(a.write.end);
      }
      folder := a.left;
      if a.left != Whole {
        return Stopped(a.write.end);
      }
      if a.write.end != Goes {
        return a.write.end;
      }
      if a.find.end != Goes {
        return a.find.end;
      }
      var imported := false;
      if a.join.takes {
        regs := regs + [Reg(vm, a.home, a.disks, a.parents)];
        imported := a.join.end == Goes;
      }
      if !imported {
        return Stopped(a.join.end);
      }
      if a.clustered && role {
        role := !a.uncluster.takes;
        if a.uncluster.end != Goes {
          return a.uncluster.end;
        }
      }
      if a.remove.takes || a.remove.end == Goes {
        here := false;
      }
      return a.remove.end;
    }

    method ClearVmExport(vm: string, root: string, l: Listing) returns (removed: bool)
      modifies this
      ensures (Contents(), removed) == Cleared(old(Contents()), l, Target(root, vm))
    {
      var target := Target(root, vm);
      if folder == Absent {
        return false;
      }
      var listed := if l.answered then |regs| else 0;
      for i := 0 to listed
        invariant forall k :: 0 <= k < i ==> !ShowsOne(regs[k], k in l.drives, target)
      {
        if Begins(regs[i].home, target) {
          assert ShowsOne(regs[i], i in l.drives, target);
          return false;
        }
        if i in l.drives {
          var disks := regs[i].disks;
          for j := 0 to |disks|
            invariant forall k :: 0 <= k < j ==> !Begins(disks[k], target)
          {
            if Begins(disks[j], target) {
              assert ShowsOne(regs[i], true, target);
              return false;
            }
          }
        }
      }
      folder := Absent;
      return true;
    }
  }

  // ---- runs, command by command -------------------------------------------

  /** The attempt under way: its next command. */
  datatype Job = Idle | At(a: Attempt, c: nat)

  /** checked says a clearing has passed its check and not yet removed anything. */
  datatype World = World(p: Pair, job: Job, checked: bool)

  /** What can happen next between the two hosts: an attempt begins or runs its next
      command, a clearing checks or removes, the destination restarts, the guest is
      stopped or started. Anything may come between any two of them. */
  datatype Event = Begin(a: Attempt) | Next | Check(l: Listing) | Remove | Restart | Power(off: bool)

  function Onward(a: Attempt, c: nat, end: End): Job
    requires c < DONE
  {
    if end == Goes && c + 1 < DONE then At(a, c + 1)
    else if end == Throws && LOOK <= c < DROP then At(a, DROP)
    else Idle
  }

  predicate Ready(w: World) {
    w.job.At? ==> w.job.c < DONE
  }

  function After(w: World, vm: string, target: string, e: Event): (r: World)
    requires Ready(w)
    ensures Ready(r)
  {
    match e
    case Begin(a) => if w.job.Idle? then w.(job := At(a, REACH)) else w
    case Next =>
      if w.job.Idle? then w
      else
        var (p', end) := Do(w.p, vm, w.job.a, w.job.c);
        w.(p := p', job := Onward(w.job.a, w.job.c, end))
    case Check(l) => w.(checked := Passes(w.p, l, target))
    case Remove => if w.checked then w.(p := w.p.(folder := Absent), checked := false) else w
    case Restart => w.(p := w.p.(share := false))
    case Power(off) => if w.p.here then w.(p := w.p.(off := off)) else w
  }

  function AfterAll(w: World, vm: string, target: string, events: seq<Event>, n: nat): (r: World)
    requires Ready(w) && n <= |events|
    ensures Ready(r)
  {
    if n == 0 then w else After(AfterAll(w, vm, target, events, n - 1), vm, target, events[n - 1])
  }

  /** What an attempt still does from command c on, nothing coming between. */
  function Rest(p: Pair, vm: string, a: Attempt, c: nat): Pair
    requires c < DONE
    decreases DONE - c
  {
    var (p', end) := Do(p, vm, a, c);
    match Onward(a, c, end)
    case Idle => p'
    case At(_, c') => Rest(p', vm, a, c')
  }

  lemma {:induction false} RestIsBody(p: Pair, vm: string, a: Attempt, c: nat)
    requires LOOK <= c < DROP
    ensures var (p2, e2) := Body(p, vm, a, c); Rest(p, vm, a, c) == if e2 == Dies then p2 else Do(p2, vm, a, DROP).0
    decreases DROP - c
  {
    var (p', end) := Do(p, vm, a, c);
    if end == Goes && c + 1 < DROP {
      RestIsBody(p', vm, a, c + 1);
    } else if end == Goes {
      assert Body(p', vm, a, DROP) == (p', Goes);
    }
  }

  /** Command by command with nothing between them is the attempt as a whole. */
  lemma {:induction false} StepsAreTheAttempt(w: World, vm: string, target: string, events: seq<Event>, n: nat)
    requires Ready(w) && w.job.At? && n <= |events| && n >= DONE - w.job.c
    requires forall i :: 0 <= i < n ==> events[i] == Next
    ensures AfterAll(w, vm, target, events, n) == w.(p := Rest(w.p, vm, w.job.a, w.job.c), job := Idle)
    ensures w.job.c == REACH ==> Rest(w.p, vm, w.job.a, w.job.c) == Copied(w.p, vm, w.job.a).0
    decreases DONE - w.job.c
  {
    var w1 := After(w, vm, target, Next);
    FirstThenRest(w, vm, target, events, n);
    if w1.job.At? {
      StepsAreTheAttempt(w1, vm, target, events[1..], n - 1);
    } else {
      IdleStays(w1, vm, target, events[1..], n - 1);
    }
    if w.job.c == REACH {
      var (p0, e0) := Do(w.p, vm, w.job.a, REACH);
      if e0 == Goes {
        var (p1, e1) := Do(p0, vm, w.job.a, SHARE);
        if e1 == Goes {
          RestIsBody(p1, vm, w.job.a, LOOK);
        }
      }
    }
  }

  lemma {:induction false} FirstThenRest(w: World, vm: string, target: string, events: seq<Event>, n: nat)
    requires Ready(w) && 0 < n <= |events|
    ensures AfterAll(w, vm, target, events, n) == AfterAll(After(w, vm, target, events[0]), vm, target, events[1..], n - 1)
  {
    if n > 1 {
      FirstThenRest(w, vm, target, events, n - 1);
      assert events[1..][n - 2] == events[n - 1];
    }
  }

  lemma {:induction false} IdleStays(w: World, vm: string, target: string, events: seq<Event>, n: nat)
    requires Ready(w) && w.job.Idle? && n <= |events| && forall i :: 0 <= i < n ==> events[i] == Next
    ensures AfterAll(w, vm, target, events, n) == w
  {
    if n > 0 {
      IdleStays(w, vm, target, events, n - 1);
    }
  }

  // ---- the VM is registered somewhere -------------------------------------

  predicate There(p: Pair, vm: string) {
    exists i :: 0 <= i < |p.regs| && p.regs[i].name == vm
  }

  predicate Registered(p: Pair, vm: string) {
    p.here || There(p, vm)
  }

  /** Behind a confirmed import the VM is on the destination. */
  predicate Sound(w: World, vm: string) {
    Ready(w) && Registered(w.p, vm) && (w.job.At? && IMPORT < w.job.c < DROP ==> There(w.p, vm))
  }

  lemma StaysSound(w: World, vm: string, target: string, e: Event)
    requires Sound(w, vm)
    ensures Sound(After(w, vm, target, e), vm)
  {
    var w' := After(w, vm, target, e);
    if There(w.p, vm) {
      var i :| 0 <= i < |w.p.regs| && w.p.regs[i].name == vm;
      assert w'.p.regs[i].name == vm;
    }
    if |w'.p.regs| > |w.p.regs| {
      assert w'.p.regs[|w.p.regs|].name == vm;
    }
  }

  /** In every interleaving of attempts, clearings, restarts and retries, killed or failed
      at any command, the VM is registered on one of the hosts. */
  lemma {:induction false} NeverUnregistered(w: World, vm: string, target: string, events: seq<Event>, n: nat)
    requires Sound(w, vm) && n <= |events|
    ensures Sound(AfterAll(w, vm, target, events, n), vm)
  {
    if n > 0 {
      NeverUnregistered(w, vm, target, events, n - 1);
      StaysSound(AfterAll(w, vm, target, events, n - 1), vm, target, events[n - 1]);
    }
  }

  // ---- its files are there ------------------------------------------------

  predicate Uses(reg: Reg, target: string) {
    OnItsOwn(reg, target) || exists j :: 0 <= j < |reg.parents| && Under(reg.parents[j], target)
  }

  /** Not merely through a parent. */
  predicate OnItsOwn(reg: Reg, target: string) {
    Under(reg.home, target) || exists j :: 0 <= j < |reg.disks| && Under(reg.disks[j], target)
  }

  predicate Used(regs: seq<Reg>, target: string) {
    exists i :: 0 <= i < |regs| && Uses(regs[i], target)
  }

  /** Every registered VM that uses the folder finds its files there. */
  predicate FilesPresent(p: Pair, target: string) {
    Used(p.regs, target) ==> p.folder == Whole
  }

  /** An import registers the VM where it imports it from. */
  predicate InPlace(e: Event, target: string) {
    e.Begin? ==> Under(e.a.home, target)
  }

  predicate JobInPlace(w: World, target: string) {
    w.job.At? ==> Under(w.job.a.home, target)
  }

  /** The folder is in use and nothing the listing shows says so. */
  predicate Blind(p: Pair, l: Listing, target: string) {
    Used(p.regs, target) && !Shows(p.regs, l, target)
  }

  /** The event is an import that registers the VM. */
  predicate Joins(w: World, e: Event) {
    e == Next && w.job.At? && w.job.c == IMPORT && w.job.a.join.takes && w.p.folder == Whole
  }

  lemma UnderBegins(path: string, target: string)
    requires Under(path, target)
    ensures Begins(path, target)
  {
    var a, b := Lower(path), Lower(target);
    assert a[..|b|] == (b + "\\")[..|b|] == b;
  }

  /** With Hyper-V answering for every VM and its disks, a clearing passes while a registered
      VM uses the folder only if all that use it do through a parent alone. Where a VM's own
      path is in the folder, as an import in place leaves it, the check is blind exactly when
      the listing is unanswered. */
  lemma BlindExactlyWhen(p: Pair, l: Listing, target: string)
    requires Used(p.regs, target)
    ensures l.answered && (forall i :: 0 <= i < |p.regs| ==> i in l.drives) && Blind(p, l, target) ==>
              forall i :: 0 <= i < |p.regs| ==> !OnItsOwn(p.regs[i], target)
    ensures (exists i :: 0 <= i < |p.regs| && Under(p.regs[i].home, target)) ==> (Blind(p, l, target) <==> !l.answered)
  {
    if l.answered {
      forall i, path | 0 <= i < |p.regs| && Under(path, target) && (path == p.regs[i].home || (i in l.drives && path in p.regs[i].disks))
        ensures Shows(p.regs, l, target)
      {
        UnderBegins(path, target);
        assert ShowsOne(p.regs[i], i in l.drives, target);
      }
      if i, j :| 0 <= i < |p.regs| && i in l.drives && 0 <= j < |p.regs[i].disks| && Under(p.regs[i].disks[j], target) {
        assert p.regs[i].disks[j] in p.regs[i].disks;
      }
    }
  }

  /** Everything is answered, and a registered VM whose disk is a difference from one in the
      folder loses it. */
  lemma ParentGoesExample(root: string, vm: string, home: string, disk: string)
    requires !Begins(home, Target(root, vm)) && !Begins(disk, Target(root, vm))
    ensures var target := Target(root, vm);
            var p := Pair(true, true, false, Whole, [Reg("clone", home, [disk], [target + "\\config"])], false);
            && FilesPresent(p, target)
            && Cleared(p, Listing(true, {0}), target).1
            && !FilesPresent(Cleared(p, Listing(true, {0}), target).0, target)
  {
    var target := Target(root, vm);
    var p := Pair(true, true, false, Whole, [Reg("clone", home, [disk], [target + "\\config"])], false);
    ConfigIsUnder(target);
    assert Under(p.regs[0].parents[0], target) && Uses(p.regs[0], target);
  }

  /** One event: the folder is newly used exactly by an import, and a used folder loses
      its files exactly by a removal. */
  lemma FilesStep(w: World, vm: string, target: string, e: Event)
    requires Ready(w) && FilesPresent(w.p, target) && JobInPlace(w, target) && InPlace(e, target)
    ensures var w' := After(w, vm, target, e);
            && JobInPlace(w', target)
            && (Used(w'.p.regs, target) <==> Used(w.p.regs, target) || Joins(w, e))
            && (FilesPresent(w'.p, target) <==> !(e == Remove && w.checked && Used(w.p.regs, target)))
  {
    var w' := After(w, vm, target, e);
    UsersStay(w.p.regs, w'.p.regs, target);
    if Joins(w, e) {
      assert Uses(w'.p.regs[|w.p.regs|], target);
    }
  }

  lemma UsersStay(regs: seq<Reg>, more: seq<Reg>, target: string)
    requires regs <= more
    ensures Used(regs, target) ==> Used(more, target)
  {
    if Used(regs, target) {
      var i :| 0 <= i < |regs| && Uses(regs[i], target);
      assert Uses(more[i], target);
    }
  }

  predicate JoinedAt(w: World, vm: string, target: string, events: seq<Event>, k: nat)
    requires Ready(w) && k < |events|
  {
    Joins(AfterAll(w, vm, target, events, k), events[k])
  }

  predicate UsedAt(w: World, vm: string, target: string, events: seq<Event>, n: nat)
    requires Ready(w) && n <= |events|
  {
    Used(AfterAll(w, vm, target, events, n).p.regs, target)
  }

  predicate NoClearing(events: seq<Event>, m: nat, n: nat) {
    forall k :: m <= k < n <= |events| ==> !events[k].Check? && events[k] != Remove
  }

  /** The files are where they belong after every event so far. */
  predicate KeptUpTo(w: World, vm: string, target: string, events: seq<Event>, n: nat)
    requires Ready(w) && n <= |events|
  {
    forall k :: 0 <= k <= n ==> FilesPresent(AfterAll(w, vm, target, events, k).p, target)
  }

  predicate Starts(w: World, target: string, events: seq<Event>) {
    && Ready(w) && !w.checked && FilesPresent(w.p, target) && JobInPlace(w, target)
    && forall k :: 0 <= k < |events| ==> InPlace(events[k], target)
  }

  /** The removal at r follows a check at c that was blind, or an import came between. */
  predicate Hit(w: World, vm: string, target: string, events: seq<Event>, c: nat, r: nat)
    requires Ready(w) && c < r < |events|
  {
    && events[c].Check? && NoClearing(events, c + 1, r)
    && (|| Blind(AfterAll(w, vm, target, events, c).p, events[c].l, target)
        || exists k :: c < k < r && JoinedAt(w, vm, target, events, k))
  }

  predicate Loses(w: World, vm: string, target: string, events: seq<Event>, r: nat)
    requires Ready(w) && r < |events|
  {
    && events[r] == Remove && AfterAll(w, vm, target, events, r).checked
    && exists c :: 0 <= c < r && Hit(w, vm, target, events, c, r)
  }

  lemma {:induction false} JobsStayInPlace(w: World, vm: string, target: string, events: seq<Event>, n: nat)
    requires Starts(w, target, events) && n <= |events|
    ensures JobInPlace(AfterAll(w, vm, target, events, n), target)
  {
    if n > 0 {
      JobsStayInPlace(w, vm, target, events, n - 1);
    }
  }

  lemma UseStep(w: World, vm: string, target: string, events: seq<Event>, n: nat)
    requires Starts(w, target, events) && n < |events| && KeptUpTo(w, vm, target, events, n)
    ensures UsedAt(w, vm, target, events, n + 1) <==> UsedAt(w, vm, target, events, n) || JoinedAt(w, vm, target, events, n)
  {
    JobsStayInPlace(w, vm, target, events, n);
    FilesStep(AfterAll(w, vm, target, events, n), vm, target, events[n]);
  }

  /** Between m and n the folder comes into use exactly by an import. */
  lemma {:induction false} UsedSince(w: World, vm: string, target: string, events: seq<Event>, m: nat, n: nat)
    requires Starts(w, target, events) && m <= n <= |events| && KeptUpTo(w, vm, target, events, n)
    ensures UsedAt(w, vm, target, events, n) <==>
              UsedAt(w, vm, target, events, m) || exists k :: m <= k < n && JoinedAt(w, vm, target, events, k)
  {
    if m < n {
      UsedSince(w, vm, target, events, m, n - 1);
      UseStep(w, vm, target, events, n - 1);
    }
  }

  /** A check that passed is behind every clearing about to remove. */
  lemma {:induction false} CheckedSince(w: World, vm: string, target: string, events: seq<Event>, n: nat) returns (c: nat)
    requires Ready(w) && !w.checked && n <= |events| && AfterAll(w, vm, target, events, n).checked
    ensures c < n && events[c].Check? && NoClearing(events, c + 1, n)
    ensures Passes(AfterAll(w, vm, target, events, c).p, events[c].l, target)
  {
    if events[n - 1].Check? {
      c := n - 1;
    } else {
      c := CheckedSince(w, vm, target, events, n - 1);
    }
  }

  /** A removal takes the files of a registered VM exactly when its check was blind or an
      import came after it. */
  lemma RemovalLosesExactlyWhen(w: World, vm: string, target: string, events: seq<Event>, r: nat)
    requires Starts(w, target, events) && r < |events| && KeptUpTo(w, vm, target, events, r)
    ensures FilesPresent(AfterAll(w, vm, target, events, r + 1).p, target) <==> !Loses(w, vm, target, events, r)
  {
    var wr := AfterAll(w, vm, target, events, r);
    JobsStayInPlace(w, vm, target, events, r);
    FilesStep(wr, vm, target, events[r]);
    if events[r] == Remove && wr.checked {
      var c := CheckedSince(w, vm, target, events, r);
      forall c' | 0 <= c' < r && events[c'].Check? && NoClearing(events, c' + 1, r) ensures c' == c {
      }
      UsedSince(w, vm, target, events, c, r);
      assert !JoinedAt(w, vm, target, events, c);
      assert UsedAt(w, vm, target, events, r) <==> Hit(w, vm, target, events, c, r);
    }
  }

  /** Over every interleaving: the files of every VM registered on the folder are there
      throughout if and only if no removal followed a blind check or an import that came
      after its check. */
  lemma {:induction false} FilesKeptExactlyWhen(w: World, vm: string, target: string, events: seq<Event>, n: nat)
    requires Starts(w, target, events) && n <= |events|
    ensures KeptUpTo(w, vm, target, events, n) <==> forall r :: 0 <= r < n ==> !Loses(w, vm, target, events, r)
  {
    if n > 0 {
      FilesKeptExactlyWhen(w, vm, target, events, n - 1);
      if KeptUpTo(w, vm, target, events, n - 1) {
        RemovalLosesExactlyWhen(w, vm, target, events, n - 1);
      }
    }
  }

  /** A clearing whose check saw everything, with anything but another clearing between it
      and the removal: safe if and only if none of it is the VM's import. */
  lemma SplitClearSafeExactlyWhen(w: World, vm: string, target: string, events: seq<Event>, r: nat)
    requires Starts(w, target, events) && 0 < r < |events| && events[0].Check? && events[r] == Remove
    requires NoClearing(events, 1, r)
    requires Passes(w.p, events[0].l, target) && !Blind(w.p, events[0].l, target)
    ensures KeptUpTo(w, vm, target, events, r + 1) <==>
              forall k :: 0 < k < r ==> !JoinedAt(w, vm, target, events, k)
  {
    FilesKeptExactlyWhen(w, vm, target, events, r + 1);
    StillChecked(w, vm, target, events, r);
    assert AfterAll(w, vm, target, events, 0) == w;
    if forall k :: 0 < k < r ==> !JoinedAt(w, vm, target, events, k) {
      forall r' | 0 <= r' < r + 1 ensures !Loses(w, vm, target, events, r') {
      }
    } else {
      assert Hit(w, vm, target, events, 0, r);
      assert Loses(w, vm, target, events, r);
    }
  }

  lemma {:induction false} StillChecked(w: World, vm: string, target: string, events: seq<Event>, n: nat)
    requires Ready(w) && 0 < n <= |events| && events[0].Check? && NoClearing(events, 1, n)
    requires Passes(w.p, events[0].l, target)
    ensures AfterAll(w, vm, target, events, n).checked
  {
    if n > 1 {
      StillChecked(w, vm, target, events, n - 1);
    } else {
      assert AfterAll(w, vm, target, events, 0) == w;
    }
  }

  /** Hyper-V on the destination does not answer: the check passes over a VM that is
      registered there, off, and its files go. */
  lemma UnansweredClearExample(vm: string, root: string)
    ensures var target := Target(root, vm);
            var p := Pair(false, true, false, Whole, [Reg(vm, target + "\\config", [], [])], false);
            && FilesPresent(p, target)
            && Cleared(p, Listing(false, {}), target).1
            && !FilesPresent(Cleared(p, Listing(false, {}), target).0, target)
            && !Cleared(p, Listing(true, {}), target).1
  {
    var target := Target(root, vm);
    var p := Pair(false, true, false, Whole, [Reg(vm, target + "\\config", [], [])], false);
    ConfigIsUnder(target);
    assert Uses(p.regs[0], target);
    UnderBegins(p.regs[0].home, target);
    assert ShowsOne(p.regs[0], false, target);
  }

  lemma ConfigIsUnder(target: string)
    ensures Under(target + "\\config", target)
  {
    LowerJoins(target + "\\", "config");
    LowerJoins(target, "\\");
    assert Lower("\\") == "\\";
    assert (target + "\\") + "config" == target + "\\config";
  }

  // ---- what one attempt does ----------------------------------------------

  /** The source, and its cluster role, go only after the import was confirmed, and then
      the VM is on the destination with the files the export wrote in that same attempt;
      success is never reported while the source is there. */
  lemma SourceGoesLast(p: Pair, vm: string, a: Attempt)
    requires p.here
    ensures var (p', ok) := Copied(p, vm, a);
            && (ok ==> !p'.here)
            && (!p'.here || (p.role && !p'.role) ==>
                  p.folder == Absent && p'.folder == Whole && a.join == Meet(true, Goes) && p'.regs == p.regs + [Reg(vm, a.home, a.disks, a.parents)])
  {
    var (p1, e1) := Do(p, vm, a, SHARE);
    InsideTheTry(p1, vm, a);
  }

  lemma InsideTheTry(p: Pair, vm: string, a: Attempt)
    requires p.here
    ensures var (p', end) := Body(p, vm, a, LOOK);
            && (end == Goes ==> !p'.here)
            && (!p'.here || (p.role && !p'.role) ==>
                  p.folder == Absent && p'.folder == Whole && a.join == Meet(true, Goes) && p'.regs == p.regs + [Reg(vm, a.home, a.disks, a.parents)])
            && (p.folder != Absent ==> p' == p && end != Goes)
  {
    var (p2, e2) := Do(p, vm, a, LOOK);
    var (p3, e3) := Do(p2, vm, a, EXPORT);
    if e2 == Goes && e3 == Goes {
      var (p4, e4) := Do(p3, vm, a, FIND);
      var (p5, e5) := Do(p4, vm, a, IMPORT);
      var (p6, e6) := Do(p5, vm, a, UNCLUSTER);
      assert Body(p6, vm, a, REMOVE) == Do(p6, vm, a, REMOVE);
      assert e6 == Goes ==> Body(p5, vm, a, UNCLUSTER) == Do(p6, vm, a, REMOVE);
      assert e5 == Goes ==> Body(p4, vm, a, IMPORT) == Body(p5, vm, a, UNCLUSTER);
      assert e4 == Goes ==> Body(p3, vm, a, FIND) == Body(p4, vm, a, IMPORT);
    }
  }

  /** A leftover is never written over, seen or not: with anything in the folder an
      attempt neither exports nor imports, and leaves the source as it is. */
  lemma LeftoverNeverOverwritten(p: Pair, vm: string, a: Attempt)
    requires p.folder != Absent
    ensures var (p', ok) := Copied(p, vm, a); !ok && p'.(share := p.share) == p
  {
    if p.here {
      InsideTheTry(Do(p, vm, a, SHARE).0, vm, a);
    }
  }

  /** After a failure the remedy is one clearing and one attempt, exactly when nothing the
      listing shows begins with the folder's name and the VM is still there, off. */
  lemma ClearedThenCopied(p: Pair, vm: string, target: string, l: Listing, a: Attempt)
    requires a.left == Whole && forall m :: m in Meets(a) ==> m == Meet(true, Goes)
    requires p.folder != Absent
    ensures Copied(Cleared(p, l, target).0, vm, a).1 <==> p.here && p.off && !Shows(p.regs, l, target)
  {
    assert a.reach in Meets(a) && a.share in Meets(a) && a.look in Meets(a) && a.write in Meets(a) && a.find in Meets(a);
    assert a.join in Meets(a) && a.uncluster in Meets(a) && a.remove in Meets(a) && a.drop in Meets(a);
    var q := Cleared(p, l, target).0;
    if q.folder != Absent {
      LeftoverNeverOverwritten(q, vm, a);
    } else {
      var (p2, e2) := Do(q.(share := true), vm, a, LOOK);
      var (p3, e3) := Do(p2, vm, a, EXPORT);
      var (p4, e4) := Do(p3, vm, a, FIND);
      var (p5, e5) := Do(p4, vm, a, IMPORT);
      var (p6, e6) := Do(p5, vm, a, UNCLUSTER);
      assert Body(p6, vm, a, REMOVE).1 == Goes;
      assert Body(p4, vm, a, IMPORT).1 == Goes;
      assert Body(p2, vm, a, EXPORT).1 == Goes;
    }
  }

  // ---- the temporary share ------------------------------------------------

  predicate MakesShare(w: World, e: Event) {
    e == Next && w.job.At? && w.job.c == SHARE && (w.job.a.share.takes || w.job.a.share.end == Goes)
  }

  predicate DropsShare(w: World, e: Event) {
    || e == Restart
    || (e == Next && w.job.At? && w.job.c == DROP && w.job.a.drop.takes)
    || (e == Next && w.job.At? && w.job.c == SHARE && !MakesShare(w, e) && w.job.a.oldGone)
  }

  predicate MadeAt(w: World, vm: string, target: string, events: seq<Event>, k: nat)
    requires Ready(w) && k < |events|
  {
    MakesShare(AfterAll(w, vm, target, events, k), events[k])
  }

  predicate DroppedAt(w: World, vm: string, target: string, events: seq<Event>, k: nat)
    requires Ready(w) && k < |events|
  {
    DropsShare(AfterAll(w, vm, target, events, k), events[k])
  }

  predicate NotDropped(w: World, vm: string, target: string, events: seq<Event>, m: nat, n: nat)
    requires Ready(w) && n <= |events|
  {
    forall j :: m <= j < n ==> !DroppedAt(w, vm, target, events, j)
  }

  lemma ShareStep(w: World, vm: string, target: string, events: seq<Event>, n: nat)
    requires Ready(w) && n < |events|
    ensures AfterAll(w, vm, target, events, n + 1).p.share <==>
              || MadeAt(w, vm, target, events, n)
              || (AfterAll(w, vm, target, events, n).p.share && !DroppedAt(w, vm, target, events, n))
  {
  }

  /** Over every interleaving the share is up exactly when some attempt made it, or it was
      up to begin with, and no clean-up and no restart has taken it down since. */
  lemma {:induction false} ShareUpExactlyWhen(w: World, vm: string, target: string, events: seq<Event>, n: nat)
    requires Ready(w) && n <= |events|
    ensures AfterAll(w, vm, target, events, n).p.share <==>
              || (w.p.share && NotDropped(w, vm, target, events, 0, n))
              || exists k :: 0 <= k < n && MadeAt(w, vm, target, events, k) && NotDropped(w, vm, target, events, k + 1, n)
  {
    if n > 0 {
      ShareUpExactlyWhen(w, vm, target, events, n - 1);
      ShareStep(w, vm, target, events, n - 1);
      forall m | 0 <= m < n
        ensures NotDropped(w, vm, target, events, m, n) <==> NotDropped(w, vm, target, events, m, n - 1) && !DroppedAt(w, vm, target, events, n - 1)
      {
      }
    }
  }

  /** No command of the attempt is killed, the making's answer is heard, and the clean-up
      gets through. */
  predicate EndsCleanly(a: Attempt) {
    && (forall m :: m in Meets(a) ==> m.end != Dies)
    && (a.share.takes ==> a.share.end == Goes) && a.drop.takes
  }

  predicate Tidy(w: World) {
    && Ready(w)
    && (w.job.At? ==> EndsCleanly(w.job.a))
    && (w.p.share ==> w.job.At? && LOOK <= w.job.c <= DROP)
  }

  lemma StaysTidy(w: World, vm: string, target: string, e: Event)
    requires Tidy(w) && (e.Begin? ==> EndsCleanly(e.a))
    ensures Tidy(After(w, vm, target, e))
  {
    if e == Next && w.job.At? {
      assert w.job.a.look.end != Dies && w.job.a.write.end != Dies && w.job.a.find.end != Dies && w.job.a.join.end != Dies;
      assert w.job.a.uncluster.end != Dies && w.job.a.remove.end != Dies && w.job.a.share.end != Dies;
    }
  }

  /** While every attempt ends cleanly, wherever it throws, the share is up only inside the
      try of one that is under way. */
  lemma {:induction false} ShareOnlyUnderWay(w: World, vm: string, target: string, events: seq<Event>, n: nat)
    requires Tidy(w) && n <= |events| && forall k :: 0 <= k < |events| ==> events[k].Begin? ==> EndsCleanly(events[k].a)
    ensures Tidy(AfterAll(w, vm, target, events, n))
  {
    if n > 0 {
      ShareOnlyUnderWay(w, vm, target, events, n - 1);
      StaysTidy(AfterAll(w, vm, target, events, n - 1), vm, target, events[n - 1]);
    }
  }

  // ---- a check on the safe side -------------------------------------------

  /** A VM whose folder merely begins with this one's name blocks the clearing although
      it uses nothing in it. */
  lemma NeighbourBlocksClear(vm: string, root: string, other: string, l: Listing)
    requires other != "" && l.answered
    ensures var target := Target(root, vm);
            var neighbour := Reg("neighbour", target + other, [], []);
            var p := Pair(true, true, false, Part, [neighbour], false);
            && Cleared(p, l, target) == (p, false)
            && (other[0] != '\\' ==> !Uses(neighbour, target))
  {
    var target := Target(root, vm);
    var neighbour := Reg("neighbour", target + other, [], []);
    LowerJoins(target, other);
    assert Begins(neighbour.home, target);
    assert ShowsOne([neighbour][0], 0 in l.drives, target);
    if other[0] != '\\' {
      assert Lower(other)[0] != '\\' by { assert Lower(other)[0] == LowerChar(other[0]); }
      assert Lower(target + other)[|target|] == Lower(other)[0];
      assert (Lower(target) + "\\")[|target|] == '\\';
      assert !Under(neighbour.home, target);
    }
  }

  // ---- the adapters of the imported VM ------------------------------------

  datatype Adapter = Adapter(id: string, sw: string, vlan: nat)

  /** The map's keys are lower-case, as the look-up ignores case. */
  function LookUp(netMap: map<string, SwitchMap.Row>, from: string): SwitchMap.Row {
    if Lower(from) in netMap then netMap[Lower(from)] else SwitchMap.Row("", 0)
  }

  /** The adapter joined to the target of the switch it was on, if that has one. */
  function Joined(ad: Adapter, from: string, netMap: map<string, SwitchMap.Row>): Adapter {
    var row := LookUp(netMap, from);
    if from == "" || row.to == "" then ad
    else if row.vlan > 0 then ad.(sw := row.to, vlan := row.vlan)
    else ad.(sw := row.to)
  }

  /** Where an adapter the destination objected to ends: on its mapped switch, or on
      none; every other stays as it is. */
  function Landed(ad: Adapter, objected: bool, netMap: map<string, SwitchMap.Row>): Adapter {
    if objected then Joined(ad.(sw := ""), ad.sw, netMap) else ad
  }

  predicate HasTarget(from: string, netMap: map<string, SwitchMap.Row>, switches: set<string>) {
    from != "" && LookUp(netMap, from).to != "" ==> Lower(LookUp(netMap, from).to) in switches
  }

  predicate DistinctIds(s: seq<Adapter>) {
    forall i, j :: 0 <= i < j < |s| ==> s[i].id != s[j].id
  }

  /** The switch remembered for an adapter, or none. */
  function Remembered(wanted: map<string, string>, ad: Adapter): string {
    if ad.id in wanted then wanted[ad.id] else ""
  }

  method DisconnectObjected(ads: array<Adapter>, objections: seq<nat>) returns (wanted: map<string, string>)
    requires DistinctIds(ads[..])
    requires forall k :: 0 <= k < |objections| ==> objections[k] < ads.Length
    requires forall k, l :: 0 <= k < l < |objections| ==> objections[k] != objections[l]
    modifies ads
    ensures forall i :: 0 <= i < ads.Length ==> ads[i] == if i in objections then old(ads[i]).(sw := "") else old(ads[i])
    ensures forall i :: 0 <= i < ads.Length ==> Remembered(wanted, ads[i]) == if i in objections then old(ads[i]).sw else ""
  {
    ghost var was := ads[..];
    wanted := map[];
    for k := 0 to |objections|
      invariant forall i :: 0 <= i < ads.Length ==> ads[i] == if i in objections[..k] then was[i].(sw := "") else was[i]
      invariant forall i :: 0 <= i < ads.Length ==> Remembered(wanted, was[i]) == if i in objections[..k] then was[i].sw else ""
    {
      var at := objections[k];
      assert objections[..k + 1] == objections[..k] + [at];
      assert at !in objections[..k];
      assert forall i :: 0 <= i < ads.Length && i != at ==> was[i].id != was[at].id;
      wanted := wanted[ads[at].id := ads[at].sw];
      ads[at] := ads[at].(sw := "");
    }
    assert objections[..|objections|] == objections;
  }

  /** The first adapter whose target the destination lacks is k: those before it are joined,
      it and the rest are as they were. */
  predicate JoinedUpTo(mid: seq<Adapter>, now: seq<Adapter>, wanted: map<string, string>, netMap: map<string, SwitchMap.Row>,
      switches: set<string>, k: nat)
  {
    && |now| == |mid| && k < |mid| && !HasTarget(Remembered(wanted, mid[k]), netMap, switches)
    && (forall i :: 0 <= i < k ==> HasTarget(Remembered(wanted, mid[i]), netMap, switches))
    && (forall i :: 0 <= i < k ==> now[i] == Joined(mid[i], Remembered(wanted, mid[i]), netMap))
    && (forall i :: k <= i < |mid| ==> now[i] == mid[i])
  }

  /** Of the adapters objected to, k is the first whose target the destination lacks: those
      before it have landed, it and those behind it are off, and all others are as they were. */
  predicate StoppedAt(was: seq<Adapter>, now: seq<Adapter>, objections: seq<nat>, netMap: map<string, SwitchMap.Row>,
      switches: set<string>, k: nat)
  {
    && |now| == |was| && k < |was| && k in objections && !HasTarget(was[k].sw, netMap, switches)
    && (forall i :: 0 <= i < k && i in objections ==> HasTarget(was[i].sw, netMap, switches))
    && (forall i :: 0 <= i < k ==> now[i] == Landed(was[i], i in objections, netMap))
    && (forall i :: k <= i < |was| ==> now[i] == if i in objections then was[i].(sw := "") else was[i])
  }

  lemma StopsThere(was: seq<Adapter>, mid: seq<Adapter>, now: seq<Adapter>, objections: seq<nat>, wanted: map<string, string>,
      netMap: map<string, SwitchMap.Row>, switches: set<string>, k: nat)
    requires |mid| == |was| && JoinedUpTo(mid, now, wanted, netMap, switches, k)
    requires forall i :: 0 <= i < |was| ==> mid[i] == if i in objections then was[i].(sw := "") else was[i]
    requires forall i :: 0 <= i < |was| ==> Remembered(wanted, mid[i]) == if i in objections then was[i].sw else ""
    ensures StoppedAt(was, now, objections, netMap, switches, k)
  {
  }

  method ConnectByMap(ads: array<Adapter>, wanted: map<string, string>, netMap: map<string, SwitchMap.Row>,
      switches: set<string>) returns (ok: bool)
    modifies ads
    ensures ok <==> forall i :: 0 <= i < ads.Length ==> HasTarget(Remembered(wanted, old(ads[i])), netMap, switches)
    ensures ok ==> forall i :: 0 <= i < ads.Length ==> ads[i] == Joined(old(ads[i]), Remembered(wanted, old(ads[i])), netMap)
    ensures !ok ==> exists k: nat :: JoinedUpTo(old(ads[..]), ads[..], wanted, netMap, switches, k)
  {
    ghost var was := ads[..];
    for i := 0 to ads.Length
      invariant forall j :: 0 <= j < i ==> ads[j] == Joined(was[j], Remembered(wanted, was[j]), netMap)
      invariant forall j :: i <= j < ads.Length ==> ads[j] == was[j]
      invariant forall j :: 0 <= j < i ==> HasTarget(Remembered(wanted, was[j]), netMap, switches)
    {
      var ad := ads[i];
      if ad.id !in wanted || wanted[ad.id] == "" {
        continue;
      }
      var row := LookUp(netMap, wanted[ad.id]);
      if row.to == "" {
        continue;
      }
      if Lower(row.to) !in switches {
        assert !HasTarget(Remembered(wanted, was[i]), netMap, switches);
        assert JoinedUpTo(was, ads[..], wanted, netMap, switches, i);
        return false;
      }
      ads[i] := if row.vlan > 0 then ad.(sw := row.to, vlan := row.vlan) else ad.(sw := row.to);
    }
    return true;
  }

  /** Disconnect what the destination objects to, remembering its switch; compare once
      more, and stop before the import if that still objects; import; then connect by the
      map. A target the destination lacks stops it with the VM imported. The result is
      what the attempt's import meets. */
  method ImportAdapters(ads: array<Adapter>, objections: seq<nat>, objectsStill: bool,
      netMap: map<string, SwitchMap.Row>, switches: set<string>) returns (m: Meet)
    requires DistinctIds(ads[..])
    requires forall k :: 0 <= k < |objections| ==> objections[k] < ads.Length
    requires forall k, l :: 0 <= k < l < |objections| ==> objections[k] != objections[l]
    modifies ads
    ensures m.takes <==> !objectsStill
    ensures m.end == if m.takes && (forall i :: 0 <= i < ads.Length && i in objections ==> HasTarget(old(ads[i]).sw, netMap, switches)) then Goes else Throws
    ensures m.end == Goes ==> forall i :: 0 <= i < ads.Length ==> ads[i] == Landed(old(ads[i]), i in objections, netMap)
    ensures !m.takes ==> forall i :: 0 <= i < ads.Length ==> ads[i] == if i in objections then old(ads[i]).(sw := "") else old(ads[i])
    ensures m.takes && m.end != Goes ==> exists k: nat :: StoppedAt(old(ads[..]), ads[..], objections, netMap, switches, k)
  {
    var wanted := DisconnectObjected(ads, objections);
    if objectsStill {
      return Meet(false, Throws);
    }
    ghost var was, mid := old(ads[..]), ads[..];
    var ok := ConnectByMap(ads, wanted, netMap, switches);
    if !ok {
      ghost var k: nat :| JoinedUpTo(mid, ads[..], wanted, netMap, switches, k);
      StopsThere(was, mid, ads[..], objections, wanted, netMap, switches, k);
    }
    return Meet(true, if ok then Goes else Throws);
  }
}
