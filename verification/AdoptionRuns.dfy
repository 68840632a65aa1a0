/** Adoption over whole runs: what is never destroyed, and what can be resumed. */
module AdoptionRuns {
  import opened Wrappers
  import opened Text
  import opened Adoption

  predicate ValidDisk(d: Disk) {
    d.style.Raw? ==> d.parts == []
  }

  /** What the disk held without a partition table, and every partition that held anything,
      is where it was, as it was. */
  predicate Kept(d: Disk, d': Disk) {
    && (d.style.Raw? && d.style.data != 0 ==> d'.style == d.style)
    && forall i :: 0 <= i < |d.parts| && !d.parts[i].Bare? ==> i < |d'.parts| && d'.parts[i] == d.parts[i]
  }

  // ---- where the disk changes ---------------------------------------------

  /** The run gets as far as preparing the disk: it sees neither a resource that holds it
      nor a shared volume of the name. */
  predicate Prepares(st: State, r: Request, env: Env) {
    HeldSeen(st, env).None? && (r.asWitness || ShareSeen(st, r, env).None?)
  }

  lemma FinishedKeepsDisk(w: Work, i: nat, r: Request, env: Env)
    requires i < |w.st.cluster|
    ensures Finished(w, i, r, env).0.disk == w.st.disk
  {
    var (w1, at) := Renamed(w, i, r, env);
    if at.Some? {
      SharedKeepsDisk(w1, at.value, env);
    }
  }

  lemma SharedKeepsDisk(w: Work, i: nat, env: Env)
    requires i < |w.st.cluster|
    ensures Shared(w, i, env).0.st.disk == w.st.disk
  {
  }

  /** Preparing is the only part of a run that writes to the disk. */
  lemma DiskAfter(st: State, r: Request, env: Env)
    ensures Adopted(st, r, env).0.disk
         == if Prepares(st, r, env) then Prepared(Work(st, env.left), r, env.look, |STEPS|).0.st.disk else st.disk
  {
    var w := Work(st, env.left);
    var shared, held := ShareSeen(st, r, env), HeldSeen(st, env);
    if (shared.None? || r.asWitness) && held.Some? {
      FinishedKeepsDisk(w, held.value, r, env);
    } else {
      var (w1, ready) := Prepared(w, r, env.look, |STEPS|);
      var (w2, at) := Joined(w1, env);
      if ready && at.Some? {
        FinishedKeepsDisk(w2, at.value, r, env);
      }
    }
  }

  // ---- contents -----------------------------------------------------------

  /** The volume a format leaves. */
  function Fresh(r: Request): Part {
    Volume(UseFs(r), r.name, 0)
  }

  /** A first partition that holds something, on a disk that is not refused, when the second
      look finds the partition and no filesystem on it - because there is none that can be
      read, or because that look went unanswered. */
  predicate FirstExposed(d: Disk, r: Request, g: Reads) {
    && d.parts != [] && !d.parts[0].Bare? && d.parts[0] != Fresh(r) && !Refused(d, r, g)
    && g.partsPrepared && (d.parts[0].Foreign? || !g.volPrepared)
  }

  /** What is overwritten unasked: that, or whatever the disk holds without a partition
      table, which nothing looks for. */
  predicate Exposed(d: Disk, r: Request, g: Reads) {
    (d.style.Raw? && d.style.data != 0) || FirstExposed(d, r, g)
  }

  /** With everything answered that is a disk that holds something and has no partition
      table, or one whose first partition is unreadable and another of whose partitions
      carries the volume's own name. */
  lemma ExposedWhenAnswered(d: Disk, r: Request)
    requires ValidDisk(d) && !r.wipe
    ensures Exposed(d, r, ANSWERED) <==>
              (d.style.Raw? && d.style.data != 0) || (d.parts != [] && d.parts[0].Foreign? && Ours(d, r.name, ANSWERED))
  {
    if d.parts != [] && d.parts[0].Foreign? {
      assert !d.parts[0].Volume?;
    }
  }

  /** Without Wipe, short of the format nothing is lost; and the format is reached
      with something on the first partition only on an exposed disk. */
  lemma {:induction false} UnwipedSteps(w: Work, r: Request, g: Reads, n: nat)
    requires n <= |STEPS| && !r.wipe && ValidDisk(w.st.disk) && !Exposed(w.st.disk, r, g)
    ensures var (w', ok) := Prepared(w, r, g, n); var d := w'.st.disk;
            && Kept(w.st.disk, d)
            && (n >= 5 && ok ==> !d.style.Raw?)
            && (d.style.Raw? ==> d.parts == [])
            && (n < 7 && w.st.disk.parts != [] ==> d.parts == w.st.disk.parts && d.style == w.st.disk.style)
            && (n < 7 && w.st.disk.parts == [] ==> d.parts == [] || d.parts == [Bare])
            && (n >= 2 && ok ==> !Refused(w.st.disk, r, g))
            && (n >= 6 && ok && w.st.disk.parts != [] ==> g.partsPrepared)
  {
    if n > 0 {
      UnwipedSteps(w, r, g, n - 1);
      if n == 2 {
        SameJudgement(w.st.disk, Prepared(w, r, g, 1).0.st.disk, r, g);
      }
    }
  }

  lemma SameJudgement(d: Disk, d': Disk, r: Request, g: Reads)
    requires d'.parts == d.parts && (d.parts != [] ==> d'.style == d.style) && ValidDisk(d)
    ensures Refused(d', r, g) == Refused(d, r, g)
  {
    if d.parts != [] {
      assert Ours(d', r.name, g) == Ours(d, r.name, g) && Unreadable(d', g) == Unreadable(d, g);
    }
  }

  /** The commands that come before the first that could lose anything. */
  function Before(d: Disk): nat {
    (if d.offline then 1 else 0) + (if d.readOnly then 1 else 0)
  }

  /** On a disk that is not refused and not to be cleared the first four steps take it online
      and make it writable, and may be stopped before either. */
  lemma Readied(w: Work, r: Request, g: Reads)
    requires !Refused(w.st.disk, r, g) && !(r.wipe && HasData(w.st.disk, g))
    ensures var (w4, ok) := Prepared(w, r, g, 4);
            && w4.st.disk.parts == w.st.disk.parts && w4.st.disk.style == w.st.disk.style
            && (ok <==> w.left >= Before(w.st.disk)) && (ok ==> w4.left == w.left - Before(w.st.disk))
  {
    var (w1, ok1) := OneStep(w, r, g, Online);
    assert Prepared(w, r, g, 0) == (w, true);
    assert Prepared(w, r, g, 1) == (w1, ok1);
    assert Ours(w1.st.disk, r.name, g) == Ours(w.st.disk, r.name, g) && Unreadable(w1.st.disk, g) == Unreadable(w.st.disk, g);
    assert ok1 ==> Prepared(w, r, g, 2) == (w1, true);
    assert !ok1 ==> !Prepared(w, r, g, 2).1 && Prepared(w, r, g, 2).0 == w1;
    var (w3, ok3) := Prepared(w, r, g, 3);
    assert ok1 ==> (w3, ok3) == OneStep(w1, r, g, Writable);
    assert Prepared(w, r, g, 4) == (w3, ok3);
  }

  /** What is lost on an exposed disk that the script gets far enough with. */
  predicate Gone(d: Disk, d': Disk, r: Request) {
    !d'.style.Raw? &&
    (|| (d.style.Raw? && d.style.data != 0)
     || (d.parts != [] && !d.parts[0].Bare? && d.parts[0] != Fresh(r) && d'.parts != [] && d'.parts[0] == Fresh(r)))
  }

  /** An exposed disk loses it exactly when the script is not stopped before. */
  lemma ExposedLoses(w: Work, r: Request, g: Reads)
    requires !r.wipe && ValidDisk(w.st.disk) && Exposed(w.st.disk, r, g)
    ensures var d, d' := w.st.disk, Prepared(w, r, g, |STEPS|).0.st.disk;
            if w.left > Before(d) then Gone(d, d', r) && (d.parts != [] ==> d'.parts == [Fresh(r)] + d.parts[1..]) else Kept(d, d')
  {
    Readied(w, r, g);
    var (w4, ok4) := Prepared(w, r, g, 4);
    if !ok4 {
      StaysStopped(w, r, g, 4);
      return;
    }
    var (w5, ok5) := OneStep(w4, r, g, Initialize);
    assert Prepared(w, r, g, 5) == (w5, ok5);
    if !ok5 {
      StaysStopped(w, r, g, 5);
      return;
    }
    var (w6, ok6) := OneStep(w5, r, g, Partition);
    assert Prepared(w, r, g, 6) == (w6, ok6);
    if !ok6 {
      StaysStopped(w, r, g, 6);
      return;
    }
    assert Prepared(w, r, g, 7) == OneStep(w6, r, g, Format);
  }

  /** The run overwrites what is exposed. */
  predicate Strikes(st: State, r: Request, env: Env) {
    Exposed(st.disk, r, env.look) && Prepares(st, r, env) && env.left > Before(st.disk)
  }

  /** With nothing said about wiping a run preserves everything on the disk if and only if
      the disk is not exposed, or the run does not come to prepare it, or is stopped before
      the first command that overwrites anything. */
  lemma ContentsSurviveExactlyWhen(st: State, r: Request, env: Env)
    requires !r.wipe && ValidDisk(st.disk)
    ensures Kept(st.disk, Adopted(st, r, env).0.disk) <==> !Strikes(st, r, env)
    ensures Strikes(st, r, env) ==> Gone(st.disk, Adopted(st, r, env).0.disk, r)
  {
    DiskAfter(st, r, env);
    var w := Work(st, env.left);
    if !Exposed(st.disk, r, env.look) {
      UnwipedSteps(w, r, env.look, |STEPS|);
    } else if Prepares(st, r, env) {
      ExposedLoses(w, r, env.look);
    }
  }

  /** A disk with at most one partition, seen when it is judged and its filesystem read again,
      loses something exactly if it holds it without a partition table. */
  lemma SinglePartitionSurvives(st: State, r: Request, env: Env)
    requires !r.wipe && ValidDisk(st.disk) && |st.disk.parts| <= 1 && env.look.partsJudged && env.look.volPrepared
    requires Prepares(st, r, env) && env.left > Before(st.disk)
    ensures Kept(st.disk, Adopted(st, r, env).0.disk) <==> !(st.disk.style.Raw? && st.disk.style.data != 0)
  {
    var d := st.disk;
    if d.parts != [] && d.parts[0].Foreign? {
      assert Unreadable(d, env.look) && !Ours(d, r.name, env.look);
    }
    ContentsSurviveExactlyWhen(st, r, env);
  }

  /** The one partition of a disk, judged the volume's own, and read again without an
      answer: it is formatted, and nothing had asked for it. */
  lemma UnansweredLookFormats(st: State, r: Request, env: Env, data: nat)
    requires !r.wipe && st.disk.style == Gpt && st.disk.parts == [Volume("ReFS", r.name, data)] && data != 0
    requires Prepares(st, r, env) && env.left >= 3 && env.look == ANSWERED.(volPrepared := false)
    ensures Adopted(st, r, env).0.disk.parts == [Volume(UseFs(r), r.name, 0)]
    ensures !Kept(st.disk, Adopted(st, r, env).0.disk)
  {
    var d := st.disk;
    assert d.parts[0].Volume? && Same(d.parts[0].labelled, r.name) && 0 !in env.look.unread;
    assert Ours(d, r.name, env.look);
    DiskAfter(st, r, env);
    ExposedLoses(Work(st, env.left), r, env.look);
  }

  /** A disk with two partitions that is exposed with every reading answered. */
  lemma ExposedExample(data: nat, own: nat, env: Env)
    requires env.left >= 3 && env.look == ANSWERED
    ensures var d := Disk("s", "u", 1, 10, false, false, Gpt, [Foreign(data), Volume("ReFS", "vol", own)]);
            !Kept(d, Adopted(State(d, []), Request("vol", false, false, false, "ReFS"), env).0.disk)
  {
    var d := Disk("s", "u", 1, 10, false, false, Gpt, [Foreign(data), Volume("ReFS", "vol", own)]);
    var r := Request("vol", false, false, false, "ReFS");
    assert Ours(d, "vol", ANSWERED) by { assert d.parts[1].Volume? && Same(d.parts[1].labelled, "vol"); }
    ExposedWhenAnswered(d, r);
    ContentsSurviveExactlyWhen(State(d, []), r, env);
  }

  /** A disk with no partition table Windows knows and something on it, which every look
      answered does not show: formatted without Wipe, and under Keep too. */
  lemma UnpartitionedExample(data: nat, keep: bool, env: Env)
    requires data != 0 && env.left >= 3 && env.look == ANSWERED
    ensures var d := Disk("s", "u", 1, 10, false, false, Raw(data), []);
            var r := Request("vol", false, false, keep, "ReFS");
            var d' := Adopted(State(d, []), r, env).0.disk;
            !Refused(d, r, ANSWERED) && d'.parts == [Fresh(r)] && !Kept(d, d')
  {
    var d := Disk("s", "u", 1, 10, false, false, Raw(data), []);
    var r := Request("vol", false, false, keep, "ReFS");
    var w := Work(State(d, []), env.left);
    DiskAfter(State(d, []), r, env);
    Readied(w, r, ANSWERED);
    assert Prepared(w, r, ANSWERED, 4).1 && Prepared(w, r, ANSWERED, 4).0.left == w.left;
    var w4 := Prepared(w, r, ANSWERED, 4).0;
    var w5 := OneStep(w4, r, ANSWERED, Initialize).0;
    var w6 := OneStep(w5, r, ANSWERED, Partition).0;
    assert Prepared(w, r, ANSWERED, 5) == (w5, true);
    assert Prepared(w, r, ANSWERED, 6) == (w6, true);
    assert Prepared(w, r, ANSWERED, 7) == OneStep(w6, r, ANSWERED, Format);
  }

  // ---- a disk the cluster holds -------------------------------------------

  /** Some resource that holds the disk is listed with its identity. */
  predicate SeenHeld(st: State, env: Env) {
    exists i :: 0 <= i < |st.cluster| && i in env.seen && Mine(st.cluster[i], st.disk)
  }

  /** A shared volume of the name is listed, and it is not a witness that is wanted. */
  predicate SeenShared(st: State, r: Request, env: Env) {
    !r.asWitness && env.sharesSeen && exists i :: 0 <= i < |st.cluster| && st.cluster[i].csv && Same(st.cluster[i].name, r.name)
  }

  lemma PreparesExactlyWhen(st: State, r: Request, env: Env)
    ensures Prepares(st, r, env) <==> !SeenHeld(st, env) && !SeenShared(st, r, env)
  {
  }

  /** With a request to wipe a disk that is seen to hold something, the disk is left alone
      if and only if the cluster lists a resource that holds it or a shared volume of the
      name - whatever the cluster in truth holds. */
  lemma WipeSparesExactlyWhen(st: State, r: Request, env: Env)
    requires r.wipe && HasData(st.disk, env.look) && env.left >= 6
    requires forall i :: 0 <= i < |st.disk.parts| ==> st.disk.parts[i] != Volume(UseFs(r), r.name, 0)
    ensures Adopted(st, r, env).0.disk == st.disk <==> SeenHeld(st, env) || SeenShared(st, r, env)
  {
    DiskAfter(st, r, env);
    PreparesExactlyWhen(st, r, env);
    if Prepares(st, r, env) {
      assert st.disk.parts[0] != Volume(UseFs(r), r.name, 0);
      WipedWhole(Work(st, env.left), r, env.look);
    }
  }

  lemma WipedWhole(w: Work, r: Request, g: Reads)
    requires r.wipe && HasData(w.st.disk, g) && w.left >= 6
    ensures Prepared(w, r, g, |STEPS|).1
    ensures Prepared(w, r, g, |STEPS|).0.st.disk.parts == [Volume(UseFs(r), r.name, 0)]
  {
    ClearedFirst(w, r, g);
    var w4 := Prepared(w, r, g, 4).0;
    var w5 := OneStep(w4, r, g, Initialize).0;
    var w6 := OneStep(w5, r, g, Partition).0;
    assert Prepared(w, r, g, 5) == (w5, true);
    assert Prepared(w, r, g, 6) == (w6, true);
  }

  lemma ClearedFirst(w: Work, r: Request, g: Reads)
    requires r.wipe && HasData(w.st.disk, g) && w.left >= 6
    ensures var (w4, ok) := Prepared(w, r, g, 4); ok && w4.left >= 3 && w4.st.disk.style.Raw? && w4.st.disk.parts == []
  {
    var w1 := OneStep(w, r, g, Online).0;
    var w3 := OneStep(w1, r, g, Writable).0;
    assert Prepared(w, r, g, 0) == (w, true);
    assert Prepared(w, r, g, 1) == (w1, true);
    assert Prepared(w, r, g, 2) == (w1, true);
    assert Prepared(w, r, g, 3) == (w3, true);
  }

  /** A disk the cluster holds, under an ordinary resource that is online and in use, is
      cleared and formatted by a run with Wipe that the cluster does not answer. */
  lemma UnansweredClusterWipes(st: State, r: Request, env: Env, i: nat)
    requires i < |st.cluster| && Mine(st.cluster[i], st.disk) && st.cluster[i].online && !st.cluster[i].csv
    requires r.wipe && HasData(st.disk, env.look) && env.left >= 6 && env.seen == {} && !env.sharesSeen
    ensures Held(st) && Adopted(st, r, env).0.disk.parts == [Volume(UseFs(r), r.name, 0)]
  {
    DiskAfter(st, r, env);
    WipedWhole(Work(st, env.left), r, env.look);
  }

  /** No run touches a disk the cluster is seen to hold, Wipe or not; with every resource
      listed that is every disk the cluster holds. */
  lemma ClusteredDiskUntouched(st: State, r: Request, env: Env)
    requires SeenHeld(st, env) || (Held(st) && forall i :: 0 <= i < |st.cluster| ==> i in env.seen)
    ensures Adopted(st, r, env).0.disk == st.disk
  {
    DiskAfter(st, r, env);
  }

  // ---- readiness ----------------------------------------------------------

  predicate Held(st: State) {
    exists i :: 0 <= i < |st.cluster| && Mine(st.cluster[i], st.disk)
  }

  /** The cluster's names are distinct, it holds the disk at most once, and nothing
      but the disk goes by the volume's name. */
  predicate Orderly(st: State, r: Request) {
    && st.disk.uid != "" && r.name != ""
    && (forall i, j :: 0 <= i < j < |st.cluster| ==> !Same(st.cluster[i].name, st.cluster[j].name))
    && (forall i, j :: 0 <= i < j < |st.cluster| ==> !(Mine(st.cluster[i], st.disk) && Mine(st.cluster[j], st.disk)))
    && (forall i :: 0 <= i < |st.cluster| && Same(st.cluster[i].name, r.name) ==> Mine(st.cluster[i], st.disk))
  }

  predicate Ready(st: State, r: Request) {
    Orderly(st, r) && ValidDisk(st.disk) && (!Held(st) ==> !Refused(st.disk, r, ANSWERED))
  }

  /** Partitioned and not formatted: an empty partition reads as unknown data. */
  predicate Stuck(st: State, r: Request) {
    Orderly(st, r) && !Held(st) && !r.wipe && !st.disk.style.Raw? && st.disk.parts == [Bare]
  }

  /** The cluster answers, and lists what it holds. */
  predicate Lists(env: Env, st: State) {
    env.listsShared && env.sharesSeen && env.listedBefore && env.listedAfter && forall i :: 0 <= i < |st.cluster| ==> i in env.seen
  }

  /** Every reading is answered, and what the cluster takes for the disk is the disk, under
      a name not in use. */
  predicate Sane(env: Env, st: State) {
    Lists(env, st) && env.look == ANSWERED &&
    (Chosen(env.offers, st.disk) != [] ==>
      var mine := Chosen(env.offers, st.disk);
      |mine| == 1 && Same(mine[0].uid, st.disk.uid) && !NameTaken(st.cluster, mine[0].newName))
  }

  predicate DoneAt(c: seq<Res>, d: Disk, r: Request, i: nat)
    requires i < |c|
  {
    Mine(c[i], d) && c[i].online && (r.asWitness || (c[i].csv && Same(c[i].name, r.name)))
  }

  /** The volume is what the declaration asked for. */
  predicate Done(st: State, r: Request) {
    exists i :: 0 <= i < |st.cluster| && DoneAt(st.cluster, st.disk, r, i)
  }

  // ---- an interrupted run keeps the adoption resumable --------------------

  lemma StartedKeepsOrder(w: Work, i: nat, r: Request, env: Env)
    requires i < |w.st.cluster| && Orderly(w.st, r)
    ensures Orderly(Started(w, i, env).0.st, r)
    ensures Held(w.st) ==> Held(Started(w, i, env).0.st)
  {
    var c, c' := w.st.cluster, Started(w, i, env).0.st.cluster;
    assert |c'| == |c| && forall k :: 0 <= k < |c| ==> c'[k].name == c[k].name && c'[k].uid == c[k].uid;
    if Held(w.st) {
      var k :| 0 <= k < |c| && Mine(c[k], w.st.disk);
      assert Mine(c'[k], w.st.disk);
    }
  }

  /** On an orderly cluster the rename reaches resource i or nothing. */
  lemma RenamedKeepsOrder(w: Work, i: nat, r: Request, env: Env)
    requires i < |w.st.cluster| && Orderly(w.st, r) && Mine(w.st.cluster[i], w.st.disk) && env.listsShared
    ensures var (w', at) := Renamed(w, i, r, env);
            && Orderly(w'.st, r) && |w'.st.cluster| == |w.st.cluster| && w'.st.disk == w.st.disk
            && Mine(w'.st.cluster[i], w'.st.disk)
            && (at.Some? ==> at.value == i)
            && (env.renames && w.left > 0 ==> at.Some? && Same(w'.st.cluster[i].name, r.name) && w'.left >= w.left - 1)
  {
    var c := w.st.cluster;
    if !Same(c[i].name, r.name) && w.left > 0 {
      assert !NameTaken(c, r.name);
    }
  }

  lemma StartedKeepsHeld(w: Work, i: nat, r: Request, env: Env)
    requires i < |w.st.cluster| && Orderly(w.st, r) && Mine(w.st.cluster[i], w.st.disk) && w.st.cluster[i].csv
    ensures Orderly(Started(w, i, env).0.st, r) && Held(Started(w, i, env).0.st)
    ensures env.start == Comes && w.left >= 1 && Same(w.st.cluster[i].name, r.name) ==>
              Started(w, i, env).2 && Done(Started(w, i, env).0.st, r)
  {
    assert Held(w.st);
    StartedKeepsOrder(w, i, r, env);
    var c := Started(w, i, env).0.st.cluster;
    assert Mine(c[i], w.st.disk);
    assert env.start == Comes && w.left >= 1 && Same(w.st.cluster[i].name, r.name) ==> DoneAt(c, w.st.disk, r, i);
  }

  lemma SharedKeepsOrder(w: Work, i: nat, r: Request, env: Env)
    requires i < |w.st.cluster| && Orderly(w.st, r) && Mine(w.st.cluster[i], w.st.disk)
    ensures Orderly(Shared(w, i, env).0.st, r) && Held(Shared(w, i, env).0.st)
    ensures env.start == Comes && w.left >= 2 && Same(w.st.cluster[i].name, r.name) ==>
              Shared(w, i, env).1 && Done(Shared(w, i, env).0.st, r)
  {
    var existing := FindShared(w.st.cluster, w.st.cluster[i].name);
    if existing.Some? {
      assert existing.value == i;
      StartedKeepsHeld(w, i, r, env);
    } else if w.left > 0 {
      var c := w.st.cluster[i := w.st.cluster[i].(csv := true)];
      StartedKeepsHeld(Work(w.st.(cluster := c), w.left - 1), i, r, env);
    }
  }

  lemma FinishedKeepsOrder(w: Work, i: nat, r: Request, env: Env)
    requires i < |w.st.cluster| && Orderly(w.st, r) && Mine(w.st.cluster[i], w.st.disk) && env.listsShared
    ensures Orderly(Finished(w, i, r, env).0, r) && Held(Finished(w, i, r, env).0)
    ensures Finished(w, i, r, env).0.disk == w.st.disk
    ensures env.start == Comes && env.renames && w.left >= 3 ==>
              Finished(w, i, r, env).1 == Changed && Done(Finished(w, i, r, env).0, r)
  {
    FinishedKeepsDisk(w, i, r, env);
    RenamedKeepsOrder(w, i, r, env);
    var (w1, at) := Renamed(w, i, r, env);
    assert Held(w1.st);
    if at.Some? {
      if r.asWitness {
        StartedKeepsOrder(w1, i, r, env);
        assert Mine(Started(w1, i, env).0.st.cluster[i], w1.st.disk);
        assert env.start == Comes && w1.left >= 1 ==> DoneAt(Started(w1, i, env).0.st.cluster, w1.st.disk, r, i);
      } else {
        SharedKeepsOrder(w1, i, r, env);
      }
    }
  }

  predicate BareDisk(d: Disk, r: Request) {
    !r.wipe && !d.style.Raw? && d.parts == [Bare]
  }

  /** After any number of steps the disk is one the next run will not refuse, or
      one with nothing on it but an unformatted partition. */
  lemma {:induction false} PreparedStates(w: Work, r: Request, n: nat)
    requires n <= |STEPS| && ValidDisk(w.st.disk) && !Refused(w.st.disk, r, ANSWERED)
    ensures var (w', ok) := Prepared(w, r, ANSWERED, n); var d := w'.st.disk;
            && ValidDisk(d) && d.uid == w.st.disk.uid && w'.st.cluster == w.st.cluster
            && (!Refused(d, r, ANSWERED) || BareDisk(d, r))
            && (n >= 5 && ok ==> !d.style.Raw?)
            && (n < 6 ==> !Refused(d, r, ANSWERED))
            && (n == 7 && ok ==> !Refused(d, r, ANSWERED))
            && (n == 7 && !ok && w.left >= 6 ==> false)
            && w'.left <= w.left && w.left - w'.left <= n
            && (n >= 2 && ok ==> w.left - w'.left <= n - 1)
            && (w.left >= 6 ==> ok)
  {
    if n > 0 {
      PreparedStates(w, r, n - 1);
      var (w1, ok) := Prepared(w, r, ANSWERED, n - 1);
      if ok {
        StepStates(w1, r, n - 1);
      }
    }
  }

  lemma StepStates(w: Work, r: Request, k: nat)
    requires k < |STEPS| && ValidDisk(w.st.disk) && (k >= 5 ==> !w.st.disk.style.Raw?)
    requires !Refused(w.st.disk, r, ANSWERED) || (k == 6 && BareDisk(w.st.disk, r))
    ensures var (w', ok) := OneStep(w, r, ANSWERED, STEPS[k]); var d := w'.st.disk;
            && ValidDisk(d) && d.uid == w.st.disk.uid && w'.st.cluster == w.st.cluster
            && (!Refused(d, r, ANSWERED) || BareDisk(d, r))
            && (k >= 4 && ok ==> !d.style.Raw?)
            && (k < 5 ==> !Refused(d, r, ANSWERED))
            && (k == 6 && ok ==> !Refused(d, r, ANSWERED))
            && w'.left <= w.left && w.left - w'.left <= (if k == 1 then 0 else 1)
            && (w.left >= 1 ==> ok)
  {
    var (w', ok) := OneStep(w, r, ANSWERED, STEPS[k]);
    var d, d' := w.st.disk, w'.st.disk;
    if k == 6 && Due(Format, d, r, ANSWERED) && ok {
      assert d'.parts[0].Volume? && Same(d'.parts[0].labelled, r.name);
      assert Ours(d', r.name, ANSWERED);
    }
    if k == 0 || k == 2 {
      assert d'.parts == d.parts && d'.style == d.style;
      assert Ours(d', r.name, ANSWERED) == Ours(d, r.name, ANSWERED) && Unreadable(d', ANSWERED) == Unreadable(d, ANSWERED);
    }
  }

  lemma {:induction false} NewIsLast(c: seq<Res>, res: Res, env: Env, k: nat)
    requires k <= |c| && env.listsShared && env.listedBefore && env.listedAfter && !NameTaken(c, res.name)
    ensures FirstNew(c, c + [res], env, k) == Some(res.name)
    decreases |c| - k
  {
    if k < |c| {
      assert (c + [res])[k] == c[k];
      NewIsLast(c, res, env, k + 1);
    } else {
      assert (c + [res])[k] == res;
    }
  }

  lemma {:induction false} NothingNew(c: seq<Res>, env: Env, k: nat)
    requires k <= |c| && env.listsShared && env.listedBefore
    ensures FirstNew(c, c, env, k) == None
    decreases |c| - k
  {
    if k < |c| {
      NothingNew(c, env, k + 1);
    }
  }

  lemma JoinedKeepsOrder(w: Work, r: Request, env: Env)
    requires Orderly(w.st, r) && !Held(w.st) && Sane(env, w.st)
    ensures var (w', at) := Joined(w, env);
            && Orderly(w'.st, r) && w'.st.disk == w.st.disk
            && (at.Some? ==> at.value < |w'.st.cluster| && Mine(w'.st.cluster[at.value], w'.st.disk))
            && (w'.st.cluster == w.st.cluster || Held(w'.st))
            && (w.left > 0 && Chosen(env.offers, w.st.disk) != [] && Chosen(env.offers, w.st.disk)[0].accepts ==> at.Some? && w'.left == w.left - 1)
  {
    var mine, c := Chosen(env.offers, w.st.disk), w.st.cluster;
    if mine != [] && w.left > 0 {
      assert Added(mine[1..]) == [];
      if mine[0].accepts {
        var res := Res(mine[0].newName, mine[0].uid, false, false);
        assert Added(mine) == [res];
        assert (c + [res])[|c|] == res && Mine(res, w.st.disk);
        NewIsLast(c, res, env, 0);
        assert Held(w.st.(cluster := c + [res]));
      } else {
        assert Added(mine) == [] && c + [] == c;
        NothingNew(c, env, 0);
      }
    }
  }

  /** One run, stopped anywhere, from a ready state: the next run can still finish
      the adoption, or the disk is left partitioned and not formatted - which never
      happens with Wipe. */
  lemma RunKeepsReady(st: State, r: Request, env: Env)
    requires Ready(st, r) && Sane(env, st)
    ensures var st' := Adopted(st, r, env).0; Ready(st', r) || Stuck(st', r)
  {
    var w := Work(st, env.left);
    var shared, held := ShareSeen(st, r, env), HeldSeen(st, env);
    DiskAfter(st, r, env);
    if shared.Some? && !r.asWitness {
      assert Held(st);
      StartedKeepsOrder(w, shared.value, r, env);
    } else if held.Some? {
      assert Held(st);
      StartedKeepsOrder(w, held.value, r, env);
      FinishedKeepsOrder(w, held.value, r, env);
    } else {
      assert !Held(st);
      FreshRunKeepsReady(w, r, env);
    }
  }

  lemma FreshRunKeepsReady(w: Work, r: Request, env: Env)
    requires Ready(w.st, r) && Sane(env, w.st) && !Held(w.st) && w.left == env.left && Prepares(w.st, r, env)
    ensures var st' := Adopted(w.st, r, env).0; Ready(st', r) || Stuck(st', r)
  {
    PreparedStates(w, r, |STEPS|);
    var (w1, ready) := Prepared(w, r, ANSWERED, |STEPS|);
    SameChoice(w.st.disk, w1.st.disk, env, w, r);
    assert Orderly(w1.st, r) && !Held(w1.st);
    if ready {
      JoinedKeepsOrder(w1, r, env);
      var (w2, at) := Joined(w1, env);
      if at.Some? {
        FinishedKeepsOrder(w2, at.value, r, env);
      }
    }
  }

  lemma SameChoice(d: Disk, d': Disk, env: Env, w: Work, r: Request)
    requires d == w.st.disk && d' == Prepared(w, r, ANSWERED, |STEPS|).0.st.disk
    ensures Chosen(env.offers, d') == Chosen(env.offers, d)
  {
    PreparedKeepsIdentity(w, r, ANSWERED, |STEPS|);
  }

  lemma {:induction false} PreparedKeepsIdentity(w: Work, r: Request, g: Reads, n: nat)
    requires n <= |STEPS|
    ensures var d, d' := w.st.disk, Prepared(w, r, g, n).0.st.disk;
            d'.uid == d.uid && d'.number == d.number && d'.size == d.size && d'.serial == d.serial
    ensures Prepared(w, r, g, n).0.st.cluster == w.st.cluster
  {
    if n > 0 {
      PreparedKeepsIdentity(w, r, g, n - 1);
    }
  }

  // ---- a run that is not interrupted --------------------------------------

  /** Nothing in the way: the resource starts, the rename takes, and a disk not yet
      held is offered and accepted. */
  predicate Good(env: Env, st: State) {
    && Sane(env, st) && env.start == Comes && env.renames && env.left >= 10
    && (!Held(st) ==> Chosen(env.offers, st.disk) != [] && Chosen(env.offers, st.disk)[0].accepts)
  }

  lemma GoodRunAdopts(st: State, r: Request, env: Env)
    requires Ready(st, r) && Good(env, st)
    ensures var (st', out) := Adopted(st, r, env); out != Failed && Done(st', r) && Ready(st', r)
  {
    var w := Work(st, env.left);
    var shared, held := ShareSeen(st, r, env), HeldSeen(st, env);
    RunKeepsReady(st, r, env);
    if shared.Some? && !r.asWitness {
      StartFinishes(w, shared.value, r, env);
    } else if held.Some? && r.asWitness {
      StartFinishes(w, held.value, r, env);
    } else if held.Some? {
      FinishedKeepsOrder(w, held.value, r, env);
    } else {
      assert !Held(st);
      FreshGoodRun(w, r, env);
    }
  }

  lemma StartFinishes(w: Work, i: nat, r: Request, env: Env)
    requires i < |w.st.cluster| && Mine(w.st.cluster[i], w.st.disk) && env.start == Comes && w.left >= 1
    requires r.asWitness || (w.st.cluster[i].csv && Same(w.st.cluster[i].name, r.name))
    ensures OnlyStarted(w, i, env).1 != Failed && Done(OnlyStarted(w, i, env).0, r)
  {
    var st' := Started(w, i, env).0.st;
    assert DoneAt(st'.cluster, st'.disk, r, i);
  }

  lemma FreshGoodRun(w: Work, r: Request, env: Env)
    requires Ready(w.st, r) && Good(env, w.st) && !Held(w.st) && w.left == env.left
    ensures var (st', out) := Adopted(w.st, r, env); out == Changed && Done(st', r)
  {
    assert ShareSeen(w.st, r, env).None? && HeldSeen(w.st, env).None?;
    PreparedStates(w, r, |STEPS|);
    var (w1, ready) := Prepared(w, r, ANSWERED, |STEPS|);
    SameChoice(w.st.disk, w1.st.disk, env, w, r);
    assert Orderly(w1.st, r) && !Held(w1.st);
    JoinedKeepsOrder(w1, r, env);
    var (w2, at) := Joined(w1, env);
    FinishedKeepsOrder(w2, at.value, r, env);
  }

  /** The one listing that shows an adoption: for a witness that of the resources with
      their identities, for a volume that of the shared volumes. */
  predicate Told(st: State, r: Request, env: Env) {
    if r.asWitness then SeenHeld(st, env) else env.sharesSeen
  }

  /** Adopted is a fixed point: whatever else the next run meets, it changes nothing and
      says so exactly when it is told of the adoption. */
  lemma AdoptedStaysExactlyWhen(st: State, r: Request, env: Env)
    requires Orderly(st, r) && Done(st, r)
    ensures Adopted(st, r, env) == (st, Unchanged) <==> Told(st, r, env)
  {
    var i :| 0 <= i < |st.cluster| && DoneAt(st.cluster, st.disk, r, i);
    var shared, held := ShareSeen(st, r, env), HeldSeen(st, env);
    if Told(st, r, env) {
      assert r.asWitness ==> held == Some(i);
      assert !r.asWitness ==> shared == Some(i);
    }
  }

  // ---- stuck --------------------------------------------------------------

  /** A refusal alters nothing but the offline flag, which is cleared to read the disk. */
  lemma RefusalAltersNothing(st: State, r: Request, env: Env)
    requires Prepares(st, r, env) && Refused(st.disk, r, env.look)
    ensures var (st', out) := Adopted(st, r, env);
            out == Failed && st'.cluster == st.cluster
            && (st'.disk == st.disk || st'.disk == st.disk.(offline := false))
  {
    var w, g := Work(st, env.left), env.look;
    assert Prepared(w, r, g, 0) == (w, true);
    var (w1, ok) := Prepared(w, r, g, 1);
    assert (w1, ok) == OneStep(w, r, g, Online);
    assert w1.st.disk.parts == st.disk.parts && w1.st.disk.style == st.disk.style;
    assert Ours(w1.st.disk, r.name, g) == Ours(st.disk, r.name, g) && Unreadable(w1.st.disk, g) == Unreadable(st.disk, g);
    assert !Prepared(w, r, g, 2).1 && Prepared(w, r, g, 2).0 == w1;
    StaysStopped(w, r, g, 2);
  }

  /** A stuck disk is refused by every run. */
  lemma StuckStays(st: State, r: Request, env: Env)
    requires Stuck(st, r) && Sane(env, st)
    ensures var (st', out) := Adopted(st, r, env);
            out == Failed && Stuck(st', r) && st'.cluster == st.cluster
            && (st'.disk == st.disk || st'.disk == st.disk.(offline := false))
  {
    BareIsRefused(st.disk, r);
    RefusalAltersNothing(st, r, env);
  }

  /** The number of commands that come before the format on a disk without partitions. */
  function BeforeFormat(d: Disk): nat {
    (if d.offline then 1 else 0) + (if d.readOnly then 1 else 0) + (if d.style.Raw? then 1 else 0) + 1
  }

  /** Exactly when a run leaves the adoption stuck: no Wipe, a disk without
      partitions, and the script stopped right between New-Partition and
      Format-Volume. */
  lemma SticksExactlyWhen(st: State, r: Request, env: Env)
    requires Ready(st, r) && Sane(env, st)
    ensures Stuck(Adopted(st, r, env).0, r)
        <==> !Held(st) && !r.wipe && st.disk.parts == [] && env.left == BeforeFormat(st.disk)
  {
    var w := Work(st, env.left);
    var shared, held := ShareSeen(st, r, env), HeldSeen(st, env);
    DiskAfter(st, r, env);
    if Held(st) {
      HeldStaysHeld(st, r, env);
    } else {
      assert shared.None? && held.None?;
      if !r.wipe {
        AfterPreparing(st, r, env);
        if st.disk.parts == [] {
          EmptyDiskSteps(w, r);
        } else {
          FullDiskNeverBare(w, r, |STEPS|);
          BareIsRefused(st.disk, r);
        }
      }
    }
  }

  lemma HeldStaysHeld(st: State, r: Request, env: Env)
    requires Orderly(st, r) && Sane(env, st) && Held(st)
    ensures Held(Adopted(st, r, env).0)
  {
    var w := Work(st, env.left);
    var shared, held := ShareSeen(st, r, env), HeldSeen(st, env);
    assert held.Some?;
    if shared.Some? && !r.asWitness {
      StartedKeepsOrder(w, shared.value, r, env);
    } else {
      StartedKeepsOrder(w, held.value, r, env);
      FinishedKeepsOrder(w, held.value, r, env);
    }
  }

  /** Once prepared, a disk is formatted, so only a run that stops before that
      leaves a bare one. */
  lemma AfterPreparing(st: State, r: Request, env: Env)
    requires Ready(st, r) && Sane(env, st) && !Held(st) && !r.wipe
    ensures var (w1, ready) := Prepared(Work(st, env.left), r, ANSWERED, |STEPS|);
            Stuck(Adopted(st, r, env).0, r) <==> BareDisk(w1.st.disk, r)
  {
    var w := Work(st, env.left);
    assert ShareSeen(st, r, env).None? && HeldSeen(st, env).None?;
    DiskAfter(st, r, env);
    PreparedStates(w, r, |STEPS|);
    var (w1, ready) := Prepared(w, r, ANSWERED, |STEPS|);
    if ready {
      assert !Unreadable(w1.st.disk, ANSWERED) || !BareDisk(w1.st.disk, r) by { BareIsRefused(w1.st.disk, r); }
    } else {
      assert Adopted(st, r, env).0 == w1.st;
      assert Orderly(w1.st, r) && !Held(w1.st);
    }
    BareIsRefused(w1.st.disk, r);
  }

  lemma BareIsRefused(d: Disk, r: Request)
    ensures BareDisk(d, r) ==> Refused(d, r, ANSWERED)
  {
    if BareDisk(d, r) {
      assert !d.parts[0].Volume?;
    }
  }

  lemma EmptyDiskSteps(w: Work, r: Request)
    requires w.st.disk.parts == []
    ensures !r.wipe ==> (BareDisk(Prepared(w, r, ANSWERED, |STEPS|).0.st.disk, r) <==> w.left == BeforeFormat(w.st.disk))
  {
    Readied(w, r, ANSWERED);
    var (w4, ok4) := Prepared(w, r, ANSWERED, 4);
    if !ok4 { StaysStopped(w, r, ANSWERED, 4); return; }
    var (w5, ok5) := OneStep(w4, r, ANSWERED, Initialize);
    assert Prepared(w, r, ANSWERED, 5) == (w5, ok5);
    if !ok5 { StaysStopped(w, r, ANSWERED, 5); return; }
    var (w6, ok6) := OneStep(w5, r, ANSWERED, Partition);
    assert Prepared(w, r, ANSWERED, 6) == (w6, ok6);
    if !ok6 { StaysStopped(w, r, ANSWERED, 6); return; }
    assert Prepared(w, r, ANSWERED, 7) == OneStep(w6, r, ANSWERED, Format);
  }

  lemma {:induction false} FullDiskNeverBare(w: Work, r: Request, n: nat)
    requires n <= |STEPS| && !r.wipe && w.st.disk.parts != [] && ValidDisk(w.st.disk) && !Refused(w.st.disk, r, ANSWERED)
    ensures var d := Prepared(w, r, ANSWERED, n).0.st.disk;
            d.parts != [] && d.style == w.st.disk.style && (d.parts == w.st.disk.parts || d.parts[0].Volume?)
  {
    if n > 0 {
      FullDiskNeverBare(w, r, n - 1);
    }
    if w.st.disk.parts == [Bare] {
      BareIsRefused(w.st.disk, r);
    }
  }

  // ---- whole runs ---------------------------------------------------------

  /** Run after run with the same arguments, each stopped wherever its budget ends. */
  function AfterRuns(st: State, r: Request, envs: seq<Env>): State {
    if envs == [] then st else Adopted(AfterRuns(st, r, envs[..|envs| - 1]), r, envs[|envs| - 1]).0
  }

  predicate SaneRuns(st: State, r: Request, envs: seq<Env>) {
    envs == [] || (SaneRuns(st, r, envs[..|envs| - 1]) && Sane(envs[|envs| - 1], AfterRuns(st, r, envs[..|envs| - 1])))
  }

  lemma {:induction false} RunsKeepReady(st: State, r: Request, envs: seq<Env>)
    requires Ready(st, r) && SaneRuns(st, r, envs)
    ensures Ready(AfterRuns(st, r, envs), r) || Stuck(AfterRuns(st, r, envs), r)
  {
    if envs != [] {
      var before, env := AfterRuns(st, r, envs[..|envs| - 1]), envs[|envs| - 1];
      RunsKeepReady(st, r, envs[..|envs| - 1]);
      if Ready(before, r) {
        RunKeepsReady(before, r, env);
      } else {
        StuckStays(before, r, env);
      }
    }
  }

  /** Whatever the looks show, an unwiped run leaves in the first place what was there or a
      fresh volume, and gives no disk's partition table up. */
  predicate From(d: Disk, d': Disk, r: Request) {
    && (d'.style.Raw? ==> d'.style == d.style)
    && (d'.parts != [] && !d'.parts[0].Bare? && d'.parts[0] != Fresh(r) ==> d.parts != [] && d'.parts[0] == d.parts[0])
  }

  lemma {:induction false} UnwipedFirst(w: Work, r: Request, g: Reads, n: nat)
    requires n <= |STEPS| && !r.wipe && ValidDisk(w.st.disk)
    ensures var d, (w', ok) := w.st.disk, Prepared(w, r, g, n); var d' := w'.st.disk;
            && ValidDisk(d') && From(d, d', r) && (n >= 5 && ok ==> !d'.style.Raw?)
            && (d.parts != [] && d.parts[0] == Fresh(r) ==> d'.parts != [] && d'.parts[0] == Fresh(r))
  {
    if n > 0 {
      UnwipedFirst(w, r, g, n - 1);
    }
  }

  /** One run: what is gone stays gone, and what is lost in it was there to begin with. */
  lemma RunOnContents(d: Disk, st: State, r: Request, env: Env)
    requires !r.wipe && ValidDisk(st.disk) && From(d, st.disk, r)
    ensures var d' := Adopted(st, r, env).0.disk;
            && ValidDisk(d') && From(d, d', r)
            && (Gone(d, st.disk, r) || Strikes(st, r, env) ==> Gone(d, d', r))
            && (Kept(d, st.disk) && !Strikes(st, r, env) ==> Kept(d, d'))
  {
    DiskAfter(st, r, env);
    UnwipedFirst(Work(st, env.left), r, env.look, |STEPS|);
    ContentsSurviveExactlyWhen(st, r, env);
  }

  lemma GoneIsLost(d: Disk, d': Disk, r: Request)
    ensures Gone(d, d', r) ==> !Kept(d, d')
  {
    if Gone(d, d', r) && d.parts != [] && !d.parts[0].Bare? && d.parts[0] != Fresh(r) {
      assert d'.parts == [] || d'.parts[0] == Fresh(r) || d.style.Raw?;
    }
  }

  lemma ContentsTurn(d: Disk, mid: State, r: Request, env: Env, kept: bool)
    requires !r.wipe && ValidDisk(mid.disk) && From(d, mid.disk, r)
    requires (Kept(d, mid.disk) <==> kept) && (kept || Gone(d, mid.disk, r))
    ensures var d' := Adopted(mid, r, env).0.disk;
            && ValidDisk(d') && From(d, d', r)
            && (Kept(d, d') <==> kept && !Strikes(mid, r, env)) && (Kept(d, d') || Gone(d, d', r))
  {
    RunOnContents(d, mid, r, env);
    GoneIsLost(d, Adopted(mid, r, env).0.disk, r);
  }

  /** Run k struck. */
  predicate StruckAt(st: State, r: Request, envs: seq<Env>, k: nat)
    requires k < |envs|
  {
    Strikes(AfterRuns(st, r, envs[..k]), r, envs[k])
  }

  predicate Unstruck(st: State, r: Request, envs: seq<Env>) {
    forall k :: 0 <= k < |envs| ==> !StruckAt(st, r, envs, k)
  }

  lemma UnstruckNext(st: State, r: Request, envs: seq<Env>)
    requires envs != []
    ensures var n := |envs| - 1;
            Unstruck(st, r, envs) <==> Unstruck(st, r, envs[..n]) && !Strikes(AfterRuns(st, r, envs[..n]), r, envs[n])
  {
    var n := |envs| - 1;
    forall k | 0 <= k < n ensures StruckAt(st, r, envs[..n], k) <==> StruckAt(st, r, envs, k) {
      assert envs[..n][..k] == envs[..k];
    }
    assert StruckAt(st, r, envs, n) == Strikes(AfterRuns(st, r, envs[..n]), r, envs[n]);
    if Unstruck(st, r, envs) {
      forall k | 0 <= k < |envs[..n]| ensures !StruckAt(st, r, envs[..n], k) {
        assert !StruckAt(st, r, envs, k);
      }
    } else {
      var k :| 0 <= k < |envs| && StruckAt(st, r, envs, k);
      assert k < n ==> StruckAt(st, r, envs[..n], k);
    }
  }

  /** Over any number of runs without Wipe, stopped wherever and whatever is answered:
      everything the disk held is still there if and only if no run met it exposed, came to
      prepare it and got as far as overwriting it. */
  lemma {:induction false} RunsKeepContentsExactlyWhen(st: State, r: Request, envs: seq<Env>)
    requires !r.wipe && ValidDisk(st.disk)
    ensures var d' := AfterRuns(st, r, envs).disk;
            && ValidDisk(d') && From(st.disk, d', r)
            && (Kept(st.disk, d') <==> Unstruck(st, r, envs))
            && (Kept(st.disk, d') || Gone(st.disk, d', r))
  {
    if envs != [] {
      var n := |envs| - 1;
      RunsKeepContentsExactlyWhen(st, r, envs[..n]);
      ContentsTurn(st.disk, AfterRuns(st, r, envs[..n]), r, envs[n], Unstruck(st, r, envs[..n]));
      UnstruckNext(st, r, envs);
    }
  }

  /** With every look answered a disk that is not exposed never becomes exposed. */
  lemma UnexposedStays(st: State, r: Request, env: Env)
    requires !r.wipe && ValidDisk(st.disk) && env.look == ANSWERED && !Exposed(st.disk, r, ANSWERED)
    ensures var d' := Adopted(st, r, env).0.disk; ValidDisk(d') && !Exposed(d', r, ANSWERED)
  {
    var w, d' := Work(st, env.left), Adopted(st, r, env).0.disk;
    DiskAfter(st, r, env);
    if Prepares(st, r, env) {
      UnwipedSteps(w, r, ANSWERED, 6);
      UnwipedSteps(w, r, ANSWERED, 7);
      UnwipedFirst(w, r, ANSWERED, 7);
      ExposedWhenAnswered(st.disk, r);
      ExposedWhenAnswered(d', r);
    }
  }

  /** So with every look answered runs without Wipe lose nothing, unless the disk was exposed
      to begin with. */
  lemma {:induction false} RunsKeepContents(st: State, r: Request, envs: seq<Env>)
    requires !r.wipe && ValidDisk(st.disk) && !Exposed(st.disk, r, ANSWERED)
    requires forall k :: 0 <= k < |envs| ==> envs[k].look == ANSWERED
    ensures var d' := AfterRuns(st, r, envs).disk;
            Kept(st.disk, d') && ValidDisk(d') && !Exposed(d', r, ANSWERED)
  {
    if envs != [] {
      var n := |envs| - 1;
      var mid := AfterRuns(st, r, envs[..n]);
      RunsKeepContents(st, r, envs[..n]);
      ContentsSurviveExactlyWhen(mid, r, envs[n]);
      UnexposedStays(mid, r, envs[n]);
    }
  }

  /** Adoption is resumable. However many runs were stopped and wherever, one that
      meets nothing in its way ends with the LUN as declared, and the run after it
      reports it unchanged exactly when told of it - except on a stuck disk, which with
      Wipe no run leaves. */
  lemma Resumes(st: State, r: Request, envs: seq<Env>, good: Env, next: Env)
    requires Ready(st, r) && SaneRuns(st, r, envs)
    requires Good(good, AfterRuns(st, r, envs))
    requires r.wipe || !Stuck(AfterRuns(st, r, envs), r)
    ensures var (st', out) := Adopted(AfterRuns(st, r, envs), r, good);
            out != Failed && Done(st', r) && (Adopted(st', r, next) == (st', Unchanged) <==> Told(st', r, next))
  {
    RunsKeepReady(st, r, envs);
    var mid := AfterRuns(st, r, envs);
    GoodRunAdopts(mid, r, good);
    AdoptedStaysExactlyWhen(Adopted(mid, r, good).0, r, next);
  }

  // ---- what readiness rules out -------------------------------------------

  /** Another resource that goes by the volume's name is what gets shared, started
      and reported, and the disk that was to be adopted is not. */
  lemma NamesakeSharedInstead(st: State, r: Request, env: Env, i: nat, k: nat)
    requires i < |st.cluster| && k < |st.cluster| && !r.asWitness && r.name != "" && Lists(env, st)
    requires Mine(st.cluster[i], st.disk) && !Mine(st.cluster[k], st.disk)
    requires Same(st.cluster[k].name, r.name) && !st.cluster[i].csv && !st.cluster[k].csv
    requires forall a, b :: 0 <= a < b < |st.cluster| ==> !Same(st.cluster[a].name, st.cluster[b].name)
    requires forall a, b :: 0 <= a < b < |st.cluster| ==> !(Mine(st.cluster[a], st.disk) && Mine(st.cluster[b], st.disk))
    requires env.start == Comes && env.left >= 2
    ensures Adopted(st, r, env)
         == (st.(cluster := st.cluster[k := st.cluster[k].(csv := true, online := true)]), Changed)
  {
    var w := Work(st, env.left);
    assert HeldSeen(st, env) == Some(i);
    assert ShareSeen(st, r, env).None?;
    assert FindNamed(st.cluster, r.name, env) == Some(k);
    assert Renamed(w, i, r, env) == (w, Some(k));
    SharesAnew(w, k, env);
  }

  lemma SharesAnew(w: Work, k: nat, env: Env)
    requires k < |w.st.cluster| && !w.st.cluster[k].csv && env.start == Comes && w.left >= 2
    requires forall a, b :: 0 <= a < b < |w.st.cluster| ==> !Same(w.st.cluster[a].name, w.st.cluster[b].name)
    ensures Shared(w, k, env).1
    ensures Shared(w, k, env).0.st == w.st.(cluster := w.st.cluster[k := w.st.cluster[k].(csv := true, online := true)])
  {
    var c := w.st.cluster[k := w.st.cluster[k].(csv := true)];
    assert FindShared(w.st.cluster, w.st.cluster[k].name).None?;
    assert c[k].csv && FindShared(c, c[k].name) == Some(k);
    assert c[k := c[k].(online := true)] == w.st.cluster[k := w.st.cluster[k].(csv := true, online := true)];
  }

  /** A shared volume of the name that is some other disk is reported as this one
      adopted, for good. */
  lemma ForeignShareReported(st: State, r: Request, env: Env)
    requires !r.asWitness && ShareSeen(st, r, env).Some?
    requires st.cluster[ShareSeen(st, r, env).value].online && !Held(st)
    ensures Adopted(st, r, env) == (st, Unchanged) && !Done(st, r)
  {
  }

  lemma {:induction false} AddedUids(mine: seq<Offer>, k: nat)
    requires k < |Added(mine)|
    ensures exists j :: 0 <= j < |mine| && Added(mine)[k].uid == mine[j].uid
    decreases |mine|
  {
    if mine[0].accepts && k == 0 {
      assert Added(mine)[0].uid == mine[0].uid;
    } else {
      var k1 := if mine[0].accepts then k - 1 else k;
      AddedUids(mine[1..], k1);
      var j :| 0 <= j < |mine[1..]| && Added(mine[1..])[k1].uid == mine[1..][j].uid;
      assert mine[j + 1].uid == Added(mine)[k].uid;
    }
  }

  /** What joins the cluster is the disk if the cluster offers it by identity, and
      some other disk - matched by a number that is not this node's, or by size -
      if it does not. */
  lemma JoinsOwnExactlyWhen(w: Work, env: Env)
    requires w.st.disk.uid != "" && !Held(w.st) && w.left > 0 && Added(Chosen(env.offers, w.st.disk)) != []
    ensures Held(Joined(w, env).0.st) <==> WithUid(env.offers, w.st.disk.uid) != []
  {
    var d := w.st.disk;
    var mine := Chosen(env.offers, d);
    var c := w.st.cluster + Added(mine);
    assert Joined(w, env).0.st.cluster == c;
    if WithUid(env.offers, d.uid) != [] {
      AddedUids(mine, 0);
      assert Mine(c[|w.st.cluster|], d);
    } else {
      forall k | 0 <= k < |c| ensures !Mine(c[k], d) {
        if k >= |w.st.cluster| {
          AddedUids(mine, k - |w.st.cluster|);
          var j :| 0 <= j < |mine| && c[k].uid == mine[j].uid;
          NotOffered(env.offers, d.uid, mine[j]);
        }
      }
    }
  }

  lemma {:induction false} NotOffered(offers: seq<Offer>, uid: string, o: Offer)
    requires uid != "" && WithUid(offers, uid) == [] && o in offers
    ensures !Same(o.uid, uid)
  {
    if o != offers[0] {
      assert offers == [offers[0]] + offers[1..];
      NotOffered(offers[1..], uid, o);
    }
  }

  /** The first resource of a cluster without shared volumes or one of the name: it is named,
      shared and started. */
  lemma FirstTakesOver(w: Work, r: Request, env: Env)
    requires w.st.cluster != [] && env.renames && env.start == Comes && w.left >= 3 && !r.asWitness && r.name != ""
    requires forall k :: 0 <= k < |w.st.cluster| ==> !w.st.cluster[k].csv && !Same(w.st.cluster[k].name, r.name)
    ensures var (st', out) := Finished(w, 0, r, env);
            out == Changed && st'.cluster[0] == w.st.cluster[0].(name := r.name, csv := true, online := true)
  {
    var c := w.st.cluster[0 := w.st.cluster[0].(name := r.name)];
    var (w1, at) := Renamed(w, 0, r, env);
    assert c[0].name == r.name && FindNamed(c, r.name, env) == Some(0);
    assert at == Some(0) && w1.st.cluster == c;
    var c2 := c[0 := c[0].(csv := true)];
    assert FindShared(c, r.name).None? && FindShared(c2, r.name) == Some(0);
  }

  lemma UnlistedBeforePicksFirst(w: Work, env: Env, other: Res, added: seq<Res>)
    requires w.st.cluster == [other] && !other.csv && !env.listedBefore && env.listedAfter && w.left > 0
    requires Chosen(env.offers, w.st.disk) != [] && added == Added(Chosen(env.offers, w.st.disk))
    ensures Joined(w, env) == (Work(w.st.(cluster := [other] + added), w.left - 1), Some(0))
  {
    var all := [other] + added;
    assert all[0] == other && FirstNew([other], all, env, 0) == Some(other.name);
  }

  /** The names before the joining are not listed, and everything the cluster holds looks
      new: the run goes on with its first resource, another disk's, gives it the volume's
      name and shares it, and reports the LUN adopted. */
  lemma {:induction false} UnlistedBeforeTakesAnother(w: Work, r: Request, env: Env, other: Res, added: seq<Res>)
    requires w.st.cluster == [other] && !Mine(other, w.st.disk) && !other.csv && !Same(other.name, r.name)
    requires Chosen(env.offers, w.st.disk) != [] && added == Added(Chosen(env.offers, w.st.disk)) && !NameTaken(added, r.name)
    requires !env.listedBefore && env.listedAfter && env.renames && env.start == Comes && w.left >= 4 && !r.asWitness && r.name != ""
    requires forall k :: 0 <= k < |added| ==> !added[k].csv
    ensures var (w1, at) := Joined(w, env);
            && at == Some(0) && w1.st.cluster == [other] + added
            && Finished(w1, 0, r, env).1 == Changed
            && Finished(w1, 0, r, env).0.cluster[0] == other.(name := r.name, csv := true, online := true)
  {
    UnlistedBeforePicksFirst(w, env, other, added);
    var all := [other] + added;
    forall k | 0 <= k < |all| ensures !all[k].csv && !Same(all[k].name, r.name) {
      if k > 0 {
        assert all[k] == added[k - 1];
      }
    }
    FirstTakesOver(Joined(w, env).0, r, env);
  }

  /** A witness cut off between joining the cluster and its rename keeps the
      cluster's own name: no later run renames a witness that is held. */
  lemma HeldWitnessKeepsName(st: State, r: Request, env: Env)
    requires r.asWitness && HeldSeen(st, env).Some?
    ensures |Adopted(st, r, env).0.cluster| == |st.cluster|
    ensures forall i :: 0 <= i < |st.cluster| ==> Adopted(st, r, env).0.cluster[i].name == st.cluster[i].name
  {
  }

  /** A state that cannot be read back after the start passes for online. */
  lemma UnreadStartPasses(st: State, r: Request, env: Env)
    requires ShareSeen(st, r, env).Some? && !r.asWitness && env.start == StaysUnread && env.left > 0
    requires !st.cluster[ShareSeen(st, r, env).value].online
    ensures Adopted(st, r, env) == (st, Changed)
  {
  }
}
