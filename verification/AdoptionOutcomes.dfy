/** What a run of an adoption adds, prepares and reports, told from the disk, the request and
    what the cluster offers. */
module AdoptionOutcomes {
  import opened Wrappers
  import opened Text
  import opened Adoption
  import opened AdoptionRuns

  // ---- which offers join --------------------------------------------------

  predicate OfIdentity(o: Offer, d: Disk) {
    d.uid != "" && Same(o.uid, d.uid)
  }

  predicate OfNumber(o: Offer, d: Disk) {
    o.number == Some(d.number)
  }

  predicate OfSize(o: Offer, d: Disk) {
    d.size != 0 && o.size == d.size
  }

  /** Offer i has the disk's identity; or none has and its number is the disk's; or there is
      none of either, its size is the disk's, and no other offer is of that size. */
  predicate Rightful(offers: seq<Offer>, d: Disk, i: nat)
    requires i < |offers|
  {
    || OfIdentity(offers[i], d)
    || (NoneByIdentity(offers, d) && OfNumber(offers[i], d))
    || (NoneByIdentity(offers, d) && NoneByNumber(offers, d) && OnlyBySize(offers, d, i))
  }

  predicate NoneByIdentity(offers: seq<Offer>, d: Disk) {
    forall k :: 0 <= k < |offers| ==> !OfIdentity(offers[k], d)
  }

  predicate NoneByNumber(offers: seq<Offer>, d: Disk) {
    forall k :: 0 <= k < |offers| ==> !OfNumber(offers[k], d)
  }

  predicate OnlyBySize(offers: seq<Offer>, d: Disk, i: nat)
    requires i < |offers|
  {
    OfSize(offers[i], d) && forall k :: 0 <= k < |offers| && k != i ==> !OfSize(offers[k], d)
  }

  function ResourceOf(o: Offer): Res {
    Res(o.newName, o.uid, false, false)
  }

  /** The resources that the rightful offers from k on become, where they are accepted. */
  function Joiners(offers: seq<Offer>, d: Disk, k: nat): seq<Res>
    requires k <= |offers|
    decreases |offers| - k
  {
    if k == |offers| then []
    else (if Rightful(offers, d, k) && offers[k].accepts then [ResourceOf(offers[k])] else []) + Joiners(offers, d, k + 1)
  }

  lemma {:induction false} UidEmpty(offers: seq<Offer>, uid: string)
    ensures WithUid(offers, uid) == [] <==> forall k :: 0 <= k < |offers| ==> !(uid != "" && Same(offers[k].uid, uid))
  {
    if offers != [] {
      UidEmpty(offers[1..], uid);
      assert forall k :: 0 < k < |offers| ==> offers[k] == offers[1..][k - 1];
      assert forall k :: 0 <= k < |offers| - 1 ==> offers[1..][k] == offers[k + 1];
    }
  }

  lemma {:induction false} NumberEmpty(offers: seq<Offer>, number: nat)
    ensures WithNumber(offers, number) == [] <==> forall k :: 0 <= k < |offers| ==> offers[k].number != Some(number)
  {
    if offers != [] {
      NumberEmpty(offers[1..], number);
      assert forall k :: 0 < k < |offers| ==> offers[k] == offers[1..][k - 1];
      assert forall k :: 0 <= k < |offers| - 1 ==> offers[1..][k] == offers[k + 1];
    }
  }

  lemma {:induction false} SizeEmpty(offers: seq<Offer>, size: nat, k: nat)
    requires k <= |offers|
    ensures WithSize(offers[k..], size) == [] <==> forall i :: k <= i < |offers| ==> !(size != 0 && offers[i].size == size)
    decreases |offers| - k
  {
    if k < |offers| {
      SizeEmpty(offers, size, k + 1);
      assert offers[k..][0] == offers[k] && offers[k..][1..] == offers[k + 1..];
    }
  }

  predicate AloneFrom(offers: seq<Offer>, d: Disk, k: nat, i: nat) {
    k <= i < |offers| && OfSize(offers[i], d) && forall j :: k <= j < |offers| && j != i ==> !OfSize(offers[j], d)
  }

  lemma AloneNext(offers: seq<Offer>, d: Disk, k: nat, i: nat)
    requires k < i < |offers| && !OfSize(offers[k], d)
    ensures AloneFrom(offers, d, k, i) <==> AloneFrom(offers, d, k + 1, i)
  {
  }

  /** One of the size is left from k on exactly if one is the only one. */
  lemma {:induction false} SizeOne(offers: seq<Offer>, d: Disk, k: nat)
    requires k <= |offers|
    ensures |WithSize(offers[k..], d.size)| == 1 <==> exists i :: AloneFrom(offers, d, k, i)
    decreases |offers| - k
  {
    if k < |offers| {
      SizeOne(offers, d, k + 1);
      SizeEmpty(offers, d.size, k + 1);
      assert offers[k..][0] == offers[k] && offers[k..][1..] == offers[k + 1..];
      var rest := WithSize(offers[k + 1..], d.size);
      if OfSize(offers[k], d) {
        assert WithSize(offers[k..], d.size) == [offers[k]] + rest;
        assert rest == [] <==> AloneFrom(offers, d, k, k);
        assert forall i :: AloneFrom(offers, d, k, i) ==> i == k;
      } else {
        assert WithSize(offers[k..], d.size) == [] + rest == rest;
        forall i | k < i < |offers| ensures AloneFrom(offers, d, k, i) <==> AloneFrom(offers, d, k + 1, i) {
          AloneNext(offers, d, k, i);
        }
        var k1 := k + 1;
        if i :| AloneFrom(offers, d, k1, i) {
          assert AloneFrom(offers, d, k, i);
        }
      }
    }
  }

  lemma RightfulIs(offers: seq<Offer>, d: Disk, k: nat)
    requires k < |offers|
    ensures !NoneByIdentity(offers, d) ==> (Rightful(offers, d, k) <==> OfIdentity(offers[k], d))
    ensures NoneByIdentity(offers, d) && !NoneByNumber(offers, d) ==> (Rightful(offers, d, k) <==> OfNumber(offers[k], d))
    ensures NoneByIdentity(offers, d) && NoneByNumber(offers, d) ==> (Rightful(offers, d, k) <==> OnlyBySize(offers, d, k))
  {
  }

  lemma JoinsNext(offers: seq<Offer>, d: Disk, k: nat, mine: seq<Offer>, rest: seq<Offer>)
    requires k < |offers| && mine == (if Rightful(offers, d, k) then [offers[k]] else []) + rest
    requires Added(rest) == Joiners(offers, d, k + 1)
    ensures Added(mine) == Joiners(offers, d, k)
  {
    if Rightful(offers, d, k) {
      assert mine[1..] == rest;
    } else {
      assert mine == rest && [] + Added(rest) == Added(rest);
    }
  }

  lemma UidNext(offers: seq<Offer>, d: Disk, k: nat)
    requires k < |offers|
    ensures WithUid(offers[k..], d.uid) == (if OfIdentity(offers[k], d) then [offers[k]] else []) + WithUid(offers[k + 1..], d.uid)
  {
    assert offers[k..][0] == offers[k] && offers[k..][1..] == offers[k + 1..];
  }

  lemma {:induction false} UidJoins(offers: seq<Offer>, d: Disk, k: nat)
    requires k <= |offers| && !NoneByIdentity(offers, d)
    ensures Added(WithUid(offers[k..], d.uid)) == Joiners(offers, d, k)
    decreases |offers| - k
  {
    if k < |offers| {
      RightfulIs(offers, d, k);
      UidJoins(offers, d, k + 1);
      UidNext(offers, d, k);
      JoinsNext(offers, d, k, WithUid(offers[k..], d.uid), WithUid(offers[k + 1..], d.uid));
    }
  }

  lemma {:induction false} NumberJoins(offers: seq<Offer>, d: Disk, k: nat)
    requires k <= |offers| && NoneByIdentity(offers, d) && !NoneByNumber(offers, d)
    ensures Added(WithNumber(offers[k..], d.number)) == Joiners(offers, d, k)
    decreases |offers| - k
  {
    if k < |offers| {
      RightfulIs(offers, d, k);
      NumberJoins(offers, d, k + 1);
      assert offers[k..][0] == offers[k] && offers[k..][1..] == offers[k + 1..];
      JoinsNext(offers, d, k, WithNumber(offers[k..], d.number), WithNumber(offers[k + 1..], d.number));
    }
  }

  lemma {:induction false} SizeJoins(offers: seq<Offer>, d: Disk, k: nat, only: nat)
    requires k <= |offers| && NoneByIdentity(offers, d) && NoneByNumber(offers, d) && only < |offers| && OnlyBySize(offers, d, only)
    ensures Added(WithSize(offers[k..], d.size)) == Joiners(offers, d, k)
    decreases |offers| - k
  {
    if k < |offers| {
      RightfulIs(offers, d, k);
      SizeJoins(offers, d, k + 1, only);
      assert offers[k..][0] == offers[k] && offers[k..][1..] == offers[k + 1..];
      JoinsNext(offers, d, k, WithSize(offers[k..], d.size), WithSize(offers[k + 1..], d.size));
    }
  }

  lemma {:induction false} NobodyJoins(offers: seq<Offer>, d: Disk, k: nat)
    requires k <= |offers| && forall i :: 0 <= i < |offers| ==> !Rightful(offers, d, i)
    ensures Joiners(offers, d, k) == []
    decreases |offers| - k
  {
    if k < |offers| {
      NobodyJoins(offers, d, k + 1);
    }
  }

  /** The choice among the offers is the rightful ones, and of them all. */
  lemma ChoosesRightful(offers: seq<Offer>, d: Disk)
    ensures Added(Chosen(offers, d)) == Joiners(offers, d, 0)
    ensures Chosen(offers, d) == [] <==> forall i :: 0 <= i < |offers| ==> !Rightful(offers, d, i)
  {
    assert offers[0..] == offers;
    UidEmpty(offers, d.uid);
    NumberEmpty(offers, d.number);
    SizeOne(offers, d, 0);
    if i :| 0 <= i < |offers| && OfIdentity(offers[i], d) {
      UidJoins(offers, d, 0);
      assert Rightful(offers, d, i);
    } else if i :| 0 <= i < |offers| && OfNumber(offers[i], d) {
      NumberJoins(offers, d, 0);
      assert Rightful(offers, d, i);
    } else if i :| 0 <= i < |offers| && OnlyBySize(offers, d, i) {
      SizeJoins(offers, d, 0, i);
      assert AloneFrom(offers, d, 0, i) && Rightful(offers, d, i);
    } else {
      assert forall i :: 0 <= i < |offers| && AloneFrom(offers, d, 0, i) ==> OnlyBySize(offers, d, i);
      NobodyJoins(offers, d, 0);
    }
  }

  lemma {:induction false} JoinersAreRightful(offers: seq<Offer>, d: Disk, k: nat, res: Res)
    requires k <= |offers|
    ensures res in Joiners(offers, d, k) <==>
              exists i :: k <= i < |offers| && Rightful(offers, d, i) && offers[i].accepts && res == ResourceOf(offers[i])
    decreases |offers| - k
  {
    if k < |offers| {
      JoinersAreRightful(offers, d, k + 1, res);
    }
  }

  lemma SameOffers(offers: seq<Offer>, d: Disk, d': Disk)
    requires d'.uid == d.uid && d'.number == d.number && d'.size == d.size
    ensures Chosen(offers, d') == Chosen(offers, d)
  {
  }

  predicate SameUids(c: seq<Res>, c': seq<Res>) {
    |c'| == |c| && forall k :: 0 <= k < |c| ==> c'[k].uid == c[k].uid
  }

  lemma StartedKeepsUids(w: Work, i: nat, env: Env)
    requires i < |w.st.cluster|
    ensures SameUids(w.st.cluster, Started(w, i, env).0.st.cluster)
  {
  }

  lemma RenamedKeepsUids(w: Work, i: nat, r: Request, env: Env)
    requires i < |w.st.cluster|
    ensures SameUids(w.st.cluster, Renamed(w, i, r, env).0.st.cluster)
  {
  }

  lemma SharedKeepsUids(w: Work, i: nat, env: Env)
    requires i < |w.st.cluster|
    ensures SameUids(w.st.cluster, Shared(w, i, env).0.st.cluster)
  {
    var found := FindShared(w.st.cluster, w.st.cluster[i].name);
    if found.Some? {
      StartedKeepsUids(w, found.value, env);
    } else if w.left > 0 {
      var w1 := Work(w.st.(cluster := w.st.cluster[i := w.st.cluster[i].(csv := true)]), w.left - 1);
      assert w1.st.cluster[i].csv && Same(w1.st.cluster[i].name, w1.st.cluster[i].name);
      StartedKeepsUids(w1, FindShared(w1.st.cluster, w1.st.cluster[i].name).value, env);
    }
  }

  lemma FinishedKeepsUids(w: Work, i: nat, r: Request, env: Env)
    requires i < |w.st.cluster|
    ensures SameUids(w.st.cluster, Finished(w, i, r, env).0.cluster)
  {
    RenamedKeepsUids(w, i, r, env);
    var (w1, at) := Renamed(w, i, r, env);
    if at.Some? {
      StartedKeepsUids(w1, at.value, env);
      SharedKeepsUids(w1, at.value, env);
    }
  }

  /** From a prepared disk: all of them join, or there is no command left. */
  lemma FreshAddsRightful(w1: Work, d: Disk, r: Request, env: Env)
    requires w1.st.disk.uid == d.uid && w1.st.disk.number == d.number && w1.st.disk.size == d.size
    ensures var (w2, at) := Joined(w1, env);
            && w2.st.cluster == w1.st.cluster + (if w1.left > 0 then Joiners(env.offers, d, 0) else [])
            && ((forall i :: 0 <= i < |env.offers| ==> !Rightful(env.offers, d, i)) ==> at.None?)
  {
    ChoosesRightful(env.offers, d);
    SameOffers(env.offers, d, w1.st.disk);
    assert w1.st.cluster + [] == w1.st.cluster;
    if forall i :: 0 <= i < |env.offers| ==> !Rightful(env.offers, d, i) {
      NobodyJoins(env.offers, d, 0);
    }
  }

  lemma UnpreparedAddsNothing(st: State, r: Request, env: Env)
    requires !Prepares(st, r, env)
    ensures SameUids(st.cluster, Adopted(st, r, env).0.cluster)
  {
    var w := Work(st, env.left);
    var shared, held := ShareSeen(st, r, env), HeldSeen(st, env);
    if shared.Some? && !r.asWitness {
      StartedKeepsUids(w, shared.value, env);
    } else {
      StartedKeepsUids(w, held.value, env);
      FinishedKeepsUids(w, held.value, r, env);
    }
  }

  /** The resources a run adds, in their order: those that the rightful offers become, if it
      prepares the disk and gets through that with a command left, and else none. */
  function Adds(st: State, r: Request, env: Env): seq<Res> {
    var (w1, ready) := Prepared(Work(st, env.left), r, env.look, |STEPS|);
    if Prepares(st, r, env) && ready && w1.left > 0 then Joiners(env.offers, st.disk, 0) else []
  }

  /** A whole run leaves every resource the cluster had and adds those, all of them and
      nothing else. Where it prepares the disk and no offer is rightful it fails. */
  lemma RunAddsRightful(st: State, r: Request, env: Env)
    ensures SameUids(st.cluster + Adds(st, r, env), Adopted(st, r, env).0.cluster)
    ensures Prepares(st, r, env) && (forall i :: 0 <= i < |env.offers| ==> !Rightful(env.offers, st.disk, i)) ==>
              Adopted(st, r, env).1 == Failed && Adopted(st, r, env).0.cluster == st.cluster
  {
    assert st.cluster + [] == st.cluster;
    if Prepares(st, r, env) {
      var (w1, ready) := Prepared(Work(st, env.left), r, env.look, |STEPS|);
      PreparedKeepsIdentity(Work(st, env.left), r, env.look, |STEPS|);
      FreshAddsRightful(w1, st.disk, r, env);
      if forall i :: 0 <= i < |env.offers| ==> !Rightful(env.offers, st.disk, i) {
        NobodyJoins(env.offers, st.disk, 0);
      }
      var (w2, at) := Joined(w1, env);
      if ready && at.Some? {
        FinishedKeepsUids(w2, at.value, r, env);
      }
    } else {
      UnpreparedAddsNothing(st, r, env);
    }
  }

  /** What an offer may be taken by, all in one. */
  predicate MayJoin(offers: seq<Offer>, d: Disk, i: nat)
    requires i < |offers|
  {
    || (d.uid != "" && Lower(offers[i].uid) == Lower(d.uid))
    || (&& (forall j :: 0 <= j < |offers| ==> d.uid == "" || Lower(offers[j].uid) != Lower(d.uid))
        && (|| offers[i].number == Some(d.number)
            || (&& (forall j :: 0 <= j < |offers| ==> offers[j].number != Some(d.number))
                && d.size != 0 && offers[i].size == d.size && forall j :: 0 <= j < |offers| && j != i ==> offers[j].size != d.size)))
  }

  lemma RightfulSpelled(offers: seq<Offer>, d: Disk, i: nat)
    requires i < |offers| && Rightful(offers, d, i)
    ensures MayJoin(offers, d, i)
  {
    forall j | 0 <= j < |offers| && j != i && OnlyBySize(offers, d, i) ensures offers[j].size != d.size {
      assert !OfSize(offers[j], d);
    }
    forall j | 0 <= j < |offers| && NoneByIdentity(offers, d) ensures d.uid == "" || Lower(offers[j].uid) != Lower(d.uid) {
      assert !OfIdentity(offers[j], d);
    }
    forall j | 0 <= j < |offers| && NoneByNumber(offers, d) ensures offers[j].number != Some(d.number) {
      assert !OfNumber(offers[j], d);
    }
  }

  /** So every resource a run adds is one the disk may take for its own, and its offer is
      accepted: by identity; or by number, with none of the identity; or by a size that is
      not 0 and no other offer's, with none of either. */
  lemma AddedByRight(st: State, r: Request, env: Env, k: nat) returns (i: nat)
    requires |st.cluster| <= k < |Adopted(st, r, env).0.cluster|
    ensures i < |env.offers| && env.offers[i].accepts && Adopted(st, r, env).0.cluster[k].uid == env.offers[i].uid
    ensures MayJoin(env.offers, st.disk, i)
  {
    RunAddsRightful(st, r, env);
    var joining := Adds(st, r, env);
    JoinersAreRightful(env.offers, st.disk, 0, joining[k - |st.cluster|]);
    i :| 0 <= i < |env.offers| && Rightful(env.offers, st.disk, i) && env.offers[i].accepts && joining[k - |st.cluster|] == ResourceOf(env.offers[i]);
    RightfulSpelled(env.offers, st.disk, i);
  }

  /** Two offers of the disk's size, and of neither its identity nor its number: neither
      joins, and the run fails. */
  lemma SameSizeTwice(st: State, r: Request, env: Env, i: nat, j: nat)
    requires Prepares(st, r, env) && NoneByIdentity(env.offers, st.disk) && NoneByNumber(env.offers, st.disk)
    requires i < j < |env.offers| && env.offers[i].size == env.offers[j].size == st.disk.size
    ensures Adopted(st, r, env).1 == Failed && Adopted(st, r, env).0.cluster == st.cluster
  {
    if st.disk.size != 0 {
      assert OfSize(env.offers[i], st.disk) && OfSize(env.offers[j], st.disk);
    }
    RunAddsRightful(st, r, env);
  }

  // ---- what goes on from the joining --------------------------------------

  /** Resource k is listed after the joining, and no resource listed before it had its name. */
  predicate New(before: seq<Res>, all: seq<Res>, env: Env, k: nat)
    requires k < |all|
  {
    && env.listedAfter && (env.listsShared || !all[k].csv)
    && (env.listedBefore ==> forall i :: 0 <= i < |before| && (env.listsShared || !before[i].csv) ==> !Same(before[i].name, all[k].name))
  }

  predicate FirstNewAt(before: seq<Res>, all: seq<Res>, env: Env, k: nat)
    requires k < |all|
  {
    New(before, all, env, k) && forall j :: 0 <= j < k ==> !New(before, all, env, j)
  }

  lemma {:induction false} FirstNewMeans(before: seq<Res>, all: seq<Res>, env: Env, k: nat)
    requires k <= |all|
    ensures match FirstNew(before, all, env, k)
            case None => forall j :: k <= j < |all| ==> !New(before, all, env, j)
            case Some(name) => exists j :: k <= j < |all| && all[j].name == name && New(before, all, env, j) && forall m :: k <= m < j ==> !New(before, all, env, m)
    decreases |all| - k
  {
    if k < |all| {
      FirstNewMeans(before, all, env, k + 1);
    }
  }

  lemma {:induction false} FoundFirst(c: seq<Res>, name: string, env: Env)
    ensures FindNamed(c, name, env).Some? ==> forall j :: 0 <= j < FindNamed(c, name, env).value && (env.listsShared || !c[j].csv) ==> !Same(c[j].name, name)
  {
    if c != [] && FindNamed(c, name, env).Some? && FindNamed(c, name, env) != Some(0) {
      FoundFirst(c[1..], name, env);
      forall j | 0 <= j < FindNamed(c, name, env).value && (env.listsShared || !c[j].csv) ensures !Same(c[j].name, name) {
        assert j > 0 ==> c[j] == c[1..][j - 1];
      }
    }
  }

  predicate FirstNamed(c: seq<Res>, name: string, env: Env, p: nat) {
    && p < |c| && (env.listsShared || !c[p].csv) && Same(c[p].name, name)
    && forall j :: 0 <= j < p && (env.listsShared || !c[j].csv) ==> !Same(c[j].name, name)
  }

  /** The run goes on with the first resource listed under the name of the first new one; with
      nothing new it does not go on. */
  lemma GoesOnWithNew(w: Work, env: Env)
    requires w.left > 0 && exists i :: 0 <= i < |env.offers| && Rightful(env.offers, w.st.disk, i)
    ensures var before, (w1, at) := w.st.cluster, Joined(w, env); var all := w1.st.cluster;
            && all == before + Joiners(env.offers, w.st.disk, 0) && w1.left == w.left - 1
            && (at.None? <==> forall k :: 0 <= k < |all| ==> !New(before, all, env, k))
            && (at.Some? ==> exists k :: 0 <= k < |all| && FirstNewAt(before, all, env, k) && FirstNamed(all, all[k].name, env, at.value))
  {
    ChoosesRightful(env.offers, w.st.disk);
    var before, all := w.st.cluster, w.st.cluster + Joiners(env.offers, w.st.disk, 0);
    FirstNewMeans(before, all, env, 0);
    var name := FirstNew(before, all, env, 0);
    if name.Some? {
      FoundFirst(all, name.value, env);
      var k :| 0 <= k < |all| && all[k].name == name.value && New(before, all, env, k) && forall m :: 0 <= m < k ==> !New(before, all, env, m);
      assert FirstNewAt(before, all, env, k);
      assert FindNamed(all, name.value, env).Some?;
    }
  }

  // ---- what preparing leaves ----------------------------------------------

  /** The disk is cleared on request: it was seen to have partitions. */
  predicate Cleared(d: Disk, r: Request, g: Reads) {
    r.wipe && !d.style.Raw? && g.partsJudged && d.parts != []
  }

  /** The partition is seen to be a volume. */
  predicate SeenVolume(d: Disk, g: Reads, i: nat)
    requires i < |d.parts|
  {
    d.parts[i].Volume? && i !in g.unread
  }

  /** Contents that are seen, not to be wiped, and none of them a volume of the name; and not
      to be kept, or not all of them seen to be volumes. */
  predicate Judged(d: Disk, r: Request, g: Reads) {
    && !d.style.Raw? && g.partsJudged && d.parts != [] && !r.wipe
    && (forall i :: 0 <= i < |d.parts| && SeenVolume(d, g, i) ==> !Same(d.parts[i].labelled, r.name))
    && (!r.keep || exists i :: 0 <= i < |d.parts| && !SeenVolume(d, g, i))
  }

  lemma RefusedMeans(d: Disk, r: Request, g: Reads)
    ensures Refused(d, r, g) <==> Judged(d, r, g)
  {
    if !d.style.Raw? && g.partsJudged && d.parts != [] {
      if Ours(d, r.name, g) {
        var i :| 0 <= i < |d.parts| && i !in g.unread && d.parts[i].Volume? && Same(d.parts[i].labelled, r.name);
        assert SeenVolume(d, g, i);
      } else {
        forall i | 0 <= i < |d.parts| && SeenVolume(d, g, i) ensures !Same(d.parts[i].labelled, r.name) {
        }
      }
      if Unreadable(d, g) {
        var i :| 0 <= i < |d.parts| && (!d.parts[i].Volume? || i in g.unread);
        assert !SeenVolume(d, g, i);
      }
    }
  }

  /** Online and writable, a fresh disk or a cleared one initialised and given one partition,
      the first partition formatted unless a filesystem is read on it. */
  function PreparedDisk(d: Disk, r: Request, g: Reads): Disk {
    var formatted := Volume(if r.asWitness then "NTFS" else r.fs, r.name, 0);
    d.(offline := false, readOnly := false,
       style := if d.style.Raw? || Cleared(d, r, g) then Gpt else d.style,
       parts := if d.parts == [] || Cleared(d, r, g) then [formatted]
                else if d.parts[0].Volume? && g.volPrepared then d.parts
                else [formatted] + d.parts[1..])
  }

  /** A run with commands enough prepares the disk if and only if its contents are not judged
      against it, and it needs no partition beside those it has - which it does when these
      are not seen a second time; and then it is ready, with everything on it that is neither
      cleared nor formatted. */
  lemma PreparesRightly(w: Work, r: Request, g: Reads)
    requires ValidDisk(w.st.disk) && w.left >= 6
    ensures var d, (w', ok) := w.st.disk, Prepared(w, r, g, |STEPS|);
            && (ok <==> !Judged(d, r, g) && (g.partsPrepared || d.parts == [] || Cleared(d, r, g)))
            && (ok ==> w'.st.disk == PreparedDisk(d, r, g))
            && w'.st.cluster == w.st.cluster
  {
    var d := w.st.disk;
    PreparedKeepsIdentity(w, r, g, |STEPS|);
    UpToInitialized(w, r, g);
    if Judged(d, r, g) {
      StaysStopped(w, r, g, 5);
    } else {
      FromPartition(w, Prepared(w, r, g, 5).0, r, g);
    }
  }

  lemma UpToInitialized(w: Work, r: Request, g: Reads)
    requires ValidDisk(w.st.disk) && w.left >= 6
    ensures var d, (w5, ok) := w.st.disk, Prepared(w, r, g, 5);
            && (ok <==> !Judged(d, r, g))
            && (ok ==> w5.left >= 2 && w5.st.disk == d.(offline := false, readOnly := false,
                                                       style := if d.style.Raw? || Cleared(d, r, g) then Gpt else d.style,
                                                       parts := if Cleared(d, r, g) then [] else d.parts))
  {
    UpToJudged(w, r, g);
    if !Judged(w.st.disk, r, g) {
      var w2 := Prepared(w, r, g, 2).0;
      var w3 := OneStep(w2, r, g, Writable).0;
      assert Prepared(w, r, g, 3) == (w3, true);
      var w4 := OneStep(w3, r, g, Clear).0;
      assert Prepared(w, r, g, 4) == (w4, true);
      assert Prepared(w, r, g, 5) == OneStep(w4, r, g, Initialize);
    } else {
      assert !Prepared(w, r, g, 3).1;
      assert !Prepared(w, r, g, 4).1;
    }
  }

  lemma UpToJudged(w: Work, r: Request, g: Reads)
    requires ValidDisk(w.st.disk) && w.left >= 6
    ensures var d, (w2, ok) := w.st.disk, Prepared(w, r, g, 2);
            && (ok <==> !Judged(d, r, g))
            && w2.left >= 5 && w2.st.disk == d.(offline := false)
  {
    RefusedMeans(w.st.disk, r, g);
    var w1 := OneStep(w, r, g, Online).0;
    assert Prepared(w, r, g, 0) == (w, true);
    assert Prepared(w, r, g, 1) == (w1, true);
    SameJudgement(w.st.disk, w1.st.disk, r, g);
  }

  lemma FromPartition(w: Work, w5: Work, r: Request, g: Reads)
    requires Prepared(w, r, g, 5) == (w5, true) && w5.left >= 2
    ensures var d5, (w', ok) := w5.st.disk, Prepared(w, r, g, |STEPS|);
            && (ok <==> g.partsPrepared || d5.parts == [])
            && (ok ==> w'.st.disk == d5.(parts := if d5.parts != [] && d5.parts[0].Volume? && g.volPrepared then d5.parts
                                                  else [Volume(UseFs(r), r.name, 0)] + if d5.parts == [] then [] else d5.parts[1..]))
  {
    var (w6, ok6) := OneStep(w5, r, g, Partition);
    assert Prepared(w, r, g, 6) == (w6, ok6);
    if !ok6 {
      StaysStopped(w, r, g, 6);
    } else {
      assert Prepared(w, r, g, 7) == OneStep(w6, r, g, Format);
    }
  }

  // ---- what is reported ---------------------------------------------------

  /** The first shared volume of the name. */
  predicate FirstShare(c: seq<Res>, name: string, i: nat) {
    i < |c| && c[i].csv && Same(c[i].name, name) && forall j :: 0 <= j < i && c[j].csv ==> !Same(c[j].name, name)
  }

  /** The first resource that is seen to hold the disk. */
  predicate FirstHolder(st: State, env: Env, i: nat) {
    && i < |st.cluster| && i in env.seen && Mine(st.cluster[i], st.disk)
    && forall j :: 0 <= j < i && j in env.seen ==> !Mine(st.cluster[j], st.disk)
  }

  lemma {:induction false} SharedFirst(c: seq<Res>, name: string)
    ensures FindShared(c, name).Some? ==> FirstShare(c, name, FindShared(c, name).value)
  {
    if c != [] && FindShared(c, name).Some? && FindShared(c, name) != Some(0) {
      SharedFirst(c[1..], name);
      forall j | 0 <= j < FindShared(c, name).value && c[j].csv ensures !Same(c[j].name, name) {
        assert j > 0 ==> c[j] == c[1..][j - 1];
      }
    }
  }

  lemma {:induction false} HeldFirst(st: State, env: Env, k: nat)
    requires k <= |st.cluster| && forall j :: 0 <= j < k && j in env.seen ==> !Mine(st.cluster[j], st.disk)
    ensures var h := FindHeld(st.cluster, st.disk, env.seen, k); h.Some? ==> FirstHolder(st, env, h.value)
    decreases |st.cluster| - k
  {
    if k < |st.cluster| && !(Mine(st.cluster[k], st.disk) && k in env.seen) {
      HeldFirst(st, env, k + 1);
    }
  }

  /** A run reports the LUN unchanged if and only if it is shown it adopted and online: for a
      witness the first resource that holds it, for a volume the first share of the name; and
      then nothing has changed. */
  lemma UnchangedExactlyWhen(st: State, r: Request, env: Env)
    ensures Adopted(st, r, env).1 == Unchanged <==>
              if r.asWitness then exists i: nat :: FirstHolder(st, env, i) && st.cluster[i].online
              else env.sharesSeen && exists i: nat :: FirstShare(st.cluster, r.name, i) && st.cluster[i].online
    ensures Adopted(st, r, env).1 == Unchanged ==> Adopted(st, r, env).0 == st
  {
    SharedFirst(st.cluster, r.name);
    HeldFirst(st, env, 0);
    var shared, held := ShareSeen(st, r, env), HeldSeen(st, env);
    assert held.Some? ==> forall i: nat :: FirstHolder(st, env, i) ==> i == held.value;
    assert held.None? ==> forall i: nat :: !FirstHolder(st, env, i);
    assert shared.Some? ==> forall i: nat :: FirstShare(st.cluster, r.name, i) ==> i == shared.value;
    assert shared.None? && env.sharesSeen ==> forall i: nat :: !FirstShare(st.cluster, r.name, i);
  }

  /** A run that reports no failure ends on a resource that is online, and shared unless the
      LUN is a witness - or whose state could not be read back after the start. */
  lemma SuccessIsOnline(st: State, r: Request, env: Env)
    requires Adopted(st, r, env).1 != Failed
    ensures var c := Adopted(st, r, env).0.cluster;
            exists p :: 0 <= p < |c| && (c[p].online || env.start == StaysUnread) && (r.asWitness || c[p].csv)
  {
    var w := Work(st, env.left);
    var shared, held := ShareSeen(st, r, env), HeldSeen(st, env);
    if shared.Some? && !r.asWitness {
      StartedIsOnline(w, shared.value, env);
    } else if held.Some? && r.asWitness {
      StartedIsOnline(w, held.value, env);
    } else if held.Some? {
      FinishedIsOnline(w, held.value, r, env);
    } else {
      var (w2, at) := Joined(Prepared(w, r, env.look, |STEPS|).0, env);
      FinishedIsOnline(w2, at.value, r, env);
    }
  }

  lemma StartedIsOnline(w: Work, i: nat, env: Env)
    requires i < |w.st.cluster|
    ensures var (w1, _, ok) := Started(w, i, env); var c := w1.st.cluster;
            |c| == |w.st.cluster| && c[i].csv == w.st.cluster[i].csv && (ok ==> c[i].online || env.start == StaysUnread)
  {
  }

  lemma FinishedIsOnline(w: Work, i: nat, r: Request, env: Env)
    requires i < |w.st.cluster| && Finished(w, i, r, env).1 != Failed
    ensures var c := Finished(w, i, r, env).0.cluster;
            exists p :: 0 <= p < |c| && (c[p].online || env.start == StaysUnread) && (r.asWitness || c[p].csv)
  {
    var (w1, at) := Renamed(w, i, r, env);
    if r.asWitness {
      StartedIsOnline(w1, at.value, env);
    } else {
      match FindShared(w1.st.cluster, w1.st.cluster[at.value].name)
      case Some(j) => StartedIsOnline(w1, j, env);
      case None =>
        var c := w1.st.cluster[at.value := w1.st.cluster[at.value].(csv := true)];
        assert c[at.value].csv && Same(c[at.value].name, w1.st.cluster[at.value].name);
        StartedIsOnline(Work(w1.st.(cluster := c), w1.left - 1), FindShared(c, c[at.value].name).value, env);
    }
  }

  /** A rename that fails is passed over: the resource that holds the disk is shared and
      started under the name it has. */
  lemma UnnamedIsShared(st: State, r: Request, env: Env, i: nat)
    requires FirstHolder(st, env, i) && !r.asWitness && !env.renames && env.start == Comes && env.left >= 2
    requires forall k :: 0 <= k < |st.cluster| ==> !st.cluster[k].csv && !Same(st.cluster[k].name, r.name)
    ensures Adopted(st, r, env) == (st.(cluster := st.cluster[i := st.cluster[i].(csv := true, online := true)]), Changed)
  {
    HeldFirst(st, env, 0);
    assert HeldSeen(st, env) == Some(i);
    var w := Work(st, env.left);
    assert Renamed(w, i, r, env) == (w, Some(i));
    var c := st.cluster[i := st.cluster[i].(csv := true)];
    assert c[i].csv && Same(c[i].name, st.cluster[i].name);
    assert FindShared(c, c[i].name) == Some(i);
    assert c[i := c[i].(online := true)] == st.cluster[i := st.cluster[i].(csv := true, online := true)];
  }

  // ---- locating -----------------------------------------------------------

  /** The disk has the serial, space and case apart. */
  predicate HasSerial(d: Disk, serial: string) {
    d.serial != "" && Lower(Trim(d.serial)) == Lower(serial)
  }

  lemma {:induction false} FirstOfSerial(disks: seq<Disk>, listed: set<nat>, serial: string, k: nat)
    requires k <= |disks|
    ensures match FirstServing(disks, listed, serial, k)
            case None => forall j :: k <= j < |disks| && j in listed ==> !HasSerial(disks[j], serial)
            case Some(i) => k <= i < |disks| && i in listed && HasSerial(disks[i], serial)
                              && forall j :: k <= j < i && j in listed ==> !HasSerial(disks[j], serial)
    decreases |disks| - k
  {
    if k < |disks| {
      FirstOfSerial(disks, listed, serial, k + 1);
    }
  }

  /** The disk that is located is the first listed of the declared serial; or, with none
      listed of it or none declared, the only one the declared target presents. More than one
      is never chosen from. */
  lemma LocatesExactlyWhen(disks: seq<Disk>, listed: set<nat>, serial: string, target: string, presented: seq<nat>, at: nat)
    ensures var none := serial == "" || forall j :: 0 <= j < |disks| && j in listed ==> !HasSerial(disks[j], serial);
            var l := Locating(disks, listed, serial, target, presented);
            && (l == Found(at) <==>
                  || (none && target != "" && presented == [at])
                  || (&& serial != "" && at < |disks| && at in listed && HasSerial(disks[at], serial)
                      && forall j :: 0 <= j < at && j in listed ==> !HasSerial(disks[j], serial)))
            && (l == Ambiguous <==> none && target != "" && |presented| > 1)
  {
    FirstOfSerial(disks, listed, serial, 0);
  }
}
