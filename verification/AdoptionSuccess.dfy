/** What a reported adoption means: exactly when the declared one is there. */
module AdoptionSuccess {
  import opened Wrappers
  import opened Text
  import opened Adoption
  import opened AdoptionRuns

  // ---- what can be told before the call -----------------------------------

  /** Names are distinct, and the cluster holds the disk at most once. */
  predicate Unmixed(c: seq<Res>, d: Disk) {
    && (forall i, j :: 0 <= i < j < |c| ==> !Same(c[i].name, c[j].name))
    && (forall i, j :: 0 <= i < j < |c| ==> !(Mine(c[i], d) && Mine(c[j], d)))
  }

  /** A listing of resources by name shows it. */
  predicate Listed(res: Res, env: Env) {
    env.listsShared || !res.csv
  }

  function Joining(st: State, env: Env): seq<Res> {
    Added(Chosen(env.offers, st.disk))
  }

  /** The cluster offers no disk it holds, and what joins is one resource under a name that is
      not in use - and is not the volume's, unless it is the disk. */
  predicate OneJoins(st: State, r: Request, env: Env) {
    && (Held(st) ==> WithUid(env.offers, st.disk.uid) == [])
    && |Joining(st, env)| <= 1
    && forall k :: 0 <= k < |Joining(st, env)| ==>
         !NameTaken(st.cluster, Joining(st, env)[k].name) && (Same(Joining(st, env)[k].name, r.name) ==> Mine(Joining(st, env)[k], st.disk))
  }

  /** The resource is online or comes, and has or gets the volume's name. */
  predicate Comes(res: Res, r: Request, env: Env) {
    (res.online || env.start == Adoption.Comes) && (r.asWitness || Same(res.name, r.name) || env.renames)
  }

  /** Another disk's resource goes by the volume's name; a witness minds it only if it is
      listed. */
  predicate Namesake(st: State, r: Request, env: Env) {
    exists k :: 0 <= k < |st.cluster| && !Mine(st.cluster[k], st.disk) && Same(st.cluster[k].name, r.name) && (!r.asWitness || Listed(st.cluster[k], env))
  }

  /** How a run comes upon resource i, the disk's own: by its identity; as the shared volume of
      the name; by the name, when it would give that to another; or taking it for new. */
  predicate FindsOwn(st: State, r: Request, env: Env, i: nat)
    requires i < |st.cluster|
  {
    || i in env.seen
    || (!r.asWitness && env.sharesSeen && st.cluster[i].csv && Same(st.cluster[i].name, r.name))
    || (Listed(st.cluster[i], env) && Same(st.cluster[i].name, r.name))
    || (Listed(st.cluster[i], env) && !env.listedBefore && forall m :: 0 <= m < i ==> !Listed(st.cluster[m], env))
  }

  /** Or upon the disk that joins: by elimination from the names before, or by its own. */
  predicate FindsJoined(st: State, r: Request, env: Env) {
    && Joining(st, env) != [] && WithUid(env.offers, st.disk.uid) != []
    && (|| env.listedBefore
        || (forall m :: 0 <= m < |st.cluster| ==> !Listed(st.cluster[m], env))
        || Same(Joining(st, env)[0].name, r.name))
  }

  /** No namesake is in the way; the disk is held and found, or offered by identity and found;
      and its resource comes and has or gets the name. */
  predicate Delivers(st: State, r: Request, env: Env) {
    && (Namesake(st, r, env) ==> r.asWitness && SeenHeld(st, env))
    && if Held(st) then exists i :: 0 <= i < |st.cluster| && Mine(st.cluster[i], st.disk) && FindsOwn(st, r, env, i) && Comes(st.cluster[i], r, env)
       else FindsJoined(st, r, env) && Comes(Joining(st, env)[0], r, env)
  }

  // ---- from a resource to the end -----------------------------------------

  predicate DoneBut(c: seq<Res>, d: Disk, r: Request, q: nat) {
    exists m :: 0 <= m < |c| && m != q && DoneAt(c, d, r, m)
  }

  lemma DoneSplits(st: State, r: Request, q: nat)
    requires q < |st.cluster|
    ensures Done(st, r) <==> DoneBut(st.cluster, st.disk, r, q) || DoneAt(st.cluster, st.disk, r, q)
  {
  }

  lemma StartDone(w: Work, q: nat, r: Request, env: Env)
    requires q < |w.st.cluster| && Started(w, q, env).2 && (r.asWitness || w.st.cluster[q].csv)
    ensures Done(Started(w, q, env).0.st, r) <==>
              || DoneBut(w.st.cluster, w.st.disk, r, q)
              || (Mine(w.st.cluster[q], w.st.disk) && (w.st.cluster[q].online || env.start == Adoption.Comes)
                  && (r.asWitness || Same(w.st.cluster[q].name, r.name)))
  {
    var c, c' := w.st.cluster, Started(w, q, env).0.st.cluster;
    assert |c'| == |c| && forall m :: 0 <= m < |c| && m != q ==> c'[m] == c[m];
    assert c'[q].online <==> c[q].online || env.start == Adoption.Comes;
    assert forall m :: 0 <= m < |c| && m != q ==> DoneAt(c', w.st.disk, r, m) == DoneAt(c, w.st.disk, r, m);
    DoneSplits(Started(w, q, env).0.st, r, q);
  }

  lemma SharedDone(w: Work, q: nat, r: Request, env: Env)
    requires q < |w.st.cluster| && Shared(w, q, env).1 && !r.asWitness && Unmixed(w.st.cluster, w.st.disk)
    ensures Done(Shared(w, q, env).0.st, r) <==>
              || DoneBut(w.st.cluster, w.st.disk, r, q)
              || (Mine(w.st.cluster[q], w.st.disk) && (w.st.cluster[q].online || env.start == Adoption.Comes) && Same(w.st.cluster[q].name, r.name))
  {
    var c := w.st.cluster;
    var existing := FindShared(c, c[q].name);
    if existing.Some? {
      assert existing.value == q;
      StartDone(w, q, r, env);
    } else {
      var c' := c[q := c[q].(csv := true)];
      assert c'[q].csv && FindShared(c', c'[q].name) == Some(q);
      var w' := Work(w.st.(cluster := c'), w.left - 1);
      StartDone(w', q, r, env);
      assert forall m :: 0 <= m < |c| && m != q ==> DoneAt(c', w.st.disk, r, m) == DoneAt(c, w.st.disk, r, m);
    }
  }

  /** What naming resource i goes on with: i, or whatever is listed under the name. */
  function Lands(c: seq<Res>, i: nat, r: Request, env: Env): (q: nat)
    requires i < |c|
    ensures q < |c|
  {
    if Same(c[i].name, r.name) then i
    else match FindNamed(c, r.name, env) case Some(j) => j case None => i
  }

  predicate Lasts(c: seq<Res>, d: Disk, i: nat, r: Request, env: Env)
    requires i < |c|
  {
    var q := Lands(c, i, r, env);
    Mine(c[q], d) && (c[q].online || env.start == Adoption.Comes) && (r.asWitness || Same(c[q].name, r.name) || (q == i && env.renames && !NameTaken(c, r.name)))
  }

  lemma RenamedLands(w: Work, i: nat, r: Request, env: Env)
    requires i < |w.st.cluster| && Unmixed(w.st.cluster, w.st.disk) && r.name != "" && Renamed(w, i, r, env).1.Some?
    ensures var (w1, at) := Renamed(w, i, r, env); var c, c1, q := w.st.cluster, w1.st.cluster, Lands(w.st.cluster, i, r, env);
            && at == Some(q) && Unmixed(c1, w.st.disk) && |c1| == |c| && w1.st.disk == w.st.disk
            && (forall m :: 0 <= m < |c| && m != q ==> c1[m] == c[m])
            && c1[q] == c[q].(name := c1[q].name)
            && (Same(c1[q].name, r.name) <==> Same(c[q].name, r.name) || (q == i && env.renames && !NameTaken(c, r.name)))
  {
    var c := w.st.cluster;
    if !Same(c[i].name, r.name) && env.renames && !NameTaken(c, r.name) {
      assert FindNamed(c, r.name, env).None?;
    }
  }

  lemma FinishDone(w: Work, i: nat, r: Request, env: Env)
    requires i < |w.st.cluster| && Unmixed(w.st.cluster, w.st.disk) && r.name != "" && Finished(w, i, r, env).1 != Failed
    ensures Done(Finished(w, i, r, env).0, r) <==> Done(w.st, r) || Lasts(w.st.cluster, w.st.disk, i, r, env)
  {
    RenamedLands(w, i, r, env);
    var (w1, at) := Renamed(w, i, r, env);
    var c, c1, q := w.st.cluster, w1.st.cluster, at.value;
    if r.asWitness {
      StartDone(w1, q, r, env);
    } else {
      SharedDone(w1, q, r, env);
    }
    assert forall m :: 0 <= m < |c| && m != q ==> DoneAt(c1, w.st.disk, r, m) == DoneAt(c, w.st.disk, r, m);
    DoneSplits(w.st, r, q);
  }

  // ---- a disk that is held, or thought to be ------------------------------

  lemma OwnIsOne(st: State, i: nat, j: nat)
    requires i < |st.cluster| && j < |st.cluster| && Unmixed(st.cluster, st.disk)
    requires Mine(st.cluster[i], st.disk) && Mine(st.cluster[j], st.disk)
    ensures i == j
  {
  }

  lemma NamedIsOne(st: State, i: nat, j: nat, r: Request)
    requires i < |st.cluster| && j < |st.cluster| && Unmixed(st.cluster, st.disk)
    requires Same(st.cluster[i].name, r.name) && Same(st.cluster[j].name, r.name)
    ensures i == j
  {
  }

  lemma SharedCase(st: State, r: Request, env: Env, k: nat)
    requires !r.asWitness && ShareSeen(st, r, env) == Some(k) && Unmixed(st.cluster, st.disk) && Adopted(st, r, env).1 != Failed
    ensures Done(Adopted(st, r, env).0, r) <==> Done(st, r) || Delivers(st, r, env)
  {
    StartDone(Work(st, env.left), k, r, env);
    DoneSplits(st, r, k);
    forall j | 0 <= j < |st.cluster| && Same(st.cluster[j].name, r.name) ensures j == k {
      NamedIsOne(st, j, k, r);
    }
    if Mine(st.cluster[k], st.disk) {
      forall j | 0 <= j < |st.cluster| && Mine(st.cluster[j], st.disk) ensures j == k {
        OwnIsOne(st, j, k);
      }
      assert FindsOwn(st, r, env, k);
    } else {
      assert Namesake(st, r, env);
    }
  }

  lemma WitnessCase(st: State, r: Request, env: Env, i: nat)
    requires r.asWitness && HeldSeen(st, env) == Some(i) && Unmixed(st.cluster, st.disk) && Adopted(st, r, env).1 != Failed
    ensures Done(Adopted(st, r, env).0, r) <==> Done(st, r) || Delivers(st, r, env)
  {
    StartDone(Work(st, env.left), i, r, env);
    DoneSplits(st, r, i);
    SeenIsIn(st, env, i);
    forall j | 0 <= j < |st.cluster| && Mine(st.cluster[j], st.disk) ensures j == i {
      OwnIsOne(st, j, i);
    }
    assert FindsOwn(st, r, env, i);
  }

  lemma SeenIsIn(st: State, env: Env, i: nat)
    requires HeldSeen(st, env) == Some(i)
    ensures i < |st.cluster| && i in env.seen && Mine(st.cluster[i], st.disk) && SeenHeld(st, env) && Held(st)
  {
  }

  lemma HeldCase(st: State, r: Request, env: Env, i: nat)
    requires !r.asWitness && r.name != "" && ShareSeen(st, r, env).None? && HeldSeen(st, env) == Some(i)
    requires Unmixed(st.cluster, st.disk) && Adopted(st, r, env).1 != Failed
    ensures Done(Adopted(st, r, env).0, r) <==> Done(st, r) || Delivers(st, r, env)
  {
    FinishDone(Work(st, env.left), i, r, env);
    SeenIsIn(st, env, i);
    HeldLasts(st, r, env, i);
  }

  lemma HeldLasts(st: State, r: Request, env: Env, i: nat)
    requires !r.asWitness && i < |st.cluster| && i in env.seen && Mine(st.cluster[i], st.disk) && Unmixed(st.cluster, st.disk)
    ensures Lasts(st.cluster, st.disk, i, r, env) <==> Delivers(st, r, env)
  {
    var c := st.cluster;
    forall j | 0 <= j < |c| && Mine(c[j], st.disk) ensures j == i {
      OwnIsOne(st, j, i);
    }
    assert Held(st) && FindsOwn(st, r, env, i);
    var q := Lands(c, i, r, env);
    if Same(c[i].name, r.name) {
      forall j | 0 <= j < |c| && Same(c[j].name, r.name) ensures j == i {
        NamedIsOne(st, j, i, r);
      }
      assert !Namesake(st, r, env);
    } else if q != i {
      assert Same(c[q].name, r.name) && Namesake(st, r, env);
    } else {
      assert NameTaken(c, r.name) <==> Namesake(st, r, env);
    }
  }

  // ---- a disk that is not -------------------------------------------------

  /** Resource p of all is what is taken for new. */
  predicate TakenForNew(all: seq<Res>, before: nat, p: nat, env: Env)
    requires before <= |all|
  {
    p < |all| && if env.listedBefore then p == before else Listed(all[p], env) && forall m :: 0 <= m < p ==> !Listed(all[m], env)
  }

  lemma {:induction false} FirstListed(before: seq<Res>, all: seq<Res>, env: Env, k: nat) returns (i: nat)
    requires k <= |all| && !env.listedBefore && FirstNew(before, all, env, k).Some?
    ensures k <= i < |all| && Listed(all[i], env) && FirstNew(before, all, env, k) == Some(all[i].name)
    ensures forall m :: k <= m < i ==> !Listed(all[m], env)
    decreases |all| - k
  {
    if Listed(all[k], env) {
      i := k;
    } else {
      i := FirstListed(before, all, env, k + 1);
    }
  }

  lemma {:induction false} FoundByName(c: seq<Res>, name: string, env: Env, i: nat)
    requires i < |c| && Same(c[i].name, name) && Listed(c[i], env)
    requires forall m :: 0 <= m < |c| && m != i ==> !Same(c[m].name, name)
    ensures FindNamed(c, name, env) == Some(i)
  {
    var j := FindNamed(c, name, env);
    assert j.Some?;
  }

  lemma {:induction false} OldAreShown(c: seq<Res>, all: seq<Res>, env: Env, k: nat)
    requires k <= |c| <= |all| && env.listedBefore && forall m :: 0 <= m < |c| ==> all[m] == c[m]
    ensures FirstNew(c, all, env, k) == FirstNew(c, all, env, |c|)
    decreases |c| - k
  {
    if k < |c| {
      assert Listed(c[k], env) ==> ShownBefore(c, all[k].name, env);
      OldAreShown(c, all, env, k + 1);
    }
  }

  /** Names before are listed: what is new is what joined. */
  lemma PicksNew(c: seq<Res>, res: Res, env: Env, all: seq<Res>, name: string)
    requires all == c + [res] && env.listedBefore && FirstNew(c, all, env, 0) == Some(name)
    requires forall m :: 0 <= m < |c| ==> !Same(c[m].name, res.name)
    ensures FindNamed(all, name, env) == Some(|c|)
  {
    assert all[|c|] == res && forall m :: 0 <= m < |c| ==> all[m] == c[m];
    OldAreShown(c, all, env, 0);
    FoundByName(all, name, env, |c|);
  }

  /** They are not: the first that is listed is taken for new. */
  lemma PicksFirst(before: seq<Res>, all: seq<Res>, env: Env, name: string) returns (i: nat)
    requires !env.listedBefore && FirstNew(before, all, env, 0) == Some(name)
    requires forall k, m :: 0 <= k < m < |all| ==> !Same(all[k].name, all[m].name)
    ensures i < |all| && FindNamed(all, name, env) == Some(i) && Listed(all[i], env) && forall m :: 0 <= m < i ==> !Listed(all[m], env)
  {
    i := FirstListed(before, all, env, 0);
    FoundByName(all, name, env, i);
  }

  lemma {:induction false} AddedOffline(mine: seq<Offer>, k: nat)
    requires k < |Added(mine)|
    ensures !Added(mine)[k].online && !Added(mine)[k].csv
    decreases |mine|
  {
    if !(mine[0].accepts && k == 0) {
      AddedOffline(mine[1..], if mine[0].accepts then k - 1 else k);
    }
  }

  /** What joins is the disk exactly if it was offered by identity. */
  lemma JoiningIsOwn(st: State, env: Env)
    requires Joining(st, env) != []
    ensures Mine(Joining(st, env)[0], st.disk) <==> WithUid(env.offers, st.disk.uid) != []
  {
    var mine := Chosen(env.offers, st.disk);
    AddedUids(mine, 0);
    var j :| 0 <= j < |mine| && Added(mine)[0].uid == mine[j].uid;
    if WithUid(env.offers, st.disk.uid) == [] && st.disk.uid != "" {
      NotOffered(env.offers, st.disk.uid, mine[j]);
    }
  }

  lemma JoiningIsFresh(st: State, r: Request, env: Env)
    requires OneJoins(st, r, env) && Joining(st, env) != []
    ensures var res := Joining(st, env)[0];
            && |Joining(st, env)| == 1 && !res.online && !res.csv
            && (Same(res.name, r.name) ==> Mine(res, st.disk))
            && (forall m :: 0 <= m < |st.cluster| ==> !Same(st.cluster[m].name, res.name))
            && (Mine(res, st.disk) ==> !Held(st))
  {
    AddedOffline(Chosen(env.offers, st.disk), 0);
    JoiningIsOwn(st, env);
  }

  lemma UnmixedMore(c: seq<Res>, res: Res, d: Disk, r: Request, all: seq<Res>)
    requires Unmixed(c, d) && all == c + [res] && !res.online
    requires forall m :: 0 <= m < |c| ==> !Same(c[m].name, res.name) && !(Mine(c[m], d) && Mine(res, d))
    ensures Unmixed(all, d)
    ensures (exists m :: 0 <= m < |all| && DoneAt(all, d, r, m)) <==> exists m :: 0 <= m < |c| && DoneAt(c, d, r, m)
  {
    assert all[|c|] == res && forall m :: 0 <= m < |c| ==> all[m] == c[m];
    assert forall m :: 0 <= m < |c| ==> DoneAt(all, d, r, m) == DoneAt(c, d, r, m);
    assert !DoneAt(all, d, r, |c|);
  }

  lemma JoinedUnmixed(st: State, r: Request, env: Env)
    requires Unmixed(st.cluster, st.disk) && OneJoins(st, r, env)
    ensures var all := st.cluster + Joining(st, env);
            Unmixed(all, st.disk) && (Done(st.(cluster := all), r) <==> Done(st, r))
  {
    var added := Joining(st, env);
    if added != [] {
      JoiningIsFresh(st, r, env);
      assert added == [added[0]];
      UnmixedMore(st.cluster, added[0], st.disk, r, st.cluster + added);
    } else {
      assert st.cluster + added == st.cluster;
    }
  }

  lemma JoinedPicks(w: Work, st: State, r: Request, env: Env, p: nat)
    requires w.st.cluster == st.cluster && Chosen(env.offers, w.st.disk) == Chosen(env.offers, st.disk)
    requires Unmixed(st.cluster, st.disk) && OneJoins(st, r, env) && Joined(w, env).1 == Some(p)
    ensures var all := st.cluster + Joining(st, env);
            Joined(w, env).0.st == w.st.(cluster := all) && TakenForNew(all, |st.cluster|, p, env)
  {
    var c, added := st.cluster, Joining(st, env);
    var name := FirstNew(c, c + added, env, 0).value;
    if env.listedBefore {
      OldAreShown(c, c + added, env, 0);
      assert added != [];
      JoiningIsFresh(st, r, env);
      PicksNew(c, added[0], env, c + added, name);
    } else {
      JoinedUnmixed(st, r, env);
      var i := PicksFirst(c, c + added, env, name);
    }
  }

  lemma LandsOn(all: seq<Res>, d: Disk, p: nat, r: Request, env: Env, j: nat)
    requires p < |all| && j < |all| && Unmixed(all, d) && Same(all[j].name, r.name) && Listed(all[j], env)
    ensures Lands(all, p, r, env) == j
  {
    forall m | 0 <= m < |all| && Same(all[m].name, r.name) ensures m == j {
    }
    FoundByName(all, r.name, env, j);
  }

  lemma LandsHere(all: seq<Res>, p: nat, r: Request, env: Env)
    requires p < |all| && forall j :: 0 <= j < |all| && Same(all[j].name, r.name) ==> !Listed(all[j], env)
    ensures Lands(all, p, r, env) == p
  {
  }

  /** The disk is held and its resource not seen: whatever is taken for new, the run comes
      upon its resource only by name, or by taking just that one for new. */
  lemma UnseenLasts(st: State, r: Request, env: Env, all: seq<Res>, p: nat, i: nat)
    requires Prepares(st, r, env) && all == st.cluster + Joining(st, env) && Unmixed(all, st.disk)
    requires TakenForNew(all, |st.cluster|, p, env) && i < |st.cluster| && Mine(st.cluster[i], st.disk)
    requires forall k :: |st.cluster| <= k < |all| ==> !all[k].csv && !Same(all[k].name, r.name)
    ensures Lasts(all, st.disk, p, r, env) <==> Delivers(st, r, env)
  {
    var c := st.cluster;
    assert forall k :: 0 <= k < |c| ==> all[k] == c[k];
    assert forall k :: 0 <= k < |all| && Mine(all[k], st.disk) ==> k == i;
    assert Listed(all[p], env);
    if j :| 0 <= j < |all| && Same(all[j].name, r.name) {
      assert all[j] == c[j] && forall k :: 0 <= k < |all| && Same(all[k].name, r.name) ==> k == j;
      assert j != i ==> (Namesake(st, r, env) <==> !r.asWitness || Listed(c[j], env));
      if Listed(c[j], env) {
        LandsOn(all, st.disk, p, r, env, j);
      } else {
        LandsHere(all, p, r, env);
        assert NameTaken(all, r.name);
      }
    } else {
      LandsHere(all, p, r, env);
    }
    UnseenFinds(st, r, env, all, p, i);
  }

  /** Unseen, its resource is come upon by name or by being taken for new. */
  lemma UnseenFinds(st: State, r: Request, env: Env, all: seq<Res>, p: nat, i: nat)
    requires Prepares(st, r, env) && |all| >= |st.cluster| && forall k :: 0 <= k < |st.cluster| ==> all[k] == st.cluster[k]
    requires TakenForNew(all, |st.cluster|, p, env) && i < |st.cluster| && Mine(st.cluster[i], st.disk)
    ensures !SeenHeld(st, env)
    ensures FindsOwn(st, r, env, i) <==> p == i || (Listed(st.cluster[i], env) && Same(st.cluster[i].name, r.name))
  {
    assert i !in env.seen;
    if p == i {
      assert Listed(all[p], env) && all[p] == st.cluster[i];
    }
  }

  /** The disk is not held: it is come upon exactly if it joins and is what is taken for new,
      or joins under the volume's name. */
  lemma NewLasts(st: State, r: Request, env: Env, all: seq<Res>, p: nat)
    requires !Held(st) && all == st.cluster + Joining(st, env) && |Joining(st, env)| <= 1 && Unmixed(all, st.disk)
    requires TakenForNew(all, |st.cluster|, p, env)
    requires Joining(st, env) != [] ==>
               var res := Joining(st, env)[0]; !res.online && !res.csv && (Mine(res, st.disk) <==> WithUid(env.offers, st.disk.uid) != [])
    ensures Lasts(all, st.disk, p, r, env) <==> Delivers(st, r, env)
  {
    var c := st.cluster;
    assert forall k :: 0 <= k < |c| ==> all[k] == c[k];
    assert forall k :: 0 <= k < |all| && Mine(all[k], st.disk) ==> k == |c|;
    assert Joining(st, env) != [] ==> all[|c|] == Joining(st, env)[0];
    assert Listed(all[p], env);
    assert p == |c| <==> |all| == |c| + 1 && (env.listedBefore || forall m :: 0 <= m < |c| ==> !Listed(c[m], env));
    if j :| 0 <= j < |all| && Same(all[j].name, r.name) {
      assert forall k :: 0 <= k < |all| && Same(all[k].name, r.name) ==> k == j;
      if Listed(all[j], env) {
        LandsOn(all, st.disk, p, r, env, j);
        assert j < |c| ==> Namesake(st, r, env);
      } else {
        LandsHere(all, p, r, env);
        assert NameTaken(all, r.name) && (Namesake(st, r, env) <==> !r.asWitness);
      }
    } else {
      LandsHere(all, p, r, env);
    }
  }

  /** What is taken for new, named and started: the disk's own, or not. */
  lemma FreshLasts(st: State, r: Request, env: Env, p: nat)
    requires Unmixed(st.cluster, st.disk) && OneJoins(st, r, env) && Prepares(st, r, env)
    requires TakenForNew(st.cluster + Joining(st, env), |st.cluster|, p, env)
    ensures Lasts(st.cluster + Joining(st, env), st.disk, p, r, env) <==> Delivers(st, r, env)
  {
    JoinedUnmixed(st, r, env);
    var all := st.cluster + Joining(st, env);
    if i :| 0 <= i < |st.cluster| && Mine(st.cluster[i], st.disk) {
      NoneButOwn(st, r, env, all);
      UnseenLasts(st, r, env, all, p, i);
    } else {
      if Joining(st, env) != [] {
        JoiningIsFresh(st, r, env);
        JoiningIsOwn(st, env);
      }
      NewLasts(st, r, env, all, p);
    }
  }

  /** While the disk is held nothing joins under the volume's name. */
  lemma NoneButOwn(st: State, r: Request, env: Env, all: seq<Res>)
    requires OneJoins(st, r, env) && Held(st) && all == st.cluster + Joining(st, env)
    ensures forall k :: |st.cluster| <= k < |all| ==> !all[k].csv && !Same(all[k].name, r.name)
  {
    if Joining(st, env) != [] {
      JoiningIsFresh(st, r, env);
      assert forall k :: |st.cluster| <= k < |all| ==> all[k] == Joining(st, env)[0];
    }
  }

  lemma FreshCase(st: State, r: Request, env: Env)
    requires r.name != "" && Unmixed(st.cluster, st.disk) && OneJoins(st, r, env) && Prepares(st, r, env)
    requires Adopted(st, r, env).1 != Failed
    ensures Done(Adopted(st, r, env).0, r) <==> Done(st, r) || Delivers(st, r, env)
  {
    var w1 := Prepared(Work(st, env.left), r, env.look, |STEPS|).0;
    PreparedKeepsIdentity(Work(st, env.left), r, env.look, |STEPS|);
    var (w2, at) := Joined(w1, env);
    JoinedPicks(w1, st, r, env, at.value);
    JoinedUnmixed(st, r, env);
    SameForMine(st, w2.st, r, at.value, env);
    FinishDone(w2, at.value, r, env);
    FreshLasts(st, r, env, at.value);
  }

  /** Only the disk's identity matters to what is its own. */
  lemma SameForMine(st: State, st': State, r: Request, p: nat, env: Env)
    requires st'.disk.uid == st.disk.uid && st'.cluster == st.cluster + Joining(st, env) && p < |st'.cluster|
    requires Unmixed(st'.cluster, st.disk)
    ensures Unmixed(st'.cluster, st'.disk) && (Done(st', r) <==> Done(st.(cluster := st'.cluster), r))
    ensures Lasts(st'.cluster, st'.disk, p, r, env) == Lasts(st'.cluster, st.disk, p, r, env)
  {
    assert forall m :: 0 <= m < |st'.cluster| ==> DoneAt(st'.cluster, st'.disk, r, m) == DoneAt(st'.cluster, st.disk, r, m);
  }

  /** On a cluster whose names are distinct and that holds the disk at most once: what a run
      reports as a success is the declared adoption if and only if it was there already, or
      the run is given what it needs to deliver it. */
  lemma SuccessMeansDoneExactlyWhen(st: State, r: Request, env: Env)
    requires r.name != "" && Unmixed(st.cluster, st.disk) && OneJoins(st, r, env)
    requires Adopted(st, r, env).1 != Failed
    ensures Done(Adopted(st, r, env).0, r) <==> Done(st, r) || Delivers(st, r, env)
  {
    var shared, held := ShareSeen(st, r, env), HeldSeen(st, env);
    if shared.Some? && !r.asWitness {
      SharedCase(st, r, env, shared.value);
    } else if held.Some? && r.asWitness {
      WitnessCase(st, r, env, held.value);
    } else if held.Some? {
      HeldCase(st, r, env, held.value);
    } else {
      FreshCase(st, r, env);
    }
  }
}
