/** What one attempt to copy a VM leaves on the two hosts, told from what they hold and what
    its commands meet. */
module CopyOutcomes {
  import opened Wrappers
  import opened Text
  import opened CopyVm
  import SwitchMap

  // ---- how far an attempt gets --------------------------------------------

  /** The source is reached, and the VM found there, off. */
  predicate Reached(p: Pair, a: Attempt) {
    p.here && p.off && a.reach.end == Goes
  }

  /** The share is made, and known to be. */
  predicate Sharing(p: Pair, a: Attempt) {
    Reached(p, a) && a.share.end == Goes
  }

  /** The export is begun: the folder is not there. */
  predicate Exporting(p: Pair, a: Attempt) {
    Sharing(p, a) && p.folder == Absent && a.look.end == Goes
  }

  /** The import is come to: the export is whole and its configuration found. */
  predicate Importing(p: Pair, a: Attempt) {
    Exporting(p, a) && a.left == Whole && a.write.end == Goes && a.find.end == Goes
  }

  /** The import took effect, and its answer was heard. */
  predicate Confirmed(p: Pair, a: Attempt) {
    Importing(p, a) && a.join.takes && a.join.end == Goes
  }

  /** There is a cluster role to take the VM out of first. */
  predicate Leaving(p: Pair, a: Attempt) {
    Confirmed(p, a) && a.clustered && p.role
  }

  /** The removal of the source is come to. */
  predicate Removing(p: Pair, a: Attempt) {
    Confirmed(p, a) && (Leaving(p, a) ==> a.uncluster.end == Goes)
  }

  /** The agent is killed inside the try, where no finally follows. */
  predicate Killed(p: Pair, a: Attempt) {
    && Sharing(p, a)
    && (|| a.look.end == Dies
        || (a.look.end == Goes && (p.folder == Absent || !a.look.takes) && a.write.end == Dies)
        || (Exporting(p, a) && a.left == Whole && a.write.end == Goes && a.find.end == Dies)
        || (Importing(p, a) && a.join.end == Dies)
        || (Leaving(p, a) && a.uncluster.end == Dies)
        || (Removing(p, a) && a.remove.end == Dies))
  }

  // ---- what it leaves -----------------------------------------------------

  /** The share once its making has been tried. */
  predicate Shared(p: Pair, a: Attempt) {
    if !Reached(p, a) then p.share
    else a.share.takes || a.share.end == Goes || (p.share && !a.oldGone)
  }

  function Left(p: Pair, vm: string, a: Attempt): Pair {
    Pair(p.here && !(Removing(p, a) && (a.remove.takes || a.remove.end == Goes)),
         p.off,
         p.role && !(Leaving(p, a) && a.uncluster.takes),
         if Exporting(p, a) then a.left else p.folder,
         if Importing(p, a) && a.join.takes then p.regs + [Reg(vm, a.home, a.disks, a.parents)] else p.regs,
         Shared(p, a) && !(Sharing(p, a) && !Killed(p, a) && a.drop.takes))
  }

  lemma TryLeaves(p: Pair, vm: string, a: Attempt)
    requires Sharing(p, a)
    ensures var (p', end) := Body(p, vm, a, LOOK); var l := Left(p, vm, a);
            && p' == l.(share := p.share)
            && (end == Dies <==> Killed(p, a))
            && (end == Goes <==> Removing(p, a) && a.remove.end == Goes)
  {
    var (p2, e2) := Do(p, vm, a, LOOK);
    var (p3, e3) := Do(p2, vm, a, EXPORT);
    if e2 == Goes && e3 == Goes {
      ImportLeaves(p, p3, vm, a);
    }
  }

  lemma ImportLeaves(p: Pair, p3: Pair, vm: string, a: Attempt)
    requires Exporting(p, a) && a.left == Whole && a.write.end == Goes && p3 == p.(folder := Whole)
    ensures var (p', end) := Body(p3, vm, a, FIND); var l := Left(p, vm, a);
            && p' == l.(share := p.share)
            && (end == Dies <==> Killed(p, a))
            && (end == Goes <==> Removing(p, a) && a.remove.end == Goes)
  {
    var (p4, e4) := Do(p3, vm, a, FIND);
    var (p5, e5) := Do(p4, vm, a, IMPORT);
    var (p6, e6) := Do(p5, vm, a, UNCLUSTER);
    assert Body(p6, vm, a, REMOVE) == Do(p6, vm, a, REMOVE);
    assert e6 == Goes ==> Body(p5, vm, a, UNCLUSTER) == Do(p6, vm, a, REMOVE);
    assert e5 == Goes ==> Body(p4, vm, a, IMPORT) == Body(p5, vm, a, UNCLUSTER);
  }

  /** An attempt reports success if and only if the VM was there and off, the share was made,
      the folder was not there, everything up to the confirmed import went through, so did
      taking it out of its role if it had one, and its removal; and its agent was not killed
      dropping the share. And whatever it met, it leaves each part of the two hosts just so. */
  lemma AttemptLeaves(p: Pair, vm: string, a: Attempt)
    ensures Copied(p, vm, a).0 == Left(p, vm, a)
    ensures Copied(p, vm, a).1 <==>
              && p.here && p.off && p.folder == Absent
              && a.reach.end == a.share.end == a.look.end == a.write.end == a.find.end == a.join.end == a.remove.end == Goes
              && a.left == Whole && a.join.takes && (a.clustered && p.role ==> a.uncluster.end == Goes) && a.drop.end != Dies
  {
    if Sharing(p, a) {
      TryLeaves(p.(share := true), vm, a);
      assert Left(p.(share := true), vm, a).(share := p.share) == Left(p, vm, a).(share := p.share);
    }
  }

  /** After a success the role is there exactly when it was there before and the source was
      not clustered, or the role's removal did not take; and where that removal throws or is
      killed the source VM is still there. */
  lemma RoleGoesWithTheSource(p: Pair, vm: string, a: Attempt)
    ensures var (p', ok) := Copied(p, vm, a);
            && (ok ==> (p'.role <==> p.role && (!a.clustered || !a.uncluster.takes)))
            && (a.clustered && p.role && a.uncluster.end != Goes ==> p'.here == p.here && !ok)
            && (p.role && !p'.role ==> a.clustered && a.uncluster.takes && a.join == Meet(true, Goes))
  {
    AttemptLeaves(p, vm, a);
  }

  /** The share an attempt leaves up: its own, where the agent was killed or the clean-up did
      not get through, or its making was not heard of; or one that was there. */
  lemma ShareLeftUp(p: Pair, vm: string, a: Attempt)
    requires Copied(p, vm, a).0.share
    ensures p.share || Killed(p, a) || !a.drop.takes || (a.share.takes && a.share.end != Goes)
  {
    AttemptLeaves(p, vm, a);
  }

  // ---- clearing -----------------------------------------------------------

  /** A path the check objects to. */
  predicate Near(path: string, target: string) {
    path != "" && StartsWith(Lower(path), Lower(target))
  }

  /** A clearing removes the folder if and only if it is there, and no VM that an answered
      listing shows, nor any disk of one it answers for, has a path that begins with the
      folder's name. Nothing else changes. */
  lemma ClearsExactlyWhen(p: Pair, l: Listing, target: string)
    ensures var (p', removed) := Cleared(p, l, target);
            && p' == (if removed then p.(folder := Absent) else p)
            && (removed <==>
                  && p.folder != Absent
                  && (l.answered ==> forall i :: 0 <= i < |p.regs| ==>
                        && !Near(p.regs[i].home, target)
                        && (i in l.drives ==> forall j :: 0 <= j < |p.regs[i].disks| ==> !Near(p.regs[i].disks[j], target))))
  {
    if l.answered {
      if i :| 0 <= i < |p.regs| && (Near(p.regs[i].home, target) || (i in l.drives && exists j :: 0 <= j < |p.regs[i].disks| && Near(p.regs[i].disks[j], target))) {
        if !Near(p.regs[i].home, target) {
          var j :| 0 <= j < |p.regs[i].disks| && Near(p.regs[i].disks[j], target);
          assert Begins(p.regs[i].disks[j], target);
        }
        assert ShowsOne(p.regs[i], i in l.drives, target);
      }
    }
  }

  /** Check and removal with nothing between them are the clearing as a whole, and a removal
      without a check that passed removes nothing. */
  lemma StepsAreTheClearing(w: World, vm: string, target: string, l: Listing)
    requires Ready(w)
    ensures After(After(w, vm, target, Check(l)), vm, target, Remove) == w.(p := Cleared(w.p, l, target).0, checked := false)
    ensures !w.checked ==> After(w, vm, target, Remove) == w
  {
  }

  // ---- the adapters of the imported VM ------------------------------------

  /** An adapter the destination objected to ends on the target of the switch it was on, with
      the target's VLAN if that has one; without a target, or without a switch to begin with,
      it ends on none. One that was not objected to stays as it is. */
  lemma LandsByTheMap(ad: Adapter, objected: bool, netMap: map<string, SwitchMap.Row>)
    ensures var k, l := Lower(ad.sw), Landed(ad, objected, netMap); var mapped := ad.sw != "" && k in netMap && netMap[k].to != "";
            && l.id == ad.id
            && l.sw == (if !objected then ad.sw else if mapped then netMap[k].to else "")
            && l.vlan == (if objected && mapped && netMap[k].vlan > 0 then netMap[k].vlan else ad.vlan)
    ensures var k := Lower(ad.sw); forall switches: set<string> {:trigger HasTarget(ad.sw, netMap, switches)} ::
              HasTarget(ad.sw, netMap, switches) <==> (ad.sw != "" && k in netMap && netMap[k].to != "" ==> Lower(netMap[k].to) in switches)
  {
  }
}
