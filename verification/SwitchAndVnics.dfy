/** The switch reconcile and the vNIC reconcile of one host, pass after pass: each undoes
    the other when a switch that is not to serve the host has a declared vNIC on it. */
module SwitchAndVnics {
  import opened Text
  import VirtualSwitch
  import opened VnicHost
  import opened VnicReconcile
  import opened VnicScripts
  import opened VnicRuns

  /** The switches as the first reconcile holds them and the vNICs as the second does. */
  datatype Joint = Joint(st: VirtualSwitch.State, h: Host)

  function OnSwitch(h: Host, k: string): set<string> {
    set v | v in h.vnics && Lower(h.vnics[v].sw) == k
  }

  /** The switches with the management vNICs there are on them. */
  function Shown(j: Joint): VirtualSwitch.State {
    j.st.(switches := map k | k in j.st.switches :: j.st.switches[k].(vnics := OnSwitch(j.h, k)))
  }

  /** The host once the switch has the management vNICs given: as it was, with those of
      the switch gone, or with one of the switch's name. */
  function Applied(h: Host, sw: string, vnics: set<string>): Host {
    var on := OnSwitch(h, Lower(sw));
    if vnics == on then h
    else if vnics == {} then h.(vnics := h.vnics - on, nets := h.nets - (set v | v in on :: OfVnic(v)))
    else WithAdded(h, sw, sw)
  }

  /** One pass: the switch, then the vNICs; and what each reported. */
  function JointPass(j: Joint, sw: VirtualSwitch.Spec, specs: seq<Spec>, each: seq<Faults>)
    : (Joint, VirtualSwitch.Outcome, seq<Result>)
    requires |specs| <= |each| && Lower(sw.name) in j.st.switches
  {
    var (st1, out, _) := VirtualSwitch.Ensured(Shown(j), sw, VirtualSwitch.WHOLE, VirtualSwitch.NO_CUT);
    assert Lower(sw.name) in st1.switches;
    var h1 := Applied(j.h, sw.name, st1.switches[Lower(sw.name)].vnics);
    var (h2, rs) := Ensured(h1, specs, Answered, each);
    (Joint(st1, h2), out, rs)
  }

  /** A switch declared not to serve the host, and vNIC i declared on it and there. */
  ghost predicate AtOdds(j: Joint, sw: VirtualSwitch.Spec, specs: seq<Spec>, i: nat) {
    && !sw.mgmt && Lower(sw.name) in j.st.switches && VirtualSwitch.AllFound(j.st.adapters, sw.team)
    && Valid(j.h) && AllOk(j.h.site, specs) && DistinctNames(specs) && DistinctIps(specs)
    && i < |specs| && Same(specs[i].sw, sw.name)
    && Lower(specs[i].name) in j.h.vnics && Same(j.h.vnics[Lower(specs[i].name)].sw, sw.name)
  }

  /** Neither settles: every pass updates the switch, which takes the vNIC away, and makes
      the vNIC again, which leaves the two at odds for the next. */
  lemma EveryPassUndoes(j: Joint, sw: VirtualSwitch.Spec, specs: seq<Spec>, each: seq<Faults>, i: nat)
    requires AtOdds(j, sw, specs, i) && |specs| <= |each| && AllFaultFree(specs, each)
    ensures var (j', out, rs) := JointPass(j, sw, specs, each);
            && out == VirtualSwitch.Updated && |rs| == |specs| && rs[i].out == Created
            && AtOdds(j', sw, specs, i)
  {
    var k := Lower(sw.name);
    var shown := Shown(j);
    assert Lower(specs[i].name) in OnSwitch(j.h, k);
    assert VirtualSwitch.Observe(shown, sw.name, VirtualSwitch.WHOLE).mgmt;
    var (st1, out, _) := VirtualSwitch.Ensured(shown, sw, VirtualSwitch.WHOLE, VirtualSwitch.NO_CUT);
    assert out == VirtualSwitch.Updated && st1.switches[k].vnics == {};
    var h1 := Applied(j.h, sw.name, {});
    WithoutStaysValid(j.h, OnSwitch(j.h, k));
    PassProgress(h1, specs, each, |specs|);
    var h2 := FromBatch(h1, specs, each, |specs|).0;
    assert Placed(h2, specs[i]);
  }

  lemma WithoutStaysValid(h: Host, gone: set<string>)
    requires Valid(h)
    ensures Valid(h.(vnics := h.vnics - gone, nets := h.nets - (set v | v in gone :: OfVnic(v))))
  {
  }
}
