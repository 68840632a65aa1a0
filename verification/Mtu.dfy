/** The MTU planner: what each physical adapter carries, what its driver will take, and
    a write only where it is needed - a write bounces the link. */
module Mtu {
  import opened Wrappers
  import opened Text

  // ---- the sizes drivers offer --------------------------------------------

  /** strconv.Atoi refuses what does not fit a 64-bit int. */
  const MAX_INT: nat := 9223372036854775807

  const HEADER_BYTES: nat := 14

  /** The leading digits of a driver's value; None where there are none. */
  function JumboSize(v: string): Option<nat> {
    var t := Trim(v);
    if t == "" || !IsDigit(t[0]) then None
    else
      var (n, _) := ReadDigits(t, 0);
      if n > MAX_INT then None else Some(n)
  }

  predicate Carrying(v: string, want: int) {
    JumboSize(v).Some? && JumboSize(v).value >= want
  }

  /** The first of the smallest offered values that carry want. */
  predicate SmallestCarrying(values: seq<string>, want: int, v: string) {
    && v in values && Carrying(v, want)
    && forall i :: 0 <= i < |values| && Carrying(values[i], want) ==> JumboSize(v).value <= JumboSize(values[i]).value
  }

  function ValueFor(values: seq<string>, want: int): Option<string> {
    if values == [] then None
    else
      var last, best := values[|values| - 1], ValueFor(values[..|values| - 1], want);
      if !Carrying(last, want) then best
      else if best.None? || JumboSize(best.value).None? || JumboSize(last).value < JumboSize(best.value).value then Some(last)
      else best
  }

  lemma {:induction false} ValueForIs(values: seq<string>, want: int)
    ensures ValueFor(values, want).Some? <==> exists i :: 0 <= i < |values| && Carrying(values[i], want)
    ensures ValueFor(values, want).Some? ==> SmallestCarrying(values, want, ValueFor(values, want).value)
  {
    if values != [] {
      var front := values[..|values| - 1];
      ValueForIs(front, want);
      assert values == front + [values[|values| - 1]];
      if i :| 0 <= i < |front| && Carrying(front[i], want) {
        assert Carrying(values[i], want);
      }
      if ValueFor(front, want).Some? {
        var k :| 0 <= k < |front| && front[k] == ValueFor(front, want).value;
        assert values[k] == front[k];
      }
    }
  }

  method JumboValueFor(values: seq<string>, want: int) returns (value: string, found: bool)
    ensures found == ValueFor(values, want).Some?
    ensures found ==> value == ValueFor(values, want).value && SmallestCarrying(values, want, value)
    ensures !found ==> forall i :: 0 <= i < |values| ==> !Carrying(values[i], want)
  {
    ValueForIs(values, want);
    var best, bestN := "", 0;
    for i := 0 to |values|
      invariant best == "" <==> ValueFor(values[..i], want).None?
      invariant best != "" ==> ValueFor(values[..i], want) == Some(best) && JumboSize(best) == Some(bestN)
    {
      assert values[..i + 1][..i] == values[..i];
      var n := JumboSize(values[i]);
      if n.None? || n.value < want {
        continue;
      }
      if best == "" || n.value < bestN {
        best, bestN := values[i], n.value;
      }
    }
    assert values[..|values|] == values;
    return best, best != "";
  }

  predicate StepsUp(min: int, step: int, x: int, k: nat) {
    x == min + k * step
  }

  /** A value a range driver takes as it is: whole steps above its minimum. */
  ghost predicate OnStep(min: int, step: int, x: int) {
    step > 1 && min > 0 ==> exists k: nat :: StepsUp(min, step, x, k)
  }

  function RoundedDown(min: int, step: int, v: int): int {
    if step > 1 && min > 0 && v > min then min + ((v - min) / step) * step else v
  }

  function NumericFor(min: int, max: int, step: int, want: int): Option<int> {
    if want <= 0 || max <= 0 || max < want then None
    else
      var aimed := if want + HEADER_BYTES > max then max else want + HEADER_BYTES;
      var v := RoundedDown(min, step, aimed);
      var w := if v < min then min else v;
      if w < want then None else Some(w)
  }

  lemma RoundingDown(min: int, step: int, v: int)
    requires step > 1 && min > 0 && v > min
    ensures var r := RoundedDown(min, step, v); min <= r <= v < r + step && OnStep(min, step, r)
  {
    var q: nat := (v - min) / step;
    assert v - min == q * step + (v - min) % step;
    assert StepsUp(min, step, RoundedDown(min, step, v), q);
  }

  /** Nothing the driver takes lies between the rounded value and what was rounded. */
  lemma RoundingIsLargest(min: int, step: int, v: int, x: int)
    requires step > 1 && min > 0 && v > min && x <= v && OnStep(min, step, x)
    ensures x <= RoundedDown(min, step, v)
  {
    RoundingDown(min, step, v);
    var r := RoundedDown(min, step, v);
    var p: nat :| StepsUp(min, step, x, p);
    var q: nat :| StepsUp(min, step, r, q);
    if p > q {
      Monotone(q + 1, p, step);
    } else {
      Monotone(p, q, step);
    }
  }

  lemma Monotone(p: int, q: int, step: int)
    requires p <= q && step > 0
    ensures p * step <= q * step
  {
  }

  /** A range gives a value exactly when one the driver takes lies between what is
      wanted and that plus a header, within the range, or the range only begins above
      that; and it is then the largest such value, or the range's beginning. */
  lemma NumericExactlyWhen(min: int, max: int, step: int, want: int)
    requires want > 0 && min <= max
    ensures NumericFor(min, max, step, want).Some? <==>
              max >= want && (want + HEADER_BYTES < min || exists x :: want <= x <= want + HEADER_BYTES && min <= x <= max && OnStep(min, step, x))
    ensures NumericFor(min, max, step, want).Some? ==>
              var v := NumericFor(min, max, step, want).value; want <= v && min <= v <= max && OnStep(min, step, v)
  {
    var aimed := if want + HEADER_BYTES > max then max else want + HEADER_BYTES;
    if max >= want && aimed >= min {
      if step > 1 && min > 0 && aimed > min {
        RoundingDown(min, step, aimed);
        if x :| want <= x <= want + HEADER_BYTES && min <= x <= max && OnStep(min, step, x) {
          RoundingIsLargest(min, step, aimed, x);
        }
      } else {
        assert RoundedDown(min, step, aimed) == aimed;
        assert StepsUp(min, step, min, 0);
        assert OnStep(min, step, aimed);
      }
    }
    if max >= want && aimed < min {
      assert StepsUp(min, step, min, 0);
    }
  }

  // ---- adapters -----------------------------------------------------------

  datatype Adapter = Adapter(name: string, found: bool, mtuSize: int, nlMtu: int, keyword: string, setting: string,
                             values: seq<string>, min: int, max: int, step: int)

  /** The miniport's own MTU where there is one, else the interface's, else the size the
      driver has selected. */
  predicate Carries(a: Adapter, want: int) {
    if a.mtuSize > 0 then a.mtuSize >= want
    else if a.nlMtu > 0 then a.nlMtu >= want
    else Carrying(a.setting, want)
  }

  datatype Choice = Choice(value: string, numeric: bool)

  function Chosen(a: Adapter, want: int): Option<Choice> {
    if ValueFor(a.values, want).Some? then Some(Choice(ValueFor(a.values, want).value, false))
    else
      match NumericFor(a.min, a.max, a.step, want)
      case Some(n) => Some(Choice(IntText(n), true))
      case None => None
  }

  /** The driver already has it selected. */
  predicate Selected(a: Adapter, want: int) {
    Chosen(a, want).Some? && Same(Trim(a.setting), Trim(Chosen(a, want).value.value))
  }

  datatype Verdict = Carried | Absent | Incapable | Pending | Write(value: string, numeric: bool)

  function Judged(a: Adapter, want: int): Verdict {
    if !a.found then Absent
    else if Carries(a, want) then Carried
    else if Chosen(a, want).None? then Incapable
    else if Selected(a, want) then Pending
    else Write(Chosen(a, want).value.value, Chosen(a, want).value.numeric)
  }

  datatype Apply = Apply(name: string, keyword: string, value: string, numeric: bool)

  function Applies(obs: seq<Adapter>, want: int): seq<Apply> {
    if obs == [] then []
    else
      var a, before := obs[|obs| - 1], Applies(obs[..|obs| - 1], want);
      match Judged(a, want)
      case Write(v, numeric) => before + [Apply(a.name, a.keyword, v, numeric)]
      case _ => before
  }

  /** The names refused, each once per adapter observed. */
  function Refusals(obs: seq<Adapter>, want: int): seq<string> {
    if obs == [] then []
    else
      var a, before := obs[|obs| - 1], Refusals(obs[..|obs| - 1], want);
      match Judged(a, want)
      case Absent => before + [a.name]
      case Incapable => before + [a.name]
      case Pending => before + [a.name]
      case _ => before
  }

  function CountCarried(obs: seq<Adapter>, want: int): nat {
    if obs == [] then 0
    else CountCarried(obs[..|obs| - 1], want) + if Judged(obs[|obs| - 1], want) == Carried then 1 else 0
  }

  method ChooseJumbo(a: Adapter, want: int) returns (value: string, numeric: bool, ok: bool)
    ensures ok == Chosen(a, want).Some?
    ensures ok ==> Chosen(a, want) == Some(Choice(value, numeric))
  {
    var v, found := JumboValueFor(a.values, want);
    if found {
      return v, false, true;
    }
    var n := NumericFor(a.min, a.max, a.step, want);
    if n.Some? {
      return IntText(n.value), true, true;
    }
    return "", false, false;
  }

  lemma PlanNext(obs: seq<Adapter>, want: int, i: nat)
    requires i < |obs|
    ensures var v := Judged(obs[i], want);
            && Applies(obs[..i + 1], want) == Applies(obs[..i], want)
                 + (if v.Write? then [Apply(obs[i].name, obs[i].keyword, v.value, v.numeric)] else [])
            && Refusals(obs[..i + 1], want) == Refusals(obs[..i], want) + (if v.Write? || v == Carried then [] else [obs[i].name])
            && CountCarried(obs[..i + 1], want) == CountCarried(obs[..i], want) + if v == Carried then 1 else 0
  {
    assert obs[..i + 1][..i] == obs[..i];
  }

  method PlanAdapterMtu(obs: seq<Adapter>, want: int) returns (apply: seq<Apply>, refusals: seq<string>)
    ensures apply == Applies(obs, want) && refusals == Refusals(obs, want)
    ensures |apply| + |refusals| + CountCarried(obs, want) == |obs|
  {
    apply, refusals := [], [];
    ghost var carried := 0;
    for i := 0 to |obs|
      invariant apply == Applies(obs[..i], want) && refusals == Refusals(obs[..i], want)
      invariant carried == CountCarried(obs[..i], want)
      invariant |apply| + |refusals| + carried == i
    {
      var a := obs[i];
      PlanNext(obs, want, i);
      if !a.found {
        refusals := refusals + [a.name];
        continue;
      }
      if Carries(a, want) {
        carried := carried + 1;
        continue;
      }
      var value, numeric, ok := ChooseJumbo(a, want);
      if !ok {
        refusals := refusals + [a.name];
        continue;
      }
      if Same(Trim(a.setting), Trim(value)) {
        refusals := refusals + [a.name];
        continue;
      }
      apply := apply + [Apply(a.name, a.keyword, value, numeric)];
    }
    assert obs[..|obs|] == obs;
  }

  /** What is written carries what was wanted: a value the driver offered that is large
      enough and the smallest such, or a number within its range. */
  lemma WritesCarry(a: Adapter, want: int)
    requires Judged(a, want).Write? && want > 0 && a.min <= a.max
    ensures var w := Judged(a, want);
            && (!w.numeric ==> SmallestCarrying(a.values, want, w.value))
            && (w.numeric ==> exists n :: w.value == IntText(n) && want <= n && a.min <= n <= a.max && OnStep(a.min, a.step, n))
            && !Same(Trim(a.setting), Trim(w.value))
  {
    ValueForIs(a.values, want);
    if Judged(a, want).numeric {
      NumericExactlyWhen(a.min, a.max, a.step, want);
      var n := NumericFor(a.min, a.max, a.step, want).value;
      assert Judged(a, want).value == IntText(n);
    }
  }

  /** The size a driver's value spells is its leading number, whatever unit or words follow;
      one that does not fit is none. */
  lemma SizeIsLeadingNumber(n: nat, unit: string, v: string)
    requires (unit == "" || !IsDigit(unit[0])) && Trim(v) == NatText(n) + unit
    ensures JumboSize(v) == if n > MAX_INT then None else Some(n)
  {
    NatReads(n, unit);
    ReadFirstDigit(Trim(v));
  }

  lemma NoLeadingNumber(v: string)
    requires Trim(v) == "" || !IsDigit(Trim(v)[0])
    ensures JumboSize(v).None?
  {
  }

  /** The value taken from a menu is the first of the smallest that carry what is wanted. */
  lemma {:induction false} FirstOfSmallest(values: seq<string>, want: int)
    requires ValueFor(values, want).Some?
    ensures exists i :: 0 <= i < |values| && values[i] == ValueFor(values, want).value && Carrying(values[i], want)
              && forall j :: 0 <= j < i && Carrying(values[j], want) ==> JumboSize(values[j]).value > JumboSize(values[i]).value
  {
    var front, last := values[..|values| - 1], |values| - 1;
    ValueForIs(front, want);
    ValueForIs(values, want);
    if ValueFor(front, want).Some? && ValueFor(values, want) == ValueFor(front, want) {
      FirstOfSmallest(front, want);
      var i :| 0 <= i < |front| && front[i] == ValueFor(front, want).value && Carrying(front[i], want)
        && forall j :: 0 <= j < i && Carrying(front[j], want) ==> JumboSize(front[j]).value > JumboSize(front[i]).value;
      assert forall j :: 0 <= j < i ==> values[j] == front[j];
    } else {
      assert values[last] == ValueFor(values, want).value;
      forall j | 0 <= j < last && Carrying(values[j], want) ensures JumboSize(values[j]).value > JumboSize(values[last]).value {
        assert front[j] == values[j];
      }
    }
  }

  /** Of a range, nothing larger would do: no value the driver takes is left between the one
      taken and what is wanted plus a header. */
  lemma NumericIsLargest(min: int, max: int, step: int, want: int, x: int)
    requires min <= max && NumericFor(min, max, step, want).Some?
    requires x <= want + HEADER_BYTES && min <= x <= max && OnStep(min, step, x)
    ensures x <= NumericFor(min, max, step, want).value
  {
    var aimed := if want + HEADER_BYTES > max then max else want + HEADER_BYTES;
    if step > 1 && min > 0 && aimed > min {
      RoundingIsLargest(min, step, aimed, x);
    }
  }

  /** What is in force is enough: the miniport's own size if it tells one, else the
      interface's, else the one the driver has selected. */
  predicate Enough(a: Adapter, want: int) {
    || (a.mtuSize > 0 && a.mtuSize >= want)
    || (a.mtuSize <= 0 && a.nlMtu > 0 && a.nlMtu >= want)
    || (a.mtuSize <= 0 && a.nlMtu <= 0 && JumboSize(a.setting).Some? && JumboSize(a.setting).value >= want)
  }

  /** The driver's menu has a value large enough. */
  predicate OnMenu(a: Adapter, want: int) {
    exists i :: 0 <= i < |a.values| && JumboSize(a.values[i]).Some? && JumboSize(a.values[i]).value >= want
  }

  /** An adapter is left alone exactly if it is there and what is in force is enough; refused
      if it is not there, or its driver has neither a value on its menu nor one in its range
      that would do, or has selected that value already; and written in every other case -
      with a value of the menu if that has one. */
  lemma JudgedExactly(a: Adapter, want: int)
    ensures var v, usable := Judged(a, want), OnMenu(a, want) || NumericFor(a.min, a.max, a.step, want).Some?;
            && (v == Carried <==> a.found && Enough(a, want))
            && (v == Absent <==> !a.found)
            && (v == Incapable <==> a.found && !Enough(a, want) && !usable)
            && (v == Pending || v.Write? <==> a.found && !Enough(a, want) && usable)
            && (v == Pending ==> exists x :: Same(Trim(a.setting), Trim(x)) && Chosen(a, want) == Some(Choice(x, !OnMenu(a, want))))
            && (v.Write? ==> !Same(Trim(a.setting), Trim(v.value)) && (v.numeric <==> !OnMenu(a, want)))
  {
    ValueForIs(a.values, want);
    assert OnMenu(a, want) <==> exists i :: 0 <= i < |a.values| && Carrying(a.values[i], want);
    if Judged(a, want) == Pending {
      assert Same(Trim(a.setting), Trim(Chosen(a, want).value.value));
    }
  }

  // ---- passes -------------------------------------------------------------

  /** The host's adapters, and how often each has been written. */
  datatype Host = Host(adapters: seq<Adapter>, writes: seq<nat>)

  predicate ValidHost(h: Host) {
    |h.adapters| == |h.writes| && forall i, j :: 0 <= i < j < |h.adapters| ==> !Same(h.adapters[i].name, h.adapters[j].name)
  }

  predicate OnHost(team: seq<nat>, h: Host) {
    forall k :: 0 <= k < |team| ==> team[k] < |h.adapters|
  }

  function Observed(h: Host, team: seq<nat>): (r: seq<Adapter>)
    requires OnHost(team, h)
    ensures |r| == |team|
    ensures forall k :: 0 <= k < |r| ==> r[k] == h.adapters[team[k]]
  {
    seq(|team|, k requires 0 <= k < |team| => h.adapters[team[k]])
  }

  /** The driver records the value as its setting, whether or not it puts it in force. */
  function Written(h: Host, i: nat, value: string): Host
    requires i < |h.adapters| == |h.writes|
  {
    h.(adapters := h.adapters[i := h.adapters[i].(setting := value)], writes := h.writes[i := h.writes[i] + 1])
  }

  /** The first n adapters of the team, as the plan made from obs has them written; the
      script is cut before the write numbered cut. */
  function Applied(h: Host, team: seq<nat>, obs: seq<Adapter>, want: int, cut: nat, n: nat): (r: Host)
    requires n <= |team| == |obs| && |h.adapters| == |h.writes| && OnHost(team, h)
    ensures |r.adapters| == |h.adapters| && |r.writes| == |h.writes|
  {
    if n == 0 then h
    else
      var before := Applied(h, team, obs, want, cut, n - 1);
      match Judged(obs[n - 1], want)
      case Write(v, _) => if |Applies(obs[..n - 1], want)| < cut then Written(before, team[n - 1], v) else before
      case _ => before
  }

  function Passed(h: Host, team: seq<nat>, want: int, cut: nat): (r: Host)
    requires ValidHost(h) && OnHost(team, h)
    ensures |r.adapters| == |h.adapters| && |r.writes| == |h.writes|
  {
    if want <= 0 then h else Applied(h, team, Observed(h, team), want, cut, |team|)
  }

  lemma AppliedNext(h: Host, team: seq<nat>, obs: seq<Adapter>, want: int, cut: nat, n: nat, before: Host, k: nat)
    requires n < |team| == |obs| && |h.adapters| == |h.writes| && OnHost(team, h)
    requires before == Applied(h, team, obs, want, cut, n) && k == |Applies(obs[..n], want)|
    ensures Applied(h, team, obs, want, cut, n + 1)
         == if Judged(obs[n], want).Write? && k < cut then Written(before, team[n], Judged(obs[n], want).value) else before
  {
  }

  datatype Outcome = Unchanged | Updated

  /** Refused adapters are an error too, made after what could be written was. */
  datatype Error = NoError | ScriptFailed | RefusedFor(names: seq<string>)

  class Machine {
    var adapters: seq<Adapter>
    ghost var writes: seq<nat>

    ghost function Contents(): Host
      reads this
    {
      Host(adapters, writes)
    }

    constructor (h: Host)
      ensures Contents() == h
    {
      adapters, writes := h.adapters, h.writes;
    }

    /** The script: one write after another. */
    method ApplyAll(team: seq<nat>, obs: seq<Adapter>, want: int, cut: nat)
      requires |adapters| == |writes| && |team| == |obs| && OnHost(team, Contents())
      modifies this
      ensures Contents() == Applied(old(Contents()), team, obs, want, cut, |team|)
    {
      ghost var was := Contents();
      var k := 0;
      for n := 0 to |team|
        invariant |adapters| == |writes| == |was.adapters|
        invariant k == |Applies(obs[..n], want)|
        invariant Contents() == Applied(was, team, obs, want, cut, n)
      {
        PlanNext(obs, want, n);
        AppliedNext(was, team, obs, want, cut, n, Contents(), k);
        var verdict := Judged(obs[n], want);
        if verdict.Write? {
          if k < cut {
            adapters := adapters[team[n] := adapters[team[n]].(setting := verdict.value)];
            writes := writes[team[n] := writes[team[n]] + 1];
          }
          k := k + 1;
        }
      }
    }

    method EnsureAdapterMtu(team: seq<nat>, want: int, cut: nat) returns (out: Outcome, err: Error)
      requires ValidHost(Contents()) && OnHost(team, Contents())
      modifies this
      ensures Contents() == Passed(old(Contents()), team, want, cut)
      ensures var obs := Observed(old(Contents()), team);
              && (err == ScriptFailed <==> want > 0 && |Applies(obs, want)| > cut)
              && (out == Updated <==> err != ScriptFailed && want > 0 && Applies(obs, want) != [])
              && (err == NoError <==> want <= 0 || (|Applies(obs, want)| <= cut && Refusals(obs, want) == []))
              && (err.RefusedFor? ==> err.names == Refusals(obs, want))
    {
      if want <= 0 || |team| == 0 {
        return Unchanged, NoError;
      }
      var listed := adapters;
      var obs := seq(|team|, k requires 0 <= k < |team| => listed[team[k]]);
      assert obs == Observed(Contents(), team);
      var apply, refusals := PlanAdapterMtu(obs, want);
      ApplyAll(team, obs, want, cut);
      if |apply| > cut {
        return Unchanged, ScriptFailed;
      }
      return if |apply| > 0 then Updated else Unchanged, if refusals == [] then NoError else RefusedFor(refusals);
    }
  }

  // ---- a link is bounced at most once -------------------------------------

  predicate DistinctTeam(team: seq<nat>) {
    forall j, k :: 0 <= j < k < |team| ==> team[j] != team[k]
  }

  lemma {:induction false} UntouchedOutside(h: Host, team: seq<nat>, obs: seq<Adapter>, want: int, cut: nat, n: nat, i: nat)
    requires n <= |team| == |obs| && |h.adapters| == |h.writes| && OnHost(team, h) && i < |h.adapters|
    requires forall k :: 0 <= k < n ==> team[k] != i
    ensures Applied(h, team, obs, want, cut, n).adapters[i] == h.adapters[i]
    ensures Applied(h, team, obs, want, cut, n).writes[i] == h.writes[i]
  {
    if n > 0 {
      UntouchedOutside(h, team, obs, want, cut, n - 1, i);
    }
  }

  /** In one pass an adapter is written at most once, only if its plan said so, and then
      its driver has the planned value selected. */
  lemma {:induction false} OnePassWrites(h: Host, team: seq<nat>, obs: seq<Adapter>, want: int, cut: nat, n: nat, i: nat)
    requires n <= |team| == |obs| && |h.adapters| == |h.writes| && OnHost(team, h) && i < |h.adapters| && DistinctTeam(team)
    requires forall k :: 0 <= k < |team| ==> obs[k] == h.adapters[team[k]]
    ensures var h' := Applied(h, team, obs, want, cut, n);
            || (h'.adapters[i] == h.adapters[i] && h'.writes[i] == h.writes[i])
            || (Judged(h.adapters[i], want).Write? && h'.writes[i] == h.writes[i] + 1
                && h'.adapters[i] == h.adapters[i].(setting := Judged(h.adapters[i], want).value))
  {
    if n > 0 {
      if team[n - 1] == i {
        UntouchedOutside(h, team, obs, want, cut, n - 1, i);
      } else {
        OnePassWrites(h, team, obs, want, cut, n - 1, i);
      }
    }
  }

  /** Anything may change between passes but what a driver offers and has selected. */
  predicate SameDriver(a: Adapter, b: Adapter) {
    b.name == a.name && b.setting == a.setting && b.values == a.values && b.min == a.min && b.max == a.max && b.step == a.step
  }

  predicate Drifts(h: Host, h': Host) {
    |h'.adapters| == |h.adapters| && h'.writes == h.writes && forall i :: 0 <= i < |h.adapters| ==> SameDriver(h.adapters[i], h'.adapters[i])
  }

  /** Adapter i has not been written, or it has been once and has the chosen value
      selected, which no verdict writes again. */
  predicate Bounced(h: Host, want: int, i: nat)
    requires i < |h.adapters| == |h.writes|
  {
    h.writes[i] == 0 || (h.writes[i] == 1 && Selected(h.adapters[i], want))
  }

  lemma PassKeepsBounced(h: Host, team: seq<nat>, want: int, cut: nat, i: nat)
    requires ValidHost(h) && OnHost(team, h) && DistinctTeam(team) && i < |h.adapters| && Bounced(h, want, i)
    ensures Bounced(Passed(h, team, want, cut), want, i)
  {
    if want > 0 {
      OnePassWrites(h, team, Observed(h, team), want, cut, |team|, i);
      var a, a' := h.adapters[i], Passed(h, team, want, cut).adapters[i];
      if a' != a {
        assert Chosen(a', want) == Chosen(a, want);
      }
    }
  }

  /** A run: the host before each pass and after the last, changing as it may in between. */
  datatype Step = Step(team: seq<nat>, cut: nat)

  ghost predicate Run(states: seq<Host>, steps: seq<Step>, want: int) {
    && |states| == |steps| + 1
    && forall k :: 0 <= k < |steps| ==>
         && ValidHost(states[k]) && OnHost(steps[k].team, states[k]) && DistinctTeam(steps[k].team)
         && Drifts(Passed(states[k], steps[k].team, want, steps[k].cut), states[k + 1])
  }

  /** For a fixed want and drivers that record what is selected, each adapter is written
      at most once in any run of passes - cut short or not, in force or not. */
  lemma {:induction false} WrittenAtMostOnce(states: seq<Host>, steps: seq<Step>, want: int, n: nat, i: nat)
    requires Run(states, steps, want) && n <= |steps| && i < |states[0].adapters| == |states[0].writes| && states[0].writes[i] == 0
    ensures i < |states[n].adapters| == |states[n].writes| && Bounced(states[n], want, i)
    ensures states[n].writes[i] <= 1
  {
    if n > 0 {
      WrittenAtMostOnce(states, steps, want, n - 1, i);
      var h, s := states[n - 1], steps[n - 1];
      PassKeepsBounced(h, s.team, want, s.cut, i);
      var p := Passed(h, s.team, want, s.cut);
      assert SameDriver(p.adapters[i], states[n].adapters[i]);
    }
  }

  /** An adapter named twice in one team is written twice in one pass: the plan is made
      before anything is written. */
  lemma NamedTwiceWrittenTwice(h: Host, want: int, i: nat)
    requires ValidHost(h) && i < |h.adapters| && want > 0 && Judged(h.adapters[i], want).Write?
    ensures Passed(h, [i, i], want, 2).writes[i] == h.writes[i] + 2
  {
    var obs := Observed(h, [i, i]);
    assert obs[..0] == [] && obs[..1] == [h.adapters[i]] && obs[..1][..0] == [];
    assert Applied(h, [i, i], obs, want, 2, 0) == h;
    assert |Applies(obs[..1], want)| == 1;
    var h1 := Applied(h, [i, i], obs, want, 2, 1);
    assert h1.writes[i] == h.writes[i] + 1;
  }

  /** The pass writes every adapter whose plan says so, in the team's order, up to the cut and
      not beyond it. */
  lemma {:induction false} WritesExactly(h: Host, team: seq<nat>, obs: seq<Adapter>, want: int, cut: nat, n: nat, k: nat)
    requires k < n <= |team| == |obs| && |h.adapters| == |h.writes| && OnHost(team, h) && DistinctTeam(team)
    ensures var h', v, i := Applied(h, team, obs, want, cut, n), Judged(obs[k], want), team[k];
            && h'.writes[i] == h.writes[i] + (if v.Write? && |Applies(obs[..k], want)| < cut then 1 else 0)
            && h'.adapters[i] == (if v.Write? && |Applies(obs[..k], want)| < cut then h.adapters[i].(setting := v.value) else h.adapters[i])
  {
    if k < n - 1 {
      WritesExactly(h, team, obs, want, cut, n - 1, k);
    } else {
      UntouchedOutside(h, team, obs, want, cut, n - 1, team[k]);
    }
  }
}
