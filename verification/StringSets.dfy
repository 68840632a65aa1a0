/** Comparing two lists as sets: sort copies, compact them in place, compare. */
module StringSets {
  import opened Ordering

  /** A list with each run of equal neighbours cut down to one. */
  function Compact(s: seq<string>): seq<string> {
    if |s| < 2 then s
    else if s[|s| - 1] == s[|s| - 2] then Compact(s[..|s| - 1])
    else Compact(s[..|s| - 1]) + [s[|s| - 1]]
  }

  lemma {:induction false} CompactBasics(s: seq<string>)
    ensures |Compact(s)| <= |s|
    ensures Elements(Compact(s)) == Elements(s)
    ensures s != [] ==> Compact(s) != [] && Compact(s)[|Compact(s)| - 1] == s[|s| - 1]
  {
    if |s| >= 2 {
      var front := s[..|s| - 1];
      CompactBasics(front);
      assert s == front + [s[|s| - 1]];
      forall x ensures x in Compact(s) <==> x in s {
        assert x in Compact(front) <==> x in Elements(Compact(front));
        assert x in front <==> x in Elements(front);
        assert front[|s| - 2] in front;
      }
    }
  }

  /** Compacting a sorted list leaves the strictly increasing listing of its elements. */
  lemma {:induction false} CompactOfSorted(s: seq<string>)
    requires Sorted(s)
    ensures StrictlySorted(Compact(s)) && Elements(Compact(s)) == Elements(s)
  {
    CompactBasics(s);
    if |s| >= 2 {
      var front, last := s[..|s| - 1], s[|s| - 1];
      var c := Compact(front);
      CompactOfSorted(front);
      CompactBasics(front);
      if last != s[|s| - 2] {
        forall i | 0 <= i < |c| ensures Less(c[i], last) {
          assert c[i] in Elements(front);
          var j :| 0 <= j < |front| && front[j] == c[i];
          BelowLast(s, j);
        }
      }
    }
  }

  lemma BelowLast(s: seq<string>, j: nat)
    requires Sorted(s) && j < |s| - 1 && s[|s| - 1] != s[|s| - 2]
    ensures Less(s[j], s[|s| - 1])
  {
    LessTotal(s[j], s[|s| - 1]);
    LessTotal(s[|s| - 2], s[|s| - 1]);
  }

  /** dedup reuses the storage it is given: the kept elements move to the front,
      everything behind them stays as it was. */
  method Dedup(sorted: array<string>) returns (n: nat)
    modifies sorted
    ensures n <= sorted.Length
    ensures sorted[..n] == Compact(old(sorted[..]))
    ensures sorted[n..] == old(sorted[..])[n..]
  {
    ghost var was := sorted[..];
    n := 0;
    var last := "";
    for i := 0 to sorted.Length
      invariant n <= i
      invariant sorted[..n] == Compact(was[..i])
      invariant forall j :: n <= j < sorted.Length ==> sorted[j] == was[j]
      invariant i > 0 ==> last == was[i - 1]
    {
      var s := sorted[i];
      assert was[..i + 1][..i] == was[..i];
      if i == 0 || s != last {
        sorted[n] := s;
        assert sorted[..n + 1] == sorted[..n] + [s];
        n := n + 1;
      }
      last := s;
    }
    assert was[..sorted.Length] == was;
  }

  lemma SameExactlyWhen(a: seq<string>, b: seq<string>)
    ensures Compact(Sort(a)) == Compact(Sort(b)) <==> Elements(a) == Elements(b)
  {
    SortKeeps(a);
    SortKeeps(b);
    CompactOfSorted(Sort(a));
    CompactOfSorted(Sort(b));
    if Elements(a) == Elements(b) {
      StrictListingUnique(Compact(Sort(a)), Compact(Sort(b)));
    }
  }

  method Copied(a: seq<string>) returns (copy: array<string>)
    ensures fresh(copy) && copy[..] == a
  {
    copy := new string[|a|](i requires 0 <= i < |a| => a[i]);
    assert copy[..] == a;
  }

  method SameFront(left: array<string>, right: array<string>, n: nat) returns (same: bool)
    requires n <= left.Length && n <= right.Length
    ensures same <==> left[..n] == right[..n]
  {
    for i := 0 to n
      invariant left[..i] == right[..i]
    {
      if left[i] != right[i] {
        assert left[..n][i] != right[..n][i];
        return false;
      }
    }
    return true;
  }

  /** sameStringSet ignores order and repetition and nothing else; the lists it
      compares are left alone. */
  method SameStringSet(a: seq<string>, b: seq<string>) returns (same: bool)
    ensures same <==> Elements(a) == Elements(b)
  {
    var left := Copied(a);
    var right := Copied(b);
    SortStrings(left);
    SortStrings(right);
    var m := Dedup(left);
    var n := Dedup(right);
    SameExactlyWhen(a, b);
    assert left[..m] == Compact(Sort(a)) && right[..n] == Compact(Sort(b));
    if m != n {
      return false;
    }
    same := SameFront(left, right, m);
  }
}
