/** Option, the result of a look-up or a reading that may find nothing. */
module Wrappers {
  datatype Option<+T> = None | Some(value: T)
}

/** The string conventions the agent and PowerShell share: case-insensitive
    comparison, trimming, decimal numbers and the joining of parts.
    Letters are folded over A-Z only. */
module Text {
  import opened Wrappers

  // ---- case ---------------------------------------------------------------

  function LowerChar(c: char): char {
    if 'A' <= c <= 'Z' then ((c as int) + 32) as char else c
  }

  function Lower(s: string): (r: string)
    ensures |r| == |s|
  {
    seq(|s|, i requires 0 <= i < |s| => LowerChar(s[i]))
  }

  /** PowerShell's -eq and -contains, and Go's strings.EqualFold. */
  predicate Same(a: string, b: string) {
    Lower(a) == Lower(b)
  }

  lemma LowerIdempotent(s: string)
    ensures Lower(Lower(s)) == Lower(s)
  {
  }

  predicate ContainsSame(items: seq<string>, x: string) {
    exists i :: 0 <= i < |items| && Same(items[i], x)
  }

  /** The name a list holds for something asked for without regard to case. */
  function FindSame(names: seq<string>, name: string): Option<string> {
    if names == [] then None
    else if Same(names[0], name) then Some(names[0])
    else FindSame(names[1..], name)
  }

  lemma {:induction false} FindIsSame(names: seq<string>, name: string)
    ensures FindSame(names, name).Some? ==> FindSame(names, name).value in names && Same(FindSame(names, name).value, name)
  {
    if names != [] {
      FindIsSame(names[1..], name);
    }
  }

  lemma {:induction false} FindStops(names: seq<string>, a: string, b: string)
    requires Same(a, b)
    ensures FindSame(names, a) == FindSame(names, b)
  {
    if names != [] {
      FindStops(names[1..], a, b);
    }
  }

  // ---- white space --------------------------------------------------------

  /** The Unicode White_Space property, which unicode.IsSpace and .Trim() use. */
  predicate IsSpace(c: char) {
    || '\t' <= c <= '\r'
    || c in {' ', '\U{0085}', '\U{00A0}', '\U{1680}', '\U{2028}', '\U{2029}', '\U{202F}', '\U{205F}', '\U{3000}'}
    || '\U{2000}' <= c <= '\U{200A}'
  }

  function TrimLeft(s: string): string {
    if s != "" && IsSpace(s[0]) then TrimLeft(s[1..]) else s
  }

  function TrimRight(s: string): string {
    if s != "" && IsSpace(s[|s| - 1]) then TrimRight(s[..|s| - 1]) else s
  }

  function Trim(s: string): string {
    TrimRight(TrimLeft(s))
  }

  predicate AllSpace(s: string) {
    forall i :: 0 <= i < |s| ==> IsSpace(s[i])
  }

  predicate Trimmed(s: string) {
    s == "" || (!IsSpace(s[0]) && !IsSpace(s[|s| - 1]))
  }

  lemma {:induction false} TrimLeftPad(pad: string, s: string)
    requires AllSpace(pad)
    ensures TrimLeft(pad + s) == TrimLeft(s)
  {
    if pad == "" {
      assert pad + s == s;
    } else {
      assert (pad + s)[1..] == pad[1..] + s;
      TrimLeftPad(pad[1..], s);
    }
  }

  lemma {:induction false} TrimRightPad(s: string, pad: string)
    requires AllSpace(pad)
    ensures TrimRight(s + pad) == TrimRight(s)
  {
    if pad == "" {
      assert s + pad == s;
    } else {
      assert (s + pad)[..|s + pad| - 1] == s + pad[..|pad| - 1];
      TrimRightPad(s, pad[..|pad| - 1]);
    }
  }

  /** Trimming removes exactly the padding around a trimmed text. */
  lemma TrimPadded(left: string, s: string, right: string)
    requires AllSpace(left) && AllSpace(right) && Trimmed(s)
    ensures Trim(left + s + right) == s
  {
    if s == "" {
      TrimLeftPad(left + right, "");
      assert left + s + right == (left + right) + "";
    } else {
      assert left + s + right == left + (s + right);
      TrimLeftPad(left, s + right);
      assert TrimLeft(s + right) == s + right;
      TrimRightPad(s, right);
    }
  }

  predicate Blank(s: string) {
    Trim(s) == ""
  }

  // ---- joining ------------------------------------------------------------

  function Join(parts: seq<string>, sep: string): string {
    if |parts| == 0 then "" else
    if |parts| == 1 then parts[0] else parts[0] + sep + Join(parts[1..], sep)
  }

  lemma Reassociate(a: string, b: string, c: string, d: string)
    ensures ((a + b) + c) + d == a + (b + (c + d))
  {
  }

  predicate StartsWith(s: string, prefix: string) {
    |prefix| <= |s| && s[..|prefix|] == prefix
  }

  // ---- decimal numbers ----------------------------------------------------

  predicate IsDigit(c: char) {
    '0' <= c <= '9'
  }

  function Digit(d: nat): char
    requires d < 10
  {
    ['0', '1', '2', '3', '4', '5', '6', '7', '8', '9'][d]
  }

  function DigitValue(c: char): nat
    requires IsDigit(c)
  {
    (c as int) - ('0' as int)
  }

  lemma DigitRoundTrip(d: nat)
    requires d < 10
    ensures IsDigit(Digit(d)) && DigitValue(Digit(d)) == d
  {
  }

  function NatText(n: nat): (r: string)
    ensures |r| > 0
  {
    if n < 10 then [Digit(n)] else NatText(n / 10) + [Digit(n % 10)]
  }

  /** Go's %d. */
  function IntText(n: int): (r: string)
    ensures |r| > 0
  {
    if n < 0 then "-" + NatText(-n) else NatText(n)
  }

  /** The number the leading digits of t spell, continuing from acc. */
  function ReadDigits(t: string, acc: nat): (r: (nat, string))
    ensures |r.1| <= |t|
  {
    if t != "" && IsDigit(t[0]) then ReadDigits(t[1..], acc * 10 + DigitValue(t[0])) else (acc, t)
  }

  function ReadInt(t: string): (r: Option<(int, string)>)
    ensures r.Some? ==> |r.value.1| < |t|
  {
    if t != "" && IsDigit(t[0]) then
      var (n, rest) := ReadDigits(t[1..], DigitValue(t[0]));
      Some((n, rest))
    else if |t| > 1 && t[0] == '-' && IsDigit(t[1]) then
      var (n, rest) := ReadDigits(t[2..], DigitValue(t[1]));
      Some((0 - n as int, rest))
    else
      None
  }

  function Power10(k: nat): nat {
    if k == 0 then 1 else 10 * Power10(k - 1)
  }

  lemma ShiftDigit(acc: nat, p: nat, n: nat)
    ensures (acc * p + n / 10) * 10 + n % 10 == acc * (10 * p) + n
  {
    assert (acc * p) * 10 == acc * (10 * p);
  }

  lemma {:induction false} AllDigits(n: nat)
    ensures forall i :: 0 <= i < |NatText(n)| ==> IsDigit(NatText(n)[i])
  {
    if n < 10 {
      DigitRoundTrip(n);
    } else {
      AllDigits(n / 10);
      DigitRoundTrip(n % 10);
    }
  }

  lemma ReadOneDigit(d: nat, acc: nat, rest: string)
    requires d < 10
    ensures ReadDigits([Digit(d)] + rest, acc) == ReadDigits(rest, acc * 10 + d)
  {
    DigitRoundTrip(d);
    assert ([Digit(d)] + rest)[1..] == rest;
  }

  lemma {:induction false} ReadDigitsText(n: nat, acc: nat, rest: string)
    ensures ReadDigits(NatText(n) + rest, acc) == ReadDigits(rest, acc * Power10(|NatText(n)|) + n)
    decreases n
  {
    if n < 10 {
      ReadOneDigit(n, acc, rest);
      assert Power10(1) == 10 * Power10(0) == 10;
    } else {
      var last, head := Digit(n % 10), NatText(n / 10);
      ReadDigitsText(n / 10, acc, [last] + rest);
      assert NatText(n) + rest == head + ([last] + rest);
      ReadOneDigit(n % 10, acc * Power10(|head|) + n / 10, rest);
      ShiftDigit(acc, Power10(|head|), n);
    }
  }

  lemma ReadFirstDigit(t: string)
    requires t != "" && IsDigit(t[0])
    ensures ReadDigits(t, 0) == ReadDigits(t[1..], DigitValue(t[0]))
  {
  }

  lemma ReadsNothing(rest: string, acc: nat)
    requires rest == "" || !IsDigit(rest[0])
    ensures ReadDigits(rest, acc) == (acc, rest)
  {
  }

  /** The first digit taken, the others follow it. */
  lemma NatReads(n: nat, rest: string)
    requires rest == "" || !IsDigit(rest[0])
    ensures var t := NatText(n) + rest;
            IsDigit(t[0]) && ReadDigits(t[1..], DigitValue(t[0])) == (n, rest)
  {
    var t := NatText(n) + rest;
    AllDigits(n);
    assert t[0] == NatText(n)[0];
    ReadDigitsText(n, 0, rest);
    ReadsNothing(rest, n);
    ReadFirstDigit(t);
  }

  lemma ReadsPositive(t: string)
    requires t != "" && IsDigit(t[0])
    ensures var (n, rest) := ReadDigits(t[1..], DigitValue(t[0])); ReadInt(t) == Some((n, rest))
  {
  }

  lemma ReadsNegative(t: string)
    requires t != "" && IsDigit(t[0])
    ensures var (n, rest) := ReadDigits(t[1..], DigitValue(t[0])); ReadInt("-" + t) == Some((0 - n as int, rest))
  {
    var s := "-" + t;
    assert s[0] == '-' && s[1] == t[0] && s[2..] == t[1..];
  }

  /** Reading a printed number gives the number back, whatever non-digit follows. */
  lemma IntRoundTrip(n: int, rest: string)
    requires rest == "" || !IsDigit(rest[0])
    ensures ReadInt(IntText(n) + rest) == Some((n, rest))
  {
    if n < 0 {
      NatReads(-n, rest);
      ReadsNegative(NatText(-n) + rest);
      assert IntText(n) + rest == "-" + (NatText(-n) + rest);
    } else {
      NatReads(n, rest);
      ReadsPositive(NatText(n) + rest);
    }
  }
}
