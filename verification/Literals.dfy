/** The printers every generated script rests on, and the PowerShell reader they
    have to agree with: single-quoted literals, comma lists and hash tables. */
module Literals {
  import opened Wrappers
  import opened Text
  import opened Ordering

  const QUOTE: char := '\''

  // ---- one literal --------------------------------------------------------

  function Escape(s: string): string {
    if s == "" then ""
    else (if s[0] == QUOTE then [QUOTE, QUOTE] else [s[0]]) + Escape(s[1..])
  }

  function PsQuote(s: string): string {
    [QUOTE] + Escape(s) + [QUOTE]
  }

  /** The reader, after the opening quote: a doubled quote stands for one, a
      single one ends the literal. */
  function ReadBody(t: string): (r: Option<(string, string)>)
    ensures r.Some? ==> |r.value.1| < |t|
  {
    if t == "" then None
    else if t[0] != QUOTE then Prepend([t[0]], ReadBody(t[1..]))
    else if |t| > 1 && t[1] == QUOTE then Prepend([QUOTE], ReadBody(t[2..]))
    else Some(("", t[1..]))
  }

  function Prepend(s: string, r: Option<(string, string)>): Option<(string, string)> {
    match r
    case None => None
    case Some((text, rest)) => Some((s + text, rest))
  }

  function ReadLiteral(t: string): (r: Option<(string, string)>)
    ensures r.Some? ==> |r.value.1| < |t|
  {
    if t == "" || t[0] != QUOTE then None else ReadBody(t[1..])
  }

  predicate OpensWithQuote(t: string) {
    t != "" && t[0] == QUOTE
  }

  lemma {:induction false} ReadEscaped(s: string, t: string)
    ensures ReadBody(Escape(s) + t) == Prepend(s, ReadBody(t))
  {
    if s == "" {
      assert Escape(s) + t == t;
      PrependNothing(ReadBody(t));
    } else {
      ReadEscaped(s[1..], t);
      var tail := Escape(s[1..]) + t;
      assert s == [s[0]] + s[1..];
      if s[0] == QUOTE {
        assert Escape(s) + t == [QUOTE, QUOTE] + tail;
        assert ([QUOTE, QUOTE] + tail)[2..] == tail;
      } else {
        assert Escape(s) + t == [s[0]] + tail;
        assert ([s[0]] + tail)[1..] == tail;
      }
      PrependTwice([s[0]], s[1..], ReadBody(t));
    }
  }

  lemma PrependNothing(r: Option<(string, string)>)
    ensures Prepend("", r) == r
  {
    if r.Some? {
      assert "" + r.value.0 == r.value.0;
    }
  }

  lemma PrependTwice(a: string, b: string, r: Option<(string, string)>)
    ensures Prepend(a, Prepend(b, r)) == Prepend(a + b, r)
  {
    if r.Some? {
      assert a + (b + r.value.0) == (a + b) + r.value.0;
    }
  }

  /** Reading a printed literal gives the text and what follows exactly when what
      follows does not open with another quote. */
  lemma LiteralRoundTrip(s: string, rest: string)
    ensures ReadLiteral(PsQuote(s) + rest) == Some((s, rest)) <==> !OpensWithQuote(rest)
  {
    var closing := [QUOTE] + rest;
    assert (PsQuote(s) + rest)[1..] == Escape(s) + closing;
    ReadEscaped(s, closing);
    if OpensWithQuote(rest) {
      assert closing[2..] == rest[1..];
    } else {
      assert closing[1..] == rest;
      assert s + "" == s;
    }
  }

  /** Two texts that print alike are the same text. */
  lemma QuoteInjective(s: string, t: string)
    requires PsQuote(s) == PsQuote(t)
    ensures s == t
  {
    LiteralRoundTrip(s, "");
    LiteralRoundTrip(t, "");
  }

  // ---- a comma list -------------------------------------------------------

  function Quoted(items: seq<string>): (q: seq<string>)
    ensures |q| == |items|
  {
    seq(|items|, i requires 0 <= i < |items| => PsQuote(items[i]))
  }

  function RenderList(items: seq<string>): string {
    Join(Quoted(items), ",")
  }

  method PsStringList(items: seq<string>) returns (text: string)
    ensures text == RenderList(items)
  {
    var quoted := new string[|items|];
    for i := 0 to |items|
      invariant forall j :: 0 <= j < i ==> quoted[j] == PsQuote(items[j])
    {
      quoted[i] := PsQuote(items[i]);
    }
    assert quoted[..] == Quoted(items);
    text := Join(quoted[..], ",");
  }

  function ReadMore(t: string): Option<(seq<string>, string)>
    decreases |t|
  {
    match ReadLiteral(t)
    case None => None
    case Some((s, rest)) =>
      if rest != "" && rest[0] == ',' then
        match ReadMore(rest[1..])
        case None => None
        case Some((more, after)) => Some(([s] + more, after))
      else Some(([s], rest))
  }

  /** A possibly empty comma list of literals. */
  function ReadList(t: string): Option<(seq<string>, string)> {
    if OpensWithQuote(t) then ReadMore(t) else Some(([], t))
  }

  predicate ContinuesList(t: string) {
    t != "" && (t[0] == ',' || t[0] == QUOTE)
  }

  lemma {:induction false} ReadMoreRoundTrip(items: seq<string>, rest: string)
    requires items != [] && !ContinuesList(rest)
    ensures ReadMore(RenderList(items) + rest) == Some((items, rest))
  {
    var head := PsQuote(items[0]);
    if |items| == 1 {
      assert RenderList(items) == head;
      LiteralRoundTrip(items[0], rest);
      assert items == [items[0]];
    } else {
      var tail := RenderList(items[1..]) + rest;
      assert Quoted(items)[1..] == Quoted(items[1..]);
      assert RenderList(items) + rest == head + ([','] + tail);
      LiteralRoundTrip(items[0], [','] + tail);
      assert ([','] + tail)[1..] == tail;
      ReadMoreRoundTrip(items[1..], rest);
      assert items == [items[0]] + items[1..];
    }
  }

  /** A list of any length, the empty one included, reads back whole. */
  lemma ListRoundTrip(items: seq<string>, rest: string)
    requires !ContinuesList(rest)
    ensures ReadList(RenderList(items) + rest) == Some((items, rest))
  {
    if items == [] {
      assert RenderList(items) + rest == rest;
    } else {
      ReadMoreRoundTrip(items, rest);
      assert RenderList(items)[0] == QUOTE by {
        assert Quoted(items)[0][0] == QUOTE;
      }
    }
  }

  // ---- a hash table -------------------------------------------------------

  datatype Cell = Str(text: string) | Num(number: int)

  function RenderCell(v: Cell): string {
    match v
    case Str(s) => PsQuote(s)
    case Num(n) => IntText(n)
  }

  function RenderEntry(key: string, v: Cell): string {
    PsQuote(key) + " = " + RenderCell(v)
  }

  function RenderEntries(rows: seq<(string, Cell)>): string {
    if rows == [] then ""
    else if |rows| == 1 then RenderEntry(rows[0].0, rows[0].1)
    else RenderEntry(rows[0].0, rows[0].1) + "; " + RenderEntries(rows[1..])
  }

  function RenderTable(rows: seq<(string, Cell)>): string {
    "@{" + RenderEntries(rows) + "}"
  }

  function ReadCell(t: string): (r: Option<(Cell, string)>)
    ensures r.Some? ==> |r.value.1| < |t|
  {
    if OpensWithQuote(t) then
      match ReadLiteral(t)
      case None => None
      case Some((s, rest)) => Some((Str(s), rest))
    else
      match ReadInt(t)
      case None => None
      case Some((n, rest)) => Some((Num(n), rest))
  }

  function ReadEntry(t: string): (r: Option<((string, Cell), string)>)
    ensures r.Some? ==> |r.value.1| < |t|
  {
    match ReadLiteral(t)
    case None => None
    case Some((key, rest)) =>
      if !StartsWith(rest, " = ") then None else
      match ReadCell(rest[3..])
      case None => None
      case Some((v, after)) => Some(((key, v), after))
  }

  function ReadEntries(t: string): Option<(seq<(string, Cell)>, string)>
    decreases |t|
  {
    match ReadEntry(t)
    case None => None
    case Some((row, rest)) =>
      if StartsWith(rest, "}") then Some(([row], rest[1..]))
      else if !StartsWith(rest, "; ") then None else
      match ReadEntries(rest[2..])
      case None => None
      case Some((more, after)) => Some(([row] + more, after))
  }

  function ReadRows(t: string): Option<(seq<(string, Cell)>, string)> {
    if !StartsWith(t, "@{") then None
    else if StartsWith(t[2..], "}") then Some(([], t[3..]))
    else ReadEntries(t[2..])
  }

  lemma CellRoundTrip(v: Cell, rest: string)
    requires rest != "" && rest[0] != QUOTE && !IsDigit(rest[0])
    ensures ReadCell(RenderCell(v) + rest) == Some((v, rest))
  {
    match v {
      case Str(s) => LiteralRoundTrip(s, rest);
      case Num(n) => IntRoundTrip(n, rest);
    }
  }

  lemma KeyRoundTrip(key: string, cell: string)
    ensures ReadEntry(PsQuote(key) + (" = " + cell))
         == match ReadCell(cell) case None => None case Some((v, after)) => Some(((key, v), after))
  {
    var rest := " = " + cell;
    LiteralRoundTrip(key, rest);
    assert rest[3..] == cell && rest[..3] == " = ";
  }

  lemma EntryRoundTrip(key: string, v: Cell, rest: string)
    requires rest != "" && rest[0] != QUOTE && !IsDigit(rest[0])
    ensures ReadEntry(RenderEntry(key, v) + rest) == Some(((key, v), rest))
  {
    EntrySplits(PsQuote(key), " = ", RenderCell(v), rest);
    KeyRoundTrip(key, RenderCell(v) + rest);
    CellRoundTrip(v, rest);
  }

  lemma EntrySplits(key: string, equals: string, cell: string, rest: string)
    ensures (key + equals + cell) + rest == key + (equals + (cell + rest))
  {
    Reassociate(key, equals, cell, rest);
  }

  lemma LastEntry(row: (string, Cell), rest: string)
    ensures ReadEntries(RenderEntry(row.0, row.1) + ("}" + rest)) == Some(([row], rest))
  {
    var after := "}" + rest;
    EntryRoundTrip(row.0, row.1, after);
    assert after[1..] == rest && after[..1] == "}";
  }

  lemma NextEntry(row: (string, Cell), tail: string, more: seq<(string, Cell)>, rest: string)
    requires ReadEntries(tail) == Some((more, rest))
    ensures ReadEntries(RenderEntry(row.0, row.1) + ("; " + tail)) == Some(([row] + more, rest))
  {
    var after := "; " + tail;
    EntryRoundTrip(row.0, row.1, after);
    assert after[..2] == "; " && after[2..] == tail && after[..1] == ";";
  }

  lemma EntriesTurn(rows: seq<(string, Cell)>, tail: string, rest: string)
    requires |rows| > 1 && tail == RenderEntries(rows[1..]) + ("}" + rest)
    requires ReadEntries(tail) == Some((rows[1..], rest))
    ensures ReadEntries(RenderEntries(rows) + ("}" + rest)) == Some((rows, rest))
  {
    NextEntry(rows[0], tail, rows[1..], rest);
    Reassociate(RenderEntry(rows[0].0, rows[0].1), "; ", RenderEntries(rows[1..]), "}" + rest);
    assert rows == [rows[0]] + rows[1..];
  }

  lemma {:induction false} EntriesRoundTrip(rows: seq<(string, Cell)>, rest: string)
    requires rows != []
    ensures ReadEntries(RenderEntries(rows) + ("}" + rest)) == Some((rows, rest))
  {
    if |rows| == 1 {
      LastEntry(rows[0], rest);
      assert rows == [rows[0]];
    } else {
      EntriesRoundTrip(rows[1..], rest);
      EntriesTurn(rows, RenderEntries(rows[1..]) + ("}" + rest), rest);
    }
  }

  /** A printed hash table reads back row for row, whatever follows it. */
  lemma TableRoundTrip(rows: seq<(string, Cell)>, rest: string)
    ensures ReadRows(RenderTable(rows) + rest) == Some((rows, rest))
  {
    var body := RenderEntries(rows) + ("}" + rest);
    assert RenderTable(rows) + rest == "@{" + body;
    assert ("@{" + body)[..2] == "@{" && ("@{" + body)[2..] == body;
    if rows == [] {
      assert body == "}" + rest;
      assert ("@{" + body)[3..] == rest;
    } else {
      EntriesRoundTrip(rows, rest);
      assert body[0] == QUOTE by {
        assert RenderEntry(rows[0].0, rows[0].1)[0] == QUOTE;
      }
    }
  }

  // ---- the table PowerShell builds from the rows --------------------------

  predicate KeysCollide(rows: seq<(string, Cell)>) {
    exists i, j :: 0 <= i < j < |rows| && Same(rows[i].0, rows[j].0)
  }

  /** A hash literal that names one key twice, in any case, is refused. */
  function Evaluate(rows: seq<(string, Cell)>): Option<map<string, Cell>> {
    if KeysCollide(rows) then None else Some(RowMap(rows))
  }

  function RowMap(rows: seq<(string, Cell)>): map<string, Cell> {
    if rows == [] then map[] else RowMap(rows[..|rows| - 1])[rows[|rows| - 1].0 := rows[|rows| - 1].1]
  }

  function ReadTable(t: string): Option<map<string, Cell>> {
    match ReadRows(t)
    case None => None
    case Some((rows, rest)) => Evaluate(rows)
  }

  /** The order a Go map was walked in: every key once. */
  predicate Walk<V>(order: seq<string>, m: map<string, V>) {
    && Elements(order) == m.Keys
    && forall i, j :: 0 <= i < j < |order| ==> order[i] != order[j]
  }

  function RowsOf(order: seq<string>, m: map<string, Cell>): (rows: seq<(string, Cell)>)
    requires forall k :: k in order ==> k in m
    ensures |rows| == |order|
  {
    seq(|order|, i requires 0 <= i < |order| => (order[i], m[order[i]]))
  }

  predicate CaseDistinct(keys: set<string>) {
    forall a, b :: a in keys && b in keys && Same(a, b) ==> a == b
  }

  lemma {:induction false} RowMapOfWalk(order: seq<string>, m: map<string, Cell>)
    requires forall k :: k in order ==> k in m
    ensures RowMap(RowsOf(order, m)).Keys == Elements(order)
    ensures forall k :: k in order ==> RowMap(RowsOf(order, m))[k] == m[k]
  {
    if order != [] {
      var front := order[..|order| - 1];
      RowMapOfWalk(front, m);
      assert RowsOf(order, m)[..|order| - 1] == RowsOf(front, m);
      assert order == front + [order[|order| - 1]];
    }
  }

  lemma WalkCollides(order: seq<string>, m: map<string, Cell>)
    requires Walk(order, m)
    requires forall k :: k in order ==> k in m
    ensures KeysCollide(RowsOf(order, m)) <==> !CaseDistinct(m.Keys)
  {
    var rows := RowsOf(order, m);
    if KeysCollide(rows) {
      var i, j :| 0 <= i < j < |rows| && Same(rows[i].0, rows[j].0);
      assert order[i] in order && order[j] in order;
    }
    if !CaseDistinct(m.Keys) {
      var a, b :| a in m.Keys && b in m.Keys && Same(a, b) && a != b;
      assert a in Elements(order) && b in Elements(order);
      var i :| 0 <= i < |order| && order[i] == a;
      var j :| 0 <= j < |order| && order[j] == b;
      assert rows[i].0 == a && rows[j].0 == b;
      if i > j {
        assert Same(rows[j].0, rows[i].0);
      }
    }
  }

  lemma WalkKeys<V>(order: seq<string>, m: map<string, V>)
    requires Walk(order, m)
    ensures forall k :: k in order <==> k in m
  {
    forall k ensures k in order <==> k in m {
      assert k in Elements(order) <==> k in order;
    }
  }

  /** A table printed from any walk of a map evaluates to that map, unless two
      keys differ only in case: then it is no table at all. */
  lemma WalkEvaluates(order: seq<string>, m: map<string, Cell>, rest: string)
    requires Walk(order, m)
    requires forall k :: k in order ==> k in m
    ensures ReadTable(RenderTable(RowsOf(order, m)) + rest) == if CaseDistinct(m.Keys) then Some(m) else None
  {
    TableRoundTrip(RowsOf(order, m), rest);
    WalkCollides(order, m);
    RowMapOfWalk(order, m);
    WalkKeys(order, m);
    assert RowMap(RowsOf(order, m)) == m;
  }

  // ---- psStringMap --------------------------------------------------------

  function StrCells(m: map<string, string>): map<string, Cell> {
    map k | k in m :: Str(m[k])
  }

  lemma {:induction false} EntriesAppend(rows: seq<(string, Cell)>, row: (string, Cell))
    requires rows != []
    ensures RenderEntries(rows + [row]) == RenderEntries(rows) + "; " + RenderEntry(row.0, row.1)
  {
    assert (rows + [row])[1..] == rows[1..] + [row];
    if |rows| > 1 {
      EntriesAppend(rows[1..], row);
    } else {
      assert (rows + [row])[1..] == [row];
    }
  }

  lemma Regroup(a: string, b: string, c: string, d: string)
    ensures a + b + c + d == a + (b + c + d)
  {
  }

  /** One turn of the printing loop: separator, key, equals sign, value. */
  lemma BuilderTurn(rows: seq<(string, Cell)>, k: string, v: string)
    ensures (("@{" + RenderEntries(rows)) + (if rows == [] then "" else "; ")) + PsQuote(k) + " = " + PsQuote(v)
         == "@{" + RenderEntries(rows + [(k, Str(v))])
  {
    Regroup(("@{" + RenderEntries(rows)) + (if rows == [] then "" else "; "), PsQuote(k), " = ", PsQuote(v));
    EntryTurn(rows, (k, Str(v)));
  }

  lemma EntryTurn(rows: seq<(string, Cell)>, row: (string, Cell))
    ensures ("@{" + RenderEntries(rows)) + (if rows == [] then "" else "; ") + RenderEntry(row.0, row.1)
         == "@{" + RenderEntries(rows + [row])
  {
    if rows == [] {
      assert rows + [row] == [row];
    } else {
      EntriesAppend(rows, row);
      Regroup("@{", RenderEntries(rows), "; ", RenderEntry(row.0, row.1));
    }
  }

  /** The keys come out in whatever order the map is walked; the text is the
      table of some walk of the whole map. */
  method PsStringMap(m: map<string, string>) returns (text: string, order: seq<string>)
    ensures Walk(order, m) && (forall k :: k in order ==> k in m)
    ensures text == RenderTable(RowsOf(order, StrCells(m)))
  {
    var b := "@{";
    var first := true;
    order := [];
    var left := m.Keys;
    while left != {}
      invariant left <= m.Keys
      invariant forall k :: k in m <==> k in left || k in order
      invariant forall k :: k in left ==> k !in order
      invariant forall i, j :: 0 <= i < j < |order| ==> order[i] != order[j]
      invariant forall k :: k in order ==> k in m
      invariant first <==> order == []
      invariant b == "@{" + RenderEntries(RowsOf(order, StrCells(m)))
      decreases left
    {
      var k :| k in left;
      left := left - {k};
      ghost var rows := RowsOf(order, StrCells(m));
      BuilderTurn(rows, k, m[k]);
      assert RowsOf(order + [k], StrCells(m)) == rows + [(k, Str(m[k]))];
      if !first {
        b := b + "; ";
      }
      first := false;
      b := b + PsQuote(k);
      b := b + " = ";
      b := b + PsQuote(m[k]);
      order := order + [k];
    }
    text := b + "}";
  }

  /** psStringMap in any iteration order reads back as the map it was given. */
  lemma StringMapReadsBack(m: map<string, string>, order: seq<string>, rest: string)
    requires Walk(order, m) && (forall k :: k in order ==> k in m)
    ensures ReadTable(RenderTable(RowsOf(order, StrCells(m))) + rest)
         == if CaseDistinct(m.Keys) then Some(StrCells(m)) else None
  {
    assert StrCells(m).Keys == m.Keys;
    WalkEvaluates(order, StrCells(m), rest);
  }
}
