/**
  The log of the cell scanner: records of power measurements and of system information, as the
  scanner prints them and as the map tool reads them back.
 */
module CellLog {
  import opened CellScan
  import opened LogText

  // ---------------------------------------------------------------- the power table in rows

  const ROW: nat := 12

  /** Values of neighbouring channels. */
  datatype Row = Row(start: nat, values: seq<int>)

  /** The rows from channel i on, behind an open row. */
  ghost function Rows(pm: seq<Cell>, i: nat, open: Row): seq<Row>
    requires i <= |pm|
    decreases |pm| - i
  {
    if i == |pm| then if open.values == [] then [] else [open]
    else if pm[i].measured then
      var row := Extended(open, i, pm[i].rxlev);
      if |row.values| == ROW then [row] + Rows(pm, i + 1, Row(0, [])) else Rows(pm, i + 1, row)
    else if open.values == [] then Rows(pm, i + 1, Row(0, []))
    else [open] + Rows(pm, i + 1, Row(0, []))
  }

  ghost function Extended(open: Row, i: nat, value: int): Row {
    Row(if open.values == [] then i else open.start, open.values + [value])
  }

  /** What a row says. */
  ghost function Apply(row: Row, r: seq<int>): (r': seq<int>)
    requires row.start + |row.values| <= |r|
    ensures |r'| == |r|
  {
    r[..row.start] + row.values + r[row.start + |row.values|..]
  }

  ghost predicate RowsFit(rows: seq<Row>, n: nat) {
    forall i :: 0 <= i < |rows| ==> rows[i].start + |rows[i].values| <= n
  }

  ghost function ApplyAll(rows: seq<Row>, r: seq<int>): (r': seq<int>)
    requires RowsFit(rows, |r|)
    ensures |r'| == |r|
    decreases |rows|
  {
    if rows == [] then r else ApplyAll(rows[1..], Apply(rows[0], r))
  }

  /** An open row ends right before channel i. */
  ghost predicate OpenAt(open: Row, i: nat) {
    open.values != [] ==> open.start + |open.values| == i
  }

  /** What is known of channel a after all rows: those printed from i on, the open row, or what was known before. */
  ghost function Known(pm: seq<Cell>, i: nat, open: Row, r: seq<int>, a: nat): int
    requires i <= |pm| == |r| && OpenAt(open, i) && a < |pm|
  {
    if a >= i then if pm[a].measured then pm[a].rxlev else r[a]
    else if open.values != [] && a >= open.start then open.values[a - open.start]
    else r[a]
  }

  ghost predicate Shows(pm: seq<Cell>, i: nat, open: Row, r: seq<int>, r': seq<int>)
    requires i <= |pm| == |r| && OpenAt(open, i)
  {
    |r'| == |pm| && forall a: nat :: a < |pm| ==> r'[a] == Known(pm, i, open, r, a)
  }

  lemma {:induction false} RowsRestore(pm: seq<Cell>, i: nat, open: Row, r: seq<int>)
    requires i <= |pm| == |r| && OpenAt(open, i)
    ensures RowsFit(Rows(pm, i, open), |pm|) && Shows(pm, i, open, r, ApplyAll(Rows(pm, i, open), r))
    decreases |pm| - i
  {
    hide Shows, Apply, Known;
    var rows := Rows(pm, i, open);
    if i == |pm| {
      if open.values != [] { assert rows[1..] == []; }
      LastShows(pm, open, r);
    } else if pm[i].measured {
      var row := Extended(open, i, pm[i].rxlev);
      if |row.values| == ROW {
        assert rows[1..] == Rows(pm, i + 1, Row(0, []));
        RowsRestore(pm, i + 1, Row(0, []), Apply(row, r));
        FullShows(pm, i, open, r, ApplyAll(rows, r));
      } else {
        RowsRestore(pm, i + 1, row, r);
        LongerShows(pm, i, open, r, ApplyAll(rows, r));
      }
    } else if open.values == [] {
      RowsRestore(pm, i + 1, Row(0, []), r);
      SkipShows(pm, i, open, r, ApplyAll(rows, r));
    } else {
      assert rows[1..] == Rows(pm, i + 1, Row(0, []));
      RowsRestore(pm, i + 1, Row(0, []), Apply(open, r));
      ClosedShows(pm, i, open, r, ApplyAll(rows, r));
    }
  }

  lemma LastShows(pm: seq<Cell>, open: Row, r: seq<int>)
    requires |pm| == |r| && OpenAt(open, |pm|)
    ensures Shows(pm, |pm|, open, r, if open.values == [] then r else Apply(open, r))
  {}

  lemma FullShows(pm: seq<Cell>, i: nat, open: Row, r: seq<int>, r': seq<int>)
    requires i < |pm| == |r| && OpenAt(open, i) && pm[i].measured
    requires Shows(pm, i + 1, Row(0, []), Apply(Extended(open, i, pm[i].rxlev), r), r')
    ensures Shows(pm, i, open, r, r')
  {
    forall a: nat | a < |pm| ensures r'[a] == Known(pm, i, open, r, a) {
      assert r'[a] == Known(pm, i + 1, Row(0, []), Apply(Extended(open, i, pm[i].rxlev), r), a);
    }
  }

  lemma LongerShows(pm: seq<Cell>, i: nat, open: Row, r: seq<int>, r': seq<int>)
    requires i < |pm| == |r| && OpenAt(open, i) && pm[i].measured
    requires Shows(pm, i + 1, Extended(open, i, pm[i].rxlev), r, r')
    ensures Shows(pm, i, open, r, r')
  {
    forall a: nat | a < |pm| ensures r'[a] == Known(pm, i, open, r, a) {
      assert r'[a] == Known(pm, i + 1, Extended(open, i, pm[i].rxlev), r, a);
    }
  }

  lemma SkipShows(pm: seq<Cell>, i: nat, open: Row, r: seq<int>, r': seq<int>)
    requires i < |pm| == |r| && OpenAt(open, i) && !pm[i].measured && open.values == []
    requires Shows(pm, i + 1, Row(0, []), r, r')
    ensures Shows(pm, i, open, r, r')
  {
    forall a: nat | a < |pm| ensures r'[a] == Known(pm, i, open, r, a) {
      assert r'[a] == Known(pm, i + 1, Row(0, []), r, a);
    }
  }

  lemma ClosedShows(pm: seq<Cell>, i: nat, open: Row, r: seq<int>, r': seq<int>)
    requires i < |pm| == |r| && OpenAt(open, i) && !pm[i].measured && open.values != []
    requires Shows(pm, i + 1, Row(0, []), Apply(open, r), r')
    ensures Shows(pm, i, open, r, r')
  {
    forall a: nat | a < |pm| ensures r'[a] == Known(pm, i, open, r, a) {
      assert r'[a] == Known(pm, i + 1, Row(0, []), Apply(open, r), a);
    }
  }

  // ---------------------------------------------------------------- rows as text

  function ValueText(values: seq<int>): string {
    if values == [] then "" else " " + Printed(values[0]) + ValueText(values[1..])
  }

  ghost function RowText(row: Row): string {
    "arfcn " + Decimal(row.start) + ValueText(row.values)
  }

  ghost function RowTexts(rows: seq<Row>): seq<string> {
    if rows == [] then [] else [RowText(rows[0])] + RowTexts(rows[1..])
  }

  lemma {:induction false} RowTextsJoin(a: seq<Row>, b: seq<Row>)
    ensures RowTexts(a + b) == RowTexts(a) + RowTexts(b)
  {
    if a == [] {
      assert a + b == b;
    } else {
      assert (a + b)[1..] == a[1..] + b;
      RowTextsJoin(a[1..], b);
    }
  }

  lemma {:induction false} ValueTextSnoc(values: seq<int>, v: int)
    ensures ValueText(values + [v]) == ValueText(values) + " " + Printed(v)
  {
    if values == [] {
      assert ValueText([v]) == " " + Printed(v) + ValueText([]);
    } else {
      assert (values + [v])[1..] == values[1..] + [v];
      ValueTextSnoc(values[1..], v);
    }
  }

  /** log_pm, the lines of the table. */
  method LogPm(pm: array<Cell>) returns (lines: seq<string>)
    ensures lines == RowTexts(Rows(pm[..], 0, Row(0, [])))
  {
    hide Decimal, Printed, ValueText, Rows;
    lines := [];
    var line, count, i := "", 0, 0;
    ghost var open := Row(0, []);
    NoRows(pm[..]);
    while i < pm.Length
      invariant i <= pm.Length && count == |open.values|
      invariant line == if open.values == [] then "" else RowText(open)
      invariant lines + RowTexts(Rows(pm[..], i, open)) == RowTexts(Rows(pm[..], 0, Row(0, [])))
      invariant open.values == [] ==> open == Row(0, [])
    {
      RowsStep(pm[..], i, open);
      if pm[i].measured {
        if count == 0 {
          line := "arfcn " + Decimal(i);
        }
        ExtendedText(open, i, pm[i].rxlev);
        line := line + (" " + Printed(pm[i].rxlev));
        open := Extended(open, i, pm[i].rxlev);
        count := count + 1;
        if count == ROW {
          lines, line := lines + [line], "";
          open := Row(0, []);
          count := 0;
        }
      } else {
        if count > 0 {
          lines, line := lines + [line], "";
          open := Row(0, []);
          count := 0;
        }
      }
      i := i + 1;
    }
    RowsEnd(pm[..], open);
    if count > 0 {
      lines := lines + [line];
    }
  }

  lemma NoRows(pm: seq<Cell>)
    ensures var none: seq<string> := []; none + RowTexts(Rows(pm, 0, Row(0, []))) == RowTexts(Rows(pm, 0, Row(0, [])))
  {}

  lemma NoText()
    ensures ValueText([]) == ""
  {}

  lemma ExtendedText(open: Row, i: nat, value: int)
    ensures RowText(Extended(open, i, value)) ==
      (if open.values == [] then "arfcn " + Decimal(i) else RowText(open)) + (" " + Printed(value))
  {
    hide Decimal, Printed, ValueText;
    ValueTextSnoc(open.values, value);
    NoText();
  }

  lemma RowsStep(pm: seq<Cell>, i: nat, open: Row)
    requires i < |pm|
    ensures RowTexts(Rows(pm, i, open)) == Stepped(pm, i, open)
  {
    var later := Rows(pm, i + 1, Row(0, []));
    var row := Extended(open, i, pm[i].rxlev);
    assert ([row] + later)[1..] == later && ([open] + later)[1..] == later;
  }

  /** The text of the rows, one channel further. */
  ghost function Stepped(pm: seq<Cell>, i: nat, open: Row): seq<string>
    requires i < |pm|
  {
    var later, row := RowTexts(Rows(pm, i + 1, Row(0, []))), Extended(open, i, pm[i].rxlev);
    if pm[i].measured then if |row.values| == ROW then [RowText(row)] + later else RowTexts(Rows(pm, i + 1, row))
    else if open.values == [] then later
    else [RowText(open)] + later
  }

  lemma RowsEnd(pm: seq<Cell>, open: Row)
    ensures RowTexts(Rows(pm, |pm|, open)) == if open.values == [] then [] else [RowText(open)]
  {
    assert RowTexts([open]) == [RowText(open)] + RowTexts([open][1..]);
  }

  // ---------------------------------------------------------------- reading a row

  /** The values after a channel number, up to the end of the line or of the channels. */
  ghost function ReadValues(s: string, arfcn: int, r: seq<int>): (r': seq<int>)
    requires |r| == CHANNELS
    ensures |r'| == CHANNELS
    decreases |s|
  {
    if s == "" || arfcn < 0 || arfcn >= CHANNELS then r
    else
      var t := Unspaced(s);
      var n := WordLength(t);
      var r1 := r[arfcn := ToInt8(Atoi(t[..n]))];
      if n == |t| then r1 else ReadValues(t[n + 1..], arfcn + 1, r1)
  }

  /** read_log_power */
  ghost function ReadRow(s: string, r: seq<int>): (r': seq<int>)
    requires |r| == CHANNELS
    ensures |r'| == CHANNELS
  {
    var t := Unspaced(s);
    var n := WordLength(t);
    if n == |t| then r else ReadValues(t[n + 1..], Atoi(t[..n]), r)
  }

  method ReadLogPower(buffer: string, rxlev: array<int>)
    requires rxlev.Length == CHANNELS
    modifies rxlev
    ensures rxlev[..] == ReadRow(buffer, old(rxlev[..]))
  {
    hide Atoi, Unspaced, WordLength, ReadValues;
    var s := SkipSpaces(buffer);
    var n := FindEnd(s);
    if n == |s| {
      return;
    }
    var arfcn := Atoi(s[..n]);
    s := s[n + 1..];
    ghost var r := rxlev[..];
    while s != ""
      invariant ReadValues(s, arfcn, rxlev[..]) == ReadRow(buffer, r)
      decreases |s|
    {
      ValuesStep(s, arfcn, rxlev[..]);
      if arfcn < 0 || arfcn > 1023 {
        break;
      }
      s := SkipSpaces(s);
      n := FindEnd(s);
      rxlev[arfcn] := ToInt8(Atoi(s[..n]));
      if n == |s| {
        return;
      }
      arfcn := arfcn + 1;
      s := s[n + 1..];
    }
    ValuesEnd(s, arfcn, rxlev[..]);
  }

  lemma ValuesStep(s: string, arfcn: int, r: seq<int>)
    requires |r| == CHANNELS && s != ""
    ensures ReadValues(s, arfcn, r) == if arfcn < 0 || arfcn >= CHANNELS then r else OneValue(s, arfcn, r)
  {}

  ghost function OneValue(s: string, arfcn: nat, r: seq<int>): seq<int>
    requires |r| == CHANNELS && s != "" && arfcn < CHANNELS
  {
    var t := Unspaced(s);
    var n := WordLength(t);
    var r1 := r[arfcn := ToInt8(Atoi(t[..n]))];
    if n == |t| then r1 else ReadValues(t[n + 1..], arfcn + 1, r1)
  }

  lemma ValuesEnd(s: string, arfcn: int, r: seq<int>)
    requires |r| == CHANNELS
    ensures s == "" || arfcn < 0 || arfcn >= CHANNELS ==> ReadValues(s, arfcn, r) == r
  {}

  method SkipSpaces(buffer: string) returns (s: string)
    ensures s == Unspaced(buffer)
  {
    s := buffer;
    while s != "" && s[0] == ' '
      invariant Unspaced(s) == Unspaced(buffer)
      decreases |s|
    {
      s := s[1..];
    }
  }

  method FindEnd(s: string) returns (n: nat)
    ensures n == WordLength(s)
  {
    n := 0;
    while n < |s| && s[n] > ' '
      invariant n <= |s| && WordLength(s) == n + WordLength(s[n..])
    {
      assert s[n..][1..] == s[n + 1..];
      n := n + 1;
    }
  }

  /** Reading a printed row does what the row says. */
  lemma RowRoundTrip(row: Row, r: seq<int>)
    requires |r| == CHANNELS && row.values != [] && row.start + |row.values| <= CHANNELS
    requires forall k :: 0 <= k < |row.values| ==> -128 <= row.values[k] < 128
    ensures ReadRow(RowText(row)[6..], r) == Apply(row, r)
  {
    hide ValueText, Decimal, Printed, Atoi, WordLength, Unspaced, ReadValues;
    var s := RowText(row)[6..];
    assert s == Decimal(row.start) + ValueText(row.values);
    Word(Decimal(row.start), ValueText(row.values), row.start, row.values);
    ValuesRoundTrip(row.values, row.start, r);
  }

  lemma Word(w: string, t: string, start: nat, values: seq<int>)
    requires w == Decimal(start) && t == ValueText(values) && values != []
    ensures Unspaced(w + t) == w + t && WordLength(w + t) == |w| && (w + t)[..|w|] == w && Atoi(w) == start
    ensures (w + t)[|w| + 1..] == t[1..] && t != "" && t[0] == ' '
  {
    WordOf(w, t);
    AtoiPrinted(start);
    assert IsDigit(w[0]);
  }

  lemma {:induction false} ValuesRoundTrip(values: seq<int>, arfcn: nat, r: seq<int>)
    requires |r| == CHANNELS && values != [] && arfcn + |values| <= CHANNELS
    requires forall k :: 0 <= k < |values| ==> -128 <= values[k] < 128
    ensures ValueText(values) != "" && ReadValues(ValueText(values)[1..], arfcn, r) == Apply(Row(arfcn, values), r)
    decreases |values|
  {
    hide Printed, Atoi, WordLength, Unspaced, ReadValues, Apply, ValueText;
    var w, rest := Printed(values[0]), ValueText(values[1..]);
    var s := w + rest;
    FirstText(values);
    OneWord(values[0], rest, values[1..]);
    ValuesStep(s, arfcn, r);
    ApplyFirst(values, arfcn, r);
    if values[1..] != [] {
      ValuesRoundTrip(values[1..], arfcn + 1, r[arfcn := values[0]]);
      assert s[|w| + 1..] == rest[1..];
    }
  }

  lemma FirstText(values: seq<int>)
    requires values != []
    ensures ValueText(values) != "" && ValueText(values)[1..] == Printed(values[0]) + ValueText(values[1..])
    ensures values[1..] == [] ==> ValueText(values[1..]) == ""
  {
    hide Printed;
    var w := Printed(values[0]);
    assert ValueText(values) == " " + w + ValueText(values[1..]) == " " + (w + ValueText(values[1..]));
  }

  lemma ApplyFirst(values: seq<int>, arfcn: nat, r: seq<int>)
    requires values != [] && arfcn + |values| <= |r|
    ensures Apply(Row(arfcn, values), r) ==
      if values[1..] == [] then r[arfcn := values[0]] else Apply(Row(arfcn + 1, values[1..]), r[arfcn := values[0]])
  {}

  lemma OneWord(v: int, t: string, values: seq<int>)
    requires t == ValueText(values)
    ensures var w := Printed(v);
      && w != "" && Unspaced(w + t) == w + t && WordLength(w + t) == |w| && (w + t)[..|w|] == w
      && Atoi(w) == v
    ensures values != [] ==> t != "" && t[0] == ' '
  {
    WordOf(Printed(v), t);
    AtoiPrinted(v);
  }
}
