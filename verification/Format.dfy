/** The text helpers of the table and the export: `formatPlaytime`,
    `truncateText` and `convertToCSV`. */
module Format {
  import opened Wrappers
  import opened Strings
  import opened Numbers
  import CsvLine

  // ---------------------------------------------------------------- formatPlaytime

  /** JavaScript's `a % b` for `b > 0`: the remainder takes the sign of `a`. */
  function JsRem(a: int, b: int): (r: int)
    requires b > 0
    ensures a >= 0 ==> 0 <= r < b
    ensures a < 0 ==> -b < r <= 0
  {
    if a >= 0 then a % b else -((-a) % b)
  }

  /** JavaScript's quotient rounded toward zero, the partner of `JsRem`. */
  function JsQuot(a: int, b: int): int
    requires b > 0
  {
    if a >= 0 then a / b else -((-a) / b)
  }

  /** `%` is what is left after taking the quotient rounded toward zero:
      `a == b * q + r`. */
  lemma JsRemDivision(a: int, b: int)
    requires b > 0
    ensures a == b * JsQuot(a, b) + JsRem(a, b)
  {
    if a < 0 {
      var q := (-a) / b;
      var m := (-a) % b;
      assert -a == b * q + m;
      assert b * -q == -(b * q);
    }
  }

  /** `formatPlaytime(seconds)` on an integer number of seconds.
      `Math.floor(x / n)` for a positive `n` is Dafny's `x / n`. */
  function FormatPlaytime(seconds: int): string {
    var hours := seconds / 3600;
    var minutes := JsRem(seconds, 3600) / 60;
    if hours > 0 then IntToString(hours) + "h " + IntToString(minutes) + "m"
    else if minutes > 0 then IntToString(minutes) + "m"
    else IntToString(seconds) + "s"
  }

  /** From an hour on, whole hours and the minutes left over (fewer than 60);
      from a minute on, whole minutes; below a minute, and for every negative
      value, the seconds as given. */
  lemma FormatPlaytimeCases(s: int)
    ensures s >= 3600 ==>
      s % 3600 / 60 < 60 &&
      FormatPlaytime(s) == NatToString(s / 3600) + "h " + NatToString(s % 3600 / 60) + "m"
    ensures 60 <= s < 3600 ==> FormatPlaytime(s) == NatToString(s / 60) + "m"
    ensures s < 60 ==> FormatPlaytime(s) == IntToString(s) + "s"
  {
    if s < 0 {
      assert s / 3600 < 0;
      assert JsRem(s, 3600) / 60 <= 0;
    } else if s < 3600 {
      assert s / 3600 == 0;
      assert JsRem(s, 3600) == s;
    }
  }

  /** The units shown account for the value to within one unit of the
      smallest one shown: no more than a minute is dropped from an hours
      reading, no more than a minute from a minutes reading, nothing from a
      seconds reading. */
  lemma FormatPlaytimeAccounts(s: int)
    ensures s >= 3600 ==>
      var h := s / 3600;
      var m := s % 3600 / 60;
      h >= 1 && 0 <= m < 60 && 3600 * h + 60 * m <= s < 3600 * h + 60 * m + 60
    ensures 60 <= s < 3600 ==> 1 <= s / 60 < 60 && 60 * (s / 60) <= s < 60 * (s / 60) + 60
  {
  }

  /** `parseInt` of the text reads back the leading quantity: the hours, the
      minutes or the seconds. */
  lemma FormatPlaytimeReadBack(s: int)
    ensures ParseInt(FormatPlaytime(s)) ==
      Some(if s >= 3600 then s / 3600 else if s >= 60 then s / 60 else s)
  {
    FormatPlaytimeCases(s);
    if s >= 3600 {
      var m := s % 3600 / 60;
      var rest := "h " + NatToString(m) + "m";
      assert FormatPlaytime(s) == IntToString(s / 3600) + rest;
      ParseIntLeading(s / 3600, rest);
    } else if s >= 60 {
      assert FormatPlaytime(s) == IntToString(s / 60) + "m";
      ParseIntLeading(s / 60, "m");
    } else {
      ParseIntLeading(s, "s");
    }
  }

  /** The unit letter at the end tells the range: `s` below a minute, `m`
      otherwise, and an `h` appears exactly from an hour on. */
  lemma FormatPlaytimeUnit(s: int)
    ensures var r := FormatPlaytime(s);
      r != [] && (r[|r| - 1] == 's' <==> s < 60) && ('h' in r <==> s >= 3600)
  {
    FormatPlaytimeCases(s);
    var r := FormatPlaytime(s);
    if s >= 3600 {
      var hs := NatToString(s / 3600);
      var ms := NatToString(s % 3600 / 60);
      assert r == hs + "h " + ms + "m";
      assert r[|hs|] == 'h';
    } else if s >= 60 {
      var ms := NatToString(s / 60);
      assert r == ms + "m";
      assert forall i :: 0 <= i < |ms| ==> r[i] == ms[i];
      assert 'h' !in ms by { assert forall i :: 0 <= i < |ms| ==> IsDigit(ms[i]); }
    } else {
      var n := IntToString(s);
      assert r == n + "s";
      assert forall i :: 0 <= i < |n| ==> r[i] == n[i];
      IntToStringNoLetters(s);
    }
  }

  /** The decimal text of an integer is digits with an optional leading `-`. */
  lemma IntToStringNoLetters(n: int)
    ensures 'h' !in IntToString(n)
  {
    var d := NatToString(if n < 0 then -n else n);
    assert forall i :: 0 <= i < |d| ==> IsDigit(d[i]);
    if n < 0 {
      assert IntToString(n) == "-" + d;
    }
  }

  // ---------------------------------------------------------------- truncateText

  /** `truncateText(text, maxLength)`: `substring(0, maxLength)` treats a
      negative end as 0. */
  function TruncateText(text: string, maxLength: int): string {
    if |text| <= maxLength then text
    else text[..if maxLength < 0 then 0 else maxLength] + "..."
  }

  /** A text that fits is unchanged; a longer one becomes its first
      `maxLength` characters (none when `maxLength` is negative) followed by
      `...`. */
  lemma TruncateTextSpec(text: string, maxLength: int)
    ensures var r := TruncateText(text, maxLength);
      var keep := if maxLength < 0 then 0 else maxLength;
      && (|text| <= maxLength ==> r == text)
      && (|text| > maxLength ==>
            |r| == keep + 3 && r[..keep] == text[..keep] && r[keep..] == "...")
  {
  }

  /** Truncating an already truncated text changes nothing. */
  lemma TruncateTextIdempotent(text: string, maxLength: int)
    ensures TruncateText(TruncateText(text, maxLength), maxLength) == TruncateText(text, maxLength)
  {
    var r := TruncateText(text, maxLength);
    var keep := if maxLength < 0 then 0 else maxLength;
    if |text| > maxLength {
      assert r[..keep] == text[..keep];
    }
  }

  // ---------------------------------------------------------------- convertToCSV

  /** A value of an exported object: a string, or a number together with the
      text `String(value)` gives for it. */
  datatype Cell = Text(s: string) | Number(shown: string)

  /** One exported object, its properties in insertion order. */
  type Row = seq<(string, Cell)>

  /** `Object.keys(row)`. */
  function Keys(row: Row): (ks: seq<string>)
    ensures |ks| == |row|
  {
    if row == [] then [] else Keys(row[..|row| - 1]) + [row[|row| - 1].0]
  }

  /** `row[key]`; `None` is `undefined`. */
  function Lookup(row: Row, key: string): Option<Cell> {
    if row == [] then None
    else if row[0].0 == key then Some(row[0].1)
    else Lookup(row[1..], key)
  }

  /** The text a cell stands for. */
  function CellText(c: Option<Cell>): string {
    match c
    case None => ""
    case Some(Text(s)) => s
    case Some(Number(shown)) => shown
  }

  /** A string holding a comma is wrapped in quotes; `join` writes a number
      as its text and `undefined` as nothing. */
  function Render(c: Option<Cell>): string {
    match c
    case Some(Text(s)) => if ',' in s then "\"" + s + "\"" else s
    case _ => CellText(c)
  }

  /** The cells of `row` under `headers`. */
  function CellsOf(row: Row, headers: seq<string>): (cs: seq<Option<Cell>>)
    ensures |cs| == |headers|
  {
    if headers == [] then []
    else CellsOf(row, headers[..|headers| - 1]) + [Lookup(row, headers[|headers| - 1])]
  }

  function Rendered(cs: seq<Option<Cell>>): (r: seq<string>)
    ensures |r| == |cs|
  {
    if cs == [] then [] else Rendered(cs[..|cs| - 1]) + [Render(cs[|cs| - 1])]
  }

  function Texts(cs: seq<Option<Cell>>): (r: seq<string>)
    ensures |r| == |cs|
  {
    if cs == [] then [] else Texts(cs[..|cs| - 1]) + [CellText(cs[|cs| - 1])]
  }

  /** One data line: `headers.map(...).join(',')`. */
  function RowLine(row: Row, headers: seq<string>): string {
    Join(Rendered(CellsOf(row, headers)), ',')
  }

  function RowLines(data: seq<Row>, headers: seq<string>): (ls: seq<string>)
    ensures |ls| == |data|
  {
    if data == [] then [] else RowLines(data[..|data| - 1], headers) + [RowLine(data[|data| - 1], headers)]
  }

  /** `convertToCSV(data)`: nothing for no rows, otherwise the keys of the
      first row joined by commas, then one line per row, joined by newlines. */
  function ConvertToCsv(data: seq<Row>): (csv: string)
    ensures csv == "" <==> data == []
  {
    if data == [] then ""
    else
      var headers := Keys(data[0]);
      Join([Join(headers, ',')] + RowLines(data, headers), '\n')
  }

  /** A cell the dashboard's own splitter can read back: no quote and no
      newline, and a number's text has no comma. */
  predicate Clean(c: Option<Cell>) {
    match c
    case None => true
    case Some(Text(s)) => '"' !in s && '\n' !in s
    case Some(Number(shown)) => '"' !in shown && '\n' !in shown && ',' !in shown
  }

  /** Reading one rendered cell outside quotes adds its text to the current field. */
  lemma ScanCell(st: CsvLine.ScanState, c: Option<Cell>)
    requires !st.inQuotes && Clean(c)
    ensures CsvLine.ScanFrom(st, Render(c)) == st.(current := st.current + CellText(c))
  {
    if c.Some? && c.value.Text? && ',' in c.value.s {
      var s := c.value.s;
      var q: string := "\"";
      assert Render(c) == q + s + q;
      CsvLine.ScanFromAppend(st, q + s, q);
      CsvLine.ScanFromAppend(st, q, s);
      var st1 := CsvLine.ScanFrom(st, q);
      assert st1 == st.(inQuotes := true) by {
        assert q[..0] == [];
      }
      CsvLine.ScanPlainText(st1, s);
      var st2 := CsvLine.ScanFrom(st1, s);
      assert CsvLine.ScanFrom(st2, q) == CsvLine.Step(st2, '"') by {
        assert q[..0] == [];
      }
    } else {
      CsvLine.ScanPlainText(st, Render(c));
    }
  }

  /** Scanning a rendered line ends outside quotes, with the texts of all
      cells but the last as finished fields and the last as the current one. */
  lemma {:induction false} ScanRendered(cs: seq<Option<Cell>>)
    requires cs != []
    requires forall i :: 0 <= i < |cs| ==> Clean(cs[i])
    ensures var ts := Texts(cs);
      CsvLine.ScanFrom(CsvLine.Start, Join(Rendered(cs), ',')) ==
        CsvLine.ScanState(ts[..|ts| - 1], ts[|ts| - 1], false)
    decreases |cs|
  {
    var rs := Rendered(cs);
    var ts := Texts(cs);
    var last := cs[|cs| - 1];
    if |cs| == 1 {
      assert Join(rs, ',') == Render(last);
      ScanCell(CsvLine.Start, last);
    } else {
      var init := cs[..|cs| - 1];
      ScanRendered(init);
      var prefix := Join(Rendered(init), ',');
      assert rs[..|rs| - 1] == Rendered(init);
      assert Join(rs, ',') == prefix + [','] + Render(last);
      CsvLine.ScanFromAppend(CsvLine.Start, prefix + [','], Render(last));
      CsvLine.ScanFromAppend(CsvLine.Start, prefix, [',']);
      var st := CsvLine.ScanFrom(CsvLine.Start, prefix);
      var tsInit := Texts(init);
      assert CsvLine.ScanFrom(st, [',']) == CsvLine.Step(st, ',') by {
        assert [','][..0] == [];
      }
      assert tsInit[..|tsInit| - 1] + [tsInit[|tsInit| - 1]] == tsInit;
      ScanCell(CsvLine.ScanState(tsInit, [], false), last);
      assert ts[..|ts| - 1] == tsInit;
    }
  }

  /** The dashboard's own line splitter reads a rendered line back as the
      cells' texts, quotes removed. */
  lemma RowLineReadBack(row: Row, headers: seq<string>)
    requires headers != []
    requires forall i :: 0 <= i < |headers| ==> Clean(CellsOf(row, headers)[i])
    ensures CsvLine.Fields(RowLine(row, headers)) == Texts(CellsOf(row, headers))
  {
    var cs := CellsOf(row, headers);
    ScanRendered(cs);
    var ts := Texts(cs);
    assert ts[..|ts| - 1] + [ts[|ts| - 1]] == ts;
  }

  /** No newline in a rendered line of clean cells. */
  lemma RowLineOneLine(row: Row, headers: seq<string>)
    requires forall i :: 0 <= i < |headers| ==> Clean(CellsOf(row, headers)[i])
    ensures '\n' !in RowLine(row, headers)
  {
    var cs := CellsOf(row, headers);
    var rs := Rendered(cs);
    forall i | 0 <= i < |rs| ensures '\n' !in rs[i] {
      RenderedAt(cs, i);
    }
    JoinExcludes(rs, ',', '\n');
  }

  lemma {:induction false} RenderedAt(cs: seq<Option<Cell>>, i: nat)
    requires i < |cs|
    ensures Rendered(cs)[i] == Render(cs[i]) && Texts(cs)[i] == CellText(cs[i])
    decreases |cs|
  {
    if i < |cs| - 1 {
      RenderedAt(cs[..|cs| - 1], i);
    }
  }

  lemma {:induction false} RowLinesAt(data: seq<Row>, headers: seq<string>, i: nat)
    requires i < |data|
    ensures RowLines(data, headers)[i] == RowLine(data[i], headers)
    decreases |data|
  {
    if i < |data| - 1 {
      RowLinesAt(data[..|data| - 1], headers, i);
    }
  }

  /** Every cell of `data` under `headers` can be read back. */
  predicate AllClean(data: seq<Row>, headers: seq<string>) {
    forall i, k :: 0 <= i < |data| && 0 <= k < |headers| ==> Clean(CellsOf(data[i], headers)[k])
  }

  /** The lines of the export: the header line, then one line per row. */
  function ExportLines(data: seq<Row>): seq<string>
    requires data != []
  {
    var headers := Keys(data[0]);
    [Join(headers, ',')] + RowLines(data, headers)
  }

  /** Splitting the export at newlines gives its lines back. */
  lemma ExportSplitsIntoLines(data: seq<Row>)
    requires data != []
    requires forall k :: 0 <= k < |Keys(data[0])| ==> '\n' !in Keys(data[0])[k]
    requires AllClean(data, Keys(data[0]))
    ensures Split(ConvertToCsv(data), '\n') == ExportLines(data)
  {
    var headers := Keys(data[0]);
    var pieces := ExportLines(data);
    assert ConvertToCsv(data) == Join(pieces, '\n');
    JoinExcludes(headers, ',', '\n');
    forall i | 0 <= i < |pieces| ensures '\n' !in pieces[i] {
      if i > 0 {
        RowLinesAt(data, headers, i - 1);
        RowLineOneLine(data[i - 1], headers);
      }
    }
    SplitJoin(pieces, '\n');
  }

  /** Round trip of the export: when the first row has at least one key, no
      key holds a comma, quote or newline, and every cell is clean, splitting
      the export at newlines gives the header line and one line per row; the
      header line splits back into the keys, and the dashboard's own splitter
      reads each row line back as the texts of that row's cells. */
  lemma ConvertToCsvReadBack(data: seq<Row>)
    requires data != [] && Keys(data[0]) != []
    requires forall k :: 0 <= k < |Keys(data[0])| ==>
      ',' !in Keys(data[0])[k] && '"' !in Keys(data[0])[k] && '\n' !in Keys(data[0])[k]
    requires AllClean(data, Keys(data[0]))
    ensures var headers := Keys(data[0]);
      var lines := Split(ConvertToCsv(data), '\n');
      && |lines| == 1 + |data|
      && Split(lines[0], ',') == headers
      && forall i :: 0 <= i < |data| ==> CsvLine.Fields(lines[i + 1]) == Texts(CellsOf(data[i], headers))
  {
    var headers := Keys(data[0]);
    ExportSplitsIntoLines(data);
    var lines := ExportLines(data);
    SplitJoin(headers, ',');
    forall i | 0 <= i < |data|
      ensures CsvLine.Fields(lines[i + 1]) == Texts(CellsOf(data[i], headers))
    {
      RowLinesAt(data, headers, i);
      RowLineReadBack(data[i], headers);
    }
  }
}
