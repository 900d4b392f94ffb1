/** The quote-toggling CSV line splitter (`parseCSVLine`). A `"` flips the
    "inside quotes" flag and is dropped; a `,` outside quotes ends a field;
    every other character is appended to the current field. There is no
    `""` escape. */
module CsvLine {
  import opened Strings

  /** The loop variables of the splitter: finished fields, the field being
      built, and whether the scan is inside quotes. */
  datatype ScanState = ScanState(fields: seq<string>, current: string, inQuotes: bool)

  const Start := ScanState([], [], false)

  /** One iteration of the character loop. */
  function Step(st: ScanState, c: char): ScanState {
    if c == '"' then st.(inQuotes := !st.inQuotes)
    else if c == ',' && !st.inQuotes then ScanState(st.fields + [st.current], [], false)
    else st.(current := st.current + [c])
  }

  /** The state after scanning all of `s` from `st`. */
  function ScanFrom(st: ScanState, s: string): ScanState {
    if s == [] then st else Step(ScanFrom(st, s[..|s| - 1]), s[|s| - 1])
  }

  /** The fields of a line: the finished fields plus the last one. */
  function Fields(line: string): seq<string> {
    var st := ScanFrom(Start, line);
    st.fields + [st.current]
  }

  /** `parseCSVLine(line)`. */
  method ParseCsvLine(line: string) returns (result: seq<string>)
    ensures result == Fields(line)
  {
    result := [];
    var current: string := [];
    var inQuotes := false;
    var i := 0;
    while i < |line|
      invariant 0 <= i <= |line|
      invariant ScanState(result, current, inQuotes) == ScanFrom(Start, line[..i])
    {
      var c := line[i];
      if c == '"' {
        inQuotes := !inQuotes;
      } else if c == ',' && !inQuotes {
        result := result + [current];
        current := [];
      } else {
        current := current + [c];
      }
      assert line[..i + 1][..i] == line[..i];
      i := i + 1;
    }
    assert line[..i] == line;
    result := result + [current];
  }

  /** `s` with every `"` removed. */
  function RemoveQuotes(s: string): string {
    if s == [] then []
    else RemoveQuotes(s[..|s| - 1]) + (if s[|s| - 1] == '"' then [] else [s[|s| - 1]])
  }

  /** Whether the scan is inside quotes after reading `s`: an odd number of `"` seen. */
  predicate OddQuotes(s: string) {
    CountChar(s, '"') % 2 == 1
  }

  /** The commas of `s` that stand outside quotes, counted independently of the scan. */
  function UnquotedCommas(s: string): nat {
    if s == [] then 0
    else
      var init := s[..|s| - 1];
      UnquotedCommas(init) + (if s[|s| - 1] == ',' && !OddQuotes(init) then 1 else 0)
  }

  /** The scan state, read as one string, is the input with its quotes removed;
      its quote flag is the parity of the quotes read; it has finished one field
      per unquoted comma; and no field it holds contains a quote. */
  lemma ScanInvariant(s: string)
    ensures var st := ScanFrom(Start, s);
      && Join(st.fields + [st.current], ',') == RemoveQuotes(s)
      && st.inQuotes == OddQuotes(s)
      && |st.fields| == UnquotedCommas(s)
      && '"' !in st.current
      && forall i :: 0 <= i < |st.fields| ==> '"' !in st.fields[i]
  {
    ScanText(s);
    ScanQuotes(s);
    ScanCount(s);
    ScanNoQuotes(s);
  }

  lemma {:induction false} ScanText(s: string)
    ensures var st := ScanFrom(Start, s);
      Join(st.fields + [st.current], ',') == RemoveQuotes(s)
  {
    if s != [] {
      var init := s[..|s| - 1];
      var c := s[|s| - 1];
      ScanText(init);
      var st := ScanFrom(Start, init);
      var xs := st.fields + [st.current];
      if c == ',' && !st.inQuotes {
        assert st.fields + [st.current] + [[]] == xs + [[]];
        JoinAppendEmpty(xs, ',');
      } else if c != '"' {
        assert xs[..|xs| - 1] == st.fields;
        JoinExtendLast(xs, ',', c);
      }
    }
  }

  lemma {:induction false} ScanQuotes(s: string)
    ensures ScanFrom(Start, s).inQuotes == OddQuotes(s)
  {
    if s != [] {
      ScanQuotes(s[..|s| - 1]);
    }
  }

  lemma {:induction false} ScanCount(s: string)
    ensures |ScanFrom(Start, s).fields| == UnquotedCommas(s)
  {
    if s != [] {
      ScanCount(s[..|s| - 1]);
      ScanQuotes(s[..|s| - 1]);
    }
  }

  lemma {:induction false} ScanNoQuotes(s: string)
    ensures var st := ScanFrom(Start, s);
      && '"' !in st.current
      && forall i :: 0 <= i < |st.fields| ==> '"' !in st.fields[i]
  {
    if s != [] {
      ScanNoQuotes(s[..|s| - 1]);
    }
  }

  /** Joining the fields with `,` gives the line with every `"` removed. */
  lemma FieldsJoin(line: string)
    ensures Join(Fields(line), ',') == RemoveQuotes(line)
  {
    ScanInvariant(line);
  }

  /** There is one field more than there are commas outside quotes. */
  lemma FieldsCount(line: string)
    ensures |Fields(line)| == 1 + UnquotedCommas(line)
  {
    ScanInvariant(line);
  }

  /** No field contains a quote character. */
  lemma FieldsHaveNoQuotes(line: string)
    ensures forall i :: 0 <= i < |Fields(line)| ==> '"' !in Fields(line)[i]
  {
    ScanInvariant(line);
    var st := ScanFrom(Start, line);
    assert Fields(line) == st.fields + [st.current];
  }

  /** Scanning `a + b` is scanning `a` and then `b`. */
  lemma {:induction false} ScanFromAppend(st: ScanState, a: string, b: string)
    ensures ScanFrom(st, a + b) == ScanFrom(ScanFrom(st, a), b)
    decreases |b|
  {
    if b == [] {
      assert a + b == a;
    } else {
      assert (a + b)[..|a + b| - 1] == a + b[..|b| - 1];
      ScanFromAppend(st, a, b[..|b| - 1]);
    }
  }

  /** Text without quotes, read either inside quotes or without commas, is
      appended to the current field unchanged. */
  lemma {:induction false} ScanPlainText(st: ScanState, t: string)
    requires '"' !in t
    requires st.inQuotes || ',' !in t
    ensures ScanFrom(st, t) == st.(current := st.current + t)
    decreases |t|
  {
    if t != [] {
      var init := t[..|t| - 1];
      assert t == init + [t[|t| - 1]];
      ScanPlainText(st, init);
    }
  }

  /** On text without quotes the scan never enters quotes and its fields
      are those of `split(',')`. */
  lemma {:induction false} ScanWithoutQuotes(s: string)
    requires '"' !in s
    ensures var st := ScanFrom(Start, s);
      !st.inQuotes && st.fields + [st.current] == Split(s, ',')
    decreases |s|
  {
    if s != [] {
      var init := s[..|s| - 1];
      var c := s[|s| - 1];
      assert '"' !in init by { assert forall x :: x in init ==> x in s; }
      ScanWithoutQuotes(init);
      var st := ScanFrom(Start, init);
      var sp := Split(init, ',');
      assert sp == st.fields + [st.current];
      if c == ',' {
        calc {
          Split(s, ',');
          sp + [[]];
          st.fields + [st.current] + [[]];
        }
      } else {
        assert sp[..|sp| - 1] == st.fields;
        assert Split(s, ',') == sp[..|sp| - 1] + [sp[|sp| - 1] + [c]];
      }
    }
  }

  /** On a line without quotes the splitter is plain `split(',')`, as used
      for the header line. */
  lemma FieldsWithoutQuotes(line: string)
    requires '"' !in line
    ensures Fields(line) == Split(line, ',')
  {
    ScanWithoutQuotes(line);
  }
}
