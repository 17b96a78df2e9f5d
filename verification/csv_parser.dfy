/**
  The line splitter `parseCSVLine` of lib/csvParser.ts: a quote-toggling
  scanner that cuts a line at the commas outside quotes. Grouping the rows
  into quizzes is in quiz_loader.dfy.
 */
module CsvParser {
  import opened Basics
  import opened Text

  // ---------------------------------------------------------------------------
  // parseCSVLine
  // ---------------------------------------------------------------------------

  /** The loop state of `parseCSVLine`: the fields pushed so far, the field
      being built, and whether the scanner is between quotes. */
  datatype ScanState = ScanState(done: seq<string>, current: string, inQuotes: bool)

  const Start := ScanState([], [], false)

  /** One iteration of the scanner: a quote flips the flag and is dropped, a
      comma outside quotes pushes the field, anything else is kept. The
      source trims each field as it pushes it; here the raw fields are
      pushed and `ParseLine` trims them all at the end, which gives the
      same list. */
  function Step(st: ScanState, c: char): ScanState
  {
    if c == '"' then st.(inQuotes := !st.inQuotes)
    else if c == ',' && !st.inQuotes then ScanState(st.done + [st.current], [], st.inQuotes)
    else st.(current := st.current + [c])
  }

  /** The scanner run over `s` from state `st`. */
  function ScanFrom(st: ScanState, s: string): ScanState
  {
    if s == [] then st else Step(ScanFrom(st, s[..|s| - 1]), s[|s| - 1])
  }

  /** Whether `s` holds an odd number of quote characters. */
  predicate OddQuotes(s: string)
  {
    if s == [] then false else OddQuotes(s[..|s| - 1]) != (s[|s| - 1] == '"')
  }

  /** Commas of `s` preceded by an even number of quotes, i.e. the commas
      that separate fields. */
  function UnquotedCommas(s: string): nat
  {
    if s == [] then 0
    else
      var init := s[..|s| - 1];
      UnquotedCommas(init) + (if s[|s| - 1] == ',' && !OddQuotes(init) then 1 else 0)
  }

  /** What every returned field looks like: no quote character, and no
      whitespace at either end. */
  predicate FieldShape(f: string)
  {
    '"' !in f && IsTrimmed(f)
  }

  lemma {:induction false} ScanAppend(st: ScanState, a: string, b: string)
    ensures ScanFrom(st, a + b) == ScanFrom(ScanFrom(st, a), b)
  {
    if b == [] {
      assert a + b == a;
    } else {
      assert (a + b)[..|a + b| - 1] == a + b[..|b| - 1];
      ScanAppend(st, a, b[..|b| - 1]);
    }
  }

  lemma StepShift(prefix: seq<string>, st: ScanState, c: char)
    ensures Step(st.(done := prefix + st.done), c) == Step(st, c).(done := prefix + Step(st, c).done)
  {
    if c != '"' && c == ',' && !st.inQuotes {
      assert (prefix + st.done) + [st.current] == prefix + (st.done + [st.current]);
    }
  }

  /** Fields already pushed are never revisited. */
  lemma {:induction false} ScanShift(prefix: seq<string>, st: ScanState, s: string)
    ensures ScanFrom(st.(done := prefix + st.done), s)
         == ScanFrom(st, s).(done := prefix + ScanFrom(st, s).done)
  {
    if s != [] {
      var init := s[..|s| - 1];
      var c := s[|s| - 1];
      ScanShift(prefix, st, init);
      StepShift(prefix, ScanFrom(st, init), c);
    }
  }

  /** The loop invariant of `parseCSVLine` after reading `s`: the flag is
      the parity of the quotes read, one field was pushed per separating
      comma, and no field holds a quote character. */
  predicate Consistent(st: ScanState, s: string)
  {
    && st.inQuotes == OddQuotes(s)
    && |st.done| == UnquotedCommas(s)
    && '"' !in st.current
    && forall i :: 0 <= i < |st.done| ==> '"' !in st.done[i]
  }

  lemma StepConsistent(st: ScanState, s: string)
    requires s != [] && Consistent(st, s[..|s| - 1])
    ensures Consistent(Step(st, s[|s| - 1]), s)
  {
    var c := s[|s| - 1];
    if c != '"' && c == ',' && !st.inQuotes {
      var d := st.done + [st.current];
      forall i | 0 <= i < |d|
        ensures '"' !in d[i]
      {
        if i < |st.done| {
          assert d[i] == st.done[i];
        }
      }
      assert Step(st, c) == ScanState(d, [], false);
    } else {
      assert Step(st, c).done == st.done;
    }
  }

  lemma {:induction false} ScanInvariant(s: string)
    ensures Consistent(ScanFrom(Start, s), s)
  {
    if s != [] {
      ScanInvariant(s[..|s| - 1]);
      StepConsistent(ScanFrom(Start, s[..|s| - 1]), s);
    }
  }

  /** The fields of `line` before trimming. */
  function RawFields(line: string): seq<string>
  {
    var st := ScanFrom(Start, line);
    st.done + [st.current]
  }

  /** Every field trimmed. */
  function TrimAll(fs: seq<string>): (r: seq<string>)
    ensures |r| == |fs|
    ensures forall i :: 0 <= i < |fs| ==> r[i] == Trim(fs[i])
  {
    Map(Trim, fs)
  }

  /** `parseCSVLine`: one more field than there are unquoted commas, and
      every field is trimmed and free of quote characters. */
  function ParseLine(line: string): (fields: seq<string>)
    ensures |fields| == UnquotedCommas(line) + 1
    ensures forall i :: 0 <= i < |fields| ==> FieldShape(fields[i])
  {
    var raw := RawFields(line);
    ScanInvariant(line);
    forall i | 0 <= i < |raw|
      ensures '"' !in Trim(raw[i])
    {
      TrimSubset(raw[i], '"');
    }
    TrimAll(raw)
  }

  /** A comma preceded by an even number of quotes splits the line: the
      scan of the right side simply continues after the fields of the
      left side. */
  lemma SplitScan(a: string, b: string)
    requires !OddQuotes(a)
    ensures ScanFrom(Start, a + [','] + b)
         == ScanFrom(Start, b).(done := RawFields(a) + ScanFrom(Start, b).done)
  {
    var ac := a + [','];
    ScanAppend(Start, ac, b);
    ScanInvariant(a);
    assert ac[..|ac| - 1] == a;
    assert ScanFrom(Start, ac) == Start.(done := RawFields(a) + Start.done);
    ScanShift(RawFields(a), Start, b);
  }

  /** The fields of `a,b` are those of `a` followed by those of `b`, when
      the comma is outside quotes. */
  lemma SplitAtUnquotedComma(a: string, b: string)
    requires !OddQuotes(a)
    ensures ParseLine(a + [','] + b) == ParseLine(a) + ParseLine(b)
  {
    SplitScan(a, b);
    assert RawFields(a + [','] + b) == RawFields(a) + RawFields(b);
    MapAppend(Trim, RawFields(a), RawFields(b));
  }

  /** Characters that are neither quotes nor separating commas are copied
      into the current field. */
  lemma {:induction false} ScanPlain(st: ScanState, p: string)
    requires '"' !in p
    requires st.inQuotes || ',' !in p
    ensures ScanFrom(st, p) == st.(current := st.current + p)
  {
    if p != [] {
      var init := p[..|p| - 1];
      ScanPlain(st, init);
      assert st.current + init + [p[|p| - 1]] == st.current + p;
    }
  }

  /** A quoted field: the quotes are dropped and everything between them,
      commas included, is kept. */
  lemma QuotedScan(m: string)
    requires '"' !in m
    ensures ScanFrom(Start, ['"'] + m + ['"']) == ScanState([], m, false)
  {
    ScanAppend(Start, ['"'] + m, ['"']);
    ScanAppend(Start, ['"'], m);
    assert ['"'][..0] == [];
    ScanPlain(Start.(inQuotes := true), m);
  }

  /** One cell as a CSV writer puts it on the line: either bare, or
      between quotes so that it may hold commas. Neither form can hold a
      quote character, which the scanner has no escape for. */
  datatype Cell = Bare(text: string) | Quoted(text: string)

  predicate CellOk(c: Cell)
  {
    '"' !in c.text && (c.Bare? ==> ',' !in c.text)
  }

  function CellSource(c: Cell): string
  {
    if c.Bare? then c.text else ['"'] + c.text + ['"']
  }

  function CellText(c: Cell): string
  {
    c.text
  }

  /** The line a writer produces for a row of cells. */
  function WriteRow(cells: seq<Cell>): string
  {
    JoinWith(Map(CellSource, cells), ',')
  }

  lemma CellScan(c: Cell)
    requires CellOk(c)
    ensures ScanFrom(Start, CellSource(c)) == ScanState([], c.text, false)
  {
    if c.Bare? {
      ScanPlain(Start, c.text);
      assert [] + c.text == c.text;
    } else {
      QuotedScan(c.text);
    }
  }

  lemma {:induction false} RowScan(cells: seq<Cell>)
    requires |cells| >= 1
    requires forall i :: 0 <= i < |cells| ==> CellOk(cells[i])
    ensures RawFields(WriteRow(cells)) == Map(CellText, cells)
    ensures !OddQuotes(WriteRow(cells))
  {
    if |cells| == 1 {
      CellScan(cells[0]);
      ScanInvariant(WriteRow(cells));
      assert WriteRow(cells) == CellSource(cells[0]);
    } else {
      RowScan(cells[..|cells| - 1]);
      RowScanStep(cells);
    }
  }

  /** Appending one cell to a row that scans to its texts. */
  lemma RowScanStep(cells: seq<Cell>)
    requires |cells| >= 2 && CellOk(cells[|cells| - 1])
    requires RawFields(WriteRow(cells[..|cells| - 1])) == Map(CellText, cells[..|cells| - 1])
    requires !OddQuotes(WriteRow(cells[..|cells| - 1]))
    ensures RawFields(WriteRow(cells)) == Map(CellText, cells)
    ensures !OddQuotes(WriteRow(cells))
  {
    var n := |cells|;
    var last := cells[n - 1];
    var b := CellSource(last);
    CellScan(last);
    var init := cells[..n - 1];
    assert Map(CellSource, cells)[..n - 1] == Map(CellSource, init);
    var a := WriteRow(init);
    assert WriteRow(cells) == a + [','] + b;
    SplitScan(a, b);
    ScanInvariant(WriteRow(cells));
    assert Map(CellText, cells) == Map(CellText, init) + [last.text];
  }

  /** Round trip: a row written cell by cell, bare or quoted, parses back
      to the cells' texts, trimmed; commas inside quoted cells survive. */
  lemma RowRoundTrip(cells: seq<Cell>)
    requires |cells| >= 1
    requires forall i :: 0 <= i < |cells| ==> CellOk(cells[i])
    ensures ParseLine(WriteRow(cells)) == TrimAll(Map(CellText, cells))
  {
    RowScan(cells);
  }

  /** With no separating comma the line is one field: quotes removed, then
      trimmed. */
  lemma {:induction false} ScanWithoutSeparator(s: string)
    requires UnquotedCommas(s) == 0
    ensures ScanFrom(Start, s).done == []
    ensures ScanFrom(Start, s).current == Without(s, {'"'})
  {
    if s != [] {
      var init := s[..|s| - 1];
      var c := s[|s| - 1];
      assert s == init + [c];
      ScanWithoutSeparator(init);
      ScanInvariant(init);
      WithoutAppend(init, [c], {'"'});
      assert [c][..0] == [];
    }
  }

  lemma SingleField(s: string)
    requires UnquotedCommas(s) == 0
    ensures ParseLine(s) == [Trim(Without(s, {'"'}))]
  {
    ScanWithoutSeparator(s);
    var x := Without(s, {'"'});
    assert RawFields(s) == [x];
    assert TrimAll([x]) == [Trim(x)];
  }

  /** The row of the embedded question bank whose question holds a quoted
      comma, `Physics,"In superconductors, resistance becomes:",Infinite,...`,
      parses to eight fields with the question kept whole; the same holds
      for any trimmed question text without a quote character. */
  lemma QuotedQuestionRow(q: string)
    requires '"' !in q && IsTrimmed(q)
    ensures var cells := [Bare("Physics"), Quoted(q), Bare("Infinite"), Bare("Zero"),
                          Bare("Constant"), Bare("Double"), Bare("Zero"), Bare("Hard")];
            ParseLine(WriteRow(cells)) == ["Physics", q, "Infinite", "Zero", "Constant", "Double", "Zero", "Hard"]
  {
    var cells := [Bare("Physics"), Quoted(q), Bare("Infinite"), Bare("Zero"),
                  Bare("Constant"), Bare("Double"), Bare("Zero"), Bare("Hard")];
    var expected := ["Physics", q, "Infinite", "Zero", "Constant", "Double", "Zero", "Hard"];
    forall i | 0 <= i < |cells|
      ensures CellOk(cells[i]) && IsTrimmed(expected[i]) && CellText(cells[i]) == expected[i]
    {
      if i != 1 {
        WordOk(expected[i]);
      }
    }
    RowRoundTrip(cells);
    var texts := Map(CellText, cells);
    forall i | 0 <= i < |texts|
      ensures TrimAll(texts)[i] == expected[i]
    {
      TrimOfTrimmed(texts[i]);
    }
  }

  /** The question of that bank line. */
  const SuperconductorQuestion: string := "In superconductors, resistance becomes:"

  /** That bank line, piece by piece: the topic, the quoted question and
      the six bare cells, with commas between them. */
  const SuperconductorLine: string :=
    "Physics" + "," + ("\"" + SuperconductorQuestion + "\"") + "," + "Infinite" + "," + "Zero" + ","
    + "Constant" + "," + "Double" + "," + "Zero" + "," + "Hard"

  /** The bank line parses to eight fields, the second being the whole
      question with its comma and without its quotes. */
  lemma SuperconductorLineFields()
    ensures ParseLine(SuperconductorLine)
         == ["Physics", SuperconductorQuestion, "Infinite", "Zero", "Constant", "Double", "Zero", "Hard"]
  {
    var q := SuperconductorQuestion;
    SuperconductorQuestionOk();
    QuotedQuestionRow(q);
    var cells := [Bare("Physics"), Quoted(q), Bare("Infinite"), Bare("Zero"),
                  Bare("Constant"), Bare("Double"), Bare("Zero"), Bare("Hard")];
    var ps := Map(CellSource, cells);
    assert ps == ["Physics", "\"" + q + "\"", "Infinite", "Zero", "Constant", "Double", "Zero", "Hard"];
    JoinEight("Physics", "\"" + q + "\"", "Infinite", "Zero", "Constant", "Double", "Zero", "Hard", ',');
  }

  /** Eight pieces joined, written out. */
  lemma JoinEight(a: string, b: string, c: string, d: string, e: string, f: string, g: string, h: string,
                  sep: char)
    ensures JoinWith([a, b, c, d, e, f, g, h], sep)
         == a + [sep] + b + [sep] + c + [sep] + d + [sep] + e + [sep] + f + [sep] + g + [sep] + h
  {
    assert [a, b][..1] == [a];
    assert [a, b, c][..2] == [a, b];
    assert [a, b, c, d][..3] == [a, b, c];
    assert [a, b, c, d, e][..4] == [a, b, c, d];
    assert [a, b, c, d, e, f][..5] == [a, b, c, d, e];
    assert [a, b, c, d, e, f, g][..6] == [a, b, c, d, e, f];
    assert [a, b, c, d, e, f, g, h][..7] == [a, b, c, d, e, f, g];
    assert JoinWith([a, b], sep) == a + [sep] + b;
    assert JoinWith([a, b, c], sep) == a + [sep] + b + [sep] + c;
    assert JoinWith([a, b, c, d], sep) == a + [sep] + b + [sep] + c + [sep] + d;
    assert JoinWith([a, b, c, d, e], sep) == a + [sep] + b + [sep] + c + [sep] + d + [sep] + e;
    assert JoinWith([a, b, c, d, e, f], sep)
        == a + [sep] + b + [sep] + c + [sep] + d + [sep] + e + [sep] + f;
    assert JoinWith([a, b, c, d, e, f, g], sep)
        == a + [sep] + b + [sep] + c + [sep] + d + [sep] + e + [sep] + f + [sep] + g;
  }

  predicate IsLetter(c: char)
  {
    'A' <= c <= 'Z' || 'a' <= c <= 'z'
  }

  /** A word of letters is a valid bare cell and has no surrounding spaces. */
  lemma WordOk(w: string)
    requires w in ["Physics", "Infinite", "Zero", "Constant", "Double", "Hard"]
    ensures CellOk(Bare(w)) && IsTrimmed(w)
  {
    assert forall i :: 0 <= i < |w| ==> IsLetter(w[i]);
  }

  /** The question text of that row qualifies. */
  lemma SuperconductorQuestionOk()
    ensures var q := SuperconductorQuestion;
            '"' !in q && IsTrimmed(q) && ',' in q
  {
    var q := SuperconductorQuestion;
    assert q[18] == ',';
    assert forall i :: 0 <= i < |q| ==> q[i] != '"';
  }
}
