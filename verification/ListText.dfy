/**
 What the parsers of a list make of its lines (pkg/engine: parseTable, parseCSV, parseBox, parseRecords and the parsers of
 one value a line), said of the lines themselves: which of them is a header, which of them a value is made of, and in what order.
 */
module ListText {
  import opened Lines
  import opened Json
  import opened Stages
  import opened Readings
  import opened InputText
  import Columns

  // ----- one value a line -----

  /** As many values as lines, each read from the line in its place. */
  lemma {:induction false} EachLineIsRead(read: Line -> Outcome<Json>, lines: seq<Line>)
    ensures PerLineRun(read, lines).Ok? <==> forall i :: 0 <= i < |lines| ==> read(lines[i]).Ok?
    ensures PerLineRun(read, lines).Ok? ==>
      var values := PerLineRun(read, lines).value;
      |values| == |lines| && forall i :: 0 <= i < |lines| ==> read(lines[i]) == Ok(values[i])
  {
    if lines != [] {
      var n := |lines| - 1;
      EachLineIsRead(read, lines[..n]);
      assert forall i :: 0 <= i < n ==> lines[..n][i] == lines[i];
    }
  }

  // ----- tables -----

  /** A line that names columns: the first one of a table that has none given, and every line like it. */
  predicate IsHeading(t: TableKind, lines: seq<Line>, i: nat)
    requires i < |lines|
  {
    t.columns.None? && (i == 0 || t.sameHeader(lines[i].text, lines[0].text))
  }

  /** The columns a row stands under: those given, or those of the last heading above it. */
  ghost predicate StandsUnder(t: TableKind, lines: seq<Line>, i: nat, columns: seq<Column>)
    requires i < |lines|
  {
    if t.columns.Some? then columns == t.columns.value
    else exists h: nat :: h < i && IsLastHeading(t, lines, h, i) && t.resolve(lines[h]) == Ok(columns)
  }

  predicate IsLastHeading(t: TableKind, lines: seq<Line>, h: nat, i: nat)
    requires i <= |lines|
  {
    h < i && IsHeading(t, lines, h) && forall j :: h < j < i ==> !IsHeading(t, lines, j)
  }

  ghost predicate IsRow(t: TableKind, lines: seq<Line>, i: nat, v: Json)
    requires i < |lines|
  {
    !IsHeading(t, lines, i) && exists columns :: StandsUnder(t, lines, i, columns) && t.row(columns, lines[i]) == Ok(v)
  }

  ghost predicate AreRows(t: TableKind, lines: seq<Line>, picks: seq<nat>, values: seq<Json>) {
    && Rising(picks, |lines|) && |values| == |picks|
    && (forall i :: 0 <= i < |lines| ==> (i in picks <==> !IsHeading(t, lines, i)))
    && forall k :: 0 <= k < |picks| ==> IsRow(t, lines, picks[k], values[k])
  }

  /** How the state of the table stands after its lines. */
  ghost predicate TableStands(t: TableKind, lines: seq<Line>, s: TableState) {
    && (t.columns.Some? ==> s.columns == t.columns)
    && (t.columns.None? ==> (s.columns.None? <==> lines == []))
    && (t.columns.None? && lines != [] ==>
          s.header == lines[0].text && exists h: nat :: h < |lines| && IsLastHeading(t, lines, h, |lines|) && t.resolve(lines[h]) == Ok(s.columns.value))
  }

  lemma {:induction false} HeadingsStay(t: TableKind, lines: seq<Line>, l: Line)
    ensures forall i :: 0 <= i < |lines| ==> IsHeading(t, lines + [l], i) == IsHeading(t, lines, i)
    ensures forall h: nat, i :: 0 <= i <= |lines| ==> IsLastHeading(t, lines + [l], h, i) == IsLastHeading(t, lines, h, i)
    ensures IsHeading(t, lines + [l], |lines|) <==> t.columns.None? && (lines == [] || t.sameHeader(l.text, lines[0].text))
  {
    var all := lines + [l];
    assert forall i :: 0 <= i < |lines| ==> all[i] == lines[i];
  }

  lemma {:induction false} RowsStay(t: TableKind, lines: seq<Line>, l: Line, i: nat, v: Json)
    requires i < |lines| && IsRow(t, lines, i, v)
    ensures IsRow(t, lines + [l], i, v)
  {
    hide IsHeading, IsLastHeading;
    HeadingsStay(t, lines, l);
    var columns :| StandsUnder(t, lines, i, columns) && t.row(columns, lines[i]) == Ok(v);
    var all := lines + [l];
    assert all[i] == lines[i];
    assert StandsUnder(t, all, i, columns) by {
      if t.columns.None? {
        var h: nat :| h < i && IsLastHeading(t, lines, h, i) && t.resolve(lines[h]) == Ok(columns);
        assert IsLastHeading(t, all, h, i) && all[h] == lines[h];
      }
    }
  }

  /** A heading is the last one above what follows it, and no other line is. */
  lemma {:induction false} LastHeading(t: TableKind, lines: seq<Line>, n: nat, h: nat)
    requires n < |lines|
    ensures IsHeading(t, lines, n) ==> IsLastHeading(t, lines, n, n + 1)
    ensures !IsHeading(t, lines, n) && IsLastHeading(t, lines, h, n) ==> IsLastHeading(t, lines, h, n + 1)
  {
    hide IsHeading;
  }

  /** What one more line does to how the table stands. */
  lemma {:induction false} TableGoesOn(t: TableKind, lines: seq<Line>, l: Line, s: TableState)
    requires TableStands(t, lines, s) && TableStep(t, s, l).Ok?
    ensures TableStands(t, lines + [l], TableStep(t, s, l).value)
    ensures
      var all, after := lines + [l], TableStep(t, s, l).value;
      if IsHeading(t, all, |lines|) then after.values == s.values
      else |after.values| == |s.values| + 1 && after.values[..|s.values|] == s.values && IsRow(t, all, |lines|, after.values[|s.values|])
  {
    hide IsHeading, IsLastHeading;
    HeadingsStay(t, lines, l);
    var all, n, after := lines + [l], |lines|, TableStep(t, s, l).value;
    assert all[n] == l && (lines != [] ==> all[0] == lines[0]);
    if t.columns.None? {
      if IsHeading(t, all, n) {
        LastHeading(t, all, n, n);
        assert t.resolve(all[n]) == Ok(after.columns.value);
      } else {
        var h: nat :| h < n && IsLastHeading(t, lines, h, n) && t.resolve(lines[h]) == Ok(s.columns.value);
        LastHeading(t, all, n, h);
        assert all[h] == lines[h];
        assert StandsUnder(t, all, n, s.columns.value);
      }
    } else {
      assert StandsUnder(t, all, n, s.columns.value) && !IsHeading(t, all, n);
    }
  }

  /** One more line is a heading, or a row under the one above it. */
  lemma {:induction false} OneMoreTableLine(t: TableKind, lines: seq<Line>, l: Line, s: TableState, picks: seq<nat>) returns (more: seq<nat>)
    requires TableStands(t, lines, s) && AreRows(t, lines, picks, s.values) && TableStep(t, s, l).Ok?
    ensures AreRows(t, lines + [l], more, TableStep(t, s, l).value.values)
  {
    hide IsHeading, IsRow, TableStands, TableStep;
    HeadingsStay(t, lines, l);
    TableGoesOn(t, lines, l, s);
    var all, n, after := lines + [l], |lines|, TableStep(t, s, l).value;
    more := if IsHeading(t, all, n) then picks else picks + [n];
    assert !IsHeading(t, all, n) ==> more[|picks|] == n;
    forall i | 0 <= i < |all| ensures i in more <==> !IsHeading(t, all, i) {
      assert i < n ==> (i in more <==> i in picks);
    }
    forall k | 0 <= k < |more| ensures IsRow(t, all, more[k], after.values[k]) {
      if k < |picks| {
        RowsStay(t, lines, l, picks[k], s.values[k]);
      }
    }
  }

  lemma {:induction false} NothingRead(t: TableKind)
    ensures TableStands(t, [], TableStart(t)) && AreRows(t, [], [], [])
  {
  }

  /** The values of a table are its lines but the headings, in their order, each read under the last heading above it or
      under the columns that are given. */
  lemma {:induction false} TableIsItsRows(t: TableKind, lines: seq<Line>) returns (picks: seq<nat>)
    requires TableRun(t, lines).Ok?
    ensures TableStands(t, lines, TableRun(t, lines).value)
    ensures AreRows(t, lines, picks, TableRun(t, lines).value.values)
  {
    hide TableStep, TableStands, AreRows;
    if lines == [] {
      picks := [];
      NothingRead(t);
    } else {
      var n := |lines| - 1;
      picks := TableIsItsRows(t, lines[..n]);
      var s := TableRun(t, lines[..n]).value;
      TableGoesOn(t, lines[..n], lines[n], s);
      picks := OneMoreTableLine(t, lines[..n], lines[n], s, picks);
      assert lines[..n] + [lines[n]] == lines;
    }
  }

  /** A heading names columns, or a row is read under those it stands under. */
  ghost predicate LineIsRead(t: TableKind, lines: seq<Line>, i: nat)
    requires i < |lines|
  {
    if IsHeading(t, lines, i) then t.resolve(lines[i]).Ok?
    else exists columns :: StandsUnder(t, lines, i, columns) && t.row(columns, lines[i]).Ok?
  }

  lemma {:induction false} LineStaysRead(t: TableKind, lines: seq<Line>, l: Line, i: nat)
    requires i < |lines|
    ensures LineIsRead(t, lines + [l], i) <==> LineIsRead(t, lines, i)
  {
    hide IsHeading, IsLastHeading;
    HeadingsStay(t, lines, l);
    var all := lines + [l];
    assert all[i] == lines[i];
    forall columns ensures StandsUnder(t, all, i, columns) <==> StandsUnder(t, lines, i, columns) {
      if h: nat :| h < i && IsLastHeading(t, all, h, i) && t.resolve(all[h]) == Ok(columns) {
        assert all[h] == lines[h] && IsLastHeading(t, lines, h, i);
      }
      if h: nat :| h < i && IsLastHeading(t, lines, h, i) && t.resolve(lines[h]) == Ok(columns) {
        assert all[h] == lines[h] && IsLastHeading(t, all, h, i);
      }
    }
  }

  lemma {:induction false} OneLastHeading(t: TableKind, lines: seq<Line>, h: nat, k: nat, i: nat)
    requires i <= |lines| && IsLastHeading(t, lines, h, i) && IsLastHeading(t, lines, k, i)
    ensures h == k
  {
  }

  lemma {:induction false} NextLineIsRead(t: TableKind, lines: seq<Line>, l: Line, s: TableState)
    requires TableStands(t, lines, s)
    ensures TableStep(t, s, l).Ok? <==> LineIsRead(t, lines + [l], |lines|)
  {
    hide IsHeading, IsLastHeading;
    HeadingsStay(t, lines, l);
    var all, n := lines + [l], |lines|;
    assert all[n] == l && (lines != [] ==> all[0] == lines[0]);
    if t.columns.None? && !IsHeading(t, all, n) {
      var h: nat :| h < n && IsLastHeading(t, lines, h, n) && t.resolve(lines[h]) == Ok(s.columns.value);
      assert all[h] == lines[h] && StandsUnder(t, all, n, s.columns.value);
      forall columns | StandsUnder(t, all, n, columns) ensures columns == s.columns.value {
        var k: nat :| k < n && IsLastHeading(t, all, k, n) && t.resolve(all[k]) == Ok(columns);
        OneLastHeading(t, all, h, k, n);
      }
    } else if t.columns.Some? {
      assert StandsUnder(t, all, n, s.columns.value) && !IsHeading(t, all, n);
    }
  }

  /** A table is read exactly when every heading names columns and every row is read under those it stands under. */
  lemma {:induction false} TableIsReadExactly(t: TableKind, lines: seq<Line>)
    ensures TableRun(t, lines).Ok? <==> forall i :: 0 <= i < |lines| ==> LineIsRead(t, lines, i)
  {
    hide TableStep, LineIsRead, TableStands;
    if lines != [] {
      var n := |lines| - 1;
      var init := lines[..n];
      assert init + [lines[n]] == lines;
      TableIsReadExactly(t, init);
      forall i | 0 <= i < n ensures LineIsRead(t, lines, i) <==> LineIsRead(t, init, i) {
        LineStaysRead(t, init, lines[n], i);
      }
      if TableRun(t, init).Ok? {
        var picks := TableIsItsRows(t, init);
        NextLineIsRead(t, init, lines[n], TableRun(t, init).value);
      }
    }
  }

  // ----- csv -----

  /** The rows of all records, in order. */
  function RowsOf(c: CsvKind, records: seq<Line>): Outcome<seq<seq<string>>> {
    if records == [] then Ok([])
    else
      var n := |records| - 1;
      var before :- RowsOf(c, records[..n]);
      var last :- c.cut(records[n].text);
      Ok(before + last)
  }

  /** Every value of a csv is a row of its records, in order, as an object under the columns; the first row is no value where
      it is the header, and names the columns then. */
  ghost predicate CsvIsItsRows(c: CsvKind, rows: seq<seq<string>>, start: Option<seq<string>>, values: seq<Json>) {
    rows != [] ==>
      var header := start.None? && !c.none;
      var columns := if start.Some? then start.value else CsvColumns(c, rows[0]);
      var from := if header then 1 else 0;
      && Columns.AllKnown(c.expected, columns)
      && |values| == |rows| - from
      && forall k :: from <= k < |rows| ==> Columns.RowObject(c.convert, columns, rows[k]) == Ok(values[k - from])
  }

  ghost predicate CsvStands(c: CsvKind, rows: seq<seq<string>>, start: Option<seq<string>>, s: CsvState) {
    && CsvIsItsRows(c, rows, start, s.values)
    && (rows == [] ==> s == CsvState(start, false, []))
    && (rows != [] ==> s.checked && s.columns == Some(if start.Some? then start.value else CsvColumns(c, rows[0])))
  }

  lemma {:induction false} OneMoreCsvRow(c: CsvKind, rows: seq<seq<string>>, start: Option<seq<string>>, s: CsvState, row: seq<string>)
    requires CsvStands(c, rows, start, s) && CsvRow(c, s, row).Ok?
    ensures CsvStands(c, rows + [row], start, CsvRow(c, s, row).value)
  {
    hide Columns.RowObject, CsvColumns, Columns.AllKnown;
    var all := rows + [row];
    assert all[|rows|] == row && (rows != [] ==> all[0] == rows[0]);
    assert forall k :: 0 <= k < |rows| ==> all[k] == rows[k];
  }

  lemma {:induction false} MoreCsvRows(c: CsvKind, rows: seq<seq<string>>, start: Option<seq<string>>, s: CsvState, more: seq<seq<string>>)
    requires CsvStands(c, rows, start, s) && CsvRows(c, s, more).Ok?
    ensures CsvStands(c, rows + more, start, CsvRows(c, s, more).value)
  {
    hide CsvStands, CsvRow;
    if more == [] {
      assert rows + more == rows;
    } else {
      var n := |more| - 1;
      MoreCsvRows(c, rows, start, s, more[..n]);
      OneMoreCsvRow(c, rows + more[..n], start, CsvRows(c, s, more[..n]).value, more[n]);
      assert rows + more[..n] + [more[n]] == rows + more;
    }
  }

  /** The values of a csv. */
  lemma {:induction false} CsvIsRead(c: CsvKind, start: Option<seq<string>>, records: seq<Line>)
    requires CsvRun(c, CsvState(start, false, []), records).Ok?
    ensures RowsOf(c, records).Ok?
    ensures CsvStands(c, RowsOf(c, records).value, start, CsvRun(c, CsvState(start, false, []), records).value)
  {
    hide CsvRows;
    if records == [] {
      assert CsvStands(c, [], start, CsvState(start, false, []));
    } else {
      hide CsvStands;
      var n := |records| - 1;
      CsvIsRead(c, start, records[..n]);
      var s := CsvRun(c, CsvState(start, false, []), records[..n]).value;
      MoreCsvRows(c, RowsOf(c, records[..n]).value, start, s, c.cut(records[n].text).value);
    }
  }

  /** What rows come to, whether or not they are read: that they are, or which columns are missing or which row is not. */
  ghost predicate RowsAreRead(c: CsvKind, rows: seq<seq<string>>, start: Option<seq<string>>) {
    rows != [] ==>
      var columns := if start.Some? then start.value else CsvColumns(c, rows[0]);
      && Columns.AllKnown(c.expected, columns)
      && forall k :: (if start.None? && !c.none then 1 else 0) <= k < |rows| ==> Columns.RowObject(c.convert, columns, rows[k]).Ok?
  }

  lemma {:induction false} NextRowIsRead(c: CsvKind, rows: seq<seq<string>>, start: Option<seq<string>>, s: CsvState, row: seq<string>)
    requires CsvStands(c, rows, start, s)
    ensures CsvRow(c, s, row).Ok? <==> RowsAreRead(c, rows + [row], start)
  {
    hide Columns.RowObject, CsvColumns, Columns.AllKnown;
    var all := rows + [row];
    assert all[|rows|] == row && forall k :: 0 <= k < |rows| ==> all[k] == rows[k];
  }

  lemma {:induction false} FewerAreRead(c: CsvKind, rows: seq<seq<string>>, start: Option<seq<string>>, more: seq<seq<string>>)
    requires RowsAreRead(c, rows + more, start)
    ensures RowsAreRead(c, rows, start)
  {
    hide Columns.RowObject, CsvColumns, Columns.AllKnown;
    assert forall k :: 0 <= k < |rows| ==> (rows + more)[k] == rows[k];
  }

  lemma {:induction false} MoreRowsAreRead(c: CsvKind, rows: seq<seq<string>>, start: Option<seq<string>>, s: CsvState, more: seq<seq<string>>)
    requires CsvStands(c, rows, start, s) && RowsAreRead(c, rows, start)
    ensures CsvRows(c, s, more).Ok? <==> RowsAreRead(c, rows + more, start)
  {
    hide CsvStands, CsvRow, RowsAreRead;
    if more == [] {
      assert rows + more == rows;
    } else {
      var n := |more| - 1;
      var most := rows + more[..n];
      MoreRowsAreRead(c, rows, start, s, more[..n]);
      assert most + [more[n]] == rows + more;
      if CsvRows(c, s, more[..n]).Ok? {
        MoreCsvRows(c, rows, start, s, more[..n]);
        NextRowIsRead(c, most, start, CsvRows(c, s, more[..n]).value, more[n]);
      } else if RowsAreRead(c, rows + more, start) {
        FewerAreRead(c, most, start, [more[n]]);
      }
    }
  }

  lemma {:induction false} NoRowsAreRead(c: CsvKind, start: Option<seq<string>>)
    ensures RowsAreRead(c, [], start) && CsvStands(c, [], start, CsvState(start, false, []))
  {
  }

  /** A csv is read exactly when its records are cut into rows, the columns that are asked for are there, and every row under
      them is read. */
  lemma {:induction false} CsvIsReadExactly(c: CsvKind, start: Option<seq<string>>, records: seq<Line>)
    ensures CsvRun(c, CsvState(start, false, []), records).Ok? <==>
      RowsOf(c, records).Ok? && RowsAreRead(c, RowsOf(c, records).value, start)
  {
    hide CsvRows, RowsAreRead, CsvStands;
    if records == [] {
      NoRowsAreRead(c, start);
    } else {
      var n := |records| - 1;
      CsvIsReadExactly(c, start, records[..n]);
      var before := CsvRun(c, CsvState(start, false, []), records[..n]);
      if RowsOf(c, records).Ok? {
        var rows, last := RowsOf(c, records[..n]).value, c.cut(records[n].text).value;
        if before.Ok? {
          CsvIsRead(c, start, records[..n]);
          MoreRowsAreRead(c, rows, start, before.value, last);
        } else if RowsAreRead(c, rows + last, start) {
          FewerAreRead(c, rows, start, last);
        }
      }
    }
  }

  // ----- runs of lines -----

  /** The lines cut into runs at these positions. */
  ghost predicate AreRuns(lines: seq<Line>, starts: seq<nat>, runs: seq<seq<Line>>) {
    && Cuts(starts, |lines|) && |runs| == |starts|
    && forall k :: 0 <= k < |starts| ==> starts[k] < EndOf(starts, k, |lines|) && runs[k] == lines[starts[k]..EndOf(starts, k, |lines|)]
  }

  /** One more line begins a run, or goes on from the last. */
  lemma {:induction false} OneMoreRun(lines: seq<Line>, l: Line, starts: seq<nat>, runs: seq<seq<Line>>, begins: bool) returns (more: seq<nat>, after: seq<seq<Line>>)
    requires AreRuns(lines, starts, runs) && (begins || runs != [])
    ensures after == if begins then runs + [[l]] else runs[..|runs| - 1] + [runs[|runs| - 1] + [l]]
    ensures AreRuns(lines + [l], more, after)
    ensures forall i :: 0 <= i < |lines| ==> (i in more <==> i in starts)
    ensures |lines| in more <==> begins
  {
    hide Cuts, EndOf;
    var all, n := lines + [l], |lines|;
    more := if begins then starts + [n] else starts;
    after := if begins then runs + [[l]] else runs[..|runs| - 1] + [runs[|runs| - 1] + [l]];
    OneMoreCut(starts, n, more);
    StartsBelow(starts, n);
    assert begins ==> more[|starts|] == n;
    forall k | 0 <= k < |more| ensures more[k] < EndOf(more, k, n + 1) && after[k] == all[more[k]..EndOf(more, k, n + 1)] {
      if k == |starts| {
        assert all[n..n + 1] == [l];
      } else if k < |starts| - 1 || more != starts {
        assert all[starts[k]..EndOf(starts, k, n)] == lines[starts[k]..EndOf(starts, k, n)];
      } else {
        LastEnds(starts, n);
        assert all[starts[k]..n + 1] == lines[starts[k]..n] + [l];
      }
    }
  }

  lemma {:induction false} StartsBelow(starts: seq<nat>, n: nat)
    requires Cuts(starts, n)
    ensures n !in starts
  {
  }

  lemma {:induction false} NoRuns()
    ensures AreRuns([], [], [])
  {
  }

  // ----- records -----

  lemma {:induction false} BlocksSnoc(start: Regex, lines: seq<Line>, l: Line)
    ensures BlocksOf(start, []) == Ok([])
    ensures
      var before, after := BlocksOf(start, lines), BlocksOf(start, lines + [l]);
      if before.Refused? || (before.value == [] && !start(l.text)) then after.Refused?
      else if start(l.text) then after == Ok(before.value + [[l]])
      else after == Ok(before.value[..|before.value| - 1] + [before.value[|before.value| - 1] + [l]])
  {
    assert (lines + [l])[..|lines|] == lines;
  }

  ghost predicate BeginWhere(start: Regex, lines: seq<Line>, starts: seq<nat>) {
    forall i :: 0 <= i < |lines| ==> (i in starts <==> start(lines[i].text))
  }

  lemma {:induction false} BeginThere(start: Regex, lines: seq<Line>, l: Line, starts: seq<nat>, more: seq<nat>)
    requires BeginWhere(start, lines, starts) && (|lines| in more <==> start(l.text))
    requires forall i :: 0 <= i < |lines| ==> (i in more <==> i in starts)
    ensures BeginWhere(start, lines + [l], more)
  {
  }

  /** Lines fall into records exactly when the first of them opens one; every record runs from a line that opens one to the
      next such line. */
  lemma {:induction false} BlocksAreLines(start: Regex, lines: seq<Line>) returns (starts: seq<nat>)
    ensures BlocksOf(start, lines).Ok? <==> (lines != [] ==> start(lines[0].text))
    ensures BlocksOf(start, lines).Ok? ==> AreRuns(lines, starts, BlocksOf(start, lines).value) && BeginWhere(start, lines, starts)
  {
    hide AreRuns, BlocksOf;
    starts := [];
    NoRuns();
    if lines == [] {
      BlocksSnoc(start, [], Line("", 0));
    } else {
      hide BeginWhere;
      var n := |lines| - 1;
      var init, l := lines[..n], lines[n];
      assert lines == init + [l];
      var before := BlocksAreLines(start, init);
      BlocksSnoc(start, init, l);
      if BlocksOf(start, lines).Ok? {
        var after;
        starts, after := OneMoreRun(init, l, before, BlocksOf(start, init).value, start(l.text));
        BeginThere(start, init, l, before, starts);
      }
      SomeBlock(start, init);
    }
  }

  lemma {:induction false} SomeBlock(start: Regex, lines: seq<Line>)
    ensures BlocksOf(start, lines).Ok? ==> (BlocksOf(start, lines).value == [] <==> lines == [])
  {
  }

  /** The values of records are what each of them is read as, in their order. */
  lemma {:induction false} BlocksAreRead(reader: BlockReader, blocks: seq<seq<Line>>)
    ensures BlocksRun(reader, blocks).Ok? <==> forall i :: 0 <= i < |blocks| ==> reader(blocks[i]).Ok?
    ensures BlocksRun(reader, blocks).Ok? ==>
      var values := BlocksRun(reader, blocks).value.values;
      |values| == |blocks| && forall i :: 0 <= i < |blocks| ==> reader(blocks[i]).value.value == values[i]
  {
    if blocks != [] {
      var n := |blocks| - 1;
      BlocksAreRead(reader, blocks[..n]);
      assert forall i :: 0 <= i < n ==> blocks[..n][i] == blocks[i];
    }
  }

  // ----- the lines of a part -----

  /** The lines of a part of a composite are those its selection takes, less the ones it ignores, in their order. */
  lemma {:induction false} PartLinesAreSelected(p: Part, lines: seq<Line>) returns (lo: nat, hi: nat, picks: seq<nat>)
    ensures lo <= hi <= |lines| && forall i :: 0 <= i < |lines| ==> (lo <= i < hi <==> IsSelected(p.sel, lines, i))
    ensures Rising(picks, hi - lo) && PartLines(p, lines) == At(lines[lo..hi], picks)
    ensures forall i :: 0 <= i < hi - lo ==> (i in picks <==> !MatchesAny(p.ignore, lines[lo + i].text))
  {
    hide Region, Keep, IsSelected, MatchesAny, Rising, Blank;
    lo, hi := RegionIsSelected(p.sel, lines);
    var region := Region(p.sel, lines);
    picks := KeepPicks(p.ignore, false, region);
    forall i | 0 <= i < hi - lo ensures i in picks <==> !MatchesAny(p.ignore, lines[lo + i].text) {
      assert region[i] == lines[lo + i];
    }
  }

  // ----- drawn tables -----

  /** A block of a drawn table: lines that are no rules, as far as they go. */
  predicate IsBlock(b: BoxKind, lines: seq<Line>, lo: nat, hi: nat, block: seq<Line>) {
    && lo < hi <= |lines| && block == lines[lo..hi]
    && (forall i :: lo <= i < hi ==> !b.isRule(lines[i].text))
    && (lo > 0 ==> b.isRule(lines[lo - 1].text)) && (hi < |lines| ==> b.isRule(lines[hi].text))
  }

  predicate AreBlocks(b: BoxKind, lines: seq<Line>, los: seq<nat>, his: seq<nat>, blocks: seq<seq<Line>>) {
    |los| == |his| == |blocks| && forall k :: 0 <= k < |los| ==> IsBlock(b, lines, los[k], his[k], blocks[k])
  }

  /** One behind the other. */
  predicate InOrder(los: seq<nat>, his: seq<nat>)
    requires |los| == |his|
  {
    forall j, k :: 0 <= j < k < |los| ==> his[j] < los[k]
  }

  predicate IsWithin(los: seq<nat>, his: seq<nat>, i: nat)
    requires |los| == |his|
  {
    exists k :: 0 <= k < |los| && los[k] <= i < his[k]
  }

  /** Every line that is no rule is in one of them. */
  predicate AllWithin(b: BoxKind, lines: seq<Line>, los: seq<nat>, his: seq<nat>)
    requires |los| == |his|
  {
    forall i :: 0 <= i < |lines| ==> b.isRule(lines[i].text) || IsWithin(los, his, i)
  }

  /** The blocks that rules closed, and the one still open at the end of the lines. */
  predicate CutStands(b: BoxKind, lines: seq<Line>, los: seq<nat>, his: seq<nat>, c: Cutting) {
    && AreBlocks(b, lines, los, his, AndOpen(c.closed, c.open)) && InOrder(los, his) && AllWithin(b, lines, los, his)
    && (c.open == [] <==> lines == [] || b.isRule(lines[|lines| - 1].text))
    && (c.open != [] ==> his != [] && his[|his| - 1] == |lines|)
  }

  lemma {:induction false} CutSnoc(b: BoxKind, lines: seq<Line>, l: Line)
    ensures
      var c, after := Cut(b, lines), Cut(b, lines + [l]);
      if !b.isRule(l.text) then after == c.(open := c.open + [l])
      else if c.open == [] then after == c
      else after == Cutting(c.closed + [c.open], [])
  {
    assert (lines + [l])[..|lines|] == lines;
  }

  lemma {:induction false} BlockStays(b: BoxKind, lines: seq<Line>, l: Line, lo: nat, hi: nat, block: seq<Line>)
    requires IsBlock(b, lines, lo, hi, block) && (hi < |lines| || b.isRule(l.text))
    ensures IsBlock(b, lines + [l], lo, hi, block)
  {
    assert (lines + [l])[lo..hi] == lines[lo..hi];
  }

  lemma {:induction false} BlockBegins(b: BoxKind, lines: seq<Line>, l: Line)
    requires !b.isRule(l.text) && (lines != [] ==> b.isRule(lines[|lines| - 1].text))
    ensures IsBlock(b, lines + [l], |lines|, |lines| + 1, [l])
  {
  }

  lemma {:induction false} BlockGrows(b: BoxKind, lines: seq<Line>, l: Line, lo: nat, block: seq<Line>)
    requires IsBlock(b, lines, lo, |lines|, block) && !b.isRule(l.text)
    ensures IsBlock(b, lines + [l], lo, |lines| + 1, block + [l])
  {
    assert (lines + [l])[lo..|lines| + 1] == lines[lo..|lines|] + [l];
  }

  lemma {:induction false} BlockIsWithin(b: BoxKind, lines: seq<Line>, lo: nat, hi: nat, block: seq<Line>)
    requires IsBlock(b, lines, lo, hi, block)
    ensures lo < hi <= |lines|
    ensures hi == |lines| ==> !b.isRule(lines[|lines| - 1].text)
  {
  }

  /** A rule closes the block that is open. */
  lemma {:induction false} RuleCuts(b: BoxKind, lines: seq<Line>, l: Line, los: seq<nat>, his: seq<nat>, c: Cutting)
    requires CutStands(b, lines, los, his, c) && b.isRule(l.text)
    ensures CutStands(b, lines + [l], los, his, Cutting(AndOpen(c.closed, c.open), []))
  {
    hide IsBlock, IsWithin, InOrder;
    var all, blocks := lines + [l], AndOpen(c.closed, c.open);
    forall k | 0 <= k < |los| ensures IsBlock(b, all, los[k], his[k], blocks[k]) {
      BlockStays(b, lines, l, los[k], his[k], blocks[k]);
    }
  }

  /** A line behind a rule, or the first one, opens a block. */
  lemma {:induction false} BlockOpens(b: BoxKind, lines: seq<Line>, l: Line, los: seq<nat>, his: seq<nat>, c: Cutting)
    requires CutStands(b, lines, los, his, c) && !b.isRule(l.text) && c.open == []
    ensures CutStands(b, lines + [l], los + [|lines|], his + [|lines| + 1], Cutting(c.closed, [l]))
  {
    hide IsBlock, IsWithin;
    var all, n := lines + [l], |lines|;
    var los', his' := los + [n], his + [n + 1];
    BlockBegins(b, lines, l);
    forall k | 0 <= k < |los| ensures his[k] < n && IsBlock(b, all, los[k], his[k], c.closed[k]) {
      BlockIsWithin(b, lines, los[k], his[k], c.closed[k]);
      BlockStays(b, lines, l, los[k], his[k], c.closed[k]);
    }
    forall i | 0 <= i < |all| ensures b.isRule(all[i].text) || IsWithin(los', his', i) {
      StillWithin(los, his, los', his', i);
      NowWithin(los', his', |los|, n);
    }
  }

  lemma {:induction false} StillWithin(los: seq<nat>, his: seq<nat>, los': seq<nat>, his': seq<nat>, i: nat)
    requires |los| == |his| <= |los'| == |his'|
    requires forall k :: 0 <= k < |los| ==> los'[k] == los[k] && his'[k] >= his[k]
    ensures IsWithin(los, his, i) ==> IsWithin(los', his', i)
  {
    if k :| 0 <= k < |los| && los[k] <= i < his[k] {
      assert los'[k] <= i < his'[k];
    }
  }

  lemma {:induction false} NowWithin(los: seq<nat>, his: seq<nat>, k: nat, i: nat)
    requires |los| == |his| && k < |los| && los[k] <= i < his[k]
    ensures IsWithin(los, his, i)
  {
  }

  /** Another goes on from it. */
  lemma {:induction false} BlockGoesOn(b: BoxKind, lines: seq<Line>, l: Line, los: seq<nat>, his: seq<nat>, c: Cutting)
    requires CutStands(b, lines, los, his, c) && !b.isRule(l.text) && c.open != []
    ensures CutStands(b, lines + [l], los, his[|his| - 1 := |lines| + 1], c.(open := c.open + [l]))
  {
    hide IsBlock, IsWithin;
    var all, n, m := lines + [l], |lines|, |his| - 1;
    var his', blocks := his[m := n + 1], AndOpen(c.closed, c.open);
    BlockIsWithin(b, lines, los[m], his[m], blocks[m]);
    BlockGrows(b, lines, l, los[m], c.open);
    forall k | 0 <= k < m ensures IsBlock(b, all, los[k], his[k], c.closed[k]) {
      BlockStays(b, lines, l, los[k], his[k], blocks[k]);
    }
    forall i | 0 <= i < |all| ensures b.isRule(all[i].text) || IsWithin(los, his', i) {
      StillWithin(los, his, los, his', i);
      NowWithin(los, his', m, n);
    }
  }

  lemma {:induction false} OpenIsLast(b: BoxKind, lines: seq<Line>, los: seq<nat>, his: seq<nat>, c: Cutting)
    requires CutStands(b, lines, los, his, c) && c.open != []
    ensures his != []
  {
  }

  lemma {:induction false} NothingCut(b: BoxKind)
    ensures CutStands(b, [], [], [], Cut(b, []))
  {
  }

  lemma {:induction false} RulesCut(b: BoxKind, lines: seq<Line>) returns (los: seq<nat>, his: seq<nat>)
    ensures CutStands(b, lines, los, his, Cut(b, lines))
  {
    hide CutStands, Cut;
    if lines == [] {
      los, his := [], [];
      NothingCut(b);
      assert CutStands(b, lines, los, his, Cut(b, lines));
    } else {
      var n := |lines| - 1;
      var init, l := lines[..n], lines[n];
      assert init + [l] == lines;
      los, his := RulesCut(b, init);
      CutSnoc(b, init, l);
      var c := Cut(b, init);
      if b.isRule(l.text) {
        RuleCuts(b, init, l, los, his, c);
      } else if c.open == [] {
        BlockOpens(b, init, l, los, his, c);
        assert c.open + [l] == [l];
        los, his := los + [n], his + [n + 1];
      } else {
        OpenIsLast(b, init, los, his, c);
        BlockGoesOn(b, init, l, los, his, c);
        his := his[|his| - 1 := n + 1];
      }
      assert CutStands(b, lines, los, his, Cut(b, lines));
    }
  }

  /** The blocks of a drawn table are the lines between its rules: every line that is no rule is in one of them, and there is
      a rule between any two. */
  lemma {:induction false} BlocksAreBetweenRules(b: BoxKind, lines: seq<Line>) returns (los: seq<nat>, his: seq<nat>)
    ensures AreBlocks(b, lines, los, his, BoxBlocks(b, lines)) && InOrder(los, his) && AllWithin(b, lines, los, his)
  {
    hide AreBlocks, InOrder, AllWithin, Cut, AndOpen;
    los, his := RulesCut(b, lines);
  }

  lemma {:induction false} RowsSnoc(b: BoxKind, block: seq<Line>, l: Line)
    ensures
      var before, after := BodyRows(b, block), BodyRows(b, block + [l]);
      if block != [] && b.continues(l.text) then after == before[..|before| - 1] + [before[|before| - 1] + [l]] else after == before + [[l]]
  {
    assert (block + [l])[..|block|] == block;
  }

  ghost predicate BeginRows(b: BoxKind, block: seq<Line>, starts: seq<nat>) {
    forall i :: 0 <= i < |block| ==> (i in starts <==> i == 0 || !b.continues(block[i].text))
  }

  lemma {:induction false} RowBegins(b: BoxKind, block: seq<Line>, l: Line, starts: seq<nat>, more: seq<nat>)
    requires BeginRows(b, block, starts) && (|block| in more <==> block == [] || !b.continues(l.text))
    requires forall i :: 0 <= i < |block| ==> (i in more <==> i in starts)
    ensures BeginRows(b, block + [l], more)
  {
  }

  /** A row of a block goes on as long as lines continue it. */
  lemma {:induction false} RowsAreRuns(b: BoxKind, block: seq<Line>) returns (starts: seq<nat>)
    ensures AreRuns(block, starts, BodyRows(b, block)) && BeginRows(b, block, starts)
  {
    hide AreRuns;
    starts := [];
    NoRuns();
    if block != [] {
      hide BeginRows, BodyRows;
      var n := |block| - 1;
      var init, l := block[..n], block[n];
      assert block == init + [l];
      var before := RowsAreRuns(b, init);
      RowsSnoc(b, init, l);
      var after;
      starts, after := OneMoreRun(init, l, before, BodyRows(b, init), n == 0 || !b.continues(l.text));
      RowBegins(b, init, l, before, starts);
    }
  }

  /** A row that holds something else than the header. */
  predicate IsBoxRow(b: BoxKind, header: seq<Line>, rows: seq<seq<Line>>, i: nat)
    requires i < |rows|
  {
    b.join(rows[i]) != b.join(header)
  }

  function BoxRow(b: BoxKind, columns: seq<Column>, row: seq<Line>): Outcome<Json>
    requires row != []
  {
    b.row(columns, b.join(row), row[0].num)
  }

  ghost predicate ArePicked(b: BoxKind, header: seq<Line>, rows: seq<seq<Line>>, picks: seq<nat>) {
    && (forall k :: 0 <= k < |picks| ==> picks[k] < |rows|) && (forall j, k :: 0 <= j < k < |picks| ==> picks[j] < picks[k])
    && forall i :: 0 <= i < |rows| ==> (i in picks <==> IsBoxRow(b, header, rows, i))
  }

  lemma {:induction false} OneMorePicked(b: BoxKind, header: seq<Line>, rows: seq<seq<Line>>, row: seq<Line>, picks: seq<nat>)
    requires ArePicked(b, header, rows, picks)
    ensures ArePicked(b, header, rows + [row], if b.join(row) == b.join(header) then picks else picks + [|rows|])
  {
    var all, n := rows + [row], |rows|;
    var more := if b.join(row) == b.join(header) then picks else picks + [n];
    assert b.join(row) != b.join(header) ==> more[|picks|] == n;
    forall i | 0 <= i < |all| ensures i in more <==> IsBoxRow(b, header, all, i) {
      assert i < n ==> (i in more <==> i in picks) && IsBoxRow(b, header, all, i) == IsBoxRow(b, header, rows, i);
    }
  }

  /** The rows that hold something else. */
  function OtherRows(b: BoxKind, header: seq<Line>, rows: seq<seq<Line>>): (others: seq<seq<Line>>)
    requires forall i :: 0 <= i < |rows| ==> rows[i] != []
    ensures forall i :: 0 <= i < |others| ==> others[i] != []
  {
    if rows == [] then []
    else
      var n := |rows| - 1;
      var before := OtherRows(b, header, rows[..n]);
      if b.join(rows[n]) == b.join(header) then before else before + [rows[n]]
  }

  ghost predicate AreAt(rows: seq<seq<Line>>, picks: seq<nat>, others: seq<seq<Line>>) {
    |others| == |picks| && forall k :: 0 <= k < |picks| ==> picks[k] < |rows| && others[k] == rows[picks[k]]
  }

  lemma {:induction false} OneMoreAt(rows: seq<seq<Line>>, row: seq<Line>, picks: seq<nat>, others: seq<seq<Line>>)
    requires AreAt(rows, picks, others)
    ensures AreAt(rows + [row], picks, others) && AreAt(rows + [row], picks + [|rows|], others + [row])
  {
  }

  lemma {:induction false} NoneAt(b: BoxKind, header: seq<Line>)
    ensures AreAt([], [], []) && ArePicked(b, header, [], [])
  {
  }

  /** They are the rows at these positions, in their order. */
  lemma {:induction false} OthersArePicked(b: BoxKind, header: seq<Line>, rows: seq<seq<Line>>) returns (picks: seq<nat>)
    requires forall i :: 0 <= i < |rows| ==> rows[i] != []
    ensures ArePicked(b, header, rows, picks) && AreAt(rows, picks, OtherRows(b, header, rows))
  {
    hide ArePicked, AreAt;
    if rows == [] {
      picks := [];
      NoneAt(b, header);
    } else {
      var n := |rows| - 1;
      var init, row := rows[..n], rows[n];
      assert init + [row] == rows;
      var before := OthersArePicked(b, header, init);
      OneMorePicked(b, header, init, row, before);
      OneMoreAt(init, row, before, OtherRows(b, header, init));
      picks := if b.join(row) == b.join(header) then before else before + [n];
    }
  }

  predicate AllAreRead(b: BoxKind, columns: seq<Column>, rows: seq<seq<Line>>)
    requires forall i :: 0 <= i < |rows| ==> rows[i] != []
  {
    forall k :: 0 <= k < |rows| ==> BoxRow(b, columns, rows[k]).Ok?
  }

  /** The values of a drawn table are its rows in their order, less those that hold what the header holds. */
  lemma {:induction false} BoxIsItsRows(b: BoxKind, header: seq<Line>, columns: seq<Column>, rows: seq<seq<Line>>)
    requires forall i :: 0 <= i < |rows| ==> rows[i] != []
    ensures
      var r, others := BoxValues(b, header, columns, rows), OtherRows(b, header, rows);
      && (r.Ok? <==> AllAreRead(b, columns, others))
      && (r.Ok? ==> |r.value| == |others| && forall k :: 0 <= k < |others| ==> BoxRow(b, columns, others[k]) == Ok(r.value[k]))
  {
    hide BoxRow;
    if rows != [] {
      var n := |rows| - 1;
      var init, row := rows[..n], rows[n];
      BoxIsItsRows(b, header, columns, init);
      OneMoreBoxRow(b, header, columns, rows);
      var before, others := OtherRows(b, header, init), OtherRows(b, header, rows);
      if b.join(row) == b.join(header) {
        assert others == before;
        assert BoxValues(b, header, columns, rows) == BoxValues(b, header, columns, init);
      } else {
        assert others == before + [row];
        assert forall k :: 0 <= k < |before| ==> others[k] == before[k];
        assert others[|before|] == row;
      }
    }
  }

  lemma {:induction false} OneMoreBoxRow(b: BoxKind, header: seq<Line>, columns: seq<Column>, rows: seq<seq<Line>>)
    requires rows != [] && forall i :: 0 <= i < |rows| ==> rows[i] != []
    ensures
      var n := |rows| - 1;
      var before, v := BoxValues(b, header, columns, rows[..n]), BoxRow(b, columns, rows[n]);
      BoxValues(b, header, columns, rows) ==
        if before.Refused? then Refused
        else if b.join(rows[n]) == b.join(header) then before
        else if v.Refused? then Refused else Ok(before.value + [v.value])
  {
  }
}
