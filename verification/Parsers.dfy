/**
 The parsers of the whole-document reader, as the loops they are (pkg/engine/engine.go, table.go, csv.go,
 box.go, tree.go): each computes the function of its reading.
 */
module Parsers {
  import opened Lines
  import opened Json
  import opened Stages
  import opened Forest
  import opened Readings
  import Columns
  import opened ReadingFacts
  import opened Pipeline

  /** A list up to one of its elements, the element, and what is left. */
  lemma {:induction false} At<T>(s: seq<T>, k: nat)
    requires k < |s|
    ensures s[..k + 1] == s[..k] + [s[k]] && s == s[..k + 1] + s[k + 1..] && s[..|s|] == s && s[..0] == []
  {
  }

  /** A pattern or a key/value entry per line (parseRegex, parseKV). */
  method ParseLines(read: Line -> Outcome<Json>, lines: seq<Line>) returns (r: Outcome<seq<Json>>)
    ensures r == PerLineRun(read, lines)
  {
    var out := [];
    assert lines[..|lines|] == lines && lines[..0] == [];
    for k := 0 to |lines|
      invariant PerLineRun(read, lines[..k]) == Ok(out)
    {
      At(lines, k);
      PerLineSnoc(read, lines[..k], lines[k]);
      var v := read(lines[k]);
      if v.Refused? {
        PerLineFails(read, lines[..k + 1], lines[k + 1..]);
        return Refused;
      }
      out := out + [v.value];
    }
    return Ok(out);
  }

  /** parseTable */
  method ParseTable(t: TableKind, lines: seq<Line>) returns (r: Outcome<seq<Json>>)
    ensures r == if TableRun(t, lines).Refused? then Refused else Ok(TableRun(t, lines).value.values)
  {
    var columns: seq<Column>, header, out, from := [], "", [], 0;
    assert lines[..|lines|] == lines && lines[..0] == [];
    if t.columns.Some? {
      columns := t.columns.value;
    } else {
      if lines == [] {
        return Ok([]);
      }
      At(lines, 0);
      TableSnoc(t, [], lines[0]);
      assert [] + [lines[0]] == [lines[0]];
      var resolved := t.resolve(lines[0]);
      if resolved.Refused? {
        TableFails(t, lines[..1], lines[1..]);
        return Refused;
      }
      columns, header, from := resolved.value, lines[0].text, 1;
    }
    for k := from to |lines|
      invariant TableRun(t, lines[..k]) == Ok(TableState(Some(columns), header, out))
    {
      At(lines, k);
      TableSnoc(t, lines[..k], lines[k]);
      if t.columns.None? && t.sameHeader(lines[k].text, header) {
        // The output of the command run twice: the second header says where its own columns are.
        var resolved := t.resolve(lines[k]);
        if resolved.Refused? {
          TableFails(t, lines[..k + 1], lines[k + 1..]);
          return Refused;
        }
        columns := resolved.value;
      } else {
        var v := t.row(columns, lines[k]);
        if v.Refused? {
          TableFails(t, lines[..k + 1], lines[k + 1..]);
          return Refused;
        }
        out := out + [v.value];
      }
    }
    return Ok(out);
  }

  /** The columns the first row of a csv gives it. */
  method NameColumns(c: CsvKind, row: seq<string>) returns (columns: seq<string>)
    ensures columns == CsvColumns(c, row)
  {
    if c.none {
      columns := Columns.CsvNumbered(|row|);
    } else {
      columns := Columns.CsvColumns(c.heading, c.columns, row);
    }
  }

  /** The rows of one csv record. */
  method ParseCsvRecord(c: CsvKind, state: CsvState, rec: Line) returns (r: Outcome<CsvState>)
    ensures r == CsvRecord(c, state, rec)
  {
    var cut := c.cut(rec.text);
    if cut.Refused? {
      return Refused;
    }
    var rows := cut.value;
    var columns, checked, out := state.columns, state.checked, state.values;
    assert rows[..|rows|] == rows && rows[..0] == [];
    for i := 0 to |rows|
      invariant CsvRows(c, state, rows[..i]) == Ok(CsvState(columns, checked, out))
    {
      var row := rows[i];
      At(rows, i);
      CsvRowsSnoc(c, state, rows[..i], row);
      var isHeader := columns.None? && !c.none;
      if columns.None? {
        var names := NameColumns(c, row);
        columns := Some(names);
      }
      // The columns are checked once, where they are first known.
      if !checked {
        checked := true;
        var known := Columns.CheckColumns(c.expected, columns.value);
        if !known {
          CsvRowsFail(c, state, rows, i + 1);
          return Refused;
        }
      }
      if !isHeader {
        var v := Columns.CsvRow(c.convert, columns.value, row);
        if v.Refused? {
          CsvRowsFail(c, state, rows, i + 1);
          return Refused;
        }
        out := out + [v.value];
      }
    }
    return Ok(CsvState(columns, checked, out));
  }

  /** parseCSV: at the top level every line is a record already. */
  method ParseCsv(c: CsvKind, grouped: bool, lines: seq<Line>) returns (r: Outcome<seq<Json>>)
    ensures
      var s := CsvRun(c, CsvStart(c), if grouped then lines else Records(c.delim, lines));
      r == if s.Refused? then Refused else Ok(s.value.values)
  {
    if lines == [] {
      return Ok([]);
    }
    hide CsvRecord, Records, CsvStart;
    var records := lines;
    if !grouped {
      records := CsvRecords(c.delim, lines);
    }
    var state := CsvStart(c);
    assert state.values == [] by {
      CsvStartsEmpty(c);
    }
    assert records[..|records|] == records && records[..0] == [];
    for k := 0 to |records|
      invariant CsvRun(c, CsvStart(c), records[..k]) == Ok(state)
    {
      At(records, k);
      CsvSnoc(c, CsvStart(c), records[..k], records[k]);
      var next := ParseCsvRecord(c, state, records[k]);
      if next.Refused? {
        CsvFails(c, CsvStart(c), records[..k + 1], records[k + 1..]);
        return Refused;
      }
      state := next.value;
    }
    return Ok(state.values);
  }

  lemma {:induction false} CsvStartsEmpty(c: CsvKind)
    ensures CsvStart(c).values == []
  {
  }

  // ----- drawn tables -----

  /** boxBlocks */
  method CutBlocks(b: BoxKind, lines: seq<Line>) returns (blocks: seq<seq<Line>>)
    ensures blocks == BoxBlocks(b, lines)
  {
    var cur: seq<Line> := [];
    blocks := [];
    assert lines[..|lines|] == lines && lines[..0] == [];
    for k := 0 to |lines|
      invariant Cut(b, lines[..k]) == Cutting(blocks, cur)
    {
      At(lines, k);
      CutSnoc(b, lines[..k], lines[k]);
      if b.isRule(lines[k].text) {
        if cur != [] {
          blocks := blocks + [cur];
          cur := [];
        }
      } else {
        cur := cur + [lines[k]];
      }
    }
    if cur != [] {
      blocks := blocks + [cur];
    }
  }

  /** boxBodyRows */
  method CutRows(b: BoxKind, block: seq<Line>) returns (rows: seq<seq<Line>>)
    ensures rows == BodyRows(b, block)
  {
    rows := [];
    assert block[..|block|] == block && block[..0] == [];
    for k := 0 to |block|
      invariant rows == BodyRows(b, block[..k])
    {
      At(block, k);
      BodyRowsSnoc(b, block[..k], block[k]);
      if rows != [] && b.continues(block[k].text) {
        rows := rows[..|rows| - 1] + [rows[|rows| - 1] + [block[k]]];
      } else {
        rows := rows + [[block[k]]];
      }
    }
  }

  /** The objects of one block of the body, after the ones before it. */
  method ParseBlock(b: BoxKind, header: seq<Line>, columns: seq<Column>, block: seq<Line>, values: seq<Json>,
                    ghost done: seq<seq<Line>>)
    returns (r: Outcome<seq<Json>>)
    requires forall i :: 0 <= i < |done| ==> done[i] != []
    requires BoxValues(b, header, columns, done) == Ok(values)
    ensures r == BoxValues(b, header, columns, done + BodyRows(b, block))
  {
    hide BoxValues, BodyRows;
    var rows := CutRows(b, block);
    var out := values;
    assert rows[..|rows|] == rows && done + rows[..0] == done;
    for k := 0 to |rows|
      invariant BoxValues(b, header, columns, done + rows[..k]) == Ok(out)
    {
      At(rows, k);
      assert done + rows[..k + 1] == (done + rows[..k]) + [rows[k]];
      BoxValuesSnoc(b, header, columns, done + rows[..k], rows[k]);
      var cells := b.join(rows[k]);
      // The header of a second table drawn after the first is left out.
      if cells != b.join(header) {
        var v := b.row(columns, cells, rows[k][0].num);
        if v.Refused? {
          BoxValuesFail(b, header, columns, done + rows[..k + 1], rows[k + 1..]);
          assert done + rows == (done + rows[..k + 1]) + rows[k + 1..];
          return Refused;
        }
        out := out + [v.value];
      }
    }
    return Ok(out);
  }

  /** The body of a drawn table, block by block. */
  method ParseBody(b: BoxKind, header: seq<Line>, columns: seq<Column>, blocks: seq<seq<Line>>)
    returns (r: Outcome<seq<Json>>)
    ensures r == BoxValues(b, header, columns, AllRows(b, blocks))
  {
    hide BodyRows, BoxValues;
    var out := [];
    assert blocks[..|blocks|] == blocks && blocks[..0] == [];
    NoBoxValues(b, header, columns);
    for k := 0 to |blocks|
      invariant BoxValues(b, header, columns, AllRows(b, blocks[..k])) == Ok(out)
    {
      At(blocks, k);
      AllRowsSnoc(b, blocks[..k], blocks[k]);
      var values := ParseBlock(b, header, columns, blocks[k], out, AllRows(b, blocks[..k]));
      if values.Refused? {
        BodyFails(b, header, columns, blocks, k);
        return Refused;
      }
      out := values.value;
    }
    return Ok(out);
  }

  lemma {:induction false} NoBoxValues(b: BoxKind, header: seq<Line>, columns: seq<Column>)
    ensures BoxValues(b, header, columns, AllRows(b, [])) == Ok([])
  {
  }

  lemma {:induction false} BodyFails(b: BoxKind, header: seq<Line>, columns: seq<Column>, blocks: seq<seq<Line>>, k: nat)
    requires k < |blocks| && BoxValues(b, header, columns, AllRows(b, blocks[..k + 1])).Refused?
    ensures BoxValues(b, header, columns, AllRows(b, blocks)).Refused?
  {
    hide BodyRows, BoxValues;
    At(blocks, k);
    AllRowsExtend(b, blocks[..k + 1], blocks[k + 1..]);
    var done, all := AllRows(b, blocks[..k + 1]), AllRows(b, blocks);
    assert all == done + all[|done|..];
    BoxValuesFail(b, header, columns, done, all[|done|..]);
  }

  /** parseBox */
  method ParseBox(b: BoxKind, lines: seq<Line>) returns (r: Outcome<seq<Json>>)
    ensures r == BoxResult(b, lines)
  {
    hide BodyRows, BoxValues, Cut;
    for k := 0 to |lines|
      invariant forall i :: 0 <= i < k ==> BoxLine(b, lines[i])
    {
      if !b.isRule(lines[k].text) && !b.hasCell(lines[k].text) {
        return Refused;
      }
    }
    var blocks := CutBlocks(b, lines);
    if blocks == [] {
      return Ok([]);
    }
    if |blocks| == 1 && |blocks[0]| > 1 {
      return Refused;
    }
    var columns := b.columns(blocks[0]);
    if columns.Refused? {
      return Refused;
    }
    r := ParseBody(b, blocks[0], columns.value, blocks[1..]);
  }

  // ----- trees -----

  /** treeNodes: the nodes at `depth` from the i-th line on, and the index of the first line of a shallower
      level. */
  method TreeNodes(k: TreeKind, lines: seq<Line>, from: nat, depth: nat) returns (r: Outcome<(seq<Node>, nat)>)
    requires from <= |lines|
    ensures r.Ok? ==> from <= r.value.1 <= |lines|
    ensures ForestOf(k, lines[from..], depth) ==
      if r.Refused? then Refused else Ok((r.value.0, lines[r.value.1..]))
    decreases |lines| - from
  {
    hide DepthOf, Own, ForestOf, Beside;
    var i, out := from, [];
    BesideNothing(k, lines, from, depth);
    while i < |lines|
      invariant from <= i <= |lines|
      invariant ForestOf(k, lines[from..], depth) == Beside(out, ForestOf(k, lines[i..], depth))
      decreases |lines| - i
    {
      BesideStep(k, lines, i, depth, out);
      var d := DepthOf(k, lines[i]);
      if d.Refused? {
        return Refused;
      }
      if d.value.0 < depth {
        return Ok((out, i));
      }
      if d.value.0 > depth {
        return Refused;
      }
      var own := Own(k, lines[i]);
      if own.Refused? {
        return Refused;
      }
      var children := TreeNodes(k, lines, i + 1, depth + 1);
      if children.Refused? {
        return Refused;
      }
      i := children.value.1;
      out := out + [Node(own.value, children.value.0)];
    }
    BesideEnd(k, lines, depth, out);
    return Ok((out, i));
  }

  lemma {:induction false} BesideNothing(k: TreeKind, lines: seq<Line>, from: nat, depth: nat)
    requires from <= |lines|
    ensures Beside([], ForestOf(k, lines[from..], depth)) == ForestOf(k, lines[from..], depth)
  {
    hide ForestOf;
    var f := ForestOf(k, lines[from..], depth);
    assert f.Ok? ==> [] + f.value.0 == f.value.0;
  }

  lemma {:induction false} BesideEnd(k: TreeKind, lines: seq<Line>, depth: nat, out: seq<Node>)
    ensures Beside(out, ForestOf(k, lines[|lines|..], depth)) == Ok((out, lines[|lines|..]))
  {
    assert out + [] == out;
  }

  /** What the next line makes of the nodes that follow. */
  lemma {:induction false} BesideStep(k: TreeKind, lines: seq<Line>, i: nat, depth: nat, out: seq<Node>)
    requires i < |lines|
    ensures
      var d, own := DepthOf(k, lines[i]), Own(k, lines[i]);
      var below := ForestOf(k, lines[i + 1..], depth + 1);
      Beside(out, ForestOf(k, lines[i..], depth)) ==
        if d.Refused? then Refused
        else if d.value.0 < depth then Ok((out, lines[i..]))
        else if d.value.0 > depth || own.Refused? || below.Refused? then Refused
        else Beside(out + [Node(own.value, below.value.0)], ForestOf(k, below.value.1, depth))
  {
    hide DepthOf, Own;
    assert lines[i..][1..] == lines[i + 1..] && lines[i..][0] == lines[i];
    assert out + [] == out;
    var below := ForestOf(k, lines[i + 1..], depth + 1);
    if below.Ok? && Own(k, lines[i]).Ok? {
      var node := Node(Own(k, lines[i]).value, below.value.0);
      var beside := ForestOf(k, below.value.1, depth);
      assert beside.Ok? ==> out + ([node] + beside.value.0) == (out + [node]) + beside.value.0;
    }
  }

  /** Nodes read before the ones that follow. */
  function Beside(before: seq<Node>, after: Outcome<(seq<Node>, seq<Line>)>): Outcome<(seq<Node>, seq<Line>)> {
    if after.Refused? then Refused else Ok((before + after.value.0, after.value.1))
  }
}