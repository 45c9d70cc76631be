/**
 What the streaming reader of one list holds between two lines, parser by parser: each invariant ties
 the fields to what the whole-document functions make of the lines fed so far.
 */
module ReaderFacts {
  import opened Lines
  import opened Json
  import opened Stages
  import opened Forest
  import opened Readings
  import opened ReadingFacts

  /** No further lines make a complete list of these. */
  ghost predicate Dead(k: ListKind, grouped: bool, lines: seq<Line>) {
    forall more: seq<Line> :: Ascending(lines + more) ==> !Complete(k, grouped, lines + more)
  }

  /** A csv whose empty list of columns would be read two ways is left out. */
  predicate Agreed(k: ListKind) {
    k.Csv? && k.csv.none ==> k.csv.columns != Some([])
  }

  lemma {:induction false} DeadWhole(k: ListKind, grouped: bool, lines: seq<Line>)
    requires !k.Blocks?
    requires forall more: seq<Line> :: ListResult(k, grouped, lines + more).Refused?
    ensures Dead(k, grouped, lines)
  {
    forall more: seq<Line> ensures !Complete(k, grouped, lines + more) {
      assert ListResult(k, grouped, lines + more).Refused?;
    }
  }

  lemma {:induction false} PerLineDead(read: Line -> Outcome<Json>, grouped: bool, lines: seq<Line>)
    requires PerLineRun(read, lines).Refused?
    ensures Dead(PerLine(read), grouped, lines)
  {
    forall more: seq<Line> ensures ListResult(PerLine(read), grouped, lines + more).Refused? {
      PerLineFails(read, lines, more);
    }
    DeadWhole(PerLine(read), grouped, lines);
  }

  lemma {:induction false} TableDead(t: TableKind, grouped: bool, lines: seq<Line>)
    requires TableRun(t, lines).Refused?
    ensures Dead(Table(t), grouped, lines)
  {
    forall more: seq<Line> ensures ListResult(Table(t), grouped, lines + more).Refused? {
      TableFails(t, lines, more);
    }
    DeadWhole(Table(t), grouped, lines);
  }

  // ----- csv -----

  /** The records of a csv that no further line can change. */
  function ClosedRecords(c: CsvKind, grouped: bool, lines: seq<Line>): seq<Line> {
    if grouped then lines else Group(c.delim, lines).records
  }

  lemma {:induction false} CsvDead(c: CsvKind, grouped: bool, lines: seq<Line>)
    requires Agreed(Csv(c))
    requires CsvRun(c, CsvStreamStart(c), ClosedRecords(c, grouped, lines)).Refused?
    ensures Dead(Csv(c), grouped, lines)
  {
    hide CsvRun, Group, Records;
    forall more: seq<Line> ensures ListResult(Csv(c), grouped, lines + more).Refused? {
      var closed := ClosedRecords(c, grouped, lines);
      var all := if grouped then lines + more else Records(c.delim, lines + more);
      if !grouped {
        RecordsExtend(c.delim, lines, more);
      }
      assert all == closed + all[|closed|..];
      CsvFails(c, CsvStreamStart(c), closed, all[|closed|..]);
    }
    DeadWhole(Csv(c), grouped, lines);
  }

  // ----- drawn tables -----

  ghost predicate BoxLines(b: BoxKind, lines: seq<Line>) {
    forall i :: 0 <= i < |lines| ==> BoxLine(b, lines[i])
  }

  lemma {:induction false} BoxLinesSnoc(b: BoxKind, lines: seq<Line>, l: Line)
    requires BoxLines(b, lines) && BoxLine(b, l)
    ensures BoxLines(b, lines + [l])
  {
  }

  /** The rows of the body no further line can change. */
  ghost function SettledRows(b: BoxKind, c: Cutting): (rows: seq<seq<Line>>)
    requires c.closed != []
    ensures forall i :: 0 <= i < |rows| ==> rows[i] != []
  {
    var rows := BodyRows(b, c.open);
    AllRows(b, c.closed[1..]) + if rows == [] then [] else rows[..|rows| - 1]
  }

  /** The row of the body that may still grow. */
  ghost function OpenRow(b: BoxKind, c: Cutting): seq<Line> {
    var rows := BodyRows(b, c.open);
    if rows == [] then [] else rows[|rows| - 1]
  }

  lemma {:induction false} BoxLineDead(b: BoxKind, grouped: bool, lines: seq<Line>, i: nat)
    requires i < |lines| && !BoxLine(b, lines[i])
    ensures Dead(Box(b), grouped, lines)
  {
    forall more: seq<Line> ensures ListResult(Box(b), grouped, lines + more).Refused? {
      assert (lines + more)[i] == lines[i];
    }
    DeadWhole(Box(b), grouped, lines);
  }

  /** The header and the settled rows of a drawn table are those of any longer one. */
  lemma {:induction false} SettledExtends(b: BoxKind, lines: seq<Line>, more: seq<Line>)
    requires Cut(b, lines).closed != []
    ensures
      var c, blocks := Cut(b, lines), BoxBlocks(b, lines + more);
      && blocks != [] && blocks[0] == c.closed[0]
      && SettledRows(b, c) <= AllRows(b, blocks[1..])
  {
    hide Cut, AllRows, BodyRows;
    var c, c', blocks := Cut(b, lines), Cut(b, lines + more), BoxBlocks(b, lines + more);
    CutExtends(b, lines, more);
    var rest := blocks[|c.closed|..];
    assert c.closed <= blocks;
    assert blocks[1..] == c.closed[1..] + rest;
    AllRowsExtend(b, c.closed[1..], rest);
    if c.open != [] {
      assert rest != [] && c.open <= rest[0];
      assert rest[0] == c.open + rest[0][|c.open|..];
      BodyRowsExtend(b, c.open, rest[0][|c.open|..]);
    }
  }

  lemma {:induction false} BoxHeaderDead(b: BoxKind, grouped: bool, lines: seq<Line>)
    requires Cut(b, lines).closed != [] && b.columns(Cut(b, lines).closed[0]).Refused?
    ensures Dead(Box(b), grouped, lines)
  {
    forall more: seq<Line> ensures ListResult(Box(b), grouped, lines + more).Refused? {
      SettledExtends(b, lines, more);
    }
    DeadWhole(Box(b), grouped, lines);
  }

  lemma {:induction false} BoxRowsDead(b: BoxKind, grouped: bool, lines: seq<Line>, columns: seq<Column>)
    requires
      var c := Cut(b, lines);
      && c.closed != [] && b.columns(c.closed[0]) == Ok(columns)
      && BoxValues(b, c.closed[0], columns, SettledRows(b, c)).Refused?
    ensures Dead(Box(b), grouped, lines)
  {
    hide Cut, AllRows, BodyRows, BoxValues;
    var c := Cut(b, lines);
    var settled := SettledRows(b, c);
    forall more: seq<Line> ensures ListResult(Box(b), grouped, lines + more).Refused? {
      SettledExtends(b, lines, more);
      var rows := AllRows(b, BoxBlocks(b, lines + more)[1..]);
      assert rows == settled + rows[|settled|..];
      BoxValuesFail(b, c.closed[0], columns, settled, rows[|settled|..]);
    }
    DeadWhole(Box(b), grouped, lines);
  }

  /** A drawn table whose header has just been closed. */
  lemma {:induction false} BoxHeaderOnly(b: BoxKind, c: Cutting, columns: seq<Column>)
    requires |c.closed| == 1 && c.open == []
    ensures SettledRows(b, c) == [] && OpenRow(b, c) == []
    ensures BoxValues(b, c.closed[0], columns, SettledRows(b, c)) == Ok([])
  {
    assert c.closed[1..] == [];
  }

  /** What one more line does to the settled rows and the open one, once the header is closed. */
  lemma {:induction false} BoxSnoc(b: BoxKind, lines: seq<Line>, l: Line)
    requires Cut(b, lines).closed != []
    ensures
      var c, c' := Cut(b, lines), Cut(b, lines + [l]);
      var row := OpenRow(b, c);
      && c'.closed != [] && c'.closed[0] == c.closed[0]
      && (row == [] <==> c.open == [])
      && if b.isRule(l.text) || row == [] || !b.continues(l.text)
         then && SettledRows(b, c') == (if row == [] then SettledRows(b, c) else SettledRows(b, c) + [row])
              && OpenRow(b, c') == (if b.isRule(l.text) then [] else [l])
         else SettledRows(b, c') == SettledRows(b, c) && OpenRow(b, c') == row + [l]
  {
    hide Cut, AllRows, BodyRows, BoxValues;
    var c, c' := Cut(b, lines), Cut(b, lines + [l]);
    CutSnoc(b, lines, l);
    var rows := BodyRows(b, c.open);
    if b.isRule(l.text) {
      if c.open != [] {
        assert c'.closed[1..] == c.closed[1..] + [c.open];
        AllRowsSnoc(b, c.closed[1..], c.open);
        assert rows == rows[..|rows| - 1] + [rows[|rows| - 1]];
      }
      assert BodyRows(b, []) == [];
    } else {
      BodyRowsSnoc(b, c.open, l);
      if rows != [] && !b.continues(l.text) {
        assert rows == rows[..|rows| - 1] + [rows[|rows| - 1]];
      }
    }
  }

  /** How a drawn table ends. */
  lemma {:induction false} BoxFinish(b: BoxKind, lines: seq<Line>)
    requires Cut(b, lines).closed != []
    ensures
      var c, blocks := Cut(b, lines), BoxBlocks(b, lines);
      var row := OpenRow(b, c);
      var rows := if row == [] then SettledRows(b, c) else SettledRows(b, c) + [row];
      && blocks != [] && blocks[0] == c.closed[0]
      && AllRows(b, blocks[1..]) == rows
      && (|blocks| == 1 <==> rows == [])
  {
    hide Cut, BodyRows;
    var c, blocks := Cut(b, lines), BoxBlocks(b, lines);
    var rows := BodyRows(b, c.open);
    if c.open == [] {
      assert blocks[1..] == c.closed[1..];
    } else {
      assert blocks[1..] == c.closed[1..] + [c.open];
      AllRowsSnoc(b, c.closed[1..], c.open);
      assert rows == rows[..|rows| - 1] + [rows[|rows| - 1]];
    }
    if |blocks| > 1 {
      var m := |blocks| - 2;
      assert blocks[1..] == blocks[1..][..m] + [blocks[|blocks| - 1]];
      AllRowsSnoc(b, blocks[1..][..m], blocks[|blocks| - 1]);
    }
  }

  /** A drawn table whose lines all stand between the same two rules. */
  lemma {:induction false} BoxWithoutRule(b: BoxKind, lines: seq<Line>)
    requires Cut(b, lines).closed == [] && BoxLines(b, lines)
    ensures
      var block := Cut(b, lines).open;
      BoxResult(b, lines) ==
        if block == [] then Ok([])
        else if |block| > 1 || b.columns(block).Refused? then Refused else Ok([])
  {
    var block := Cut(b, lines).open;
    assert [block][1..] == [];
  }

  // ----- records -----

  lemma {:induction false} BlocksDead(start: Regex, reader: BlockReader, grouped: bool, lines: seq<Line>)
    requires BlocksOf(start, lines).Refused?
    ensures Dead(Blocks(start, reader), grouped, lines)
  {
    forall more: seq<Line> ensures !Complete(Blocks(start, reader), grouped, lines + more) {
      BlocksExtend(start, lines, more);
    }
  }

  /** A finished block that cannot be read, or is not read whole, ends the list. */
  lemma {:induction false} BlockDead(start: Regex, reader: BlockReader, grouped: bool, lines: seq<Line>, i: nat)
    requires BlocksOf(start, lines).Ok? && i + 1 < |BlocksOf(start, lines).value|
    requires !BlockRead(reader, BlocksOf(start, lines).value[i])
    ensures Dead(Blocks(start, reader), grouped, lines)
  {
    forall more: seq<Line> | Ascending(lines + more)
      ensures !Complete(Blocks(start, reader), grouped, lines + more)
    {
      BlocksExtend(start, lines, more);
      BlocksComplete(start, reader, grouped, lines + more);
      if BlocksOf(start, lines + more).Ok? {
        var bs, bs' := BlocksOf(start, lines).value, BlocksOf(start, lines + more).value;
        assert bs'[i] == bs[..|bs| - 1][i];
      }
    }
  }

  // ----- trees -----

  ghost predicate AtTop(t: TreeKind, lines: seq<Line>) {
    lines != [] ==> DepthOf(t, lines[0]).Ok? && DepthOf(t, lines[0]).value.0 == 0
  }

  lemma {:induction false} TreeDead(t: TreeKind, grouped: bool, lines: seq<Line>, i: nat)
    requires i < |lines| && DepthOf(t, lines[i]).Refused?
    ensures Dead(Tree(t), grouped, lines)
  {
    forall more: seq<Line> ensures ListResult(Tree(t), grouped, lines + more).Refused? {
      ForestRoundTrip(t, lines + more);
      assert (lines + more)[i] == lines[i];
      assert !Readable(t, lines[i]);
    }
    DeadWhole(Tree(t), grouped, lines);
  }

  lemma {:induction false} TreeOrphanDead(t: TreeKind, grouped: bool, l: Line)
    requires DepthOf(t, l).Ok? && DepthOf(t, l).value.0 > 0
    ensures Dead(Tree(t), grouped, [l])
  {
    forall more: seq<Line> ensures ListResult(Tree(t), grouped, [l] + more).Refused? {
      assert ([l] + more)[0] == l;
    }
    DeadWhole(Tree(t), grouped, [l]);
  }

  /** A top-level node that cannot be read, once the next one has begun, ends the tree. */
  lemma {:induction false} TreeNodeDead(t: TreeKind, grouped: bool, done: seq<Line>, group: seq<Line>, l: Line)
    requires group != [] && AtTop(t, group) && AtTop(t, [l]) && ForestOf(t, group, 0).Refused?
    ensures Dead(Tree(t), grouped, done + group + [l])
  {
    var lines := done + group + [l];
    forall more: seq<Line> ensures ListResult(Tree(t), grouped, lines + more).Refused? {
      var next := [l] + more;
      assert lines + more == done + (group + next);
      assert next[0] == l && (group + next)[0] == group[0];
      AppendAtTop(t, group, next);
      AppendAtTop(t, done, group + next);
    }
    DeadWhole(Tree(t), grouped, lines);
  }
}
