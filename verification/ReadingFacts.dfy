/** What one more line, and any more lines, do to a reading: the facts the streaming reader rests on. */
module ReadingFacts {
  import opened Lines
  import opened Json
  import opened Stages
  import opened Forest
  import opened Readings

  // ----- one more line -----

  lemma {:induction false} PerLineSnoc(read: Line -> Outcome<Json>, lines: seq<Line>, l: Line)
    ensures PerLineRun(read, lines + [l]) ==
      if PerLineRun(read, lines).Refused? || read(l).Refused? then Refused
      else Ok(PerLineRun(read, lines).value + [read(l).value])
  {
    assert (lines + [l])[..|lines|] == lines;
  }

  lemma {:induction false} TableSnoc(t: TableKind, lines: seq<Line>, l: Line)
    ensures TableRun(t, lines + [l]) ==
      if TableRun(t, lines).Refused? then Refused else TableStep(t, TableRun(t, lines).value, l)
  {
    assert (lines + [l])[..|lines|] == lines;
  }

  lemma {:induction false} CsvSnoc(c: CsvKind, start: CsvState, records: seq<Line>, rec: Line)
    ensures CsvRun(c, start, records + [rec]) ==
      if CsvRun(c, start, records).Refused? then Refused else CsvRecord(c, CsvRun(c, start, records).value, rec)
  {
    assert (records + [rec])[..|records|] == records;
  }

  lemma {:induction false} CsvRowsSnoc(c: CsvKind, s: CsvState, rows: seq<seq<string>>, row: seq<string>)
    ensures CsvRows(c, s, rows + [row]) ==
      if CsvRows(c, s, rows).Refused? then Refused else CsvRow(c, CsvRows(c, s, rows).value, row)
  {
    assert (rows + [row])[..|rows|] == rows;
  }

  lemma {:induction false} CutSnoc(b: BoxKind, lines: seq<Line>, l: Line)
    ensures Cut(b, lines + [l]) ==
      var before := Cut(b, lines);
      if !b.isRule(l.text) then before.(open := before.open + [l])
      else if before.open == [] then before
      else Cutting(before.closed + [before.open], [])
  {
    assert (lines + [l])[..|lines|] == lines;
  }

  lemma {:induction false} BodyRowsSnoc(b: BoxKind, block: seq<Line>, l: Line)
    ensures BodyRows(b, block + [l]) ==
      var before := BodyRows(b, block);
      if before != [] && b.continues(l.text) then before[..|before| - 1] + [before[|before| - 1] + [l]]
      else before + [[l]]
  {
    assert (block + [l])[..|block|] == block;
  }

  lemma {:induction false} AllRowsSnoc(b: BoxKind, blocks: seq<seq<Line>>, block: seq<Line>)
    ensures AllRows(b, blocks + [block]) == AllRows(b, blocks) + BodyRows(b, block)
  {
    assert (blocks + [block])[..|blocks|] == blocks;
  }

  lemma {:induction false} BoxValuesSnoc(b: BoxKind, header: seq<Line>, columns: seq<Column>, rows: seq<seq<Line>>, row: seq<Line>)
    requires forall i :: 0 <= i < |rows| ==> rows[i] != []
    requires row != []
    ensures BoxValues(b, header, columns, rows + [row]) ==
      var before := BoxValues(b, header, columns, rows);
      var cells := b.join(row);
      if before.Refused? then Refused
      else if cells == b.join(header) then before
      else if b.row(columns, cells, row[0].num).Refused? then Refused
      else Ok(before.value + [b.row(columns, cells, row[0].num).value])
  {
    assert (rows + [row])[..|rows|] == rows;
  }

  lemma {:induction false} BlocksSnoc(start: Regex, lines: seq<Line>, l: Line)
    ensures BlocksOf(start, lines).Refused? ==> BlocksOf(start, lines + [l]).Refused?
    ensures BlocksOf(start, lines).Ok? ==>
      var before := BlocksOf(start, lines).value;
      BlocksOf(start, lines + [l]) ==
        if start(l.text) then Ok(before + [[l]])
        else if before == [] then Refused
        else Ok(before[..|before| - 1] + [before[|before| - 1] + [l]])
  {
    assert (lines + [l])[..|lines|] == lines;
  }

  lemma {:induction false} BlocksRunSnoc(reader: BlockReader, blocks: seq<seq<Line>>, block: seq<Line>)
    ensures BlocksRun(reader, blocks + [block]) ==
      if BlocksRun(reader, blocks).Refused? || reader(block).Refused? then Refused
      else
        var before := BlocksRun(reader, blocks).value;
        Ok(ListOut(before.values + [reader(block).value.value], before.read + ReadOf(block, reader(block).value)))
  {
    assert (blocks + [block])[..|blocks|] == blocks;
  }

  // ----- any more lines: what has failed has failed -----

  lemma {:induction false} PerLineFails(read: Line -> Outcome<Json>, lines: seq<Line>, more: seq<Line>)
    requires PerLineRun(read, lines).Refused?
    ensures PerLineRun(read, lines + more).Refused?
  {
    if more == [] {
      assert lines + more == lines;
    } else {
      var n := |more| - 1;
      assert lines + more == (lines + more[..n]) + [more[n]];
      PerLineFails(read, lines, more[..n]);
      PerLineSnoc(read, lines + more[..n], more[n]);
    }
  }

  lemma {:induction false} TableFails(t: TableKind, lines: seq<Line>, more: seq<Line>)
    requires TableRun(t, lines).Refused?
    ensures TableRun(t, lines + more).Refused?
  {
    if more == [] {
      assert lines + more == lines;
    } else {
      var n := |more| - 1;
      assert lines + more == (lines + more[..n]) + [more[n]];
      TableFails(t, lines, more[..n]);
      TableSnoc(t, lines + more[..n], more[n]);
    }
  }

  lemma {:induction false} CsvFails(c: CsvKind, start: CsvState, records: seq<Line>, more: seq<Line>)
    requires CsvRun(c, start, records).Refused?
    ensures CsvRun(c, start, records + more).Refused?
  {
    if more == [] {
      assert records + more == records;
    } else {
      var n := |more| - 1;
      assert records + more == (records + more[..n]) + [more[n]];
      CsvFails(c, start, records, more[..n]);
      CsvSnoc(c, start, records + more[..n], more[n]);
    }
  }

  lemma {:induction false} CsvRowsFail(c: CsvKind, s: CsvState, rows: seq<seq<string>>, n: nat)
    requires n <= |rows| && CsvRows(c, s, rows[..n]).Refused?
    ensures CsvRows(c, s, rows).Refused?
    decreases |rows|
  {
    if n == |rows| {
      assert rows[..n] == rows;
    } else {
      var m := |rows| - 1;
      assert rows[..m][..n] == rows[..n];
      CsvRowsFail(c, s, rows[..m], n);
      assert rows == rows[..m] + [rows[m]];
      CsvRowsSnoc(c, s, rows[..m], rows[m]);
    }
  }

  lemma {:induction false} BoxValuesFail(b: BoxKind, header: seq<Line>, columns: seq<Column>,
                                         rows: seq<seq<Line>>, more: seq<seq<Line>>)
    requires forall i :: 0 <= i < |rows| ==> rows[i] != []
    requires forall i :: 0 <= i < |more| ==> more[i] != []
    requires BoxValues(b, header, columns, rows).Refused?
    ensures BoxValues(b, header, columns, rows + more).Refused?
  {
    if more == [] {
      assert rows + more == rows;
    } else {
      var n := |more| - 1;
      assert rows + more == (rows + more[..n]) + [more[n]];
      BoxValuesFail(b, header, columns, rows, more[..n]);
      BoxValuesSnoc(b, header, columns, rows + more[..n], more[n]);
    }
  }

  lemma {:induction false} BlocksRunFails(reader: BlockReader, blocks: seq<seq<Line>>, i: nat)
    requires i < |blocks| && reader(blocks[i]).Refused?
    ensures BlocksRun(reader, blocks).Refused?
  {
    var n := |blocks| - 1;
    if i < n {
      BlocksRunFails(reader, blocks[..n], i);
    }
  }

  // ----- any more lines: what is closed stays -----

  /** Closed blocks stay, and the open one is where the next block begins. */
  lemma {:induction false} CutExtends(b: BoxKind, lines: seq<Line>, more: seq<Line>)
    ensures
      var c, c' := Cut(b, lines), Cut(b, lines + more);
      && c.closed <= c'.closed
      && (c.open != [] ==>
            if |c'.closed| == |c.closed| then c.open <= c'.open else c.open <= c'.closed[|c.closed|])
  {
    if more == [] {
      assert lines + more == lines;
    } else {
      var n := |more| - 1;
      assert lines + more == (lines + more[..n]) + [more[n]];
      CutExtends(b, lines, more[..n]);
      CutSnoc(b, lines + more[..n], more[n]);
    }
  }

  /** Only the last row of a block can still grow. */
  lemma {:induction false} BodyRowsExtend(b: BoxKind, block: seq<Line>, more: seq<Line>)
    requires block != []
    ensures
      var rows, rows' := BodyRows(b, block), BodyRows(b, block + more);
      |rows| <= |rows'| && rows[..|rows| - 1] <= rows'
  {
    if more == [] {
      assert block + more == block;
    } else {
      var n := |more| - 1;
      assert block + more == (block + more[..n]) + [more[n]];
      BodyRowsExtend(b, block, more[..n]);
      BodyRowsSnoc(b, block + more[..n], more[n]);
    }
  }

  lemma {:induction false} AllRowsExtend(b: BoxKind, blocks: seq<seq<Line>>, more: seq<seq<Line>>)
    ensures AllRows(b, blocks) <= AllRows(b, blocks + more)
    ensures more != [] ==> AllRows(b, blocks) + BodyRows(b, more[0]) <= AllRows(b, blocks + more)
  {
    if more == [] {
      assert blocks + more == blocks;
    } else {
      var n := |more| - 1;
      assert blocks + more == (blocks + more[..n]) + [more[n]];
      AllRowsExtend(b, blocks, more[..n]);
      AllRowsSnoc(b, blocks + more[..n], more[n]);
      if n == 0 {
        assert blocks + more[..0] == blocks;
      }
    }
  }

  /** Only the last block can still grow. */
  lemma {:induction false} BlocksExtend(start: Regex, lines: seq<Line>, more: seq<Line>)
    ensures BlocksOf(start, lines).Refused? ==> BlocksOf(start, lines + more).Refused?
    ensures BlocksOf(start, lines).Ok? && BlocksOf(start, lines + more).Ok? ==>
      var bs, bs' := BlocksOf(start, lines).value, BlocksOf(start, lines + more).value;
      |bs| <= |bs'| && (bs != [] ==> bs[..|bs| - 1] <= bs')
  {
    if more == [] {
      assert lines + more == lines;
    } else {
      var n := |more| - 1;
      assert lines + more == (lines + more[..n]) + [more[n]];
      BlocksExtend(start, lines, more[..n]);
      BlocksSnoc(start, lines + more[..n], more[n]);
    }
  }

  // ----- which lines of the blocks were read -----

  function Flatten(blocks: seq<seq<Line>>): seq<Line> {
    if blocks == [] then [] else Flatten(blocks[..|blocks| - 1]) + blocks[|blocks| - 1]
  }

  /** The rows of a block of a drawn table are its lines, each once and in order. */
  lemma {:induction false} BodyRowsFlatten(b: BoxKind, block: seq<Line>)
    ensures Flatten(BodyRows(b, block)) == block
  {
    if block != [] {
      var n := |block| - 1;
      var before, l := BodyRows(b, block[..n]), block[n];
      assert block == block[..n] + [l];
      BodyRowsFlatten(b, block[..n]);
      BodyRowsSnoc(b, block[..n], l);
      hide BodyRows;
      if before != [] && b.continues(l.text) {
        var m := |before| - 1;
        FlattenSnoc(before[..m], before[m]);
        FlattenSnoc(before[..m], before[m] + [l]);
        assert before == before[..m] + [before[m]];
        assert Flatten(before[..m]) + (before[m] + [l]) == (Flatten(before[..m]) + before[m]) + [l];
      } else {
        FlattenSnoc(before, [l]);
      }
    }
  }

  lemma {:induction false} FlattenSnoc(blocks: seq<seq<Line>>, block: seq<Line>)
    ensures Flatten(blocks + [block]) == Flatten(blocks) + block
  {
    assert (blocks + [block])[..|blocks|] == blocks;
  }

  /** A block that is read, and with it every line that says something. */
  ghost predicate BlockRead(reader: BlockReader, block: seq<Line>) {
    reader(block).Ok? && Covers(reader(block).value.read, block)
  }

  lemma {:induction false} BlocksFlatten(start: Regex, lines: seq<Line>)
    requires BlocksOf(start, lines).Ok?
    ensures Flatten(BlocksOf(start, lines).value) == lines
  {
    if lines != [] {
      var n := |lines| - 1;
      assert lines == lines[..n] + [lines[n]];
      BlocksFlatten(start, lines[..n]);
      BlocksSnoc(start, lines[..n], lines[n]);
      var before, after := BlocksOf(start, lines[..n]).value, BlocksOf(start, lines).value;
      var m := |after| - 1;
      if start(lines[n].text) {
        assert after[..m] == before;
      } else {
        assert after[..m] == before[..m];
        assert before == before[..m] + [before[m]];
      }
    }
  }

  /** Where two runs of lines share no number, each is covered by what was read of its own. */
  lemma {:induction false} CoversApart(r: set<nat>, s: set<nat>, a: seq<Line>, b: seq<Line>)
    requires Ascending(a + b) && r <= Numbers(a) && s <= Numbers(b)
    ensures Covers(r + s, a + b) <==> Covers(r, a) && Covers(s, b)
  {
    var all := a + b;
    assert forall i :: 0 <= i < |a| ==> all[i] == a[i];
    assert forall i :: 0 <= i < |b| ==> all[|a| + i] == b[i];
    if Covers(r + s, all) {
      forall i | 0 <= i < |a| ensures Blank(a[i].text) || a[i].num in r {
        assert all[i] == a[i];
      }
      forall i | 0 <= i < |b| ensures Blank(b[i].text) || b[i].num in s {
        assert all[|a| + i] == b[i];
      }
    }
  }

  lemma {:induction false} AscendingParts(a: seq<Line>, b: seq<Line>)
    requires Ascending(a + b)
    ensures Ascending(a) && Ascending(b)
  {
    assert forall i :: 0 <= i < |a| ==> (a + b)[i] == a[i];
    assert forall i :: 0 <= i < |b| ==> (a + b)[|a| + i] == b[i];
  }

  lemma {:induction false} NumbersConcat(a: seq<Line>, b: seq<Line>)
    ensures Numbers(a + b) == Numbers(a) + Numbers(b)
  {
    assert forall i :: 0 <= i < |a| ==> (a + b)[i] == a[i];
    assert forall i :: 0 <= i < |b| ==> (a + b)[|a| + i] == b[i];
  }

  /** Every line of the blocks was read when every line of each was read by its own reading. */
  lemma {:induction false} BlocksCovered(reader: BlockReader, blocks: seq<seq<Line>>)
    requires Ascending(Flatten(blocks)) && BlocksRun(reader, blocks).Ok?
    ensures BlocksRun(reader, blocks).value.read <= Numbers(Flatten(blocks))
    ensures Covers(BlocksRun(reader, blocks).value.read, Flatten(blocks)) <==>
      forall i :: 0 <= i < |blocks| ==> BlockRead(reader, blocks[i])
  {
    if blocks != [] {
      var n := |blocks| - 1;
      var init, last := blocks[..n], blocks[n];
      AscendingParts(Flatten(init), last);
      BlocksCovered(reader, init);
      var r := reader(last).value;
      CoversApart(BlocksRun(reader, init).value.read, ReadOf(last, r), Flatten(init), last);
      NumbersConcat(Flatten(init), last);
      assert Covers(ReadOf(last, r), last) <==> BlockRead(reader, last) by {
        assert forall i :: 0 <= i < |last| ==> last[i].num in Numbers(last);
      }
      if forall i :: 0 <= i < |init| ==> BlockRead(reader, init[i]) {
        assert BlockRead(reader, last) ==> forall i :: 0 <= i < |blocks| ==> BlockRead(reader, blocks[i]);
      } else {
        var i :| 0 <= i < |init| && !BlockRead(reader, init[i]);
        assert !BlockRead(reader, blocks[i]);
      }
    }
  }

  /** Records are complete when every block is read. */
  lemma {:induction false} BlocksComplete(start: Regex, reader: BlockReader, grouped: bool, lines: seq<Line>)
    requires Ascending(lines)
    ensures Complete(Blocks(start, reader), grouped, lines) <==>
      && BlocksOf(start, lines).Ok?
      && forall i :: 0 <= i < |BlocksOf(start, lines).value| ==> BlockRead(reader, BlocksOf(start, lines).value[i])
  {
    hide Covers, BlocksRun, BlocksOf, Flatten, BlockRead;
    if BlocksOf(start, lines).Ok? {
      var blocks := BlocksOf(start, lines).value;
      BlocksFlatten(start, lines);
      if BlocksRun(reader, blocks).Ok? {
        BlocksCovered(reader, blocks);
      } else if forall i :: 0 <= i < |blocks| ==> BlockRead(reader, blocks[i]) {
        BlocksRunSucceeds(reader, blocks);
        assert false;
      }
    }
  }

  lemma {:induction false} BlocksRunSucceeds(reader: BlockReader, blocks: seq<seq<Line>>)
    requires forall i :: 0 <= i < |blocks| ==> BlockRead(reader, blocks[i])
    ensures BlocksRun(reader, blocks).Ok?
  {
    if blocks != [] {
      BlocksRunSucceeds(reader, blocks[..|blocks| - 1]);
    }
  }

  /** For every other parser, reading the list is reading every line. */
  lemma {:induction false} WholeIsComplete(k: ListKind, grouped: bool, lines: seq<Line>)
    requires !k.Blocks?
    ensures Complete(k, grouped, lines) <==> ListResult(k, grouped, lines).Ok?
  {
    if ListResult(k, grouped, lines).Ok? {
      assert ListResult(k, grouped, lines).value.read == Numbers(lines);
      assert forall i :: 0 <= i < |lines| ==> lines[i].num in Numbers(lines);
    }
  }
}
