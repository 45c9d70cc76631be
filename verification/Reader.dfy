/**
 The streaming reader of one list (pkg/engine/stream.go, feedRecord and what it calls): it hands over
 a value as soon as the lines that make it are known, and holds back the lines of one it is not sure
 of. `fed` is the history every field is held against.
 */
module Reader {
  import opened Lines
  import opened Json
  import opened Stages
  import opened Forest
  import opened Readings
  import opened ReadingFacts
  import opened ReaderFacts
  import opened Holding
  import Columns

  /** How feeding ended: well, with a refusal, or with more held back than the limit allows. */
  datatype Status = Good | Refusal | Overflow

  /** What the readers of one stream are holding back, together (hold). */
  class Hold {
    const limit: int
    var bytes: int

    constructor (limit: int)
      ensures this.limit == limit && bytes == 0
    {
      this.limit := limit;
      bytes := 0;
    }

    method Take(n: nat) returns (ok: bool)
      modifies this
      ensures bytes == old(bytes) + n && ok == (bytes <= limit)
    {
      bytes := bytes + n;
      ok := bytes <= limit;
    }

    method Give(n: nat)
      modifies this
      ensures bytes == old(bytes) - n
    {
      bytes := bytes - n;
    }
  }

  /** The most a parser may hold back of a line: one that makes a value of every line holds nothing. */
  ghost function Charge(k: ListKind, text: string): nat {
    if k.PerLine? || k.Table? then 0 else Cost(text)
  }

  /** Feeding ended well only if no more than the limit was held at the height of it, and was given up for the limit
      only if more was. */
  predicate Weighed(s: Status, height: int, limit: int) {
    (s == Good ==> height <= limit) && (s == Overflow ==> height > limit)
  }

  class ListReader {
    const kind: ListKind
    /** The lines of a csv are records already (csvIn is set). */
    const grouped: bool
    const held: Hold

    // a table: its columns once the header is read, and the header's text
    var columns: Option<seq<Column>>
    var headerText: string
    // records: the lines of the block still open
    var block: seq<Line>
    // a csv part: the lines of the record still open; and its columns
    var csvPending: seq<string>
    var csvPendNum: nat
    var csvQuote: Quote
    var csvColumns: Option<seq<string>>
    var csvChecked: bool
    // a drawn table: the lines between two rules, the header, and whether the body has begun
    var boxRow: seq<Line>
    var boxColumns: Option<seq<Column>>
    var boxHeader: seq<Line>
    var boxBody: bool
    // a tree: the lines of the top-level node still open
    var tree: seq<Line>
    /** The values handed over. */
    var emitted: seq<Json>

    ghost var fed: seq<Line>
    /** The blocks and the top-level nodes handed over. */
    ghost var doneBlocks: seq<seq<Line>>
    ghost var doneNodes: seq<Line>

    /** What the reader holds back. */
    ghost function Held(): nat
      reads this
    {
      LinesCost(block) + TextsCost(csvPending) + LinesCost(boxRow) + LinesCost(tree)
    }

    ghost predicate TableValid(t: TableKind)
      reads this
    {
      TableRun(t, fed) == Ok(TableState(columns, headerText, emitted))
    }

    ghost predicate CsvValid(c: CsvKind)
      reads this
    {
      && (if grouped then csvPending == [] else Group(c.delim, fed) == Grouping(Group(c.delim, fed).records, csvPending, csvPendNum, csvQuote))
      && CsvRun(c, CsvStreamStart(c), ClosedRecords(c, grouped, fed)) == Ok(CsvState(csvColumns, csvChecked, emitted))
    }

    ghost predicate BoxValid(b: BoxKind)
      reads this
    {
      var c := Cut(b, fed);
      && BoxLines(b, fed)
      && if boxColumns.None? then c == Cutting([], boxRow) && emitted == [] && !boxBody
         else
           && c.closed != [] && boxHeader == c.closed[0] && b.columns(boxHeader) == Ok(boxColumns.value)
           && boxRow == OpenRow(b, c)
           && boxBody == (SettledRows(b, c) != [])
           && BoxValues(b, boxHeader, boxColumns.value, SettledRows(b, c)) == Ok(emitted)
    }

    ghost predicate BlocksValid(start: Regex, reader: BlockReader)
      reads this
    {
      && BlocksOf(start, fed) == Ok(AndOpen(doneBlocks, block))
      && (block == [] ==> doneBlocks == [])
      && (forall i :: 0 <= i < |doneBlocks| ==> BlockRead(reader, doneBlocks[i]))
      && BlocksRun(reader, doneBlocks).Ok? && BlocksRun(reader, doneBlocks).value.values == emitted
    }

    ghost predicate TreeValid(t: TreeKind)
      reads this
    {
      && fed == doneNodes + tree
      && (tree == [] ==> fed == []) && AtTop(t, tree) && tree == LastNode(t, fed)
      && ForestOf(t, doneNodes, 0).Ok? && emitted == NodesJson(ForestOf(t, doneNodes, 0).value.0)
    }

    ghost predicate Valid()
      reads this
    {
      && (!kind.Blocks? ==> block == []) && (!kind.Csv? ==> csvPending == [])
      && (!kind.Box? ==> boxRow == []) && (!kind.Tree? ==> tree == [])
      && match kind
         case PerLine(read) => PerLineRun(read, fed) == Ok(emitted)
         case Table(t) => TableValid(t)
         case Csv(c) => CsvValid(c)
         case Box(b) => BoxValid(b)
         case Blocks(start, reader) => BlocksValid(start, reader)
         case Tree(t) => TreeValid(t)
    }

    constructor (kind: ListKind, grouped: bool, held: Hold)
      ensures Valid() && fed == [] && emitted == [] && Held() == 0
      ensures this.kind == kind && this.grouped == grouped && this.held == held
    {
      this.kind, this.grouped, this.held := kind, grouped, held;
      columns := if kind.Table? then TableStart(kind.table).columns else None;
      headerText := "";
      csvColumns := if kind.Csv? then CsvStreamStart(kind.csv).columns else None;
      csvChecked, csvPendNum, csvQuote := false, 0, OUTSIDE;
      block, csvPending, boxRow, tree, emitted := [], [], [], [], [];
      boxColumns, boxHeader, boxBody := None, [], false;
      fed, doneBlocks, doneNodes := [], [], [];
    }

    /** What is held back is what the lines leave open. */
    lemma {:induction false} HeldIs()
      requires Valid()
      ensures Held() == HeldBy(kind, grouped, fed)
    {
      hide ForestOf, BlocksRun, Cost, LinesCost, BlocksOf, TextsCost, Cut, AllRows, BodyRows, BoxValues, SettledRows;
      hide OpenRow, Group, CsvRun, PerLineRun, TableRun, LastNode, BoxLines, NodesJson, BlockRead;
      NothingCosts();
    }

    /** What feeding a line does: nothing handed over is taken back, what is held back is accounted
        for, and a refusal is one the whole list earns too, however it goes on. */
    twostate predicate Took(l: Line, s: Status)
      reads this, held
    {
      && fed == old(fed) + [l] && old(emitted) <= emitted
      && (s == Good ==> Valid() && held.bytes == old(held.bytes) + Held() - old(Held()))
      && (s == Refusal ==> Dead(kind, grouped, fed))
      && held.bytes <= old(held.bytes) + Charge(kind, l.text)
      && (s == Overflow <==> held.bytes > held.limit)
      && Weighed(s, old(held.bytes - Held() + Reached(kind, grouped, Held(), l)), held.limit)
    }

    /** One line to the parser for its type (feedRecord). */
    method FeedRecord(l: Line) returns (s: Status)
      requires Valid() && Agreed(kind) && held.bytes <= held.limit
      modifies this, held
      ensures Took(l, s)
    {
      match kind
      case PerLine(read) =>
        s := FeedPerLine(l);
      case Table(t) =>
        s := FeedTable(l);
      case Csv(c) =>
        s := FeedCsv(l);
      case Box(b) =>
        s := FeedBox(l);
      case Blocks(start, reader) =>
        s := FeedBlock(l);
      case Tree(t) =>
        s := FeedTree(l);
    }

    method FeedPerLine(l: Line) returns (s: Status)
      requires Valid() && kind.PerLine? && held.bytes <= held.limit
      modifies this
      ensures Took(l, s)
    {
      PerLineSnoc(kind.read, fed, l);
      fed := fed + [l];
      var v := kind.read(l);
      if v.Refused? {
        PerLineDead(kind.read, grouped, fed);
        return Refusal;
      }
      emitted := emitted + [v.value];
      return Good;
    }

    method FeedTable(l: Line) returns (s: Status)
      requires Valid() && kind.Table? && held.bytes <= held.limit
      modifies this
      ensures Took(l, s)
    {
      var t := kind.table;
      TableSnoc(t, fed, l);
      fed := fed + [l];
      if columns.None? || (t.columns.None? && t.sameHeader(l.text, headerText)) {
        // The header, or a second table's, which says where its own columns are.
        var resolved := t.resolve(l);
        if resolved.Refused? {
          TableDead(t, grouped, fed);
          return Refusal;
        }
        if columns.None? {
          headerText := l.text;
        }
        columns := Some(resolved.value);
        return Good;
      }
      var v := t.row(columns.value, l);
      if v.Refused? {
        TableDead(t, grouped, fed);
        return Refusal;
      }
      emitted := emitted + [v.value];
      return Good;
    }

    /** Hold a line back while a quoted value is open, and read the record once it is closed. */
    method FeedCsv(l: Line) returns (s: Status)
      requires Valid() && kind.Csv? && Agreed(kind) && held.bytes <= held.limit
      modifies this, held
      ensures Took(l, s)
    {
      hide CsvRun, Group, Dead, CsvRecord, TextsCost, Agreed;
      NothingCosts();
      var c := kind.csv;
      ghost var records := ClosedRecords(c, grouped, fed);
      if grouped {
        CsvSnoc(c, CsvStreamStart(c), records, l);
        fed := fed + [l];
        s := EmitCsv(l);
        if s == Refusal {
          CsvDead(c, grouped, fed);
        }
        return;
      }
      GroupSnoc(c.delim, fed, l);
      TextsCostSnoc(csvPending, l.text);
      if csvPending == [] {
        csvPendNum := l.num;
      }
      var ok := held.Take(Cost(l.text));
      csvPending := csvPending + [l.text];
      csvQuote := Feed(csvQuote, c.delim, l.text);
      fed := fed + [l];
      if !ok {
        return Overflow;
      }
      if csvQuote.quoted {
        return Good;
      }
      CsvSnoc(c, CsvStreamStart(c), records, Record(csvPending, csvPendNum));
      s := FlushCsv();
      if s == Refusal {
        CsvDead(c, grouped, fed);
      }
    }

    /** Read the record being held, whole. */
    method FlushCsv() returns (s: Status)
      requires kind.Csv? && csvPending != []
      modifies this, held
      ensures unchanged(this`columns, this`headerText, this`block, this`csvPendNum, this`csvQuote, this`boxRow,
                        this`boxColumns, this`boxHeader, this`boxBody, this`tree, this`fed, this`doneBlocks,
                        this`doneNodes)
      ensures csvPending == [] && old(emitted) <= emitted
      ensures held.bytes == old(held.bytes) - TextsCost(old(csvPending))
      ensures s != Overflow
      ensures
        var before := old(CsvState(csvColumns, csvChecked, emitted));
        var after := CsvRecord(kind.csv, before, Record(old(csvPending), csvPendNum));
        if s == Good then after == Ok(CsvState(csvColumns, csvChecked, emitted)) else after.Refused?
    {
      var rec := Record(csvPending, csvPendNum);
      JoinKeepsCost(csvPending, "\n");
      held.Give(Cost(rec.text));
      csvPending := [];
      s := EmitCsv(rec);
    }

    /** Read one finished record, the first one as the header unless the definition names the
        columns. */
    method EmitCsv(rec: Line) returns (s: Status)
      requires kind.Csv?
      modifies this`csvColumns, this`csvChecked, this`emitted
      ensures old(emitted) <= emitted && s != Overflow
      ensures
        var after := CsvRecord(kind.csv, old(CsvState(csvColumns, csvChecked, emitted)), rec);
        if s == Good then after == Ok(CsvState(csvColumns, csvChecked, emitted)) else after.Refused?
    {
      var c := kind.csv;
      var cut := c.cut(rec.text);
      if cut.Refused? {
        return Refusal;
      }
      var rows := cut.value;
      ghost var before := CsvState(csvColumns, csvChecked, emitted);
      for i := 0 to |rows|
        invariant old(emitted) <= emitted
        invariant CsvRows(c, before, rows[..i]) == Ok(CsvState(csvColumns, csvChecked, emitted))
      {
        var row := rows[i];
        assert rows[..i + 1] == rows[..i] + [row];
        CsvRowsSnoc(c, before, rows[..i], row);
        var isHeader := false;
        if csvColumns.None? {
          var names;
          if c.none {
            names := Columns.CsvNumbered(|row|);
          } else {
            names := Columns.CsvColumns(c.heading, c.columns, row);
            isHeader := true;
          }
          csvColumns := Some(names);
        }
        if !csvChecked {
          csvChecked := true;
          var known := Columns.CheckColumns(c.expected, csvColumns.value);
          if !known {
            CsvRowsFail(c, before, rows, i + 1);
            return Refusal;
          }
        }
        if !isHeader {
          var v := Columns.CsvRow(c.convert, csvColumns.value, row);
          if v.Refused? {
            CsvRowsFail(c, before, rows, i + 1);
            return Refusal;
          }
          emitted := emitted + [v.value];
        }
      }
      assert rows[..|rows|] == rows;
      return Good;
    }

    /** Hold the lines of a drawn table back until a rule, or the next row, closes them. */
    method FeedBox(l: Line) returns (s: Status)
      requires Valid() && kind.Box? && held.bytes <= held.limit
      modifies this, held
      ensures Took(l, s)
    {
      hide Cut, AllRows, BodyRows, BoxValues, SettledRows, OpenRow, Dead, LinesCost, BoxLines, BoxLine;
      var b := kind.box;
      ghost var before := fed;
      fed := fed + [l];
      if !BoxLine(b, l) {
        BoxLineDead(b, grouped, fed, |before|);
        return Refusal;
      }
      BoxLinesSnoc(b, before, l);
      CutSnoc(b, before, l);
      if boxColumns.Some? {
        BoxSnoc(b, before, l);
      }
      if boxColumns.None? {
        s := FeedBoxHeader(l);
        if s == Good && boxColumns.Some? {
          BoxHeaderOnly(b, Cut(b, fed), boxColumns.value);
        }
      } else {
        s := FeedBoxBody(l, before);
      }
    }

    /** A line before the first rule that closes something, or that rule. */
    method FeedBoxHeader(l: Line) returns (s: Status)
      requires kind.Box? && boxColumns.None? && held.bytes <= held.limit
      requires Cut(kind.box, fed) ==
        if !kind.box.isRule(l.text) then Cutting([], boxRow + [l]) else Cutting(AndOpen([], boxRow), [])
      modifies this`boxRow, this`boxColumns, this`boxHeader, held
      ensures s == Good ==> held.bytes - LinesCost(boxRow) == old(held.bytes - LinesCost(boxRow))
      ensures held.bytes <= old(held.bytes) + Cost(l.text)
      ensures s == Overflow <==> held.bytes > held.limit
      ensures Weighed(s, old(held.bytes) + if kind.box.isRule(l.text) then 0 else Cost(l.text), held.limit)
      ensures s == Refusal ==> Dead(kind, grouped, fed)
      ensures s == Good ==>
        var c := Cut(kind.box, fed);
        if boxColumns.None? then c == Cutting([], boxRow)
        else
          && |c.closed| == 1 && c.open == [] && boxRow == []
          && boxHeader == c.closed[0] && kind.box.columns(boxHeader) == Ok(boxColumns.value)
    {
      hide Cut, Dead, LinesCost;
      NothingCosts();
      if kind.box.isRule(l.text) {
        if boxRow == [] {
          return Good;
        }
        s := CloseBoxHeader();
        if s == Refusal {
          BoxHeaderDead(kind.box, grouped, fed);
        }
        return;
      }
      LinesCostSnoc(boxRow, l);
      var ok := held.Take(Cost(l.text));
      boxRow := boxRow + [l];
      return if ok then Good else Overflow;
    }

    /** A line after the header: a rule, a row, or the rest of the row above it. */
    method FeedBoxBody(l: Line, ghost before: seq<Line>) returns (s: Status)
      requires kind.Box? && boxColumns.Some? && held.bytes <= held.limit
      requires
        var b := kind.box;
        var c, c' := Cut(b, before), Cut(b, fed);
        && c.closed != [] && c'.closed != [] && c'.closed[0] == c.closed[0] == boxHeader
        && b.columns(boxHeader) == Ok(boxColumns.value) && boxRow == OpenRow(b, c)
        && boxBody == (SettledRows(b, c) != [])
        && BoxValues(b, boxHeader, boxColumns.value, SettledRows(b, c)) == Ok(emitted)
        && if b.isRule(l.text) || boxRow == [] || !b.continues(l.text)
           then && SettledRows(b, c') == (if boxRow == [] then SettledRows(b, c) else SettledRows(b, c) + [boxRow])
                && OpenRow(b, c') == (if b.isRule(l.text) then [] else [l])
           else SettledRows(b, c') == SettledRows(b, c) && OpenRow(b, c') == boxRow + [l]
      modifies this`boxRow, this`boxBody, this`emitted, held
      ensures old(emitted) <= emitted
      ensures s == Good ==> held.bytes - LinesCost(boxRow) == old(held.bytes - LinesCost(boxRow))
      ensures held.bytes <= old(held.bytes) + Cost(l.text)
      ensures s == Overflow <==> held.bytes > held.limit
      ensures Weighed(s, old(held.bytes) + if kind.box.isRule(l.text) then 0 else Cost(l.text), held.limit)
      ensures s == Refusal ==> Dead(kind, grouped, fed)
      ensures s == Good ==>
        var b, c := kind.box, Cut(kind.box, fed);
        && boxRow == OpenRow(b, c) && boxBody == (SettledRows(b, c) != [])
        && BoxValues(b, boxHeader, boxColumns.value, SettledRows(b, c)) == Ok(emitted)
    {
      hide Cut, AllRows, BodyRows, BoxValues, SettledRows, OpenRow, Dead, LinesCost;
      NothingCosts();
      var b := kind.box;
      ghost var settled := SettledRows(b, Cut(b, before));
      if b.isRule(l.text) {
        if boxRow == [] {
          return Good;
        }
        s := FlushBoxRow(settled);
        if s == Refusal {
          BoxRowsDead(b, grouped, fed, boxColumns.value);
        }
        return;
      }
      LinesCostSnoc(boxRow, l);
      var ok := held.Take(Cost(l.text));
      if !ok {
        return Overflow;
      }
      if boxRow != [] && b.continues(l.text) {
        boxRow := boxRow + [l];
        return Good;
      }
      if boxRow != [] {
        s := FlushBoxRow(settled);
        if s == Refusal {
          BoxRowsDead(b, grouped, fed, boxColumns.value);
          return;
        }
      }
      boxRow := [l];
      LinesCostSnoc([], l);
      assert [] + [l] == [l];
      return Good;
    }

    /** Name the columns from the lines above the first rule. */
    method CloseBoxHeader() returns (s: Status)
      requires kind.Box? && boxRow != []
      modifies this`boxRow, this`boxColumns, this`boxHeader, held
      ensures boxRow == [] && held.bytes == old(held.bytes) - LinesCost(old(boxRow)) && s != Overflow
      ensures
        if s == Good then
          boxHeader == old(boxRow) && boxColumns.Some? && kind.box.columns(boxHeader) == Ok(boxColumns.value)
        else kind.box.columns(old(boxRow)).Refused?
    {
      var group := boxRow;
      boxRow := [];
      held.Give(LinesCost(group));
      var resolved := kind.box.columns(group);
      if resolved.Refused? {
        return Refusal;
      }
      boxColumns, boxHeader := Some(resolved.value), group;
      return Good;
    }

    /** Hand over the row being held, unless it is the header of a second table. `rows` are the rows
        handed over before it. */
    method FlushBoxRow(ghost rows: seq<seq<Line>>) returns (s: Status)
      requires kind.Box? && boxRow != [] && boxColumns.Some?
      requires forall i :: 0 <= i < |rows| ==> rows[i] != []
      requires BoxValues(kind.box, boxHeader, boxColumns.value, rows) == Ok(emitted)
      modifies this`boxRow, this`boxBody, this`emitted, held
      ensures boxRow == [] && boxBody && old(emitted) <= emitted
      ensures held.bytes == old(held.bytes) - LinesCost(old(boxRow)) && s != Overflow
      ensures
        var after := BoxValues(kind.box, boxHeader, boxColumns.value, rows + [old(boxRow)]);
        if s == Good then after == Ok(emitted) else after.Refused?
    {
      var b := kind.box;
      var group := boxRow;
      BoxValuesSnoc(b, boxHeader, boxColumns.value, rows, group);
      boxRow, boxBody := [], true;
      held.Give(LinesCost(group));
      var cells := b.join(group);
      if cells == b.join(boxHeader) {
        return Good;
      }
      var v := b.row(boxColumns.value, cells, group[0].num);
      if v.Refused? {
        return Refusal;
      }
      emitted := emitted + [v.value];
      return Good;
    }

    /** Hold the lines of a record back, and hand the one before over as soon as the next begins. */
    method FeedBlock(l: Line) returns (s: Status)
      requires Valid() && kind.Blocks? && held.bytes <= held.limit
      modifies this, held
      ensures Took(l, s)
    {
      hide BlocksOf, BlocksRun, BlockRead, Dead, LinesCost;
      NothingCosts();
      var start := kind.start;
      BlocksSnoc(start, fed, l);
      ghost var before := BlocksOf(start, fed).value;
      fed := fed + [l];
      if start(l.text) {
        var flushed := Good;
        if block != [] {
          flushed := FlushBlock();
        }
        var ok := held.Take(Cost(l.text));
        block := [l];
        assert [] + [l] == [l];
        LinesCostSnoc([], l);
        if !ok {
          return Overflow;
        }
        if flushed == Refusal {
          BlockDead(start, kind.block, grouped, fed, |before| - 1);
        }
        return flushed;
      }
      if block == [] {
        BlocksDead(start, kind.block, grouped, fed);
        return Refusal;
      }
      LinesCostSnoc(block, l);
      var ok := held.Take(Cost(l.text));
      block := block + [l];
      if !ok {
        return Overflow;
      }
      assert before[..|before| - 1] == doneBlocks;
      return Good;
    }

    /** Read the block being held, and refuse it when a line of it that says something was not read. */
    method FlushBlock() returns (s: Status)
      requires kind.Blocks? && block != []
      requires BlocksRun(kind.block, doneBlocks).Ok? && BlocksRun(kind.block, doneBlocks).value.values == emitted
      modifies this`block, this`emitted, this`doneBlocks, held
      ensures block == [] && old(emitted) <= emitted
      ensures held.bytes == old(held.bytes) - LinesCost(old(block)) && s != Overflow
      ensures doneBlocks == old(doneBlocks) + [old(block)]
      ensures s == Good ==>
        && BlockRead(kind.block, old(block))
        && BlocksRun(kind.block, doneBlocks).Ok? && BlocksRun(kind.block, doneBlocks).value.values == emitted
      ensures s == Refusal ==> !BlockRead(kind.block, old(block))
    {
      var group := block;
      block := [];
      held.Give(LinesCost(group));
      BlocksRunSnoc(kind.block, doneBlocks, group);
      doneBlocks := doneBlocks + [group];
      var v := kind.block(group);
      if v.Refused? || !Covers(v.value.read, group) {
        return Refusal;
      }
      emitted := emitted + [v.value.value];
      return Good;
    }

    /** Hold a top-level node and its descendants back until the next one begins. */
    method FeedTree(l: Line) returns (s: Status)
      requires Valid() && kind.Tree? && held.bytes <= held.limit
      modifies this, held
      ensures Took(l, s)
    {
      hide ForestOf, NodesJson, DepthOf, Dead, LinesCost, LastNode, Cost;
      NothingCosts();
      var t := kind.tree;
      ghost var before := fed;
      LastNodeSnoc(t, before, l);
      fed := fed + [l];
      var depth := DepthOf(t, l);
      if depth.Refused? {
        TreeDead(t, grouped, fed, |before|);
        return Refusal;
      }
      if depth.value.0 == 0 {
        if tree != [] {
          ghost var done, group := doneNodes, tree;
          s := FlushTree();
          if s == Refusal {
            TreeNodeDead(t, grouped, done, group, l);
            return;
          }
        }
      } else if tree == [] {
        assert fed == [l];
        TreeOrphanDead(t, grouped, l);
        return Refusal;
      }
      LinesCostSnoc(tree, l);
      var ok := held.Take(Cost(l.text));
      tree := tree + [l];
      if !ok {
        return Overflow;
      }
      return Good;
    }

    /** Read the top-level node being held. */
    method FlushTree() returns (s: Status)
      requires kind.Tree? && tree != [] && AtTop(kind.tree, tree)
      requires ForestOf(kind.tree, doneNodes, 0).Ok?
      requires emitted == NodesJson(ForestOf(kind.tree, doneNodes, 0).value.0)
      modifies this`tree, this`emitted, this`doneNodes, held
      ensures tree == [] && old(emitted) <= emitted && doneNodes == old(doneNodes) + old(tree)
      ensures held.bytes == old(held.bytes) - LinesCost(old(tree)) && s != Overflow
      ensures
        if s == Good then
          && ForestOf(kind.tree, doneNodes, 0).Ok?
          && emitted == NodesJson(ForestOf(kind.tree, doneNodes, 0).value.0)
        else ForestOf(kind.tree, old(tree), 0).Refused?
    {
      var group := tree;
      tree := [];
      held.Give(LinesCost(group));
      AppendAtTop(kind.tree, doneNodes, group);
      ghost var done := doneNodes;
      doneNodes := doneNodes + group;
      var nodes := ForestOf(kind.tree, group, 0);
      if nodes.Refused? {
        return Refusal;
      }
      NodesJsonConcat(ForestOf(kind.tree, done, 0).value.0, nodes.value.0);
      emitted := emitted + NodesJson(nodes.value.0);
      return Good;
    }

    /** What the end of the lines does: the list is complete, and its values are the ones handed over,
        or it is not and is refused. */
    twostate predicate Ended(s: Status)
      reads this, held
    {
      && fed == old(fed) && old(emitted) <= emitted && s != Overflow
      && held.bytes <= old(held.bytes)
      && (s == Good ==>
            && Complete(kind, grouped, fed) && emitted == ListResult(kind, grouped, fed).value.values
            && held.bytes == old(held.bytes) - old(Held()))
      && (s == Refusal ==> !Complete(kind, grouped, fed))
    }

    /** Hand over what was being held (finish). What a parser does not use is empty, so only its own
        record is there to be flushed. */
    method Finish() returns (s: Status)
      requires Valid() && Agreed(kind) && Ascending(fed)
      modifies this, held
      ensures Ended(s)
    {
      NothingCosts();
      match kind
      case PerLine(read) =>
        WholeIsComplete(kind, grouped, fed);
        s := Good;
      case Table(t) =>
        WholeIsComplete(kind, grouped, fed);
        s := Good;
      case Csv(c) =>
        s := FinishCsv();
      case Box(b) =>
        s := FinishBox();
      case Blocks(start, reader) =>
        s := FinishBlocks();
      case Tree(t) =>
        s := FinishTree();
    }

    method FinishCsv() returns (s: Status)
      requires Valid() && kind.Csv? && Agreed(kind)
      modifies this, held
      ensures Ended(s)
    {
      NothingCosts();
      var c := kind.csv;
      WholeIsComplete(kind, grouped, fed);
      if csvPending == [] {
        return Good;
      }
      hide CsvRun, Group, CsvRecord, Complete;
      CsvSnoc(c, CsvStreamStart(c), ClosedRecords(c, grouped, fed), Record(csvPending, csvPendNum));
      s := FlushCsv();
    }

    method FinishBox() returns (s: Status)
      requires Valid() && kind.Box?
      modifies this, held
      ensures Ended(s)
    {
      hide Cut, AllRows, BodyRows, BoxValues, SettledRows, OpenRow, Complete, LinesCost;
      NothingCosts();
      var b := kind.box;
      WholeIsComplete(kind, grouped, fed);
      if boxColumns.None? {
        BoxWithoutRule(b, fed);
        if boxRow == [] {
          return Good;
        }
        s := CloseBoxHeader();
        if s == Refusal {
          return;
        }
      } else {
        BoxFinish(b, fed);
        if boxRow != [] {
          s := FlushBoxRow(SettledRows(b, Cut(b, fed)));
          if s == Refusal {
            return;
          }
        }
      }
      // A header over two lines and rows with no rule under a header are the same text here.
      return if !boxBody && |boxHeader| > 1 then Refusal else Good;
    }

    method FinishBlocks() returns (s: Status)
      requires Valid() && kind.Blocks? && Ascending(fed)
      modifies this, held
      ensures Ended(s)
    {
      NothingCosts();
      BlocksComplete(kind.start, kind.block, grouped, fed);
      if block == [] {
        return Good;
      }
      ghost var all := AndOpen(doneBlocks, block);
      s := FlushBlock();
      if s == Refusal {
        assert all[|all| - 1] == old(block);
      }
    }

    method FinishTree() returns (s: Status)
      requires Valid() && kind.Tree?
      modifies this, held
      ensures Ended(s)
    {
      NothingCosts();
      WholeIsComplete(kind, grouped, fed);
      if tree == [] {
        return Good;
      }
      AppendAtTop(kind.tree, doneNodes, tree);
      s := FlushTree();
    }
  }
}
