/**
 What a definition makes of a whole list of lines, parser by parser: the values, and the numbers of
 the lines that were read to make them. Expressions, cell cutting and field conversion are functions
 of the definition, since both readers call the same ones.
 */
module Readings {
  import opened Lines
  import opened Json
  import opened Stages
  import opened Forest
  import Columns

  /** One value read from a block of lines, and the numbers of the lines it was read from. */
  datatype Reading = Reading(value: Json, read: set<nat>)

  type BlockReader = seq<Line> -> Outcome<Reading>

  /** A resolved table column: its name and the display column its header starts at. */
  datatype Column = Column(name: string, start: nat)

  /** A table read line by line. `columns` are the ones of a table without a header line. */
  datatype TableKind = TableKind(
    columns: Option<seq<Column>>,
    resolve: Line -> Outcome<seq<Column>>,
    sameHeader: (string, string) -> bool,
    row: (seq<Column>, Line) -> Outcome<Json>)

  /** A csv. `columns` is None where the definition writes no list, which is not the empty list. */
  datatype CsvKind = CsvKind(
    delim: char,
    none: bool,
    columns: Option<seq<string>>,
    heading: Columns.Heading,
    expected: seq<string>,
    cut: string -> Outcome<seq<seq<string>>>,
    convert: Columns.Convert)

  /** A drawn table. `continues` says a line's first cell is empty or it has no cells. */
  datatype BoxKind = BoxKind(
    isRule: string -> bool,
    hasCell: string -> bool,
    continues: string -> bool,
    join: seq<Line> -> seq<Option<string>>,
    columns: seq<Line> -> Outcome<seq<Column>>,
    row: (seq<Column>, seq<Option<string>>, nat) -> Outcome<Json>)

  /** The parsers whose result is a list (Parse.YieldsArray): a pattern or a key/value entry per
      line, a table, a csv, a drawn table, records, a tree. */
  datatype ListKind =
    | PerLine(read: Line -> Outcome<Json>)
    | Table(table: TableKind)
    | Csv(csv: CsvKind)
    | Box(box: BoxKind)
    | Blocks(start: Regex, block: BlockReader)
    | Tree(tree: TreeKind)

  // ----- one value per line -----

  function PerLineRun(read: Line -> Outcome<Json>, lines: seq<Line>): Outcome<seq<Json>> {
    if lines == [] then Ok([])
    else
      var before := PerLineRun(read, lines[..|lines| - 1]);
      var v := read(lines[|lines| - 1]);
      if before.Refused? || v.Refused? then Refused else Ok(before.value + [v.value])
  }

  // ----- tables -----

  datatype TableState = TableState(columns: Option<seq<Column>>, header: string, values: seq<Json>)

  function TableStart(t: TableKind): TableState {
    TableState(t.columns, "", [])
  }

  function TableStep(t: TableKind, s: TableState, l: Line): Outcome<TableState> {
    if s.columns.None? || (t.columns.None? && t.sameHeader(l.text, s.header)) then
      var columns := t.resolve(l);
      if columns.Refused? then Refused
      else Ok(TableState(Some(columns.value), if s.columns.None? then l.text else s.header, s.values))
    else
      var v := t.row(s.columns.value, l);
      if v.Refused? then Refused else Ok(s.(values := s.values + [v.value]))
  }

  function TableRun(t: TableKind, lines: seq<Line>): Outcome<TableState> {
    if lines == [] then Ok(TableStart(t))
    else
      var before := TableRun(t, lines[..|lines| - 1]);
      if before.Refused? then Refused else TableStep(t, before.value, lines[|lines| - 1])
  }

  // ----- csv -----

  datatype CsvState = CsvState(columns: Option<seq<string>>, checked: bool, values: seq<Json>)

  /** Where the whole-document reader starts (parseCSV). */
  function CsvStart(c: CsvKind): CsvState {
    CsvState(if c.none then c.columns else None, false, [])
  }

  /** Where the stream starts (startCSV): an empty list of columns is no list there. */
  function CsvStreamStart(c: CsvKind): CsvState {
    CsvState(if c.none && c.columns.Some? && c.columns.value != [] then c.columns else None, false, [])
  }

  /** The columns the first row of a csv gives it: named by it where it is the header, and numbered where none is. */
  function CsvColumns(c: CsvKind, row: seq<string>): seq<string> {
    if c.none then Columns.ByNumber(|row|) else Columns.NamesOf(c.heading, c.columns, row)
  }

  /** One row. A csv is data, so a row that holds the header's values is a row: RepeatedHeader is false for every
      csv, and the branch that would leave such a row out is never taken. */
  function CsvRow(c: CsvKind, s: CsvState, row: seq<string>): Outcome<CsvState> {
    var isHeader := s.columns.None? && !c.none;
    var columns := if s.columns.Some? then s.columns.value else CsvColumns(c, row);
    if !s.checked && !Columns.AllKnown(c.expected, columns) then Refused
    else if isHeader then Ok(CsvState(Some(columns), true, s.values))
    else
      var v := Columns.RowObject(c.convert, columns, row);
      if v.Refused? then Refused else Ok(CsvState(Some(columns), true, s.values + [v.value]))
  }

  function CsvRows(c: CsvKind, s: CsvState, rows: seq<seq<string>>): Outcome<CsvState> {
    if rows == [] then Ok(s)
    else
      var before := CsvRows(c, s, rows[..|rows| - 1]);
      if before.Refused? then Refused else CsvRow(c, before.value, rows[|rows| - 1])
  }

  function CsvRecord(c: CsvKind, s: CsvState, rec: Line): Outcome<CsvState> {
    var rows := c.cut(rec.text);
    if rows.Refused? then Refused else CsvRows(c, s, rows.value)
  }

  function CsvRun(c: CsvKind, start: CsvState, records: seq<Line>): Outcome<CsvState> {
    if records == [] then Ok(start)
    else
      var before := CsvRun(c, start, records[..|records| - 1]);
      if before.Refused? then Refused else CsvRecord(c, before.value, records[|records| - 1])
  }

  // ----- drawn tables -----

  /** The blocks rules close, and the lines of the block still open (boxBlocks). */
  datatype Cutting = Cutting(closed: seq<seq<Line>>, open: seq<Line>)

  function Cut(b: BoxKind, lines: seq<Line>): (c: Cutting)
    ensures forall i :: 0 <= i < |c.closed| ==> c.closed[i] != []
  {
    if lines == [] then Cutting([], [])
    else
      var before := Cut(b, lines[..|lines| - 1]);
      var l := lines[|lines| - 1];
      if !b.isRule(l.text) then before.(open := before.open + [l])
      else if before.open == [] then before
      else Cutting(before.closed + [before.open], [])
  }

  function BoxBlocks(b: BoxKind, lines: seq<Line>): seq<seq<Line>> {
    var c := Cut(b, lines);
    AndOpen(c.closed, c.open)
  }

  /** The rows of a block of the body (boxBodyRows). */
  function BodyRows(b: BoxKind, block: seq<Line>): (rows: seq<seq<Line>>)
    ensures (rows == []) == (block == [])
    ensures forall i :: 0 <= i < |rows| ==> rows[i] != []
  {
    if block == [] then []
    else
      var before := BodyRows(b, block[..|block| - 1]);
      var l := block[|block| - 1];
      if before != [] && b.continues(l.text) then
        before[..|before| - 1] + [before[|before| - 1] + [l]]
      else before + [[l]]
  }

  /** The rows of several blocks, in order. */
  function AllRows(b: BoxKind, blocks: seq<seq<Line>>): (rows: seq<seq<Line>>)
    ensures forall i :: 0 <= i < |rows| ==> rows[i] != []
  {
    if blocks == [] then []
    else AllRows(b, blocks[..|blocks| - 1]) + BodyRows(b, blocks[|blocks| - 1])
  }

  /** The objects of rows, leaving out the header of a second table drawn after the first. */
  function BoxValues(b: BoxKind, header: seq<Line>, columns: seq<Column>, rows: seq<seq<Line>>): Outcome<seq<Json>>
    requires forall i :: 0 <= i < |rows| ==> rows[i] != []
  {
    if rows == [] then Ok([])
    else
      var before := BoxValues(b, header, columns, rows[..|rows| - 1]);
      var row := rows[|rows| - 1];
      var cells := b.join(row);
      if before.Refused? then Refused
      else if cells == b.join(header) then before
      else
        var v := b.row(columns, cells, row[0].num);
        if v.Refused? then Refused else Ok(before.value + [v.value])
  }

  /** A line of a drawn table: a rule, or one with a cell in it (boxLine). */
  predicate BoxLine(b: BoxKind, l: Line) {
    b.isRule(l.text) || b.hasCell(l.text)
  }

  /** What cutting has come to once no more lines follow (parseBox). */
  function BoxTable(b: BoxKind, blocks: seq<seq<Line>>): Outcome<seq<Json>> {
    if blocks == [] then Ok([])
    else if |blocks| == 1 && |blocks[0]| > 1 then Refused
    else
      var columns := b.columns(blocks[0]);
      if columns.Refused? then Refused else BoxValues(b, blocks[0], columns.value, AllRows(b, blocks[1..]))
  }

  function BoxResult(b: BoxKind, lines: seq<Line>): Outcome<seq<Json>> {
    if exists i :: 0 <= i < |lines| && !BoxLine(b, lines[i]) then Refused else BoxTable(b, BoxBlocks(b, lines))
  }

  // ----- records -----

  /** A line matching start opens a record, and the lines up to the next one belong to it. */
  function BlocksOf(start: Regex, lines: seq<Line>): (r: Outcome<seq<seq<Line>>>)
    ensures r.Ok? ==> forall i :: 0 <= i < |r.value| ==> r.value[i] != []
    ensures r.Ok? && r.value == [] ==> lines == []
  {
    if lines == [] then Ok([])
    else
      var before := BlocksOf(start, lines[..|lines| - 1]);
      var l := lines[|lines| - 1];
      if before.Refused? then Refused
      else if start(l.text) then Ok(before.value + [[l]])
      else if before.value == [] then Refused
      else
        var last := before.value[|before.value| - 1];
        Ok(before.value[..|before.value| - 1] + [last + [l]])
  }

  /** Finished runs of lines, and the one still open when there is one. */
  function AndOpen(done: seq<seq<Line>>, open: seq<Line>): seq<seq<Line>> {
    if open == [] then done else done + [open]
  }

  /** The values of a list, and the numbers of the lines read to make them. */
  datatype ListOut = ListOut(values: seq<Json>, read: set<nat>)

  /** The lines of a block its reader read. */
  function ReadOf(block: seq<Line>, reading: Reading): set<nat> {
    Numbers(block) * reading.read
  }

  function BlocksRun(reader: BlockReader, blocks: seq<seq<Line>>): Outcome<ListOut> {
    if blocks == [] then Ok(ListOut([], {}))
    else
      var before := BlocksRun(reader, blocks[..|blocks| - 1]);
      var block := blocks[|blocks| - 1];
      var r := reader(block);
      if before.Refused? || r.Refused? then Refused
      else Ok(ListOut(before.value.values + [r.value.value], before.value.read + ReadOf(block, r.value)))
  }

  // ----- any list -----

  /** Values read from every line there was. */
  function Whole(values: Outcome<seq<Json>>, lines: seq<Line>): Outcome<ListOut> {
    if values.Refused? then Refused else Ok(ListOut(values.value, Numbers(lines)))
  }

  /** What a parser of a list makes of its lines (run.parse). `grouped` says the lines of a csv are
      records already, which they are at the top level and are not in a part. */
  function ListResult(k: ListKind, grouped: bool, lines: seq<Line>): Outcome<ListOut> {
    match k
    case PerLine(read) => Whole(PerLineRun(read, lines), lines)
    case Table(t) =>
      var s := TableRun(t, lines);
      if s.Refused? then Refused else Whole(Ok(s.value.values), lines)
    case Csv(c) =>
      var s := CsvRun(c, CsvStart(c), if grouped then lines else Records(c.delim, lines));
      if s.Refused? then Refused else Whole(Ok(s.value.values), lines)
    case Box(b) => Whole(BoxResult(b, lines), lines)
    case Blocks(start, block) =>
      var blocks := BlocksOf(start, lines);
      if blocks.Refused? then Refused else BlocksRun(block, blocks.value)
    case Tree(t) =>
      var f := ForestOf(t, lines, 0);
      if f.Refused? then Refused else Whole(Ok(NodesJson(f.value.0)), lines)
  }

  /** Every line that says something is among the ones read. */
  predicate Covers(read: set<nat>, lines: seq<Line>) {
    forall i :: 0 <= i < |lines| ==> Blank(lines[i].text) || lines[i].num in read
  }

  /** A list that is read, and with it every line that says something. For every parser but records
      the second follows from the first. */
  ghost predicate Complete(k: ListKind, grouped: bool, lines: seq<Line>) {
    ListResult(k, grouped, lines).Ok? && Covers(ListResult(k, grouped, lines).value.read, lines)
  }

  // ----- composites -----

  /** How a part is read: a list, or one value. */
  datatype PartBody = ListPart(kind: ListKind) | SinglePart(block: BlockReader)

  datatype Part = Part(name: string, sel: Select, ignore: seq<Regex>, body: PartBody)

  /** The lines of a part: its region, less the ones it leaves to a sibling. */
  function PartLines(p: Part, lines: seq<Line>): seq<Line> {
    Keep(p.ignore, false, Region(p.sel, lines))
  }

  /** The value of a part and the lines it read. */
  function PartResult(p: Part, lines: seq<Line>): Outcome<Reading> {
    var own := PartLines(p, lines);
    match p.body
    case ListPart(k) =>
      var r := ListResult(k, false, own);
      if r.Refused? then Refused else Ok(Reading(Arr(r.value.values), Numbers(own) * r.value.read))
    case SinglePart(block) =>
      var r := block(own);
      if r.Refused? then Refused else Ok(Reading(r.value.value, ReadOf(own, r.value)))
  }

  /** The line that opens a selection, when the expression states all of it. */
  function HeadingRead(sel: Select, lines: seq<Line>): set<nat> {
    var s := SpanOf(sel, lines);
    if s.heading.Some? && s.heading.value < |lines| && sel.heading(lines[s.heading.value].text)
    then {lines[s.heading.value].num} else {}
  }

  /** The line that closes a selection, when the expression states all of it. */
  function EndRead(sel: Select, lines: seq<Line>): set<nat> {
    var s := SpanOf(sel, lines);
    if s.end.Some? && s.end.value < |lines| && sel.end(lines[s.end.value].text)
    then {lines[s.end.value].num} else {}
  }

  /** The members of the object a composite reads, and the lines its parts read (parseComposite). */
  function CompositeRun(parts: seq<Part>, lines: seq<Line>): Outcome<(seq<Member>, set<nat>)> {
    if parts == [] then Ok(([], {}))
    else
      var before := CompositeRun(parts[..|parts| - 1], lines);
      var p := parts[|parts| - 1];
      var r := PartResult(p, lines);
      if before.Refused? || r.Refused? then Refused
      else Ok((SetKey(before.value.0, p.name, r.value.value),
               before.value.1 + r.value.read + HeadingRead(p.sel, lines)))
  }

  // ----- a definition -----

  datatype Body = List(kind: ListKind) | Composite(parts: seq<Part>)

  datatype Definition = Definition(
    fold: Option<Regex>, ignore: seq<Regex>, skipBlank: bool, sel: Select, body: Body)

  function BodyResult(body: Body, lines: seq<Line>): Outcome<Reading> {
    match body
    case List(k) =>
      var r := ListResult(k, true, lines);
      if r.Refused? then Refused else Ok(Reading(Arr(r.value.values), r.value.read))
    case Composite(parts) =>
      var r := CompositeRun(parts, lines);
      if r.Refused? then Refused else Ok(Reading(Obj(r.value.0), r.value.1))
  }

  /** The records of an input: a csv's are made before anything else sees the lines. */
  function Grouped(d: Definition, lines: seq<Line>): seq<Line> {
    if d.body.List? && d.body.kind.Csv? then Records(d.body.kind.csv.delim, lines) else lines
  }

  /** The value of prepared lines, when every one that says something was read. */
  function Accounted(d: Definition, kept: seq<Line>): Outcome<Json> {
    var r := BodyResult(d.body, Region(d.sel, kept));
    if r.Refused? then Refused
    else if Covers(r.value.read + HeadingRead(d.sel, kept) + EndRead(d.sel, kept), kept) then Ok(r.value.value)
    else Refused
  }

  /** What the whole-document reader gives for the lines of an input (ParseAccounted). */
  function Parsed(d: Definition, lines: seq<Line>): Outcome<Json> {
    var folded := Folded(d.fold, Grouped(d, lines));
    if folded.Refused? then Refused
    else Accounted(d, Prepared(d.ignore, d.skipBlank, folded.value))
  }
}
