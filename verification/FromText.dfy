/**
 What the cutters and expressions of a definition give a parser (pkg/engine: resolveHeader, rowCells, parseCSV,
 firstMatch): rows under columns with names of their own, with a cell wherever the contract counts on one, and matches
 their expressions allow. So what a contract says of them it says of the text itself.
 */
module FromText {
  import opened Lines
  import opened Json
  import opened Patterns
  import opened Conversions
  import opened Contracts
  import opened Typing
  import opened Generation
  import Cells
  import Columns
  import Readings

  // ----- the columns of a table -----

  /** How the words of a header become names: normalised, then renamed, behind the leading label if there is one. */
  datatype HeaderRule = HeaderRule(lead: string, normalize: string -> string, rename: map<string, string>)

  /** definition.MaxColumns */
  const MAX_COLUMNS := 256

  /** A word of a header, and where it starts. */
  datatype Token = Token(text: string, start: nat)

  /** The words of a header behind the leading label, if there is one. */
  function Tokens(h: HeaderRule, words: seq<Token>): seq<Token> {
    if h.lead != "" then [Token(h.lead, 0)] + words else words
  }

  /** An unlabelled column of an aligned table is cut up to the first word, so it has no width where that stands at the
      left edge. */
  predicate LabelHasNoWidth(h: HeaderRule, aligned: bool, words: seq<Token>) {
    h.lead != "" && aligned && words != [] && words[0].start == 0
  }

  function NameOf(h: HeaderRule, tokens: seq<Token>, i: nat): string
    requires i < |tokens|
  {
    var name := if i == 0 && h.lead != "" then h.lead else h.normalize(tokens[i].text);
    if name in h.rename then h.rename[name] else name
  }

  ghost predicate NamedBy(h: HeaderRule, tokens: seq<Token>, names: seq<string>) {
    |names| == |tokens| && forall i :: 0 <= i < |tokens| ==> names[i] == NameOf(h, tokens, i)
  }

  /** A header is refused when it is empty, has too many words or leaves the label no width, or a column has no name or
      one that another has; any other names its columns (resolveHeader). */
  method NameColumns(h: HeaderRule, aligned: bool, words: seq<Token>) returns (columns: Outcome<seq<Readings.Column>>)
    ensures
      var tokens := Tokens(h, words);
      var names := seq(|tokens|, i requires 0 <= i < |tokens| => NameOf(h, tokens, i));
      if LabelHasNoWidth(h, aligned, words) || !(0 < |tokens| <= MAX_COLUMNS) || "" in names || !Columns.Distinct(names)
      then columns.Refused?
      else
        && columns.Ok? && |columns.value| == |tokens|
        && forall i :: 0 <= i < |tokens| ==> columns.value[i] == Readings.Column(names[i], tokens[i].start)
  {
    var tokens := words;
    if h.lead != "" {
      tokens := [Token(h.lead, 0)] + tokens;
      if aligned && |tokens| > 1 && tokens[1].start == 0 {
        return Refused;
      }
    }
    if |tokens| > MAX_COLUMNS {
      return Refused;
    }
    if |tokens| == 0 {
      return Refused;
    }
    ghost var names := seq(|tokens|, i requires 0 <= i < |tokens| => NameOf(h, tokens, i));
    var out: seq<Readings.Column>, seen: set<string> := [], {};
    for i := 0 to |tokens|
      invariant |out| == i && forall k :: 0 <= k < i ==> out[k] == Readings.Column(names[k], tokens[k].start)
      invariant Columns.Distinct(names[..i]) && "" !in names[..i]
      invariant forall name :: name in seen <==> name in names[..i]
    {
      var name := NameOf(h, tokens, i);
      assert name == names[i] && names[..i + 1] == names[..i] + [name];
      if name == "" {
        return Refused;
      }
      if name in seen {
        ghost var k :| 0 <= k < i && names[..i][k] == name;
        assert names[k] == names[i];
        return Refused;
      }
      seen, out := seen + {name}, out + [Readings.Column(name, tokens[i].start)];
    }
    assert names[..|tokens|] == names;
    return Ok(out);
  }

  /** The columns of a table or a csv: the ones its definition states, or any the input names. */
  ghost predicate ColumnsOf(f: Format, columns: seq<string>)
    requires f.Table? || f.Csv?
  {
    Columns.Distinct(columns) && (f.columns != [] ==> columns == f.columns)
  }

  // ----- the leading label -----

  /** The leading label is not renamed, or to itself. */
  predicate LabelStays(h: HeaderRule) {
    h.lead in h.rename ==> h.rename[h.lead] == h.lead
  }

  /** Another name of the header is changed into the label. */
  predicate OtherBecomesLabel(h: HeaderRule) {
    exists name :: name in h.rename && h.rename[name] == h.lead && name != h.lead
  }

  /** Where a header names the columns, the rows have the label their contract requires exactly when it is not renamed;
      a renamed one is made up for only where another name is changed into it. */
  lemma {:induction false} HeaderKeepsLabel(f: Format, h: HeaderRule, tokens: seq<Token>, names: seq<string>, rows: seq<Row>)
    requires LabelRequired(f) && h.lead == f.lead && tokens != [] && NamedBy(h, tokens, names)
    requires rows != [] && forall i :: 0 <= i < |rows| ==> rows[i].columns == names && RowCut(f, rows[i])
    ensures LabelStays(h) ==> Labelled(f, Rows(rows))
    ensures Labelled(f, Rows(rows)) ==> LabelStays(h) || OtherBecomesLabel(h)
  {
    if LabelStays(h) {
      forall i | 0 <= i < |rows| ensures LabelStands(f, rows[i]) {
        assert rows[i].columns[0] == NameOf(h, tokens, 0) == f.lead;
        assert IsTheLabel(f, rows[i], 0);
      }
    } else if !OtherBecomesLabel(h) {
      forall k | 0 <= k < |names| ensures !IsTheLabel(f, rows[0], k) {
        assert rows[0].columns[k] == NameOf(h, tokens, k);
      }
      assert !LabelStands(f, rows[0]);
    }
  }

  function Same(text: string): string {
    text
  }

  const HOSTS: Format := Table(Whitespace, [], "host", 0, [])

  const RENAMING: HeaderRule := HeaderRule("host", Same, map["host" := "name"])

  /** The label, and the one word of the header. */
  const HOST_HEADER: seq<Token> := [Token("host", 0), Token("load", 6)]

  const HOST_ROW: Row := Row(["name", "load"], [Some("a"), Some("b")])

  /** A table whose unlabelled first column is called host and renamed: a row of it is read, and its object has no host
      for the contract that requires one. */
  lemma {:induction false} RenamedLabelIsMissed()
    ensures HOST_HEADER == Tokens(RENAMING, [Token("load", 6)]) && NamedBy(RENAMING, HOST_HEADER, HOST_ROW.columns) && !LabelStays(RENAMING)
    ensures MakesSense(HOSTS) && CutFor(HOSTS, Rows([HOST_ROW])) && Made(HOSTS, Rows([HOST_ROW])).Ok?
    ensures !Fits(Generated(HOSTS), Generated(HOSTS).top, Made(HOSTS, Rows([HOST_ROW])).value)
  {
    HostRowIsMade();
    HostIsRequired();
    assert !OtherBecomesLabel(RENAMING);
    HeaderKeepsLabel(HOSTS, RENAMING, HOST_HEADER, HOST_ROW.columns, [HOST_ROW]);
    EveryDocumentFits(HOSTS, Rows([HOST_ROW])) by {
      hide Fits, Generated;
    }
    hide Fits, Generated;
  }

  lemma {:induction false} HostIsRequired()
    ensures LabelRequired(HOSTS) && MakesSense(HOSTS) && RowCut(HOSTS, HOST_ROW) && CutFor(HOSTS, Rows([HOST_ROW]))
  {
  }

  lemma {:induction false} HostRowIsMade()
    ensures Made(HOSTS, Rows([HOST_ROW])).Ok?
  {
    var entries := RowEntries(HOST_ROW);
    assert entries == [Entry("name", Some("a"), {}), Entry("load", Some("b"), {})];
    assert entries[..1][..0] == [] && SetEntries([], []) == Ok([]);
    assert SetEntries([], entries[..1]).Ok?;
    assert SetEntries([], entries).Ok?;
    assert RowsMade([], []) == Ok([]) && [HOST_ROW][..0] == [];
    assert RowsMade([], [HOST_ROW]).Ok?;
  }

  // ----- columns that have names of their own -----

  /** The names a csv's header line comes to are columns, and so are its numbers. */
  lemma {:induction false} CsvHeaderNamesColumns(f: Format, h: Columns.Heading, header: seq<string>)
    requires f.Csv? && f.columns == []
    ensures ColumnsOf(f, Columns.Named(h, header)) && ColumnsOf(f, Columns.ByNumber(|header|))
  {
    hide Columns.Given, Columns.Numbered;
    var asked := Columns.AllAsked(h, header);
    Columns.NamesAreGiven(asked);
    Columns.GivenAreDistinct(asked, Columns.Named(h, header));
    var names := Columns.ByNumber(|header|);
    forall i, j | 0 <= i < j < |header| ensures names[i] != names[j] {
      Columns.NumberedApart("column", i + 1, j + 1);
    }
  }

  // ----- rows -----

  /** The rows of lines cut at white space or a delimiter, or a refusal. */
  function RowsOf(c: Cells.Cutter, columns: seq<string>, lines: seq<string>): Outcome<seq<Row>> {
    if lines == [] then Ok([])
    else
      var n := |lines| - 1;
      var before :- RowsOf(c, columns, lines[..n]);
      var cells :- Cells.RowCells(c, |columns|, lines[n]);
      Ok(before + [Row(columns, cells)])
  }

  method CutRows(c: Cells.Cutter, columns: seq<string>, lines: seq<string>) returns (rows: Outcome<seq<Row>>)
    ensures rows == RowsOf(c, columns, lines)
  {
    hide Cells.RowCells;
    var out: seq<Row> := [];
    for i := 0 to |lines|
      invariant RowsOf(c, columns, lines[..i]) == Ok(out)
    {
      assert lines[..i + 1][..i] == lines[..i];
      var cells := Cells.CutRow(c, |columns|, lines[i]);
      if cells.Refused? {
        RowsFail(c, columns, lines, i + 1);
        return Refused;
      }
      out := out + [Row(columns, cells.value)];
    }
    assert lines[..|lines|] == lines;
    return Ok(out);
  }

  lemma {:induction false} RowsFail(c: Cells.Cutter, columns: seq<string>, lines: seq<string>, n: nat)
    requires n <= |lines| && RowsOf(c, columns, lines[..n]).Refused?
    ensures RowsOf(c, columns, lines).Refused?
  {
    hide Cells.RowCells;
    if n == |lines| {
      assert lines[..n] == lines;
    } else {
      var m := |lines| - 1;
      assert lines[..m][..n] == lines[..n];
      RowsFail(c, columns, lines[..m], n);
    }
  }

  /** A row has a cell for every column the contract says is never empty. */
  lemma {:induction false} RowIsCut(f: Format, c: Cells.Cutter, columns: seq<string>, text: string)
    requires f.Table? && (f.split.Whitespace? || f.split.Delimiter?) && c.min == f.minFields && ColumnsOf(f, columns)
    requires Cells.RowCells(c, |columns|, text).Ok?
    ensures RowCut(f, Row(columns, Cells.RowCells(c, |columns|, text).value))
  {
    hide Cells.Parts;
  }

  lemma {:induction false} RowsAreCut(f: Format, c: Cells.Cutter, columns: seq<string>, lines: seq<string>)
    requires f.Table? && (f.split.Whitespace? || f.split.Delimiter?) && c.min == f.minFields && ColumnsOf(f, columns)
    requires RowsOf(c, columns, lines).Ok?
    ensures CutFor(f, Rows(RowsOf(c, columns, lines).value))
    decreases |lines|
  {
    hide Cells.RowCells, RowCut, ColumnsOf;
    if lines != [] {
      RowsAreCut(f, c, columns, lines[..|lines| - 1]);
      RowIsCut(f, c, columns, lines[|lines| - 1]);
    }
  }

  /** A cut of an aligned or a drawn table may leave any cell empty, and so may a csv but for the first: a csv record
      has a first field. */
  lemma {:induction false} OtherRowsAreCut(f: Format, columns: seq<string>, cells: seq<Option<string>>)
    requires (f.Table? && (f.split.Aligned? || f.split.Box?)) || (f.Csv? && cells != [] && cells[0].Some?)
    requires ColumnsOf(f, columns)
    ensures RowCut(f, Row(columns, cells))
  {
  }

  /** The document of a table's lines, cut at white space or a delimiter, fits the table's contract exactly when no
      item in it is null for want of its group and no row is without its leading label. */
  lemma {:induction false} TableTextFits(f: Format, c: Cells.Cutter, columns: seq<string>, lines: seq<string>)
    requires MakesSense(f) && f.Table? && (f.split.Whitespace? || f.split.Delimiter?) && c.min == f.minFields
    requires ColumnsOf(f, columns) && RowsOf(c, columns, lines).Ok?
    requires Made(f, Rows(RowsOf(c, columns, lines).value)).Ok?
    ensures
      var m := Rows(RowsOf(c, columns, lines).value);
      Fits(Generated(f), Generated(f).top, Made(f, m).value) <==> NothingWanting(f, m)
  {
    hide Fits, MakesSense, Made, Generated, NothingWanting, CutFor, RowsOf, ColumnsOf;
    RowsAreCut(f, c, columns, lines);
    EveryDocumentFits(f, Rows(RowsOf(c, columns, lines).value));
  }

  // ----- matches -----

  /** The first alternative that matches, where it matches and its groups (firstMatch). */
  function FirstHit(alts: seq<Alternative>, text: string, i: nat): Option<Hit>
    requires i <= |alts|
    requires forall k :: 0 <= k < |alts| ==> FindsInside(alts[k].re, text)
    decreases |alts| - i
  {
    if i == |alts| then None
    else
      assert FindsInside(alts[i].re, text);
      var m := alts[i].re.find(text);
      if m.Some? then Some(Hit(i, text[m.value.from..m.value.to], m.value.events)) else FirstHit(alts, text, i + 1)
  }

  /** A match lies inside the text. */
  predicate FindsInside(re: Regexp, text: string) {
    var m := re.find(text);
    m.Some? ==> m.value.from <= m.value.to <= |text|
  }

  lemma {:induction false} HitIsCut(alts: seq<Alternative>, text: string, i: nat)
    requires AlternativesMakeSense(alts) && i <= |alts|
    ensures forall k :: 0 <= k < |alts| ==> FindsInside(alts[k].re, text)
    ensures FirstHit(alts, text, i).Some? ==> HitCut(alts, FirstHit(alts, text, i).value)
    decreases |alts| - i
  {
    hide Derives, Faithful, Captures;
    forall k | 0 <= k < |alts| ensures FindsInside(alts[k].re, text) {
      assert WellFormedAlternative(alts[k]);
      FaithfulOn(alts[k].re, text);
    }
    if i < |alts| {
      assert WellFormedAlternative(alts[i]);
      FaithfulOn(alts[i].re, text);
      HitIsCut(alts, text, i + 1);
    }
  }

  /** The object of a whole input, or of a line, fits the contract exactly when no item in it is null for want of its
      group. */
  lemma {:induction false} MatchedTextFits(alts: seq<Alternative>, rules: seq<Rule>, text: string)
    requires MakesSense(WholeInput(alts, rules))
    ensures forall k :: 0 <= k < |alts| ==> FindsInside(alts[k].re, text)
    ensures
      var hit, f := FirstHit(alts, text, 0), WholeInput(alts, rules);
      hit.Some? && Made(f, OneHit(hit.value)).Ok? ==>
        (Fits(Generated(f), Generated(f).top, Made(f, OneHit(hit.value)).value) <==> HitTaken(alts, rules, hit.value))
  {
    hide Fits, Made, Generated, AlternativesMakeSense, RulesMakeSense, HitTaken, HitCut;
    HitIsCut(alts, text, 0);
    var hit, f := FirstHit(alts, text, 0), WholeInput(alts, rules);
    if hit.Some? && Made(f, OneHit(hit.value)).Ok? {
      EveryDocumentFits(f, OneHit(hit.value));
    }
  }
}
