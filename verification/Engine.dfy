/**
 The two readers of an input side by side (Parse and Stream in pkg/engine): one is given the whole text, the
 other reads it as it comes, and what the second hands over is what the first returns.
 */
module Engine {
  import opened Lines
  import opened Json
  import opened Stages
  import opened Readings
  import opened ReadingFacts
  import opened ReaderFacts
  import opened Reader
  import opened CompositeFacts
  import opened CompositeReader
  import opened StreamFacts
  import opened Holding
  import opened Limits
  import opened Streaming
  import opened Pipeline
  import opened Batch
  import opened RecordIO
  import Columns

  /** What a part comes to in the object of a composite, from the values a stream handed over for it. */
  predicate PartAgrees(p: Part, values: seq<Json>, value: Json) {
    match p.body
    case ListPart(_) => value == Arr(values)
    case SinglePart(_) => values == [value]
  }

  /** A stream's output is the whole document's value, rearranged: the values of a list in order, or for each
      part of a composite its list in order, or its one value once. */
  ghost predicate Agrees(body: Body, out: Output, value: Json) {
    match body
    case List(_) => out.Values? && value == Arr(out.values)
    case Composite(parts) =>
      && out.Documents? && value.Obj? && |value.members| == |parts|
      && (forall j :: 0 <= j < |parts| ==>
            && value.members[j].key == parts[j].name
            && PartAgrees(parts[j], ValuesOf(out.docs, parts[j].name), value.members[j].value))
      && (forall k :: 0 <= k < |out.docs| ==> IsAPart(parts, out.docs[k].part))
  }

  lemma {:induction false} PartValuesAgree(p: Part, lines: seq<Line>)
    requires PartResult(p, lines).Ok?
    ensures PartAgrees(p, PartValues(p, lines), PartResult(p, lines).value.value)
  {
  }

  lemma {:induction false} OutputAgrees(body: Body, lines: seq<Line>, out: Output)
    requires Readable(body) && BodyResult(body, lines).Ok? && OutputIs(body, lines, out)
    ensures Agrees(body, out, BodyResult(body, lines).value.value)
  {
    hide PartResult, PartValues, PartAgrees, ValuesOf, ListResult;
    match body
    case List(k) =>
    case Composite(parts) =>
      MembersAreParts(parts, lines);
      forall j | 0 <= j < |parts|
        ensures PartAgrees(parts[j], ValuesOf(out.docs, parts[j].name), PartResult(parts[j], lines).value.value)
      {
        PartValuesAgree(parts[j], lines);
      }
  }

  /** What a stream that has read all of its input is. */
  lemma {:induction false} StreamAgrees(d: Definition, lines: seq<Line>, out: Output)
    requires Ascending(lines) && Readable(d.body)
    requires InputOk(d, lines) && OutputIs(d.body, Selected(d, lines), out)
    ensures Parsed(d, lines).Ok? && Agrees(d.body, out, Parsed(d, lines).value)
    ensures AllKeepTheirLines(d.body, Selected(d, lines))
  {
    hide InputOk, BodyResult, Agrees, OutputIs, Readable, Selected, Parsed, Ascending, AllKeepTheirLines;
    StreamsWhatParses(d, lines);
    OutputAgrees(d.body, Selected(d, lines), out);
  }

  // ----- the whole document -----

  /** Parse, on the bytes of an input. */
  ghost function ParsedInput(d: Definition, opts: Options, input: seq<Byte>): Outcome<Json> {
    if |input| > opts.maxInput then Refused
    else
      var lines := InputLines(opts, input);
      if lines.Refused? then Refused else Parsed(d, lines.value)
  }

  method ParseInput(d: Definition, opts: Options, input: seq<Byte>) returns (v: Outcome<Json>)
    ensures v == ParsedInput(d, opts, input)
  {
    hide LinesOf, RawRecords, Parsed;
    if |input| > opts.maxInput {
      return Refused;
    }
    var lines := SplitRecords(opts, input);
    if lines.Refused? {
      return Refused;
    }
    LinesAreNumbered(opts, RawRecords(input, opts.sep));
    var acct;
    v, acct := ParseAccounted(d, lines.value);
  }

  // ----- the stream -----

  /** What the next record of an input does to the lines read so far. */
  lemma {:induction false} NextRecord(opts: Options, input: seq<Byte>, rest: seq<Byte>, done: seq<seq<Byte>>)
    requires LinesOf(opts, done + RawRecords(rest, opts.sep)) == InputLines(opts, input)
    ensures rest == [] ==> LinesOf(opts, done) == InputLines(opts, input)
    ensures rest != [] ==>
      var i := IndexByte(rest, opts.sep);
      var raw, lines := rest[..i], InputLines(opts, input);
      && (|raw| > opts.maxLine ==> lines.Refused?)
      && (lines.Ok? ==> LinesOf(opts, done + [raw]).Ok? && LinesOf(opts, done + [raw]).value <= lines.value)
      && LinesOf(opts, (done + [raw]) + RawRecords(if i < |rest| then rest[i + 1..] else [], opts.sep)) == lines
  {
    hide LinesOf, RawRecords, IndexByte, InputLines;
    NoLength(opts.sep);
    if rest == [] {
      assert done + RawRecords([], opts.sep) == done;
    } else {
      var i := IndexByte(rest, opts.sep);
      var raw := rest[..i];
      RecordStep(rest, opts.sep);
      LinesOfSnoc(opts, done, raw);
      var more := if i < |rest| then RawRecords(rest[i + 1..], opts.sep) else [];
      assert done + ([raw] + more) == (done + [raw]) + more;
      LinesOfExtend(opts, done + [raw], more);
    }
  }

  /** A stream that has failed on some lines of an input has failed on the whole of it. */
  lemma {:induction false} FailsOnTheWhole(d: Definition, opts: Options, input: seq<Byte>, physical: seq<Line>)
    requires InputLines(opts, input).Ok? && physical <= InputLines(opts, input).value
    requires InputDead(d, physical) || (physical == InputLines(opts, input).value && !InputOk(d, physical))
    ensures
      var lines := InputLines(opts, input).value;
      Parsed(d, lines).Refused? || !AllKeepTheirLines(d.body, Selected(d, lines))
  {
    hide InputOk, LinesOf, RawRecords, Ascending, Parsed, AllKeepTheirLines, Selected;
    LinesAreNumbered(opts, RawRecords(input, opts.sep));
    var all := InputLines(opts, input).value;
    assert all == physical + all[|physical|..];
    StreamsWhatParses(d, all);
  }

  /** One record as it was cut (feedRecordText). */
  method FeedRecordText(st: Streamer, opts: Options, raw: seq<Byte>, num: nat, ghost done: seq<seq<Byte>>) returns (s: Status)
    requires st.Valid() && LinesOf(opts, done) == Ok(st.physical) && FitsSoFar(st.def, st.physical, st.held.limit)
    requires num == |done| + 1 && |raw| <= opts.maxLine
    modifies st, st.body.Objects(), st.held
    ensures
      var after := LinesOf(opts, done + [raw]);
      match s
      case Good => st.Valid() && after == Ok(st.physical) && FitsSoFar(st.def, st.physical, st.held.limit)
      case Refusal => after.Ok? ==> InputDead(st.def, after.value)
      case Overflow => after == Ok(st.physical) && !FitsSoFar(st.def, st.physical, st.held.limit)
  {
    hide LinesOf, InputDead, Ascending, Streamer.Valid, BodyReader.Objects, BodyReader.Handed, RecordText, Peak, FitsSoFar;
    LinesOfSnoc(opts, done, raw);
    st.Elsewhere();
    var text := PrepareText(opts, raw, num);
    if text.Refused? {
      return Refusal;
    }
    var l := Line(text.value, num);
    LinesAreNumbered(opts, done + [raw]);
    FitsSnoc(st.def, st.physical, l, st.held.limit);
    assert LinesOf(opts, done + [raw]) == Ok(st.physical + [l]);
    s := st.FeedPhysical(l);
  }

  /** Stream. For a csv whose columns are the empty list see EmptyColumnsDisagree. */
  method Stream(d: Definition, opts: Options, src: Source) returns (s: Status, out: Output)
    requires Readable(d.body) && src.size > 0
    modifies src
    ensures
      var lines := InputLines(opts, old(src.rest));
      match s
      case Good =>
        && lines.Ok? && Parsed(d, lines.value).Ok? && Agrees(d.body, out, Parsed(d, lines.value).value)
        && AllKeepTheirLines(d.body, Selected(d, lines.value)) && FitsTheLimit(d, lines.value, opts.maxInput)
      case Refusal =>
        lines.Ok? ==> Parsed(d, lines.value).Refused? || !AllKeepTheirLines(d.body, Selected(d, lines.value))
      case Overflow =>
        && !HoldsNothing(d)
        && (lines.Ok? ==>
              && !FitsTheLimit(d, lines.value, opts.maxInput)
              && opts.maxInput < Copies(d.body) * LinesCost(lines.value))
  {
    hide LinesOf, InputLines, RawRecords, LinesCost, InputDead, Ascending, Streamer.Valid, BodyReader.Objects, BodyReader.Handed;
    hide Agrees, Parsed, AllKeepTheirLines, Selected, InputOk, OutputIs, Readable, IndexByte, Streamer.Held;
    hide FitsTheLimit, FitsSoFar, Copies, HoldsNothing;
    ghost var input := src.rest;
    var st := new Streamer(d, opts.maxInput);
    st.ValidFits();
    out := st.body.Handed();
    var num := 0;
    ghost var done: seq<seq<Byte>> := [];
    NothingRead(opts, input);
    NothingIsHeld(d, opts.maxInput);
    while true
      invariant st.Valid() && st.Fits() && st.def == d && st.held.limit == opts.maxInput
      invariant fresh(st) && fresh(st.held) && fresh(st.body.Objects())
      invariant LinesOf(opts, done) == Ok(st.physical) && num == |done|
      invariant FitsSoFar(d, st.physical, opts.maxInput)
      invariant LinesOf(opts, done + RawRecords(src.rest, opts.sep)) == InputLines(opts, input)
      decreases |src.rest|
    {
      st.Elsewhere();
      NextRecord(opts, input, src.rest, done);
      var raw, end := src.ReadRecord(opts.sep, opts.maxLine);
      if end == TooLong {
        return Refusal, out;
      }
      if raw == [] && end == AtEnd {
        break;
      }
      num := num + 1;
      s := FeedRecordText(st, opts, raw, num, done);
      out := st.body.Handed();
      done := done + [raw];
      if s != Good {
        if s == Overflow {
          RunsOver(d, st.physical, InputLines(opts, input), opts.maxInput);
        } else if InputLines(opts, input).Ok? {
          FailsOnTheWhole(d, opts, input, LinesOf(opts, done).value);
        }
        return;
      }
      if end == AtEnd {
        break;
      }
    }
    NextRecord(opts, input, src.rest, done);
    ghost var lines := st.physical;
    s := FinishStream(st, opts, input);
    if s == Overflow {
      RunsOver(d, lines, InputLines(opts, input), opts.maxInput);
    }
    out := st.body.Handed();
  }

  /** A stream that has run over the limit on some lines of an input is over it on the whole. */
  lemma {:induction false} RunsOver(d: Definition, physical: seq<Line>, lines: Outcome<seq<Line>>, limit: nat)
    requires !FitsSoFar(d, physical, limit) || (lines == Ok(physical) && !FitsTheLimit(d, physical, limit))
    requires lines.Ok? ==> physical <= lines.value
    ensures !HoldsNothing(d)
    ensures lines.Ok? ==>
      !FitsTheLimit(d, lines.value, limit) && limit < Copies(d.body) * LinesCost(lines.value)
  {
    hide FitsSoFar, EndPeak, Copies, LinesCost, HoldsNothing;
    if HoldsNothing(d) {
      NothingHeldFits(d, physical, limit);
    }
    if lines.Ok? {
      if !FitsSoFar(d, physical, limit) {
        StaysOver(d, physical, lines.value, limit);
      }
      if Copies(d.body) * LinesCost(lines.value) <= limit {
        CheapLinesFit(d, lines.value, limit);
      }
    }
  }

  lemma {:induction false} NothingRead(opts: Options, input: seq<Byte>)
    ensures LinesOf(opts, []) == Ok([]) && LinesCost([]) == 0
    ensures LinesOf(opts, [] + RawRecords(input, opts.sep)) == InputLines(opts, input)
  {
    assert [] + RawRecords(input, opts.sep) == RawRecords(input, opts.sep);
  }

  lemma {:induction false} NothingIsHeld(d: Definition, limit: nat)
    ensures FitsSoFar(d, [], limit)
  {
  }

  /** The end of the input of a stream that has been fed all of its lines. */
  method FinishStream(st: Streamer, opts: Options, ghost input: seq<Byte>) returns (s: Status)
    requires st.Valid() && st.Fits() && InputLines(opts, input) == Ok(st.physical) && Readable(st.def.body)
    requires FitsSoFar(st.def, st.physical, st.held.limit)
    modifies st, st.body.Objects(), st.held
    ensures
      var lines := InputLines(opts, input).value;
      match s
      case Good =>
        && Parsed(st.def, lines).Ok? && Agrees(st.def.body, st.body.Handed(), Parsed(st.def, lines).value)
        && AllKeepTheirLines(st.def.body, Selected(st.def, lines)) && FitsTheLimit(st.def, lines, st.held.limit)
      case Refusal => Parsed(st.def, lines).Refused? || !AllKeepTheirLines(st.def.body, Selected(st.def, lines))
      case Overflow => !FitsTheLimit(st.def, lines, st.held.limit)
  {
    hide InputLines, Ascending, Streamer.Valid, BodyReader.Objects, BodyReader.Handed;
    hide Agrees, Parsed, AllKeepTheirLines, Selected, InputOk, OutputIs, Readable, FitsSoFar, EndPeak;
    st.ValidFits();
    s := st.Finish();
    if s == Good {
      StreamAgrees(st.def, st.physical, st.body.Handed());
    } else if s == Refusal {
      FailsOnTheWhole(st.def, opts, input, st.physical);
    }
  }

  // ----- where the two readers part -----

  /** A stream charges every line for its line break, so of the inputs the whole-document reader takes only
      one that fills the limit to the byte, and has no line break at its end, can be too much for it. */
  lemma {:induction false} OverflowFillsTheLimit(opts: Options, input: seq<Byte>)
    requires DecodesUtf8(opts) && |input| <= opts.maxInput && InputLines(opts, input).Ok?
    requires opts.maxInput < LinesCost(InputLines(opts, input).value)
    ensures |input| == opts.maxInput && (input == [] || input[|input| - 1] != opts.sep)
  {
    hide DecodesUtf8, LinesOf, RawRecords, LinesCost;
    LinesCostAtMost(opts, RawRecords(input, opts.sep));
    InputLength(input, opts.sep);
    if input == [] {
      NothingRead(opts, []);
      NoLength(opts.sep);
    }
  }

  /** The two readers of a csv start alike exactly when its columns are not the empty list. */
  lemma {:induction false} CsvStartsAlike(c: CsvKind)
    ensures CsvStart(c) == CsvStreamStart(c) <==> Agreed(Csv(c))
  {
  }

  /** A csv without a header whose definition writes an empty list of columns, at the first row that has a value:
      the whole-document reader has no column for it and refuses, and the stream numbers the columns and reads it
      unless an expected column is missing or a cell cannot be read. */
  lemma {:induction false} EmptyColumnsDisagree(c: CsvKind, rec: Line, row: seq<string>)
    requires c.none && c.columns == Some([]) && c.cut(rec.text) == Ok([row]) && row != []
    ensures CsvRun(c, CsvStart(c), [rec]).Refused?
    ensures CsvRun(c, CsvStreamStart(c), [rec]).Ok? <==>
              && Columns.AllKnown(c.expected, Columns.ByNumber(|row|))
              && forall i :: 0 <= i < |row| ==> c.convert(Columns.Numbered("column", i + 1), Some(row[i])).Ok?
  {
    CsvSnoc(c, CsvStart(c), [], rec);
    CsvSnoc(c, CsvStreamStart(c), [], rec);
    assert [] + [rec] == [rec] && [] + [row] == [row];
    CsvRowsSnoc(c, CsvStart(c), [], row);
    CsvRowsSnoc(c, CsvStreamStart(c), [], row);
    var columns := Columns.ByNumber(|row|);
    Columns.RowIsRead(c.convert, columns, row);
    assert forall i :: 0 <= i < |row| ==>
      columns[i] == Columns.Numbered("column", i + 1) && Columns.Cell(row, i) == Some(row[i]);
  }
}
