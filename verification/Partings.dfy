/**
 Where a stream and the whole-document reader part (pkg/engine): a stream that has to hold a line back counts its line
 break, and a records part of a composite has to keep the lines of its own region.
 */
module Partings {
  import opened Lines
  import opened Json
  import opened Stages
  import opened Readings
  import opened ReadingFacts
  import opened Reader
  import opened CompositeFacts
  import opened StreamFacts
  import opened Holding
  import opened Limits
  import opened Streaming
  import opened Escapes
  import opened RecordIO
  import opened Engine

  // ----- the limit -----

  /** What Parse reads, and no records part of which leaves a line to a sibling, is streamed to its end exactly when
      its lines fit the limit. */
  method StreamParsed(d: Definition, opts: Options, src: Source) returns (s: Status, out: Output)
    requires Readable(d.body) && src.size > 0
    requires InputLines(opts, src.rest).Ok? && Parsed(d, InputLines(opts, src.rest).value).Ok?
    requires AllKeepTheirLines(d.body, Selected(d, InputLines(opts, src.rest).value))
    modifies src
    ensures
      var lines := InputLines(opts, old(src.rest)).value;
      && s == (if FitsTheLimit(d, lines, opts.maxInput) then Good else Overflow)
      && (s == Good ==> Agrees(d.body, out, Parsed(d, lines).value))
  {
    hide Parsed, InputLines, Agrees, FitsTheLimit, HoldsNothing, Readable, AllKeepTheirLines, Selected, Copies;
    s, out := Stream(d, opts, src);
  }

  /** Of the inputs no longer than the limit, a list is too much for a stream exactly when its lines cost one more
      than the limit and all of it is held when the last of them has been taken. */
  lemma {:induction false} TooMuchForAList(d: Definition, opts: Options, input: seq<Byte>)
    requires d.body.List? && DecodesUtf8(opts) && |input| <= opts.maxInput && InputLines(opts, input).Ok?
    ensures
      var lines := InputLines(opts, input).value;
      !FitsTheLimit(d, lines, opts.maxInput) <==> LinesCost(lines) == opts.maxInput + 1 && NothingLetGo(d, lines)
  {
    hide DecodesUtf8, LinesOf, RawRecords, LinesCost, FitsTheLimit, NothingLetGo, SeparatedLength;
    LinesCostAtMost(opts, RawRecords(input, opts.sep));
    InputLength(input, opts.sep);
    FullListDoesNotFit(d, InputLines(opts, input).value, opts.maxInput);
  }

  /** A line a list takes and does not give a value for at once. */
  predicate HoldsTheLine(k: ListKind, l: Line) {
    k.Blocks? || k.Tree? || (k.Box? && !k.box.isRule(l.text))
  }

  /** One line with no line break at its end that fills the limit to the byte does not fit it exactly when it has to be
      held. */
  lemma {:induction false} FullLineDoesNotFit(d: Definition, l: Line, limit: nat)
    requires d.body.List? && Bytes(l.text) == limit && !(d.fold.Some? && d.fold.value(l.text))
    ensures !FitsTheLimit(d, [l], limit) <==>
              IsCsv(d) || d.fold.Some? || (Selected(d, [l]) == [l] && HoldsTheLine(d.body.kind, l))
  {
    hide Bytes, Selected, Peak, HoldsTheLine;
    NothingCosts();
    LinesCostSnoc([], l);
    assert [] + [l] == [l] && [l][..0] == [];
    FullListDoesNotFit(d, [l], limit);
    FirstPeak(d, l);
  }

  /** What is held of the first line. */
  lemma {:induction false} FirstPeak(d: Definition, l: Line)
    requires d.body.List? && !(d.fold.Some? && d.fold.value(l.text))
    ensures Peak(d, [], l) ==
      if IsCsv(d) || d.fold.Some? || (Selected(d, [l]) == [l] && HoldsTheLine(d.body.kind, l)) then Cost(l.text) else 0
  {
    hide Bytes, Cost, Blank, MatchesAny, HoldsTheLine, Selected, FoldedPeak, HeldPastFold, LastFolding, Released, HeldOf;
    NothingCosts();
    NothingHeldAtFirst(d);
    if d.fold.None? && !IsCsv(d) {
      FirstFolded(d, l);
    }
  }

  lemma {:induction false} NothingHeldAtFirst(d: Definition)
    requires d.body.List?
    ensures HeldOf(d, []) == 0 && HeldPastFold(d, []) == 0 && Prepared(d.ignore, d.skipBlank, []) == []
    ensures Released(d.fold, []) == [] && LastFolding(d.fold, []) == None && Region(d.sel, []) == []
    ensures Waiting(d, []) == [] && HeldBy(d.body.kind, true, []) == 0
  {
    NothingCosts();
    NothingIsSeen(d.sel);
    NothingInTheEdges(d);
    NothingInTheFold(d);
    NothingInAList(d.body.kind);
    hide Prepared, Region, Waiting, Released, LastFolding, HeldBy, TextsCost, LinesCost;
  }

  lemma {:induction false} NothingInTheEdges(d: Definition)
    ensures Prepared(d.ignore, d.skipBlank, []) == [] && Waiting(d, []) == []
  {
  }

  lemma {:induction false} NothingInTheFold(d: Definition)
    ensures Released(d.fold, []) == [] && LastFolding(d.fold, []) == None
  {
  }

  lemma {:induction false} NothingInAList(k: ListKind)
    ensures HeldBy(k, true, []) == 0
  {
    HeldByCost(k, true, []);
    NothingCosts();
    hide HeldBy;
  }

  lemma {:induction false} FirstFolded(d: Definition, l: Line)
    requires d.body.List? && d.fold.None? && !IsCsv(d)
    ensures FoldedPeak(d, [], l) ==
      if Selected(d, [l]) == [l] && HoldsTheLine(d.body.kind, l) then Cost(l.text) else 0
  {
    hide Bytes, Cost, Blank, MatchesAny, Region, Prepared, RoleOf, HeldBy, Waiting, Keep, Tail, ReleasePeak, HeldPastFold;
    NothingHeldAtFirst(d);
    NothingReleased(d, []);
    KeepNothing(d.ignore);
    NoTextNoTail(d.skipBlank, []);
    assert [] + [l] == [l];
    if EdgeBlank(l.text, d.skipBlank) {
      PreparedBlank(d.ignore, d.skipBlank, [], l);
    } else {
      PreparedText(d.ignore, d.skipBlank, [], l);
      TextIsKept(d.ignore, d.skipBlank, [], l);
      RegionSnoc(d.sel, [], l);
    }
  }

  const OPEN: Select := Select(None, (t: string) => false, None, (t: string) => false, 0, 0)

  /** A definition that reads its input as it is. */
  function Plainly(body: Body): Definition {
    Definition(None, [], true, OPEN, body)
  }

  function Begins(text: string): bool {
    text == "a"
  }

  function ReadAll(lines: seq<Line>): Outcome<Reading> {
    Ok(Reading(Null, Numbers(lines)))
  }

  /** Where nothing is ignored and every line says something, the selection of all lines is all lines. */
  lemma {:induction false} AllOf(lines: seq<Line>)
    requires forall i :: 0 <= i < |lines| ==> !Blank(lines[i].text)
    ensures Prepared([], true, lines) == lines && Region(OPEN, lines) == lines
  {
    hide Blank, Keep, FromText, Tail;
    if lines == [] {
      NothingPrepared();
    } else {
      var n := |lines| - 1;
      AllOf(lines[..n]);
      assert lines == lines[..n] + [lines[n]];
      PreparedText([], true, lines[..n], lines[n]);
      TextIsKept([], true, lines[..n], lines[n]);
      assert !MatchesAny([], lines[n].text);
    }
  }

  lemma {:induction false} NothingPrepared()
    ensures Prepared([], true, []) == []
  {
  }

  lemma {:induction false} LettersSaySomething()
    ensures !Blank("a") && !Blank("b") && Bytes("a") == 1
  {
    assert TrimLeft("a") == "a" && TrimLeft("b") == "b";
    assert Bytes([]) == 0 && "a"[..0] == [];
  }

  /** Lines that are read and say something are the value's. */
  lemma {:induction false} ReadPlainly(body: Body, lines: seq<Line>)
    requires (forall i :: 0 <= i < |lines| ==> !Blank(lines[i].text)) && !(body.List? && body.kind.Csv?)
    requires BodyResult(body, lines).Ok? && Covers(BodyResult(body, lines).value.read, lines)
    ensures Selected(Plainly(body), lines) == lines
    ensures Parsed(Plainly(body), lines) == Ok(BodyResult(body, lines).value.value)
  {
    hide Blank, Prepared, Region, BodyResult;
    AllOf(lines);
  }

  /** The records of lines the first of which is the only one to begin a record. */
  lemma {:induction false} OneRecord(lines: seq<Line>)
    requires lines != [] && forall i :: 0 <= i < |lines| ==> (Begins(lines[i].text) <==> i == 0)
    ensures BlocksOf(Begins, lines) == Ok([lines])
  {
    var n := |lines| - 1;
    assert lines == lines[..n] + [lines[n]];
    BlocksSnoc(Begins, lines[..n], lines[n]);
    NoRecords();
    if n > 0 {
      OneRecord(lines[..n]);
      var before := [lines[..n]];
      assert before[..0] + [before[0] + [lines[n]]] == [lines];
    } else {
      assert [] + [[lines[n]]] == [lines];
    }
  }

  lemma {:induction false} RecordIsRead(reader: BlockReader, lines: seq<Line>)
    requires reader(lines).Ok? && BlocksOf(Begins, lines) == Ok([lines])
    ensures
      var r := ListResult(Blocks(Begins, reader), false, lines);
      r == ListResult(Blocks(Begins, reader), true, lines)
      && r == Ok(ListOut([reader(lines).value.value], ReadOf(lines, reader(lines).value)))
  {
    hide BlocksOf, ReadOf;
    BlocksRunSnoc(reader, [], lines);
    assert [] + [lines] == [lines];
    var r := reader(lines).value;
    assert BlocksRun(reader, []) == Ok(ListOut([], {}));
    assert [] + [r.value] == [r.value] && {} + ReadOf(lines, r) == ReadOf(lines, r);
  }

  // ----- inputs of a letter or two -----

  /** The letters are read as what they are, a line each. */
  ghost predicate ReadsLetters(opts: Options) {
    opts.sep == LF && opts.maxLine > 0 && opts.decode([97]) == Ok("a") && opts.decode([98]) == Ok("b")
  }

  const LETTER: seq<Byte> := [97]
  const LETTERS: seq<Byte> := [97, 10, 98]

  lemma {:induction false} LetterIsALine(opts: Options, b: Byte, num: nat)
    requires ReadsLetters(opts) && (b == 97 || b == 98)
    ensures RecordText(opts, [b], num) == opts.decode([b])
  {
    NothingToStrip([b]);
    hide Stripped;
    assert !(BOM <= [b]) by {
      assert |BOM| == 3;
    }
    assert PreparedBytes([b], LF, num, opts.keepEscapes) == [b];
    assert 0 !in [b];
  }

  lemma {:induction false} LettersAreLines(opts: Options)
    requires ReadsLetters(opts)
    ensures InputLines(opts, LETTER) == Ok([Line("a", 1)])
    ensures InputLines(opts, LETTERS) == Ok([Line("a", 1), Line("b", 2)])
  {
    LetterIsALine(opts, 97, 1);
    LetterIsALine(opts, 98, 2);
    NothingRead(opts, []);
    LettersAreRecords();
    hide RecordText, LinesOf, RawRecords;
    LinesOfSnoc(opts, [], [97]);
    LinesOfSnoc(opts, [[97]], [98]);
    assert [] + [[97]] == [[97]] && [[97]] + [[98]] == [[97], [98]];
    assert [] + [Line("a", 1)] == [Line("a", 1)];
    assert [Line("a", 1)] + [Line("b", 2)] == [Line("a", 1), Line("b", 2)];
  }

  lemma {:induction false} LettersAreRecords()
    ensures RawRecords(LETTER, LF) == [[97]] && RawRecords(LETTERS, LF) == [[97], [98]]
  {
    LetterIsARecord(97);
    LetterIsARecord(98);
    IndexIs(LETTERS, LF, 1);
    hide RawRecords, IndexByte;
    RecordStep(LETTERS, LF);
    assert LETTERS[..1] == [97] && LETTERS[2..] == [98];
    assert [[97]] + [[98]] == [[97], [98]];
  }

  lemma {:induction false} LetterIsARecord(b: Byte)
    requires b != LF
    ensures RawRecords([b], LF) == [[b]]
  {
    IndexIs([b], LF, 1);
    hide RawRecords, IndexByte;
    RecordStep([b], LF);
    assert [b][..1] == [b] && [[b]] + [] == [[b]];
  }

  /** One letter under a limit of one byte: Parse reads it, and to a stream of records it is too much. */
  lemma {:induction false} OneLetter(opts: Options)
    requires ReadsLetters(opts) && opts.maxInput == 1
    ensures
      var d := Plainly(List(Blocks(Begins, ReadAll)));
      Readable(d.body) && ParsedInput(d, opts, LETTER).Ok? && !FitsTheLimit(d, InputLines(opts, LETTER).value, 1)
  {
    hide Blank, BlocksOf, Bytes, BlocksRun, ListResult, Parsed, Selected, FitsTheLimit, ReadsLetters, InputLines;
    LettersSaySomething();
    LettersAreLines(opts);
    var l := Line("a", 1);
    var all, body := [l], List(Blocks(Begins, ReadAll));
    OneRecord(all);
    RecordIsRead(ReadAll, all);
    assert all[0].num in Numbers(all);
    ReadPlainly(body, all);
    FullLineDoesNotFit(Plainly(body), l, 1);
  }

  lemma {:induction false} NoRecords()
    ensures BlocksOf(Begins, []) == Ok([])
  {
  }

  // ----- a line left to a sibling -----

  function ReadFirst(lines: seq<Line>): Outcome<Reading> {
    Ok(Reading(Null, if lines == [] then {} else {lines[0].num}))
  }

  function AsText(l: Line): Outcome<Json> {
    Ok(Str(l.text))
  }

  /** A record of which the first line is read, and beside it a part that reads every line. */
  const SIBLINGS := [
    Part("records", OPEN, [], ListPart(Blocks(Begins, ReadFirst))), Part("lines", OPEN, [], ListPart(PerLine(AsText)))]

  lemma {:induction false} EveryLineIsText(lines: seq<Line>)
    ensures PerLineRun(AsText, lines).Ok?
  {
    if lines != [] {
      EveryLineIsText(lines[..|lines| - 1]);
    }
  }

  /** Two lines of which the record reads the first and its sibling both: Parse reads them, and no stream does. */
  lemma {:induction false} SiblingReads(opts: Options)
    requires ReadsLetters(opts) && opts.maxInput >= 3
    ensures
      var d, lines := Plainly(Composite(SIBLINGS)), InputLines(opts, LETTERS);
      && Readable(d.body) && ParsedInput(d, opts, LETTERS).Ok? && lines.Ok?
      && !AllKeepTheirLines(d.body, Selected(d, lines.value)) && !InputOk(d, lines.value)
  {
    hide Blank, BlocksOf, BlocksRun, ListResult, Parsed, Selected, InputOk, AllKeepTheirLines, BodyResult, InputLines, ReadsLetters;
    LettersSaySomething();
    LettersAreLines(opts);
    var a, b := Line("a", 1), Line("b", 2);
    var all, body := [a, b], Composite(SIBLINGS);
    SiblingsRead(a, b);
    ReadPlainly(body, all);
    StreamsWhatParses(Plainly(body), all);
    SiblingLeaves(a, b);
  }

  /** A part that leaves nothing out. */
  lemma {:induction false} OwnLines(p: Part, lines: seq<Line>)
    requires p.sel == OPEN && p.ignore == [] && forall i :: 0 <= i < |lines| ==> !Blank(lines[i].text)
    ensures PartLines(p, lines) == lines
  {
    hide Blank, Region, Keep;
    AllOf(lines);
    NothingLeftOut(lines);
  }

  lemma {:induction false} NothingLeftOut(lines: seq<Line>)
    ensures Keep([], false, lines) == lines
  {
    if lines != [] {
      var n := |lines| - 1;
      NothingLeftOut(lines[..n]);
      assert lines == lines[..n] + [lines[n]];
      KeepSnoc([], false, lines[..n], lines[n]);
    }
  }

  lemma {:induction false} SiblingsRead(a: Line, b: Line)
    requires a == Line("a", 1) && b == Line("b", 2)
    ensures BodyResult(Composite(SIBLINGS), [a, b]).Ok?
    ensures Covers(BodyResult(Composite(SIBLINGS), [a, b]).value.read, [a, b])
  {
    hide Blank, BlocksOf, BlocksRun, ListResult, PartLines;
    LettersSaySomething();
    var all := [a, b];
    OwnLines(SIBLINGS[0], all);
    OwnLines(SIBLINGS[1], all);
    OneRecord(all);
    RecordIsRead(ReadFirst, all);
    LinesAreRead(all);
    assert all[0].num in Numbers(all) && all[1].num in Numbers(all);
    assert SIBLINGS[..1] == [SIBLINGS[0]] && SIBLINGS[..1][..0] == [];
    assert CompositeRun(SIBLINGS[..1], all).Ok?;
    assert CompositeRun(SIBLINGS, all).Ok? && Numbers(all) <= CompositeRun(SIBLINGS, all).value.1;
  }

  lemma {:induction false} LinesAreRead(lines: seq<Line>)
    ensures
      var r := ListResult(PerLine(AsText), false, lines);
      r.Ok? && r.value.read == Numbers(lines)
  {
    EveryLineIsText(lines);
  }

  lemma {:induction false} SiblingLeaves(a: Line, b: Line)
    requires a == Line("a", 1) && b == Line("b", 2)
    ensures !AllKeepTheirLines(Composite(SIBLINGS), [a, b])
  {
    hide Blank, BlocksOf, BlocksRun, ListResult, PartLines;
    LettersSaySomething();
    var all := [a, b];
    OwnLines(SIBLINGS[0], all);
    OneRecord(all);
    RecordIsRead(ReadFirst, all);
    assert 2 !in ReadOf(all, ReadFirst(all).value) && all[1].num == 2;
    assert !KeepsItsLines(SIBLINGS[0], all);
  }

  // ----- a line held for each part -----

  /** Two parts that each read all of the text into one value. */
  const TWICE := [Part("one", OPEN, [], SinglePart(ReadAll)), Part("two", OPEN, [], SinglePart(ReadAll))]

  /** Every line is held once for each part, so the lines fit only if the limit is twice what they cost. */
  lemma {:induction false} HeldTwice(lines: seq<Line>, limit: nat)
    requires forall i :: 0 <= i < |lines| ==> !Blank(lines[i].text)
    ensures FitsTheLimit(Plainly(Composite(TWICE)), lines, limit) <==> 2 * LinesCost(lines) <= limit
  {
    hide Blank, LinesCost, Peak;
    var d := Plainly(Composite(TWICE));
    if 2 * LinesCost(lines) <= limit {
      CheapLinesFit(d, lines, limit);
    }
    if lines == [] {
      NothingCosts();
    } else {
      var n := |lines| - 1;
      assert lines == lines[..n] + [lines[n]];
      TwicePeak(lines[..n], lines[n]);
      FitsSnoc(d, lines[..n], lines[n], limit);
    }
  }

  lemma {:induction false} TwicePeak(init: seq<Line>, l: Line)
    requires !Blank(l.text) && forall i :: 0 <= i < |init| ==> !Blank(init[i].text)
    ensures Peak(Plainly(Composite(TWICE)), init, l) >= 2 * LinesCost(init + [l])
  {
    hide Blank, Prepared, Region, OfferedPeak, ReleasePeak;
    var d := Plainly(Composite(TWICE));
    AllOf(init);
    KeepNothing([]);
    assert init + [] == init && !MatchesAny([], l.text);
    InsideAll(init, l);
    OfferedTwice(init, l);
  }

  lemma {:induction false} InsideAll(init: seq<Line>, l: Line)
    ensures RoleOf(OPEN, init, l.text) == Inside && !Closed(OPEN, init)
  {
  }

  lemma {:induction false} OfferedTwice(init: seq<Line>, l: Line)
    requires !Blank(l.text) && forall i :: 0 <= i < |init| ==> !Blank(init[i].text)
    ensures OfferedPeak(TWICE, init, l, 2) >= 2 * LinesCost(init + [l])
  {
    hide Blank, LinesCost, Cost, PartLines, RoleOf, Closed;
    var all := init + [l];
    LinesCostSnoc(init, l);
    InsideAll(init, l);
    OwnLines(TWICE[0], all);
    OwnLines(TWICE[1], init);
    assert !MatchesAny([], l.text);
    var hs := PartsHold(TWICE, init, l, 1);
    var at := hs[1 := LinesCost(all)];
    assert !MatchesAny(TWICE[1].ignore, l.text) && |TWICE| == 2;
    assert Takes(TWICE[1], init, l);
    assert hs[0] == HeldOpen(TWICE[0], all) == LinesCost(all);
    assert PartReached(TWICE[1], init, PartHolds(TWICE[1], init, init), l) == LinesCost(all);
    assert TogetherAt(TWICE, init, l, 1) == Sum(at);
    assert at == [LinesCost(all), LinesCost(all)];
    SumOfTwo(LinesCost(all), LinesCost(all));
  }

  lemma {:induction false} SumOfTwo(a: nat, b: nat)
    ensures Sum([a, b]) == a + b
  {
    var one: seq<nat>, two: seq<nat> := [a], [a, b];
    assert two[..1] == one && Sum(two) == Sum(one) + b;
    assert one[..0] == [] && Sum(one) == a;
  }

  lemma {:induction false} TwiceRead(lines: seq<Line>)
    requires forall i :: 0 <= i < |lines| ==> !Blank(lines[i].text)
    ensures
      var r := BodyResult(Composite(TWICE), lines);
      r.Ok? && Covers(r.value.read, lines)
  {
    hide Blank, PartLines, Numbers;
    OwnLines(TWICE[0], lines);
    OwnLines(TWICE[1], lines);
    assert TWICE[..1] == [TWICE[0]] && TWICE[..1][..0] == [];
    assert CompositeRun(TWICE[..1], lines).Ok?;
    assert CompositeRun(TWICE, lines).Ok? && Numbers(lines) <= CompositeRun(TWICE, lines).value.1;
    hide CompositeRun;
    AllNumbered(lines);
  }

  lemma {:induction false} AllNumbered(lines: seq<Line>)
    ensures forall i :: 0 <= i < |lines| ==> lines[i].num in Numbers(lines)
  {
  }

  /** Overlapping parts: one letter, of which a stream holds four bytes. */
  lemma {:induction false} LetterForTwo(opts: Options)
    requires ReadsLetters(opts) && 0 < opts.maxInput
    ensures
      var d, lines := Plainly(Composite(TWICE)), InputLines(opts, LETTER);
      && Readable(d.body) && ParsedInput(d, opts, LETTER).Ok? && lines.Ok?
      && AllKeepTheirLines(d.body, Selected(d, lines.value))
      && (FitsTheLimit(d, lines.value, opts.maxInput) <==> 4 <= opts.maxInput)
  {
    hide Blank, Bytes, Parsed, Selected, FitsTheLimit, ReadsLetters, InputLines, BodyResult;
    LettersSaySomething();
    LettersAreLines(opts);
    var all, body := [Line("a", 1)], Composite(TWICE);
    TwiceRead(all);
    ReadPlainly(body, all);
    HeldTwice(all, opts.maxInput);
    NothingCosts();
    LinesCostSnoc([], all[0]);
    assert [] + [all[0]] == all;
  }
}
