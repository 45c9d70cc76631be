/**
 How much a stream holds back (pkg/engine/stream.go, hold): what the stages have not passed on of the lines so far, and
 the most there is of it while one more line is taken in. Both are functions of the lines, so whether an input fits
 a limit is a property of the input.
 */
module Holding {
  import opened Lines
  import opened Stages
  import opened Forest
  import opened Readings
  import opened ReadingFacts
  import opened ReaderFacts
  import opened CompositeFacts
  import opened StreamFacts

  function Max(a: nat, b: nat): nat {
    if a < b then b else a
  }

  // ----- a list -----

  /** The lines of the record still open. */
  function LastBlock(start: Regex, lines: seq<Line>): seq<Line> {
    var blocks := BlocksOf(start, lines);
    if blocks.Ok? && blocks.value != [] then blocks.value[|blocks.value| - 1] else []
  }

  predicate TopLevel(t: TreeKind, l: Line) {
    DepthOf(t, l).Ok? && DepthOf(t, l).value.0 == 0
  }

  /** The lines from the last top-level one on. */
  function LastNode(t: TreeKind, lines: seq<Line>): seq<Line> {
    if lines == [] then []
    else
      var l := lines[|lines| - 1];
      if TopLevel(t, l) then [l] else LastNode(t, lines[..|lines| - 1]) + [l]
  }

  lemma {:induction false} LastNodeSnoc(t: TreeKind, lines: seq<Line>, l: Line)
    ensures LastNode(t, lines + [l]) == if TopLevel(t, l) then [l] else LastNode(t, lines) + [l]
  {
    assert (lines + [l])[..|lines|] == lines;
  }

  /** The lines of a drawn table's header, or of its open row. */
  ghost function LastRow(b: BoxKind, lines: seq<Line>): seq<Line> {
    var c := Cut(b, lines);
    if c.closed == [] then c.open else OpenRow(b, c)
  }

  /** What a list is holding back of the lines it has been given. */
  ghost function HeldBy(k: ListKind, grouped: bool, lines: seq<Line>): nat {
    match k
    case PerLine(_) => 0
    case Table(_) => 0
    case Csv(c) => if grouped then 0 else TextsCost(Group(c.delim, lines).pieces)
    case Box(b) => LinesCost(LastRow(b, lines))
    case Blocks(start, _) => LinesCost(LastBlock(start, lines))
    case Tree(t) => LinesCost(LastNode(t, lines))
  }

  /** How much a list that holds this much holds when it has taken one more line. Records and a tree let go of what
      they hold before they take a line that begins anew, a drawn table only after it. */
  ghost function Reached(k: ListKind, grouped: bool, held: nat, l: Line): nat {
    match k
    case PerLine(_) => held
    case Table(_) => held
    case Csv(_) => if grouped then held else held + Cost(l.text)
    case Box(b) => if b.isRule(l.text) then held else held + Cost(l.text)
    case Blocks(start, _) => if start(l.text) then Cost(l.text) else held + Cost(l.text)
    case Tree(t) => if TopLevel(t, l) then Cost(l.text) else held + Cost(l.text)
  }

  // ----- a composite -----

  /** What a part that is still open holds of the lines of its region. */
  ghost function HeldOpen(p: Part, lines: seq<Line>): nat {
    match p.body
    case ListPart(k) => HeldBy(k, false, PartLines(p, lines))
    case SinglePart(_) => LinesCost(PartLines(p, lines))
  }

  /** A part is read when its region closes, and holds nothing any more. `all` are the lines it has been offered. */
  ghost function PartHolds(p: Part, lines: seq<Line>, all: seq<Line>): nat {
    if Closed(p.sel, lines) then 0 else HeldOpen(p, all)
  }

  predicate Takes(p: Part, lines: seq<Line>, l: Line) {
    RoleOf(p.sel, lines, l.text) == Inside && !MatchesAny(p.ignore, l.text)
  }

  /** How much a part that holds this much holds when it has been offered one more line. */
  ghost function PartReached(p: Part, lines: seq<Line>, held: nat, l: Line): nat {
    if !Takes(p, lines, l) then held
    else
      match p.body
      case ListPart(k) => Reached(k, false, held, l)
      case SinglePart(_) => held + Cost(l.text)
  }

  /** What each part holds when the first n of them have been offered the line. */
  ghost function PartsHold(parts: seq<Part>, lines: seq<Line>, l: Line, n: nat): (hs: seq<nat>)
    ensures |hs| == |parts|
    ensures forall i :: 0 <= i < |parts| ==>
      hs[i] == PartHolds(parts[i], lines, if i < n then lines + [l] else lines)
  {
    seq(|parts|, i requires 0 <= i < |parts| => PartHolds(parts[i], lines, if i < n then lines + [l] else lines))
  }

  /** What each part holds between two lines. */
  ghost function AllHold(parts: seq<Part>, lines: seq<Line>): (hs: seq<nat>)
    ensures |hs| == |parts| && forall i :: 0 <= i < |parts| ==> hs[i] == PartHolds(parts[i], lines, lines)
  {
    seq(|parts|, i requires 0 <= i < |parts| => PartHolds(parts[i], lines, lines))
  }

  /** What the parts hold together when part i has taken the line. */
  ghost function TogetherAt(parts: seq<Part>, lines: seq<Line>, l: Line, i: nat): nat
    requires i < |parts|
  {
    Sum(PartsHold(parts, lines, l, i)[i := PartReached(parts[i], lines, PartHolds(parts[i], lines, lines), l)])
  }

  /** The most they hold while the first n of them are offered the line in turn. */
  ghost function OfferedPeak(parts: seq<Part>, lines: seq<Line>, l: Line, n: nat): nat
    requires n <= |parts|
  {
    if n == 0 then 0 else Max(OfferedPeak(parts, lines, l, n - 1), TogetherAt(parts, lines, l, n - 1))
  }

  lemma {:induction false} OfferedPeakGrows(parts: seq<Part>, lines: seq<Line>, l: Line, m: nat, n: nat)
    requires m <= n <= |parts|
    ensures OfferedPeak(parts, lines, l, m) <= OfferedPeak(parts, lines, l, n)
  {
    hide TogetherAt;
    if m < n {
      OfferedPeakGrows(parts, lines, l, m, n - 1);
    }
  }

  // ----- a body -----

  ghost function HeldByBody(body: Body, lines: seq<Line>): nat {
    match body
    case List(k) => HeldBy(k, true, lines)
    case Composite(parts) => Sum(AllHold(parts, lines))
  }

  ghost function BodyPeak(body: Body, lines: seq<Line>, l: Line): nat {
    match body
    case List(k) => Reached(k, true, HeldBy(k, true, lines), l)
    case Composite(parts) => OfferedPeak(parts, lines, l, |parts|)
  }

  // ----- the selection and the edges of the text -----

  /** The most the body holds while one more line comes to the selection. */
  ghost function SelectedPeak(d: Definition, kept: seq<Line>, l: Line): nat {
    if RoleOf(d.sel, kept, l.text) == Inside then BodyPeak(d.body, Region(d.sel, kept), l) else 0
  }

  /** The most that is held while these blank lines are let go one by one. */
  ghost function ReleasePeak(d: Definition, kept: seq<Line>, empty: seq<Line>): nat
    decreases |empty|
  {
    if empty == [] then 0
    else if MatchesAny(d.ignore, empty[0].text) then ReleasePeak(d, kept, empty[1..])
    else
      Max(LinesCost(empty[1..]) + SelectedPeak(d, kept, empty[0]), ReleasePeak(d, kept + [empty[0]], empty[1..]))
  }

  lemma {:induction false} ReleaseFirst(d: Definition, kept: seq<Line>, empty: seq<Line>)
    requires empty != []
    ensures ReleasePeak(d, kept, empty) ==
      if MatchesAny(d.ignore, empty[0].text) then ReleasePeak(d, kept, empty[1..])
      else Max(LinesCost(empty[1..]) + SelectedPeak(d, kept, empty[0]), ReleasePeak(d, kept + [empty[0]], empty[1..]))
  {
    hide SelectedPeak, LinesCost, MatchesAny;
  }

  lemma {:induction false} NothingReleased(d: Definition, kept: seq<Line>)
    ensures ReleasePeak(d, kept, []) == 0
  {
  }

  /** The blank lines that may still turn out to be inside the text. */
  function Waiting(d: Definition, folded: seq<Line>): seq<Line> {
    if d.skipBlank then [] else Tail(d.skipBlank, folded)
  }

  /** What the edges and the body hold of these folded lines. */
  ghost function HeldPastFold(d: Definition, folded: seq<Line>): nat {
    LinesCost(Waiting(d, folded)) + HeldByBody(d.body, Region(d.sel, Prepared(d.ignore, d.skipBlank, folded)))
  }

  /** The most they hold while one more folded line comes. */
  ghost function FoldedPeak(d: Definition, folded: seq<Line>, l: Line): nat {
    var kept, empty := Prepared(d.ignore, d.skipBlank, folded), Waiting(d, folded);
    if EdgeBlank(l.text, d.skipBlank) then
      if d.skipBlank || FromText(d.skipBlank, folded) == [] then 0 else HeldPastFold(d, folded) + Cost(l.text)
    else
      Max(ReleasePeak(d, kept, empty),
          if MatchesAny(d.ignore, l.text) then 0
          else SelectedPeak(d, kept + Keep(d.ignore, false, empty), l))
  }

  // ----- the fold -----

  /** The pieces of the line a fold may still join, when there is one. */
  function LastFolding(fold: Option<Regex>, records: seq<Line>): Option<Folding> {
    if fold.None? then None
    else
      var fs := Foldings(fold.value, records);
      if fs.Refused? || fs.value == [] then None else Some(fs.value[|fs.value| - 1])
  }

  function HeldByFold(fold: Option<Regex>, records: seq<Line>): nat {
    var last := LastFolding(fold, records);
    if last.None? then 0 else TextsCost(last.value.pieces)
  }

  /** The most that is held while the line a fold was holding goes on, `more` being held beside it. */
  ghost function FoldingPeak(d: Definition, records: seq<Line>, more: nat): nat {
    var last := LastFolding(d.fold, records);
    if last.None? then 0 else more + FoldedPeak(d, Released(d.fold, records), Joined(last.value))
  }

  /** The most the fold and the stages behind it hold while one more record comes. */
  ghost function RecordPeak(d: Definition, records: seq<Line>, l: Line): nat {
    var past := HeldPastFold(d, Released(d.fold, records));
    if d.fold.None? then FoldedPeak(d, records, l)
    else if d.fold.value(l.text) then past + HeldByFold(d.fold, records) + Cost(TrimSpace(l.text))
    else Max(past + Cost(l.text), FoldingPeak(d, records, Cost(l.text)))
  }

  // ----- an input -----

  predicate IsCsv(d: Definition) {
    d.body.List? && d.body.kind.Csv?
  }

  /** The lines of the csv record still open. */
  function OpenRecord(d: Definition, lines: seq<Line>): seq<string> {
    if IsCsv(d) then Group(d.body.kind.csv.delim, lines).pieces else []
  }

  /** What a stream holds back of these lines. */
  ghost function HeldOf(d: Definition, lines: seq<Line>): nat {
    var records := Settled(d, lines);
    TextsCost(OpenRecord(d, lines)) + HeldByFold(d.fold, records) + HeldPastFold(d, Released(d.fold, records))
  }

  /** The most a stream holds while one more line comes. A csv's line is held until its record closes, and the
      record takes its place. */
  ghost function Peak(d: Definition, lines: seq<Line>, l: Line): nat {
    if IsCsv(d) then HeldOf(d, lines) + Cost(l.text) else RecordPeak(d, lines, l)
  }

  /** The most a stream holds at the end of the lines, when the last one folded goes to several parts. */
  ghost function EndPeak(d: Definition, lines: seq<Line>): nat {
    if d.body.List? then 0 else FoldingPeak(d, lines, 0)
  }

  /** A definition that makes a value of every line, and neither folds lines nor keeps blank ones, never has a line
      to hold back. */
  predicate HoldsNothing(d: Definition) {
    d.body.List? && (d.body.kind.PerLine? || d.body.kind.Table?) && d.fold.None? && d.skipBlank
  }

  /** Nothing in the lines makes a stream hold more than the limit. */
  ghost predicate FitsTheLimit(d: Definition, lines: seq<Line>, limit: int) {
    FitsSoFar(d, lines, limit) && EndPeak(d, lines) <= limit
  }

  ghost predicate FitsSoFar(d: Definition, lines: seq<Line>, limit: int) {
    forall i :: 0 <= i < |lines| ==> Peak(d, lines[..i], lines[i]) <= limit
  }

  lemma {:induction false} FitsSnoc(d: Definition, lines: seq<Line>, l: Line, limit: int)
    ensures FitsSoFar(d, lines + [l], limit) <==> FitsSoFar(d, lines, limit) && Peak(d, lines, l) <= limit
  {
    hide Peak;
    var all := lines + [l];
    assert all[..|lines|] == lines && all[|lines|] == l;
    assert forall i :: 0 <= i < |lines| ==> all[..i] == lines[..i] && all[i] == lines[i];
  }

  /** Lines that do not fit do not fit within any longer input. */
  lemma {:induction false} StaysOver(d: Definition, lines: seq<Line>, all: seq<Line>, limit: int)
    requires lines <= all && !FitsSoFar(d, lines, limit)
    ensures !FitsTheLimit(d, all, limit)
  {
    hide Peak;
    var i :| 0 <= i < |lines| && Peak(d, lines[..i], lines[i]) > limit;
    assert all[..i] == lines[..i] && all[i] == lines[i];
  }
}
