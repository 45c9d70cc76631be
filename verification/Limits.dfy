/**
 What inputs fit the limit of a stream (pkg/engine/stream.go, hold): no more is held than the lines cost, once for each
 part that may hold them; and an input the whole-document reader takes, which is no longer than the limit, can be too
 much for a list only in one way.
 */
module Limits {
  import opened Lines
  import opened Stages
  import opened Forest
  import opened Readings
  import opened ReadingFacts
  import opened ReaderFacts
  import opened CompositeFacts
  import opened StreamFacts
  import opened Holding

  /** How many times a line may be held at once. */
  function Copies(body: Body): (n: nat)
    ensures n > 0
  {
    match body
    case List(_) => 1
    case Composite(parts) => Max(1, |parts|)
  }

  lemma {:induction false} Scale(k: nat, a: nat, b: nat)
    requires k > 0
    ensures a <= b ==> k * a <= k * b
    ensures b + k * a <= k * (a + b) && a <= k * a
  {
    assert k * (a + b) == k * a + k * b;
    if a <= b {
      assert k * b == k * a + k * (b - a);
    }
  }

  // ----- no stage passes on more than it was given -----

  lemma {:induction false} SliceCost(lines: seq<Line>, lo: nat, hi: nat)
    requires lo <= hi <= |lines|
    ensures LinesCost(lines[lo..hi]) <= LinesCost(lines)
  {
    hide LinesCost;
    assert lines == lines[..lo] + (lines[lo..hi] + lines[hi..]);
    LinesCostConcat(lines[..lo], lines[lo..hi] + lines[hi..]);
    LinesCostConcat(lines[lo..hi], lines[hi..]);
  }

  lemma {:induction false} KeepCost(ignore: seq<Regex>, skipBlank: bool, lines: seq<Line>)
    ensures LinesCost(Keep(ignore, skipBlank, lines)) <= LinesCost(lines)
  {
    hide Cost, Kept;
    if lines != [] {
      var n := |lines| - 1;
      KeepCost(ignore, skipBlank, lines[..n]);
      LinesCostSnoc(Keep(ignore, skipBlank, lines[..n]), lines[n]);
    }
  }

  lemma {:induction false} RegionCost(sel: Select, kept: seq<Line>)
    ensures LinesCost(Region(sel, kept)) <= LinesCost(kept)
  {
    SliceCost(kept, SpanOf(sel, kept).lo, SpanOf(sel, kept).hi);
  }

  lemma {:induction false} PartCost(p: Part, lines: seq<Line>)
    ensures LinesCost(PartLines(p, lines)) <= LinesCost(lines)
  {
    hide LinesCost, Region, Keep;
    RegionCost(p.sel, lines);
    KeepCost(p.ignore, false, Region(p.sel, lines));
  }

  /** The lines of the text and the blank ones that wait are lines of the input. */
  lemma {:induction false} EdgesCost(d: Definition, folded: seq<Line>)
    ensures LinesCost(Prepared(d.ignore, d.skipBlank, folded)) + LinesCost(Waiting(d, folded)) <= LinesCost(folded)
  {
    hide LinesCost, Keep, Lead, Trail;
    NothingCosts();
    var text := FromText(d.skipBlank, folded);
    var n := Trail(d.skipBlank, text);
    SliceCost(folded, Lead(d.skipBlank, folded), |folded|);
    assert text == folded[Lead(d.skipBlank, folded)..|folded|];
    KeepCost(d.ignore, d.skipBlank, text[..n]);
    LinesCostConcat(text[..n], text[n..]);
    assert text == text[..n] + text[n..];
  }

  /** A csv's records cost what their lines do. */
  lemma {:induction false} GroupCost(delim: char, lines: seq<Line>)
    ensures LinesCost(Group(delim, lines).records) + TextsCost(Group(delim, lines).pieces) == LinesCost(lines)
  {
    hide Cost, Join, Feed;
    if lines != [] {
      var n := |lines| - 1;
      var g, text := Group(delim, lines[..n]), lines[n].text;
      GroupCost(delim, lines[..n]);
      TextsCostSnoc(g.pieces, text);
      if Group(delim, lines).pieces == [] {
        var rec := Group(delim, lines).records[|g.records|];
        JoinKeepsCost(g.pieces + [text], "\n");
        LinesCostSnoc(g.records, rec);
      }
    }
  }

  lemma {:induction false} JoinedCost(f: Folding)
    requires f.pieces != []
    ensures Cost(Joined(f).text) == TextsCost(f.pieces)
  {
    JoinKeepsCost(f.pieces, " ");
  }

  /** What a fold lets go and what it holds cost no more than the records. */
  lemma {:induction false} FoldCost(fold: Option<Regex>, records: seq<Line>)
    ensures LinesCost(Released(fold, records)) + HeldByFold(fold, records) <= LinesCost(records)
  {
    hide LinesCost, Cost, HeldByFold, Released, LastFolding;
    if records == [] || fold.None? {
      NothingFolded(fold, records);
    } else {
      var n := |records| - 1;
      FoldCost(fold, records[..n]);
      FoldStep(fold.value, records[..n], records[n]);
      assert records == records[..n] + [records[n]] && fold == Some(fold.value);
      LinesCostSnoc(records[..n], records[n]);
    }
  }

  lemma {:induction false} NothingFolded(fold: Option<Regex>, records: seq<Line>)
    requires records == [] || fold.None?
    ensures LinesCost(Released(fold, records)) + HeldByFold(fold, records) == LinesCost(records)
  {
    hide Cost;
  }

  lemma {:induction false} FoldStep(fold: Regex, init: seq<Line>, l: Line)
    ensures
      var all := init + [l];
      LinesCost(Released(Some(fold), all)) + HeldByFold(Some(fold), all)
        <= LinesCost(Released(Some(fold), init)) + HeldByFold(Some(fold), init) + Cost(l.text)
  {
    hide Cost, TrimSpace, Joined, JoinedAll, LinesCost, TextsCost, Blank;
    NothingCosts();
    FoldingsSnoc(fold, init, l);
    if Foldings(fold, init).Ok? {
      ReleasedSnoc(fold, init, l);
      var fs := Foldings(fold, init).value;
      if !fold(l.text) {
        TextsCostSnoc([], l.text);
        assert [] + [l.text] == [l.text];
        if fs != [] {
          JoinedCost(fs[|fs| - 1]);
          LinesCostSnoc(Released(Some(fold), init), Joined(fs[|fs| - 1]));
        }
      } else if fs != [] {
        TrimNeverCostsMore(l.text);
        TextsCostSnoc(fs[|fs| - 1].pieces, TrimSpace(l.text));
      }
    }
  }

  // ----- no reader holds more than it was given -----

  lemma {:induction false} LastBlockCost(start: Regex, lines: seq<Line>)
    ensures LinesCost(LastBlock(start, lines)) <= LinesCost(lines)
  {
    hide Cost;
    NothingCosts();
    if lines != [] {
      var n := |lines| - 1;
      LastBlockCost(start, lines[..n]);
      LinesCostSnoc([], lines[n]);
      assert [] + [lines[n]] == [lines[n]];
      LinesCostSnoc(LastBlock(start, lines[..n]), lines[n]);
    }
  }

  lemma {:induction false} LastNodeCost(t: TreeKind, lines: seq<Line>)
    ensures LinesCost(LastNode(t, lines)) <= LinesCost(lines)
  {
    hide Cost, TopLevel;
    NothingCosts();
    if lines != [] {
      var n := |lines| - 1;
      LastNodeCost(t, lines[..n]);
      LinesCostSnoc([], lines[n]);
      assert [] + [lines[n]] == [lines[n]];
      LinesCostSnoc(LastNode(t, lines[..n]), lines[n]);
    }
  }

  lemma {:induction false} OpenCost(b: BoxKind, lines: seq<Line>)
    ensures LinesCost(Cut(b, lines).open) <= LinesCost(lines)
  {
    hide Cost;
    NothingCosts();
    if lines != [] {
      var n := |lines| - 1;
      OpenCost(b, lines[..n]);
      LinesCostSnoc(Cut(b, lines[..n]).open, lines[n]);
    }
  }

  lemma {:induction false} LastOfRowsCost(b: BoxKind, block: seq<Line>)
    requires block != []
    ensures BodyRows(b, block) != []
    ensures LinesCost(BodyRows(b, block)[|BodyRows(b, block)| - 1]) <= LinesCost(block)
  {
    hide Cost;
    NothingCosts();
    var n := |block| - 1;
    var before := BodyRows(b, block[..n]);
    if n > 0 {
      LastOfRowsCost(b, block[..n]);
      LinesCostSnoc(before[|before| - 1], block[n]);
    }
    LinesCostSnoc([], block[n]);
    assert [] + [block[n]] == [block[n]];
  }

  lemma {:induction false} LastRowCost(b: BoxKind, lines: seq<Line>)
    ensures LinesCost(LastRow(b, lines)) <= LinesCost(lines)
  {
    hide LinesCost, Cut, BodyRows;
    NothingCosts();
    OpenCost(b, lines);
    var open := Cut(b, lines).open;
    if open != [] {
      LastOfRowsCost(b, open);
    }
  }

  lemma {:induction false} HeldByCost(k: ListKind, grouped: bool, lines: seq<Line>)
    ensures HeldBy(k, grouped, lines) <= LinesCost(lines)
  {
    hide LinesCost, TextsCost, Group, LastRow, LastBlock, LastNode;
    match k
    case PerLine(_) =>
    case Table(_) =>
    case Csv(c) => GroupCost(c.delim, lines);
    case Box(b) => LastRowCost(b, lines);
    case Blocks(start, _) => LastBlockCost(start, lines);
    case Tree(t) => LastNodeCost(t, lines);
  }

  lemma {:induction false} PartHoldsCost(p: Part, lines: seq<Line>, all: seq<Line>)
    ensures PartHolds(p, lines, all) <= LinesCost(all)
  {
    hide LinesCost, PartLines, HeldBy, Closed;
    PartCost(p, all);
    if p.body.ListPart? {
      HeldByCost(p.body.kind, false, PartLines(p, all));
    }
  }

  lemma {:induction false} SumAtMost(counts: seq<nat>, n: nat)
    requires forall i :: 0 <= i < |counts| ==> counts[i] <= n
    ensures Sum(counts) <= |counts| * n
  {
    if counts != [] {
      var m := |counts| - 1;
      SumAtMost(counts[..m], n);
      assert |counts| * n == m * n + n;
    }
  }

  lemma {:induction false} TogetherCost(parts: seq<Part>, lines: seq<Line>, l: Line, i: nat)
    requires i < |parts|
    ensures TogetherAt(parts, lines, l, i) <= |parts| * (LinesCost(lines) + Cost(l.text))
  {
    hide LinesCost, Cost, PartHolds, Takes;
    var c := LinesCost(lines) + Cost(l.text);
    LinesCostSnoc(lines, l);
    PartHoldsCost(parts[i], lines, lines);
    forall j | 0 <= j < |parts| ensures PartsHold(parts, lines, l, i)[j] <= c {
      PartHoldsCost(parts[j], lines, if j < i then lines + [l] else lines);
    }
    SumAtMost(PartsHold(parts, lines, l, i)[i := PartReached(parts[i], lines, PartHolds(parts[i], lines, lines), l)], c);
  }

  lemma {:induction false} OfferedCost(parts: seq<Part>, lines: seq<Line>, l: Line, n: nat)
    requires n <= |parts|
    ensures OfferedPeak(parts, lines, l, n) <= |parts| * (LinesCost(lines) + Cost(l.text))
  {
    hide LinesCost, Cost, TogetherAt;
    if n > 0 {
      OfferedCost(parts, lines, l, n - 1);
      TogetherCost(parts, lines, l, n - 1);
    }
  }

  lemma {:induction false} BodyCost(body: Body, lines: seq<Line>, l: Line)
    ensures HeldByBody(body, lines) <= Copies(body) * LinesCost(lines)
    ensures BodyPeak(body, lines, l) <= Copies(body) * (LinesCost(lines) + Cost(l.text))
  {
    hide LinesCost, Cost, HeldBy, PartHolds, OfferedPeak, Sum;
    match body
    case List(k) =>
      HeldByCost(k, true, lines);
    case Composite(parts) =>
      forall i | 0 <= i < |parts| ensures AllHold(parts, lines)[i] <= LinesCost(lines) {
        PartHoldsCost(parts[i], lines, lines);
      }
      SumAtMost(AllHold(parts, lines), LinesCost(lines));
      OfferedCost(parts, lines, l, |parts|);
  }

  // ----- no stage holds more than the lines cost -----

  lemma {:induction false} SelectedCost(d: Definition, kept: seq<Line>, l: Line)
    ensures SelectedPeak(d, kept, l) <= Copies(d.body) * (LinesCost(kept) + Cost(l.text))
  {
    hide LinesCost, Cost, BodyPeak, Region, RoleOf, Copies;
    RegionCost(d.sel, kept);
    BodyCost(d.body, Region(d.sel, kept), l);
    Scale(Copies(d.body), LinesCost(Region(d.sel, kept)) + Cost(l.text), LinesCost(kept) + Cost(l.text));
    Scale(Copies(d.body), 0, LinesCost(kept) + Cost(l.text));
  }

  lemma {:induction false} ReleaseCost(d: Definition, kept: seq<Line>, empty: seq<Line>)
    ensures ReleasePeak(d, kept, empty) <= Copies(d.body) * (LinesCost(kept) + LinesCost(empty))
    decreases |empty|
  {
    hide LinesCost, Cost, SelectedPeak, MatchesAny, Copies;
    var k := Copies(d.body);
    Scale(k, 0, LinesCost(kept) + LinesCost(empty));
    if empty != [] {
      var e, rest := empty[0], empty[1..];
      LinesCostConcat([e], rest);
      NothingCosts();
      LinesCostSnoc([], e);
      assert [] + [e] == [e] && empty == [e] + rest;
      LinesCostSnoc(kept, e);
      ReleaseCost(d, kept, rest);
      ReleaseCost(d, kept + [e], rest);
      SelectedCost(d, kept, e);
      Scale(k, LinesCost(kept) + Cost(e.text), LinesCost(rest));
      Scale(k, LinesCost(kept) + LinesCost(rest), LinesCost(kept) + LinesCost(empty));
    }
  }

  lemma {:induction false} PastFoldCost(d: Definition, folded: seq<Line>)
    ensures HeldPastFold(d, folded) <= Copies(d.body) * LinesCost(folded)
  {
    hide LinesCost, Cost, Region, Prepared, Waiting, HeldByBody, Copies;
    var k, kept, empty := Copies(d.body), Prepared(d.ignore, d.skipBlank, folded), Waiting(d, folded);
    EdgesCost(d, folded);
    RegionCost(d.sel, kept);
    BodyCost(d.body, Region(d.sel, kept), Line("", 0));
    Scale(k, LinesCost(Region(d.sel, kept)), LinesCost(kept));
    Scale(k, LinesCost(kept), LinesCost(empty));
    Scale(k, LinesCost(kept) + LinesCost(empty), LinesCost(folded));
  }

  lemma {:induction false} FoldedCost(d: Definition, folded: seq<Line>, l: Line)
    ensures FoldedPeak(d, folded, l) <= Copies(d.body) * (LinesCost(folded) + Cost(l.text))
  {
    hide LinesCost, Cost, Prepared, Waiting, HeldPastFold, Copies, ReleasePeak, SelectedPeak, MatchesAny, EdgeBlank, FromText;
    var k, kept, empty := Copies(d.body), Prepared(d.ignore, d.skipBlank, folded), Waiting(d, folded);
    var all := LinesCost(folded) + Cost(l.text);
    EdgesCost(d, folded);
    PastFoldCost(d, folded);
    Scale(k, LinesCost(folded), Cost(l.text));
    ReleaseCost(d, kept, empty);
    Scale(k, LinesCost(kept) + LinesCost(empty), all);
    KeepCost(d.ignore, false, empty);
    LinesCostConcat(kept, Keep(d.ignore, false, empty));
    SelectedCost(d, kept + Keep(d.ignore, false, empty), l);
    Scale(k, LinesCost(kept + Keep(d.ignore, false, empty)) + Cost(l.text), all);
    Scale(k, 0, all);
  }

  lemma {:induction false} FoldingCost(d: Definition, records: seq<Line>, more: nat)
    ensures FoldingPeak(d, records, more) <= Copies(d.body) * (LinesCost(records) + more)
  {
    hide LinesCost, Cost, Released, FoldedPeak, Copies, Joined, TextsCost, Foldings;
    var k, last := Copies(d.body), LastFolding(d.fold, records);
    Scale(k, 0, LinesCost(records) + more);
    FoldCost(d.fold, records);
    if last.Some? {
      JoinedCost(last.value);
      FoldedCost(d, Released(d.fold, records), Joined(last.value));
      var c := LinesCost(Released(d.fold, records)) + Cost(Joined(last.value).text);
      Scale(k, c, LinesCost(records));
      Scale(k, LinesCost(records), more);
    }
  }

  lemma {:induction false} RecordCost(d: Definition, records: seq<Line>, l: Line)
    ensures RecordPeak(d, records, l) <= Copies(d.body) * (LinesCost(records) + Cost(l.text))
  {
    hide LinesCost, Cost, Released, FoldedPeak, Copies, FoldingPeak, HeldPastFold, HeldByFold, TrimSpace;
    var k, past := Copies(d.body), LinesCost(Released(d.fold, records));
    FoldCost(d.fold, records);
    PastFoldCost(d, Released(d.fold, records));
    FoldedCost(d, records, l);
    FoldingCost(d, records, Cost(l.text));
    TrimNeverCostsMore(l.text);
    Scale(k, past, LinesCost(records) - past);
    Scale(k, LinesCost(records), Cost(l.text));
  }

  /** A stream never holds more than its lines cost, once for each part that may hold them. */
  lemma {:induction false} PeakCost(d: Definition, lines: seq<Line>, l: Line)
    ensures Peak(d, lines, l) <= Copies(d.body) * LinesCost(lines + [l])
  {
    hide LinesCost, Cost, Released, RecordPeak, HeldByFold, HeldPastFold, TextsCost, Group;
    LinesCostSnoc(lines, l);
    RecordCost(d, lines, l);
    if IsCsv(d) {
      GroupCost(d.body.kind.csv.delim, lines);
      var records := Settled(d, lines);
      FoldCost(d.fold, records);
      PastFoldCost(d, Released(d.fold, records));
    }
  }

  // ----- which inputs fit -----

  /** Lines that cost no more than the limit, once for each part that may hold them, fit it. */
  lemma {:induction false} CheapLinesFit(d: Definition, lines: seq<Line>, limit: int)
    requires Copies(d.body) * LinesCost(lines) <= limit
    ensures FitsTheLimit(d, lines, limit)
  {
    hide LinesCost, Peak, FoldingPeak, Copies;
    forall i | 0 <= i < |lines| ensures Peak(d, lines[..i], lines[i]) <= limit {
      PeakCost(d, lines[..i], lines[i]);
      assert lines[..i] + [lines[i]] == lines[0..i + 1];
      SliceCost(lines, 0, i + 1);
      Scale(Copies(d.body), LinesCost(lines[0..i + 1]), LinesCost(lines));
    }
    FoldingCost(d, lines, 0);
  }

  /** A definition that never has a line to hold back is never over the limit. */
  lemma {:induction false} NothingHeldFits(d: Definition, lines: seq<Line>, limit: nat)
    requires HoldsNothing(d)
    ensures FitsTheLimit(d, lines, limit)
  {
    forall i | 0 <= i < |lines| ensures Peak(d, lines[..i], lines[i]) == 0 {
      hide Prepared, Keep, MatchesAny, EdgeBlank, Region, RoleOf;
      NothingCosts();
    }
  }

  /** Everything the lines cost is held at once when the last of them has been taken. */
  ghost predicate NothingLetGo(d: Definition, lines: seq<Line>) {
    lines != [] && Peak(d, lines[..|lines| - 1], lines[|lines| - 1]) == LinesCost(lines)
  }

  /** A list whose lines cost at most one more than the limit does not fit it exactly when they cost one more and all of
      it is held at once. */
  lemma {:induction false} FullListDoesNotFit(d: Definition, lines: seq<Line>, limit: nat)
    requires d.body.List? && LinesCost(lines) <= limit + 1
    ensures !FitsTheLimit(d, lines, limit) <==> LinesCost(lines) == limit + 1 && NothingLetGo(d, lines)
  {
    hide LinesCost, Peak, Bytes;
    if lines == [] {
      NothingCosts();
      return;
    }
    var n := |lines| - 1;
    var init, l := lines[..n], lines[n];
    assert lines == init + [l];
    LinesCostSnoc(init, l);
    PeakCost(d, init, l);
    FitsSnoc(d, init, l, limit);
    forall i | 0 <= i < n ensures Peak(d, init[..i], init[i]) <= limit {
      PeakCost(d, init[..i], init[i]);
      assert init[..i] + [init[i]] == init[0..i + 1];
      SliceCost(init, 0, i + 1);
    }
  }
}
