/**
 What a stream earns, stage by stage. Each stage is good when what it passes on makes the next one
 good; a stage that has failed has failed whatever lines follow; and a stream is good for the lines of
 an input exactly when the whole-document reader reads them.
 */
module StreamFacts {
  import opened Lines
  import opened Json
  import opened Stages
  import opened Readings
  import opened ReadingFacts
  import opened ReaderFacts
  import opened CompositeFacts

  // ----- good, stage by stage -----

  ghost predicate BodyComplete(body: Body, lines: seq<Line>) {
    match body
    case List(k) => Complete(k, true, lines)
    case Composite(parts) => CompositeComplete(parts, lines)
  }

  ghost predicate SelectedOk(d: Definition, kept: seq<Line>) {
    LeavesNothing(d.sel, kept) && BodyComplete(d.body, Region(d.sel, kept))
  }

  ghost predicate PreparedOk(d: Definition, folded: seq<Line>) {
    SelectedOk(d, Prepared(d.ignore, d.skipBlank, folded))
  }

  ghost predicate FoldedOk(d: Definition, records: seq<Line>) {
    Folded(d.fold, records).Ok? && PreparedOk(d, Folded(d.fold, records).value)
  }

  ghost predicate InputOk(d: Definition, lines: seq<Line>) {
    FoldedOk(d, Grouped(d, lines))
  }

  // ----- failed for good, stage by stage -----

  ghost predicate BodyDead(body: Body, lines: seq<Line>) {
    forall more: seq<Line> :: Ascending(lines + more) ==> !BodyComplete(body, lines + more)
  }

  ghost predicate SelectedDead(d: Definition, kept: seq<Line>) {
    forall more: seq<Line> :: Ascending(kept + more) ==> !SelectedOk(d, kept + more)
  }

  ghost predicate PreparedDead(d: Definition, folded: seq<Line>) {
    forall more: seq<Line> :: Ascending(folded + more) ==> !PreparedOk(d, folded + more)
  }

  ghost predicate FoldedDead(d: Definition, records: seq<Line>) {
    forall more: seq<Line> :: Ascending(records + more) ==> !FoldedOk(d, records + more)
  }

  ghost predicate InputDead(d: Definition, lines: seq<Line>) {
    forall more: seq<Line> :: Ascending(lines + more) ==> !InputOk(d, lines + more)
  }

  // ----- numbers stay ascending -----

  /** Every number of `some` is one of `all`, in the same order. */
  lemma {:induction false} SliceAscending(lines: seq<Line>, lo: nat, hi: nat)
    requires Ascending(lines) && lo <= hi <= |lines|
    ensures Ascending(lines[lo..hi]) && Numbers(lines[lo..hi]) <= Numbers(lines)
  {
    assert forall i :: 0 <= i < hi - lo ==> lines[lo..hi][i] == lines[lo + i];
  }

  lemma {:induction false} KeepAscending(ignore: seq<Regex>, skipBlank: bool, lines: seq<Line>)
    requires Ascending(lines)
    ensures Ascending(Keep(ignore, skipBlank, lines)) && Numbers(Keep(ignore, skipBlank, lines)) <= Numbers(lines)
  {
    if lines != [] {
      var n := |lines| - 1;
      assert lines == lines[..n] + [lines[n]];
      AscendingSnoc(lines[..n], lines[n]);
      KeepAscending(ignore, skipBlank, lines[..n]);
      NumbersConcat(lines[..n], [lines[n]]);
      NumbersConcat(Keep(ignore, skipBlank, lines[..n]), [lines[n]]);
      if Kept(ignore, skipBlank, lines[n].text) {
        AscendingAnd(Keep(ignore, skipBlank, lines[..n]), lines[n]);
      }
    }
  }

  lemma {:induction false} PreparedAscending(ignore: seq<Regex>, skipBlank: bool, lines: seq<Line>)
    requires Ascending(lines)
    ensures Ascending(Prepared(ignore, skipBlank, lines))
  {
    hide Ascending, Keep;
    var text := FromText(skipBlank, lines);
    SliceAscending(lines, Lead(skipBlank, lines), |lines|);
    SliceAscending(text, 0, Trail(skipBlank, text));
    KeepAscending(ignore, skipBlank, text[..Trail(skipBlank, text)]);
  }

  lemma {:induction false} RegionAscending(sel: Select, lines: seq<Line>)
    requires Ascending(lines)
    ensures Ascending(Region(sel, lines)) && Numbers(Region(sel, lines)) <= Numbers(lines)
  {
    var s := SpanOf(sel, lines);
    SliceAscending(lines, s.lo, s.hi);
  }

  /** Folded lines carry the numbers of lines, in their order. */
  lemma {:induction false} FoldedAscending(fold: Regex, lines: seq<Line>)
    requires Ascending(lines) && Foldings(fold, lines).Ok?
    ensures Ascending(JoinedAll(Foldings(fold, lines).value))
    ensures Numbers(JoinedAll(Foldings(fold, lines).value)) <= Numbers(lines)
  {
    if lines != [] {
      var n := |lines| - 1;
      var init, l := lines[..n], lines[n];
      assert lines == init + [l];
      AscendingSnoc(init, l);
      FoldedAscending(fold, init);
      var before, after := Foldings(fold, init).value, Foldings(fold, lines).value;
      NumbersConcat(init, [l]);
      NumbersConcat(JoinedAll(before), [Joined(Folding([l.text], l.num))]);
      if fold(l.text) {
        var m := |before| - 1;
        assert forall i :: 0 <= i < |before| ==> JoinedAll(after)[i].num == JoinedAll(before)[i].num;
        SameNumbers(JoinedAll(before), JoinedAll(after));
      } else {
        assert JoinedAll(after) == JoinedAll(before) + [Joined(Folding([l.text], l.num))];
        AscendingAnd(JoinedAll(before), Joined(Folding([l.text], l.num)));
      }
    }
  }

  lemma {:induction false} SameNumbers(a: seq<Line>, b: seq<Line>)
    requires |a| == |b| && forall i :: 0 <= i < |a| ==> a[i].num == b[i].num
    ensures Numbers(a) == Numbers(b) && (Ascending(a) <==> Ascending(b))
  {
    forall n ensures n in Numbers(a) <==> n in Numbers(b) {
      if n in Numbers(a) {
        var i :| 0 <= i < |a| && a[i].num == n;
        assert b[i].num == n;
      }
      if n in Numbers(b) {
        var i :| 0 <= i < |b| && b[i].num == n;
        assert a[i].num == n;
      }
    }
  }

  /** Records carry the numbers of lines, in their order. */
  lemma {:induction false} RecordsAscending(delim: char, lines: seq<Line>)
    requires Ascending(lines)
    ensures
      var g := Group(delim, lines);
      && Ascending(g.records) && Numbers(g.records) <= Numbers(lines)
      && (g.pieces != [] ==> g.num in Numbers(lines) && Before(Numbers(g.records), g.num))
      && Ascending(Records(delim, lines)) && Numbers(Records(delim, lines)) <= Numbers(lines)
  {
    if lines != [] {
      var n := |lines| - 1;
      var init, l := lines[..n], lines[n];
      assert lines == init + [l];
      AscendingSnoc(init, l);
      RecordsAscending(delim, init);
      GroupSnoc(delim, init, l);
      var before, after := Group(delim, init), Group(delim, lines);
      NumbersConcat(init, [l]);
      assert [l][0] == l && l.num in Numbers([l]);
      if after.pieces == [] {
        var rec := after.records[|before.records|];
        AscendingAnd(before.records, rec);
        NumbersConcat(before.records, [rec]);
      }
    }
    var g := Group(delim, lines);
    if g.pieces != [] {
      AscendingAnd(g.records, Record(g.pieces, g.num));
      NumbersConcat(g.records, [Record(g.pieces, g.num)]);
    }
  }

  // ----- what a stage has passed on for good -----

  /** The folded lines no further record can change: all but the last, which a fold may still join. */
  function Released(fold: Option<Regex>, records: seq<Line>): seq<Line> {
    if fold.None? then records
    else
      var fs := Foldings(fold.value, records);
      if fs.Refused? || fs.value == [] then [] else JoinedAll(fs.value[..|fs.value| - 1])
  }

  /** The records no further line can change. */
  function Settled(d: Definition, lines: seq<Line>): seq<Line> {
    if d.body.List? && d.body.kind.Csv? then Group(d.body.kind.csv.delim, lines).records else lines
  }

  lemma {:induction false} JoinedAllExtends(fs: seq<Folding>, more: seq<Folding>)
    requires fs <= more
    ensures JoinedAll(fs) <= JoinedAll(more)
  {
    assert forall i :: 0 <= i < |fs| ==> JoinedAll(fs)[i] == JoinedAll(more)[i];
  }

  lemma {:induction false} ReleasedExtends(fold: Option<Regex>, records: seq<Line>, more: seq<Line>)
    requires Folded(fold, records + more).Ok?
    ensures Released(fold, records) <= Folded(fold, records + more).value
  {
    if fold.Some? {
      FoldingsExtend(fold.value, records, more);
      var fs := Foldings(fold.value, records);
      if fs.Ok? && fs.value != [] {
        JoinedAllExtends(fs.value[..|fs.value| - 1], Foldings(fold.value, records + more).value);
      }
    }
  }

  /** What one more record does to a fold. */
  lemma {:induction false} ReleasedSnoc(fold: Regex, records: seq<Line>, l: Line)
    requires Foldings(fold, records).Ok?
    ensures
      var fs := Foldings(fold, records).value;
      var all := records + [l];
      if !fold(l.text) then
        && Foldings(fold, all) == Ok(fs + [Folding([l.text], l.num)])
        && Released(Some(fold), all) == JoinedAll(fs)
        && JoinedAll(fs) == (if fs == [] then Released(Some(fold), records)
                             else Released(Some(fold), records) + [Joined(fs[|fs| - 1])])
      else if fs == [] || Blank(fs[|fs| - 1].pieces[0]) then Folded(Some(fold), all).Refused?
      else
        var last := fs[|fs| - 1];
        && Foldings(fold, all) == Ok(fs[..|fs| - 1] + [last.(pieces := last.pieces + [TrimSpace(l.text)])])
        && Released(Some(fold), all) == Released(Some(fold), records)
  {
    FoldingsSnoc(fold, records, l);
    var fs := Foldings(fold, records).value;
    assert (fs + [Folding([l.text], l.num)])[..|fs|] == fs;
  }

  lemma {:induction false} FoldedKeepsAscending(fold: Option<Regex>, records: seq<Line>)
    requires Ascending(records) && Folded(fold, records).Ok?
    ensures Ascending(Folded(fold, records).value)
  {
    if fold.Some? {
      FoldedAscending(fold.value, records);
    }
  }

  // ----- a failure downstream is a failure upstream -----

  lemma {:induction false} LeftOutDies(d: Definition, kept: seq<Line>)
    requires !LeavesNothing(d.sel, kept)
    ensures SelectedDead(d, kept)
  {
    forall more: seq<Line> ensures !SelectedOk(d, kept + more) {
      SelectExtends(d.sel, kept, more);
    }
  }

  lemma {:induction false} BodyDies(d: Definition, kept: seq<Line>)
    requires BodyDead(d.body, Region(d.sel, kept))
    ensures SelectedDead(d, kept)
  {
    hide Region, BodyComplete, LeavesNothing, Ascending;
    forall more: seq<Line> | Ascending(kept + more) ensures !SelectedOk(d, kept + more) {
      SelectExtends(d.sel, kept, more);
      RegionAscending(d.sel, kept + more);
      var r, r' := Region(d.sel, kept), Region(d.sel, kept + more);
      assert r' == r + r'[|r|..];
    }
  }

  lemma {:induction false} SelectedDies(d: Definition, kept: seq<Line>, folded: seq<Line>)
    requires SelectedDead(d, kept) && kept <= Prepared(d.ignore, d.skipBlank, folded)
    ensures PreparedDead(d, folded)
  {
    hide Prepared, SelectedOk, Ascending;
    forall more: seq<Line> | Ascending(folded + more) ensures !PreparedOk(d, folded + more) {
      PreparedExtends(d.ignore, d.skipBlank, folded, more);
      PreparedAscending(d.ignore, d.skipBlank, folded + more);
      var all := Prepared(d.ignore, d.skipBlank, folded + more);
      assert all == kept + all[|kept|..];
    }
  }

  lemma {:induction false} FoldDies(d: Definition, records: seq<Line>)
    requires Folded(d.fold, records).Refused?
    ensures FoldedDead(d, records)
  {
    forall more: seq<Line> ensures !FoldedOk(d, records + more) {
      FoldingsExtend(d.fold.value, records, more);
    }
  }

  lemma {:induction false} PreparedDies(d: Definition, folded: seq<Line>, records: seq<Line>)
    requires PreparedDead(d, folded) && folded <= Released(d.fold, records)
    ensures FoldedDead(d, records)
  {
    hide Released, PreparedOk, Folded, Ascending;
    forall more: seq<Line> | Ascending(records + more) ensures !FoldedOk(d, records + more) {
      if Folded(d.fold, records + more).Ok? {
        ReleasedExtends(d.fold, records, more);
        FoldedKeepsAscending(d.fold, records + more);
        var all := Folded(d.fold, records + more).value;
        assert all == folded + all[|folded|..];
      }
    }
  }

  lemma {:induction false} FoldedDies(d: Definition, records: seq<Line>, lines: seq<Line>)
    requires FoldedDead(d, records) && records <= Settled(d, lines)
    ensures InputDead(d, lines)
  {
    hide FoldedOk, Ascending, Group, Records;
    forall more: seq<Line> | Ascending(lines + more) ensures !InputOk(d, lines + more) {
      var all := Grouped(d, lines + more);
      if d.body.List? && d.body.kind.Csv? {
        RecordsExtend(d.body.kind.csv.delim, lines, more);
        RecordsAscending(d.body.kind.csv.delim, lines + more);
      }
      assert all == records + all[|records|..];
    }
  }

  // ----- a stage that has failed is not good -----

  lemma {:induction false} DeadIsNotOk(d: Definition, kept: seq<Line>, folded: seq<Line>, records: seq<Line>)
    ensures Ascending(kept) && SelectedDead(d, kept) ==> !SelectedOk(d, kept)
    ensures Ascending(folded) && PreparedDead(d, folded) ==> !PreparedOk(d, folded)
    ensures Ascending(records) && FoldedDead(d, records) ==> !FoldedOk(d, records)
  {
    hide SelectedOk, PreparedOk, FoldedOk, Ascending;
    assert kept + [] == kept && folded + [] == folded && records + [] == records;
  }

  // ----- good for a stream is read by the whole-document reader -----

  lemma {:induction false} BodyReadsItsLines(body: Body, lines: seq<Line>)
    requires Ascending(lines) && BodyResult(body, lines).Ok?
    ensures BodyResult(body, lines).value.read <= Numbers(lines)
  {
    hide ListResult, CompositeRun, Numbers;
    match body
    case List(k) => ListReadsItsLines(k, true, lines);
    case Composite(parts) => PartsReadTheirLines(parts, lines);
  }

  /** A list reads none but its lines. */
  lemma {:induction false} ListReadsItsLines(k: ListKind, grouped: bool, lines: seq<Line>)
    ensures ListResult(k, grouped, lines).Ok? ==> ListResult(k, grouped, lines).value.read <= Numbers(lines)
  {
    hide PerLineRun, TableRun, CsvRun, BoxResult, BlocksOf, BlocksRun, Flatten, Numbers;
    if k.Blocks? && ListResult(k, grouped, lines).Ok? {
      BlocksFlatten(k.start, lines);
      BlocksReadTheirLines(k.block, BlocksOf(k.start, lines).value);
    }
  }

  lemma {:induction false} BlocksReadTheirLines(reader: BlockReader, blocks: seq<seq<Line>>)
    requires BlocksRun(reader, blocks).Ok?
    ensures BlocksRun(reader, blocks).value.read <= Numbers(Flatten(blocks))
  {
    if blocks != [] {
      var n := |blocks| - 1;
      BlocksReadTheirLines(reader, blocks[..n]);
      NumbersConcat(Flatten(blocks[..n]), blocks[n]);
    }
  }

  lemma {:induction false} PartsReadTheirLines(parts: seq<Part>, lines: seq<Line>)
    requires Ascending(lines) && CompositeRun(parts, lines).Ok?
    ensures CompositeRun(parts, lines).value.1 <= Numbers(lines)
  {
    hide PartResult, HeadingRead, Numbers, Ascending;
    if parts != [] {
      var n := |parts| - 1;
      PartsReadTheirLines(parts[..n], lines);
      PartReadsItsOwn(parts[n], lines);
      PartAscending(parts[n], lines);
    }
  }

  /** A number of the region is the number of no line outside it. */
  lemma {:induction false} InsideByNumber(sel: Select, lines: seq<Line>, i: nat)
    requires Ascending(lines) && i < |lines|
    ensures lines[i].num in Numbers(Region(sel, lines)) <==> SpanOf(sel, lines).lo <= i < SpanOf(sel, lines).hi
  {
    hide SpanOf;
    var s := SpanOf(sel, lines);
    var r := Region(sel, lines);
    if lines[i].num in Numbers(r) {
      var m :| 0 <= m < |r| && r[m].num == lines[i].num;
      SameNumberSameIndex(lines, s.lo + m, i);
    }
    if s.lo <= i < s.hi {
      assert r[i - s.lo] == lines[i];
    }
  }

  lemma {:induction false} SameNumberSameIndex(lines: seq<Line>, i: nat, j: nat)
    requires Ascending(lines) && i < |lines| && j < |lines| && lines[i].num == lines[j].num
    ensures i == j
  {
    assert !(i < j) && !(j < i);
  }

  /** The lines a selection states in full are outside its region. */
  lemma {:induction false} StatedByNumber(sel: Select, lines: seq<Line>, i: nat)
    requires Ascending(lines) && i < |lines|
    ensures
      var s := SpanOf(sel, lines);
      && (lines[i].num in HeadingRead(sel, lines) <==> s.heading == Some(i) && sel.heading(lines[i].text))
      && (lines[i].num in EndRead(sel, lines) <==> s.end == Some(i) && sel.end(lines[i].text))
      && (s.heading == Some(i) || s.end == Some(i) ==> !(s.lo <= i < s.hi))
  {
    var s := SpanOf(sel, lines);
    if s.heading.Some? && lines[s.heading.value].num == lines[i].num {
      SameNumberSameIndex(lines, s.heading.value, i);
    }
    if s.end.Some? && lines[s.end.value].num == lines[i].num {
      SameNumberSameIndex(lines, s.end.value, i);
    }
  }

  /** The account of the whole-document reader is the two rules of a stream: nothing is left out of the
      selection, and everything in it is read. */
  lemma {:induction false} AccountIsLocal(sel: Select, lines: seq<Line>, read: set<nat>)
    requires Ascending(lines) && read <= Numbers(Region(sel, lines))
    ensures Covers(read + HeadingRead(sel, lines) + EndRead(sel, lines), lines) <==>
      LeavesNothing(sel, lines) && Covers(read, Region(sel, lines))
  {
    hide SpanOf, HeadingRead, EndRead, Blank, Ascending;
    var s := SpanOf(sel, lines);
    var r := Region(sel, lines);
    var all := read + HeadingRead(sel, lines) + EndRead(sel, lines);
    forall i | 0 <= i < |lines|
      ensures (Blank(lines[i].text) || lines[i].num in all) <==>
        !LeftUnread(sel, lines, i) && (s.lo <= i < s.hi ==> Blank(lines[i].text) || lines[i].num in read)
    {
      InsideByNumber(sel, lines, i);
      StatedByNumber(sel, lines, i);
    }
    assert Covers(read, r) <==> forall i :: s.lo <= i < s.hi ==> Blank(lines[i].text) || lines[i].num in read by {
      assert forall m :: 0 <= m < |r| ==> r[m] == lines[s.lo + m];
      assert forall i :: s.lo <= i < s.hi ==> r[i - s.lo] == lines[i];
    }
  }

  /** A records part that is read leaves none of its lines for a sibling to read. */
  predicate KeepsItsLines(p: Part, lines: seq<Line>) {
    p.body.ListPart? && p.body.kind.Blocks? ==>
      var own := PartLines(p, lines);
      var r := ListResult(p.body.kind, false, own);
      r.Ok? ==> Covers(r.value.read, own)
  }

  predicate AllKeepTheirLines(body: Body, lines: seq<Line>) {
    body.Composite? ==> forall j :: 0 <= j < |body.parts| ==> KeepsItsLines(body.parts[j], lines)
  }

  lemma {:induction false} PartIsOk(p: Part, lines: seq<Line>)
    ensures PartOk(p, lines) <==> PartResult(p, lines).Ok? && KeepsItsLines(p, lines)
  {
    if p.body.ListPart? && !p.body.kind.Blocks? {
      WholeIsComplete(p.body.kind, false, PartLines(p, lines));
    }
  }

  lemma {:induction false} BodyIsComplete(body: Body, lines: seq<Line>)
    ensures BodyComplete(body, lines) <==>
      && BodyResult(body, lines).Ok? && Covers(BodyResult(body, lines).value.read, lines)
      && AllKeepTheirLines(body, lines)
  {
    if body.Composite? {
      hide PartOk, KeepsItsLines, PartResult, Covers;
      CompositeRuns(body.parts, lines);
      forall j | 0 <= j < |body.parts|
        ensures PartOk(body.parts[j], lines) <==> PartResult(body.parts[j], lines).Ok? && KeepsItsLines(body.parts[j], lines)
      {
        PartIsOk(body.parts[j], lines);
      }
    }
  }

  lemma {:induction false} SelectedIsAccounted(d: Definition, kept: seq<Line>)
    requires Ascending(kept)
    ensures SelectedOk(d, kept) <==> Accounted(d, kept).Ok? && AllKeepTheirLines(d.body, Region(d.sel, kept))
  {
    hide AllKeepTheirLines, BodyResult, BodyComplete, Region, Covers, LeavesNothing, HeadingRead, EndRead;
    var r := Region(d.sel, kept);
    RegionAscending(d.sel, kept);
    BodyIsComplete(d.body, r);
    if BodyResult(d.body, r).Ok? {
      BodyReadsItsLines(d.body, r);
      AccountIsLocal(d.sel, kept, BodyResult(d.body, r).value.read);
    }
  }

  /** The lines the whole-document reader hands to its parser. */
  function Selected(d: Definition, lines: seq<Line>): seq<Line> {
    var folded := Folded(d.fold, Grouped(d, lines));
    if folded.Refused? then [] else Region(d.sel, Prepared(d.ignore, d.skipBlank, folded.value))
  }

  /** A stream is good for the lines of an input exactly when the whole-document reader reads them and no
      records part leaves a line of its own for a sibling to read. */
  lemma {:induction false} StreamsWhatParses(d: Definition, lines: seq<Line>)
    requires Ascending(lines)
    ensures InputOk(d, lines) <==> Parsed(d, lines).Ok? && AllKeepTheirLines(d.body, Selected(d, lines))
    ensures InputOk(d, lines) ==>
      BodyResult(d.body, Selected(d, lines)).Ok?
      && Parsed(d, lines) == Ok(BodyResult(d.body, Selected(d, lines)).value.value)
  {
    hide AllKeepTheirLines, SelectedOk, BodyResult, Prepared, Region, Folded, Records, Covers;
    var records := Grouped(d, lines);
    if d.body.List? && d.body.kind.Csv? {
      RecordsAscending(d.body.kind.csv.delim, lines);
    }
    if Folded(d.fold, records).Ok? {
      var folded := Folded(d.fold, records).value;
      FoldedKeepsAscending(d.fold, records);
      PreparedAscending(d.ignore, d.skipBlank, folded);
      SelectedIsAccounted(d, Prepared(d.ignore, d.skipBlank, folded));
    }
  }

  /** The object of a composite has a member per part, in the order of the parts. */
  lemma {:induction false} MembersAreParts(parts: seq<Part>, lines: seq<Line>)
    requires forall i, j :: 0 <= i < j < |parts| ==> parts[i].name != parts[j].name
    requires CompositeRun(parts, lines).Ok?
    ensures
      var members := CompositeRun(parts, lines).value.0;
      && |members| == |parts|
      && forall j :: 0 <= j < |parts| ==>
           PartResult(parts[j], lines).Ok? && members[j] == Member(parts[j].name, PartResult(parts[j], lines).value.value)
  {
    hide PartResult, HeadingRead;
    if parts != [] {
      var n := |parts| - 1;
      MembersAreParts(parts[..n], lines);
      var before := CompositeRun(parts[..n], lines).value.0;
      assert forall j :: 0 <= j < n ==> before[j].key == parts[j].name;
      assert Find(before, parts[n].name) == |before|;
    }
  }
}