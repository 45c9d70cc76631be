/**
 What becomes of the lines of a composite as they come: which parts a line belongs to is known once
 it has been seen, and a part whose region has closed reads the same lines however the input goes on.
 */
module CompositeFacts {
  import opened Lines
  import opened Json
  import opened Stages
  import opened Readings
  import opened ReadingFacts
  import opened ReaderFacts

  // ----- regions that have closed -----

  /** No further line is inside the region (region.done). */
  predicate Closed(sel: Select, lines: seq<Line>) {
    && Open(sel, lines)
    && (Stop(sel, lines) < |lines| || (sel.limit > 0 && |Region(sel, lines)| >= sel.limit))
  }

  lemma {:induction false} ClosedSnoc(sel: Select, lines: seq<Line>, l: Line)
    requires Closed(sel, lines)
    ensures Closed(sel, lines + [l]) && Region(sel, lines + [l]) == Region(sel, lines)
    ensures HeadingRead(sel, lines + [l]) == HeadingRead(sel, lines)
  {
    OpenSnoc(sel, lines, l);
    RegionSnoc(sel, lines, l);
    SpanSnoc(sel, lines, l);
  }

  lemma {:induction false} NothingIsSeen(sel: Select)
    ensures !Closed(sel, []) && HeadingAt(sel, []) == None && Region(sel, []) == []
    ensures Open(sel, []) ==> From(sel, []) == 0
  {
  }

  /** How an open region moves on with one more line. */
  lemma {:induction false} FollowsSnoc(sel: Select, lines: seq<Line>, l: Line)
    ensures
      var all := lines + [l];
      var role := RoleOf(sel, lines, l.text);
      if Closed(sel, lines) then Closed(sel, all) && role != Inside && role != Heading
      else if !Open(sel, lines) then
        && !Closed(sel, all) && Region(sel, all) == [] && Region(sel, lines) == []
        && role == (if sel.after.value(l.text) then Heading else Outside)
        && HeadingAt(sel, all).Some? == sel.after.value(l.text)
        && (Open(sel, all) ==> |all| == From(sel, all))
      else if sel.until.Some? && sel.until.value(l.text) then Closed(sel, all) && role == Closing
      else
        && HeadingAt(sel, all) == HeadingAt(sel, lines)
        && Open(sel, all) && From(sel, all) == From(sel, lines) <= |lines|
        && (role == Inside <==> |lines| - From(sel, lines) >= sel.skip)
        && (role == Inside || role == Outside)
        && |Region(sel, all)| == |Region(sel, lines)| + (if role == Inside then 1 else 0)
        && (Closed(sel, all) <==> sel.limit > 0 && |Region(sel, all)| >= sel.limit)
  {
    RegionSnoc(sel, lines, l);
    if Open(sel, lines) {
      OpenSnoc(sel, lines, l);
      if Closed(sel, lines) {
        ClosedSnoc(sel, lines, l);
      }
    } else {
      FirstMatchSnoc(sel.after.value, lines, l);
    }
  }

  lemma {:induction false} HeadingReadSnoc(sel: Select, lines: seq<Line>, l: Line)
    ensures HeadingRead(sel, lines + [l]) ==
      if RoleOf(sel, lines, l.text) == Heading && sel.heading(l.text) then HeadingRead(sel, lines) + {l.num}
      else HeadingRead(sel, lines)
    ensures RoleOf(sel, lines, l.text) == Heading ==> HeadingRead(sel, lines) == {}
  {
    SpanSnoc(sel, lines, l);
  }

  lemma {:induction false} PartLinesSnoc(p: Part, lines: seq<Line>, l: Line)
    ensures PartLines(p, lines + [l]) ==
      if RoleOf(p.sel, lines, l.text) == Inside && !MatchesAny(p.ignore, l.text)
      then PartLines(p, lines) + [l] else PartLines(p, lines)
  {
    hide Region, RoleOf, Keep;
    RegionSnoc(p.sel, lines, l);
    if RoleOf(p.sel, lines, l.text) == Inside {
      KeepSnoc(p.ignore, false, Region(p.sel, lines), l);
    }
  }

  lemma {:induction false} NothingIsKept(p: Part)
    ensures PartLines(p, []) == [] && HeadingRead(p.sel, []) == {}
  {
    assert Region(p.sel, []) == [];
  }

  lemma {:induction false} PartExtends(p: Part, lines: seq<Line>, more: seq<Line>)
    ensures PartLines(p, lines) <= PartLines(p, lines + more)
    ensures Closed(p.sel, lines) ==>
      PartLines(p, lines + more) == PartLines(p, lines) && Closed(p.sel, lines + more)
  {
    if more == [] {
      assert lines + more == lines;
    } else {
      var n := |more| - 1;
      assert lines + more == (lines + more[..n]) + [more[n]];
      PartExtends(p, lines, more[..n]);
      PartLinesSnoc(p, lines + more[..n], more[n]);
      if Closed(p.sel, lines) {
        ClosedSnoc(p.sel, lines + more[..n], more[n]);
      }
    }
  }

  // ----- ascending numbers -----

  /** Every number of `lines` is at most the number of `l`. */
  ghost predicate Before(numbers: set<nat>, n: nat) {
    forall m :: m in numbers ==> m < n
  }

  lemma {:induction false} AscendingSnoc(lines: seq<Line>, l: Line)
    requires Ascending(lines + [l])
    ensures Ascending(lines) && Before(Numbers(lines), l.num)
  {
    assert forall i :: 0 <= i < |lines| ==> (lines + [l])[i] == lines[i];
    assert (lines + [l])[|lines|] == l;
  }

  lemma {:induction false} AscendingAnd(lines: seq<Line>, l: Line)
    requires Ascending(lines) && Before(Numbers(lines), l.num)
    ensures Ascending(lines + [l])
  {
    assert forall i :: 0 <= i < |lines| ==> lines[i].num in Numbers(lines);
  }

  lemma {:induction false} PartAscending(p: Part, lines: seq<Line>)
    requires Ascending(lines)
    ensures Ascending(PartLines(p, lines))
    ensures Numbers(PartLines(p, lines)) <= Numbers(lines) && HeadingRead(p.sel, lines) <= Numbers(lines)
  {
    if lines != [] {
      var n := |lines| - 1;
      var init, l := lines[..n], lines[n];
      assert lines == init + [l];
      AscendingSnoc(init, l);
      PartAscending(p, init);
      PartLinesSnoc(p, init, l);
      NumbersConcat(init, [l]);
      NumbersConcat(PartLines(p, init), [l]);
      HeadingReadSnoc(p.sel, init, l);
      assert l.num in Numbers([l]) by { assert [l][0] == l; }
      if PartLines(p, lines) != PartLines(p, init) {
        AscendingAnd(PartLines(p, init), l);
      }
    } else {
      NothingIsKept(p);
    }
  }

  // ----- which parts a line belongs to -----

  /** A part, and whether it has been read. */
  datatype View = View(part: Part, read: bool)

  function Mine(p: Part, lines: seq<Line>): set<nat> {
    Numbers(PartLines(p, lines))
  }

  /** A part that is known to read the line: it opens its region with it, takes it line by line, or
      has been read and read it. */
  predicate AnsweredBy(v: View, lines: seq<Line>, num: nat) {
    || num in HeadingRead(v.part.sel, lines)
    || match v.part.body
       case ListPart(_) => num in Mine(v.part, lines)
       case SinglePart(_) =>
         v.read && PartResult(v.part, lines).Ok? && num in PartResult(v.part, lines).value.read
  }

  predicate Answered(vs: seq<View>, lines: seq<Line>, num: nat) {
    exists j :: 0 <= j < |vs| && AnsweredBy(vs[j], lines, num)
  }

  /** A part that has the line, yields one value and has not been read. */
  predicate Waits(v: View, lines: seq<Line>, num: nat) {
    v.part.body.SinglePart? && !v.read && num in Mine(v.part, lines)
  }

  function Pending(vs: seq<View>, lines: seq<Line>, num: nat): nat {
    if vs == [] then 0
    else Pending(vs[..|vs| - 1], lines, num) + if Waits(vs[|vs| - 1], lines, num) then 1 else 0
  }

  /** What became of a line only single-value parts took (fate). */
  datatype Fate = Fate(pending: nat, read: bool)

  /** Where one line stands: it waits for parts that are not read yet, and its fate says how many and
      whether one has answered for it, or none of them is left and it is read or says nothing. */
  predicate FateOf(fates: map<nat, Fate>, vs: seq<View>, lines: seq<Line>, l: Line) {
    var pending := Pending(vs, lines, l.num);
    if pending > 0 then l.num in fates && fates[l.num] == Fate(pending, Answered(vs, lines, l.num))
    else l.num !in fates && (Blank(l.text) || Answered(vs, lines, l.num))
  }

  ghost predicate Fates(fates: map<nat, Fate>, vs: seq<View>, lines: seq<Line>) {
    && fates.Keys <= Numbers(lines)
    && forall i :: 0 <= i < |lines| ==> FateOf(fates, vs, lines, lines[i])
  }

  /** What a line is to a part does not change when more lines come. */
  lemma {:induction false} MineSnoc(p: Part, lines: seq<Line>, l: Line, num: nat)
    requires Ascending(lines + [l]) && num in Numbers(lines)
    ensures num in Mine(p, lines + [l]) <==> num in Mine(p, lines)
    ensures num in HeadingRead(p.sel, lines + [l]) <==> num in HeadingRead(p.sel, lines)
  {
    AscendingSnoc(lines, l);
    PartLinesSnoc(p, lines, l);
    HeadingReadSnoc(p.sel, lines, l);
    NumbersConcat(PartLines(p, lines), [l]);
  }

  lemma {:induction false} MineExtends(p: Part, lines: seq<Line>, more: seq<Line>, num: nat)
    requires Ascending(lines + more) && num in Numbers(lines)
    ensures num in Mine(p, lines + more) <==> num in Mine(p, lines)
    ensures num in HeadingRead(p.sel, lines + more) <==> num in HeadingRead(p.sel, lines)
  {
    if more == [] {
      assert lines + more == lines;
    } else {
      var n := |more| - 1;
      assert lines + more == (lines + more[..n]) + [more[n]];
      AscendingSnoc(lines + more[..n], more[n]);
      NumbersConcat(lines, more[..n]);
      MineExtends(p, lines, more[..n], num);
      MineSnoc(p, lines + more[..n], more[n], num);
    }
  }

  /** What a new line is to a part. */
  lemma {:induction false} MineNew(p: Part, lines: seq<Line>, l: Line)
    requires Ascending(lines + [l])
    ensures
      var role := RoleOf(p.sel, lines, l.text);
      && (l.num in Mine(p, lines + [l]) <==> role == Inside && !MatchesAny(p.ignore, l.text))
      && (l.num in HeadingRead(p.sel, lines + [l]) <==> role == Heading && p.sel.heading(l.text))
  {
    AscendingSnoc(lines, l);
    PartAscending(p, lines);
    PartLinesSnoc(p, lines, l);
    HeadingReadSnoc(p.sel, lines, l);
    NumbersConcat(PartLines(p, lines), [l]);
    assert [l][0] == l;
  }

  /** A new line waits for the unread single-value parts that take it, and is answered for by the
      parts it opens and the list parts that take it. */
  lemma {:induction false} NewLine(v: View, lines: seq<Line>, l: Line)
    requires Ascending(lines + [l]) && (v.read ==> Closed(v.part.sel, lines))
    ensures
      var role := RoleOf(v.part.sel, lines, l.text);
      var took := role == Inside && !MatchesAny(v.part.ignore, l.text);
      var heading := role == Heading && v.part.sel.heading(l.text);
      && (v.read ==> !took && !heading)
      && (Waits(v, lines + [l], l.num) <==> v.part.body.SinglePart? && took)
      && (AnsweredBy(v, lines + [l], l.num) <==> heading || (v.part.body.ListPart? && took))
  {
    MineNew(v.part, lines, l);
    if v.read {
      FollowsSnoc(v.part.sel, lines, l);
      if v.part.body.SinglePart? && PartResult(v.part, lines + [l]).Ok? {
        PartReadsItsOwn(v.part, lines + [l]);
      }
    }
    hide RoleOf, MatchesAny, Mine, HeadingRead, PartResult, Closed;
  }

  // ----- a composite that is complete -----

  /** A part that reads what it is given: a list complete, or a value. */
  ghost predicate PartOk(p: Part, lines: seq<Line>) {
    match p.body
    case ListPart(k) => Complete(k, false, PartLines(p, lines))
    case SinglePart(_) => PartResult(p, lines).Ok?
  }

  predicate IsAPart(parts: seq<Part>, name: string) {
    exists j :: 0 <= j < |parts| && parts[j].name == name
  }

  /** What a part comes to as a list of values: its list, or its one value. */
  function PartValues(p: Part, lines: seq<Line>): seq<Json> {
    var own := PartLines(p, lines);
    match p.body
    case ListPart(k) => if ListResult(k, false, own).Ok? then ListResult(k, false, own).value.values else []
    case SinglePart(_) => if PartResult(p, lines).Ok? then [PartResult(p, lines).value.value] else []
  }

  /** The composite is read, every list part reads every line it is given, and every line that says
      something is read by a part. */
  ghost predicate CompositeComplete(parts: seq<Part>, lines: seq<Line>) {
    && (forall j :: 0 <= j < |parts| ==> PartOk(parts[j], lines))
    && CompositeRun(parts, lines).Ok? && Covers(CompositeRun(parts, lines).value.1, lines)
  }

  ghost predicate CompositeDead(parts: seq<Part>, lines: seq<Line>) {
    forall more: seq<Line> :: Ascending(lines + more) ==> !CompositeComplete(parts, lines + more)
  }

  /** The parts as they are when every one has been read. */
  function AllRead(parts: seq<Part>): (vs: seq<View>)
    ensures |vs| == |parts| && forall j :: 0 <= j < |parts| ==> vs[j] == View(parts[j], true)
  {
    if parts == [] then [] else AllRead(parts[..|parts| - 1]) + [View(parts[|parts| - 1], true)]
  }

  /** The part is read, and with it the line of this number. */
  predicate ReadBy(p: Part, lines: seq<Line>, num: nat) {
    || (PartResult(p, lines).Ok? && num in PartResult(p, lines).value.read)
    || num in HeadingRead(p.sel, lines)
  }

  predicate ReadByAny(parts: seq<Part>, lines: seq<Line>, num: nat) {
    exists j :: 0 <= j < |parts| && ReadBy(parts[j], lines, num)
  }

  lemma {:induction false} ReadByAnySnoc(parts: seq<Part>, p: Part, lines: seq<Line>, num: nat)
    ensures ReadByAny(parts + [p], lines, num) <==> ReadByAny(parts, lines, num) || ReadBy(p, lines, num)
  {
    hide ReadBy;
    var all := parts + [p];
    assert all[|parts|] == p;
    if ReadByAny(parts, lines, num) {
      var j :| 0 <= j < |parts| && ReadBy(parts[j], lines, num);
      assert all[j] == parts[j];
    }
  }

  lemma {:induction false} CompositeRuns(parts: seq<Part>, lines: seq<Line>)
    ensures CompositeRun(parts, lines).Ok? <==> forall j :: 0 <= j < |parts| ==> PartResult(parts[j], lines).Ok?
    ensures CompositeRun(parts, lines).Ok? ==>
      forall num :: num in CompositeRun(parts, lines).value.1 <==> ReadByAny(parts, lines, num)
  {
    hide PartResult, HeadingRead;
    if parts != [] {
      var n := |parts| - 1;
      var init := parts[..n];
      CompositeRuns(init, lines);
      assert parts == init + [parts[n]];
      if CompositeRun(parts, lines).Ok? {
        forall num ensures num in CompositeRun(parts, lines).value.1 <==> ReadByAny(parts, lines, num) {
          ReadByAnySnoc(init, parts[n], lines, num);
        }
      }
    }
  }

  /** For a line that says something, being read by a part is being answered for by it. */
  lemma {:induction false} AnsweredIsRead(p: Part, lines: seq<Line>, i: nat)
    requires Ascending(lines) && i < |lines| && !Blank(lines[i].text) && PartOk(p, lines)
    ensures AnsweredBy(View(p, true), lines, lines[i].num) <==> ReadBy(p, lines, lines[i].num)
  {
    var num := lines[i].num;
    if p.body.ListPart? && num in Mine(p, lines) {
      var own := PartLines(p, lines);
      var m :| 0 <= m < |own| && own[m].num == num;
      KeptAreLines(p, lines, m);
      SameNumberSameLine(lines, own[m], lines[i]);
    }
  }

  /** A line of a part is a line of the composite. */
  lemma {:induction false} KeptAreLines(p: Part, lines: seq<Line>, m: nat)
    requires m < |PartLines(p, lines)|
    ensures PartLines(p, lines)[m] in lines
  {
    NothingIsKept(p);
    hide PartLines, RoleOf;
    if lines != [] {
      var n := |lines| - 1;
      assert lines == lines[..n] + [lines[n]];
      PartLinesSnoc(p, lines[..n], lines[n]);
      if m < |PartLines(p, lines[..n])| {
        KeptAreLines(p, lines[..n], m);
      }
    }
  }

  lemma {:induction false} SameNumberSameLine(lines: seq<Line>, a: Line, b: Line)
    requires Ascending(lines) && a in lines && b in lines && a.num == b.num
    ensures a == b
  {
    var i :| 0 <= i < |lines| && lines[i] == a;
    var j :| 0 <= j < |lines| && lines[j] == b;
    assert !(i < j) && !(j < i);
  }

  // ----- fates -----

  lemma {:induction false} PendingMeansWaiting(vs: seq<View>, lines: seq<Line>, num: nat)
    ensures Pending(vs, lines, num) == 0 ==> forall j :: 0 <= j < |vs| ==> !Waits(vs[j], lines, num)
    ensures Pending(vs, lines, num) > 0 ==> exists j :: 0 <= j < |vs| && Waits(vs[j], lines, num)
  {
    hide Waits;
    if vs != [] {
      var n := |vs| - 1;
      var init := vs[..n];
      PendingMeansWaiting(init, lines, num);
      assert forall j :: 0 <= j < n ==> init[j] == vs[j];
    }
  }

  lemma {:induction false} PendingSnoc(vs: seq<View>, v: View, lines: seq<Line>, num: nat)
    ensures Pending(vs + [v], lines, num) == Pending(vs, lines, num) + if Waits(v, lines, num) then 1 else 0
  {
    assert (vs + [v])[..|vs|] == vs;
  }

  lemma {:induction false} AnsweredSnoc(vs: seq<View>, v: View, lines: seq<Line>, num: nat)
    ensures Answered(vs + [v], lines, num) <==> Answered(vs, lines, num) || AnsweredBy(v, lines, num)
  {
    hide AnsweredBy;
    var all := vs + [v];
    assert all[|vs|] == v;
    if Answered(vs, lines, num) {
      var j :| 0 <= j < |vs| && AnsweredBy(vs[j], lines, num);
      assert all[j] == vs[j];
    }
  }

  /** The parts as they stand agree about a line before and after the input grew. */
  lemma {:induction false} PendingSame(vs: seq<View>, lines: seq<Line>, longer: seq<Line>, num: nat)
    requires forall j :: 0 <= j < |vs| ==> Waits(vs[j], longer, num) == Waits(vs[j], lines, num)
    ensures Pending(vs, longer, num) == Pending(vs, lines, num)
  {
    if vs != [] {
      PendingSame(vs[..|vs| - 1], lines, longer, num);
    }
  }

  /** Reading part j settles one of the parts a line of it waits for. */
  lemma {:induction false} PendingRead(vs: seq<View>, j: nat, lines: seq<Line>, num: nat)
    requires j < |vs| && vs[j].part.body.SinglePart? && !vs[j].read
    ensures Pending(vs[j := View(vs[j].part, true)], lines, num) ==
      Pending(vs, lines, num) - if num in Mine(vs[j].part, lines) then 1 else 0
  {
    var n := |vs| - 1;
    var after := vs[j := View(vs[j].part, true)];
    if j < n {
      PendingRead(vs[..n], j, lines, num);
      assert after[..n] == vs[..n][j := View(vs[j].part, true)];
    } else {
      assert after[..n] == vs[..n];
    }
  }

  lemma {:induction false} AnsweredRead(vs: seq<View>, j: nat, lines: seq<Line>, num: nat)
    requires j < |vs| && vs[j].part.body.SinglePart? && !vs[j].read && PartResult(vs[j].part, lines).Ok?
    ensures Answered(vs[j := View(vs[j].part, true)], lines, num) <==>
      Answered(vs, lines, num) || num in PartResult(vs[j].part, lines).value.read
  {
    hide PartResult, HeadingRead, Mine;
    var after := vs[j := View(vs[j].part, true)];
    assert AnsweredBy(after[j], lines, num) <==>
      AnsweredBy(vs[j], lines, num) || num in PartResult(vs[j].part, lines).value.read;
    if Answered(vs, lines, num) {
      var k :| 0 <= k < |vs| && AnsweredBy(vs[k], lines, num);
      assert AnsweredBy(after[k], lines, num);
    }
    if Answered(after, lines, num) {
      var k :| 0 <= k < |after| && AnsweredBy(after[k], lines, num);
      assert k != j ==> AnsweredBy(vs[k], lines, num);
    }
  }

  /** What reading part j does to the fate of a line. */
  lemma {:induction false} FateRead(fates: map<nat, Fate>, vs: seq<View>, j: nat, lines: seq<Line>, l: Line)
    requires j < |vs| && vs[j].part.body.SinglePart? && !vs[j].read && PartResult(vs[j].part, lines).Ok?
    requires FateOf(fates, vs, lines, l)
    ensures
      var after := vs[j := View(vs[j].part, true)];
      var numbers := PartResult(vs[j].part, lines).value.read;
      if l.num !in Mine(vs[j].part, lines) then FateOf(fates, after, lines, l)
      else
        && l.num in fates && fates[l.num].pending > 0
        && var f := Fate(fates[l.num].pending - 1, fates[l.num].read || l.num in numbers);
           if f.pending > 0 then FateOf(fates[l.num := f], after, lines, l)
           else if f.read || Blank(l.text) then FateOf(fates - {l.num}, after, lines, l)
           else Pending(after, lines, l.num) == 0 && !Answered(after, lines, l.num)
  {
    PendingRead(vs, j, lines, l.num);
    AnsweredRead(vs, j, lines, l.num);
    hide Pending, Answered, PartResult, Mine;
    assert PartResult(vs[j].part, lines).value.read <= Mine(vs[j].part, lines) by {
      PartReadsItsOwn(vs[j].part, lines);
    }
  }

  lemma {:induction false} PartReadsItsOwn(p: Part, lines: seq<Line>)
    requires PartResult(p, lines).Ok?
    ensures PartResult(p, lines).value.read <= Mine(p, lines)
  {
  }

  /** The fate of one line says nothing about the others. */
  lemma {:induction false} FateFrame(fates: map<nat, Fate>, vs: seq<View>, lines: seq<Line>, l: Line, num: nat, f: Fate)
    requires FateOf(fates, vs, lines, l) && l.num != num
    ensures FateOf(fates[num := f], vs, lines, l) && FateOf(fates - {num}, vs, lines, l)
  {
  }

  /** Some line that says something waits for no part and is answered for by none. */
  ghost predicate Lost(vs: seq<View>, lines: seq<Line>) {
    exists i :: 0 <= i < |lines| && Gone(vs, lines, lines[i])
  }

  predicate Gone(vs: seq<View>, lines: seq<Line>, l: Line) {
    !Blank(l.text) && Pending(vs, lines, l.num) == 0 && !Answered(vs, lines, l.num)
  }

  /** The fates while a part is being read: the lines in `done` stand as they do after it. */
  ghost predicate Halfway(fates: map<nat, Fate>, vs: seq<View>, after: seq<View>, lines: seq<Line>, done: set<nat>) {
    && fates.Keys <= Numbers(lines)
    && forall i :: 0 <= i < |lines| ==> FateOf(fates, if lines[i].num in done then after else vs, lines, lines[i])
  }

  lemma {:induction false} HalfwayStep(fates: map<nat, Fate>, vs: seq<View>, j: nat, lines: seq<Line>, done: set<nat>, l: Line)
    requires j < |vs| && vs[j].part.body.SinglePart? && !vs[j].read && PartResult(vs[j].part, lines).Ok?
    requires Halfway(fates, vs, vs[j := View(vs[j].part, true)], lines, done)
    requires Ascending(lines) && l in lines && l.num !in done && l.num in Mine(vs[j].part, lines)
    ensures
      var after := vs[j := View(vs[j].part, true)];
      && l.num in fates && fates[l.num].pending > 0
      && var f := Fate(fates[l.num].pending - 1, fates[l.num].read || l.num in PartResult(vs[j].part, lines).value.read);
         if f.pending > 0 then Halfway(fates[l.num := f], vs, after, lines, done + {l.num})
         else if f.read || Blank(l.text) then Halfway(fates - {l.num}, vs, after, lines, done + {l.num})
         else Lost(after, lines)
  {
    hide FateOf, Pending, Answered, PartResult, Mine, Blank;
    var after := vs[j := View(vs[j].part, true)];
    var k :| 0 <= k < |lines| && lines[k] == l;
    assert FateOf(fates, vs, lines, l);
    FateRead(fates, vs, j, lines, l);
    var f := Fate(fates[l.num].pending - 1, fates[l.num].read || l.num in PartResult(vs[j].part, lines).value.read);
    forall i | 0 <= i < |lines| && i != k
      ensures
        var now := if lines[i].num in done + {l.num} then after else vs;
        FateOf(fates[l.num := f], now, lines, lines[i]) && FateOf(fates - {l.num}, now, lines, lines[i])
    {
      assert lines[i].num != l.num;
      FateFrame(fates, if lines[i].num in done then after else vs, lines, lines[i], l.num, f);
    }
  }

  lemma {:induction false} HalfwayEnds(fates: map<nat, Fate>, vs: seq<View>, j: nat, lines: seq<Line>)
    requires j < |vs| && vs[j].part.body.SinglePart? && !vs[j].read && PartResult(vs[j].part, lines).Ok?
    requires Halfway(fates, vs, vs[j := View(vs[j].part, true)], lines, Mine(vs[j].part, lines))
    ensures Fates(fates, vs[j := View(vs[j].part, true)], lines)
  {
    hide FateOf, Pending, Answered, PartResult, Mine, Blank;
    forall i | 0 <= i < |lines| ensures FateOf(fates, vs[j := View(vs[j].part, true)], lines, lines[i]) {
      if lines[i].num !in Mine(vs[j].part, lines) {
        assert FateOf(fates, vs, lines, lines[i]);
        FateRead(fates, vs, j, lines, lines[i]);
      }
    }
  }

  /** A list part is answered for from the start, so handing over its last record changes no fate. */
  lemma {:induction false} ListReadKeepsFates(fates: map<nat, Fate>, vs: seq<View>, j: nat, lines: seq<Line>)
    requires j < |vs| && vs[j].part.body.ListPart? && Fates(fates, vs, lines)
    ensures Fates(fates, vs[j := View(vs[j].part, true)], lines)
  {
    var after := vs[j := View(vs[j].part, true)];
    forall i | 0 <= i < |lines| ensures FateOf(fates, after, lines, lines[i]) {
      var num := lines[i].num;
      assert FateOf(fates, vs, lines, lines[i]);
      ListReadPending(vs, j, lines, num);
      assert Answered(after, lines, num) <==> Answered(vs, lines, num) by {
        hide PartResult, HeadingRead, Mine;
        assert AnsweredBy(after[j], lines, num) <==> AnsweredBy(vs[j], lines, num);
        if Answered(vs, lines, num) {
          var k :| 0 <= k < |vs| && AnsweredBy(vs[k], lines, num);
          assert AnsweredBy(after[k], lines, num);
        }
        if Answered(after, lines, num) {
          var k :| 0 <= k < |after| && AnsweredBy(after[k], lines, num);
          assert AnsweredBy(vs[k], lines, num);
        }
      }
    }
  }

  lemma {:induction false} ListReadPending(vs: seq<View>, j: nat, lines: seq<Line>, num: nat)
    requires j < |vs| && vs[j].part.body.ListPart?
    ensures Pending(vs[j := View(vs[j].part, true)], lines, num) == Pending(vs, lines, num)
  {
    var n := |vs| - 1;
    var after := vs[j := View(vs[j].part, true)];
    if j < n {
      ListReadPending(vs[..n], j, lines, num);
      assert after[..n] == vs[..n][j := View(vs[j].part, true)];
    } else {
      assert after[..n] == vs[..n];
    }
  }

  /** The parts that have been read have closed regions. */
  ghost predicate ReadAreClosed(vs: seq<View>, lines: seq<Line>) {
    forall j :: 0 <= j < |vs| && vs[j].read ==> Closed(vs[j].part.sel, lines)
  }

  /** A part has been read exactly when its region has closed. */
  ghost predicate ReadWhenClosed(vs: seq<View>, lines: seq<Line>) {
    forall j :: 0 <= j < |vs| ==> (vs[j].read <==> Closed(vs[j].part.sel, lines))
  }

  /** What a line waits for and who answers for it stay as they are when more lines come. */
  lemma {:induction false} LineStays(vs: seq<View>, lines: seq<Line>, more: seq<Line>, num: nat)
    requires Ascending(lines + more) && num in Numbers(lines) && ReadAreClosed(vs, lines)
    ensures Pending(vs, lines + more, num) == Pending(vs, lines, num)
    ensures Answered(vs, lines + more, num) == Answered(vs, lines, num)
  {
    forall j | 0 <= j < |vs|
      ensures Waits(vs[j], lines + more, num) == Waits(vs[j], lines, num)
      ensures AnsweredBy(vs[j], lines + more, num) == AnsweredBy(vs[j], lines, num)
    {
      MineExtends(vs[j].part, lines, more, num);
      PartExtends(vs[j].part, lines, more);
    }
    PendingSame(vs, lines, lines + more, num);
    hide AnsweredBy;
    if Answered(vs, lines, num) {
      var j :| 0 <= j < |vs| && AnsweredBy(vs[j], lines, num);
      assert AnsweredBy(vs[j], lines + more, num);
    }
  }

  /** A new line joins the ones seen: it waits for the single-value parts that took it. */
  lemma {:induction false} FatesSnoc(fates: map<nat, Fate>, vs: seq<View>, lines: seq<Line>, l: Line)
    requires Ascending(lines + [l]) && ReadAreClosed(vs, lines) && Fates(fates, vs, lines)
    requires Pending(vs, lines + [l], l.num) > 0 || Blank(l.text) || Answered(vs, lines + [l], l.num)
    ensures
      var pending := Pending(vs, lines + [l], l.num);
      var fates' := if pending > 0 then fates[l.num := Fate(pending, Answered(vs, lines + [l], l.num))] else fates;
      Fates(fates', vs, lines + [l])
  {
    hide Pending, Answered;
    var all := lines + [l];
    AscendingSnoc(lines, l);
    NumbersConcat(lines, [l]);
    assert [l][0] == l;
    var pending := Pending(vs, all, l.num);
    var fates' := if pending > 0 then fates[l.num := Fate(pending, Answered(vs, all, l.num))] else fates;
    assert l.num !in fates;
    forall i | 0 <= i < |all| ensures FateOf(fates', vs, all, all[i]) {
      if i < |lines| {
        assert all[i] == lines[i] && lines[i].num in Numbers(lines);
        LineStays(vs, lines, [l], lines[i].num);
        assert FateOf(fates, vs, lines, lines[i]);
      } else {
        assert all[i] == l;
      }
    }
  }

  // ----- what ends a composite -----

  /** A line that says something, waits for nothing and has not been answered for is read by no part. */
  lemma {:induction false} LineUnread(parts: seq<Part>, vs: seq<View>, lines: seq<Line>, i: nat)
    requires |vs| == |parts| && forall j :: 0 <= j < |parts| ==> vs[j].part == parts[j]
    requires i < |lines| && !Blank(lines[i].text)
    requires Pending(vs, lines, lines[i].num) == 0 && !Answered(vs, lines, lines[i].num)
    ensures !CompositeComplete(parts, lines)
  {
    var num := lines[i].num;
    if CompositeRun(parts, lines).Ok? {
      CompositeRuns(parts, lines);
      PendingMeansWaiting(vs, lines, num);
      forall j | 0 <= j < |parts| ensures !ReadBy(parts[j], lines, num) {
        assert !Waits(vs[j], lines, num) && !AnsweredBy(vs[j], lines, num);
      }
      assert !ReadByAny(parts, lines, num);
    }
  }

  lemma {:induction false} LineDead(parts: seq<Part>, vs: seq<View>, lines: seq<Line>, i: nat)
    requires |vs| == |parts| && forall j :: 0 <= j < |parts| ==> vs[j].part == parts[j]
    requires ReadAreClosed(vs, lines) && i < |lines| && !Blank(lines[i].text)
    requires Pending(vs, lines, lines[i].num) == 0 && !Answered(vs, lines, lines[i].num)
    ensures CompositeDead(parts, lines)
  {
    hide Pending, Answered, CompositeComplete;
    forall more: seq<Line> | Ascending(lines + more) ensures !CompositeComplete(parts, lines + more) {
      assert (lines + more)[i] == lines[i] && lines[i].num in Numbers(lines);
      LineStays(vs, lines, more, lines[i].num);
      LineUnread(parts, vs, lines + more, i);
    }
  }

  lemma {:induction false} LostIsUnread(parts: seq<Part>, vs: seq<View>, lines: seq<Line>)
    requires |vs| == |parts| && forall j :: 0 <= j < |parts| ==> vs[j].part == parts[j]
    requires Lost(vs, lines)
    ensures !CompositeComplete(parts, lines)
    ensures ReadAreClosed(vs, lines) ==> CompositeDead(parts, lines)
  {
    hide CompositeComplete, CompositeDead, Pending, Answered;
    var i :| 0 <= i < |lines| && Gone(vs, lines, lines[i]);
    LineUnread(parts, vs, lines, i);
    if ReadAreClosed(vs, lines) {
      LineDead(parts, vs, lines, i);
    }
  }

  /** A list part that has failed fails the composite. */
  lemma {:induction false} ListPartDead(parts: seq<Part>, j: nat, lines: seq<Line>)
    requires j < |parts| && parts[j].body.ListPart?
    requires Dead(parts[j].body.kind, false, PartLines(parts[j], lines))
    ensures CompositeDead(parts, lines)
  {
    var p := parts[j];
    forall more: seq<Line> | Ascending(lines + more) ensures !CompositeComplete(parts, lines + more) {
      PartExtends(p, lines, more);
      PartAscending(p, lines + more);
      var own, all := PartLines(p, lines), PartLines(p, lines + more);
      assert all == own + all[|own|..];
      assert !PartOk(p, lines + more);
    }
  }

  /** A part whose region has closed and that cannot be read fails the composite. */
  lemma {:induction false} ClosedPartDead(parts: seq<Part>, j: nat, lines: seq<Line>)
    requires j < |parts| && Closed(parts[j].sel, lines) && !PartOk(parts[j], lines)
    ensures CompositeDead(parts, lines)
  {
    forall more: seq<Line> ensures !CompositeComplete(parts, lines + more) {
      PartExtends(parts[j], lines, more);
      assert !PartOk(parts[j], lines + more);
    }
  }

  /** Once every part has been read, a composite with no line left waiting is complete. */
  lemma {:induction false} AllReadIsComplete(parts: seq<Part>, vs: seq<View>, fates: map<nat, Fate>, lines: seq<Line>)
    requires |vs| == |parts| && forall j :: 0 <= j < |parts| ==> vs[j] == View(parts[j], true)
    requires forall j :: 0 <= j < |parts| ==> PartOk(parts[j], lines)
    requires Ascending(lines) && Fates(fates, vs, lines)
    ensures CompositeComplete(parts, lines)
  {
    CompositeRuns(parts, lines);
    assert forall j :: 0 <= j < |parts| ==> PartOk(parts[j], lines) ==> PartResult(parts[j], lines).Ok?;
    var read := CompositeRun(parts, lines).value.1;
    forall i | 0 <= i < |lines| ensures Blank(lines[i].text) || lines[i].num in read {
      var num := lines[i].num;
      assert FateOf(fates, vs, lines, lines[i]);
      PendingMeansWaiting(vs, lines, num);
      if !Blank(lines[i].text) {
        var j :| 0 <= j < |vs| && AnsweredBy(vs[j], lines, num);
        AnsweredIsRead(parts[j], lines, i);
        assert ReadBy(parts[j], lines, num);
      }
    }
  }
}
