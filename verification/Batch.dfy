/**
 The whole-document reader (pkg/engine/engine.go): a pipeline of loops over lists of lines, and a ledger
 of which lines the parsers read. Every loop computes the function of the same stage, and a result comes
 back only when the ledger accounts for every line.
 */
module Batch {
  import opened Lines
  import opened Json
  import opened Stages
  import opened Forest
  import opened Readings
  import opened ReadingFacts
  import opened CompositeFacts
  import opened StreamFacts
  import opened Pipeline
  import opened Parsers

  // ----- the ledger -----

  /** Which of the lines handed to the parsers were read. It covers the numbers from the first line to the
      last. */
  class Ledger {
    const base: nat
    const read: array<bool>

    ghost function Marked(): set<nat>
      reads this, read
    {
      set i | 0 <= i < read.Length && read[i] :: base + i
    }

    predicate InRange(num: nat) {
      base <= num < base + read.Length
    }

    constructor (lines: seq<Line>)
      requires Ascending(lines)
      ensures fresh(read) && Marked() == {}
      ensures forall i :: 0 <= i < |lines| ==> InRange(lines[i].num)
    {
      base := if lines == [] then 0 else lines[0].num;
      read := new bool[if lines == [] then 0 else lines[|lines| - 1].num - lines[0].num + 1](_ => false);
      new;
      assert forall i :: 0 < i < |lines| ==> lines[0].num < lines[i].num;
      assert forall i :: 0 <= i < |lines| - 1 ==> lines[i].num < lines[|lines| - 1].num;
    }

    predicate IsRead(num: nat)
      reads this, read
      ensures IsRead(num) <==> num in Marked()
    {
      assert InRange(num) && read[num - base] ==> base + (num - base) in Marked();
      InRange(num) && read[num - base]
    }

    method MarkOne(l: Line)
      modifies read
      ensures Marked() == old(Marked()) + if InRange(l.num) then {l.num} else {}
    {
      if InRange(l.num) {
        ghost var before := Marked();
        read[l.num - base] := true;
        forall n ensures n in Marked() <==> n in before || n == l.num {
          if n in Marked() {
            var i :| 0 <= i < read.Length && read[i] && base + i == n;
          }
          if n in before {
            var i :| 0 <= i < read.Length && old(read[i]) && base + i == n;
            assert read[i];
          }
          assert read[l.num - base];
        }
      }
    }

    /** Mark the lines whose numbers a reading has read. */
    method Mark(lines: seq<Line>, numbers: set<nat>)
      requires forall i :: 0 <= i < |lines| ==> InRange(lines[i].num)
      modifies read
      ensures Marked() == old(Marked()) + Numbers(lines) * numbers
    {
      for k := 0 to |lines|
        invariant Marked() == old(Marked()) + Numbers(lines[..k]) * numbers
      {
        assert lines[..k + 1] == lines[..k] + [lines[k]];
        NumbersConcat(lines[..k], [lines[k]]);
        NumberOfOne(lines[k]);
        if lines[k].num in numbers {
          MarkOne(lines[k]);
        }
      }
      assert lines[..|lines|] == lines;
    }

    /** Whether some line that says something was not read (unread). */
    method Unread(lines: seq<Line>) returns (some: bool)
      ensures some == !Covers(Marked(), lines)
    {
      some := false;
      for k := 0 to |lines|
        invariant some == !Covers(Marked(), lines[..k])
      {
        assert lines[..k + 1] == lines[..k] + [lines[k]];
        if !IsRead(lines[k].num) && !Blank(lines[k].text) {
          some := true;
          assert lines[..k + 1][k] == lines[k];
        }
      }
      assert lines[..|lines|] == lines;
    }
  }

  lemma {:induction false} NumberOfOne(l: Line)
    ensures Numbers([l]) == {l.num}
  {
    assert [l][0] == l;
  }

  // ----- the parsers, and what they mark -----

  /** Every one of these lines is in the ledger's range. */
  predicate Reaches(ledger: Ledger, lines: seq<Line>) {
    forall i :: 0 <= i < |lines| ==> ledger.InRange(lines[i].num)
  }

  /** parseRecords: each record is read by itself, and marks the lines it reads. */
  method ParseRecords(start: Regex, block: BlockReader, lines: seq<Line>, ledger: Ledger) returns (r: Outcome<seq<Json>>)
    requires Reaches(ledger, lines)
    modifies ledger.read
    ensures
      var blocks := BlocksOf(start, lines);
      var run := if blocks.Refused? then Refused else BlocksRun(block, blocks.value);
      && r == (if run.Refused? then Refused else Ok(run.value.values))
      && (run.Ok? ==> ledger.Marked() == old(ledger.Marked()) + run.value.read)
  {
    hide BlocksRun, BlocksOf;
    var groups := CutRecords(start, lines);
    if groups.Refused? {
      return Refused;
    }
    var blocks := groups.value;
    BlocksFlatten(start, lines);
    var out := [];
    NoBlocks(block);
    assert blocks[..|blocks|] == blocks && blocks[..0] == [];
    for k := 0 to |blocks|
      invariant BlocksRun(block, blocks[..k]).Ok? && BlocksRun(block, blocks[..k]).value.values == out
      invariant ledger.Marked() == old(ledger.Marked()) + BlocksRun(block, blocks[..k]).value.read
    {
      At(blocks, k);
      BlocksRunSnoc(block, blocks[..k], blocks[k]);
      var v := block(blocks[k]);
      if v.Refused? {
        BlocksRunFails(block, blocks, k);
        return Refused;
      }
      BlockReaches(ledger, blocks, k);
      ledger.Mark(blocks[k], v.value.read);
      out := out + [v.value.value];
    }
    return Ok(out);
  }

  lemma {:induction false} NoBlocks(block: BlockReader)
    ensures BlocksRun(block, []) == Ok(ListOut([], {}))
  {
  }

  lemma {:induction false} BlockReaches(ledger: Ledger, blocks: seq<seq<Line>>, k: nat)
    requires k < |blocks| && Reaches(ledger, Flatten(blocks))
    ensures Reaches(ledger, blocks[k])
  {
    var n := |blocks| - 1;
    var all := Flatten(blocks);
    if k < n {
      assert forall i :: 0 <= i < |Flatten(blocks[..n])| ==> all[i] == Flatten(blocks[..n])[i];
      BlockReaches(ledger, blocks[..n], k);
    } else {
      assert forall i :: 0 <= i < |blocks[n]| ==> all[|Flatten(blocks[..n])| + i] == blocks[n][i];
    }
  }

  method CutRecords(start: Regex, lines: seq<Line>) returns (r: Outcome<seq<seq<Line>>>)
    ensures r == BlocksOf(start, lines)
  {
    var groups := [];
    assert lines[..|lines|] == lines && lines[..0] == [];
    for k := 0 to |lines|
      invariant BlocksOf(start, lines[..k]) == Ok(groups)
    {
      var l := lines[k];
      At(lines, k);
      BlocksSnoc(start, lines[..k], l);
      if start(l.text) {
        groups := groups + [[l]];
      } else if groups == [] {
        BlocksExtend(start, lines[..k + 1], lines[k + 1..]);
        return Refused;
      } else {
        groups := groups[..|groups| - 1] + [groups[|groups| - 1] + [l]];
      }
    }
    return Ok(groups);
  }

  /** The parsers that yield a list. One that reads line by line reads every line it is given or fails on
      the one it cannot (run.parse). */
  method ParseList(kind: ListKind, grouped: bool, lines: seq<Line>, ledger: Ledger) returns (r: Outcome<seq<Json>>)
    requires Reaches(ledger, lines)
    modifies ledger.read
    ensures
      var run := ListResult(kind, grouped, lines);
      && r == (if run.Refused? then Refused else Ok(run.value.values))
      && (run.Ok? ==> ledger.Marked() == old(ledger.Marked()) + run.value.read)
  {
    hide PerLineRun, TableRun, CsvRun, Records, BoxResult, BlocksOf, BlocksRun, ForestOf, NodesJson;
    match kind {
      case Blocks(start, block) =>
        r := ParseRecords(start, block, lines, ledger);
        return;
      case PerLine(read) => r := ParseLines(read, lines);
      case Table(t) => r := ParseTable(t, lines);
      case Csv(c) => r := ParseCsv(c, grouped, lines);
      case Box(b) => r := ParseBox(b, lines);
      case Tree(t) =>
        var nodes := TreeNodes(t, lines, 0, 0);
        assert lines[0..] == lines;
        r := if nodes.Refused? then Refused else Ok(NodesJson(nodes.value.0));
    }
    if r.Ok? {
      ledger.Mark(lines, Numbers(lines));
      assert Numbers(lines) * Numbers(lines) == Numbers(lines);
    }
  }

  /** dropIgnored: the lines a part leaves to a sibling. */
  method DropIgnored(ignore: seq<Regex>, lines: seq<Line>) returns (out: seq<Line>)
    ensures out == Keep(ignore, false, lines)
  {
    out := [];
    assert lines[..|lines|] == lines && lines[..0] == [];
    for k := 0 to |lines|
      invariant out == Keep(ignore, false, lines[..k])
    {
      At(lines, k);
      KeepSnoc(ignore, false, lines[..k], lines[k]);
      if !MatchesAny(ignore, lines[k].text) {
        out := out + [lines[k]];
      }
    }
  }

  lemma {:induction false} PartReaches(ledger: Ledger, p: Part, lines: seq<Line>)
    requires Reaches(ledger, lines)
    ensures Reaches(ledger, PartLines(p, lines))
  {
    hide PartLines;
    forall m | 0 <= m < |PartLines(p, lines)| ensures ledger.InRange(PartLines(p, lines)[m].num) {
      KeptAreLines(p, lines, m);
    }
  }

  /** One part of a composite: its region, less the lines it leaves to a sibling, and the heading its select
      states in full. */
  method ParsePart(p: Part, lines: seq<Line>, ledger: Ledger) returns (r: Outcome<Json>)
    requires Reaches(ledger, lines)
    modifies ledger.read
    ensures
      var part := PartResult(p, lines);
      && r == (if part.Refused? then Refused else Ok(part.value.value))
      && (part.Ok? ==> ledger.Marked() == old(ledger.Marked()) + part.value.read + HeadingRead(p.sel, lines))
  {
    hide ListResult, Keep, SpanOf;
    HeadingIsALine(p.sel, lines);
    var region, heading, end := ApplySelect(p.sel, lines);
    var own := DropIgnored(p.ignore, region);
    PartReaches(ledger, p, lines);
    match p.body {
      case ListPart(k) =>
        var values := ParseList(k, false, own, ledger);
        if values.Refused? {
          return Refused;
        }
        r := Ok(Arr(values.value));
        ListReadsItsLines(k, false, own);
      case SinglePart(block) =>
        var v := block(own);
        if v.Refused? {
          return Refused;
        }
        ledger.Mark(own, v.value.read);
        r := Ok(v.value.value);
    }
    if heading.Some? && p.sel.heading(heading.value.text) {
      ledger.MarkOne(heading.value);
    }
  }

  lemma {:induction false} HeadingIsALine(sel: Select, lines: seq<Line>)
    ensures
      var s := SpanOf(sel, lines);
      && (s.heading.Some? ==> s.heading.value < |lines|) && (s.end.Some? ==> s.end.value < |lines|)
  {
  }

  /** parseComposite */
  method ParseComposite(parts: seq<Part>, lines: seq<Line>, ledger: Ledger) returns (r: Outcome<seq<Member>>)
    requires Reaches(ledger, lines)
    modifies ledger.read
    ensures
      var run := CompositeRun(parts, lines);
      && r == (if run.Refused? then Refused else Ok(run.value.0))
      && (run.Ok? ==> ledger.Marked() == old(ledger.Marked()) + run.value.1)
  {
    hide PartResult, HeadingRead, CompositeRun;
    var members := [];
    NoParts(lines);
    assert parts[..|parts|] == parts && parts[..0] == [];
    for k := 0 to |parts|
      invariant CompositeRun(parts[..k], lines).Ok? && CompositeRun(parts[..k], lines).value.0 == members
      invariant ledger.Marked() == old(ledger.Marked()) + CompositeRun(parts[..k], lines).value.1
    {
      At(parts, k);
      CompositeSnoc(parts[..k], parts[k], lines);
      var v := ParsePart(parts[k], lines, ledger);
      if v.Refused? {
        CompositeFails(parts, k, lines);
        return Refused;
      }
      members := SetKey(members, parts[k].name, v.value);
    }
    return Ok(members);
  }

  lemma {:induction false} NoParts(lines: seq<Line>)
    ensures CompositeRun([], lines) == Ok(([], {}))
  {
  }

  lemma {:induction false} CompositeSnoc(parts: seq<Part>, p: Part, lines: seq<Line>)
    ensures CompositeRun(parts + [p], lines) ==
      var before, r := CompositeRun(parts, lines), PartResult(p, lines);
      if before.Refused? || r.Refused? then Refused
      else Ok((SetKey(before.value.0, p.name, r.value.value),
               before.value.1 + r.value.read + HeadingRead(p.sel, lines)))
  {
    hide PartResult, HeadingRead;
    assert (parts + [p])[..|parts|] == parts;
  }

  lemma {:induction false} CompositeFails(parts: seq<Part>, k: nat, lines: seq<Line>)
    requires k < |parts| && PartResult(parts[k], lines).Refused?
    ensures CompositeRun(parts, lines).Refused?
  {
    CompositeRuns(parts, lines);
  }

  /** run.parse */
  method Parse(body: Body, lines: seq<Line>, ledger: Ledger) returns (r: Outcome<Json>)
    requires Reaches(ledger, lines)
    modifies ledger.read
    ensures
      var run := BodyResult(body, lines);
      && r == (if run.Refused? then Refused else Ok(run.value.value))
      && (run.Ok? ==> ledger.Marked() == old(ledger.Marked()) + run.value.read)
  {
    hide ListResult, CompositeRun;
    match body
    case List(k) =>
      var values := ParseList(k, true, lines, ledger);
      r := if values.Refused? then Refused else Ok(Arr(values.value));
    case Composite(parts) =>
      var members := ParseComposite(parts, lines, ledger);
      r := if members.Refused? then Refused else Ok(Obj(members.value));
  }

  // ----- the account -----

  /** How many of the lines are among the ones read. */
  function ReadCount(lines: seq<Line>, read: set<nat>): nat {
    if lines == [] then 0
    else ReadCount(lines[..|lines| - 1], read) + if lines[|lines| - 1].num in read then 1 else 0
  }

  /** How many say nothing and are not among the ones read. */
  function BlankCount(lines: seq<Line>, read: set<nat>): nat {
    if lines == [] then 0
    else
      var l := lines[|lines| - 1];
      BlankCount(lines[..|lines| - 1], read) + if l.num !in read && Blank(l.text) then 1 else 0
  }

  lemma {:induction false} CountsSnoc(lines: seq<Line>, l: Line, read: set<nat>)
    ensures ReadCount(lines + [l], read) == ReadCount(lines, read) + if l.num in read then 1 else 0
    ensures BlankCount(lines + [l], read) == BlankCount(lines, read) + if l.num !in read && Blank(l.text) then 1 else 0
  {
    assert (lines + [l])[..|lines|] == lines;
  }

  lemma {:induction false} CountsAreAll(lines: seq<Line>, read: set<nat>)
    requires Covers(read, lines)
    ensures ReadCount(lines, read) + BlankCount(lines, read) == |lines|
  {
    if lines != [] {
      var n := |lines| - 1;
      assert forall i :: 0 <= i < n ==> lines[..n][i] == lines[i];
      CountsAreAll(lines[..n], read);
    }
  }

  /** Count the lines that were read, and the blank ones nobody read (ledger.count). */
  method Count(ledger: Ledger, lines: seq<Line>, acct: Account)
    modifies acct`read, acct`blank
    ensures acct.read == old(acct.read) + ReadCount(lines, ledger.Marked())
    ensures acct.blank == old(acct.blank) + BlankCount(lines, ledger.Marked())
  {
    hide Blank, Ledger.Marked;
    assert lines[..|lines|] == lines && lines[..0] == [];
    NothingCounts(ledger.Marked());
    ghost var marked := ledger.Marked();
    for k := 0 to |lines|
      invariant ledger.Marked() == marked
      invariant acct.read == old(acct.read) + ReadCount(lines[..k], marked)
      invariant acct.blank == old(acct.blank) + BlankCount(lines[..k], marked)
    {
      At(lines, k);
      CountsSnoc(lines[..k], lines[k], marked);
      if ledger.IsRead(lines[k].num) {
        acct.read := acct.read + 1;
      } else if Blank(lines[k].text) {
        acct.blank := acct.blank + 1;
      }
    }
  }

  lemma {:induction false} NothingCounts(read: set<nat>)
    ensures ReadCount([], read) == 0 && BlankCount([], read) == 0
  {
  }

  lemma {:induction false} RecordsAreNoMore(delim: char, lines: seq<Line>)
    ensures |Group(delim, lines).records| + (if Group(delim, lines).pieces == [] then 0 else 1) <= |lines|
    ensures |Records(delim, lines)| <= |lines|
  {
    if lines != [] {
      RecordsAreNoMore(delim, lines[..|lines| - 1]);
    }
  }

  lemma {:induction false} FoldedAreNoMore(fold: Option<Regex>, lines: seq<Line>)
    requires Folded(fold, lines).Ok?
    ensures |Folded(fold, lines).value| <= |lines|
  {
    if fold.Some? && lines != [] {
      FoldedAreNoMore(fold, lines[..|lines| - 1]);
    }
  }

  /** Read the prepared lines and account for every one of them. */
  method ReadPrepared(def: Definition, prepared: seq<Line>, acct: Account) returns (v: Outcome<Json>)
    requires Ascending(prepared)
    modifies acct`read, acct`blank
    ensures v == Accounted(def, prepared)
    ensures v.Ok? ==> acct.read + acct.blank == old(acct.read + acct.blank) + |prepared|
  {
    hide BodyResult, Covers, SpanOf, Ascending;
    HeadingIsALine(def.sel, prepared);
    var ledger := new Ledger(prepared);
    var region, heading, end := ApplySelect(def.sel, prepared);
    RegionReaches(ledger, def.sel, prepared);
    v := Parse(def.body, region, ledger);
    if v.Ok? {
      if heading.Some? && def.sel.heading(heading.value.text) {
        ledger.MarkOne(heading.value);
      }
      if end.Some? && def.sel.end(end.value.text) {
        ledger.MarkOne(end.value);
      }
      assert ledger.Marked() ==
        BodyResult(def.body, region).value.read + HeadingRead(def.sel, prepared) + EndRead(def.sel, prepared);
    }
    Count(ledger, prepared, acct);
    if v.Refused? {
      return;
    }
    var unread := ledger.Unread(prepared);
    if unread {
      return Refused;
    }
    CountsAreAll(prepared, ledger.Marked());
  }

  lemma {:induction false} RegionReaches(ledger: Ledger, sel: Select, lines: seq<Line>)
    requires Reaches(ledger, lines)
    ensures Reaches(ledger, Region(sel, lines))
  {
    hide SpanOf;
    var s := SpanOf(sel, lines);
    assert forall i :: 0 <= i < |Region(sel, lines)| ==> Region(sel, lines)[i] == lines[s.lo + i];
  }

  /** ParseAccounted: what the lines of an input come to, and where they went. On success every line is in
      exactly one of the counts. */
  method ParseAccounted(def: Definition, lines: seq<Line>) returns (v: Outcome<Json>, acct: Account)
    requires Ascending(lines)
    ensures fresh(acct) && v == Parsed(def, lines)
    ensures v.Ok? ==> acct.lines == |lines| == acct.read + acct.folded + acct.blank + acct.Dropped()
    ensures v.Ok? ==>
      var folded := Folded(def.fold, Grouped(def, lines)).value;
      && acct.folded == |lines| - |folded|
      && acct.ignored == TallyOf(LeftOutCounts(def.ignore, def.skipBlank, Between(def.skipBlank, folded)))
  {
    hide Folded, Records, Prepared, Accounted, Between, LeftOutCounts, TallyOf, Ascending;
    acct := new Account();
    acct.lines := |lines|;
    var records := lines;
    if def.body.List? && def.body.kind.Csv? {
      records := CsvRecords(def.body.kind.csv.delim, lines);
      RecordsAreNoMore(def.body.kind.csv.delim, lines);
      RecordsAscending(def.body.kind.csv.delim, lines);
    }
    var folded := FoldLines(def.fold, records);
    if folded.Refused? {
      return Refused, acct;
    }
    FoldedAreNoMore(def.fold, records);
    FoldedKeepsAscending(def.fold, records);
    acct.folded := acct.lines - |folded.value|;
    var prepared := Prepare(def.ignore, def.skipBlank, folded.value, acct);
    PreparedAscending(def.ignore, def.skipBlank, folded.value);
    v := ReadPrepared(def, prepared, acct);
  }
}
