/**
 The streaming reader of a whole input (pkg/engine/stream.go): every line goes through the stages as it
 comes, and each stage passes on what no further line can change. The ghost fields are what each stage
 has been fed, and each stage's fields are held against the whole-document functions of it.
 */
module Streaming {
  import opened Lines
  import opened Json
  import opened Stages
  import opened Readings
  import opened ReadingFacts
  import opened ReaderFacts
  import opened Reader
  import opened CompositeFacts
  import opened CompositeReader
  import opened StreamFacts
  import opened Holding

  /** What a stream hands over: the values of a list, or the documents of a composite. */
  datatype Output = Values(values: seq<Json>) | Documents(docs: seq<Doc>)

  predicate Grew(before: Output, after: Output) {
    match before
    case Values(vs) => after.Values? && vs <= after.values
    case Documents(ds) => after.Documents? && ds <= after.docs
  }

  /** The output is what the body comes to: the list, or for each part its list or its one value. */
  ghost predicate OutputIs(body: Body, lines: seq<Line>, out: Output) {
    match body
    case List(k) =>
      ListResult(k, true, lines).Ok? && out == Values(ListResult(k, true, lines).value.values)
    case Composite(parts) =>
      && out.Documents?
      && (forall j :: 0 <= j < |parts| ==> ValuesOf(out.docs, parts[j].name) == PartValues(parts[j], lines))
      && (forall k :: 0 <= k < |out.docs| ==> IsAPart(parts, out.docs[k].part))
  }

  /** What a definition of a stream asks: names apart, and no csv whose columns are the empty list. */
  predicate Readable(body: Body) {
    match body
    case List(k) => Agreed(k)
    case Composite(parts) =>
      && (forall i, j :: 0 <= i < j < |parts| ==> parts[i].name != parts[j].name)
      && (forall i :: 0 <= i < |parts| && parts[i].body.ListPart? ==> Agreed(parts[i].body.kind))
  }

  /** What is behind input.select: the reader of a list, or of a composite. */
  class BodyReader {
    const body: Body
    const held: Hold
    const list: ListReader?
    const comp: CompositeStream?

    ghost function Objects(): set<object> {
      (if list == null then {} else {list})
      + if comp == null then {} else comp.Footprint()
    }

    ghost predicate Fits() {
      && Readable(body)
      && match body
         case List(k) => list != null && comp == null && list.kind == k && list.grouped && list.held == held
         case Composite(parts) => list == null && comp != null && comp.held == held && comp.Defs() == parts
    }

    ghost predicate Valid()
      requires Fits()
      reads Objects()
    {
      if list != null then list.Valid() else comp.Valid()
    }

    ghost function Fed(): seq<Line>
      requires Fits()
      reads Objects()
    {
      if list != null then list.fed else comp.fed
    }

    ghost function Held(): nat
      requires Fits()
      reads Objects()
    {
      if list != null then list.Held() else comp.Held()
    }

    function Handed(): Output
      requires Fits()
      reads Objects()
    {
      if list != null then Values(list.emitted) else Documents(comp.docs)
    }

    constructor (body: Body, held: Hold)
      requires Readable(body)
      ensures this.body == body && this.held == held && Fits() && fresh(Objects())
      ensures Valid() && Fed() == [] && Held() == 0 && Grew(Handed(), Handed())
      ensures Handed() == if body.List? then Values([]) else Documents([])
    {
      hide ListReader.Valid, ListReader.Held, CompositeStream.Valid, CompositeStream.Held, CompositeStream.Objects, Agreed;
      this.body, this.held := body, held;
      if body.List? {
        list := new ListReader(body.kind, true, held);
        comp := null;
      } else {
        list := null;
        comp := new CompositeStream(body.parts, held);
      }
      new;
      if comp != null {
        comp.PartsAreObjects();
        assert this !in comp.Footprint();
      }
    }

    /** One line of the selection (feedRecord). */
    method Feed(l: Line) returns (s: Status)
      requires Fits() && Valid() && Ascending(Fed() + [l]) && held.bytes <= held.limit
      modifies Objects(), held
      ensures Fed() == old(Fed()) + [l] && Grew(old(Handed()), Handed())
      ensures s == Good ==> Valid() && held.bytes == old(held.bytes) + Held() - old(Held())
      ensures s == Refusal ==> BodyDead(body, Fed())
      ensures body.List? ==> held.bytes <= old(held.bytes) + Charge(body.kind, l.text)
      ensures body.Composite? ==> held.bytes <= old(held.bytes) + Times(|body.parts|, Cost(l.text))
      ensures s == Overflow <==> held.bytes > held.limit
      ensures Weighed(s, old(held.bytes - Held() + BodyPeak(body, Fed(), l)), held.limit)
    {
      hide ListReader.Valid, ListReader.Held, CompositeStream.Valid, CompositeStream.Held, CompositeStream.Handed, Agreed;
      hide CompositeStream.Objects, Complete, CompositeComplete, Cost, Ascending, Times, Reached, HeldBy, OfferedPeak;
      HeldIs();
      if list != null {
        s := list.FeedRecord(l);
      } else {
        s := comp.Feed(l);
      }
    }

    /** The end of the input. */
    method Finish() returns (s: Status)
      requires Fits() && Valid() && Ascending(Fed())
      modifies Objects(), held
      ensures Fed() == old(Fed()) && Grew(old(Handed()), Handed())
      ensures s != Overflow && held.bytes <= old(held.bytes)
      ensures s == Good ==>
        && BodyComplete(body, Fed()) && OutputIs(body, Fed(), Handed())
        && held.bytes == old(held.bytes) - old(Held())
      ensures s == Refusal ==> !BodyComplete(body, Fed())
    {
      hide ListReader.Valid, ListReader.Held, CompositeStream.Valid, CompositeStream.Held, Agreed;
      hide CompositeStream.Objects, CompositeComplete, Ascending, ListResult, PartValues, ValuesOf, Covers;
      if list != null {
        s := list.Finish();
      } else {
        s := comp.Finish();
        comp.DocsAreOfParts();
        assert body.parts == comp.Defs();
      }
    }

    /** What is held back is what the lines leave open. */
    lemma {:induction false} HeldIs()
      requires Fits() && Valid()
      ensures Held() == HeldByBody(body, Fed())
    {
      hide ListReader.Valid, ListReader.Held, CompositeStream.Valid, CompositeStream.Held, HeldBy, AllHold;
      if list != null {
        list.HeldIs();
      } else {
        comp.HeldIs();
      }
    }

    lemma {:induction false} ObjectsAreReaders()
      ensures forall o :: o in Objects() ==> o is ListReader || o is CompositeStream || o is PartStream
    {
      if comp != null {
        comp.PartsAreObjects();
      }
    }
  }

  // ----- where a selection stands between two lines -----

  /** The fields of a selection that has seen these lines and left nothing out. */
  ghost predicate Stands(sel: Select, kept: seq<Line>, started: bool, done: bool, skipped: nat, taken: nat) {
    && LeavesNothing(sel, kept)
    && started == (sel.after.Some? && HeadingAt(sel, kept).Some?)
    && done == (Open(sel, kept) && Stop(sel, kept) < |kept|)
    && taken == |Region(sel, kept)|
    && (Open(sel, kept) && !done ==>
          var passed := |kept| - From(sel, kept);
          skipped == if passed < sel.skip then passed else sel.skip)
    && (!Open(sel, kept) ==> skipped == 0)
  }

  lemma {:induction false} StandsAtFirst(sel: Select)
    ensures Stands(sel, [], false, false, 0, 0) && Region(sel, []) == []
  {
  }

  /** What one more line does to the fields of a selection, role by role. */
  lemma {:induction false} StandsSnoc(sel: Select, kept: seq<Line>, started: bool, done: bool, skipped: nat, taken: nat, l: Line)
    requires Stands(sel, kept, started, done, skipped, taken)
    ensures
      var all := kept + [l];
      var role := RoleOf(sel, kept, l.text);
      if done then role == Outside && (Blank(l.text) ==> Stands(sel, all, started, done, skipped, taken))
      else if sel.after.Some? && !started then
        var opens := sel.after.value(l.text);
        && role == (if opens then Heading else Outside)
        && ((opens && sel.heading(l.text)) || Blank(l.text) ==> Stands(sel, all, opens, false, skipped, taken))
      else if sel.until.Some? && sel.until.value(l.text) then
        && role == Closing
        && (sel.end(l.text) || Blank(l.text) ==> Stands(sel, all, started, true, skipped, taken))
      else if skipped < sel.skip then
        role == Outside && (Blank(l.text) ==> Stands(sel, all, started, false, skipped + 1, taken))
      else if sel.limit > 0 && taken >= sel.limit then
        role == Outside && (Blank(l.text) ==> Stands(sel, all, started, false, skipped, taken))
      else role == Inside && Stands(sel, all, started, false, skipped, taken + 1)
  {
    RegionSnoc(sel, kept, l);
    LeavesNothingSnoc(sel, kept, l);
    hide Region, LeavesNothing, Blank;
    assert |Region(sel, kept)| == SpanOf(sel, kept).hi - SpanOf(sel, kept).lo by {
      RegionLength(sel, kept);
    }
    if Open(sel, kept) {
      OpenSnoc(sel, kept, l);
    } else {
      FirstMatchSnoc(sel.after.value, kept, l);
    }
  }

  lemma {:induction false} RegionLength(sel: Select, kept: seq<Line>)
    ensures |Region(sel, kept)| == SpanOf(sel, kept).hi - SpanOf(sel, kept).lo
  {
  }

  /** A line left out of the selection that says something ends the stream. */
  lemma {:induction false} LeftOutEnds(d: Definition, kept: seq<Line>, l: Line)
    requires !Blank(l.text) && RoleOf(d.sel, kept, l.text) != Inside
    requires !(RoleOf(d.sel, kept, l.text) == Heading && d.sel.heading(l.text))
    requires !(RoleOf(d.sel, kept, l.text) == Closing && d.sel.end(l.text))
    ensures SelectedDead(d, kept + [l])
  {
    hide RoleOf, Blank, LeavesNothing, SelectedDead;
    LeavesNothingSnoc(d.sel, kept, l);
    LeftOutDies(d, kept + [l]);
  }

  lemma {:induction false} KeepNothing(ignore: seq<Regex>)
    ensures Keep(ignore, false, []) == [] && Keep(ignore, true, []) == []
  {
  }

  /** A line of the text is kept unless it is to be ignored; the blank lines before it are kept only where
      blank lines are. */
  lemma {:induction false} TextIsKept(ignore: seq<Regex>, skipBlank: bool, lines: seq<Line>, l: Line)
    requires !EdgeBlank(l.text, skipBlank)
    ensures Keep(ignore, skipBlank, [l]) == if MatchesAny(ignore, l.text) then [] else [l]
    ensures skipBlank ==> Keep(ignore, skipBlank, Tail(skipBlank, lines)) == []
  {
    hide MatchesAny;
    KeepNothing(ignore);
    KeepSnoc(ignore, skipBlank, [], l);
    assert [] + [l] == [l];
    if skipBlank {
      KeepDropsBlanks(ignore, Tail(true, lines));
    }
  }

  lemma {:induction false} NoTextNoTail(skipBlank: bool, lines: seq<Line>)
    ensures FromText(skipBlank, lines) == [] ==> Tail(skipBlank, lines) == []
  {
  }

  lemma {:induction false} LinesCostFirst(lines: seq<Line>)
    requires lines != []
    ensures LinesCost(lines) == Cost(lines[0].text) + LinesCost(lines[1..])
  {
    NothingCosts();
    LinesCostSnoc([], lines[0]);
    LinesCostConcat([lines[0]], lines[1..]);
    assert [] + [lines[0]] == [lines[0]] && lines == [lines[0]] + lines[1..];
  }

  lemma {:induction false} KeepsOneMore(ignore: seq<Regex>, all: seq<Line>, k: nat)
    requires k < |all|
    ensures Keep(ignore, false, all[..k + 1]) ==
      if MatchesAny(ignore, all[k].text) then Keep(ignore, false, all[..k])
      else Keep(ignore, false, all[..k]) + [all[k]]
    ensures Keep(ignore, false, all[..k + 1]) <= Keep(ignore, false, all)
  {
    assert all[..k + 1] == all[..k] + [all[k]];
    KeepSnoc(ignore, false, all[..k], all[k]);
    assert all == all[..k + 1] + all[k + 1..];
    KeepConcat(ignore, false, all[..k + 1], all[k + 1..]);
  }

  lemma {:induction false} AscendingPrefix(a: seq<Line>, b: seq<Line>)
    requires Ascending(b) && a <= b
    ensures Ascending(a)
  {
  }

  /** The state the whole-document reader keeps in slices. */
  class Streamer {
    const def: Definition
    const held: Hold
    const body: BodyReader

    // the record of a csv that is still open
    var csvRec: seq<string>
    var csvNum: nat
    var csvQuote: Quote
    // the line a fold may still join, in pieces
    var folding: seq<string>
    var foldNum: nat
    /** The empty lines kept since the last line with text. */
    var empty: seq<Line>
    /** Set by the first line that is not blank. */
    var text: bool
    // how far input.select has got
    var started: bool
    var done: bool
    var skipped: nat
    var taken: nat

    // what the input, the fold, the edges and the selection have been fed
    ghost var physical: seq<Line>
    ghost var records: seq<Line>
    ghost var folded: seq<Line>
    ghost var kept: seq<Line>

    ghost predicate Fits() {
      body.Fits() && body.body == def.body && body.held == held
    }

    ghost predicate CsvValid()
      reads this`csvRec, this`csvNum, this`csvQuote, this`physical, this`records
    {
      if def.body.List? && def.body.kind.Csv? then
        Group(def.body.kind.csv.delim, physical) == Grouping(records, csvRec, csvNum, csvQuote)
      else records == physical && csvRec == []
    }

    /** The fold stands where the records leave it, and has let these lines go. */
    ghost predicate FoldIs(passed: seq<Line>)
      reads this`folding, this`foldNum, this`records
    {
      && passed == Released(def.fold, records)
      && if def.fold.None? then folding == []
         else
           var fs := Foldings(def.fold.value, records);
           && fs.Ok? && (folding == [] <==> fs.value == [])
           && (fs.value != [] ==> fs.value[|fs.value| - 1] == Folding(folding, foldNum))
    }

    ghost predicate FoldValid()
      reads this`folding, this`foldNum, this`records, this`folded
    {
      FoldIs(folded)
    }

    ghost predicate EdgeValid()
      reads this`text, this`empty, this`folded, this`kept
    {
      && kept == Prepared(def.ignore, def.skipBlank, folded)
      && text == (FromText(def.skipBlank, folded) != [])
      && empty == if def.skipBlank then [] else Tail(def.skipBlank, folded)
    }

    ghost predicate SelectValid()
      requires Fits()
      reads this`started, this`done, this`skipped, this`taken, this`kept, body.Objects()
    {
      && Stands(def.sel, kept, started, done, skipped, taken)
      && body.Valid() && body.Fed() == Region(def.sel, kept)
    }

    /** What the stages hold back (hold.bytes). */
    ghost function Held(): nat
      requires Fits()
      reads this, body.Objects()
    {
      TextsCost(csvRec) + TextsCost(folding) + LinesCost(empty) + body.Held()
    }

    ghost predicate Valid()
      reads this, held, body.Objects()
    {
      && Fits() && Ascending(physical)
      && CsvValid() && FoldValid() && EdgeValid() && SelectValid()
      && held.bytes == Held() <= held.limit
    }

    lemma {:induction false} ValidFits()
      requires Valid()
      ensures Fits() && held.bytes == Held() <= held.limit && Ascending(physical)
    {
    }

    lemma {:induction false} Elsewhere()
      ensures this !in body.Objects() && held !in body.Objects() && allocated(body.Objects())
    {
      body.ObjectsAreReaders();
    }

    constructor (def: Definition, limit: nat)
      requires Readable(def.body)
      ensures this.def == def && held.limit == limit && fresh(held) && fresh(body.Objects())
      ensures Valid() && physical == [] && Held() == 0
      ensures body.Handed() == if def.body.List? then Values([]) else Documents([])
    {
      hide BodyReader.Objects, BodyReader.Valid, BodyReader.Fed, BodyReader.Held, BodyReader.Handed, BodyReader.Fits;
      hide Stands, Region;
      var h := new Hold(limit);
      var b := new BodyReader(def.body, h);
      this.def, held, body := def, h, b;
      csvRec, csvNum, csvQuote, folding, foldNum, empty := [], 0, OUTSIDE, [], 0, [];
      text, started, done, skipped, taken := false, false, false, 0, 0;
      physical, records, folded, kept := [], [], [], [];
      new;
      hide Streamer.Valid, Streamer.Held;
      Elsewhere();
      Opened();
    }

    lemma {:induction false} Opened()
      requires Fits() && body.Valid() && body.Fed() == [] && body.Held() == 0
      requires csvRec == [] && csvNum == 0 && csvQuote == OUTSIDE && folding == [] && empty == []
      requires !text && !started && !done && skipped == 0 && taken == 0
      requires physical == [] && records == [] && folded == [] && kept == []
      requires held.bytes == 0 <= held.limit
      ensures Valid() && Held() == 0
    {
      hide BodyReader.Objects, BodyReader.Valid, BodyReader.Fed, BodyReader.Held, BodyReader.Fits;
      hide Stands, Region;
      StandsAtFirst(def.sel);
      NothingCosts();
    }

    /** The body holds what the lines selected leave open. */
    lemma {:induction false} BodyHeldIs()
      requires Fits() && SelectValid()
      ensures body.Held() == HeldByBody(def.body, Region(def.sel, kept)) && body.Fed() == Region(def.sel, kept)
    {
      hide BodyReader.Fits, BodyReader.Valid, BodyReader.Held, BodyReader.Fed, Stands, HeldByBody, Region;
      body.HeldIs();
    }

    /** What is held past the fold is what the folded lines leave open. */
    lemma {:induction false} PastIs()
      requires Fits() && EdgeValid() && SelectValid()
      ensures Waiting(def, folded) == empty && LinesCost(empty) + body.Held() == HeldPastFold(def, folded)
    {
      hide BodyReader.Fits, BodyReader.Valid, BodyReader.Held, BodyReader.Fed, Stands, HeldByBody, Region, Prepared, Tail;
      hide LinesCost, FromText;
      BodyHeldIs();
    }

    /** The line a fold may still join is the one the records leave it. */
    lemma {:induction false} FoldingIs()
      requires FoldValid()
      ensures LastFolding(def.fold, records) == if folding == [] then None else Some(Folding(folding, foldNum))
      ensures HeldByFold(def.fold, records) == TextsCost(folding) && folded == Released(def.fold, records)
    {
      hide Foldings, Released, TextsCost;
      NothingCosts();
    }

    /** The stages hold back what the lines leave open. */
    lemma {:induction false} HeldIs()
      requires Valid()
      ensures Held() == HeldOf(def, physical)
      ensures records == Settled(def, physical) && csvRec == OpenRecord(def, physical)
    {
      hide Streamer.EdgeValid, Streamer.SelectValid, BodyReader.Fits, BodyReader.Valid, BodyReader.Held, Group, Ascending;
      hide HeldPastFold, HeldByFold, LastFolding, Released, TextsCost, LinesCost;
      PastIs();
      FoldingIs();
    }

    /** One line for the selection, in the order after, until, skip, limit (feedSelected, leftOut). */
    method FeedSelected(l: Line) returns (s: Status)
      requires Fits() && SelectValid() && Ascending(kept + [l]) && held.bytes <= held.limit
      modifies this`started, this`done, this`skipped, this`taken, this`kept, body.Objects(), held
      ensures kept == old(kept) + [l] && Grew(old(body.Handed()), body.Handed())
      ensures s == Good ==> SelectValid() && held.bytes == old(held.bytes) + body.Held() - old(body.Held())
      ensures s == Refusal ==> SelectedDead(def, kept)
      ensures def.body.List? ==> held.bytes <= old(held.bytes) + Cost(l.text)
      ensures s == Overflow <==> held.bytes > held.limit
      ensures Weighed(s, old(held.bytes - body.Held() + SelectedPeak(def, kept, l)), held.limit)
    {
      hide BodyReader.Objects, BodyReader.Valid, BodyReader.Fed, BodyReader.Held, BodyReader.Handed, BodyReader.Fits;
      hide Stands, RoleOf, Region, Blank, BodyDead, SelectedDead, Ascending, LeavesNothing, BodyPeak;
      Elsewhere();
      var sel := def.sel;
      StandsSnoc(sel, kept, started, done, skipped, taken, l);
      RegionSnoc(sel, kept, l);
      RegionAscending(sel, kept + [l]);
      ghost var before := kept;
      kept := kept + [l];
      var stated := false;
      if done {
      } else if sel.after.Some? && !started {
        started := sel.after.value(l.text);
        stated := started && sel.heading(l.text);
      } else if sel.until.Some? && sel.until.value(l.text) {
        done := true;
        stated := sel.end(l.text);
      } else if skipped < sel.skip {
        skipped := skipped + 1;
      } else if sel.limit > 0 && taken >= sel.limit {
        // Past the limit the selection stays open for until.
      } else {
        taken := taken + 1;
        s := body.Feed(l);
        if s == Refusal {
          BodyDies(def, kept);
        }
        return;
      }
      if !stated && !Blank(l.text) {
        LeftOutEnds(def, before, l);
        return Refusal;
      }
      return Good;
    }

    /** Let the empty lines go: they stand before a line of the text. A line held back is still a line
        input.ignore may name. `whole` is what the edges have come to pass on. */
    method Release(ghost whole: seq<Line>) returns (s: Status)
      requires Fits() && SelectValid() && held.bytes <= held.limit
      requires Ascending(whole) && kept + Keep(def.ignore, false, empty) <= whole
      modifies this`empty, this`started, this`done, this`skipped, this`taken, this`kept, body.Objects(), held
      ensures Grew(old(body.Handed()), body.Handed())
      ensures s == Good ==>
        && SelectValid() && empty == [] && kept == old(kept) + Keep(def.ignore, false, old(empty))
        && held.bytes == old(held.bytes) + body.Held() - old(LinesCost(empty) + body.Held())
      ensures s == Refusal ==> SelectedDead(def, kept) && kept <= whole
      ensures def.body.List? ==> held.bytes <= old(held.bytes)
      ensures s == Overflow <==> held.bytes > held.limit
      ensures Weighed(s, old(held.bytes - LinesCost(empty) - body.Held() + ReleasePeak(def, kept, empty)), held.limit)
    {
      hide BodyReader.Objects, BodyReader.Valid, BodyReader.Fed, BodyReader.Held, BodyReader.Handed, BodyReader.Fits;
      hide SelectedDead, Ascending, Cost, LinesCost, Keep, MatchesAny, Streamer.SelectValid, ReleasePeak, SelectedPeak;
      Elsewhere();
      ghost var all, k := empty, 0;
      ghost var base, peak := held.bytes - LinesCost(empty) - body.Held(), ReleasePeak(def, kept, empty);
      s := Good;
      NothingCosts();
      KeepNothing(def.ignore);
      while |empty| > 0
        invariant k <= |all| && empty == all[k..] && s == Good && SelectValid()
        invariant kept == old(kept) + Keep(def.ignore, false, all[..k])
        invariant Grew(old(body.Handed()), body.Handed())
        invariant held.bytes == old(held.bytes) + LinesCost(empty) + body.Held() - old(LinesCost(empty) + body.Held())
        invariant held.bytes <= held.limit && (def.body.List? ==> held.bytes <= old(held.bytes))
        invariant base + ReleasePeak(def, kept, empty) <= held.limit <==> base + peak <= held.limit
      {
        var e := empty[0];
        ReleaseFirst(def, kept, empty);
        LinesCostFirst(empty);
        KeepsOneMore(def.ignore, all, k);
        AscendingPrefix(old(kept) + Keep(def.ignore, false, all[..k + 1]), whole);
        empty := empty[1..];
        held.Give(Cost(e.text));
        k := k + 1;
        if !MatchesAny(def.ignore, e.text) {
          assert kept + [e] == old(kept) + Keep(def.ignore, false, all[..k]);
          s := FeedSelected(e);
          if s != Good {
            return;
          }
        }
      }
      assert all[..k] == all;
      NothingReleased(def, kept);
    }

    /** A line of the text or a blank one, for the edges of the text (feedFolded): the empty lines held
        back before a line of the text are let go with it. */
    method FeedFolded(l: Line) returns (s: Status)
      requires Fits() && EdgeValid() && SelectValid() && Ascending(folded + [l]) && held.bytes <= held.limit
      modifies this`text, this`empty, this`folded, this`started, this`done, this`skipped, this`taken, this`kept
      modifies body.Objects(), held
      ensures folded == old(folded) + [l] && Grew(old(body.Handed()), body.Handed())
      ensures s == Good ==>
        && EdgeValid() && SelectValid()
        && held.bytes == old(held.bytes) + LinesCost(empty) + body.Held() - old(LinesCost(empty) + body.Held())
      ensures s == Refusal ==> PreparedDead(def, folded)
      ensures def.body.List? ==> held.bytes <= old(held.bytes) + Cost(l.text)
      ensures s == Overflow <==> held.bytes > held.limit
      ensures Weighed(s, old(held.bytes - LinesCost(empty) - body.Held() + FoldedPeak(def, folded, l)), held.limit)
    {
      hide BodyReader.Objects, BodyReader.Valid, BodyReader.Fed, BodyReader.Held, BodyReader.Handed, BodyReader.Fits;
      hide Stands, Prepared, FromText, Tail, EdgeBlank, PreparedDead, SelectedDead, Ascending, Cost, LinesCost, MatchesAny;
      hide Keep, Streamer.SelectValid, ReleasePeak, SelectedPeak, HeldPastFold, Waiting, BodyPeak, HeldByBody;
      Elsewhere();
      PastIs();
      ghost var before := folded;
      folded := folded + [l];
      if EdgeBlank(l.text, def.skipBlank) {
        PreparedBlank(def.ignore, def.skipBlank, before, l);
        FromTextSnoc(def.skipBlank, before, l);
        NoTextNoTail(def.skipBlank, before);
        if def.skipBlank || !text {
          return Good;
        }
        LinesCostSnoc(empty, l);
        var ok := held.Take(Cost(l.text));
        empty := empty + [l];
        return if ok then Good else Overflow;
      }
      text := true;
      PreparedText(def.ignore, def.skipBlank, before, l);
      TextIsKept(def.ignore, def.skipBlank, before, l);
      KeepNothing(def.ignore);
      NothingCosts();
      PreparedAscending(def.ignore, def.skipBlank, folded);
      s := Release(Prepared(def.ignore, def.skipBlank, folded));
      if s != Good {
        if s == Refusal {
          SelectedDies(def, kept, folded);
        }
        return;
      }
      if MatchesAny(def.ignore, l.text) {
        return Good;
      }
      s := FeedSelected(l);
      if s == Refusal {
        SelectedDies(def, kept, folded);
      }
    }

    /** A record where nothing is folded. */
    method FeedUnfolded(l: Line) returns (s: Status)
      requires Fits() && EdgeValid() && SelectValid() && def.fold.None? && folding == []
      requires records == folded + [l] && Ascending(records) && held.bytes <= held.limit
      modifies this`text, this`empty, this`folded
      modifies this`started, this`done, this`skipped, this`taken, this`kept, body.Objects(), held
      ensures Grew(old(body.Handed()), body.Handed())
      ensures s == Good ==>
        && FoldValid() && EdgeValid() && SelectValid()
        && held.bytes == old(held.bytes) + HeldPastRecords() - old(HeldPastRecords())
      ensures s == Refusal ==> FoldedDead(def, records)
      ensures def.body.List? ==> held.bytes <= old(held.bytes) + Cost(l.text)
      ensures s == Overflow <==> held.bytes > held.limit
      ensures Weighed(s, old(held.bytes - HeldPastRecords() + FoldedPeak(def, folded, l)), held.limit)
    {
      hide BodyReader.Objects, BodyReader.Valid, BodyReader.Fed, BodyReader.Held, BodyReader.Handed, BodyReader.Fits;
      hide Streamer.EdgeValid, Streamer.SelectValid, FoldedDead, PreparedDead, Ascending, Cost, LinesCost;
      hide FoldedPeak, Foldings;
      Elsewhere();
      s := FeedFolded(l);
      if s == Refusal {
        PreparedDies(def, folded, records);
      }
    }

    lemma {:induction false} FoldAscending(passed: seq<Line>)
      requires Ascending(records) && FoldIs(passed)
      ensures Ascending(passed)
    {
      assert Folded(def.fold, records).Ok?;
      hide Released, Folded;
      assert records + [] == records;
      ReleasedExtends(def.fold, records, []);
      FoldedKeepsAscending(def.fold, records);
    }

    lemma {:induction false} FoldHasLetGo()
      requires FoldValid()
      ensures folded <= Released(def.fold, records)
    {
    }

    /** What the fold, the edges and the body hold back. */
    ghost function HeldPastRecords(): nat
      requires Fits()
      reads this`folding, this`empty, body.Objects()
    {
      TextsCost(folding) + LinesCost(empty) + body.Held()
    }

    /** Hand back the line a fold was holding, its pieces joined, or nothing when none was held. */
    method ReleaseFolding() returns (line: Option<Line>)
      modifies this`folding, held
      ensures folding == [] && held.bytes == old(held.bytes) - TextsCost(old(folding))
      ensures line == if old(folding) == [] then None else Some(Joined(Folding(old(folding), foldNum)))
      ensures line.Some? ==> Cost(line.value.text) == TextsCost(old(folding))
    {
      NothingCosts();
      if folding == [] {
        return None;
      }
      JoinKeepsCost(folding, " ");
      line := Some(Line(Join(folding, " "), foldNum));
      held.Give(TextsCost(folding));
      folding := [];
    }

    lemma {:induction false} ContinuingPeak(l: Line)
      requires Fits() && FoldValid() && EdgeValid() && SelectValid() && def.fold.Some? && def.fold.value(l.text)
      ensures RecordPeak(def, records, l) == HeldPastRecords() + Cost(TrimSpace(l.text))
    {
      hide BodyReader.Objects, BodyReader.Valid, BodyReader.Fed, BodyReader.Held, BodyReader.Fits, Streamer.EdgeValid;
      hide Streamer.SelectValid, Streamer.FoldIs, Released, HeldByFold, HeldPastFold, Cost, TrimSpace, TextsCost, LinesCost;
      PastIs();
      FoldingIs();
    }

    /** A record that continues the line above it. */
    method Continue(l: Line) returns (s: Status)
      requires Fits() && FoldValid() && EdgeValid() && SelectValid() && def.fold.Some? && def.fold.value(l.text)
      requires Ascending(records + [l]) && held.bytes <= held.limit
      modifies this`folding, this`foldNum, this`records, this`text, this`empty, this`folded
      modifies this`started, this`done, this`skipped, this`taken, this`kept, body.Objects(), held
      ensures records == old(records) + [l] && Grew(old(body.Handed()), body.Handed())
      ensures s == Good ==>
        && FoldValid() && EdgeValid() && SelectValid()
        && held.bytes == old(held.bytes) + HeldPastRecords() - old(HeldPastRecords())
      ensures s == Refusal ==> FoldedDead(def, records)
      ensures def.body.List? ==> held.bytes <= old(held.bytes) + Cost(l.text)
      ensures s == Overflow <==> held.bytes > held.limit
      ensures Weighed(s, old(held.bytes - HeldPastRecords() + RecordPeak(def, records, l)), held.limit)
    {
      hide BodyReader.Objects, BodyReader.Valid, BodyReader.Fed, BodyReader.Held, BodyReader.Handed, BodyReader.Fits;
      hide Streamer.EdgeValid, Streamer.SelectValid, FoldedDead, PreparedDead, Ascending, Cost, TextsCost, LinesCost;
      hide Foldings, Released, JoinedAll, Folded, RecordPeak, TrimSpace;
      Elsewhere();
      ContinuingPeak(l);
      ReleasedSnoc(def.fold.value, records, l);
      records := records + [l];
      if folding == [] || Blank(folding[0]) {
        // A blank line is nothing to join onto.
        FoldDies(def, records);
        return Refusal;
      }
      var piece := TrimSpace(l.text);
      TrimNeverCostsMore(l.text);
      TextsCostSnoc(folding, piece);
      var ok := held.Take(Cost(piece));
      folding := folding + [piece];
      return if ok then Good else Overflow;
    }

    /** Hold this record in the place of the one before it, which a fold can no longer join. */
    method HoldInstead(l: Line) returns (prev: Option<Line>, ok: bool)
      requires FoldValid() && def.fold.Some? && !def.fold.value(l.text) && held.bytes <= held.limit
      modifies this`folding, this`foldNum, this`records, held
      ensures records == old(records) + [l] && Foldings(def.fold.value, records).Ok?
      ensures FoldIs(if prev.None? then folded else folded + [prev.value])
      ensures held.bytes == old(held.bytes) + TextsCost(folding) - old(TextsCost(folding))
      ensures TextsCost(folding) == Cost(l.text)
      ensures old(TextsCost(folding)) == if prev.None? then 0 else Cost(prev.value.text)
      ensures prev == if old(folding) == [] then None else Some(Joined(Folding(old(folding), old(foldNum))))
      ensures ok == (held.bytes <= held.limit)
    {
      hide Foldings, Released, JoinedAll, Folded, Cost, TextsCost;
      ReleasedSnoc(def.fold.value, records, l);
      records := records + [l];
      NothingCosts();
      TextsCostSnoc([], l.text);
      assert [] + [l.text] == [l.text];
      prev := ReleaseFolding();
      ok := held.Take(Cost(l.text));
      folding, foldNum := [l.text], l.num;
    }

    /** A record that begins a line, and lets go of the one before it. */
    method Begin(l: Line) returns (s: Status)
      requires Fits() && FoldValid() && EdgeValid() && SelectValid() && def.fold.Some? && !def.fold.value(l.text)
      requires Ascending(records + [l]) && held.bytes <= held.limit
      modifies this`folding, this`foldNum, this`records, this`text, this`empty, this`folded
      modifies this`started, this`done, this`skipped, this`taken, this`kept, body.Objects(), held
      ensures records == old(records) + [l] && Grew(old(body.Handed()), body.Handed())
      ensures s == Good ==>
        && FoldValid() && EdgeValid() && SelectValid()
        && held.bytes == old(held.bytes) + HeldPastRecords() - old(HeldPastRecords())
      ensures s == Refusal ==> FoldedDead(def, records)
      ensures def.body.List? ==> held.bytes <= old(held.bytes) + Cost(l.text)
      ensures s == Overflow <==> held.bytes > held.limit
      ensures Weighed(s, old(held.bytes - HeldPastRecords() + RecordPeak(def, records, l)), held.limit)
    {
      hide BodyReader.Objects, BodyReader.Valid, BodyReader.Fed, BodyReader.Held, BodyReader.Handed, BodyReader.Fits;
      hide Streamer.EdgeValid, Streamer.SelectValid, FoldedDead, PreparedDead, Ascending, Cost, TextsCost, LinesCost;
      hide Foldings, Released, JoinedAll, Folded, Streamer.FoldIs, HeldPastFold, HeldByFold, FoldedPeak, Joined, LastFolding;
      Elsewhere();
      PastIs();
      FoldingIs();
      var prev, ok := HoldInstead(l);
      if !ok {
        return Overflow;
      }
      if prev.None? {
        return Good;
      }
      FoldAscending(folded + [prev.value]);
      s := FeedFolded(prev.value);
      if s == Refusal {
        FoldHasLetGo();
        PreparedDies(def, folded, records);
      }
    }

    /** One record, for the fold, the one stage that has to see the next line before it can let go of the
        one before (feedRaw). */
    method FeedRaw(l: Line) returns (s: Status)
      requires Fits() && FoldValid() && EdgeValid() && SelectValid()
      requires Ascending(records + [l]) && held.bytes <= held.limit
      modifies this`folding, this`foldNum, this`records, this`text, this`empty, this`folded
      modifies this`started, this`done, this`skipped, this`taken, this`kept, body.Objects(), held
      ensures records == old(records) + [l] && Grew(old(body.Handed()), body.Handed())
      ensures s == Good ==>
        && FoldValid() && EdgeValid() && SelectValid()
        && held.bytes == old(held.bytes) + HeldPastRecords() - old(HeldPastRecords())
      ensures s == Refusal ==> FoldedDead(def, records)
      ensures def.body.List? ==> held.bytes <= old(held.bytes) + Cost(l.text)
      ensures s == Overflow <==> held.bytes > held.limit
      ensures Weighed(s, old(held.bytes - HeldPastRecords() + RecordPeak(def, records, l)), held.limit)
    {
      hide BodyReader.Objects, BodyReader.Valid, BodyReader.Fed, BodyReader.Held, BodyReader.Handed, BodyReader.Fits;
      hide Streamer.EdgeValid, Streamer.SelectValid, FoldedDead, PreparedDead, Ascending, Cost, TextsCost, LinesCost;
      hide HeldPastFold, HeldByFold, FoldedPeak, FoldingPeak;
      Elsewhere();
      if def.fold.None? {
        records := records + [l];
        s := FeedUnfolded(l);
      } else if def.fold.value(l.text) {
        s := Continue(l);
      } else {
        s := Begin(l);
      }
    }

    /** Hand the record being grouped on, whole, when there is one (flushCSVRecord). */
    method FlushCsvRecord() returns (s: Status)
      requires Fits() && FoldValid() && EdgeValid() && SelectValid() && held.bytes <= held.limit
      requires csvRec != [] ==> Ascending(records + [Record(csvRec, csvNum)])
      modifies this`csvRec, this`folding, this`foldNum, this`records, this`text, this`empty, this`folded
      modifies this`started, this`done, this`skipped, this`taken, this`kept, body.Objects(), held
      ensures csvRec == [] && Grew(old(body.Handed()), body.Handed())
      ensures records == if old(csvRec) == [] then old(records) else old(records) + [Record(old(csvRec), csvNum)]
      ensures s == Good ==>
        && FoldValid() && EdgeValid() && SelectValid()
        && held.bytes == old(held.bytes) - TextsCost(old(csvRec)) + HeldPastRecords() - old(HeldPastRecords())
      ensures s == Refusal ==> FoldedDead(def, records)
      ensures def.body.List? ==> held.bytes <= old(held.bytes)
      ensures s == Overflow <==> held.bytes > held.limit
      ensures old(csvRec) == [] ==> s == Good
    {
      hide BodyReader.Objects, BodyReader.Valid, BodyReader.Fed, BodyReader.Held, BodyReader.Handed, BodyReader.Fits;
      hide Streamer.EdgeValid, Streamer.SelectValid, Streamer.FoldValid, FoldedDead, Ascending, Cost, TextsCost, LinesCost;
      hide RecordPeak, Group, Foldings, Released;
      Elsewhere();
      NothingCosts();
      if csvRec == [] {
        return Good;
      }
      JoinKeepsCost(csvRec, "\n");
      var rec := Record(csvRec, csvNum);
      held.Give(TextsCost(csvRec));
      csvRec := [];
      s := FeedRaw(rec);
    }

    /** One line as the input split it (feedPhysical): for a csv it is grouped into a record first, since a
        quoted value may hold the line break. */
    method FeedPhysical(l: Line) returns (s: Status)
      requires Valid() && Ascending(physical + [l])
      modifies this, body.Objects(), held
      ensures physical == old(physical) + [l] && Grew(old(body.Handed()), body.Handed())
      ensures s == Good ==> Valid()
      ensures s == Refusal ==> InputDead(def, physical)
      ensures def.body.List? ==> held.bytes <= old(held.bytes) + Cost(l.text)
      ensures s == Overflow <==> held.bytes > held.limit
      ensures Weighed(s, Peak(def, old(physical), l), held.limit)
    {
      hide BodyReader.Objects, BodyReader.Valid, BodyReader.Fed, BodyReader.Held, BodyReader.Handed, BodyReader.Fits;
      hide Streamer.EdgeValid, Streamer.SelectValid, Streamer.FoldValid, InputDead, FoldedDead, Ascending, Cost, TextsCost, LinesCost;
      hide HeldPastFold, HeldByFold, HeldOf, RecordPeak;
      Elsewhere();
      HeldIs();
      if IsCsv(def) {
        s := FeedCsv(l);
      } else {
        NothingCosts();
        physical := physical + [l];
        s := FeedRaw(l);
        if s == Refusal {
          FoldedDies(def, records, physical);
        }
      }
    }

    /** Hold one more line of the record that is still open. */
    method HoldCsvLine(l: Line) returns (ok: bool)
      requires IsCsv(def) && CsvValid()
      modifies this`csvRec, this`csvNum, this`csvQuote, this`physical, held
      ensures physical == old(physical) + [l] && csvRec != []
      ensures Group(def.body.kind.csv.delim, physical) ==
        if csvQuote.quoted then Grouping(records, csvRec, csvNum, csvQuote)
        else Grouping(records + [Record(csvRec, csvNum)], [], csvNum, csvQuote)
      ensures TextsCost(csvRec) == old(TextsCost(csvRec)) + Cost(l.text)
      ensures held.bytes == old(held.bytes) + Cost(l.text) && ok == (held.bytes <= held.limit)
    {
      hide Group, Cost, TextsCost;
      GroupSnoc(def.body.kind.csv.delim, physical, l);
      physical := physical + [l];
      if csvRec == [] {
        csvNum := l.num;
      }
      TextsCostSnoc(csvRec, l.text);
      ok := held.Take(Cost(l.text));
      csvRec := csvRec + [l.text];
      csvQuote := Feed(csvQuote, def.body.kind.csv.delim, l.text);
    }

    /** One line of a csv. */
    method FeedCsv(l: Line) returns (s: Status)
      requires Valid() && Ascending(physical + [l]) && IsCsv(def)
      modifies this, body.Objects(), held
      ensures physical == old(physical) + [l] && Grew(old(body.Handed()), body.Handed())
      ensures s == Good ==> Valid()
      ensures s == Refusal ==> InputDead(def, physical)
      ensures held.bytes <= old(held.bytes) + Cost(l.text)
      ensures s == Overflow <==> held.bytes > held.limit
      ensures Weighed(s, Peak(def, old(physical), l), held.limit)
    {
      hide BodyReader.Objects, BodyReader.Valid, BodyReader.Fed, BodyReader.Held, BodyReader.Handed, BodyReader.Fits;
      hide Streamer.EdgeValid, Streamer.SelectValid, Streamer.FoldValid, InputDead, FoldedDead, Ascending, Cost, TextsCost;
      hide LinesCost, Group, Records;
      hide HeldPastFold, HeldByFold, HeldOf, RecordPeak;
      Elsewhere();
      HeldIs();
      var ok := HoldCsvLine(l);
      if !ok {
        return Overflow;
      }
      if csvQuote.quoted {
        return Good;
      }
      RecordsAscending(def.body.kind.csv.delim, physical);
      NothingCosts();
      s := FlushCsvRecord();
      if s == Refusal {
        FoldedDies(def, records, physical);
      }
    }

    /** The end of the input: the record and the line still held go through the stages, and the body hands
        over what it was holding (finish). */
    method Finish() returns (s: Status)
      requires Valid()
      modifies this, body.Objects(), held
      ensures physical == old(physical) && Grew(old(body.Handed()), body.Handed())
      ensures s == Good ==> InputOk(def, physical) && OutputIs(def.body, Selected(def, physical), body.Handed())
      ensures s == Refusal ==> !InputOk(def, physical)
      ensures def.body.List? ==> held.bytes <= old(held.bytes)
      ensures s == Overflow <==> held.bytes > held.limit
      ensures Weighed(s, EndPeak(def, physical), held.limit)
    {
      hide BodyReader.Objects, BodyReader.Valid, BodyReader.Fed, BodyReader.Held, BodyReader.Handed, BodyReader.Fits;
      hide Streamer.EdgeValid, Streamer.SelectValid, Streamer.FoldValid, Ascending, TextsCost, LinesCost;
      hide FoldedOk, FoldedDead, Records, Group, OutputIs, Selected;
      Elsewhere();
      LastRecord();
      s := FlushCsvRecord();
      DeadIsNotOk(def, [], [], records);
      if s != Good {
        return;
      }
      s := FinishFold();
      SelectedIs(records);
    }

    /** The records are the input's once the one still open has been handed on. */
    lemma {:induction false} LastRecord()
      requires CsvValid() && Ascending(physical)
      ensures Ascending(Grouped(def, physical))
      ensures Grouped(def, physical) == if csvRec == [] then records else records + [Record(csvRec, csvNum)]
    {
      hide Group, Ascending;
      if IsCsv(def) {
        RecordsAscending(def.body.kind.csv.delim, physical);
      }
    }

    /** The lines the body reads of these records. */
    ghost function SelectedOf(records: seq<Line>): seq<Line> {
      var folded := Folded(def.fold, records);
      if folded.Refused? then [] else Region(def.sel, Prepared(def.ignore, def.skipBlank, folded.value))
    }

    lemma {:induction false} SelectedIs(records: seq<Line>)
      requires records == Grouped(def, physical)
      ensures SelectedOf(records) == Selected(def, physical)
    {
    }

    /** The end of the records. */
    method FinishFold() returns (s: Status)
      requires Fits() && FoldValid() && EdgeValid() && SelectValid() && held.bytes <= held.limit && Ascending(records)
      modifies this`folding, this`text, this`empty, this`folded
      modifies this`started, this`done, this`skipped, this`taken, this`kept, body.Objects(), held
      ensures Grew(old(body.Handed()), body.Handed())
      ensures s == Good ==> FoldedOk(def, records) && OutputIs(def.body, SelectedOf(records), body.Handed())
      ensures s == Refusal ==> !FoldedOk(def, records)
      ensures def.body.List? ==> held.bytes <= old(held.bytes)
      ensures s == Overflow <==> held.bytes > held.limit
      ensures Weighed(s, old(held.bytes - HeldPastRecords() + FoldingPeak(def, records, 0)), held.limit)
    {
      hide BodyReader.Objects, BodyReader.Valid, BodyReader.Fed, BodyReader.Held, BodyReader.Handed, BodyReader.Fits;
      hide Streamer.EdgeValid, Streamer.SelectValid, Streamer.FoldIs, Ascending, TextsCost, LinesCost, Cost;
      hide PreparedOk, PreparedDead, OutputIs, Folded, Region, Prepared;
      hide FoldingPeak, FoldedPeak, Joined;
      Elsewhere();
      LastPeak();
      LastLine();
      var prev := ReleaseFolding();
      s := Good;
      if prev.Some? {
        s := FeedFolded(prev.value);
        DeadIsNotOk(def, [], folded, []);
        if s != Good {
          return;
        }
      }
      s := FinishBody();
    }

    lemma {:induction false} LastPeak()
      requires FoldValid()
      ensures FoldingPeak(def, records, 0) ==
        if folding == [] then 0 else FoldedPeak(def, folded, Joined(Folding(folding, foldNum)))
    {
      hide FoldedPeak, Joined, Streamer.FoldIs, Released, LastFolding, HeldByFold;
      FoldingIs();
    }

    /** The folded lines are the records' once the line still held has been let go. */
    lemma {:induction false} LastLine()
      requires FoldValid() && Ascending(records)
      ensures Folded(def.fold, records) ==
        Ok(if folding == [] then folded else folded + [Joined(Folding(folding, foldNum))])
      ensures Ascending(Folded(def.fold, records).value)
    {
      FoldedKeepsAscending(def.fold, records);
    }

    /** The end of the folded lines: the empty lines after the text are no part of it. */
    method FinishBody() returns (s: Status)
      requires Fits() && EdgeValid() && SelectValid() && held.bytes <= held.limit && Ascending(folded)
      modifies body.Objects(), held
      ensures Grew(old(body.Handed()), body.Handed())
      ensures s == Good ==>
        && PreparedOk(def, folded)
        && OutputIs(def.body, Region(def.sel, Prepared(def.ignore, def.skipBlank, folded)), body.Handed())
      ensures s == Refusal ==> !PreparedOk(def, folded)
      ensures s != Overflow && held.bytes <= old(held.bytes)
    {
      hide BodyReader.Objects, BodyReader.Valid, BodyReader.Fed, BodyReader.Held, BodyReader.Handed, BodyReader.Fits;
      hide Ascending, BodyComplete, OutputIs, Region, Prepared, LeavesNothing, FromText, Tail;
      Elsewhere();
      PreparedAscending(def.ignore, def.skipBlank, folded);
      RegionAscending(def.sel, kept);
      s := body.Finish();
    }
  }
}