/**
 The streaming reader of a composite (pkg/engine/composite_stream.go): every line goes to the parts
 whose region it is in, a list part hands its values over as they come, and a single-value part is
 read once its region has closed.
 */
module CompositeReader {
  import opened Lines
  import opened Json
  import opened Stages
  import opened Readings
  import opened ReadingFacts
  import opened ReaderFacts
  import opened Reader
  import opened CompositeFacts
  import opened Holding

  /** One part of a composite being streamed. */
  class PartStream {
    const part: Part
    const held: Hold
    /** Reads the part when it yields a list. */
    const sub: ListReader?

    // the region, followed through the lines as they come
    var started: bool
    var done: bool
    var skipped: nat
    var taken: nat
    /** The region of a part that yields one value, which is read when it closes. */
    var lines: seq<Line>
    /** The part has been read, or has handed over what it was holding. */
    var read: bool
    /** The value of a single-value part that has been read. */
    var value: Json

    ghost function Objects(): set<object> {
      if sub == null then {this} else {this, sub}
    }

    /** How far the select of the part has got (region). */
    ghost predicate Follows(seen: seq<Line>)
      reads this
    {
      var sel := part.sel;
      && done == Closed(sel, seen)
      && (!done ==>
            && (started <==> sel.after.Some? && HeadingAt(sel, seen).Some?)
            && taken == |Region(sel, seen)|
            && (Open(sel, seen) ==>
                  var passed := |seen| - From(sel, seen);
                  skipped == if passed < sel.skip then passed else sel.skip)
            && (!Open(sel, seen) ==> skipped == 0))
    }

    /** What the part holds and has handed over of the lines that are its own. */
    ghost predicate Keeps(seen: seq<Line>)
      reads Objects()
    {
      var own := PartLines(part, seen);
      match part.body
      case ListPart(k) =>
        && sub != null && sub.kind == k && !sub.grouped && sub.held == held && lines == []
        && if !read then sub.Valid() && sub.fed == own
           else Complete(k, false, own) && sub.emitted == ListResult(k, false, own).value.values
      case SinglePart(block) =>
        && sub == null
        && if !read then lines == own
           else lines == [] && PartResult(part, seen).Ok? && PartResult(part, seen).value.value == value
    }

    /** What the part holds back. */
    ghost function Held(): nat
      reads Objects()
    {
      LinesCost(lines) + if sub == null || read then 0 else sub.Held()
    }

    ghost predicate Valid(seen: seq<Line>)
      reads Objects()
    {
      Follows(seen) && Keeps(seen) && (read ==> done)
    }

    /** The values handed over so far. */
    function Values(): seq<Json>
      reads Objects()
    {
      if sub != null then sub.emitted else if read then [value] else []
    }

    constructor (part: Part, held: Hold)
      ensures this.part == part && this.held == held && fresh(Objects())
      ensures Valid([]) && !read && !done && Held() == 0 && Values() == []
    {
      this.part, this.held := part, held;
      started, done, skipped, taken, lines, read, value := false, false, 0, 0, [], false, Null;
      if part.body.ListPart? {
        sub := new ListReader(part.body.kind, false, held);
      } else {
        sub := null;
      }
      new;
      hide PartStream.Valid, PartStream.Held, PartStream.Values, ListReader.Valid, ListReader.Held;
      Opened();
    }

    lemma {:induction false} Opened()
      requires !started && !done && skipped == 0 && taken == 0 && lines == [] && !read
      requires match part.body
               case ListPart(k) =>
                 && sub != null && sub.kind == k && !sub.grouped && sub.held == held
                 && sub.Valid() && sub.fed == [] && sub.emitted == [] && sub.Held() == 0
               case SinglePart(_) => sub == null
      ensures Valid([]) && Held() == 0 && Values() == []
    {
      hide PartLines, Region, Closed, Complete, ListResult, PartResult, LinesCost, ListReader.Valid, ListReader.Held;
      NothingIsKept(part);
      NothingIsSeen(part.sel);
      NothingCosts();
    }

    /** What a line is to the part: inside its region, or the heading select.after states in full, or
        neither (region.admit). */
    method Admit(text: string, ghost seen: seq<Line>, ghost l: Line) returns (inside: bool, heading: bool)
      requires l.text == text && Follows(seen)
      modifies this`started, this`done, this`skipped, this`taken
      ensures Follows(seen + [l])
      ensures inside == (RoleOf(part.sel, seen, text) == Inside)
      ensures heading == (RoleOf(part.sel, seen, text) == Heading && part.sel.heading(text))
    {
      var sel := part.sel;
      FollowsSnoc(sel, seen, l);
      if done {
        return false, false;
      }
      if sel.after.Some? && !started {
        if sel.after.value(text) {
          started := true;
          return false, sel.heading(text);
        }
        return false, false;
      }
      if sel.until.Some? && sel.until.value(text) {
        done := true;
        return false, false;
      }
      if skipped < sel.skip {
        skipped := skipped + 1;
        return false, false;
      }
      // A limit reached before this line closed the region with the line that reached it.
      taken := taken + 1;
      if sel.limit > 0 && taken >= sel.limit {
        // The last line the part takes closes the region now.
        done := true;
      }
      return true, false;
    }

    /** What the part holds back is what the lines leave open. */
    lemma {:induction false} HeldIs(seen: seq<Line>)
      requires Valid(seen)
      ensures Held() == if read then 0 else HeldOpen(part, seen)
    {
      hide PartLines, ListReader.Valid, ListReader.Held, HeldBy, LinesCost, Complete, ListResult, PartResult, Closed;
      NothingCosts();
      if part.body.ListPart? && !read {
        sub.HeldIs();
      }
    }

    /** A part that has been read is offered nothing more, and stays as it is. */
    lemma {:induction false} StaysRead(seen: seq<Line>, l: Line)
      requires Valid(seen) && read
      ensures Valid(seen + [l])
    {
      ClosedSnoc(part.sel, seen, l);
    }

    /** One line of the composite. A list part reads the line or says why it cannot; a single-value
        part holds it back. */
    method Offer(l: Line, ghost seen: seq<Line>) returns (s: Status, heading: bool, took: bool)
      requires Valid(seen) && !read && held.bytes <= held.limit
      requires part.body.ListPart? ==> Agreed(part.body.kind)
      modifies Objects(), held
      ensures s == Good ==> Valid(seen + [l]) && held.bytes == old(held.bytes) + Held() - old(Held())
      ensures s == Refusal ==> part.body.ListPart? && Dead(part.body.kind, false, PartLines(part, seen + [l]))
      ensures held.bytes <= old(held.bytes) + Cost(l.text)
      ensures s == Overflow <==> held.bytes > held.limit
      ensures Weighed(s, old(held.bytes - Held() + PartReached(part, seen, Held(), l)), held.limit)
      ensures !read && old(Values()) <= Values()
      ensures
        var role := RoleOf(part.sel, seen, l.text);
        && heading == (role == Heading && part.sel.heading(l.text))
        && took == (role == Inside && !MatchesAny(part.ignore, l.text))
    {
      hide RoleOf, Closed, Dead, Complete, ListResult, PartLines, MatchesAny, LinesCost, PartResult, Reached, Cost;
      hide ListReader.Valid, ListReader.Held;
      NothingCosts();
      PartLinesSnoc(part, seen, l);
      var inside;
      inside, heading := Admit(l.text, seen, l);
      took := inside && !MatchesAny(part.ignore, l.text);
      s := Good;
      if took {
        if sub != null {
          s := sub.FeedRecord(l);
        } else {
          LinesCostSnoc(lines, l);
          var ok := held.Take(Cost(l.text));
          lines := lines + [l];
          if !ok {
            s := Overflow;
          }
        }
      }
    }

    /** Hand over what a list part was holding. */
    method Finish(ghost seen: seq<Line>) returns (s: Status)
      requires Keeps(seen) && part.body.ListPart? && !read && Agreed(part.body.kind)
      requires Ascending(PartLines(part, seen))
      modifies Objects(), held
      ensures read && s != Overflow && old(Values()) <= Values() && held.bytes <= old(held.bytes)
      ensures unchanged(this`started, this`done, this`skipped, this`taken)
      ensures old(Valid(seen)) && done && Keeps(seen) ==> Valid(seen)
      ensures s == Good ==> Keeps(seen) && held.bytes == old(held.bytes) + Held() - old(Held())
      ensures s == Refusal ==> !PartOk(part, seen)
    {
      read := true;
      s := sub.Finish();
    }

    /** Read the region of a single-value part. */
    method ReadValue(ghost seen: seq<Line>) returns (s: Status, own: seq<Line>, numbers: set<nat>)
      requires Keeps(seen) && part.body.SinglePart? && !read
      modifies this, held
      ensures read && s != Overflow && old(Values()) <= Values() && held.bytes <= old(held.bytes)
      ensures unchanged(this`started, this`done, this`skipped, this`taken)
      ensures old(Valid(seen)) && done && Keeps(seen) ==> Valid(seen)
      ensures own == PartLines(part, seen)
      ensures s == Good ==>
        && Keeps(seen) && held.bytes == old(held.bytes) + Held() - old(Held()) && Held() == 0
        && numbers == PartResult(part, seen).value.read
      ensures s == Refusal ==> !PartOk(part, seen)
    {
      NothingCosts();
      read, own, numbers := true, lines, {};
      lines := [];
      held.Give(LinesCost(own));
      var v := part.body.block(own);
      if v.Refused? {
        return Refusal, own, {};
      }
      value := v.value.value;
      return Good, own, ReadOf(own, v.value);
    }
  }

  /** What a composite hands over: a value of the part it names. */
  datatype Doc = Doc(part: string, value: Json)

  /** A document as it is written (partDocument). */
  function DocJson(d: Doc): Json {
    Obj([Member("part", Str(d.part)), Member("value", d.value)])
  }

  /** The values handed over for one part, in order. */
  function ValuesOf(docs: seq<Doc>, part: string): seq<Json> {
    if docs == [] then []
    else
      var before := ValuesOf(docs[..|docs| - 1], part);
      var d := docs[|docs| - 1];
      if d.part == part then before + [d.value] else before
  }

  /** The documents of several values of one part. */
  function DocsFor(part: string, values: seq<Json>): (docs: seq<Doc>)
    ensures |docs| == |values| && forall k :: 0 <= k < |docs| ==> docs[k].part == part
  {
    if values == [] then [] else DocsFor(part, values[..|values| - 1]) + [Doc(part, values[|values| - 1])]
  }

  lemma {:induction false} ValuesOfSnoc(docs: seq<Doc>, d: Doc, part: string)
    ensures ValuesOf(docs + [d], part) ==
      if d.part == part then ValuesOf(docs, part) + [d.value] else ValuesOf(docs, part)
  {
    assert (docs + [d])[..|docs|] == docs;
  }

  lemma {:induction false} ValuesOfMore(docs: seq<Doc>, part: string, values: seq<Json>, other: string)
    ensures ValuesOf(docs + DocsFor(part, values), other) ==
      if other == part then ValuesOf(docs, other) + values else ValuesOf(docs, other)
  {
    if values == [] {
      assert docs + DocsFor(part, values) == docs;
    } else {
      var n := |values| - 1;
      var init := docs + DocsFor(part, values[..n]);
      var all := docs + DocsFor(part, values);
      ValuesOfMore(docs, part, values[..n], other);
      ValuesOfSnoc(init, Doc(part, values[n]), other);
      assert all == init + [Doc(part, values[n])];
      assert values == values[..n] + [values[n]];
    }
  }

  /** The parts of a composite before any line has come. */
  method OpenParts(defs: seq<Part>, held: Hold) returns (ps: seq<PartStream>)
    ensures |ps| == |defs|
    ensures forall i :: 0 <= i < |ps| ==> ps[i].held == held && ps[i].part == defs[i] && fresh(ps[i].Objects())
    ensures forall i :: 0 <= i < |ps| ==>
      ps[i].Valid([]) && ps[i].Held() == 0 && ps[i].Values() == [] && !ps[i].read && !ps[i].done
    ensures forall i, j :: 0 <= i < |ps| && 0 <= j < |ps| && i != j ==> ps[i].Objects() !! ps[j].Objects()
  {
    hide PartStream.Valid, PartStream.Held, PartStream.Values;
    ps := [];
    for n := 0 to |defs|
      invariant |ps| == n
      invariant forall i :: 0 <= i < n ==> fresh(ps[i].Objects()) && ps[i].held == held && ps[i].part == defs[i]
      invariant forall i :: 0 <= i < n ==>
        ps[i].Valid([]) && ps[i].Held() == 0 && ps[i].Values() == [] && !ps[i].read && !ps[i].done
      invariant forall i, j :: 0 <= i < n && 0 <= j < n && i != j ==> ps[i].Objects() !! ps[j].Objects()
    {
      var p := new PartStream(defs[n], held);
      ps := ps + [p];
    }
  }

  class CompositeStream {
    const parts: seq<PartStream>
    const held: Hold
    /** What became of the lines only single-value parts took, by number. */
    var fates: map<nat, Fate>
    /** The documents handed over. */
    var docs: seq<Doc>

    ghost var fed: seq<Line>

    ghost function Objects(): set<object> {
      set i, o | 0 <= i < |parts| && o in parts[i].Objects() :: o
    }

    /** Everything the composite is made of. */
    ghost function Footprint(): set<object> {
      {this} + (set p: object | p in parts) + Objects()
    }

    /** The parts are objects of their own, with names of their own. */
    ghost predicate Apart() {
      && (forall i :: 0 <= i < |parts| ==> parts[i].held == held)
      && (forall i, j :: 0 <= i < |parts| && 0 <= j < |parts| && i != j ==> parts[i].Objects() !! parts[j].Objects())
      && (forall i, j :: 0 <= i < j < |parts| ==> parts[i].part.name != parts[j].part.name)
      && (forall i :: 0 <= i < |parts| && parts[i].part.body.ListPart? ==> Agreed(parts[i].part.body.kind))
    }

    /** The parts of the definition. */
    ghost function Defs(): (ps: seq<Part>)
      ensures |ps| == |parts| && forall i :: 0 <= i < |parts| ==> ps[i] == parts[i].part
    {
      seq(|parts|, i requires 0 <= i < |parts| => parts[i].part)
    }

    /** The parts as they stand. */
    ghost function Views(): (vs: seq<View>)
      reads parts
      ensures |vs| == |parts| && forall i :: 0 <= i < |parts| ==> vs[i] == View(parts[i].part, parts[i].read)
    {
      seq(|parts|, i requires 0 <= i < |parts| reads parts => View(parts[i].part, parts[i].read))
    }

    /** What each part holds back. */
    ghost function HeldByPart(): (hs: seq<nat>)
      reads Objects()
      ensures |hs| == |parts| && forall i :: 0 <= i < |parts| ==> hs[i] == parts[i].Held()
    {
      seq(|parts|, i requires 0 <= i < |parts| reads Objects() => parts[i].Held())
    }

    ghost function Held(): nat
      reads Objects()
    {
      Sum(HeldByPart())
    }

    ghost function Names(): set<string> {
      set i | 0 <= i < |parts| :: parts[i].part.name
    }

    /** Every document is one of a part, and the documents of a part are the values it has handed over. */
    ghost predicate Handed()
      reads this`docs, Objects()
    {
      && (forall i :: 0 <= i < |parts| ==> ValuesOf(docs, parts[i].part.name) == parts[i].Values())
      && (forall k :: 0 <= k < |docs| ==> docs[k].part in Names())
    }

    /** A part has been read as soon as its region has closed. */
    ghost predicate Prompt()
      reads parts, Objects()
    {
      forall i :: 0 <= i < |parts| ==> parts[i].done == parts[i].read
    }

    ghost predicate Valid()
      reads this, parts, Objects()
    {
      && Apart() && Handed() && Prompt()
      && Ascending(fed) && Fates(fates, Views(), fed)
      && Stand(0, |parts|, fed)
    }

    constructor (defs: seq<Part>, held: Hold)
      requires forall i, j :: 0 <= i < j < |defs| ==> defs[i].name != defs[j].name
      requires forall i :: 0 <= i < |defs| && defs[i].body.ListPart? ==> Agreed(defs[i].body.kind)
      ensures this.held == held && fresh(this) && fresh(Objects()) && Defs() == defs
      ensures Valid() && fed == [] && docs == [] && Held() == 0
    {
      var ps := OpenParts(defs, held);
      hide PartStream.Valid, PartStream.Held, PartStream.Values, Fates, Agreed;
      parts := ps;
      this.held, fates, docs, fed := held, map[], [], [];
      new;
      hide CompositeStream.Valid, CompositeStream.Held;
      Opened(defs);
    }

    /** Parts no line has come to make a composite no line has come to. */
    lemma {:induction false} Opened(defs: seq<Part>)
      requires |parts| == |defs| && fates == map[] && docs == [] && fed == []
      requires forall i :: 0 <= i < |parts| ==> parts[i].held == held && parts[i].part == defs[i]
      requires forall i :: 0 <= i < |parts| ==>
        parts[i].Valid([]) && parts[i].Held() == 0 && parts[i].Values() == [] && !parts[i].read && !parts[i].done
      requires forall i, j :: 0 <= i < |parts| && 0 <= j < |parts| && i != j ==> parts[i].Objects() !! parts[j].Objects()
      requires forall i, j :: 0 <= i < j < |defs| ==> defs[i].name != defs[j].name
      requires forall i :: 0 <= i < |defs| && defs[i].body.ListPart? ==> Agreed(defs[i].body.kind)
      ensures Valid() && Held() == 0 && Defs() == defs
    {
      hide PartStream.Valid, PartStream.Held, PartStream.Values, PartStream.Objects, Fates, Agreed;
      SumOfNothing(HeldByPart());
      NoFates(Views());
    }

    lemma {:induction false} PartsAreObjects()
      ensures Footprint() == {this} + Objects()
      ensures forall o :: o in Objects() ==> o is PartStream || o is ListReader
    {
      forall p: object | p in parts ensures p in Objects() {
        var i :| 0 <= i < |parts| && parts[i] == p;
        assert p in parts[i].Objects();
      }
    }

    lemma {:induction false} DocsAreOfParts()
      requires Handed()
      ensures forall k :: 0 <= k < |docs| ==> IsAPart(Defs(), docs[k].part)
    {
      hide ValuesOf, PartStream.Values;
      var ps := Defs();
      forall k | 0 <= k < |docs| ensures IsAPart(ps, docs[k].part) {
        assert docs[k].part in Names();
        var i :| 0 <= i < |parts| && parts[i].part.name == docs[k].part;
        assert ps[i].name == docs[k].part;
      }
    }

    /** Hand over the values part i has come to since it had n of them. */
    method Emit(i: nat, n: nat)
      requires i < |parts| && Apart() && n <= |parts[i].Values()|
      requires ValuesOf(docs, parts[i].part.name) == parts[i].Values()[..n]
      requires forall j :: 0 <= j < |parts| && j != i ==> ValuesOf(docs, parts[j].part.name) == parts[j].Values()
      requires forall k :: 0 <= k < |docs| ==> docs[k].part in Names()
      modifies this`docs
      ensures Handed() && old(docs) <= docs
    {
      hide PartStream.Values, ValuesOf;
      var p := parts[i];
      var values := p.Values()[n..];
      forall j | 0 <= j < |parts|
        ensures ValuesOf(docs + DocsFor(p.part.name, values), parts[j].part.name) == parts[j].Values()
      {
        ValuesOfMore(docs, p.part.name, values, parts[j].part.name);
        assert p.Values() == p.Values()[..n] + values;
      }
      docs := docs + DocsFor(p.part.name, values);
      forall j | 0 <= j < |parts| ensures parts[j].Values() == old(parts[j].Values()) {
        assert this !in parts[j].Objects();
      }
    }

    /** One line for part i, and what the part hands over for it. */
    method OfferTo(i: nat, l: Line) returns (s: Status, heading: bool, took: bool)
      requires i < |parts| && Apart() && Handed()
      requires parts[i].Valid(fed) && !parts[i].read && held.bytes <= held.limit
      modifies parts[i].Objects(), held, this`docs
      ensures Handed() && old(docs) <= docs && !parts[i].read
      ensures s == Good ==>
        && parts[i].Valid(fed + [l])
        && held.bytes == old(held.bytes) + parts[i].Held() - old(parts[i].Held())
      ensures s == Refusal ==> CompositeDead(Defs(), fed + [l])
      ensures held.bytes <= old(held.bytes) + Cost(l.text)
      ensures s == Overflow <==> held.bytes > held.limit
      ensures Weighed(s, old(held.bytes - parts[i].Held() + PartReached(parts[i].part, fed, parts[i].Held(), l)), held.limit)
      ensures
        var role := RoleOf(parts[i].part.sel, fed, l.text);
        && heading == (role == Heading && parts[i].part.sel.heading(l.text))
        && took == (role == Inside && !MatchesAny(parts[i].part.ignore, l.text))
    {
      hide PartStream.Valid, PartStream.Held, PartStream.Values, ValuesOf, CompositeDead, Dead, RoleOf, MatchesAny, PartLines;
      var n := |parts[i].Values()|;
      s, heading, took := parts[i].Offer(l, fed);
      if s == Refusal {
        ListPartDead(Defs(), i, fed + [l]);
      }
      Emit(i, n);
    }

    /** Every part but part i is as it was. */
    twostate predicate Aside(new i: nat, new seen: seq<Line>, new all: seq<Line>)
      reads parts, Objects()
    {
      forall j :: 0 <= j < |parts| && j != i ==>
        (&& parts[j].Valid(seen) == old(parts[j].Valid(seen)) && parts[j].Valid(all) == old(parts[j].Valid(all))
         && parts[j].Keeps(seen) == old(parts[j].Keeps(seen)) && parts[j].done == old(parts[j].done)
         && parts[j].Held() == old(parts[j].Held())
         && parts[j].read == old(parts[j].read))
    }

    /** What the parts hold together changes by what one of them does. */
    twostate lemma HeldChanges(i: nat)
      requires i < |parts| && forall j :: 0 <= j < |parts| && j != i ==> parts[j].Held() == old(parts[j].Held())
      ensures Held() == old(Held()) - old(parts[i].Held()) + parts[i].Held()
    {
      hide PartStream.Held, PartStream.Valid;
      SumUpdate(old(HeldByPart()), i, parts[i].Held());
      assert HeldByPart() == old(HeldByPart())[i := parts[i].Held()];
    }

    /** The parts from lo to hi are where the lines seen leave them. */
    ghost predicate Stand(lo: nat, hi: nat, seen: seq<Line>)
      requires hi <= |parts|
      reads Objects()
    {
      forall j :: lo <= j < hi ==> parts[j].Valid(seen)
    }

    twostate lemma ViewsChange(i: nat)
      requires i < |parts|
      requires forall j :: 0 <= j < |parts| && j != i ==> parts[j].read == old(parts[j].read)
      ensures Views() == old(Views())[i := View(parts[i].part, parts[i].read)]
    {
    }

    /** What offering part i a line makes of the composite. */
    twostate lemma Offered(new i: nat, new seen: seq<Line>, new all: seq<Line>)
      requires i < |parts|
      requires Aside(i, seen, all)
      requires parts[i].read == old(parts[i].read)
      requires old(Stand(0, i, all))
      requires old(Stand(i, |parts|, seen))
      ensures Views() == old(Views()) && Stand(i + 1, |parts|, seen)
      ensures Held() == old(Held()) - old(parts[i].Held()) + parts[i].Held()
      ensures parts[i].Valid(all) ==> Stand(0, i + 1, all)
    {
      hide PartStream.Held, PartStream.Valid;
      HeldChanges(i);
    }

    lemma {:induction false} Within(i: nat)
      requires i < |parts|
      ensures parts[i].Objects() <= Objects()
    {
    }

    /** One line for part i, if the part has not been read: whether it waits for the part, and whether
        the part answers for it. */
    method OfferNext(i: nat, l: Line) returns (s: Status, waits: bool, answered: bool)
      requires i < |parts| && Apart() && Handed() && Ascending(fed + [l])
      requires parts[i].Valid(fed) && held.bytes <= held.limit
      modifies parts[i].Objects(), held, this`docs
      ensures Aside(i, fed, fed + [l]) && unchanged(this`fed, this`fates)
      ensures Handed() && old(docs) <= docs && parts[i].read == old(parts[i].read)
      ensures s == Good ==>
        && parts[i].Valid(fed + [l])
        && held.bytes == old(held.bytes) + parts[i].Held() - old(parts[i].Held())
        && waits == Waits(View(parts[i].part, parts[i].read), fed + [l], l.num)
        && answered == AnsweredBy(View(parts[i].part, parts[i].read), fed + [l], l.num)
      ensures s == Refusal ==> CompositeDead(Defs(), fed + [l])
      ensures held.bytes <= old(held.bytes) + Cost(l.text)
      ensures s == Overflow <==> held.bytes > held.limit
      ensures Weighed(s, old(held.bytes - parts[i].Held() + PartReached(parts[i].part, fed, parts[i].Held(), l)), held.limit)
    {
      hide PartStream.Valid, PartStream.Held, PartStream.Values, CompositeStream.Handed, CompositeStream.Defs;
      hide Waits, AnsweredBy, RoleOf, MatchesAny, CompositeDead, Closed;
      var p := parts[i];
      if p.read {
        ReadIsClosed(i);
        p.StaysRead(fed, l);
        NewLine(View(p.part, true), fed, l);
        return Good, false, false;
      }
      NewLine(View(p.part, false), fed, l);
      var heading, took;
      s, heading, took := OfferTo(i, l);
      waits := took && p.part.body.SinglePart?;
      answered := heading || (took && p.part.body.ListPart?);
    }

    /** What the parts hold when the first n of them have been offered the line. */
    lemma {:induction false} PartsStand(n: nat, l: Line)
      requires n <= |parts| && Stand(0, n, fed + [l]) && Stand(n, |parts|, fed) && ReadWhenClosed(Views(), fed)
      ensures HeldByPart() == PartsHold(Defs(), fed, l, n)
    {
      hide PartStream.Valid, PartStream.Held, HeldOpen, Closed;
      forall i | 0 <= i < |parts|
        ensures parts[i].Held() == PartHolds(parts[i].part, fed, if i < n then fed + [l] else fed)
      {
        assert Views()[i].read == Closed(parts[i].part.sel, fed);
        parts[i].HeldIs(if i < n then fed + [l] else fed);
      }
    }

    /** How high part i brings what is held. */
    lemma {:induction false} Height(i: nat, l: Line)
      requires i < |parts| && Stand(0, i, fed + [l]) && Stand(i, |parts|, fed) && ReadWhenClosed(Views(), fed)
      ensures TogetherAt(Defs(), fed, l, i) ==
        Held() - parts[i].Held() + PartReached(parts[i].part, fed, parts[i].Held(), l)
    {
      hide PartStream.Valid, PartStream.Held, PartReached, PartHolds;
      PartsStand(i, l);
      SumUpdate(HeldByPart(), i, PartReached(parts[i].part, fed, parts[i].Held(), l));
    }

    lemma {:induction false} PromptIsClosed()
      requires Stand(0, |parts|, fed) && Prompt()
      ensures ReadWhenClosed(Views(), fed)
    {
      hide PartStream.Keeps, PartStream.Held, Closed;
      assert forall i :: 0 <= i < |parts| ==> parts[i].Valid(fed);
    }

    /** What a composite holds back is what the lines leave open. */
    lemma {:induction false} HeldIs()
      requires Valid()
      ensures Held() == HeldByBody(Composite(Defs()), fed)
    {
      hide PartStream.Valid, PartStream.Held, HeldOpen, Closed, CompositeStream.Handed, CompositeStream.Apart;
      hide PartHolds, Sum, CompositeStream.Prompt, Fates, Ascending;
      PromptIsClosed();
      PartsStand(0, Line("", 0));
      assert HeldByPart() == AllHold(Defs(), fed);
    }

    /** Offer a line to every part that has not been read: how many single-value parts took it, and
        whether a part is known to read it. */
    method OfferAll(l: Line) returns (s: Status, single: nat, accounted: bool)
      requires Valid() && Ascending(fed + [l]) && held.bytes <= held.limit
      modifies Objects(), held, this`docs
      ensures Handed() && old(docs) <= docs && Views() == old(Views()) && unchanged(this`fed, this`fates)
      ensures s == Good ==>
        && Stand(0, |parts|, fed + [l])
        && single == Pending(Views(), fed + [l], l.num)
        && accounted == Answered(Views(), fed + [l], l.num)
        && held.bytes == old(held.bytes) + Held() - old(Held())
      ensures s == Refusal ==> CompositeDead(Defs(), fed + [l])
      ensures held.bytes <= old(held.bytes) + Times(|parts|, Cost(l.text))
      ensures s == Overflow <==> held.bytes > held.limit
      ensures Weighed(s, old(held.bytes - Held() + OfferedPeak(Defs(), fed, l, |parts|)), held.limit)
    {
      hide PartStream.Valid, PartStream.Held, PartStream.Values, CompositeStream.Handed, CompositeStream.Held;
      hide CompositeStream.Views, CompositeStream.Defs, CompositeStream.Prompt, Fates, Pending, Answered, Waits, AnsweredBy, CompositeDead;
      hide Cost, Ascending, Times, CompositeStream.Objects, PartStream.Objects, CompositeStream.Aside;
      hide TogetherAt, PartReached, ReadWhenClosed;
      s, single, accounted := Good, 0, false;
      PromptIsClosed();
      ghost var defs, base := Defs(), held.bytes - Held();
      ghost var all, vs := fed + [l], Views();
      Untaken(all, l.num);
      MoreTimes(0, |parts|, Cost(l.text));
      for i := 0 to |parts|
        invariant unchanged(this`fed, this`fates)
        invariant s == Good && Handed() && old(docs) <= docs && Views() == vs
        invariant Stand(0, i, all)
        invariant Stand(i, |parts|, fed)
        invariant single == Pending(vs[..i], all, l.num) && accounted == Answered(vs[..i], all, l.num)
        invariant held.bytes == old(held.bytes) + Held() - old(Held())
        invariant held.bytes <= old(held.bytes) + Times(i, Cost(l.text)) && held.bytes <= held.limit
        invariant base + OfferedPeak(defs, fed, l, i) <= held.limit
      {
        label Before:
        assert vs[..i + 1] == vs[..i] + [vs[i]];
        PendingSnoc(vs[..i], vs[i], all, l.num);
        AnsweredSnoc(vs[..i], vs[i], all, l.num);
        var waits, answered;
        Within(i);
        Height(i, l);
        s, waits, answered := OfferNext(i, l);
        Offered@Before(i, fed, all);
        MoreTimes(i + 1, |parts|, Cost(l.text));
        OfferedPeakGrows(defs, fed, l, i + 1, |parts|);
        if s != Good {
          return;
        }
        single := single + if waits then 1 else 0;
        accounted := accounted || answered;
      }
      assert vs[..|parts|] == vs;
    }

    /** What reading part i leaves of the fates of its lines: each waits for one part fewer, and one
        that waits for none any more has to have been read. A refusal names every line that has not;
        the first is enough to refuse. */
    method Settle(i: nat, own: seq<Line>, numbers: set<nat>, ghost vs: seq<View>) returns (ok: bool)
      requires i < |vs| && vs[i].part.body.SinglePart? && !vs[i].read && Ascending(fed) && Fates(fates, vs, fed)
      requires PartResult(vs[i].part, fed).Ok? && numbers == PartResult(vs[i].part, fed).value.read
      requires own == PartLines(vs[i].part, fed)
      modifies this`fates
      ensures ok ==> Fates(fates, vs[i := View(vs[i].part, true)], fed)
      ensures !ok ==> Lost(vs[i := View(vs[i].part, true)], fed)
    {
      hide Pending, Answered, PartResult, PartLines, FateOf, Lost;
      ghost var after := vs[i := View(vs[i].part, true)];
      PartAscending(vs[i].part, fed);
      for k := 0 to |own|
        invariant Halfway(fates, vs, after, fed, Numbers(own[..k]))
      {
        var l := own[k];
        KeptAreLines(vs[i].part, fed, k);
        assert own[..k + 1] == own[..k] + [l];
        NumbersConcat(own[..k], [l]);
        assert Numbers(own[..k + 1]) == Numbers(own[..k]) + {l.num};
        HalfwayStep(fates, vs, i, fed, Numbers(own[..k]), l);
        if l.num in fates {
          var f := Fate(fates[l.num].pending - 1, fates[l.num].read || l.num in numbers);
          if f.pending > 0 {
            fates := fates[l.num := f];
          } else {
            fates := fates - {l.num};
            if !f.read && !Blank(l.text) {
              return false;
            }
          }
        }
      }
      assert own[..|own|] == own;
      HalfwayEnds(fates, vs, i, fed);
      return true;
    }

    /** The parts are none of the composite's own objects. */
    lemma {:induction false} Elsewhere()
      ensures forall i :: 0 <= i < |parts| ==> this !in parts[i].Objects() && held !in parts[i].Objects()
      ensures this !in Objects() && held !in Objects()
    {
    }

    /** Hand over what list part i was holding. */
    method FinishPart(i: nat) returns (s: Status)
      requires i < |parts| && Apart() && Handed() && Ascending(fed)
      requires parts[i].Keeps(fed) && !parts[i].read && parts[i].part.body.ListPart?
      modifies parts[i].Objects(), held, this`docs
      ensures Aside(i, fed, fed) && unchanged(this`fed, this`fates)
      ensures parts[i].read && parts[i].done == old(parts[i].done)
      ensures Handed() && old(docs) <= docs && s != Overflow && held.bytes <= old(held.bytes)
      ensures s == Good ==>
        parts[i].Keeps(fed) && held.bytes == old(held.bytes) + parts[i].Held() - old(parts[i].Held())
      ensures old(parts[i].Valid(fed)) && parts[i].done && parts[i].Keeps(fed) ==> parts[i].Valid(fed)
      ensures s == Refusal ==> !PartOk(parts[i].part, fed)
    {
      hide PartStream.Valid, PartStream.Keeps, PartStream.Held, PartStream.Values, PartOk, PartLines, ValuesOf, Ascending;
      var n := |parts[i].Values()|;
      PartAscending(parts[i].part, fed);
      s := parts[i].Finish(fed);
      Emit(i, n);
    }

    /** Read the region of single-value part i. */
    method ReadRegion(i: nat) returns (s: Status, own: seq<Line>, numbers: set<nat>)
      requires i < |parts| && Apart() && Handed() && Ascending(fed)
      requires parts[i].Keeps(fed) && !parts[i].read && parts[i].part.body.SinglePart?
      modifies parts[i].Objects(), held, this`docs
      ensures Aside(i, fed, fed) && unchanged(this`fed, this`fates)
      ensures parts[i].read && parts[i].done == old(parts[i].done)
      ensures Handed() && old(docs) <= docs && s != Overflow && held.bytes <= old(held.bytes)
      ensures s == Good ==>
        parts[i].Keeps(fed) && held.bytes == old(held.bytes) + parts[i].Held() - old(parts[i].Held())
      ensures old(parts[i].Valid(fed)) && parts[i].done && parts[i].Keeps(fed) ==> parts[i].Valid(fed)
      ensures s == Refusal ==> !PartOk(parts[i].part, fed)
      ensures own == PartLines(parts[i].part, fed)
      ensures s == Good ==> PartResult(parts[i].part, fed).Ok? && numbers == PartResult(parts[i].part, fed).value.read
    {
      hide PartStream.Valid, PartStream.Keeps, PartStream.Held, PartStream.Values, PartOk, PartLines, ValuesOf, Ascending;
      var n := |parts[i].Values()|;
      s, own, numbers := parts[i].ReadValue(fed);
      Emit(i, n);
    }

    /** Read part i: a single-value part whole, and what a list part was holding. */
    method ReadPart(i: nat) returns (s: Status)
      requires i < |parts| && Apart() && Handed() && Ascending(fed) && Fates(fates, Views(), fed)
      requires parts[i].Keeps(fed) && !parts[i].read
      modifies parts[i].Objects(), held, this`docs, this`fates
      ensures Aside(i, fed, fed) && unchanged(this`fed)
      ensures parts[i].read && parts[i].done == old(parts[i].done)
      ensures Handed() && old(docs) <= docs && s != Overflow && held.bytes <= old(held.bytes)
      ensures s == Good ==>
        && parts[i].Keeps(fed) && Fates(fates, Views(), fed)
        && held.bytes == old(held.bytes) + parts[i].Held() - old(parts[i].Held())
      ensures old(parts[i].Valid(fed)) && parts[i].done && parts[i].Keeps(fed) ==> parts[i].Valid(fed)
      ensures s == Refusal ==> !PartOk(parts[i].part, fed) || Lost(Views(), fed)
    {
      hide PartStream.Valid, PartStream.Keeps, PartStream.Held, PartStream.Values, PartOk, PartLines, ValuesOf, Ascending;
      hide CompositeStream.Views, CompositeStream.Apart, CompositeStream.Objects, Fates, Lost;
      Elsewhere();
      if parts[i].part.body.ListPart? {
        s := FinishPart(i);
        ViewsChange(i);
        ListReadKeepsFates(fates, old(Views()), i, fed);
      } else {
        var own, numbers;
        s, own, numbers := ReadRegion(i);
        ViewsChange(i);
        if s == Good {
          var ok := Settle(i, own, numbers, old(Views()));
          if !ok {
            s := Refusal;
          }
        }
      }
    }

    lemma {:induction false} ReadIsClosed(i: nat)
      requires i < |parts| && parts[i].Valid(fed) && (parts[i].read || parts[i].done)
      ensures Closed(parts[i].part.sel, fed)
    {
    }

    lemma {:induction false} ReadAllClosed()
      requires Stand(0, |parts|, fed)
      ensures ReadAreClosed(Views(), fed)
    {
      hide PartStream.Valid, Closed;
      forall i | 0 <= i < |parts| && parts[i].read ensures Closed(parts[i].part.sel, fed) {
        ReadIsClosed(i);
      }
    }

    /** The first n parts have been read exactly when their regions have closed. */
    ghost predicate PromptTo(n: nat)
      requires n <= |parts|
      reads parts
    {
      forall i :: 0 <= i < n ==> parts[i].done == parts[i].read
    }

    /** What reading part i makes of the composite. */
    twostate lemma Took(i: nat)
      requires i < |parts|
      requires Aside(i, fed, fed)
      requires old(Stand(0, |parts|, fed))
      requires old(PromptTo(i))
      requires fed == old(fed)
      requires parts[i].done && parts[i].read
      ensures Held() == old(Held()) - old(parts[i].Held()) + parts[i].Held()
      ensures parts[i].Valid(fed) ==> Stand(0, |parts|, fed)
      ensures PromptTo(i + 1)
    {
      hide PartStream.Held, PartStream.Valid, PartStream.Keeps;
      HeldChanges(i);
    }

    /** Read the parts whose regions the last line has closed. */
    method CloseDone() returns (s: Status)
      requires Apart() && Handed() && Ascending(fed) && Fates(fates, Views(), fed) && Stand(0, |parts|, fed)
      modifies Objects(), held, this`docs, this`fates
      ensures unchanged(this`fed) && Handed() && old(docs) <= docs && s != Overflow && held.bytes <= old(held.bytes)
      ensures s == Good ==> Valid() && held.bytes == old(held.bytes) + Held() - old(Held())
      ensures s == Refusal ==> CompositeDead(Defs(), fed)
    {
      hide PartStream.Valid, PartStream.Keeps, PartStream.Held, PartStream.Values, PartStream.Objects;
      hide CompositeStream.Handed, CompositeStream.Views, CompositeStream.Held, CompositeStream.Objects;
      hide CompositeStream.Aside, Fates, Lost, PartOk, CompositeDead, Closed, ReadAreClosed, Ascending;
      s := Good;
      for i := 0 to |parts|
        invariant unchanged(this`fed) && Handed() && old(docs) <= docs && s == Good && Fates(fates, Views(), fed)
        invariant Stand(0, |parts|, fed)
        invariant PromptTo(i)
        invariant held.bytes == old(held.bytes) + Held() - old(Held()) && held.bytes <= old(held.bytes)
      {
        label Before:
        Within(i);
        StandsAt(i);
        if parts[i].done && !parts[i].read {
          WillBeClosed(i);
          s := ReadPart(i);
          Took@Before(i);
          ViewsMove@Before(i);
          if s == Refusal {
            Doomed(i);
            return;
          }
        }
      }
    }

    twostate lemma ViewsMove(i: nat)
      requires i < |parts|
      requires Aside(i, fed, fed)
      ensures Views() == old(Views())[i := View(parts[i].part, parts[i].read)]
    {
      hide PartStream.Held, PartStream.Valid, PartStream.Keeps;
    }

    /** A part that cannot be read, or a line that is lost, ends the composite. */
    lemma {:induction false} Doomed(i: nat)
      requires i < |parts| && Closed(parts[i].part.sel, fed) && ReadAreClosed(Views(), fed)
      requires !PartOk(parts[i].part, fed) || Lost(Views(), fed)
      ensures CompositeDead(Defs(), fed)
    {
      hide PartOk, Lost, CompositeDead, Closed, ReadAreClosed;
      if Lost(Views(), fed) {
        LostIsUnread(Defs(), Views(), fed);
      } else {
        ClosedPartDead(Defs(), i, fed);
      }
    }

    /** One line of the input (feedComposite). */
    method Feed(l: Line) returns (s: Status)
      requires Valid() && Ascending(fed + [l]) && held.bytes <= held.limit
      modifies this, Objects(), held
      ensures fed == old(fed) + [l] && Handed() && old(docs) <= docs
      ensures s == Good ==> Valid() && held.bytes == old(held.bytes) + Held() - old(Held())
      ensures s == Refusal ==> CompositeDead(Defs(), fed)
      ensures held.bytes <= old(held.bytes) + Times(|parts|, Cost(l.text))
      ensures s == Overflow <==> held.bytes > held.limit
      ensures Weighed(s, old(held.bytes - Held() + OfferedPeak(Defs(), fed, l, |parts|)), held.limit)
    {
      hide PartStream.Valid, PartStream.Held, PartStream.Values, PartStream.Objects, CompositeStream.Objects;
      hide CompositeStream.Handed, CompositeStream.Held, CompositeStream.Stand, CompositeStream.Defs;
      hide CompositeStream.Prompt, CompositeStream.Apart, CompositeDead;
      hide Fates, Pending, Answered, Times, Cost, ReadAreClosed, Ascending, OfferedPeak;
      Elsewhere();
      ghost var height := held.bytes - Held() + OfferedPeak(Defs(), fed, l, |parts|);
      ReadAllClosed();
      var single, accounted;
      s, single, accounted := OfferAll(l);
      fed := fed + [l];
      if s != Good {
        return;
      }
      if single == 0 && !accounted && !Blank(l.text) {
        ReadAllClosed();
        LineDead(Defs(), Views(), fed, |fed| - 1);
        return Refusal;
      }
      FatesSnoc(fates, Views(), old(fed), l);
      if single > 0 {
        fates := fates[l.num := Fate(single, accounted)];
      }
      s := CloseDone();
    }

    /** The end of the input (finishComposite). */
    method Finish() returns (s: Status)
      requires Valid()
      modifies Objects(), held, this`docs, this`fates
      ensures unchanged(this`fed) && Handed() && old(docs) <= docs && s != Overflow && held.bytes <= old(held.bytes)
      ensures s == Good ==>
        && CompositeComplete(Defs(), fed) && held.bytes == old(held.bytes) - old(Held())
        && forall i :: 0 <= i < |Defs()| ==> ValuesOf(docs, Defs()[i].name) == PartValues(Defs()[i], fed)
      ensures s == Refusal ==> !CompositeComplete(Defs(), fed)
    {
      hide PartStream.Valid, PartStream.Keeps, PartStream.Held, PartStream.Values, PartStream.Objects;
      hide CompositeStream.Handed, CompositeStream.Views, CompositeStream.Held, CompositeStream.Objects;
      hide CompositeStream.Aside, CompositeStream.Stand, CompositeStream.AllKeep, CompositeStream.Prompt;
      hide CompositeStream.Defs, Fates, Lost, PartOk, CompositeComplete, Closed, Ascending, ValuesOf, PartValues;
      StandsAll();
      s := Good;
      for i := 0 to |parts|
        invariant unchanged(this`fed) && Handed() && old(docs) <= docs && s == Good && Fates(fates, Views(), fed)
        invariant AllKeep() && ReadTo(i)
        invariant held.bytes == old(held.bytes) + Held() - old(Held()) && held.bytes <= old(held.bytes)
      {
        label Before:
        Within(i);
        KeepsAt(i);
        if !parts[i].read {
          s := ReadPart(i);
          TookKeeps@Before(i);
          if s == Refusal {
            Unfinished(i);
            return;
          }
        }
      }
      Through();
    }

    ghost predicate AllKeep()
      reads this`fed, Objects()
    {
      forall i :: 0 <= i < |parts| ==> parts[i].Keeps(fed)
    }

    ghost predicate ReadTo(n: nat)
      requires n <= |parts|
      reads parts
    {
      forall i :: 0 <= i < n ==> parts[i].read
    }

    lemma {:induction false} KeepsAt(i: nat)
      requires i < |parts| && AllKeep()
      ensures parts[i].Keeps(fed)
    {
    }

    lemma {:induction false} StandsAll()
      requires Stand(0, |parts|, fed)
      ensures AllKeep()
    {
      hide PartStream.Valid, PartStream.Keeps;
      forall i | 0 <= i < |parts| ensures parts[i].Keeps(fed) {
        StandsAt(i);
      }
    }

    twostate lemma TookKeeps(i: nat)
      requires i < |parts|
      requires Aside(i, fed, fed)
      requires old(AllKeep())
      requires old(ReadTo(i))
      requires fed == old(fed) && parts[i].read
      ensures Held() == old(Held()) - old(parts[i].Held()) + parts[i].Held()
      ensures parts[i].Keeps(fed) ==> AllKeep()
      ensures ReadTo(i + 1)
    {
      hide PartStream.Held, PartStream.Valid, PartStream.Keeps;
      HeldChanges(i);
    }

    lemma {:induction false} Unfinished(i: nat)
      requires i < |parts| && (!PartOk(parts[i].part, fed) || Lost(Views(), fed))
      ensures !CompositeComplete(Defs(), fed)
    {
      hide PartOk, Lost;
      if Lost(Views(), fed) {
        hide CompositeComplete;
        LostIsUnread(Defs(), Views(), fed);
      } else {
        assert !PartOk(Defs()[i], fed);
      }
    }

    /** Part i as it is when it has been read. */
    lemma {:induction false} ThroughAt(i: nat)
      requires i < |parts| && parts[i].Keeps(fed) && parts[i].read
      ensures PartOk(parts[i].part, fed) && parts[i].Values() == PartValues(parts[i].part, fed) && parts[i].Held() == 0
    {
      NothingCosts();
      hide PartLines, ListResult, Covers, PartResult, LinesCost;
    }

    /** Every part has been read, so the composite is complete and holds nothing. */
    lemma {:induction false} Through()
      requires AllKeep() && ReadTo(|parts|) && Handed() && Fates(fates, Views(), fed) && Ascending(fed)
      ensures CompositeComplete(Defs(), fed) && Held() == 0
      ensures forall i :: 0 <= i < |Defs()| ==> ValuesOf(docs, Defs()[i].name) == PartValues(Defs()[i], fed)
    {
      hide PartStream.Keeps, PartStream.Held, PartStream.Values, PartStream.Objects, CompositeStream.Objects;
      hide PartOk, PartValues, ValuesOf, Fates, CompositeComplete, Ascending;
      forall i | 0 <= i < |parts|
        ensures PartOk(parts[i].part, fed) && parts[i].Values() == PartValues(parts[i].part, fed) && parts[i].Held() == 0
      {
        ThroughAt(i);
      }
      SumOfNothing(HeldByPart());
      AllReadIsComplete(Defs(), Views(), fates, fed);
    }

    lemma {:induction false} StandsAt(i: nat)
      requires i < |parts| && Stand(0, |parts|, fed)
      ensures parts[i].Valid(fed) && parts[i].Keeps(fed) && (parts[i].read ==> parts[i].done)
    {
      hide PartStream.Keeps, PartStream.Follows;
    }

    /** Once part i, whose region has closed, has been read, the parts read have closed regions. */
    lemma {:induction false} WillBeClosed(i: nat)
      requires i < |parts| && Stand(0, |parts|, fed) && parts[i].done
      ensures ReadAreClosed(Views()[i := View(parts[i].part, true)], fed) && Closed(parts[i].part.sel, fed)
    {
      hide PartStream.Valid, Closed;
      ReadAllClosed();
      ReadIsClosed(i);
    }
  }

  function Times(n: nat, c: nat): nat {
    n * c
  }

  lemma {:induction false} MoreTimes(m: nat, n: nat, c: nat)
    requires m <= n
    ensures Times(m, c) <= Times(n, c) && Times(0, c) == 0
    ensures m > 0 ==> Times(m, c) == Times(m - 1, c) + c
  {
    assert n * c == m * c + (n - m) * c;
  }

  lemma {:induction false} Untaken(lines: seq<Line>, num: nat)
    ensures Pending([], lines, num) == 0 && !Answered([], lines, num)
  {
  }

  lemma {:induction false} NoFates(vs: seq<View>)
    ensures Fates(map[], vs, []) && Ascending([])
  {
  }

  lemma {:induction false} SumOfNothing(held: seq<nat>)
    requires forall i :: 0 <= i < |held| ==> held[i] == 0
    ensures Sum(held) == 0
  {
    if held != [] {
      SumOfNothing(held[..|held| - 1]);
    }
  }
}
