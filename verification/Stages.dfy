/**
 What the input stages of a definition make of a whole list of lines: grouping csv records, folding
 continuations, dropping blank and ignored lines, and selecting a region. These are the functions the
 whole-document reader's loops compute and the streaming reader's state is held against; each comes
 with a lemma for one more line and a lemma for any more lines.
 */
module Stages {
  import opened Lines

  // ----- grouping csv records (pkg/engine/csv.go) -----

  /** Where in the quoting rules a csv text stands (csvQuote). */
  datatype Quote = Quote(quoted: bool, start: bool)

  const OUTSIDE := Quote(false, true)

  /** The characters of one line, followed through the quoting rules (csvQuote.scan). */
  function Scan(q: Quote, delim: char, text: string): Quote
    decreases |text|
  {
    if text == [] then q
    else if q.quoted then
      if text[0] != '"' then Scan(q, delim, text[1..])
      else if |text| > 1 && text[1] == '"' then Scan(q, delim, text[2..])
      else Scan(q.(quoted := false), delim, text[1..])
    else if q.start && text[0] == '"' then Scan(Quote(true, false), delim, text[1..])
    else if text[0] == delim || text[0] == '\n' then Scan(q.(start := true), delim, text[1..])
    else Scan(q.(start := false), delim, text[1..])
  }

  /** A line and the line break after it (csvQuote.feed). */
  function Feed(q: Quote, delim: char, text: string): Quote {
    var q' := Scan(q, delim, text);
    if q'.quoted then q' else q'.(start := true)
  }

  /** Following two lines one at a time is following the text they make together. */
  lemma {:induction false} FeedingLinesReadsTheirText(q: Quote, delim: char, a: string, b: string)
    ensures Feed(Feed(q, delim, a), delim, b) == Feed(q, delim, a + "\n" + b)
    decreases |a|
  {
    var whole := a + "\n" + b;
    if a == [] {
      assert whole[1..] == b;
    } else {
      assert whole[1..] == a[1..] + "\n" + b;
      if q.quoted && a[0] == '"' && |a| > 1 && a[1] == '"' {
        assert whole[2..] == a[2..] + "\n" + b;
        FeedingLinesReadsTheirText(q, delim, a[2..], b);
      } else if q.quoted {
        FeedingLinesReadsTheirText(if a[0] == '"' then q.(quoted := false) else q, delim, a[1..], b);
      } else if q.start && a[0] == '"' {
        FeedingLinesReadsTheirText(Quote(true, false), delim, a[1..], b);
      } else {
        FeedingLinesReadsTheirText(q.(start := a[0] == delim || a[0] == '\n'), delim, a[1..], b);
      }
    }
  }

  /** The records closed so far, the lines of the one still open, and where the quoting stands. */
  datatype Grouping = Grouping(records: seq<Line>, pieces: seq<string>, num: nat, quote: Quote)

  function Record(pieces: seq<string>, num: nat): Line {
    Line(Join(pieces, "\n"), num)
  }

  function Group(delim: char, lines: seq<Line>): Grouping {
    if lines == [] then Grouping([], [], 0, OUTSIDE)
    else
      var g := Group(delim, lines[..|lines| - 1]);
      var l := lines[|lines| - 1];
      var num := if g.pieces == [] then l.num else g.num;
      var pieces := g.pieces + [l.text];
      var quote := Feed(g.quote, delim, l.text);
      if quote.quoted then Grouping(g.records, pieces, num, quote)
      else Grouping(g.records + [Record(pieces, num)], [], num, quote)
  }

  /** The records lines make, the last one whole or not (csvRecords). */
  function Records(delim: char, lines: seq<Line>): seq<Line> {
    var g := Group(delim, lines);
    if g.pieces == [] then g.records else g.records + [Record(g.pieces, g.num)]
  }

  lemma {:induction false} GroupSnoc(delim: char, lines: seq<Line>, l: Line)
    ensures
      var g, g' := Group(delim, lines), Group(delim, lines + [l]);
      var num := if g.pieces == [] then l.num else g.num;
      var quote := Feed(g.quote, delim, l.text);
      g' == if quote.quoted then Grouping(g.records, g.pieces + [l.text], num, quote)
            else Grouping(g.records + [Record(g.pieces + [l.text], num)], [], num, quote)
  {
    assert (lines + [l])[..|lines|] == lines;
  }

  lemma {:induction false} RecordsExtend(delim: char, lines: seq<Line>, more: seq<Line>)
    ensures Group(delim, lines).records <= Records(delim, lines + more)
    ensures Group(delim, lines).records <= Group(delim, lines + more).records
  {
    if more == [] {
      assert lines + more == lines;
    } else {
      var n := |more| - 1;
      assert lines + more == (lines + more[..n]) + [more[n]];
      RecordsExtend(delim, lines, more[..n]);
      GroupSnoc(delim, lines + more[..n], more[n]);
    }
  }

  // ----- folding continuations (foldLines) -----

  /** A line and the continuations joined to it, in pieces. */
  datatype Folding = Folding(pieces: seq<string>, num: nat)

  function Joined(f: Folding): Line {
    Line(Join(f.pieces, " "), f.num)
  }

  function JoinedAll(fs: seq<Folding>): (lines: seq<Line>)
    ensures |lines| == |fs|
    ensures forall i :: 0 <= i < |fs| ==> lines[i] == Joined(fs[i])
  {
    if fs == [] then [] else JoinedAll(fs[..|fs| - 1]) + [Joined(fs[|fs| - 1])]
  }

  function Foldings(fold: Regex, lines: seq<Line>): (r: Outcome<seq<Folding>>)
    ensures r.Ok? ==> forall i :: 0 <= i < |r.value| ==> r.value[i].pieces != []
  {
    if lines == [] then Ok([])
    else
      var before :- Foldings(fold, lines[..|lines| - 1]);
      var l := lines[|lines| - 1];
      if !fold(l.text) then Ok(before + [Folding([l.text], l.num)])
      else if before == [] || Blank(before[|before| - 1].pieces[0]) then Refused
      else
        var last := before[|before| - 1];
        Ok(before[..|before| - 1] + [last.(pieces := last.pieces + [TrimSpace(l.text)])])
  }

  function Folded(fold: Option<Regex>, lines: seq<Line>): Outcome<seq<Line>> {
    if fold.None? then Ok(lines)
    else
      var fs :- Foldings(fold.value, lines);
      Ok(JoinedAll(fs))
  }

  lemma {:induction false} FoldingsSnoc(fold: Regex, lines: seq<Line>, l: Line)
    ensures Foldings(fold, lines).Refused? ==> Foldings(fold, lines + [l]).Refused?
    ensures Foldings(fold, lines).Ok? ==>
      var before := Foldings(fold, lines).value;
      Foldings(fold, lines + [l]) ==
        if !fold(l.text) then Ok(before + [Folding([l.text], l.num)])
        else if before == [] || Blank(before[|before| - 1].pieces[0]) then Refused
        else
          var last := before[|before| - 1];
          Ok(before[..|before| - 1] + [last.(pieces := last.pieces + [TrimSpace(l.text)])])
  {
    assert (lines + [l])[..|lines|] == lines;
  }

  /** Once a fold has failed it has failed, and only the last line folded can still grow. */
  lemma {:induction false} FoldingsExtend(fold: Regex, lines: seq<Line>, more: seq<Line>)
    ensures Foldings(fold, lines).Refused? ==> Foldings(fold, lines + more).Refused?
    ensures Foldings(fold, lines).Ok? && Foldings(fold, lines + more).Ok? ==>
      var fs, fs' := Foldings(fold, lines).value, Foldings(fold, lines + more).value;
      |fs| <= |fs'| && (fs != [] ==> fs[..|fs| - 1] <= fs'[..|fs'| - 1])
  {
    if more == [] {
      assert lines + more == lines;
    } else {
      var n := |more| - 1;
      assert lines + more == (lines + more[..n]) + [more[n]];
      FoldingsExtend(fold, lines, more[..n]);
      FoldingsSnoc(fold, lines + more[..n], more[n]);
    }
  }

  // ----- dropping blank and ignored lines (prepare) -----

  predicate MatchesAny(res: seq<Regex>, text: string) {
    exists i :: 0 <= i < |res| && res[i](text)
  }

  /** A blank line before or after the text (edgeBlank). */
  predicate EdgeBlank(text: string, skipBlank: bool) {
    if skipBlank then Blank(text) else text == ""
  }

  function Lead(skipBlank: bool, lines: seq<Line>): (n: nat)
    ensures n <= |lines|
    ensures forall i :: 0 <= i < n ==> EdgeBlank(lines[i].text, skipBlank)
    ensures n < |lines| ==> !EdgeBlank(lines[n].text, skipBlank)
  {
    if lines == [] || !EdgeBlank(lines[0].text, skipBlank) then 0 else 1 + Lead(skipBlank, lines[1..])
  }

  /** How long lines are without the blank ones at their end. */
  function Trail(skipBlank: bool, lines: seq<Line>): (n: nat)
    ensures n <= |lines|
    ensures forall i :: n <= i < |lines| ==> EdgeBlank(lines[i].text, skipBlank)
    ensures n > 0 ==> !EdgeBlank(lines[n - 1].text, skipBlank)
  {
    if lines == [] then 0
    else if EdgeBlank(lines[|lines| - 1].text, skipBlank) then Trail(skipBlank, lines[..|lines| - 1])
    else |lines|
  }

  predicate Kept(ignore: seq<Regex>, skipBlank: bool, text: string) {
    !(skipBlank && Blank(text)) && !MatchesAny(ignore, text)
  }

  function Keep(ignore: seq<Regex>, skipBlank: bool, lines: seq<Line>): seq<Line> {
    if lines == [] then []
    else
      var l := lines[|lines| - 1];
      var before := Keep(ignore, skipBlank, lines[..|lines| - 1]);
      if Kept(ignore, skipBlank, l.text) then before + [l] else before
  }

  /** The lines from the first that is not blank on. */
  function FromText(skipBlank: bool, lines: seq<Line>): seq<Line> {
    lines[Lead(skipBlank, lines)..]
  }

  function Prepared(ignore: seq<Regex>, skipBlank: bool, lines: seq<Line>): seq<Line> {
    var text := FromText(skipBlank, lines);
    Keep(ignore, skipBlank, text[..Trail(skipBlank, text)])
  }

  /** The blank lines after the last line of the text so far. */
  function Tail(skipBlank: bool, lines: seq<Line>): seq<Line> {
    var text := FromText(skipBlank, lines);
    text[Trail(skipBlank, text)..]
  }

  lemma {:induction false} KeepSnoc(ignore: seq<Regex>, skipBlank: bool, lines: seq<Line>, l: Line)
    ensures Keep(ignore, skipBlank, lines + [l]) ==
      if Kept(ignore, skipBlank, l.text) then Keep(ignore, skipBlank, lines) + [l] else Keep(ignore, skipBlank, lines)
  {
    assert (lines + [l])[..|lines|] == lines;
  }

  lemma {:induction false} KeepConcat(ignore: seq<Regex>, skipBlank: bool, a: seq<Line>, b: seq<Line>)
    ensures Keep(ignore, skipBlank, a + b) == Keep(ignore, skipBlank, a) + Keep(ignore, skipBlank, b)
  {
    if b == [] {
      assert a + b == a;
    } else {
      var n := |b| - 1;
      assert a + b == (a + b[..n]) + [b[n]];
      KeepSnoc(ignore, skipBlank, a + b[..n], b[n]);
      KeepConcat(ignore, skipBlank, a, b[..n]);
    }
  }

  lemma {:induction false} KeepDropsBlanks(ignore: seq<Regex>, lines: seq<Line>)
    requires forall i :: 0 <= i < |lines| ==> Blank(lines[i].text)
    ensures Keep(ignore, true, lines) == []
  {
    if lines != [] {
      KeepDropsBlanks(ignore, lines[..|lines| - 1]);
    }
  }

  lemma {:induction false} LeadSnoc(skipBlank: bool, lines: seq<Line>, l: Line)
    ensures Lead(skipBlank, lines + [l]) ==
      if Lead(skipBlank, lines) == |lines| && EdgeBlank(l.text, skipBlank) then |lines| + 1
      else Lead(skipBlank, lines)
  {
    var all := lines + [l];
    if lines == [] {
      assert all[1..] == [];
    } else {
      assert all[1..] == lines[1..] + [l];
      LeadSnoc(skipBlank, lines[1..], l);
    }
  }

  lemma {:induction false} FromTextSnoc(skipBlank: bool, lines: seq<Line>, l: Line)
    ensures FromText(skipBlank, lines + [l]) ==
      if FromText(skipBlank, lines) == [] && EdgeBlank(l.text, skipBlank) then []
      else FromText(skipBlank, lines) + [l]
  {
    LeadSnoc(skipBlank, lines, l);
  }

  lemma {:induction false} TrailSnoc(skipBlank: bool, lines: seq<Line>, l: Line)
    ensures Trail(skipBlank, lines + [l]) ==
      if EdgeBlank(l.text, skipBlank) then Trail(skipBlank, lines) else |lines| + 1
  {
    assert (lines + [l])[..|lines|] == lines;
  }

  /** A blank line adds nothing while it may be past the text. */
  lemma {:induction false} PreparedBlank(ignore: seq<Regex>, skipBlank: bool, lines: seq<Line>, l: Line)
    requires EdgeBlank(l.text, skipBlank)
    ensures Prepared(ignore, skipBlank, lines + [l]) == Prepared(ignore, skipBlank, lines)
    ensures Tail(skipBlank, lines + [l]) ==
      if FromText(skipBlank, lines) == [] then [] else Tail(skipBlank, lines) + [l]
  {
    hide Keep, Lead, Trail, EdgeBlank;
    FromTextSnoc(skipBlank, lines, l);
    var t, t' := FromText(skipBlank, lines), FromText(skipBlank, lines + [l]);
    if t == [] {
      assert t' == t;
    } else {
      assert t' == t + [l];
      TrailSnoc(skipBlank, t, l);
      var n := Trail(skipBlank, t);
      assert Trail(skipBlank, t') == n;
      assert t'[..n] == t[..n];
      assert t'[n..] == t[n..] + [l];
    }
  }

  /** A line of the text adds itself and the blank lines before it. */
  lemma {:induction false} PreparedText(ignore: seq<Regex>, skipBlank: bool, lines: seq<Line>, l: Line)
    requires !EdgeBlank(l.text, skipBlank)
    ensures FromText(skipBlank, lines + [l]) != []
    ensures Prepared(ignore, skipBlank, lines + [l]) ==
      Prepared(ignore, skipBlank, lines) + Keep(ignore, skipBlank, Tail(skipBlank, lines))
      + Keep(ignore, skipBlank, [l])
    ensures Tail(skipBlank, lines + [l]) == []
  {
    hide Keep, Lead, Trail, EdgeBlank;
    FromTextSnoc(skipBlank, lines, l);
    var t := FromText(skipBlank, lines);
    var n := Trail(skipBlank, t);
    TrailSnoc(skipBlank, t, l);
    assert (t + [l])[..|t| + 1] == t + [l];
    assert t + [l] == t[..n] + t[n..] + [l];
    KeepConcat(ignore, skipBlank, t[..n] + t[n..], [l]);
    KeepConcat(ignore, skipBlank, t[..n], t[n..]);
  }

  lemma {:induction false} PreparedExtends(ignore: seq<Regex>, skipBlank: bool, lines: seq<Line>, more: seq<Line>)
    ensures Prepared(ignore, skipBlank, lines) <= Prepared(ignore, skipBlank, lines + more)
  {
    if more == [] {
      assert lines + more == lines;
    } else {
      var n := |more| - 1;
      assert lines + more == (lines + more[..n]) + [more[n]];
      PreparedExtends(ignore, skipBlank, lines, more[..n]);
      if EdgeBlank(more[n].text, skipBlank) {
        PreparedBlank(ignore, skipBlank, lines + more[..n], more[n]);
      } else {
        PreparedText(ignore, skipBlank, lines + more[..n], more[n]);
      }
    }
  }

  // ----- selecting a region (applySelect) -----

  /** Select: the steps are after, until, skip, limit. `heading` and `end` are `after` and `until`
      required to cover the whole of the line they match. */
  datatype Select = Select(after: Option<Regex>, heading: Regex, until: Option<Regex>, end: Regex,
                           skip: nat, limit: nat)

  /** Where in a list of lines a selection falls: the region [lo, hi), and the lines `after` and
      `until` matched. */
  datatype Span = Span(lo: nat, hi: nat, heading: Option<nat>, end: Option<nat>)

  /** The first line re matches, or the number of lines. */
  function FirstMatch(re: Regex, lines: seq<Line>): (n: nat)
    ensures n <= |lines|
    ensures forall i :: 0 <= i < n ==> !re(lines[i].text)
    ensures n < |lines| ==> re(lines[n].text)
  {
    if lines == [] || re(lines[0].text) then 0 else 1 + FirstMatch(re, lines[1..])
  }

  function HeadingAt(sel: Select, lines: seq<Line>): (at: Option<nat>)
    ensures at.Some? ==> sel.after.Some? && at.value < |lines|
  {
    if sel.after.None? then None
    else
      var n := FirstMatch(sel.after.value, lines);
      if n < |lines| then Some(n) else None
  }

  /** Whether the region has been opened. */
  predicate Open(sel: Select, lines: seq<Line>) {
    sel.after.None? || HeadingAt(sel, lines).Some?
  }

  /** Where the lines after the heading begin. */
  function From(sel: Select, lines: seq<Line>): (n: nat)
    requires Open(sel, lines)
    ensures n <= |lines|
  {
    if sel.after.None? then 0 else HeadingAt(sel, lines).value + 1
  }

  /** Where the line `until` matches is, or the end of the lines. */
  function Stop(sel: Select, lines: seq<Line>): (n: nat)
    requires Open(sel, lines)
    ensures From(sel, lines) <= n <= |lines|
  {
    var from := From(sel, lines);
    if sel.until.None? then |lines| else from + FirstMatch(sel.until.value, lines[from..])
  }

  function SpanOf(sel: Select, lines: seq<Line>): (s: Span)
    ensures s.lo <= s.hi <= |lines|
  {
    if !Open(sel, lines) then Span(0, 0, None, None)
    else
      var from, stop := From(sel, lines), Stop(sel, lines);
      var lo := if sel.skip >= stop - from then stop else from + sel.skip;
      var hi := if sel.limit > 0 && sel.limit < stop - lo then lo + sel.limit else stop;
      Span(lo, hi, HeadingAt(sel, lines), if stop < |lines| then Some(stop) else None)
  }

  /** The lines a selection hands to the parser. */
  function Region(sel: Select, lines: seq<Line>): seq<Line> {
    var s := SpanOf(sel, lines);
    lines[s.lo..s.hi]
  }

  /** A line the selection leaves out that says something, and is not a heading or a closing line
      stated in full. */
  predicate LeftUnread(sel: Select, lines: seq<Line>, i: nat)
    requires i < |lines|
  {
    var s := SpanOf(sel, lines);
    && !(s.lo <= i < s.hi)
    && !Blank(lines[i].text)
    && !(s.heading == Some(i) && sel.heading(lines[i].text))
    && !(s.end == Some(i) && sel.end(lines[i].text))
  }

  predicate LeavesNothing(sel: Select, lines: seq<Line>) {
    forall i :: 0 <= i < |lines| ==> !LeftUnread(sel, lines, i)
  }

  /** What the next line is to a selection that has seen `lines`. */
  datatype Role = Inside | Heading | Closing | Outside

  function RoleOf(sel: Select, lines: seq<Line>, text: string): Role {
    if !Open(sel, lines) then (if sel.after.value(text) then Heading else Outside)
    else if Stop(sel, lines) < |lines| then Outside
    else if sel.until.Some? && sel.until.value(text) then Closing
    else
      var s := SpanOf(sel, lines);
      if |lines| - From(sel, lines) < sel.skip then Outside
      else if sel.limit > 0 && s.hi - s.lo >= sel.limit then Outside
      else Inside
  }

  lemma {:induction false} FirstMatchSnoc(re: Regex, lines: seq<Line>, l: Line)
    ensures FirstMatch(re, lines + [l]) ==
      if FirstMatch(re, lines) < |lines| then FirstMatch(re, lines)
      else if re(l.text) then |lines| else |lines| + 1
  {
    var all := lines + [l];
    if lines == [] {
      assert all[1..] == [];
    } else {
      assert all[1..] == lines[1..] + [l];
      FirstMatchSnoc(re, lines[1..], l);
    }
  }

  lemma {:induction false} OpenSnoc(sel: Select, lines: seq<Line>, l: Line)
    requires Open(sel, lines)
    ensures Open(sel, lines + [l])
    ensures HeadingAt(sel, lines + [l]) == HeadingAt(sel, lines)
    ensures From(sel, lines + [l]) == From(sel, lines)
    ensures Stop(sel, lines + [l]) ==
      if Stop(sel, lines) < |lines| then Stop(sel, lines)
      else if sel.until.Some? && sel.until.value(l.text) then |lines| else |lines| + 1
  {
    if sel.after.Some? {
      FirstMatchSnoc(sel.after.value, lines, l);
    }
    var from := From(sel, lines);
    assert (lines + [l])[from..] == lines[from..] + [l];
    if sel.until.Some? {
      FirstMatchSnoc(sel.until.value, lines[from..], l);
    }
  }

  lemma {:induction false} SpanSnoc(sel: Select, lines: seq<Line>, l: Line)
    ensures
      var s, s', role := SpanOf(sel, lines), SpanOf(sel, lines + [l]), RoleOf(sel, lines, l.text);
      && s'.heading == (if role == Heading then Some(|lines|) else s.heading)
      && s'.end == (if role == Closing then Some(|lines|) else s.end)
      && s'.hi - s'.lo == s.hi - s.lo + (if role == Inside then 1 else 0)
      && (s.lo < s.hi ==> s'.lo == s.lo)
      && (role == Inside ==> s'.hi == |lines| + 1)
      && (role == Heading ==> s.heading.None?) && (role == Closing ==> s.end.None?)
      && (s.heading.Some? ==> s.heading.value < |lines|) && (s.end.Some? ==> s.end.value < |lines|)
  {
    if Open(sel, lines) {
      OpenSnoc(sel, lines, l);
    } else {
      FirstMatchSnoc(sel.after.value, lines, l);
      if sel.after.value(l.text) {
        var all := lines + [l];
        assert From(sel, all) == |all|;
      }
    }
  }

  lemma {:induction false} RegionSnoc(sel: Select, lines: seq<Line>, l: Line)
    ensures Region(sel, lines + [l]) ==
      if RoleOf(sel, lines, l.text) == Inside then Region(sel, lines) + [l] else Region(sel, lines)
  {
    SpanSnoc(sel, lines, l);
    var s, s' := SpanOf(sel, lines), SpanOf(sel, lines + [l]);
    if s.lo == s.hi {
      assert Region(sel, lines) == [];
      if RoleOf(sel, lines, l.text) == Inside {
        assert (lines + [l])[s'.lo..s'.hi] == [l];
      }
    } else {
      assert (lines + [l])[s.lo..s.hi] == lines[s.lo..s.hi];
    }
  }

  lemma {:induction false} LeavesNothingSnoc(sel: Select, lines: seq<Line>, l: Line)
    ensures LeavesNothing(sel, lines + [l]) <==>
      && LeavesNothing(sel, lines)
      && var role := RoleOf(sel, lines, l.text);
         || role == Inside || Blank(l.text)
         || (role == Heading && sel.heading(l.text))
         || (role == Closing && sel.end(l.text))
  {
    SpanSnoc(sel, lines, l);
    hide SpanOf, RoleOf, Blank;
    var all := lines + [l];
    var n := |lines|;
    var s, s' := SpanOf(sel, lines), SpanOf(sel, all);
    forall i | 0 <= i < n ensures LeftUnread(sel, all, i) <==> LeftUnread(sel, lines, i) {
      assert all[i] == lines[i];
      assert s'.lo <= i < s'.hi <==> s.lo <= i < s.hi;
    }
    assert all[n] == l;
    var role := RoleOf(sel, lines, l.text);
    assert s'.lo <= n < s'.hi <==> role == Inside;
    assert LeftUnread(sel, all, n) <==>
      !(role == Inside || Blank(l.text) || (role == Heading && sel.heading(l.text))
        || (role == Closing && sel.end(l.text)));
  }

  lemma {:induction false} SelectExtends(sel: Select, lines: seq<Line>, more: seq<Line>)
    ensures Region(sel, lines) <= Region(sel, lines + more)
    ensures LeavesNothing(sel, lines + more) ==> LeavesNothing(sel, lines)
  {
    if more == [] {
      assert lines + more == lines;
    } else {
      var n := |more| - 1;
      assert lines + more == (lines + more[..n]) + [more[n]];
      SelectExtends(sel, lines, more[..n]);
      RegionSnoc(sel, lines + more[..n], more[n]);
      LeavesNothingSnoc(sel, lines + more[..n], more[n]);
    }
  }
}
