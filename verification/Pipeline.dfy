/**
 The loops the whole-document reader runs over its lines before a parser sees them (pkg/engine/engine.go,
 pkg/engine/csv.go): each computes the function of its stage, and preparation counts what it drops.
 */
module Pipeline {
  import opened Lines
  import opened Stages
  import opened StreamFacts

  /** Where the lines of an input went (Account). `ignored` says how many lines each ignore expression
      left out, by its position. */
  class Account {
    var lines: nat
    var read: nat
    var folded: nat
    var blank: nat
    var ignored: seq<(nat, nat)>

    constructor ()
      ensures lines == read == folded == blank == 0 && ignored == []
    {
      lines, read, folded, blank, ignored := 0, 0, 0, 0, [];
    }

    /** The lines every ignore expression left out, together. */
    ghost function Dropped(): nat
      reads this`ignored
    {
      Sum(Counts(ignored))
    }
  }

  function Counts(ignored: seq<(nat, nat)>): (counts: seq<nat>)
    ensures |counts| == |ignored| && forall i :: 0 <= i < |counts| ==> counts[i] == ignored[i].1
  {
    if ignored == [] then [] else Counts(ignored[..|ignored| - 1]) + [ignored[|ignored| - 1].1]
  }

  // ----- grouping and folding -----

  /** csvRecords */
  method CsvRecords(delim: char, lines: seq<Line>) returns (out: seq<Line>)
    ensures out == Records(delim, lines)
  {
    var q := OUTSIDE;
    var pieces: seq<string>, num := [], 0;
    out := [];
    for k := 0 to |lines|
      invariant Group(delim, lines[..k]) == Grouping(out, pieces, num, q)
    {
      var l := lines[k];
      assert lines[..k + 1] == lines[..k] + [l];
      GroupSnoc(delim, lines[..k], l);
      if pieces == [] {
        num := l.num;
      }
      pieces := pieces + [l.text];
      q := Feed(q, delim, l.text);
      if !q.quoted {
        out := out + [Record(pieces, num)];
        pieces := [];
      }
    }
    assert lines[..|lines|] == lines;
    if pieces != [] {
      // A quoted value that never closes is a record the input did not finish.
      out := out + [Record(pieces, num)];
    }
  }

  /** The lines folded so far: all joined but the last, whose pieces are kept apart. */
  predicate Joining(fs: seq<Folding>, out: seq<Line>, pieces: seq<string>) {
    && |out| == |fs| && (fs == [] <==> pieces == [])
    && (fs != [] ==>
          var n := |fs| - 1;
          && fs[n].pieces == pieces && out[n] == Line(pieces[0], fs[n].num)
          && out[..n] == JoinedAll(fs[..n]))
  }

  /** Join the pieces of the last line. */
  function Flushed(out: seq<Line>, pieces: seq<string>): seq<Line>
    requires pieces != [] ==> out != []
  {
    if |pieces| > 1 then out[|out| - 1 := Line(Join(pieces, " "), out[|out| - 1].num)] else out
  }

  lemma {:induction false} FlushedIsJoined(fs: seq<Folding>, out: seq<Line>, pieces: seq<string>)
    requires Joining(fs, out, pieces)
    ensures Flushed(out, pieces) == JoinedAll(fs)
  {
    if fs != [] {
      var n := |fs| - 1;
      assert JoinedAll(fs) == JoinedAll(fs[..n]) + [Joined(fs[n])];
      assert out == out[..n] + [out[n]];
    }
  }

  lemma {:induction false} JoiningBegins(fs: seq<Folding>, l: Line)
    ensures Joining(fs + [Folding([l.text], l.num)], JoinedAll(fs) + [l], [l.text])
  {
    var all := fs + [Folding([l.text], l.num)];
    assert all[..|fs|] == fs && (JoinedAll(fs) + [l])[..|fs|] == JoinedAll(fs);
  }

  lemma {:induction false} JoiningGoesOn(fs: seq<Folding>, out: seq<Line>, pieces: seq<string>, piece: string)
    requires Joining(fs, out, pieces) && fs != []
    ensures Joining(fs[..|fs| - 1] + [fs[|fs| - 1].(pieces := pieces + [piece])], out, pieces + [piece])
  {
    var n := |fs| - 1;
    assert (fs[..n] + [fs[n].(pieces := pieces + [piece])])[..n] == fs[..n];
  }

  /** foldLines: the pieces of a line are joined once, when the next line that is no continuation comes. */
  method FoldLines(fold: Option<Regex>, lines: seq<Line>) returns (r: Outcome<seq<Line>>)
    ensures r == Folded(fold, lines)
  {
    if fold.None? {
      return Ok(lines);
    }
    assert fold == Some(fold.value);
    hide Foldings, JoinedAll, Flushed, Joining, Joined, Folded, TrimSpace;
    var out: seq<Line>, pieces: seq<string> := [], [];
    NoFoldings(fold.value);
    assert lines[..0] == [];
    for k := 0 to |lines|
      invariant Foldings(fold.value, lines[..k]).Ok?
      invariant Joining(Foldings(fold.value, lines[..k]).value, out, pieces)
    {
      var l := lines[k];
      JoiningStep(fold.value, lines, k, out, pieces);
      if !fold.value(l.text) {
        out, pieces := Flushed(out, pieces) + [l], [l.text];
      } else if out == [] || Blank(out[|out| - 1].text) {
        // A blank line is nothing to join onto either.
        return Refused;
      } else {
        pieces := pieces + [TrimSpace(l.text)];
      }
    }
    assert lines[..|lines|] == lines;
    JoiningEnds(fold.value, lines, out, pieces);
    return Ok(Flushed(out, pieces));
  }

  lemma {:induction false} JoiningEnds(fold: Regex, lines: seq<Line>, out: seq<Line>, pieces: seq<string>)
    requires Foldings(fold, lines).Ok? && Joining(Foldings(fold, lines).value, out, pieces)
    ensures (pieces != [] ==> out != []) && Folded(Some(fold), lines) == Ok(Flushed(out, pieces))
  {
    FlushedIsJoined(Foldings(fold, lines).value, out, pieces);
  }

  /** What one more line does to the pieces being joined. */
  lemma {:induction false} JoiningStep(fold: Regex, lines: seq<Line>, k: nat, out: seq<Line>, pieces: seq<string>)
    requires k < |lines| && Foldings(fold, lines[..k]).Ok? && Joining(Foldings(fold, lines[..k]).value, out, pieces)
    ensures pieces != [] ==> out != []
    ensures
      var l, after := lines[k], Foldings(fold, lines[..k + 1]);
      if !fold(l.text) then after.Ok? && Joining(after.value, Flushed(out, pieces) + [l], [l.text])
      else if out == [] || Blank(out[|out| - 1].text) then Folded(Some(fold), lines).Refused?
      else after.Ok? && Joining(after.value, out, pieces + [TrimSpace(l.text)])
  {
    hide Foldings, JoinedAll, Flushed, Joining;
    var l := lines[k];
    var fs := Foldings(fold, lines[..k]).value;
    assert lines[..k + 1] == lines[..k] + [l];
    FoldingsSnoc(fold, lines[..k], l);
    JoiningLast(fs, out, pieces);
    if !fold(l.text) {
      FlushedIsJoined(fs, out, pieces);
      JoiningBegins(fs, l);
    } else if out == [] || Blank(out[|out| - 1].text) {
      FoldingsExtend(fold, lines[..k + 1], lines[k + 1..]);
      assert lines[..k + 1] + lines[k + 1..] == lines;
    } else {
      JoiningGoesOn(fs, out, pieces, TrimSpace(l.text));
    }
  }

  lemma {:induction false} NoFoldings(fold: Regex)
    ensures Foldings(fold, []) == Ok([]) && Joining([], [], [])
  {
  }

  lemma {:induction false} JoiningLast(fs: seq<Folding>, out: seq<Line>, pieces: seq<string>)
    requires Joining(fs, out, pieces)
    ensures (out == [] <==> fs == []) && (pieces == [] <==> fs == [])
    ensures fs != [] ==>
      out[|out| - 1].text == fs[|fs| - 1].pieces[0] && fs[|fs| - 1].pieces == pieces
  {
  }

  // ----- dropping blank and ignored lines -----

  /** The first expression that matches, or the number of expressions (firstMatching). */
  function FirstMatching(res: seq<Regex>, text: string): (i: nat)
    ensures i <= |res| && (i < |res| <==> MatchesAny(res, text))
    ensures i < |res| ==> res[i](text)
    ensures forall j :: 0 <= j < i ==> !res[j](text)
  {
    if res == [] || res[0](text) then 0
    else
      var i := FirstMatching(res[1..], text);
      assert MatchesAny(res, text) <==> MatchesAny(res[1..], text) by {
        if MatchesAny(res, text) {
          var j :| 0 <= j < |res| && res[j](text);
          assert res[1..][j - 1](text);
        }
      }
      1 + i
  }

  /** How many lines the i-th expression leaves out: the ones it is the first to match. */
  function LeftOutBy(ignore: seq<Regex>, skipBlank: bool, lines: seq<Line>, i: nat): nat {
    if lines == [] then 0
    else
      var text := lines[|lines| - 1].text;
      LeftOutBy(ignore, skipBlank, lines[..|lines| - 1], i)
      + if !(skipBlank && Blank(text)) && FirstMatching(ignore, text) == i then 1 else 0
  }

  /** The lines between the edges of the text. */
  function Between(skipBlank: bool, lines: seq<Line>): seq<Line> {
    var text := FromText(skipBlank, lines);
    text[..Trail(skipBlank, text)]
  }

  function LeftOutCounts(ignore: seq<Regex>, skipBlank: bool, text: seq<Line>): (counts: seq<nat>)
    ensures |counts| == |ignore|
    ensures forall i :: 0 <= i < |counts| ==> counts[i] == LeftOutBy(ignore, skipBlank, text, i)
  {
    seq(|ignore|, i requires 0 <= i < |ignore| => LeftOutBy(ignore, skipBlank, text, i))
  }

  /** The positive counts, each with its position. */
  function TallyOf(counts: seq<nat>): seq<(nat, nat)> {
    if counts == [] then []
    else
      var n := |counts| - 1;
      if counts[n] > 0 then TallyOf(counts[..n]) + [(n, counts[n])] else TallyOf(counts[..n])
  }

  lemma {:induction false} TallyKeepsSum(counts: seq<nat>)
    ensures Sum(Counts(TallyOf(counts))) == Sum(counts)
  {
    if counts != [] {
      var n := |counts| - 1;
      TallyKeepsSum(counts[..n]);
      if counts[n] > 0 {
        var before := TallyOf(counts[..n]);
        CountsSnoc(before, (n, counts[n]));
        SumSnoc(Counts(before), counts[n]);
      }
    }
  }

  lemma {:induction false} CountsSnoc(ignored: seq<(nat, nat)>, last: (nat, nat))
    ensures Counts(ignored + [last]) == Counts(ignored) + [last.1]
  {
    assert (ignored + [last])[..|ignored|] == ignored;
  }

  lemma {:induction false} SumSnoc(counts: seq<nat>, n: nat)
    ensures Sum(counts + [n]) == Sum(counts) + n
  {
    assert (counts + [n])[..|counts|] == counts;
  }

  lemma {:induction false} BetweenIs(skipBlank: bool, lines: seq<Line>, lead: nat, trail: nat)
    requires lead <= trail <= |lines|
    requires forall i :: 0 <= i < lead ==> EdgeBlank(lines[i].text, skipBlank)
    requires lead < |lines| ==> !EdgeBlank(lines[lead].text, skipBlank)
    requires forall i :: trail <= i < |lines| ==> EdgeBlank(lines[i].text, skipBlank)
    requires trail > lead ==> !EdgeBlank(lines[trail - 1].text, skipBlank)
    ensures Between(skipBlank, lines) == lines[lead..trail]
  {
    hide Lead, Trail, EdgeBlank;
    LeadIs(skipBlank, lines, lead);
    assert forall i :: 0 <= i < |lines| - lead ==> lines[lead..][i] == lines[lead + i];
    TrailIs(skipBlank, lines[lead..], trail - lead);
  }

  lemma {:induction false} LeadIs(skipBlank: bool, lines: seq<Line>, n: nat)
    requires n <= |lines| && forall i :: 0 <= i < n ==> EdgeBlank(lines[i].text, skipBlank)
    requires n < |lines| ==> !EdgeBlank(lines[n].text, skipBlank)
    ensures Lead(skipBlank, lines) == n
  {
    if n > 0 {
      LeadIs(skipBlank, lines[1..], n - 1);
    }
  }

  lemma {:induction false} TrailIs(skipBlank: bool, lines: seq<Line>, n: nat)
    requires n <= |lines| && forall i :: n <= i < |lines| ==> EdgeBlank(lines[i].text, skipBlank)
    requires n > 0 ==> !EdgeBlank(lines[n - 1].text, skipBlank)
    ensures Trail(skipBlank, lines) == n
  {
    if n < |lines| {
      TrailIs(skipBlank, lines[..|lines| - 1], n);
    }
  }

  /** What one more line of the text does to the lines kept and the lines counted. */
  lemma {:induction false} KeepStep(ignore: seq<Regex>, skipBlank: bool, text: seq<Line>, k: nat)
    requires k < |text|
    ensures
      var l := text[k];
      var which := FirstMatching(ignore, l.text);
      var blank := skipBlank && Blank(l.text);
      && Keep(ignore, skipBlank, text[..k + 1]) ==
           (if blank || which < |ignore| then Keep(ignore, skipBlank, text[..k])
            else Keep(ignore, skipBlank, text[..k]) + [l])
      && forall i :: LeftOutBy(ignore, skipBlank, text[..k + 1], i) ==
           LeftOutBy(ignore, skipBlank, text[..k], i) + if !blank && which == i then 1 else 0
  {
    assert text[..k + 1] == text[..k] + [text[k]];
    KeepSnoc(ignore, skipBlank, text[..k], text[k]);
  }

  lemma {:induction false} KeepAll(text: seq<Line>)
    ensures Keep([], false, text) == text
  {
    if text != [] {
      KeepAll(text[..|text| - 1]);
      assert text == text[..|text| - 1] + [text[|text| - 1]];
    }
  }

  lemma {:induction false} SumOfZeros(counts: seq<nat>)
    requires forall i :: 0 <= i < |counts| ==> counts[i] == 0
    ensures Sum(counts) == 0
  {
    if counts != [] {
      SumOfZeros(counts[..|counts| - 1]);
    }
  }

  /** Drop the lines the expressions name and the blank ones, counting both. */
  method Sift(ignore: seq<Regex>, skipBlank: bool, text: seq<Line>) returns (out: seq<Line>, counts: seq<nat>, blank: nat)
    ensures out == Keep(ignore, skipBlank, text)
    ensures |counts| == |ignore| && forall i :: 0 <= i < |counts| ==> counts[i] == LeftOutBy(ignore, skipBlank, text, i)
    ensures blank + Sum(counts) + |out| == |text|
  {
    hide Keep, LeftOutBy, FirstMatching, Sum;
    counts := seq(|ignore|, _ => 0);
    out, blank := [], 0;
    SumOfZeros(counts);
    NothingIsSifted(ignore, skipBlank);
    assert text[..0] == [];
    for k := 0 to |text|
      invariant out == Keep(ignore, skipBlank, text[..k])
      invariant |counts| == |ignore|
      invariant forall i :: 0 <= i < |counts| ==> counts[i] == LeftOutBy(ignore, skipBlank, text[..k], i)
      invariant blank + Sum(counts) + |out| == k
    {
      var l := text[k];
      KeepStep(ignore, skipBlank, text, k);
      if skipBlank && Blank(l.text) {
        blank := blank + 1;
      } else {
        var which := FirstMatching(ignore, l.text);
        if which < |ignore| {
          SumUpdate(counts, which, counts[which] + 1);
          counts := counts[which := counts[which] + 1];
        } else {
          out := out + [l];
        }
      }
    }
    assert text[..|text|] == text;
  }

  lemma {:induction false} NothingIsSifted(ignore: seq<Regex>, skipBlank: bool)
    ensures Keep(ignore, skipBlank, []) == [] && forall i :: LeftOutBy(ignore, skipBlank, [], i) == 0
  {
  }

  /** prepare: the blank lines at the edges of the text go first, then the lines the expressions name. */
  method Prepare(ignore: seq<Regex>, skipBlank: bool, lines: seq<Line>, acct: Account) returns (out: seq<Line>)
    requires acct.ignored == []
    modifies acct`blank, acct`ignored
    ensures out == Prepared(ignore, skipBlank, lines)
    ensures acct.ignored == TallyOf(LeftOutCounts(ignore, skipBlank, Between(skipBlank, lines)))
    ensures acct.blank + acct.Dropped() + |out| == old(acct.blank) + |lines|
  {
    hide EdgeBlank, Keep, LeftOutBy, Sum, Counts, TallyOf, Lead, Trail;
    var lead := 0;
    while lead < |lines| && EdgeBlank(lines[lead].text, skipBlank)
      invariant lead <= |lines| && forall i :: 0 <= i < lead ==> EdgeBlank(lines[i].text, skipBlank)
    {
      lead := lead + 1;
    }
    var trail := |lines|;
    while trail > lead && EdgeBlank(lines[trail - 1].text, skipBlank)
      invariant lead <= trail <= |lines| && forall i :: trail <= i < |lines| ==> EdgeBlank(lines[i].text, skipBlank)
    {
      trail := trail - 1;
    }
    BetweenIs(skipBlank, lines, lead, trail);
    acct.blank := acct.blank + lead + |lines| - trail;
    var text := lines[lead..trail];
    if ignore == [] && !skipBlank {
      KeepAll(text);
      NothingCounted();
      return text;
    }
    var counts, blank;
    out, counts, blank := Sift(ignore, skipBlank, text);
    acct.blank := acct.blank + blank;
    acct.ignored := Tally(counts);
    TallyKeepsSum(counts);
    assert counts == LeftOutCounts(ignore, skipBlank, text);
  }

  lemma {:induction false} NothingCounted()
    ensures TallyOf([]) == [] && Sum(Counts([])) == 0
  {
  }

  /** The expressions that left something out, with how many lines each did. */
  method Tally(counts: seq<nat>) returns (ignored: seq<(nat, nat)>)
    ensures ignored == TallyOf(counts)
  {
    ignored := [];
    for i := 0 to |counts|
      invariant ignored == TallyOf(counts[..i])
    {
      assert counts[..i + 1][..i] == counts[..i];
      if counts[i] > 0 {
        ignored := ignored + [(i, counts[i])];
      }
    }
    assert counts[..|counts|] == counts;
  }

  // ----- selecting -----

  /** applySelect: the region, the line `after` matched and the line `until` matched. */
  method ApplySelect(sel: Select, lines: seq<Line>) returns (region: seq<Line>, heading: Option<Line>, end: Option<Line>)
    ensures
      var s := SpanOf(sel, lines);
      && region == Region(sel, lines)
      && heading == (if s.heading.None? then None else Some(lines[s.heading.value]))
      && end == (if s.end.None? then None else Some(lines[s.end.value]))
  {
    hide FirstMatch, SpanOf;
    ClosedSpan(sel, lines);
    heading, end := None, None;
    var lo, hi := 0, |lines|;
    if sel.after.Some? {
      var n := Search(sel.after.value, lines, 0);
      assert lines[0..] == lines;
      if n == |lines| {
        return [], None, None;
      }
      heading, lo := Some(lines[n]), n + 1;
    }
    if sel.until.Some? {
      var n := Search(sel.until.value, lines, lo);
      if n < |lines| {
        end, hi := Some(lines[n]), n;
      }
    }
    OpenSpan(sel, lines, lo, hi);
    if sel.skip > 0 {
      if sel.skip >= hi - lo {
        return [], heading, end;
      }
      lo := lo + sel.skip;
    }
    if sel.limit > 0 && sel.limit < hi - lo {
      hi := lo + sel.limit;
    }
    return lines[lo..hi], heading, end;
  }

  lemma {:induction false} ClosedSpan(sel: Select, lines: seq<Line>)
    ensures !Open(sel, lines) ==> SpanOf(sel, lines) == Span(0, 0, None, None)
  {
  }

  lemma {:induction false} OpenSpan(sel: Select, lines: seq<Line>, from: nat, stop: nat)
    requires Open(sel, lines) && from == From(sel, lines) && stop == Stop(sel, lines)
    ensures
      var lo := if sel.skip >= stop - from then stop else from + sel.skip;
      var hi := if sel.limit > 0 && sel.limit < stop - lo then lo + sel.limit else stop;
      SpanOf(sel, lines) == Span(lo, hi, HeadingAt(sel, lines), if stop < |lines| then Some(stop) else None)
  {
  }

  /** The first line from lo on that an expression matches, or the number of lines. */
  method Search(re: Regex, lines: seq<Line>, lo: nat) returns (n: nat)
    requires lo <= |lines|
    ensures lo <= n <= |lines| && n == lo + FirstMatch(re, lines[lo..])
  {
    n := lo;
    while n < |lines| && !re(lines[n].text)
      invariant lo <= n <= |lines| && forall i :: lo <= i < n ==> !re(lines[i].text)
    {
      n := n + 1;
    }
    FirstMatchFrom(re, lines, lo, n);
  }

  lemma {:induction false} FirstMatchFrom(re: Regex, lines: seq<Line>, lo: nat, n: nat)
    requires lo <= n <= |lines| && (forall i :: lo <= i < n ==> !re(lines[i].text)) && (n < |lines| ==> re(lines[n].text))
    ensures lo + FirstMatch(re, lines[lo..]) == n
  {
    assert forall i :: 0 <= i < |lines| - lo ==> lines[lo..][i] == lines[lo + i];
    assert n < |lines| ==> lines[lo..][n - lo] == lines[n];
  }
}