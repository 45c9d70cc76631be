/**
 What the stages of an input make of its text (pkg/engine: csvRecords, foldLines, prepare, applySelect), said of the
 lines themselves: which of them a record, a folded line, the text and a selection are made of, and that none of
 their text is lost or moved.
 */
module InputText {
  import opened Lines
  import opened Stages
  import Aligned

  // ----- which lines begin something -----

  /** Positions in order, the first of them 0, that cut n lines into runs. */
  ghost predicate Cuts(starts: seq<nat>, n: nat) {
    && (starts == [] <==> n == 0) && (starts != [] ==> starts[0] == 0)
    && (forall k :: 0 <= k < |starts| ==> starts[k] < n)
    && forall k :: 0 <= k < |starts| - 1 ==> starts[k] < starts[k + 1]
  }

  /** Where the k-th run ends. */
  function EndOf(starts: seq<nat>, k: nat, n: nat): nat {
    if k + 1 < |starts| then starts[k + 1] else n
  }

  /** One more line goes on from the last run, or begins one. */
  lemma {:induction false} OneMoreCut(before: seq<nat>, n: nat, starts: seq<nat>)
    requires Cuts(before, n) && (starts == before + [n] || (starts == before && before != []))
    ensures Cuts(starts, n + 1)
    ensures forall k :: 0 <= k < |starts| ==>
      EndOf(starts, k, n + 1) == if k < |before| && (k < |before| - 1 || starts != before) then EndOf(before, k, n) else n + 1
    ensures forall k :: 0 <= k < |before| ==> starts[k] == before[k] < EndOf(before, k, n) <= n
  {
    forall k | 0 <= k < |starts| - 1 ensures starts[k] < starts[k + 1] {
      if k + 1 < |before| {
        assert before[k] < before[k + 1];
      }
    }
    forall k | 0 <= k < |starts|
      ensures EndOf(starts, k, n + 1) == if k < |before| && (k < |before| - 1 || starts != before) then EndOf(before, k, n) else n + 1
    {
      if starts != before && k < |before| {
        assert starts[k + 1] == if k + 1 < |before| then before[k + 1] else n;
      }
    }
  }

  // ----- folding -----

  /** A text, and after a space the trimmed text of each line that goes on from it. */
  function Continued(text: string, more: seq<Line>): string {
    if more == [] then text
    else Continued(text, more[..|more| - 1]) + " " + TrimSpace(more[|more| - 1].text)
  }

  /** A line of the folded text: the line it begins with, and the ones after it that are continuations. */
  ghost predicate IsFolded(fold: Regex, lines: seq<Line>, from: nat, to: nat, folded: Line)
    requires from < to <= |lines|
  {
    && folded.num == lines[from].num && folded.text == Continued(lines[from].text, lines[from + 1..to])
    && !fold(lines[from].text) && forall i :: from < i < to ==> fold(lines[i].text)
  }

  ghost predicate AreFolded(fold: Regex, lines: seq<Line>, starts: seq<nat>, out: seq<Line>) {
    && Cuts(starts, |lines|) && |out| == |starts|
    && forall k :: 0 <= k < |starts| ==>
         starts[k] < EndOf(starts, k, |lines|) && IsFolded(fold, lines, starts[k], EndOf(starts, k, |lines|), out[k])
  }

  lemma {:induction false} ContinuedOnce(text: string, more: seq<Line>, l: Line)
    ensures Continued(text, []) == text
    ensures Continued(text, more + [l]) == Continued(text, more) + " " + TrimSpace(l.text)
  {
    assert (more + [l])[..|more|] == more;
  }

  /** Every folded line is the line it begins with, as it is, and the trimmed text of the ones folded onto it. */
  lemma {:induction false} FoldedIsContinued(fold: Regex, lines: seq<Line>) returns (starts: seq<nat>)
    requires Folded(Some(fold), lines).Ok?
    ensures AreFolded(fold, lines, starts, Folded(Some(fold), lines).value)
  {
    hide Folded, IsFolded;
    NoneFolded(fold);
    if lines == [] {
      starts := [];
    } else {
      hide AreFolded;
      var n := |lines| - 1;
      var init, l := lines[..n], lines[n];
      assert lines == init + [l];
      FoldedBefore(fold, init, l);
      var before := FoldedIsContinued(fold, init);
      starts := if fold(l.text) then before else before + [n];
      OneMoreFolded(fold, init, l, before, starts);
    }
  }

  lemma {:induction false} FoldedBefore(fold: Regex, lines: seq<Line>, l: Line)
    requires Folded(Some(fold), lines + [l]).Ok?
    ensures Folded(Some(fold), lines).Ok?
  {
    FoldingsSnoc(fold, lines, l);
    hide Foldings;
  }

  lemma {:induction false} OneMoreFolded(fold: Regex, init: seq<Line>, l: Line, before: seq<nat>, starts: seq<nat>)
    requires Folded(Some(fold), init).Ok? && Folded(Some(fold), init + [l]).Ok?
    requires AreFolded(fold, init, before, Folded(Some(fold), init).value)
    requires starts == if fold(l.text) then before else before + [|init|]
    ensures AreFolded(fold, init + [l], starts, Folded(Some(fold), init + [l]).value)
  {
    hide Folded, IsFolded, Cuts, EndOf, TrimSpace;
    var lines, n := init + [l], |init|;
    var was, now := Folded(Some(fold), init).value, Folded(Some(fold), lines).value;
    LastFolded(fold, init, l);
    OneMoreCut(before, n, starts);
    forall k | 0 <= k < |starts|
      ensures starts[k] < EndOf(starts, k, n + 1) && IsFolded(fold, lines, starts[k], EndOf(starts, k, n + 1), now[k])
    {
      if k == |before| {
        RunBegins(fold, init, l);
      } else if k < |before| - 1 || starts != before {
        RunStays(fold, init, l, starts[k], EndOf(before, k, n), was[k]);
      } else {
        LastEnds(before, n);
        RunGoesOn(fold, init, l, before[k], was[k], now[k]);
      }
    }
  }

  lemma {:induction false} LastEnds(starts: seq<nat>, n: nat)
    requires starts != []
    ensures EndOf(starts, |starts| - 1, n) == n
  {
  }

  lemma {:induction false} RunBegins(fold: Regex, init: seq<Line>, l: Line)
    requires !fold(l.text)
    ensures IsFolded(fold, init + [l], |init|, |init| + 1, l)
  {
    ContinuedOnce(l.text, [], l);
    assert (init + [l])[|init| + 1..|init| + 1] == [];
  }

  lemma {:induction false} RunStays(fold: Regex, init: seq<Line>, l: Line, from: nat, to: nat, folded: Line)
    requires from < to <= |init| && IsFolded(fold, init, from, to, folded)
    ensures IsFolded(fold, init + [l], from, to, folded)
  {
    assert (init + [l])[from + 1..to] == init[from + 1..to];
    hide Continued;
  }

  lemma {:induction false} RunGoesOn(fold: Regex, init: seq<Line>, l: Line, from: nat, was: Line, now: Line)
    requires from < |init| && IsFolded(fold, init, from, |init|, was) && fold(l.text)
    requires now == Line(was.text + " " + TrimSpace(l.text), was.num)
    ensures IsFolded(fold, init + [l], from, |init| + 1, now)
  {
    ContinuedOnce(init[from].text, init[from + 1..|init|], l);
    assert (init + [l])[from + 1..|init| + 1] == init[from + 1..|init|] + [l];
    hide Continued, TrimSpace;
  }

  /** What one more line does to the lines folded. */
  lemma {:induction false} LastFolded(fold: Regex, init: seq<Line>, l: Line)
    requires Folded(Some(fold), init).Ok? && Folded(Some(fold), init + [l]).Ok?
    ensures
      var was, now, m := Folded(Some(fold), init).value, Folded(Some(fold), init + [l]).value, |Folded(Some(fold), init).value| - 1;
      if !fold(l.text) then now == was + [l]
      else m >= 0 && now == was[..m] + [Line(was[m].text + " " + TrimSpace(l.text), was[m].num)]
  {
    hide TrimSpace, Foldings;
    FoldingsSnoc(fold, init, l);
    var fs, gs := Foldings(fold, init).value, Foldings(fold, init + [l]).value;
    var m := |fs| - 1;
    if !fold(l.text) {
      assert JoinedAll(gs) == JoinedAll(fs) + [l] by {
        assert gs[..|fs|] == fs;
      }
    } else {
      assert gs[..m] == fs[..m];
      JoinSnoc(fs[m].pieces, TrimSpace(l.text), " ");
      assert JoinedAll(gs) == JoinedAll(fs[..m]) + [Joined(gs[m])];
      assert JoinedAll(fs)[..m] == JoinedAll(fs[..m]);
    }
  }

  /** The first line is no continuation, and none goes on from a blank line. */
  ghost predicate CanFold(fold: Regex, lines: seq<Line>) {
    && (lines != [] ==> !fold(lines[0].text))
    && forall i :: 0 < i < |lines| && fold(lines[i].text) ==> fold(lines[i - 1].text) || !Blank(lines[i - 1].text)
  }

  /** Lines can be folded exactly when the first is no continuation and none goes on from a blank line. */
  lemma {:induction false} FoldsExactly(fold: Regex, lines: seq<Line>)
    ensures Folded(Some(fold), lines).Ok? <==>
      && (lines != [] ==> !fold(lines[0].text))
      && forall i :: 0 < i < |lines| && fold(lines[i].text) ==> fold(lines[i - 1].text) || !Blank(lines[i - 1].text)
  {
    hide Foldings, Blank;
    FoldsTo(fold, lines);
    assert CanFold(fold, lines) ==> Folded(Some(fold), lines).Ok?;
  }

  lemma {:induction false} FoldsTo(fold: Regex, lines: seq<Line>)
    ensures Foldings(fold, lines).Ok? <==> CanFold(fold, lines)
    ensures Foldings(fold, lines).Ok? && lines != [] ==> LastFold(fold, Foldings(fold, lines).value, lines[|lines| - 1])
  {
    hide Blank, Foldings, CanFold, LastFold;
    if lines == [] {
      NothingFolds(fold);
    } else {
      var n := |lines| - 1;
      var init, l := lines[..n], lines[n];
      assert lines == init + [l];
      FoldsTo(fold, init);
      OneMoreFolds(fold, init, l);
      OneMoreCanFold(fold, init, l);
    }
  }

  lemma {:induction false} NothingFolds(fold: Regex)
    ensures Foldings(fold, []).Ok? && CanFold(fold, [])
  {
  }

  /** How the last of the lines folded stands: by its own when no continuation has come. */
  ghost predicate LastFold(fold: Regex, fs: seq<Folding>, l: Line) {
    && fs != [] && fs[|fs| - 1].pieces != []
    && if fold(l.text) then !Blank(fs[|fs| - 1].pieces[0]) else fs[|fs| - 1].pieces[0] == l.text
  }

  lemma {:induction false} OneMoreFolds(fold: Regex, init: seq<Line>, l: Line)
    requires Foldings(fold, init).Ok? && init != [] ==> LastFold(fold, Foldings(fold, init).value, init[|init| - 1])
    ensures Foldings(fold, init + [l]).Ok? ==> LastFold(fold, Foldings(fold, init + [l]).value, l)
    ensures Foldings(fold, init + [l]).Ok? <==>
      && Foldings(fold, init).Ok?
      && (fold(l.text) ==> init != [] && (fold(init[|init| - 1].text) || !Blank(init[|init| - 1].text)))
  {
    FoldingsSnoc(fold, init, l);
    NothingToFold(fold, init);
    hide Foldings, Blank, TrimSpace;
  }

  lemma {:induction false} NothingToFold(fold: Regex, init: seq<Line>)
    ensures init == [] ==> Foldings(fold, init) == Ok([])
  {
  }

  lemma {:induction false} OneMoreCanFold(fold: Regex, init: seq<Line>, l: Line)
    ensures CanFold(fold, init + [l]) <==>
      && CanFold(fold, init)
      && (fold(l.text) ==> init != [] && (fold(init[|init| - 1].text) || !Blank(init[|init| - 1].text)))
  {
    hide Blank;
    var all, n := init + [l], |init|;
    assert all[n] == l;
    assert forall i :: 0 <= i < n ==> all[i] == init[i];
  }

  function WordsOf(lines: seq<Line>): seq<string> {
    if lines == [] then [] else WordsOf(lines[..|lines| - 1]) + Aligned.Words(lines[|lines| - 1].text)
  }

  /** Folding keeps every word of the lines, in order. */
  lemma {:induction false} FoldingKeepsWords(fold: Regex, lines: seq<Line>)
    requires Folded(Some(fold), lines).Ok?
    ensures WordsOf(Folded(Some(fold), lines).value) == WordsOf(lines)
  {
    hide Foldings, JoinedAll, TrimSpace, Aligned.Words;
    if lines == [] {
      NoneFolded(fold);
    } else {
      var n := |lines| - 1;
      var init, l := lines[..n], lines[n];
      assert lines == init + [l];
      FoldedBefore(fold, init, l);
      FoldingKeepsWords(fold, init);
      LastFolded(fold, init, l);
      var was, now := Folded(Some(fold), init).value, Folded(Some(fold), lines).value;
      if fold(l.text) {
        var m := |was| - 1;
        WordsAfterSpace(was[m].text, TrimSpace(l.text));
        Aligned.WordsTrimmed(l.text);
        assert now[..m] == was[..m] && was == was[..m] + [was[m]];
      } else {
        assert now[..|was|] == was;
      }
    }
  }

  lemma {:induction false} NoneFolded(fold: Regex)
    ensures Folded(Some(fold), []) == Ok([])
  {
  }

  lemma {:induction false} WordsAfterSpace(a: string, b: string)
    ensures Aligned.Words(a + " " + b) == Aligned.Words(a) + Aligned.Words(b)
  {
    var rest := " " + b;
    assert a + " " + b == a + rest;
    assert Aligned.AtEdge(a + rest, |a|);
    Aligned.WordsJoin(a, rest);
    assert rest[1..] == b;
  }

  // ----- csv records -----

  /** Lines with the line break after each. */
  function Unlines(lines: seq<Line>): string {
    if lines == [] then "" else Unlines(lines[..|lines| - 1]) + lines[|lines| - 1].text + "\n"
  }

  /** Where the quoting stands after these lines. */
  function QuoteAfter(delim: char, lines: seq<Line>): Quote {
    if lines == [] then OUTSIDE else Feed(QuoteAfter(delim, lines[..|lines| - 1]), delim, lines[|lines| - 1].text)
  }

  /** A record is the lines from one to the next that begins outside quotes: their text, and the number of the first. */
  ghost predicate AreRecords(delim: char, lines: seq<Line>, starts: seq<nat>, records: seq<Line>) {
    && Cuts(starts, |lines|) && |records| == |starts|
    && StartOutside(delim, lines, starts)
    && forall k :: 0 <= k < |starts| ==>
         starts[k] < EndOf(starts, k, |lines|) && IsRecord(lines, starts[k], EndOf(starts, k, |lines|), records[k])
  }

  ghost predicate StartOutside(delim: char, lines: seq<Line>, starts: seq<nat>) {
    forall i :: 0 <= i < |lines| ==> (i in starts <==> !QuoteAfter(delim, lines[..i]).quoted)
  }

  predicate IsRecord(lines: seq<Line>, from: nat, to: nat, record: Line)
    requires from < to <= |lines|
  {
    record.num == lines[from].num && record.text + "\n" == Unlines(lines[from..to])
  }

  lemma {:induction false} UnlinesOnce(lines: seq<Line>, l: Line)
    ensures Unlines([]) == "" && Unlines([l]) == l.text + "\n"
    ensures Unlines(lines + [l]) == Unlines(lines) + l.text + "\n"
  {
    assert (lines + [l])[..|lines|] == lines && [l][..0] == [];
  }

  lemma {:induction false} QuoteAfterOnce(delim: char, lines: seq<Line>, l: Line)
    ensures QuoteAfter(delim, []) == OUTSIDE
    ensures QuoteAfter(delim, lines + [l]) == Feed(QuoteAfter(delim, lines), delim, l.text)
  {
    assert (lines + [l])[..|lines|] == lines;
  }

  /** Grouping follows the quoting of the lines. */
  lemma {:induction false} GroupFollows(delim: char, lines: seq<Line>)
    ensures Group(delim, lines).quote == QuoteAfter(delim, lines)
    ensures Group(delim, lines).pieces != [] <==> QuoteAfter(delim, lines).quoted
  {
    hide Feed, Record;
    if lines != [] {
      var n := |lines| - 1;
      GroupFollows(delim, lines[..n]);
    }
  }

  /** The text of the pieces of a record. */
  lemma {:induction false} PiecesAreText(pieces: seq<string>, text: string)
    requires pieces != []
    ensures Join(pieces + [text], "\n") + "\n" == (Join(pieces, "\n") + "\n") + text + "\n"
  {
    hide Join;
    JoinSnoc(pieces, text, "\n");
    assert Join(pieces, "\n") + "\n" + text + "\n" == (Join(pieces, "\n") + "\n") + text + "\n";
  }

  /** The records of a csv are its lines, cut where the quoting says a line begins outside quotes. */
  lemma {:induction false} RecordsAreLines(delim: char, lines: seq<Line>) returns (starts: seq<nat>)
    ensures AreRecords(delim, lines, starts, Records(delim, lines))
  {
    if lines == [] {
      starts := [];
    } else {
      var n := |lines| - 1;
      var init, l := lines[..n], lines[n];
      assert lines == init + [l];
      var before := RecordsAreLines(delim, init);
      GroupFollows(delim, init);
      starts := if QuoteAfter(delim, init).quoted then before else before + [n];
      OneMoreRecord(delim, init, l, before, starts);
    }
  }

  /** What one more line does to the records, the one still open included. */
  lemma {:induction false} LastRecord(delim: char, init: seq<Line>, l: Line)
    ensures
      var was, now, m := Records(delim, init), Records(delim, init + [l]), |Records(delim, init)| - 1;
      if !QuoteAfter(delim, init).quoted then now == was + [l]
      else m >= 0 && now == was[..m] + [now[m]] && now[m].num == was[m].num && now[m].text + "\n" == (was[m].text + "\n") + l.text + "\n"
  {
    hide Feed, Group, Join;
    GroupSnoc(delim, init, l);
    GroupFollows(delim, init);
    var g := Group(delim, init);
    if QuoteAfter(delim, init).quoted {
      PiecesAreText(g.pieces, l.text);
      assert Records(delim, init)[..|g.records|] == g.records;
    } else {
      assert [] + [l.text] == [l.text];
      JoinSnoc([], l.text, "\n");
    }
  }

  lemma {:induction false} OneMoreRecord(delim: char, init: seq<Line>, l: Line, before: seq<nat>, starts: seq<nat>)
    requires AreRecords(delim, init, before, Records(delim, init))
    requires starts == if QuoteAfter(delim, init).quoted then before else before + [|init|]
    ensures AreRecords(delim, init + [l], starts, Records(delim, init + [l]))
  {
    hide Records, QuoteAfter, Unlines, Cuts, EndOf, StartOutside;
    var lines, n := init + [l], |init|;
    var was, now := Records(delim, init), Records(delim, lines);
    LastRecord(delim, init, l);
    if QuoteAfter(delim, init).quoted {
      NothingQuoted(delim, init, before);
    }
    OneMoreCut(before, n, starts);
    StartsGoOn(delim, init, l, before, starts);
    forall k | 0 <= k < |starts|
      ensures starts[k] < EndOf(starts, k, n + 1) && IsRecord(lines, starts[k], EndOf(starts, k, n + 1), now[k])
    {
      if k == |before| {
        UnlinesOnce([], l);
        assert lines[n..n + 1] == [l];
      } else if k < |before| - 1 || starts != before {
        assert lines[starts[k]..EndOf(before, k, n)] == init[starts[k]..EndOf(before, k, n)];
      } else {
        LastEnds(before, n);
        UnlinesOnce(init[before[k]..n], l);
        assert lines[before[k]..n + 1] == init[before[k]..n] + [l];
      }
    }
  }

  lemma {:induction false} StartsGoOn(delim: char, init: seq<Line>, l: Line, before: seq<nat>, starts: seq<nat>)
    requires Cuts(before, |init|) && StartOutside(delim, init, before)
    requires starts == if QuoteAfter(delim, init).quoted then before else before + [|init|]
    ensures StartOutside(delim, init + [l], starts)
  {
    hide QuoteAfter;
    var lines, n := init + [l], |init|;
    forall i | 0 <= i < |lines| ensures i in starts <==> !QuoteAfter(delim, lines[..i]).quoted {
      assert lines[..i] == init[..i] && init[..n] == init;
    }
  }

  /** Quotes are not open before the first line. */
  lemma {:induction false} NothingQuoted(delim: char, init: seq<Line>, before: seq<nat>)
    requires Cuts(before, |init|) && QuoteAfter(delim, init).quoted
    ensures before != []
  {
  }

  /** No text of a csv is lost or moved by making its records. */
  lemma {:induction false} RecordsKeepText(delim: char, lines: seq<Line>)
    ensures Unlines(Records(delim, lines)) == Unlines(lines)
  {
    hide Records, Group;
    if lines == [] {
      NoRecords(delim);
    } else {
      var n := |lines| - 1;
      var init, l := lines[..n], lines[n];
      assert lines == init + [l];
      RecordsKeepText(delim, init);
      LastRecord(delim, init, l);
      UnlinesOnce(init, l);
      var was, now, m := Records(delim, init), Records(delim, lines), |Records(delim, init)| - 1;
      UnlinesOnce(was, l);
      if now != was + [l] {
        UnlinesOnce(was[..m], was[m]);
        UnlinesOnce(was[..m], now[m]);
        assert was == was[..m] + [was[m]];
        TextsTogether(Unlines(was[..m]), was[m].text, now[m].text, l.text);
      }
    }
  }

  lemma {:induction false} TextsTogether(before: string, was: string, now: string, text: string)
    requires now + "\n" == (was + "\n") + text + "\n"
    ensures before + now + "\n" == (before + was + "\n") + text + "\n"
  {
    assert before + now + "\n" == before + (now + "\n");
    assert (before + was + "\n") + text + "\n" == before + ((was + "\n") + text + "\n");
  }

  lemma {:induction false} NoRecords(delim: char)
    ensures Records(delim, []) == []
  {
  }

  // ----- the text, and what is ignored -----

  /** The lines at these positions, in order. */
  function At(lines: seq<Line>, picks: seq<nat>): (out: seq<Line>)
    requires forall k :: 0 <= k < |picks| ==> picks[k] < |lines|
    ensures |out| == |picks| && forall k :: 0 <= k < |picks| ==> out[k] == lines[picks[k]]
  {
    seq(|picks|, k requires 0 <= k < |picks| => lines[picks[k]])
  }

  ghost predicate Rising(picks: seq<nat>, n: nat) {
    (forall k :: 0 <= k < |picks| ==> picks[k] < n) && forall j, k :: 0 <= j < k < |picks| ==> picks[j] < picks[k]
  }

  /** A line with a line of the text at or before it, and one at or after it. */
  ghost predicate InTheText(skipBlank: bool, lines: seq<Line>, i: nat)
    requires i < |lines|
  {
    exists a, b :: 0 <= a <= i <= b < |lines| && !EdgeBlank(lines[a].text, skipBlank) && !EdgeBlank(lines[b].text, skipBlank)
  }

  lemma {:induction false} KeepPicks(ignore: seq<Regex>, skipBlank: bool, lines: seq<Line>) returns (picks: seq<nat>)
    ensures Rising(picks, |lines|) && Keep(ignore, skipBlank, lines) == At(lines, picks)
    ensures forall i :: 0 <= i < |lines| ==> (i in picks <==> Kept(ignore, skipBlank, lines[i].text))
  {
    hide Kept;
    if lines == [] {
      picks := [];
    } else {
      var n := |lines| - 1;
      picks := KeepPicks(ignore, skipBlank, lines[..n]);
      if Kept(ignore, skipBlank, lines[n].text) {
        var all := picks + [n];
        assert At(lines, all) == At(lines[..n], picks) + [lines[n]];
        assert all[|picks|] == n;
        assert forall i :: 0 <= i < n ==> (i in all <==> i in picks);
        picks := all;
      } else {
        assert At(lines, picks) == At(lines[..n], picks);
      }
    }
  }

  /** The lines kept are those between the first line of the text and the last, less the ignored ones, and less the
      blank ones where blank lines are not kept; in their order. */
  lemma {:induction false} PreparedIsTheText(ignore: seq<Regex>, skipBlank: bool, lines: seq<Line>) returns (picks: seq<nat>)
    ensures Rising(picks, |lines|) && Prepared(ignore, skipBlank, lines) == At(lines, picks)
    ensures forall i :: 0 <= i < |lines| ==>
      (i in picks <==> InTheText(skipBlank, lines, i) && !(skipBlank && Blank(lines[i].text)) && !MatchesAny(ignore, lines[i].text))
  {
    hide Keep, Lead, Trail, MatchesAny, Blank, EdgeBlank, InTheText, Rising;
    var lead := Lead(skipBlank, lines);
    var text := FromText(skipBlank, lines);
    var n := Trail(skipBlank, text);
    var inner := text[..n];
    var own := KeepPicks(ignore, skipBlank, inner);
    picks := seq(|own|, k requires 0 <= k < |own| => lead + own[k]);
    PicksShifted(lines, inner, lead, own, picks);
    forall i | 0 <= i < |lines|
      ensures i in picks <==> InTheText(skipBlank, lines, i) && Kept(ignore, skipBlank, lines[i].text)
    {
      TextIsBetween(skipBlank, lines, i);
      if lead <= i < lead + n {
        assert inner[i - lead] == lines[i];
      }
    }
  }

  /** Positions in a part of the lines as positions in all of them. */
  lemma {:induction false} PicksShifted(lines: seq<Line>, inner: seq<Line>, lead: nat, own: seq<nat>, picks: seq<nat>)
    requires lead + |inner| <= |lines| && inner == lines[lead..lead + |inner|] && Rising(own, |inner|)
    requires |picks| == |own| && forall k :: 0 <= k < |own| ==> picks[k] == lead + own[k]
    ensures Rising(picks, |lines|) && At(lines, picks) == At(inner, own)
    ensures forall i :: 0 <= i < |lines| ==> (i in picks <==> lead <= i < lead + |inner| && i - lead in own)
  {
    forall i | 0 <= i < |lines| ensures i in picks <==> lead <= i < lead + |inner| && i - lead in own {
      if i in picks {
        var k :| 0 <= k < |picks| && picks[k] == i;
        assert own[k] == i - lead;
      }
      if lead <= i < lead + |inner| && i - lead in own {
        var k :| 0 <= k < |own| && own[k] == i - lead;
        assert picks[k] == i;
      }
    }
  }

  lemma {:induction false} TextIsBetween(skipBlank: bool, lines: seq<Line>, i: nat)
    requires i < |lines|
    ensures
      var lead, text := Lead(skipBlank, lines), FromText(skipBlank, lines);
      InTheText(skipBlank, lines, i) <==> lead <= i < lead + Trail(skipBlank, text)
  {
    hide Blank, EdgeBlank, Lead, Trail;
    var lead, text := Lead(skipBlank, lines), FromText(skipBlank, lines);
    var n := Trail(skipBlank, text);
    if lead <= i < lead + n {
      assert text[0] == lines[lead] && text[n - 1] == lines[lead + n - 1];
      assert !EdgeBlank(lines[lead].text, skipBlank) && !EdgeBlank(lines[lead + n - 1].text, skipBlank);
    }
    if InTheText(skipBlank, lines, i) {
      var a, b :| 0 <= a <= i <= b < |lines| && !EdgeBlank(lines[a].text, skipBlank) && !EdgeBlank(lines[b].text, skipBlank);
      assert lead <= a && text[b - lead] == lines[b];
    }
  }

  // ----- the selection -----

  /** The selection has been opened at a position: at the first line, or behind the first line `after` matches. */
  ghost predicate OpensAt(sel: Select, lines: seq<Line>, from: nat) {
    && from <= |lines|
    && if sel.after.None? then from == 0
       else from > 0 && sel.after.value(lines[from - 1].text) && forall j :: 0 <= j < from - 1 ==> !sel.after.value(lines[j].text)
  }

  /** `until` matches none of these lines. */
  ghost predicate NotClosed(sel: Select, lines: seq<Line>, from: nat, i: nat)
    requires i < |lines|
  {
    sel.until.Some? ==> forall j :: from <= j <= i ==> !sel.until.value(lines[j].text)
  }

  /** A line that is selected: open, not closed by `until`, past the lines skipped and within the limit. */
  ghost predicate IsSelected(sel: Select, lines: seq<Line>, i: nat)
    requires i < |lines|
  {
    exists from: nat :: from <= i && OpensAt(sel, lines, from) && NotClosed(sel, lines, from, i)
      && sel.skip <= i - from && (sel.limit > 0 ==> i - from < sel.skip + sel.limit)
  }

  /** The region is the lines that are selected, which stand together. */
  lemma {:induction false} RegionIsSelected(sel: Select, lines: seq<Line>) returns (lo: nat, hi: nat)
    ensures lo <= hi <= |lines| && Region(sel, lines) == lines[lo..hi]
    ensures forall i :: 0 <= i < |lines| ==> (lo <= i < hi <==> IsSelected(sel, lines, i))
  {
    var s := SpanOf(sel, lines);
    lo, hi := s.lo, s.hi;
    forall i | 0 <= i < |lines| ensures lo <= i < hi <==> IsSelected(sel, lines, i) {
      if Open(sel, lines) {
        SelectedWhenOpen(sel, lines, i);
      } else if IsSelected(sel, lines, i) {
        var from: nat :| from <= i && OpensAt(sel, lines, from);
      }
    }
  }

  lemma {:induction false} SelectedWhenOpen(sel: Select, lines: seq<Line>, i: nat)
    requires Open(sel, lines) && i < |lines|
    ensures SpanOf(sel, lines).lo <= i < SpanOf(sel, lines).hi <==> IsSelected(sel, lines, i)
  {
    var from, stop := From(sel, lines), Stop(sel, lines);
    OpensOnce(sel, lines);
    StopsThere(sel, lines);
    hide Open, Stop, From, OpensAt, NotClosed;
    assert IsSelected(sel, lines, i) ==> from <= i;
  }

  lemma {:induction false} OpensOnce(sel: Select, lines: seq<Line>)
    requires Open(sel, lines)
    ensures OpensAt(sel, lines, From(sel, lines))
    ensures forall other: nat :: OpensAt(sel, lines, other) ==> other == From(sel, lines)
  {
    var from := From(sel, lines);
    forall other: nat | OpensAt(sel, lines, other) ensures other == from {
      assert sel.after.Some? ==> !(other < from) && !(from < other);
    }
  }

  lemma {:induction false} StopsThere(sel: Select, lines: seq<Line>)
    requires Open(sel, lines)
    ensures
      var from, stop := From(sel, lines), Stop(sel, lines);
      forall i :: from <= i < |lines| ==> (i < stop <==> NotClosed(sel, lines, from, i))
  {
    var from := From(sel, lines);
    if sel.until.Some? {
      var k := FirstMatch(sel.until.value, lines[from..]);
      assert forall j :: from <= j < from + k ==> lines[j] == lines[from..][j - from];
      assert k < |lines[from..]| ==> lines[from + k] == lines[from..][k];
    }
  }
}
