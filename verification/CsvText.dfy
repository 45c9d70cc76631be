/**
 Csv as it is written (section 2 of RFC 4180) and the records made of its lines (pkg/engine/csv.go, csvRecords): a row is one record
 however many lines its quoted fields take, and a quote that opens no field opens nothing.
 */
module CsvText {
  import opened Lines
  import opened Stages

  /** A field as it is written: in quotes, whatever it holds, or as it is. */
  datatype Field = Quoted(text: string) | Bare(text: string)

  /** Quotes inside quotes are written twice. */
  function Doubled(t: string): string {
    if t == "" then "" else (if t[0] == '"' then "\"\"" else [t[0]]) + Doubled(t[1..])
  }

  function FieldText(f: Field): string {
    if f.Quoted? then "\"" + Doubled(f.text) + "\"" else f.text
  }

  /** What stands as it is holds no separator and no line break, and does not begin with a quote. */
  predicate CanBeBare(t: string, delim: char) {
    delim !in t && '\n' !in t && (t != "" ==> t[0] != '"')
  }

  predicate WellWritten(fields: seq<Field>, delim: char) {
    fields != [] && forall i :: 0 <= i < |fields| ==> fields[i].Bare? ==> CanBeBare(fields[i].text, delim)
  }

  function RowText(fields: seq<Field>, delim: char): string
    requires fields != []
  {
    if |fields| == 1 then FieldText(fields[0]) else FieldText(fields[0]) + ([delim] + RowText(fields[1..], delim))
  }

  predicate IsDelimiter(delim: char) {
    delim != '"' && delim != '\n'
  }

  const INSIDE := Quote(true, false)
  const BEHIND := Quote(false, false)

  // ----- following the quotes of a row -----

  /** Inside quotes everything is text up to the quote that closes them. */
  lemma {:induction false} QuotedIsFollowed(t: string, rest: string, delim: char)
    requires rest == "" || rest[0] != '"'
    ensures Scan(INSIDE, delim, Doubled(t) + ("\"" + rest)) == Scan(BEHIND, delim, rest)
    decreases |t|
  {
    var all := Doubled(t) + ("\"" + rest);
    if t == "" {
      assert all == "\"" + rest && all[1..] == rest;
    } else {
      var tail := Doubled(t[1..]) + ("\"" + rest);
      QuotedIsFollowed(t[1..], rest, delim);
      if t[0] == '"' {
        assert all == "\"\"" + tail && all[2..] == tail;
      } else {
        assert all == [t[0]] + tail && all[1..] == tail;
      }
    }
  }

  /** Text that does not open a field is passed over. */
  lemma {:induction false} BareIsFollowed(t: string, rest: string, delim: char, q: Quote)
    requires !q.quoted && IsDelimiter(delim) && delim !in t && '\n' !in t && (q.start && t != "" ==> t[0] != '"')
    ensures Scan(q, delim, t + rest) == Scan(if t == "" then q else BEHIND, delim, rest)
    decreases |t|
  {
    if t == "" {
      assert t + rest == rest;
    } else {
      assert (t + rest)[1..] == t[1..] + rest && (t + rest)[0] == t[0];
      assert t[0] in t;
      BareIsFollowed(t[1..], rest, delim, BEHIND);
    }
  }

  /** A field, and what is behind its separator. */
  lemma {:induction false} FieldIsFollowed(f: Field, rest: string, delim: char)
    requires IsDelimiter(delim) && (f.Bare? ==> CanBeBare(f.text, delim))
    ensures Scan(OUTSIDE, delim, FieldText(f) + ([delim] + rest)) == Scan(OUTSIDE, delim, rest)
    ensures !Scan(OUTSIDE, delim, FieldText(f)).quoted
  {
    var next := [delim] + rest;
    assert next[0] == delim && next[1..] == rest;
    if f.Quoted? {
      var body := Doubled(f.text);
      assert FieldText(f) + next == "\"" + (body + ("\"" + next));
      assert ("\"" + (body + ("\"" + next)))[1..] == body + ("\"" + next);
      QuotedIsFollowed(f.text, next, delim);
      assert FieldText(f) == "\"" + (body + ("\"" + ""));
      assert ("\"" + (body + ("\"" + "")))[1..] == body + ("\"" + "");
      QuotedIsFollowed(f.text, "", delim);
    } else {
      BareIsFollowed(f.text, next, delim, OUTSIDE);
      BareIsFollowed(f.text, "", delim, OUTSIDE);
      assert f.text + "" == f.text;
    }
  }

  /** No quotes are open behind a row. */
  lemma {:induction false} RowIsFollowed(fields: seq<Field>, delim: char)
    requires WellWritten(fields, delim) && IsDelimiter(delim)
    ensures !Scan(OUTSIDE, delim, RowText(fields, delim)).quoted
  {
    hide Scan, FieldText;
    if |fields| == 1 {
      FieldIsFollowed(fields[0], "", delim);
    } else {
      RestIsWellWritten(fields, delim);
      FieldIsFollowed(fields[0], RowText(fields[1..], delim), delim);
      RowIsFollowed(fields[1..], delim);
    }
  }

  lemma {:induction false} RestIsWellWritten(fields: seq<Field>, delim: char)
    requires WellWritten(fields, delim) && |fields| > 1
    ensures WellWritten(fields[1..], delim)
  {
  }

  lemma {:induction false} QuoteIsNoBreak(p: string, r: string)
    ensures "" + "\"" != p + ("\n" + r)
  {
    assert (p + ("\n" + r))[|p|] == '\n';
  }

  /** A line break inside quotes finds them open. */
  lemma {:induction false} BreakInQuotes(t: string, p: string, r: string, delim: char)
    requires Doubled(t) + "\"" == p + ("\n" + r)
    ensures Scan(INSIDE, delim, p).quoted
    decreases |t|
  {
    var all := p + ("\n" + r);
    assert all[|p|] == '\n';
    QuoteIsNoBreak(p, r);
    if t != "" && p != "" {
      var n := if t[0] == '"' then 2 else 1;
      assert all[0] == t[0];
      if t[0] == '"' {
        assert all[1] == '"';
        assert p[0] == all[0];
        assert |p| >= 2 && p[1] == all[1];
      } else {
        assert p[0] == all[0];
      }
      assert Doubled(t[1..]) + "\"" == all[n..] == p[n..] + ("\n" + r);
      BreakInQuotes(t[1..], p[n..], r, delim);
    }
  }

  /** A line break inside a row stands in quotes: they are open there. */
  lemma {:induction false} BreakIsQuoted(fields: seq<Field>, delim: char, p: string, r: string)
    requires WellWritten(fields, delim) && IsDelimiter(delim) && RowText(fields, delim) == p + ("\n" + r)
    ensures Scan(OUTSIDE, delim, p).quoted
    decreases |fields|
  {
    hide Scan, FieldText, RowText, WellWritten;
    FirstIsWellWritten(fields, delim);
    var f, rest := fields[0], if |fields| > 1 then [delim] + RowText(fields[1..], delim) else "";
    var own := FieldText(f);
    RowBegins(fields, delim);
    if |p| < |own| {
      CutInside(own, rest, p, r);
      BreakInField(f, delim, p, own[|p| + 1..]);
    } else {
      BreakIsBehind(own, rest, p, r);
      var next := RowText(fields[1..], delim);
      CutBehind(own, delim, next, p, r);
      RestIsWellWritten(fields, delim);
      BreakIsQuoted(fields[1..], delim, p[|own| + 1..], r);
      FieldIsFollowed(f, p[|own| + 1..], delim);
    }
  }

  lemma {:induction false} RowBegins(fields: seq<Field>, delim: char)
    requires fields != []
    ensures RowText(fields, delim) == FieldText(fields[0]) + if |fields| > 1 then [delim] + RowText(fields[1..], delim) else ""
  {
    hide FieldText;
  }

  lemma {:induction false} FirstIsWellWritten(fields: seq<Field>, delim: char)
    requires WellWritten(fields, delim)
    ensures fields != [] && (fields[0].Bare? ==> CanBeBare(fields[0].text, delim))
  {
  }

  lemma {:induction false} CutInside(own: string, rest: string, p: string, r: string)
    requires own + rest == p + ("\n" + r) && |p| < |own|
    ensures own == p + ("\n" + own[|p| + 1..])
  {
    var all := own + rest;
    assert own == all[..|own|] && p == all[..|p|] && all[|p|] == '\n';
    assert own[..|p|] == p && own[|p|] == '\n';
  }

  lemma {:induction false} BreakIsBehind(own: string, rest: string, p: string, r: string)
    requires own + rest == p + ("\n" + r) && |p| >= |own|
    ensures rest != ""
  {
    assert |own + rest| == |p| + 1 + |r|;
  }

  lemma {:induction false} CutBehind(own: string, delim: char, next: string, p: string, r: string)
    requires own + ([delim] + next) == p + ("\n" + r) && |p| >= |own| && delim != '\n'
    ensures |p| > |own| && p == own + ([delim] + p[|own| + 1..]) && next == p[|own| + 1..] + ("\n" + r)
  {
    var all := own + ([delim] + next);
    assert all[|own|] == delim && all[|p|] == '\n';
    assert p == all[..|p|] && p[..|own|] == own && p[|own|] == delim;
    assert next == all[|own| + 1..];
  }

  lemma {:induction false} BreakInField(f: Field, delim: char, p: string, r: string)
    requires FieldText(f) == p + ("\n" + r) && (f.Bare? ==> CanBeBare(f.text, delim))
    ensures Scan(OUTSIDE, delim, p).quoted
  {
    var own := FieldText(f);
    assert own[|p|] == '\n';
    assert f.Quoted?;
    assert own[0] == '"' && p != "" && p[0] == own[0];
    assert Doubled(f.text) + "\"" == own[1..] == p[1..] + ("\n" + r);
    BreakInQuotes(f.text, p[1..], r, delim);
  }

  // ----- the records of rows -----

  function TextsOf(lines: seq<Line>): seq<string> {
    seq(|lines|, i requires 0 <= i < |lines| => lines[i].text)
  }

  /** The lines of a row are its text, cut at its line breaks. */
  predicate AreLinesOf(lines: seq<Line>, fields: seq<Field>, delim: char) {
    lines != [] && WellWritten(fields, delim) && Join(TextsOf(lines), "\n") == RowText(fields, delim)
  }

  lemma {:induction false} JoinSplits(texts: seq<string>, k: nat)
    requires 0 < k < |texts|
    ensures Join(texts, "\n") == Join(texts[..k], "\n") + ("\n" + Join(texts[k..], "\n"))
    decreases |texts| - k
  {
    hide Join;
    var n := |texts| - 1;
    if k == n {
      assert texts == texts[..n] + [texts[n]] && texts[n..] == [] + [texts[n]];
      JoinSnoc(texts[..n], texts[n], "\n");
      JoinSnoc([], texts[n], "\n");
      assert Join(texts[..n], "\n") + "\n" + texts[n] == Join(texts[..n], "\n") + ("\n" + texts[n]);
    } else {
      var init := texts[..n];
      JoinSplits(init, k);
      assert init[..k] == texts[..k] && texts == init + [texts[n]] && texts[k..] == init[k..] + [texts[n]];
      JoinSnoc(init, texts[n], "\n");
      JoinSnoc(init[k..], texts[n], "\n");
      Regroup(Join(texts[..k], "\n"), "\n", Join(init[k..], "\n"), texts[n]);
    }
  }

  lemma {:induction false} Regroup(a: string, s: string, b: string, t: string)
    ensures (a + (s + b)) + s + t == a + (s + (b + s + t))
  {
  }

  /** Where the quotes stand behind some lines is where they stand behind the text that they make. */
  lemma {:induction false} QuotesFollow(lines: seq<Line>, delim: char, k: nat, g: Quote)
    requires 0 < k <= |lines| && g == FeedAll(OUTSIDE, delim, TextsOf(lines)[..k])
    ensures g == Feed(OUTSIDE, delim, Join(TextsOf(lines)[..k], "\n"))
    decreases k
  {
    hide Feed, Join;
    var texts := TextsOf(lines);
    var n := k - 1;
    assert texts[..k] == texts[..n] + [texts[n]];
    JoinSnoc(texts[..n], texts[n], "\n");
    FedOnce(texts[..n], texts[n], delim);
    if n > 0 {
      QuotesFollow(lines, delim, n, FeedAll(OUTSIDE, delim, texts[..n]));
      FeedingLinesReadsTheirText(OUTSIDE, delim, Join(texts[..n], "\n"), texts[n]);
    } else {
      assert texts[..n] == [];
    }
  }

  function FeedAll(q: Quote, delim: char, texts: seq<string>): Quote {
    if texts == [] then q else Feed(FeedAll(q, delim, texts[..|texts| - 1]), delim, texts[|texts| - 1])
  }

  lemma {:induction false} FedOnce(texts: seq<string>, t: string, delim: char)
    ensures FeedAll(OUTSIDE, delim, texts + [t]) == Feed(FeedAll(OUTSIDE, delim, texts), delim, t)
    ensures FeedAll(OUTSIDE, delim, []) == OUTSIDE
  {
    hide Feed;
    assert (texts + [t])[..|texts|] == texts;
  }

  /** Behind a line of a row that is not its last the quotes are open; behind its last they are closed. */
  lemma {:induction false} OpenUntilTheEnd(lines: seq<Line>, fields: seq<Field>, delim: char, k: nat)
    requires AreLinesOf(lines, fields, delim) && IsDelimiter(delim) && 0 < k <= |lines|
    ensures
      var g := FeedAll(OUTSIDE, delim, TextsOf(lines)[..k]);
      if k < |lines| then g.quoted else g == OUTSIDE
  {
    hide Scan, Join, RowText, FeedAll, WellWritten;
    var texts := TextsOf(lines);
    QuotesFollow(lines, delim, k, FeedAll(OUTSIDE, delim, texts[..k]));
    if k < |lines| {
      JoinSplits(texts, k);
      BreakIsQuoted(fields, delim, Join(texts[..k], "\n"), Join(texts[k..], "\n"));
    } else {
      assert texts[..k] == texts;
      RowIsFollowed(fields, delim);
    }
  }

  /** The lines of a row, as far as they have come. */
  lemma {:induction false} RowSoFar(before: seq<Line>, lines: seq<Line>, fields: seq<Field>, delim: char, k: nat)
    requires AreLinesOf(lines, fields, delim) && IsDelimiter(delim) && k <= |lines|
    requires Group(delim, before).pieces == [] && Group(delim, before).quote == OUTSIDE
    ensures
      var g, was := Group(delim, before + lines[..k]), Group(delim, before);
      && g.quote == FeedAll(OUTSIDE, delim, TextsOf(lines)[..k])
      && (k < |lines| ==> g.records == was.records && g.pieces == TextsOf(lines)[..k] && (k > 0 ==> g.num == lines[0].num))
      && (k == |lines| ==> g.records == was.records + [Line(RowText(fields, delim), lines[0].num)] && g.pieces == [])
  {
    hide Group, Feed, FeedAll, RowText, WellWritten, AreLinesOf;
    var texts := TextsOf(lines);
    RowHasLines(lines, fields, delim);
    if k == 0 {
      assert before + lines[..0] == before && texts[..0] == [];
      FedOnce([], "", delim);
    } else {
      var n := k - 1;
      RowSoFar(before, lines, fields, delim, n);
      assert before + lines[..k] == (before + lines[..n]) + [lines[n]];
      GroupSnoc(delim, before + lines[..n], lines[n]);
      assert texts[..k] == texts[..n] + [texts[n]];
      FedOnce(texts[..n], texts[n], delim);
      OpenUntilTheEnd(lines, fields, delim, k);
      if k == |lines| {
        assert texts[..k] == texts;
      }
    }
  }

  lemma {:induction false} RowHasLines(lines: seq<Line>, fields: seq<Field>, delim: char)
    requires AreLinesOf(lines, fields, delim)
    ensures lines != [] && Join(TextsOf(lines), "\n") == RowText(fields, delim)
  {
  }

  function AllLines(rows: seq<seq<Line>>): seq<Line> {
    if rows == [] then [] else AllLines(rows[..|rows| - 1]) + rows[|rows| - 1]
  }

  /** A record is the row: with the text it was written as, and the number of its first line. */
  predicate IsRecordOf(record: Line, lines: seq<Line>, fields: seq<Field>, delim: char) {
    lines != [] && fields != [] && record == Line(RowText(fields, delim), lines[0].num)
  }

  predicate AreRecordsOf(records: seq<Line>, rows: seq<seq<Line>>, fields: seq<seq<Field>>, delim: char) {
    |records| == |rows| == |fields| && forall i :: 0 <= i < |rows| ==> IsRecordOf(records[i], rows[i], fields[i], delim)
  }

  lemma {:induction false} OneMoreRecordOf(records: seq<Line>, rows: seq<seq<Line>>, fields: seq<seq<Field>>, delim: char, record: Line)
    requires rows != [] && |fields| == |rows|
    requires
      var n := |rows| - 1;
      AreRecordsOf(records, rows[..n], fields[..n], delim) && IsRecordOf(record, rows[n], fields[n], delim)
    ensures AreRecordsOf(records + [record], rows, fields, delim)
  {
    hide IsRecordOf;
    var n := |rows| - 1;
    assert forall i :: 0 <= i < n ==> rows[..n][i] == rows[i] && fields[..n][i] == fields[i];
  }

  /** Behind these lines no record is open. */
  predicate Between(lines: seq<Line>, delim: char) {
    Group(delim, lines).pieces == [] && Group(delim, lines).quote == OUTSIDE
  }

  lemma {:induction false} OneMoreRow(before: seq<Line>, lines: seq<Line>, fields: seq<Field>, delim: char)
    requires Between(before, delim) && AreLinesOf(lines, fields, delim) && IsDelimiter(delim)
    ensures Between(before + lines, delim)
    ensures
      var record := Line(RowText(fields, delim), lines[0].num);
      IsRecordOf(record, lines, fields, delim) && Records(delim, before + lines) == Records(delim, before) + [record]
  {
    hide Group, RowText, Feed, FeedAll, WellWritten;
    RowSoFar(before, lines, fields, delim, |lines|);
    OpenUntilTheEnd(lines, fields, delim, |lines|);
    FieldsAreThere(fields, delim);
    assert lines[..|lines|] == lines;
  }

  lemma {:induction false} FieldsAreThere(fields: seq<Field>, delim: char)
    requires WellWritten(fields, delim)
    ensures fields != []
  {
  }

  /** Rows that are written one behind the other are read as one record each. */
  lemma {:induction false} RowsAreRecords(rows: seq<seq<Line>>, fields: seq<seq<Field>>, delim: char)
    requires |rows| == |fields| && IsDelimiter(delim)
    requires forall i :: 0 <= i < |rows| ==> AreLinesOf(rows[i], fields[i], delim)
    ensures AreRecordsOf(Records(delim, AllLines(rows)), rows, fields, delim) && Between(AllLines(rows), delim)
  {
    if rows != [] {
      hide Records, AreLinesOf, AreRecordsOf, IsRecordOf, Between, RowText;
      var n := |rows| - 1;
      assert forall i :: 0 <= i < n ==> rows[..n][i] == rows[i] && fields[..n][i] == fields[i];
      RowsAreRecords(rows[..n], fields[..n], delim);
      RowHasFields(rows[n], fields[n], delim);
      OneMoreRow(AllLines(rows[..n]), rows[n], fields[n], delim);
      OneMoreRecordOf(Records(delim, AllLines(rows[..n])), rows, fields, delim, Line(RowText(fields[n], delim), rows[n][0].num));
    }
  }

  lemma {:induction false} RowHasFields(lines: seq<Line>, fields: seq<Field>, delim: char)
    requires AreLinesOf(lines, fields, delim)
    ensures lines != [] && fields != []
  {
  }
}
