/**
 A pattern matched against the whole input (pkg/engine/ledger.go, markSpan, checkWhole, outside): the match is
 known by its offsets in the lines joined with line breaks, and what it left unread is found line by line.
 */
module Spans {
  import opened Lines
  import opened Readings
  import opened Batch

  // ----- where the lines stand in the joined text -----

  function Texts(lines: seq<Line>): (texts: seq<string>)
    ensures |texts| == |lines|
  {
    seq(|lines|, i requires 0 <= i < |lines| => lines[i].text)
  }

  /** The input a pattern is matched against (parseRegex). */
  function Joined(lines: seq<Line>): string {
    Join(Texts(lines), "\n")
  }

  /** Where the i-th line starts. */
  function StartOf(lines: seq<Line>, i: nat): nat
    requires i <= |lines|
  {
    if i == 0 then 0 else StartOf(lines, i - 1) + |lines[i - 1].text| + 1
  }

  function Max(a: int, b: int): int {
    if a < b then b else a
  }

  function Min(a: int, b: int): int {
    if a < b then a else b
  }

  /** The match covers at least one character of a line that starts at lo. */
  predicate Reached(text: string, lo: nat, start: nat, end: nat) {
    Max(lo, start) < Min(lo + |text|, end)
  }

  /** What stands before and after a part of a line is white space (outside). */
  predicate Whole(text: string, from: nat, to: nat)
    requires from <= to <= |text|
  {
    Blank(text[..from]) && Blank(text[to..])
  }

  /** The match reaches all there is to read on a line it reaches. */
  predicate WholeWhereReached(text: string, lo: nat, start: nat, end: nat) {
    Reached(text, lo, start, end) ==> Whole(text, Max(start - lo, 0), Min(end - lo, |text|))
  }

  /** The numbers of the first n lines that the match reaches. */
  function ReachedNumbers(lines: seq<Line>, n: nat, start: nat, end: nat): set<nat>
    requires n <= |lines|
  {
    if n == 0 then {}
    else
      ReachedNumbers(lines, n - 1, start, end)
      + if Reached(lines[n - 1].text, StartOf(lines, n - 1), start, end) then {lines[n - 1].num} else {}
  }

  lemma {:induction false} NothingReached(lines: seq<Line>, start: nat, end: nat)
    ensures ReachedNumbers(lines, 0, start, end) == {} && StartOf(lines, 0) == 0
  {
  }

  lemma {:induction false} NextReached(lines: seq<Line>, i: nat, start: nat, end: nat)
    requires i < |lines|
    ensures StartOf(lines, i + 1) == StartOf(lines, i) + |lines[i].text| + 1
    ensures ReachedNumbers(lines, i + 1, start, end) ==
      ReachedNumbers(lines, i, start, end) + if Reached(lines[i].text, StartOf(lines, i), start, end) then {lines[i].num} else {}
  {
  }

  /** Mark the lines the match reaches, or refuse one it reaches only in part (markSpan). */
  method MarkSpan(lines: seq<Line>, start: nat, end: nat, ledger: Ledger) returns (ok: bool)
    requires forall i :: 0 <= i < |lines| ==> ledger.InRange(lines[i].num)
    modifies ledger.read
    ensures ok <==> forall i :: 0 <= i < |lines| ==> WholeWhereReached(lines[i].text, StartOf(lines, i), start, end)
    ensures ok ==> ledger.Marked() == old(ledger.Marked()) + ReachedNumbers(lines, |lines|, start, end)
  {
    hide Reached, WholeWhereReached, Ledger.Marked, ReachedNumbers, StartOf;
    NothingReached(lines, start, end);
    var pos := 0;
    for i := 0 to |lines|
      invariant pos == StartOf(lines, i)
      invariant forall k :: 0 <= k < i ==> WholeWhereReached(lines[k].text, StartOf(lines, k), start, end)
      invariant ledger.Marked() == old(ledger.Marked()) + ReachedNumbers(lines, i, start, end)
    {
      var l := lines[i];
      NextReached(lines, i, start, end);
      var lo := pos;
      pos := lo + |l.text| + 1;
      if !Reached(l.text, lo, start, end) {
        NotReached(l.text, lo, start, end);
        continue;
      }
      if !WholeWhereReached(l.text, lo, start, end) {
        return false;
      }
      ledger.MarkOne(l);
    }
    ok := true;
  }

  // ----- what the line-by-line rule says about the joined text -----

  lemma {:induction false} BlankIsSpaces(s: string)
    ensures Blank(s) <==> forall i :: 0 <= i < |s| ==> IsSpace(s[i])
  {
    hide IsSpace;
    LeftIsSpaces(s);
    RightIsSpaces(TrimLeft(s));
    if Blank(s) {
      assert TrimLeft(s) == "";
    }
  }

  lemma {:induction false} LeftIsSpaces(s: string)
    ensures TrimLeft(s) == "" <==> forall i :: 0 <= i < |s| ==> IsSpace(s[i])
    ensures TrimLeft(s) != "" ==> !IsSpace(TrimLeft(s)[0])
  {
    hide IsSpace;
    if s != "" && IsSpace(s[0]) {
      LeftIsSpaces(s[1..]);
      assert forall i :: 1 <= i < |s| ==> s[i] == s[1..][i - 1];
      assert forall i :: 0 <= i < |s| - 1 ==> s[1..][i] == s[i + 1];
    }
  }

  lemma {:induction false} RightIsSpaces(s: string)
    requires s != "" ==> !IsSpace(s[0])
    ensures TrimRight(s) == "" <==> s == ""
  {
    hide IsSpace;
    if s != "" && IsSpace(s[|s| - 1]) {
      assert |s| > 1;
      assert s[..|s| - 1][0] == s[0];
      RightIsSpaces(s[..|s| - 1]);
    }
  }

  lemma {:induction false} JoinedSnoc(lines: seq<Line>)
    requires lines != []
    ensures
      var n := |lines| - 1;
      && StartOf(lines, n + 1) == StartOf(lines, n) + |lines[n].text| + 1 && StartOf(lines[..n], n) == StartOf(lines, n)
      && (n == 0 ==> Joined(lines) == lines[0].text && StartOf(lines, 0) == 0)
      && (n > 0 ==> Joined(lines) == Joined(lines[..n]) + ("\n" + lines[n].text))
  {
    var n := |lines| - 1;
    StartOfPrefix(lines, n, n);
    assert Texts(lines)[..n] == Texts(lines[..n]);
    if n > 0 {
      assert Joined(lines[..n]) + "\n" + lines[n].text == Joined(lines[..n]) + ("\n" + lines[n].text);
    }
  }

  /** The i-th line stands in the joined text where it starts. */
  lemma {:induction false} LineInJoined(lines: seq<Line>, i: nat)
    requires i < |lines|
    ensures StartOf(lines, i) + |lines[i].text| <= |Joined(lines)|
    ensures Joined(lines)[StartOf(lines, i)..StartOf(lines, i) + |lines[i].text|] == lines[i].text
    ensures |Joined(lines)| == StartOf(lines, |lines|) - 1
    decreases |lines|
  {
    hide Joined, StartOf;
    var n := |lines| - 1;
    JoinedSnoc(lines);
    if n > 0 {
      LineInJoined(lines[..n], if i < n then i else 0);
      if i < n {
        StartOfPrefix(lines, n, i);
      }
    }
  }

  lemma {:induction false} StartOfPrefix(lines: seq<Line>, n: nat, i: nat)
    requires i <= n <= |lines|
    ensures StartOf(lines[..n], i) == StartOf(lines, i)
    decreases i
  {
    if i > 0 {
      StartOfPrefix(lines, n, i - 1);
    }
  }

  /** Every character of the joined text is one of a line's, or the break after one. */
  lemma {:induction false} InALine(lines: seq<Line>, p: nat) returns (i: nat)
    requires lines != [] && p < |Joined(lines)|
    ensures i < |lines| && StartOf(lines, i) <= p <= StartOf(lines, i) + |lines[i].text|
    ensures p == StartOf(lines, i) + |lines[i].text| ==> Joined(lines)[p] == '\n'
    decreases |lines|
  {
    var n := |lines| - 1;
    LineInJoined(lines, n);
    StartOfPrefix(lines, n, n);
    assert Texts(lines)[..n] == Texts(lines[..n]);
    if p >= StartOf(lines, n) {
      i := n;
    } else {
      var before := Joined(lines[..n]);
      LineInJoined(lines[..n], n - 1);
      assert Joined(lines) == before + "\n" + lines[n].text;
      if p == |before| {
        i := n - 1;
      } else {
        i := InALine(lines[..n], p);
        StartOfPrefix(lines, n, i);
      }
    }
  }

  /** Nothing but white space stands outside the match. */
  ghost predicate NothingOutside(lines: seq<Line>, start: nat, end: nat) {
    forall p :: 0 <= p < |Joined(lines)| && !IsSpace(Joined(lines)[p]) ==> start <= p < end
  }

  /** A line is settled: the match reaches it and leaves only white space, or does not and there is nothing else. */
  predicate Settled(text: string, lo: nat, start: nat, end: nat) {
    if Reached(text, lo, start, end) then WholeWhereReached(text, lo, start, end) else Blank(text)
  }

  lemma {:induction false} SettledIs(text: string, lo: nat, start: nat, end: nat)
    requires start <= end
    ensures Settled(text, lo, start, end) <==> forall k :: 0 <= k < |text| && !IsSpace(text[k]) ==> start <= lo + k < end
  {
    hide Blank, IsSpace;
    BlankIsSpaces(text);
    if Reached(text, lo, start, end) {
      var from, to := Max(start - lo, 0), Min(end - lo, |text|);
      BlankIsSpaces(text[..from]);
      BlankIsSpaces(text[to..]);
      assert forall k :: 0 <= k < from ==> text[..from][k] == text[k];
      assert forall k :: to <= k < |text| ==> text[to..][k - to] == text[k];
      assert forall k :: 0 <= k < |text| - to ==> text[to..][k] == text[k + to];
    }
  }

  ghost predicate AllSettled(lines: seq<Line>, start: nat, end: nat) {
    forall i :: 0 <= i < |lines| ==> Settled(lines[i].text, StartOf(lines, i), start, end)
  }

  /** Every line is settled exactly when nothing but white space stands outside the match. */
  lemma {:induction false} LinesAreTheText(lines: seq<Line>, start: nat, end: nat)
    requires start <= end
    ensures AllSettled(lines, start, end) <==> NothingOutside(lines, start, end)
  {
    hide Settled, Joined, IsSpace, StartOf;
    if AllSettled(lines, start, end) {
      forall p | 0 <= p < |Joined(lines)| && !IsSpace(Joined(lines)[p]) ensures start <= p < end {
        SettledAt(lines, start, end, p);
      }
    }
    if NothingOutside(lines, start, end) {
      forall i | 0 <= i < |lines| ensures Settled(lines[i].text, StartOf(lines, i), start, end) {
        LineIsSettled(lines, start, end, i);
      }
    }
  }

  lemma {:induction false} SettledAt(lines: seq<Line>, start: nat, end: nat, p: nat)
    requires start <= end && AllSettled(lines, start, end) && p < |Joined(lines)| && !IsSpace(Joined(lines)[p])
    ensures start <= p < end
  {
    hide Settled, Joined, IsSpace, StartOf;
    NothingJoined();
    var i := InALine(lines, p);
    BreaksAreSpace();
    LineInJoined(lines, i);
    var lo := StartOf(lines, i);
    assert Joined(lines)[lo..lo + |lines[i].text|][p - lo] == Joined(lines)[p];
    SettledIs(lines[i].text, lo, start, end);
  }

  lemma {:induction false} LineIsSettled(lines: seq<Line>, start: nat, end: nat, i: nat)
    requires start <= end && NothingOutside(lines, start, end) && i < |lines|
    ensures Settled(lines[i].text, StartOf(lines, i), start, end)
  {
    hide Settled, Joined, IsSpace, StartOf;
    var lo, text := StartOf(lines, i), Joined(lines);
    LineInJoined(lines, i);
    forall k | 0 <= k < |lines[i].text| && !IsSpace(lines[i].text[k]) ensures start <= lo + k < end {
      assert text[lo..lo + |lines[i].text|][k] == text[lo + k];
    }
    SettledIs(lines[i].text, lo, start, end);
  }

  lemma {:induction false} NothingJoined()
    ensures Joined([]) == ""
  {
  }

  lemma {:induction false} BreaksAreSpace()
    ensures IsSpace('\n')
  {
  }

  lemma {:induction false} ReachedIs(lines: seq<Line>, n: nat, i: nat, start: nat, end: nat)
    requires Ascending(lines) && n <= |lines| && i < |lines|
    ensures lines[i].num in ReachedNumbers(lines, n, start, end) <==> i < n && Reached(lines[i].text, StartOf(lines, i), start, end)
    decreases n
  {
    if n > 0 {
      ReachedIs(lines, n - 1, i, start, end);
    }
  }

  /** Reading a whole input with one match, the lines that nobody read found afterwards, succeeds exactly when
      nothing but white space of the selected lines stands outside the match. */
  method ReadWhole(lines: seq<Line>, start: nat, end: nat) returns (ok: bool)
    requires Ascending(lines) && start <= end
    ensures ok <==> NothingOutside(lines, start, end)
  {
    var ledger := new Ledger(lines);
    ok := MarkSpan(lines, start, end, ledger);
    if ok {
      var unread := ledger.Unread(lines);
      ok := !unread;
    }
    WholeIsCovered(lines, start, end);
  }

  lemma {:induction false} WholeIsCovered(lines: seq<Line>, start: nat, end: nat)
    requires Ascending(lines) && start <= end
    ensures
      (forall i :: 0 <= i < |lines| ==> WholeWhereReached(lines[i].text, StartOf(lines, i), start, end))
      && Covers(ReachedNumbers(lines, |lines|, start, end), lines)
      <==> NothingOutside(lines, start, end)
  {
    hide NothingOutside, WholeWhereReached, Reached, Blank, Ascending;
    LinesAreTheText(lines, start, end);
    forall i | 0 <= i < |lines|
      ensures lines[i].num in ReachedNumbers(lines, |lines|, start, end) <==> Reached(lines[i].text, StartOf(lines, i), start, end)
      ensures !Reached(lines[i].text, StartOf(lines, i), start, end) ==> WholeWhereReached(lines[i].text, StartOf(lines, i), start, end)
    {
      ReachedIs(lines, |lines|, i, start, end);
      NotReached(lines[i].text, StartOf(lines, i), start, end);
    }
  }

  lemma {:induction false} NotReached(text: string, lo: nat, start: nat, end: nat)
    ensures !Reached(text, lo, start, end) ==> WholeWhereReached(text, lo, start, end)
  {
  }
}
