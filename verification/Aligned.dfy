/**
 Cutting a row of an aligned table under the offsets of its header (pkg/engine/table.go, alignedCells, cellEnd,
 runeAt): whatever the offsets and however wide the characters, no word is cut, lost or read twice.
 */
module Aligned {
  import opened Lines

  // ----- words -----

  /** The end of the run of characters that are not white space. */
  function WordStop(s: string, i: nat): (n: nat)
    requires i <= |s|
    ensures i <= n <= |s|
    ensures n < |s| ==> IsSpace(s[n])
    ensures forall k :: i <= k < n ==> !IsSpace(s[k])
    decreases |s| - i
  {
    if i < |s| && !IsSpace(s[i]) then WordStop(s, i + 1) else i
  }

  /** The start of the run of characters that are not white space before i, but no further than lo. */
  function WordStart(s: string, lo: nat, i: nat): (n: nat)
    requires lo <= i <= |s|
    ensures lo <= n <= i
    ensures n > lo ==> IsSpace(s[n - 1])
    decreases i
  {
    if i > lo && !IsSpace(s[i - 1]) then WordStart(s, lo, i - 1) else i
  }

  /** The words of a text (strings.Fields). */
  function Words(s: string): seq<string>
    decreases |s|
  {
    if s == "" then []
    else if IsSpace(s[0]) then Words(s[1..])
    else [s[..WordStop(s, 0)]] + Words(s[WordStop(s, 0)..])
  }

  /** A cut at i is between words: white space, or the text's end, is on one of its sides. */
  predicate AtEdge(s: string, i: nat)
    requires i <= |s|
  {
    i == 0 || i == |s| || IsSpace(s[i - 1]) || IsSpace(s[i])
  }

  lemma {:induction false} StopInPrefix(a: string, b: string, i: nat)
    requires i <= |a|
    ensures b == "" || IsSpace(b[0]) ==> WordStop(a + b, i) == WordStop(a, i)
    ensures WordStop(a, i) < |a| ==> WordStop(a + b, i) == WordStop(a, i)
    decreases |a| - i
  {
    hide IsSpace;
    if i < |a| {
      StopInPrefix(a, b, i + 1);
    }
  }

  lemma {:induction false} WordsStep(s: string)
    requires s != ""
    ensures IsSpace(s[0]) ==> Words(s) == Words(s[1..])
    ensures !IsSpace(s[0]) ==> WordStop(s, 0) > 0 && Words(s) == [s[..WordStop(s, 0)]] + Words(s[WordStop(s, 0)..])
  {
  }

  /** Two texts with an edge between them have the words of both, in order. */
  lemma {:induction false} WordsJoin(a: string, b: string)
    requires AtEdge(a + b, |a|)
    ensures Words(a + b) == Words(a) + Words(b)
    decreases |a|
  {
    hide IsSpace, Words, WordStop, AtEdge;
    if a == "" {
      NoWordsAtAll();
      assert a + b == b;
      return;
    }
    WordsStep(a);
    WordsStep(a + b);
    if IsSpace(a[0]) {
      assert (a + b)[1..] == a[1..] + b;
      EdgeStays(a, b, 1);
      WordsJoin(a[1..], b);
    } else {
      FirstWordStays(a, b);
      var n := WordStop(a, 0);
      assert (a + b)[..n] == a[..n] && (a + b)[n..] == a[n..] + b;
      EdgeStays(a, b, n);
      WordsJoin(a[n..], b);
    }
  }

  lemma {:induction false} NoWordsAtAll()
    ensures Words("") == []
  {
  }

  lemma {:induction false} FirstWordStays(a: string, b: string)
    requires a != "" && AtEdge(a + b, |a|) && !IsSpace(a[0])
    ensures WordStop(a + b, 0) == WordStop(a, 0)
  {
    hide IsSpace;
    StopInPrefix(a, b, 0);
    if b != "" {
      assert (a + b)[|a| - 1] == a[|a| - 1] && (a + b)[|a|] == b[0];
    }
  }

  lemma {:induction false} EdgeStays(a: string, b: string, n: nat)
    requires n <= |a| && AtEdge(a + b, |a|)
    ensures AtEdge(a[n..] + b, |a[n..]|)
  {
    var s := a[n..] + b;
    if n < |a| && b != "" {
      assert s[|a| - n - 1] == (a + b)[|a| - 1] && s[|a| - n] == (a + b)[|a|];
    }
  }

  lemma {:induction false} SpacesHaveNoWords(s: string)
    requires forall i :: 0 <= i < |s| ==> IsSpace(s[i])
    ensures Words(s) == []
  {
    if s != "" {
      SpacesHaveNoWords(s[1..]);
    }
  }

  /** Trimming keeps the words. */
  lemma {:induction false} WordsTrimmed(s: string)
    ensures Words(TrimSpace(s)) == Words(s)
  {
    WordsLeft(s);
    WordsRight(TrimLeft(s));
  }

  lemma {:induction false} WordsLeft(s: string)
    ensures Words(TrimLeft(s)) == Words(s)
  {
    if s != "" && IsSpace(s[0]) {
      WordsLeft(s[1..]);
    }
  }

  lemma {:induction false} WordsRight(s: string)
    ensures Words(TrimRight(s)) == Words(s)
  {
    if s != "" && IsSpace(s[|s| - 1]) {
      var n := |s| - 1;
      WordsRight(s[..n]);
      assert s == s[..n] + [s[n]];
      WordsJoin(s[..n], [s[n]]);
      SpacesHaveNoWords([s[n]]);
    }
  }

  // ----- the cut after a cell -----

  /** A value crosses the cut. */
  predicate Crossed(s: string, start: nat, end: nat)
    requires start <= end <= |s|
  {
    start < end < |s| && !IsSpace(s[end]) && !IsSpace(s[end - 1])
  }

  /** Where a cell that starts at `start` ends when its header says `end`: before the value that crosses the cut,
      or behind it when the value began in this cell. */
  function CellEndOf(s: string, start: nat, end: nat): (e: nat)
    requires start <= end <= |s|
    ensures start <= e <= |s|
  {
    if !Crossed(s, start, end) then end
    else if WordStart(s, start, end) > start then WordStart(s, start, end)
    else WordStop(s, end)
  }

  /** cellEnd */
  method CellEnd(s: string, start: nat, end: nat) returns (e: nat)
    requires start <= end <= |s|
    ensures e == CellEndOf(s, start, end)
  {
    hide IsSpace;
    if end <= start || end >= |s| || IsSpace(s[end]) || IsSpace(s[end - 1]) {
      return end;
    }
    var j := end;
    while j > start && !IsSpace(s[j - 1])
      invariant start <= j <= end
      invariant WordStart(s, start, j) == WordStart(s, start, end)
    {
      j := j - 1;
    }
    if j > start {
      return j;
    }
    e := end;
    while e < |s| && !IsSpace(s[e])
      invariant end <= e <= |s|
      invariant WordStop(s, e) == WordStop(s, end)
    {
      e := e + 1;
    }
  }

  lemma {:induction false} CellEndIsAnEdge(s: string, start: nat, end: nat)
    requires start <= end <= |s| && AtEdge(s, start)
    ensures AtEdge(s, CellEndOf(s, start, end))
  {
  }

  // ----- display columns -----

  /** The first character from i on that starts at column col or after it, and takes a column; the i-th starts at
      column pos. */
  function FirstAt(s: string, col: nat, width: char -> nat, i: nat, pos: nat): (n: nat)
    requires i <= |s|
    ensures i <= n <= |s|
    decreases |s| - i
  {
    if i == |s| then |s|
    else if pos >= col && width(s[i]) > 0 then i
    else FirstAt(s, col, width, i + 1, pos + width(s[i]))
  }

  /** runeAt */
  method RuneAt(s: string, col: nat, width: char -> nat) returns (n: nat)
    ensures n == FirstAt(s, col, width, 0, 0)
  {
    var pos: nat := 0;
    for i := 0 to |s|
      invariant FirstAt(s, col, width, i, pos) == FirstAt(s, col, width, 0, 0)
    {
      if pos >= col && width(s[i]) > 0 {
        return i;
      }
      pos := pos + width(s[i]);
    }
    n := |s|;
  }

  predicate Narrow(s: string, width: char -> nat) {
    forall i :: 0 <= i < |s| ==> width(s[i]) == 1
  }

  /** Every ASCII character takes one column, control characters included. */
  ghost predicate AsciiIsNarrow(width: char -> nat) {
    forall c: char :: c < '\U{80}' ==> width(c) == 1
  }

  lemma {:induction false} AsciiBytes(s: string)
    ensures Bytes(s) >= |s|
    ensures Bytes(s) == |s| ==> forall i :: 0 <= i < |s| ==> s[i] < '\U{80}'
  {
    if s != "" {
      AsciiBytes(s[..|s| - 1]);
      assert forall i :: 0 <= i < |s| - 1 ==> s[i] == s[..|s| - 1][i];
    }
  }

  /** allNarrow */
  method AllNarrow(s: string, width: char -> nat) returns (narrow: bool)
    requires AsciiIsNarrow(width)
    ensures narrow == Narrow(s, width)
  {
    if Bytes(s) == |s| {
      AsciiBytes(s);
      return true;
    }
    for i := 0 to |s|
      invariant Narrow(s[..i], width)
    {
      if width(s[i]) != 1 {
        return false;
      }
    }
    assert s[..|s|] == s;
    narrow := true;
  }

  /** Where every character takes one column, a column is an index. */
  lemma {:induction false} NarrowIsIndex(s: string, col: nat, width: char -> nat, i: nat)
    requires Narrow(s, width) && i <= |s|
    ensures FirstAt(s, col, width, i, i) == if col <= i then i else if col <= |s| then col else |s|
    decreases |s| - i
  {
    if i < |s| && i < col {
      NarrowIsIndex(s, col, width, i + 1);
    }
  }

  // ----- the cells -----

  function Max(a: nat, b: nat): nat {
    if a < b then b else a
  }

  function Min(a: nat, b: nat): nat {
    if a < b then a else b
  }

  /** Where the header says that a cell starting at `start` ends. */
  function Boundary(s: string, col: nat, width: char -> nat, start: nat): (b: nat)
    requires start <= |s|
    ensures start <= b <= |s|
  {
    Min(Max(FirstAt(s, col, width, 0, 0), start), |s|)
  }

  function StartOf(s: string, cols: seq<nat>, width: char -> nat, i: nat): (n: nat)
    requires i < |cols|
    ensures n <= |s|
    decreases i, 0
  {
    if i == 0 then 0 else EndOf(s, cols, width, i - 1)
  }

  /** Where the i-th cell ends: the last takes what is left. */
  function EndOf(s: string, cols: seq<nat>, width: char -> nat, i: nat): (n: nat)
    requires i < |cols|
    ensures StartOf(s, cols, width, i) <= n <= |s|
    decreases i, 1
  {
    var start := StartOf(s, cols, width, i);
    if i == |cols| - 1 then |s| else CellEndOf(s, start, Boundary(s, cols[i + 1], width, start))
  }

  function CellOf(s: string, cols: seq<nat>, width: char -> nat, i: nat): string
    requires i < |cols|
  {
    TrimSpace(s[StartOf(s, cols, width, i)..EndOf(s, cols, width, i)])
  }

  /** A tab or two spaces in a row, which is what stands between two columns. */
  predicate HasGap(cell: string) {
    exists i :: 0 <= i < |cell| && (cell[i] == '\t' || (i + 1 < |cell| && cell[i] == ' ' && cell[i + 1] == ' '))
  }

  /** The value of the i-th cell runs past where the next column starts. */
  predicate Overruns(s: string, cols: seq<nat>, width: char -> nat, i: nat)
    requires i + 1 < |cols|
  {
    var start := StartOf(s, cols, width, i);
    EndOf(s, cols, width, i) > Boundary(s, cols[i + 1], width, start)
  }

  /** The header does not say where this cell is: it holds a gap, or is empty because the one before ran into it. */
  predicate Misplaced(s: string, cols: seq<nat>, width: char -> nat, i: nat)
    requires i < |cols|
  {
    || (i + 1 < |cols| && HasGap(CellOf(s, cols, width, i)))
    || (CellOf(s, cols, width, i) == "" && i > 0 && Overruns(s, cols, width, i - 1))
  }

  /** A cell whose value runs past its end is not empty. */
  lemma {:induction false} OverrunIsAValue(s: string, start: nat, end: nat)
    requires start <= end <= |s| && CellEndOf(s, start, end) > end
    ensures TrimSpace(s[start..CellEndOf(s, start, end)]) != ""
  {
    var cell := s[start..CellEndOf(s, start, end)];
    assert cell[end - 1 - start] == s[end - 1];
    if TrimSpace(cell) == "" {
      WordsTrimmed(cell);
      NoWordsNoText(cell, end - 1 - start);
    }
  }

  lemma {:induction false} NoWordsNoText(s: string, i: nat)
    requires i < |s| && !IsSpace(s[i])
    ensures Words(s) != []
  {
    if IsSpace(s[0]) {
      NoWordsNoText(s[1..], i - 1);
    }
  }

  function CellValue(cell: string): Option<string> {
    if cell == "" then None else Some(cell)
  }

  datatype Cut = Cells(cells: seq<Option<string>>) | Misaligned(col: nat)

  /** The cells, where none is misplaced, or the first that is. */
  ghost predicate CutOf(s: string, cols: seq<nat>, width: char -> nat, r: Cut) {
    match r
    case Cells(cells) =>
      && |cells| == |cols|
      && forall i :: 0 <= i < |cols| ==> !Misplaced(s, cols, width, i) && cells[i] == CellValue(CellOf(s, cols, width, i))
    case Misaligned(col) =>
      && col < |cols| && Misplaced(s, cols, width, col)
      && forall i :: 0 <= i < col ==> !Misplaced(s, cols, width, i)
  }

  /** A row cut into cells, or the first column that it does not say where to find (alignedCells). */
  method AlignedCells(s: string, cols: seq<nat>, width: char -> nat) returns (r: Cut)
    requires AsciiIsNarrow(width)
    ensures CutOf(s, cols, width, r)
    ensures r.Cells? && cols != [] ==> WordsOf(r.cells) == Words(s)
    ensures r.Cells? && RisingColumns(cols) ==> forall i: nat, a: nat, b: nat :: Under(s, cols, width, i, a, b) ==>
      i < |r.cells| && r.cells[i].Some? && s[a..b] in Words(r.cells[i].value)
    ensures RisingColumns(cols) ==> forall ps :: AreOffsets(s, cols, width, ps) && AllClear(s, ps) ==> CutAtOffsets(s, ps, r)
  {
    hide CutOf, RisingColumns, AreOffsets, AllClear, CutAtOffsets, IsSpace, Words, TrimSpace;
    r := CutRow(s, cols, width);
    if r.Cells? && cols != [] {
      CellsAreOf(s, cols, width, r);
      CellsPartition(s, cols, width, r.cells);
    }
    if RisingColumns(cols) {
      if r.Cells? {
        CellsAreOf(s, cols, width, r);
        forall i: nat, a: nat, b: nat | Under(s, cols, width, i, a, b)
          ensures i < |r.cells| && r.cells[i].Some? && s[a..b] in Words(r.cells[i].value)
        {
          WordsAreUnderTheirColumns(s, cols, width, i, a, b);
        }
      }
      forall ps | AreOffsets(s, cols, width, ps) && AllClear(s, ps) ensures CutAtOffsets(s, ps, r) {
        ClearRowIsCut(s, cols, width, ps, r);
      }
    }
  }

  lemma {:induction false} CellsAreOf(s: string, cols: seq<nat>, width: char -> nat, r: Cut)
    requires CutOf(s, cols, width, r) && r.Cells?
    ensures |r.cells| == |cols| && forall i :: 0 <= i < |cols| ==> r.cells[i] == CellValue(CellOf(s, cols, width, i))
  {
  }

  method CutRow(s: string, cols: seq<nat>, width: char -> nat) returns (r: Cut)
    requires AsciiIsNarrow(width)
    ensures CutOf(s, cols, width, r)
  {
    hide IsSpace, CellEndOf, FirstAt, HasGap, TrimLeft, TrimRight, TrimSpace;
    var narrow := AllNarrow(s, width);
    var cells := [];
    var prevEnd, overran := 0, -1;
    for i := 0 to |cols|
      invariant |cells| == i
      invariant i < |cols| ==> prevEnd == StartOf(s, cols, width, i)
      invariant 0 < i < |cols| ==> (overran == i <==> Overruns(s, cols, width, i - 1))
      invariant overran <= i && (i == 0 ==> overran == -1)
      invariant forall k :: 0 <= k < i ==> !Misplaced(s, cols, width, k) && cells[k] == CellValue(CellOf(s, cols, width, k))
    {
      var start, end := prevEnd, |s|;
      if i + 1 < |cols| {
        end := cols[i + 1];
        if !narrow {
          end := RuneAt(s, end, width);
        } else {
          NarrowIsIndex(s, cols[i + 1], width, 0);
        }
        var boundary := Min(Max(end, start), |s|);
        assert boundary == Boundary(s, cols[i + 1], width, start);
        end := CellEnd(s, start, boundary);
        if end > boundary {
          overran := i + 1;
          OverrunIsAValue(s, start, boundary);
        }
      }
      var cell := TrimSpace(s[start..end]);
      assert cell == CellOf(s, cols, width, i);
      if i + 1 < |cols| && HasGap(cell) {
        return Misaligned(i);
      }
      if cell == "" && overran == i {
        return Misaligned(i);
      }
      cells := cells + [CellValue(cell)];
      prevEnd := end;
    }
    r := Cells(cells);
  }

  // ----- no word is cut, lost or read twice -----

  function WordsIn(cell: Option<string>): seq<string> {
    if cell.None? then [] else Words(cell.value)
  }

  /** The words of the first n cells, one cell after the other. */
  function WordsOf(cells: seq<Option<string>>): seq<string> {
    if cells == [] then [] else WordsOf(cells[..|cells| - 1]) + WordsIn(cells[|cells| - 1])
  }

  lemma {:induction false} CutsAreEdges(s: string, cols: seq<nat>, width: char -> nat, i: nat)
    requires i < |cols|
    ensures AtEdge(s, StartOf(s, cols, width, i)) && AtEdge(s, EndOf(s, cols, width, i))
    decreases i
  {
    hide CellEndOf, FirstAt, IsSpace;
    if i > 0 {
      CutsAreEdges(s, cols, width, i - 1);
    }
    var start := StartOf(s, cols, width, i);
    if i < |cols| - 1 {
      CellEndIsAnEdge(s, start, Boundary(s, cols[i + 1], width, start));
    }
  }

  lemma {:induction false} WordsSoFar(s: string, cols: seq<nat>, width: char -> nat, cells: seq<Option<string>>)
    requires 0 < |cells| <= |cols|
    requires forall i :: 0 <= i < |cells| ==> cells[i] == CellValue(CellOf(s, cols, width, i))
    ensures WordsOf(cells) == Words(s[..EndOf(s, cols, width, |cells| - 1)])
    decreases |cells|
  {
    hide CellEndOf, FirstAt, IsSpace, Words, TrimSpace, Boundary;
    var n := |cells| - 1;
    var start, end := StartOf(s, cols, width, n), EndOf(s, cols, width, n);
    if n > 0 {
      WordsSoFar(s, cols, width, cells[..n]);
    } else {
      assert cells[..0] == [] && s[..0] == "";
      NoWords();
    }
    assert WordsOf(cells[..n]) == Words(s[..start]);
    WordsTrimmed(s[start..end]);
    NoWords();
    CutsAreEdges(s, cols, width, n);
    EdgeInPrefix(s, start, end);
    assert s[..start] + s[start..end] == s[..end];
    WordsJoin(s[..start], s[start..end]);
  }

  lemma {:induction false} NoWords()
    ensures Words("") == [] && WordsOf([]) == []
  {
  }

  lemma {:induction false} EdgeInPrefix(s: string, start: nat, end: nat)
    requires start <= end <= |s| && AtEdge(s, start)
    ensures AtEdge(s[..start] + s[start..end], |s[..start]|)
  {
    assert s[..start] + s[start..end] == s[..end];
  }

  /** The cells of a row that was cut hold every word of the row, whole, once and in order. */
  lemma {:induction false} CellsPartition(s: string, cols: seq<nat>, width: char -> nat, cells: seq<Option<string>>)
    requires cols != [] && |cells| == |cols|
    requires forall i :: 0 <= i < |cells| ==> cells[i] == CellValue(CellOf(s, cols, width, i))
    ensures WordsOf(cells) == Words(s)
  {
    WordsSoFar(s, cols, width, cells);
    assert s[..|s|] == s;
  }

  // ----- the cells are under their columns -----

  /** The display column the i-th character starts at. */
  function DisplayAt(s: string, width: char -> nat, i: nat): nat
    requires i <= |s|
  {
    if i == 0 then 0 else DisplayAt(s, width, i - 1) + width(s[i - 1])
  }

  /** The first character that takes a column and starts at this one or after it, or the row's end. */
  ghost predicate IsOffset(s: string, width: char -> nat, col: nat, p: nat) {
    && p <= |s|
    && (p < |s| ==> DisplayAt(s, width, p) >= col && width(s[p]) > 0)
    && forall k :: 0 <= k < p ==> DisplayAt(s, width, k) < col || width(s[k]) == 0
  }

  lemma {:induction false} FirstAtIsOffset(s: string, col: nat, width: char -> nat, i: nat)
    requires i <= |s| && NoneBefore(s, width, col, i)
    ensures IsOffset(s, width, col, FirstAt(s, col, width, i, DisplayAt(s, width, i)))
    decreases |s| - i
  {
    hide NoneBefore, DisplayAt;
    NoneBeforeIs(s, width, col, i);
    if i < |s| && !(DisplayAt(s, width, i) >= col && width(s[i]) > 0) {
      FirstAtIsOffset(s, col, width, i + 1);
    }
  }

  ghost predicate NoneBefore(s: string, width: char -> nat, col: nat, p: nat)
    requires p <= |s|
  {
    forall k :: 0 <= k < p ==> DisplayAt(s, width, k) < col || width(s[k]) == 0
  }

  lemma {:induction false} NoneBeforeIs(s: string, width: char -> nat, col: nat, i: nat)
    requires i <= |s| && NoneBefore(s, width, col, i)
    ensures i == |s| || (DisplayAt(s, width, i) >= col && width(s[i]) > 0) ==> IsOffset(s, width, col, i)
    ensures i < |s| ==> DisplayAt(s, width, i + 1) == DisplayAt(s, width, i) + width(s[i])
    ensures i < |s| && !(DisplayAt(s, width, i) >= col && width(s[i]) > 0) ==> NoneBefore(s, width, col, i + 1)
  {
  }

  lemma {:induction false} OneOffset(s: string, width: char -> nat, col: nat, p: nat)
    requires IsOffset(s, width, col, p)
    ensures p == FirstAt(s, col, width, 0, 0)
  {
    hide FirstAt, DisplayAt;
    var q := FirstAt(s, col, width, 0, 0);
    DisplayBegins(s, width);
    FirstAtIsOffset(s, col, width, 0);
    assert !(p < q) && !(q < p);
  }

  lemma {:induction false} DisplayBegins(s: string, width: char -> nat)
    ensures DisplayAt(s, width, 0) == 0
  {
  }

  lemma {:induction false} DisplayRises(s: string, width: char -> nat, i: nat, j: nat)
    requires i <= j <= |s|
    ensures DisplayAt(s, width, i) <= DisplayAt(s, width, j)
    ensures i < j ==> DisplayAt(s, width, i) + width(s[i]) <= DisplayAt(s, width, j)
    decreases j
  {
    if i < j {
      DisplayRises(s, width, i, j - 1);
    }
  }

  ghost predicate RisingColumns(cols: seq<nat>) {
    forall i, j :: 0 <= i < j < |cols| ==> cols[i] <= cols[j]
  }

  /** A whole word of the row. */
  ghost predicate IsWord(s: string, a: nat, b: nat) {
    && a < b <= |s| && (forall k :: a <= k < b ==> !IsSpace(s[k]))
    && (a == 0 || IsSpace(s[a - 1])) && (b == |s| || IsSpace(s[b]))
  }

  /** A word that starts at or after a column's offset and ends before the next one's. The first column begins with the
      row, and the last ends with it. */
  ghost predicate Under(s: string, cols: seq<nat>, width: char -> nat, i: nat, a: nat, b: nat) {
    && i < |cols| && IsWord(s, a, b)
    && (i > 0 ==> cols[i] <= DisplayAt(s, width, a) && width(s[a]) > 0)
    && (i + 1 < |cols| ==> DisplayAt(s, width, b) <= cols[i + 1])
  }

  lemma {:induction false} OffsetOfWord(s: string, width: char -> nat, col: nat, a: nat)
    requires a < |s| && col <= DisplayAt(s, width, a) && width(s[a]) > 0
    ensures FirstAt(s, col, width, 0, 0) <= a
  {
    hide FirstAt, DisplayAt;
    DisplayBegins(s, width);
    FirstAtIsOffset(s, col, width, 0);
  }

  lemma {:induction false} OffsetBehindWord(s: string, width: char -> nat, col: nat, b: nat)
    requires b <= |s| && DisplayAt(s, width, b) <= col
    ensures b <= FirstAt(s, col, width, 0, 0)
  {
    hide FirstAt, DisplayAt;
    var p := FirstAt(s, col, width, 0, 0);
    DisplayBegins(s, width);
    FirstAtIsOffset(s, col, width, 0);
    if p < b {
      DisplayRises(s, width, p, b);
    }
  }

  lemma {:induction false} OffsetsRise(s: string, width: char -> nat, col: nat, next: nat)
    requires col <= next
    ensures FirstAt(s, col, width, 0, 0) <= FirstAt(s, next, width, 0, 0)
  {
    hide FirstAt, DisplayAt;
    DisplayBegins(s, width);
    FirstAtIsOffset(s, col, width, 0);
    FirstAtIsOffset(s, next, width, 0);
  }

  /** No cell starts inside a word, or behind one that starts at its column or after it. */
  lemma {:induction false} StartsBeforeWord(s: string, cols: seq<nat>, width: char -> nat, i: nat, a: nat, b: nat)
    requires i < |cols| && RisingColumns(cols) && IsWord(s, a, b)
    requires i > 0 ==> FirstAt(s, cols[i], width, 0, 0) <= a
    ensures StartOf(s, cols, width, i) <= a
    decreases i
  {
    hide FirstAt, IsSpace;
    if i > 0 {
      if i > 1 {
        OffsetsRise(s, width, cols[i - 1], cols[i]);
      }
      StartsBeforeWord(s, cols, width, i - 1, a, b);
      var start := StartOf(s, cols, width, i - 1);
      CutBeforeWord(s, start, Boundary(s, cols[i], width, start), a, b);
    }
  }

  lemma {:induction false} CutBeforeWord(s: string, start: nat, end: nat, a: nat, b: nat)
    requires start <= end <= |s| && IsWord(s, a, b) && end <= a
    ensures CellEndOf(s, start, end) <= a
  {
    hide IsSpace;
    if Crossed(s, start, end) && WordStart(s, start, end) <= start && a < WordStop(s, end) {
      NoSpaceBetween(s, start, end);
    }
  }

  /** Between the start of a value and the cut it crosses there is no white space. */
  lemma {:induction false} NoSpaceBetween(s: string, lo: nat, i: nat)
    requires lo <= i <= |s|
    ensures forall k :: WordStart(s, lo, i) <= k < i ==> !IsSpace(s[k])
    decreases i
  {
    if i > lo && !IsSpace(s[i - 1]) {
      NoSpaceBetween(s, lo, i - 1);
    }
  }

  /** Nor is a word that ends before the cut behind it. */
  lemma {:induction false} CutBehindWord(s: string, start: nat, end: nat, a: nat, b: nat)
    requires start <= a && start <= end <= |s| && IsWord(s, a, b) && b <= end
    ensures b <= CellEndOf(s, start, end)
  {
    hide IsSpace;
    NoSpaceBetween(s, start, end);
    var u := WordStart(s, start, end);
    if Crossed(s, start, end) && u > start && b > u {
      SpaceBefore(s, start, end);
    }
  }

  lemma {:induction false} SpaceBefore(s: string, lo: nat, i: nat)
    requires lo <= i <= |s| && WordStart(s, lo, i) > lo
    ensures IsSpace(s[WordStart(s, lo, i) - 1])
  {
  }

  lemma {:induction false} WordBetweenCuts(s: string, cols: seq<nat>, width: char -> nat, i: nat, a: nat, b: nat)
    requires RisingColumns(cols) && Under(s, cols, width, i, a, b)
    ensures StartOf(s, cols, width, i) <= a && b <= EndOf(s, cols, width, i)
  {
    hide FirstAt, IsSpace, CellEndOf, DisplayAt, IsWord;
    WordIsThere(s, a, b);
    if i > 0 {
      OffsetOfWord(s, width, cols[i], a);
    }
    StartsBeforeWord(s, cols, width, i, a, b);
    if i + 1 < |cols| {
      OffsetBehindWord(s, width, cols[i + 1], b);
      var start := StartOf(s, cols, width, i);
      CutBehindWord(s, start, Boundary(s, cols[i + 1], width, start), a, b);
    }
  }

  lemma {:induction false} WordIsThere(s: string, a: nat, b: nat)
    requires IsWord(s, a, b)
    ensures a < b <= |s|
  {
  }

  lemma {:induction false} WordIsAWord(s: string)
    requires s != "" && forall k :: 0 <= k < |s| ==> !IsSpace(s[k])
    ensures Words(s) == [s]
  {
    hide IsSpace;
    var n := WordStop(s, 0);
    assert n == |s| && s[..n] == s && s[n..] == "";
    NoWordsAtAll();
  }

  lemma {:induction false} WordOfSlice(s: string, start: nat, end: nat, a: nat, b: nat)
    requires start <= a && b <= end <= |s| && IsWord(s, a, b)
    ensures s[a..b] in Words(TrimSpace(s[start..end]))
  {
    hide IsSpace, Words, TrimSpace;
    var cell, word, before, behind := s[start..end], s[a..b], s[start..a], s[b..end];
    WordsTrimmed(cell);
    WordIsAWord(word);
    assert cell == before + (word + behind);
    assert before != "" ==> before[|before| - 1] == s[a - 1];
    assert behind != "" ==> behind[0] == s[b];
    WordsJoin(word, behind);
    WordsJoin(before, word + behind);
  }

  /** A word that starts at or after a column's offset and ends before the next one's is in that column's cell. */
  lemma {:induction false} WordsAreUnderTheirColumns(s: string, cols: seq<nat>, width: char -> nat, i: nat, a: nat, b: nat)
    requires RisingColumns(cols) && Under(s, cols, width, i, a, b)
    ensures
      var cell := CellValue(CellOf(s, cols, width, i));
      cell.Some? && s[a..b] in Words(cell.value)
  {
    hide IsSpace, Words, FirstAt, CellEndOf, TrimSpace;
    WordBetweenCuts(s, cols, width, i, a, b);
    WordOfSlice(s, StartOf(s, cols, width, i), EndOf(s, cols, width, i), a, b);
    NoWords();
  }

  /** The offsets of the columns in a row: the first column begins with it, and the last ends with it. */
  ghost predicate AreOffsets(s: string, cols: seq<nat>, width: char -> nat, ps: seq<nat>) {
    && |ps| == |cols| + 1 && ps[0] == 0 && ps[|cols|] == |s|
    && forall i :: 0 < i < |cols| ==> IsOffset(s, width, cols[i], ps[i])
  }

  /** White space, or the row's end, stands at or just before each of them. */
  ghost predicate AllClear(s: string, ps: seq<nat>) {
    forall i :: 0 <= i < |ps| ==> ps[i] <= |s| && AtEdge(s, ps[i])
  }

  lemma {:induction false} CutsAreOffsets(s: string, cols: seq<nat>, width: char -> nat, ps: seq<nat>, i: nat)
    requires i < |cols| && RisingColumns(cols) && AreOffsets(s, cols, width, ps) && AllClear(s, ps)
    ensures ps[i] <= ps[i + 1] <= |s|
    ensures StartOf(s, cols, width, i) == ps[i] && EndOf(s, cols, width, i) == ps[i + 1]
    ensures i + 1 < |cols| ==> !Overruns(s, cols, width, i)
    decreases i
  {
    hide FirstAt, IsSpace, IsOffset, WordStart, WordStop;
    if i > 0 {
      CutsAreOffsets(s, cols, width, ps, i - 1);
      OneOffset(s, width, cols[i], ps[i]);
    }
    if i + 1 < |cols| {
      OneOffset(s, width, cols[i + 1], ps[i + 1]);
      if i > 0 {
        OffsetsRise(s, width, cols[i], cols[i + 1]);
      }
    }
  }

  /** The trimmed text from one offset to the next. */
  function Between(s: string, ps: seq<nat>, i: nat): string {
    if i + 1 < |ps| && ps[i] <= ps[i + 1] <= |s| then TrimSpace(s[ps[i]..ps[i + 1]]) else ""
  }

  /** Where every column's offset is clear, the offsets rise, the cells are the trimmed texts from each to the next, and
      the row is cut exactly when no cell but the last holds a gap. */
  ghost predicate CutAtOffsets(s: string, ps: seq<nat>, r: Cut) {
    && (forall i, j :: 0 <= i < j < |ps| ==> ps[i] <= ps[j] <= |s|)
    && (r.Cells? <==> forall i :: 0 <= i < |ps| - 2 ==> !HasGap(Between(s, ps, i)))
    && (r.Cells? ==>
          |r.cells| == |ps| - 1 && forall i :: 0 <= i < |r.cells| ==> r.cells[i] == CellValue(Between(s, ps, i)))
  }

  lemma {:induction false} RisesByStep(ps: seq<nat>, i: nat, j: nat)
    requires i <= j < |ps| && forall k, m :: 0 <= k < |ps| - 1 && m == k + 1 ==> ps[k] <= ps[m]
    ensures ps[i] <= ps[j]
    decreases j
  {
    if i < j {
      RisesByStep(ps, i, j - 1);
    }
  }

  /** The i-th cell is the text between its offset and the next. */
  ghost predicate StandsBetween(s: string, cols: seq<nat>, width: char -> nat, ps: seq<nat>, i: nat)
    requires i < |cols| && |ps| == |cols| + 1
  {
    && ps[i] <= ps[i + 1] <= |s| && CellOf(s, cols, width, i) == Between(s, ps, i)
    && (Misplaced(s, cols, width, i) <==> i + 1 < |cols| && HasGap(Between(s, ps, i)))
  }

  lemma {:induction false} CellStandsBetween(s: string, cols: seq<nat>, width: char -> nat, ps: seq<nat>, i: nat)
    requires RisingColumns(cols) && AreOffsets(s, cols, width, ps) && AllClear(s, ps) && i < |cols| && |ps| == |cols| + 1
    ensures StandsBetween(s, cols, width, ps, i)
  {
    hide HasGap, StartOf, EndOf, TrimSpace, AreOffsets, AllClear, Overruns;
    CutsAreOffsets(s, cols, width, ps, i);
    if i > 0 {
      CutsAreOffsets(s, cols, width, ps, i - 1);
    }
  }

  lemma {:induction false} ClearRowIsCut(s: string, cols: seq<nat>, width: char -> nat, ps: seq<nat>, r: Cut)
    requires RisingColumns(cols) && AreOffsets(s, cols, width, ps) && AllClear(s, ps) && CutOf(s, cols, width, r)
    ensures CutAtOffsets(s, ps, r)
  {
    hide HasGap, CellOf, AreOffsets, AllClear, Misplaced, Between;
    OffsetsCount(s, cols, width, ps);
    forall i | 0 <= i < |cols| ensures StandsBetween(s, cols, width, ps, i) {
      CellStandsBetween(s, cols, width, ps, i);
    }
    forall k, m | 0 <= k < |ps| - 1 && m == k + 1 ensures ps[k] <= ps[m] <= |s| {
      assert StandsBetween(s, cols, width, ps, k);
    }
    forall i, j | 0 <= i < j < |ps| ensures ps[i] <= ps[j] <= |s| {
      RisesByStep(ps, i, j);
      RisesByStep(ps, j, |ps| - 1);
    }
    match r
    case Cells(cells) =>
      forall i | 0 <= i < |cols|
        ensures cells[i] == CellValue(Between(s, ps, i)) && (i + 1 < |cols| ==> !HasGap(Between(s, ps, i)))
      {
        assert StandsBetween(s, cols, width, ps, i);
      }
    case Misaligned(col) =>
      assert StandsBetween(s, cols, width, ps, col);
  }

  lemma {:induction false} OffsetsCount(s: string, cols: seq<nat>, width: char -> nat, ps: seq<nat>)
    requires AreOffsets(s, cols, width, ps)
    ensures |ps| == |cols| + 1 && ps[|cols|] == |s|
  {
  }
}
