/**
 Cutting a row of a table at white space or at a delimiter (pkg/engine/table.go, splitFieldsN, whitespaceCells,
 delimitedCells, checkCount): no text is lost, and a row has the fields a definition asks for or is refused.
 */
module Cells {
  import opened Lines
  import opened Aligned

  // ----- at white space -----

  /** At most n pieces: words, and what is left of the row as the last. */
  function Pieces(rest: string, n: nat): (out: seq<string>)
    requires n > 0
    ensures |out| <= n
    decreases n
  {
    if rest == "" then []
    else if n == 1 then [rest]
    else
      var i := WordStop(rest, 0);
      if i == |rest| then [rest] else [rest[..i]] + Pieces(TrimLeft(rest[i..]), n - 1)
  }

  /** strings.Fields where there is no limit. */
  function FieldsN(s: string, n: int): seq<string> {
    if n <= 0 then Words(s) else Pieces(TrimSpace(s), n)
  }

  method SplitFieldsN(s: string, n: int) returns (out: seq<string>)
    ensures out == FieldsN(s, n)
  {
    if n <= 0 {
      return Words(s);
    }
    var rest := TrimSpace(s);
    out := [];
    if rest == "" {
      return;
    }
    hide TrimLeft, WordStop;
    while |out| < n - 1 && rest != ""
      invariant |out| <= n - 1
      invariant out + Pieces(rest, n - |out|) == Pieces(TrimSpace(s), n)
      decreases n - |out|
    {
      var i := WordStop(rest, 0);
      if i == |rest| {
        break;
      }
      ghost var before, more := out, Pieces(TrimLeft(rest[i..]), n - |out| - 1);
      assert before + ([rest[..i]] + more) == (before + [rest[..i]]) + more;
      out, rest := out + [rest[..i]], TrimLeft(rest[i..]);
    }
    if rest != "" {
      assert Pieces(rest, n - |out|) == [rest];
      out := out + [rest];
    }
  }

  /** The words of several texts, one after the other. */
  function AllWords(parts: seq<string>): seq<string> {
    if parts == [] then [] else Words(parts[0]) + AllWords(parts[1..])
  }

  lemma {:induction false} PiecesKeepWords(rest: string, n: nat)
    requires n > 0
    ensures AllWords(Pieces(rest, n)) == Words(rest)
    decreases n
  {
    hide Words, TrimLeft, WordStop;
    NoWordsAtAll();
    if rest != "" {
      var i := WordStop(rest, 0);
      if n == 1 || i == |rest| {
        assert [rest][1..] == [];
        assert Words(rest) + [] == Words(rest);
      } else {
        var more := Pieces(TrimLeft(rest[i..]), n - 1);
        PiecesKeepWords(TrimLeft(rest[i..]), n - 1);
        WordsLeft(rest[i..]);
        assert rest == rest[..i] + rest[i..];
        WordsJoin(rest[..i], rest[i..]);
        assert ([rest[..i]] + more)[1..] == more;
      }
    }
  }

  lemma {:induction false} WordsOfWords(s: string)
    ensures AllWords(Words(s)) == Words(s)
    decreases |s|
  {
    if s != "" {
      if IsSpace(s[0]) {
        WordsOfWords(s[1..]);
      } else {
        var n := WordStop(s, 0);
        var first, rest := s[..n], Words(s[n..]);
        WordsOfWords(s[n..]);
        OneWord(first);
        assert ([first] + rest)[1..] == rest;
      }
    }
  }

  lemma {:induction false} OneWord(s: string)
    requires s != "" && forall i :: 0 <= i < |s| ==> !IsSpace(s[i])
    ensures Words(s) == [s]
  {
    assert WordStop(s, 0) == |s|;
    assert s[|s|..] == "" && s[..|s|] == s;
    NoWordsAtAll();
    assert [s] + [] == [s];
  }

  /** Every word of the row is in one cell, whole and in order, however many cells there may be. */
  lemma {:induction false} FieldsKeepWords(s: string, n: int)
    ensures AllWords(FieldsN(s, n)) == Words(s)
    ensures n > 0 ==> |FieldsN(s, n)| <= n
  {
    hide Words, TrimSpace;
    if n <= 0 {
      WordsOfWords(s);
    } else {
      PiecesKeepWords(TrimSpace(s), n);
      WordsTrimmed(s);
    }
  }

  // ----- at a delimiter -----

  /** The first place the delimiter stands, or None (strings.Index). */
  function IndexOfText(s: string, sep: string): (i: Option<nat>)
    ensures i.Some? ==> i.value + |sep| <= |s| && s[i.value..i.value + |sep|] == sep
    decreases |s|
  {
    if sep <= s then Some(0)
    else if s == "" then None
    else
      var i := IndexOfText(s[1..], sep);
      if i.None? then None else Some(i.value + 1)
  }

  /** At most n pieces, or all where n is 0 (strings.SplitN). */
  function SplitN(s: string, sep: string, n: nat): (out: seq<string>)
    requires sep != ""
    ensures out != [] && (n > 0 ==> |out| <= n)
    decreases |s|
  {
    var i := IndexOfText(s, sep);
    if n == 1 || i.None? then [s]
    else [s[..i.value]] + SplitN(s[i.value + |sep|..], sep, if n == 0 then 0 else n - 1)
  }

  function Joined(parts: seq<string>, sep: string): string {
    if parts == [] then ""
    else if |parts| == 1 then parts[0]
    else parts[0] + sep + Joined(parts[1..], sep)
  }

  /** The pieces with the delimiter between them are the row. */
  lemma {:induction false} SplitKeepsText(s: string, sep: string, n: nat)
    requires sep != ""
    ensures Joined(SplitN(s, sep, n), sep) == s
    decreases |s|
  {
    hide IndexOfText;
    var i := IndexOfText(s, sep);
    if n != 1 && i.Some? {
      var rest := s[i.value + |sep|..];
      var more := SplitN(rest, sep, if n == 0 then 0 else n - 1);
      SplitKeepsText(rest, sep, if n == 0 then 0 else n - 1);
      assert ([s[..i.value]] + more)[1..] == more;
      assert s == s[..i.value] + sep + rest;
    }
  }

  function Trimmed(parts: seq<string>): (out: seq<string>)
    ensures |out| == |parts|
  {
    seq(|parts|, i requires 0 <= i < |parts| => TrimSpace(parts[i]))
  }

  // ----- as many as a definition asks for -----

  /** How a row is cut: at white space, or at a delimiter; at most `max` fields, or one for each column. */
  datatype Cutter = Cutter(delimiter: string, min: nat, max: nat)

  function Limit(c: Cutter, columns: nat): nat {
    if c.max == 0 then columns else c.max
  }

  function Parts(c: Cutter, columns: nat, text: string): seq<string> {
    if c.delimiter == "" then FieldsN(text, Limit(c, columns)) else Trimmed(SplitN(text, c.delimiter, Limit(c, columns)))
  }

  /** The cells of a row, or a refusal of a row with too few or too many fields (checkCount). */
  function RowCells(c: Cutter, columns: nat, text: string): Outcome<seq<Option<string>>> {
    var parts := Parts(c, columns, text);
    if |parts| < (if c.min == 0 then columns else c.min) || |parts| > columns then Refused
    else Ok(seq(|parts|, i requires 0 <= i < |parts| => Some(parts[i])))
  }

  method CheckCount(c: Cutter, columns: nat, parts: seq<string>) returns (cells: Outcome<seq<Option<string>>>)
    ensures cells ==
      if |parts| < (if c.min == 0 then columns else c.min) || |parts| > columns then Refused
      else Ok(seq(|parts|, i requires 0 <= i < |parts| => Some(parts[i])))
  {
    if |parts| < (if c.min == 0 then columns else c.min) || |parts| > columns {
      return Refused;
    }
    var out: seq<Option<string>> := [];
    for i := 0 to |parts|
      invariant |out| == i && forall k :: 0 <= k < i ==> out[k] == Some(parts[k])
    {
      out := out + [Some(parts[i])];
    }
    assert out == seq(|parts|, i requires 0 <= i < |parts| => Some(parts[i]));
    return Ok(out);
  }

  /** whitespaceCells, delimitedCells */
  method CutRow(c: Cutter, columns: nat, text: string) returns (cells: Outcome<seq<Option<string>>>)
    ensures cells == RowCells(c, columns, text)
  {
    hide FieldsN, SplitN;
    var parts;
    if c.delimiter == "" {
      parts := SplitFieldsN(text, Limit(c, columns));
    } else {
      parts := Trimmed(SplitN(text, c.delimiter, Limit(c, columns)));
    }
    cells := CheckCount(c, columns, parts);
  }
}
