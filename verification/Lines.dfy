/**
 The lines of an input as the engine reads them, and the few text operations its stages share.
 A character stands for a Unicode code point; `Bytes` says how many bytes it takes.
 */
module Lines {

  /** An input line with its original 1-based number (pkg/engine/engine.go, type line). */
  datatype Line = Line(text: string, num: nat)

  /** What reading something came to: a value, or a refusal whose words are not modelled. */
  datatype Outcome<+T> = Ok(value: T) | Refused {
    predicate IsFailure() { Refused? }
    function PropagateFailure<U>(): Outcome<U> requires Refused? { Refused }
    function Extract(): T requires Ok? { value }
  }

  datatype Option<+T> = None | Some(value: T)

  /** A compiled expression, of which only the answer on a text matters. */
  type Regex = string -> bool

  /** The characters unicode.IsSpace names. */
  predicate IsSpace(c: char) {
    || c in {'\t', '\n', '\U{0b}', '\U{0c}', '\r', ' ', '\U{85}', '\U{a0}', '\U{1680}'}
    || '\U{2000}' <= c <= '\U{200a}'
    || c in {'\U{2028}', '\U{2029}', '\U{202f}', '\U{205f}', '\U{3000}'}
  }

  function TrimLeft(s: string): string {
    if s != [] && IsSpace(s[0]) then TrimLeft(s[1..]) else s
  }

  function TrimRight(s: string): string {
    if s != [] && IsSpace(s[|s| - 1]) then TrimRight(s[..|s| - 1]) else s
  }

  /** strings.TrimSpace */
  function TrimSpace(s: string): string {
    TrimRight(TrimLeft(s))
  }

  /** A line with nothing but white space on it (pkg/engine/ledger.go, blank). */
  predicate Blank(s: string) {
    TrimSpace(s) == ""
  }

  /** The length of a character in UTF-8. */
  function Width(c: char): nat {
    if c < '\U{80}' then 1 else if c < '\U{800}' then 2 else if c < '\U{10000}' then 3 else 4
  }

  function Bytes(s: string): nat {
    if s == [] then 0 else Bytes(s[..|s| - 1]) + Width(s[|s| - 1])
  }

  type Byte = b: nat | b < 256

  /** A character in UTF-8. */
  function Utf8(c: char): (b: seq<Byte>)
    ensures |b| == Width(c)
  {
    var n := c as int;
    if n < 0x80 then [n]
    else if n < 0x800 then [0xC0 + n / 0x40, 0x80 + n % 0x40]
    else if n < 0x10000 then [0xE0 + n / 0x1000, 0x80 + n / 0x40 % 0x40, 0x80 + n % 0x40]
    else [0xF0 + n / 0x40000, 0x80 + n / 0x1000 % 0x40, 0x80 + n / 0x40 % 0x40, 0x80 + n % 0x40]
  }

  function Encode(s: string): (b: seq<Byte>)
    ensures |b| == Bytes(s)
  {
    if s == [] then [] else Encode(s[..|s| - 1]) + Utf8(s[|s| - 1])
  }

  /** What one held line costs: its text and its line break (lineBytes). */
  function Cost(text: string): nat {
    Bytes(text) + 1
  }

  /** The cost of several texts together. */
  function TextsCost(texts: seq<string>): nat {
    if texts == [] then 0 else TextsCost(texts[..|texts| - 1]) + Cost(texts[|texts| - 1])
  }

  /** The cost of several lines together (linesBytes). */
  function LinesCost(lines: seq<Line>): nat {
    if lines == [] then 0 else LinesCost(lines[..|lines| - 1]) + Cost(lines[|lines| - 1].text)
  }

  /** strings.Join */
  function Join(texts: seq<string>, sep: string): string {
    if texts == [] then ""
    else if |texts| == 1 then texts[0]
    else Join(texts[..|texts| - 1], sep) + sep + texts[|texts| - 1]
  }

  lemma {:induction false} BytesConcat(a: string, b: string)
    ensures Bytes(a + b) == Bytes(a) + Bytes(b)
  {
    if b == [] {
      assert a + b == a;
    } else {
      var n := |b| - 1;
      assert (a + b)[..|a + b| - 1] == a + b[..n];
      BytesConcat(a, b[..n]);
    }
  }

  lemma {:induction false} BytesTrimLeft(s: string)
    ensures Bytes(TrimLeft(s)) <= Bytes(s)
  {
    if s != [] && IsSpace(s[0]) {
      BytesTrimLeft(s[1..]);
      assert s == s[..1] + s[1..];
      BytesConcat(s[..1], s[1..]);
    }
  }

  lemma {:induction false} BytesTrimRight(s: string)
    ensures Bytes(TrimRight(s)) <= Bytes(s)
  {
    if s != [] && IsSpace(s[|s| - 1]) {
      BytesTrimRight(s[..|s| - 1]);
    }
  }

  lemma {:induction false} TrimNeverCostsMore(s: string)
    ensures Cost(TrimSpace(s)) <= Cost(s)
  {
    BytesTrimLeft(s);
    BytesTrimRight(TrimLeft(s));
  }

  lemma {:induction false} NothingCosts()
    ensures TextsCost([]) == 0 && LinesCost([]) == 0
  {
  }

  lemma {:induction false} TextsCostSnoc(texts: seq<string>, t: string)
    ensures TextsCost(texts + [t]) == TextsCost(texts) + Cost(t)
  {
    assert (texts + [t])[..|texts|] == texts;
  }

  lemma {:induction false} LinesCostSnoc(lines: seq<Line>, l: Line)
    ensures LinesCost(lines + [l]) == LinesCost(lines) + Cost(l.text)
  {
    assert (lines + [l])[..|lines|] == lines;
  }

  lemma {:induction false} LinesCostConcat(a: seq<Line>, b: seq<Line>)
    ensures LinesCost(a + b) == LinesCost(a) + LinesCost(b)
  {
    if b == [] {
      assert a + b == a;
    } else {
      var n := |b| - 1;
      assert a + b == (a + b[..n]) + [b[n]];
      LinesCostSnoc(a + b[..n], b[n]);
      LinesCostConcat(a, b[..n]);
    }
  }

  lemma {:induction false} JoinSnoc(texts: seq<string>, t: string, sep: string)
    ensures Join(texts + [t], sep) == if texts == [] then t else Join(texts, sep) + sep + t
  {
    assert (texts + [t])[..|texts|] == texts;
  }

  /** Pieces joined with a one-byte separator cost what the pieces cost apart. */
  lemma {:induction false} JoinKeepsCost(texts: seq<string>, sep: string)
    requires texts != [] && |sep| == 1 && Width(sep[0]) == 1
    ensures Cost(Join(texts, sep)) == TextsCost(texts)
  {
    var n := |texts| - 1;
    if n == 0 {
      assert texts[..0] == [];
    } else {
      JoinKeepsCost(texts[..n], sep);
      BytesConcat(Join(texts[..n], sep), sep);
      BytesConcat(Join(texts[..n], sep) + sep, texts[n]);
      assert Bytes(sep) == 1 by {
        assert sep[..0] == [];
      }
    }
  }

  /** The numbers of lines are strictly ascending. */
  ghost predicate Ascending(lines: seq<Line>) {
    forall i, j :: 0 <= i < j < |lines| ==> lines[i].num < lines[j].num
  }

  /** The numbers lines carry. */
  function Numbers(lines: seq<Line>): set<nat> {
    set i | 0 <= i < |lines| :: lines[i].num
  }

  /** Several counts together. */
  function Sum(counts: seq<nat>): nat {
    if counts == [] then 0 else Sum(counts[..|counts| - 1]) + counts[|counts| - 1]
  }

  lemma {:induction false} SumUpdate(counts: seq<nat>, i: nat, n: nat)
    requires i < |counts|
    ensures Sum(counts[i := n]) == Sum(counts) - counts[i] + n
  {
    var m := |counts| - 1;
    if i < m {
      SumUpdate(counts[..m], i, n);
      assert counts[i := n][..m] == counts[..m][i := n];
    } else {
      assert counts[i := n][..m] == counts[..m];
    }
  }
}
