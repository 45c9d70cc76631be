/**
 Where the lines of an input end (internal/recordio/recordio.go, splitRecords in pkg/engine/engine.go): the
 whole-document reader cuts one text, a stream reads chunk by chunk, and both come to the same records.
 A record is prepared the same way by both once it is cut.
 */
module RecordIO {
  import opened Lines
  import opened ReadingFacts
  import opened Escapes

  /** What a reading is given besides its input; `decode` reads UTF-8 or refuses what is not. */
  datatype Options = Options(
    sep: Byte, maxInput: nat, maxLine: nat, keepEscapes: bool, decode: seq<Byte> -> Outcome<string>)

  ghost predicate DecodesUtf8(opts: Options) {
    forall b: seq<Byte> :: opts.decode(b).Ok? ==> Encode(opts.decode(b).value) == b
  }

  /** The text of a record, or the refusal of one no parser reads (prepareRecord, checkRecord). */
  ghost function RecordText(opts: Options, raw: seq<Byte>, num: nat): Outcome<string> {
    var b := PreparedBytes(raw, opts.sep, num, opts.keepEscapes);
    if opts.sep == LF && 0 in b then Refused else opts.decode(b)
  }

  method PrepareText(opts: Options, raw: seq<Byte>, num: nat) returns (text: Outcome<string>)
    ensures text == RecordText(opts, raw, num)
  {
    hide PreparedBytes;
    var b := PrepareRecord(raw, opts.sep, num, opts.keepEscapes);
    return if opts.sep == LF && 0 in b then Refused else opts.decode(b);
  }

  /** The first separator, or the length of the text. */
  function IndexByte(text: seq<Byte>, sep: Byte): (i: nat)
    ensures i <= |text|
  {
    if text == [] || text[0] == sep then 0 else IndexByte(text[1..], sep) + 1
  }

  /** The records of an input: a separator ends one, and the last need not have one. */
  function RawRecords(input: seq<Byte>, sep: Byte): seq<seq<Byte>>
    decreases |input|
  {
    if input == [] then []
    else
      var i := IndexByte(input, sep);
      [input[..i]] + if i < |input| then RawRecords(input[i + 1..], sep) else []
  }

  /** The lines raw records make, each with its number. */
  ghost function LinesOf(opts: Options, raws: seq<seq<Byte>>): (r: Outcome<seq<Line>>)
    ensures r.Ok? ==> |r.value| == |raws|
  {
    if raws == [] then Ok([])
    else
      var n := |raws| - 1;
      var before := LinesOf(opts, raws[..n]);
      var text := RecordText(opts, raws[n], n + 1);
      if before.Refused? || |raws[n]| > opts.maxLine || text.Refused? then Refused
      else Ok(before.value + [Line(text.value, n + 1)])
  }

  /** The lines of an input. */
  ghost function InputLines(opts: Options, input: seq<Byte>): Outcome<seq<Line>> {
    LinesOf(opts, RawRecords(input, opts.sep))
  }

  lemma {:induction false} LinesOfSnoc(opts: Options, raws: seq<seq<Byte>>, raw: seq<Byte>)
    ensures LinesOf(opts, raws + [raw]) ==
      var before, text := LinesOf(opts, raws), RecordText(opts, raw, |raws| + 1);
      if before.Refused? || |raw| > opts.maxLine || text.Refused? then Refused
      else Ok(before.value + [Line(text.value, |raws| + 1)])
  {
    assert (raws + [raw])[..|raws|] == raws;
  }

  /** What has been refused is refused, and lines that have been read stay. */
  lemma {:induction false} LinesOfExtend(opts: Options, raws: seq<seq<Byte>>, more: seq<seq<Byte>>)
    ensures LinesOf(opts, raws + more).Ok? ==>
      LinesOf(opts, raws).Ok? && LinesOf(opts, raws).value <= LinesOf(opts, raws + more).value
  {
    if more == [] {
      assert raws + more == raws;
    } else {
      var n := |more| - 1;
      assert raws + more == (raws + more[..n]) + [more[n]];
      LinesOfExtend(opts, raws, more[..n]);
      LinesOfSnoc(opts, raws + more[..n], more[n]);
    }
  }

  /** Lines are numbered from 1. */
  lemma {:induction false} LinesAreNumbered(opts: Options, raws: seq<seq<Byte>>)
    requires LinesOf(opts, raws).Ok?
    ensures forall i :: 0 <= i < |raws| ==> LinesOf(opts, raws).value[i].num == i + 1
    ensures Ascending(LinesOf(opts, raws).value)
  {
    if raws != [] {
      LinesAreNumbered(opts, raws[..|raws| - 1]);
    }
  }

  /** Every line is the text of its own record. */
  lemma {:induction false} LineIsItsRecord(opts: Options, raws: seq<seq<Byte>>, i: nat)
    requires LinesOf(opts, raws).Ok? && i < |raws|
    ensures Ok(LinesOf(opts, raws).value[i].text) == RecordText(opts, raws[i], i + 1)
  {
    hide RecordText;
    if i < |raws| - 1 {
      LineIsItsRecord(opts, raws[..|raws| - 1], i);
    }
  }

  // ----- what lines cost -----

  /** Preparing a record takes bytes off it and puts none on. */
  lemma {:induction false} NeverGrows(opts: Options, raw: seq<Byte>, num: nat)
    requires DecodesUtf8(opts)
    ensures RecordText(opts, raw, num).Ok? ==> Bytes(RecordText(opts, raw, num).value) <= |raw|
  {
    hide Stripped, Bytes, Encode;
  }

  /** The bytes of records with a separator after each. */
  function SeparatedLength(raws: seq<seq<Byte>>): nat {
    if raws == [] then 0 else SeparatedLength(raws[..|raws| - 1]) + |raws[|raws| - 1]| + 1
  }

  lemma {:induction false} SeparatedFirst(raws: seq<seq<Byte>>)
    requires raws != []
    ensures SeparatedLength(raws) == |raws[0]| + 1 + SeparatedLength(raws[1..])
  {
    var n := |raws| - 1;
    if n > 0 {
      SeparatedFirst(raws[..n]);
      assert raws[1..][..n - 1] == raws[..n][1..];
    } else {
      assert raws[..0] == [];
    }
  }

  lemma {:induction false} InputLength(input: seq<Byte>, sep: Byte)
    ensures SeparatedLength(RawRecords(input, sep)) ==
      |input| + if input == [] || input[|input| - 1] == sep then 0 else 1
    decreases |input|
  {
    hide RawRecords, SeparatedLength, IndexByte;
    NoLength(sep);
    if input != [] {
      var i := IndexByte(input, sep);
      LengthStep(input, sep);
      if i < |input| {
        InputLength(input[i + 1..], sep);
      }
    }
  }

  /** The first record, its separator, and what follows. */
  lemma {:induction false} LengthStep(input: seq<Byte>, sep: Byte)
    requires input != []
    ensures
      var i := IndexByte(input, sep);
      SeparatedLength(RawRecords(input, sep)) ==
        i + 1 + SeparatedLength(if i < |input| then RawRecords(input[i + 1..], sep) else [])
    ensures
      var i := IndexByte(input, sep);
      if i == |input| then input[|input| - 1] != sep
      else if i == |input| - 1 then input[|input| - 1] == sep && input[i + 1..] == []
      else input[i + 1..] != [] && input[i + 1..][|input| - i - 2] == input[|input| - 1]
  {
    hide RawRecords, SeparatedLength, IndexByte;
    var i := IndexByte(input, sep);
    IndexIsFirst(input, sep);
    RecordStep(input, sep);
    SeparatedFirst(RawRecords(input, sep));
    assert RawRecords(input, sep)[1..] == if i < |input| then RawRecords(input[i + 1..], sep) else [];
  }

  lemma {:induction false} NoLength(sep: Byte)
    ensures SeparatedLength([]) == 0 && RawRecords([], sep) == []
  {
  }

  lemma {:induction false} LinesCostAtMost(opts: Options, raws: seq<seq<Byte>>)
    requires DecodesUtf8(opts) && LinesOf(opts, raws).Ok?
    ensures LinesCost(LinesOf(opts, raws).value) <= SeparatedLength(raws)
  {
    if raws == [] {
      NothingCosts();
    } else {
      var n := |raws| - 1;
      LinesCostAtMost(opts, raws[..n]);
      NeverGrows(opts, raws[n], n + 1);
      LinesCostSnoc(LinesOf(opts, raws[..n]).value, Line(RecordText(opts, raws[n], n + 1).value, n + 1));
    }
  }

  // ----- cutting a whole text -----

  /** The pieces of a text between separators. */
  function SplitOn(text: seq<Byte>, sep: Byte): (pieces: seq<seq<Byte>>)
    ensures pieces != []
    decreases |text|
  {
    var i := IndexByte(text, sep);
    if i == |text| then [text] else [text[..i]] + SplitOn(text[i + 1..], sep)
  }

  /** One separator taken off the end. */
  function TrimSep(input: seq<Byte>, sep: Byte): seq<Byte> {
    if input != [] && input[|input| - 1] == sep then input[..|input| - 1] else input
  }

  /** No separator before the i-th place, and one there unless the text ends. */
  ghost predicate FirstAt(text: seq<Byte>, sep: Byte, i: nat) {
    i <= |text| && (forall j :: 0 <= j < i ==> text[j] != sep) && (i < |text| ==> text[i] == sep)
  }

  lemma {:induction false} IndexIsFirst(text: seq<Byte>, sep: Byte)
    ensures FirstAt(text, sep, IndexByte(text, sep))
  {
    if text != [] && text[0] != sep {
      IndexIsFirst(text[1..], sep);
      assert forall j :: 1 <= j < |text| ==> text[j] == text[1..][j - 1];
    }
  }

  lemma {:induction false} IndexIs(text: seq<Byte>, sep: Byte, i: nat)
    requires FirstAt(text, sep, i)
    ensures IndexByte(text, sep) == i
  {
    IndexIsFirst(text, sep);
  }

  /** Cutting a text whose last separator has come off is reading its records. */
  lemma {:induction false} SplitIsRecords(input: seq<Byte>, sep: Byte)
    requires input != []
    ensures SplitOn(TrimSep(input, sep), sep) == RawRecords(input, sep)
    decreases |input|
  {
    hide IndexByte, RawRecords, SplitOn, TrimSep;
    var text := TrimSep(input, sep);
    var i := IndexByte(input, sep);
    if i >= |input| - 1 {
      LastRecord(input, sep);
    } else {
      TrimKeepsFirst(input, sep);
      SplitStep(text, sep);
      RecordStep(input, sep);
      SplitIsRecords(input[i + 1..], sep);
    }
  }

  lemma {:induction false} TrimKeepsFirst(input: seq<Byte>, sep: Byte)
    requires IndexByte(input, sep) < |input| - 1
    ensures
      var i, text := IndexByte(input, sep), TrimSep(input, sep);
      && i < |text| && IndexByte(text, sep) == i
      && text[..i] == input[..i] && text[i + 1..] == TrimSep(input[i + 1..], sep)
  {
    var i, text := IndexByte(input, sep), TrimSep(input, sep);
    IndexIsFirst(input, sep);
    IndexIs(text, sep, i);
  }

  lemma {:induction false} SplitStep(text: seq<Byte>, sep: Byte)
    ensures
      var i := IndexByte(text, sep);
      SplitOn(text, sep) == if i == |text| then [text] else [text[..i]] + SplitOn(text[i + 1..], sep)
  {
  }

  lemma {:induction false} RecordStep(input: seq<Byte>, sep: Byte)
    requires input != []
    ensures
      var i := IndexByte(input, sep);
      RawRecords(input, sep) == [input[..i]] + if i < |input| then RawRecords(input[i + 1..], sep) else []
  {
  }

  lemma {:induction false} LastRecord(input: seq<Byte>, sep: Byte)
    requires input != [] && IndexByte(input, sep) >= |input| - 1
    ensures RawRecords(input, sep) == SplitOn(TrimSep(input, sep), sep)
  {
    var text := TrimSep(input, sep);
    IndexIsFirst(input, sep);
    IndexIs(text, sep, |text|);
    assert text == input[..IndexByte(input, sep)];
    assert IndexByte(input, sep) < |input| ==> RawRecords(input[IndexByte(input, sep) + 1..], sep) == [];
  }

  /** The records read so far and the text still to be cut are the input's. */
  ghost predicate Splits(opts: Options, done: seq<seq<Byte>>, text: seq<Byte>, input: seq<Byte>) {
    LinesOf(opts, done + SplitOn(text, opts.sep)) == InputLines(opts, input)
  }

  /** splitRecords */
  method SplitRecords(opts: Options, input: seq<Byte>) returns (r: Outcome<seq<Line>>)
    ensures r == InputLines(opts, input)
  {
    if input == [] {
      NoLines(opts);
      return Ok([]);
    }
    hide LinesOf, InputLines, SplitOn, IndexByte, TrimSep, Splits;
    var text := TrimSep(input, opts.sep);
    var out: seq<Line>, num := [], 1;
    ghost var done: seq<seq<Byte>> := [];
    SplitBegins(opts, input);
    while true
      invariant num == |done| + 1 && LinesOf(opts, done) == Ok(out)
      invariant Splits(opts, done, text, input)
      decreases |text|
    {
      var i := IndexByte(text, opts.sep);
      var raw := text[..i];
      SplitMore(opts, text, done, input);
      if |raw| > opts.maxLine {
        return Refused;
      }
      var prepared := PrepareText(opts, raw, num);
      if prepared.Refused? {
        return Refused;
      }
      out, done := out + [Line(prepared.value, num)], done + [raw];
      if i == |text| {
        return Ok(out);
      }
      text, num := text[i + 1..], num + 1;
    }
  }

  /** What the next piece of a text does to the lines read so far. */
  lemma {:induction false} SplitMore(opts: Options, text: seq<Byte>, done: seq<seq<Byte>>, input: seq<Byte>)
    requires LinesOf(opts, done).Ok? && Splits(opts, done, text, input)
    ensures
      var i := IndexByte(text, opts.sep);
      var raw := text[..i];
      var prepared := RecordText(opts, raw, |done| + 1);
      if |raw| > opts.maxLine || prepared.Refused? then InputLines(opts, input).Refused?
      else
        && LinesOf(opts, done + [raw]) == Ok(LinesOf(opts, done).value + [Line(prepared.value, |done| + 1)])
        && if i == |text| then LinesOf(opts, done + [raw]) == InputLines(opts, input)
           else Splits(opts, done + [raw], text[i + 1..], input)
  {
    hide LinesOf, SplitOn, IndexByte, InputLines;
    var i := IndexByte(text, opts.sep);
    var raw := text[..i];
    SplitStep(text, opts.sep);
    LinesOfSnoc(opts, done, raw);
    if i == |text| {
      assert raw == text;
    } else {
      var more := SplitOn(text[i + 1..], opts.sep);
      assert done + ([raw] + more) == (done + [raw]) + more;
      LinesOfExtend(opts, done + [raw], more);
    }
  }

  lemma {:induction false} SplitBegins(opts: Options, input: seq<Byte>)
    requires input != []
    ensures LinesOf(opts, []) == Ok([]) && Splits(opts, [], TrimSep(input, opts.sep), input)
  {
    NoLines(opts);
    SplitIsRecords(input, opts.sep);
    assert [] + RawRecords(input, opts.sep) == RawRecords(input, opts.sep);
  }

  lemma {:induction false} NoLines(opts: Options)
    ensures LinesOf(opts, []) == Ok([])
  {
  }

  // ----- reading chunk by chunk -----

  /** How a chunk ended: with the separator, with a full buffer, or with the input. */
  datatype ChunkEnd = Separator | Full | Exhausted

  /** How a record ended. */
  datatype RecordEnd = Ended | AtEnd | TooLong

  /** A buffered reader: `rest` is what has not been read, and `size` is the room of its buffer. */
  class Source {
    const size: nat
    var rest: seq<Byte>

    constructor (input: seq<Byte>, size: nat)
      requires size > 0
      ensures rest == input && this.size == size
    {
      this.size, rest := size, input;
    }

    /** Up to and including a separator, as far as the buffer reaches (bufio.Reader.ReadSlice). */
    method ReadSlice(sep: Byte) returns (chunk: seq<Byte>, end: ChunkEnd)
      requires size > 0
      modifies this
      ensures old(rest) == chunk + rest
      ensures
        var i := IndexByte(old(rest), sep);
        match end
        case Separator => |chunk| == i + 1 <= |old(rest)|
        case Full => chunk != [] && |chunk| <= i
        case Exhausted => rest == [] && i == |old(rest)|
    {
      var i := IndexByte(rest, sep);
      if i < |rest| && i < size {
        chunk, rest := rest[..i + 1], rest[i + 1..];
        return chunk, Separator;
      }
      if size <= |rest| {
        chunk, rest := rest[..size], rest[size..];
        return chunk, Full;
      }
      chunk, rest := rest, [];
      return chunk, Exhausted;
    }

    /** One record, without its separator (recordio.Read). The limit counts the bytes between two separators,
        whether or not a separator follows the last of them. */
    method ReadRecord(sep: Byte, maxLen: nat) returns (rec: seq<Byte>, end: RecordEnd)
      requires size > 0
      modifies this
      ensures
        var i := IndexByte(old(rest), sep);
        if i > maxLen then end == TooLong
        else
          && rec == old(rest)[..i] && end == (if i < |old(rest)| then Ended else AtEnd)
          && rest == if i < |old(rest)| then old(rest)[i + 1..] else []
    {
      hide IndexByte;
      ghost var all := rest;
      rec := [];
      while true
        invariant all == rec + rest && |rec| <= IndexByte(all, sep)
        decreases |rest|
      {
        ghost var held, before := rec, rest;
        SliceIndex(all, held, before, sep);
        var chunk, how := ReadSlice(sep);
        assert all == (held + chunk) + rest;
        if |rec| + |chunk| > maxLen + 1 {
          return [], TooLong;
        }
        rec := rec + chunk;
        if how == Full {
          continue;
        }
        RecordIs(all, rec, rest, sep);
        if rec != [] && rec[|rec| - 1] == sep {
          rec := rec[..|rec| - 1];
        }
        if |rec| > maxLen {
          return [], TooLong;
        }
        return rec, if how == Separator then Ended else AtEnd;
      }
    }
  }

  /** Where the separator is in what has not been read. */
  lemma {:induction false} SliceIndex(all: seq<Byte>, held: seq<Byte>, rest: seq<Byte>, sep: Byte)
    requires all == held + rest && |held| <= IndexByte(all, sep)
    ensures IndexByte(all, sep) == |held| + IndexByte(rest, sep)
  {
    var i := IndexByte(all, sep) - |held|;
    IndexIsFirst(all, sep);
    assert forall j :: 0 <= j < |rest| ==> rest[j] == all[|held| + j];
    IndexIs(rest, sep, i);
  }

  /** What has been read up to the separator, or up to the end, is the record and its separator. */
  lemma {:induction false} RecordIs(all: seq<Byte>, rec: seq<Byte>, rest: seq<Byte>, sep: Byte)
    requires all == rec + rest
    requires |rec| == IndexByte(all, sep) + 1 || (rest == [] && |rec| == IndexByte(all, sep))
    ensures
      var i := IndexByte(all, sep);
      && (if rec != [] && rec[|rec| - 1] == sep then rec[..|rec| - 1] else rec) == all[..i]
      && rest == (if i < |all| then all[i + 1..] else [])
      && (rec != [] && rec[|rec| - 1] == sep <==> i < |all|)
  {
    IndexIsFirst(all, sep);
    assert forall j :: 0 <= j < |rec| ==> rec[j] == all[j];
  }

  // ----- stripping before the cut and after it -----

  ghost function AllStripped(raws: seq<seq<Byte>>): (r: seq<seq<Byte>>)
    ensures |r| == |raws|
  {
    seq(|raws|, i requires 0 <= i < |raws| => Stripped(raws[i]))
  }

  /** The last line of the input has ended, or something is left of it. */
  ghost predicate LastLineSays(input: seq<Byte>) {
    var raws := RawRecords(input, LF);
    input == [] || input[|input| - 1] == LF || (raws != [] && Stripped(raws[|raws| - 1]) != [])
  }

  lemma {:induction false} RecordsBehind(a: seq<Byte>, rest: seq<Byte>)
    requires LF !in a
    ensures RawRecords(a + [LF] + rest, LF) == [a] + RawRecords(rest, LF)
  {
    hide RawRecords, IndexByte;
    var input := a + [LF] + rest;
    IndexIs(input, LF, |a|);
    RecordStep(input, LF);
    assert input[..|a|] == a && input[|a| + 1..] == rest;
  }

  /** What is left of the last line is that of the rest behind a line break. */
  lemma {:induction false} LastLineBehind(a: seq<Byte>, rest: seq<Byte>)
    requires LF !in a
    ensures LastLineSays(a + [LF] + rest) <==> LastLineSays(rest)
  {
    hide Stripped, RawRecords, IndexByte;
    var input := a + [LF] + rest;
    assert input != [];
    if rest == [] {
      assert input[|input| - 1] == LF;
    } else {
      RecordsBehind(a, rest);
      RecordStep(rest, LF);
      var raws, more := RawRecords(input, LF), RawRecords(rest, LF);
      assert input[|input| - 1] == rest[|rest| - 1];
      assert more != [] && raws[|raws| - 1] == more[|more| - 1];
    }
  }

  lemma {:induction false} AllStrippedFirst(a: seq<Byte>, raws: seq<seq<Byte>>)
    ensures AllStripped([a] + raws) == [Stripped(a)] + AllStripped(raws)
  {
    hide Stripped;
  }

  /** The lines of a stripped text are the stripped lines of the text, but for a last line without a line break that
      is nothing but escape sequences: it is a line of the text, and none of the stripped text. */
  lemma {:induction false} StrippedLines(input: seq<Byte>)
    ensures RawRecords(Stripped(input), LF) == AllStripped(RawRecords(input, LF)) <==> LastLineSays(input)
    decreases |input|
  {
    hide Stripped, Escape, RawRecords, IndexByte, AllStripped;
    NoLength(LF);
    StrippedHere(input);
    if input == [] {
      NothingStripped();
    } else {
      var i := IndexByte(input, LF);
      IndexIsFirst(input, LF);
      if i < |input| {
        var a, rest := input[..i], input[i + 1..];
        assert input == a + [LF] + rest;
        FirstLine(a, rest);
        StrippedLines(rest);
        RecordsBehind(a, rest);
        LastLineBehind(a, rest);
        AllStrippedFirst(a, RawRecords(rest, LF));
        var x, y, z := Stripped(a), RawRecords(Stripped(rest), LF), AllStripped(RawRecords(rest, LF));
        assert ([x] + y)[1..] == y && ([x] + z)[1..] == z;
      } else {
        OneLine(input);
        AllStrippedFirst(input, []);
        NothingStripped();
        assert [input] + [] == [input];
      }
    }
  }

  lemma {:induction false} NothingStripped()
    ensures AllStripped([]) == []
  {
  }

  lemma {:induction false} FirstLine(a: seq<Byte>, b: seq<Byte>)
    requires LF !in a
    ensures RawRecords(Stripped(a + [LF] + b), LF) == [Stripped(a)] + RawRecords(Stripped(b), LF)
  {
    hide Stripped, Escape, RawRecords, IndexByte;
    StripsByLine(a, LF, b);
    var s, t := Stripped(a), Stripped(b);
    var whole := s + [LF] + t;
    if LF in s {
      StrippedIsOfTheText(a, LF);
    }
    IndexIs(whole, LF, |s|);
    RecordStep(whole, LF);
    assert whole[..|s|] == s && whole[|s| + 1..] == t;
  }

  lemma {:induction false} OneLine(input: seq<Byte>)
    requires input != [] && LF !in input
    ensures RawRecords(Stripped(input), LF) == if Stripped(input) == [] then [] else [Stripped(input)]
    ensures RawRecords(input, LF) == [input]
  {
    hide Stripped, Escape, RawRecords, IndexByte;
    NoLength(LF);
    var s := Stripped(input);
    if LF in s {
      StrippedIsOfTheText(input, LF);
    }
    IndexIs(input, LF, |input|);
    RecordStep(input, LF);
    assert input[..|input|] == input;
    if s != [] {
      IndexIs(s, LF, |s|);
      RecordStep(s, LF);
      assert s[..|s|] == s;
    }
  }
}
