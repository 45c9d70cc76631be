/**
 The escape sequences a command colours its output with (pkg/convert/convert.go, StripANSI), and what is done to a
 record before a parser sees it (pkg/engine/engine.go, prepareRecord).
 */
module Escapes {
  import opened Lines

  const ESC: Byte := 0x1b
  const BEL: Byte := 0x07
  const LF: Byte := 0x0a
  const CR: Byte := 0x0d
  const BACKSLASH: Byte := 0x5c
  const BRACKET: Byte := 0x5b
  const CLOSING: Byte := 0x5d
  const BOM: seq<Byte> := [0xEF, 0xBB, 0xBF]

  predicate EndsLine(b: Byte) {
    b == LF || b == CR
  }

  // ----- what an escape sequence is -----

  /** A control sequence: parameters, then one final byte. */
  ghost predicate ControlSequence(s: seq<Byte>) {
    && |s| >= 3 && s[1] == BRACKET && 0x40 <= s[|s| - 1] <= 0x7e
    && forall k :: 2 <= k < |s| - 1 ==> 0x20 <= s[k] <= 0x3f
  }

  /** Whether a command to the terminal ends at a position: at a BEL, or at ESC and a backslash. */
  predicate Stops(s: seq<Byte>, k: nat) {
    k < |s| && (s[k] == BEL || (k + 1 < |s| && s[k] == ESC && s[k + 1] == BACKSLASH))
  }

  /** A command to the terminal, up to the first end of it. */
  ghost predicate SystemCommand(s: seq<Byte>) {
    && |s| >= 3 && s[1] == CLOSING
    && exists j :: 2 <= j < |s| && Stops(s, j) && |s| == (if s[j] == BEL then j + 1 else j + 2)
                   && forall k :: 2 <= k < j ==> !Stops(s, k)
  }

  /** Any other sequence: intermediate bytes, then one final byte. */
  ghost predicate OtherSequence(s: seq<Byte>) {
    && |s| >= 2 && s[1] != BRACKET && s[1] != CLOSING && !(0x20 <= s[|s| - 1] <= 0x2f)
    && forall k :: 1 <= k < |s| - 1 ==> 0x20 <= s[k] <= 0x2f
  }

  /** A whole escape sequence. None runs past the end of a line. */
  ghost predicate Escape(s: seq<Byte>) {
    && |s| >= 2 && s[0] == ESC && (forall k :: 0 <= k < |s| ==> !EndsLine(s[k]))
    && (ControlSequence(s) || SystemCommand(s) || OtherSequence(s))
  }

  /** Where the escape sequence a text begins with ends, if it begins with one. */
  ghost predicate EscapeAt(b: seq<Byte>, e: nat) {
    e <= |b| && Escape(b[..e])
  }

  /** A text begins with at most one escape sequence. */
  lemma {:induction false} EscapeIsOne(b: seq<Byte>, d: nat, e: nat)
    requires EscapeAt(b, d) && EscapeAt(b, e)
    ensures d == e
  {
    if d < e {
      EscapeIsNoPrefix(b[..d], b[..e]);
    } else if e < d {
      EscapeIsNoPrefix(b[..e], b[..d]);
    }
  }

  lemma {:induction false} EscapeIsNoPrefix(s: seq<Byte>, t: seq<Byte>)
    requires Escape(s) && s < t
    ensures !Escape(t)
  {
    if Escape(t) {
      var n := |s| - 1;
      assert s[1] == t[1] && s[n] == t[n];
      if s[1] == CLOSING {
        var j :| 2 <= j < |s| && Stops(s, j) && |s| == (if s[j] == BEL then j + 1 else j + 2);
        assert Stops(t, j);
        var k :| 2 <= k < |t| && Stops(t, k) && |t| == (if t[k] == BEL then k + 1 else k + 2)
                 && forall i :: 2 <= i < k ==> !Stops(t, i);
        assert false;
      }
    }
  }

  // ----- what is left of a text without them -----

  /** The text less its escape sequences, from the left. */
  ghost function Stripped(b: seq<Byte>): (r: seq<Byte>)
    ensures |r| <= |b|
    decreases |b|
  {
    if b == [] then []
    else if exists e: nat :: EscapeAt(b, e) then
      var e: nat :| EscapeAt(b, e);
      Stripped(b[e..])
    else [b[0]] + Stripped(b[1..])
  }

  lemma {:induction false} StrippedEscape(b: seq<Byte>, e: nat)
    requires EscapeAt(b, e)
    ensures Stripped(b) == Stripped(b[e..])
  {
    hide Escape;
    forall d: nat | EscapeAt(b, d) ensures d == e {
      EscapeIsOne(b, d, e);
    }
  }

  /** A text without an escape byte is left as it is. */
  lemma {:induction false} NothingToStrip(b: seq<Byte>)
    requires ESC !in b
    ensures Stripped(b) == b
    decreases |b|
  {
    if b != [] {
      forall e: nat ensures !EscapeAt(b, e) {
        if 0 < e <= |b| {
          assert b[..e][0] == b[0];
        }
      }
      NothingToStrip(b[1..]);
      assert b == [b[0]] + b[1..];
    }
  }

  /** A text in pieces that are escape sequences or single bytes none of which begins one. */
  datatype Piece = Kept(b: Byte) | Dropped(s: seq<Byte>)

  function TextOf(pieces: seq<Piece>): seq<Byte> {
    if pieces == [] then []
    else (if pieces[0].Kept? then [pieces[0].b] else pieces[0].s) + TextOf(pieces[1..])
  }

  function KeptOf(pieces: seq<Piece>): seq<Byte> {
    if pieces == [] then []
    else (if pieces[0].Kept? then [pieces[0].b] else []) + KeptOf(pieces[1..])
  }

  lemma {:induction false} StrippedHere(b: seq<Byte>)
    ensures b == [] ==> Stripped(b) == []
    ensures b != [] && (forall e: nat :: !EscapeAt(b, e)) ==> Stripped(b) == [b[0]] + Stripped(b[1..])
  {
    hide EscapeAt;
  }

  /** All that stripping takes from a text is whole escape sequences, and what it leaves keeps its order. */
  lemma {:induction false} OnlyEscapesGo(b: seq<Byte>) returns (pieces: seq<Piece>)
    ensures TextOf(pieces) == b && KeptOf(pieces) == Stripped(b)
    ensures forall p :: p in pieces && p.Dropped? ==> Escape(p.s)
    ensures forall k, e: nat :: 0 <= k < |pieces| && pieces[k].Kept? ==> !EscapeAt(TextOf(pieces[k..]), e)
    decreases |b|
  {
    hide Escape, Stripped;
    StrippedHere(b);
    if b == [] {
      pieces := [];
    } else if e: nat :| EscapeAt(b, e) {
      NotEmpty(b, e);
      var rest := OnlyEscapesGo(b[e..]);
      pieces := [Dropped(b[..e])] + rest;
      assert pieces[1..] == rest;
      StrippedEscape(b, e);
      forall k, n: nat | 1 <= k < |pieces| && pieces[k].Kept? ensures !EscapeAt(TextOf(pieces[k..]), n) {
        assert pieces[k] == rest[k - 1] && pieces[k..] == rest[k - 1..];
      }
    } else {
      var rest := OnlyEscapesGo(b[1..]);
      pieces := [Kept(b[0])] + rest;
      assert pieces[1..] == rest;
      assert TextOf(pieces) == [b[0]] + TextOf(rest) == b;
      forall k, n: nat | 0 <= k < |pieces| && pieces[k].Kept? ensures !EscapeAt(TextOf(pieces[k..]), n) {
        if k == 0 {
          assert pieces[k..] == pieces;
        } else {
          assert pieces[k] == rest[k - 1] && pieces[k..] == rest[k - 1..];
        }
      }
    }
  }

  // ----- line by line -----

  /** The same escape sequences begin a line and a text that goes on after its end. */
  lemma {:induction false} EscapeStaysInLine(a: seq<Byte>, c: Byte, b: seq<Byte>, e: nat)
    requires EndsLine(c)
    ensures EscapeAt(a + [c] + b, e) <==> EscapeAt(a, e)
  {
    var whole := a + [c] + b;
    if e <= |a| {
      assert whole[..e] == a[..e];
    } else if e <= |whole| {
      assert whole[..e][|a|] == c;
    }
  }

  /** Stripping a text is stripping its lines. */
  lemma {:induction false} StripsByLine(a: seq<Byte>, c: Byte, b: seq<Byte>)
    requires EndsLine(c)
    ensures Stripped(a + [c] + b) == Stripped(a) + [c] + Stripped(b)
    decreases |a|
  {
    hide Escape;
    var whole := a + [c] + b;
    if e: nat :| EscapeAt(whole, e) {
      EscapeStaysInLine(a, c, b, e);
      NotEmpty(a, e);
      StripsByLine(a[e..], c, b);
      assert whole[e..] == a[e..] + [c] + b;
      StrippedEscape(whole, e);
      StrippedEscape(a, e);
    } else {
      forall e: nat ensures !EscapeAt(a, e) {
        EscapeStaysInLine(a, c, b, e);
      }
      if a == [] {
        assert whole[0] == c && whole[1..] == b;
      } else {
        StripsByLine(a[1..], c, b);
        assert whole[0] == a[0] && whole[1..] == a[1..] + [c] + b;
      }
    }
  }

  lemma {:induction false} NotEmpty(a: seq<Byte>, e: nat)
    requires EscapeAt(a, e)
    ensures 2 <= e <= |a|
  {
  }

  // ----- the loops -----

  /** Everything the loops below look at lies on the line of the escape byte at i. */
  ghost predicate OnLine(b: seq<Byte>, i: nat, limit: nat) {
    && i < limit <= |b| && i + 1 < |b| && b[i] == ESC
    && (forall k :: i <= k < limit ==> !EndsLine(b[k])) && (limit < |b| ==> EndsLine(b[limit]))
  }

  lemma {:induction false} EscapeIsOnLine(b: seq<Byte>, i: nat, limit: nat, e: nat)
    requires OnLine(b, i, limit) && i <= e <= |b|
    ensures Escape(b[i..e]) ==> i + 2 <= e <= limit
  {
    if e > limit {
      assert b[i..e][limit - i] == b[limit];
    }
  }

  /** The final byte of a control sequence stands right after its parameters. */
  lemma {:induction false} ControlEnds(b: seq<Byte>, i: nat, limit: nat, j: nat, e: nat)
    requires OnLine(b, i, limit) && b[i + 1] == BRACKET && i + 2 <= j <= limit
    requires forall k :: i + 2 <= k < j ==> 0x20 <= b[k] <= 0x3f
    requires j < limit ==> !(0x20 <= b[j] <= 0x3f)
    requires i <= e <= |b|
    ensures Escape(b[i..e]) <==> e == j + 1 && j < limit && 0x40 <= b[j] <= 0x7e
  {
    var s := b[i..e];
    assert forall k :: 0 <= k < |s| ==> s[k] == b[i + k];
    assert i <= j < e ==> s[j - i] == b[j];
    if Escape(s) {
      EscapeIsOnLine(b, i, limit, e);
      assert ControlSequence(s);
      assert s[|s| - 1] == b[e - 1];
    }
  }

  /** A command to the terminal goes to the first end of it. */
  lemma {:induction false} CommandEnds(b: seq<Byte>, i: nat, limit: nat, j: nat, e: nat)
    requires OnLine(b, i, limit) && b[i + 1] == CLOSING && i + 2 <= j <= limit
    requires forall k :: i + 2 <= k < j ==> !Stops(b[..limit], k)
    requires j < limit ==> Stops(b[..limit], j)
    requires i <= e <= |b|
    ensures Escape(b[i..e]) <==> j < limit && e == if b[j] == BEL then j + 1 else j + 2
  {
    var s := b[i..e];
    assert forall k :: 0 <= k < |s| ==> s[k] == b[i + k];
    if Escape(s) {
      EscapeIsOnLine(b, i, limit, e);
      assert SystemCommand(s);
      var m :| 2 <= m < |s| && Stops(s, m) && |s| == (if s[m] == BEL then m + 1 else m + 2)
               && forall k :: 2 <= k < m ==> !Stops(s, k);
      assert Stops(b[..limit], i + m);
      assert j < i + m ==> Stops(s, j - i);
    }
    if j < limit && e == (if b[j] == BEL then j + 1 else j + 2) {
      assert Stops(s, j - i);
      forall k | 2 <= k < j - i ensures !Stops(s, k) {
        assert !Stops(b[..limit], i + k);
      }
      assert SystemCommand(s);
    }
  }

  /** The final byte of any other sequence stands right after its intermediate bytes. */
  lemma {:induction false} OtherEnds(b: seq<Byte>, i: nat, limit: nat, j: nat, e: nat)
    requires OnLine(b, i, limit) && b[i + 1] != BRACKET && b[i + 1] != CLOSING && i + 1 <= j <= limit
    requires forall k :: i + 1 <= k < j ==> 0x20 <= b[k] <= 0x2f
    requires j < limit ==> !(0x20 <= b[j] <= 0x2f)
    requires i <= e <= |b|
    ensures Escape(b[i..e]) <==> e == j + 1 && j < limit
  {
    var s := b[i..e];
    assert forall k :: 0 <= k < |s| ==> s[k] == b[i + k];
    assert i <= j < e ==> s[j - i] == b[j];
    if Escape(s) {
      EscapeIsOnLine(b, i, limit, e);
      assert OtherSequence(s);
      assert s[|s| - 1] == b[e - 1];
    }
  }

  /** Where the escape sequence at i ends (escapeEnd). */
  method EscapeEnd(b: seq<Byte>, i: nat, limit: nat) returns (r: Option<nat>)
    requires OnLine(b, i, limit)
    ensures forall e :: i <= e <= |b| ==> (Escape(b[i..e]) <==> r == Some(e))
    ensures r.Some? ==> i + 2 <= r.value <= |b|
  {
    hide Escape;
    if b[i + 1] == BRACKET {
      var j := i + 2;
      while j < limit && 0x20 <= b[j] <= 0x3f
        invariant i + 2 <= j <= limit && forall k :: i + 2 <= k < j ==> 0x20 <= b[k] <= 0x3f
      {
        j := j + 1;
      }
      forall e | i <= e <= |b| ensures Escape(b[i..e]) <==> e == j + 1 && j < limit && 0x40 <= b[j] <= 0x7e {
        ControlEnds(b, i, limit, j, e);
      }
      return if j < limit && 0x40 <= b[j] <= 0x7e then Some(j + 1) else None;
    }
    if b[i + 1] == CLOSING {
      r := None;
      var j := i + 2;
      while j < limit && r == None
        invariant i + 2 <= j <= limit && (r == None || j < limit)
        invariant forall k :: i + 2 <= k < j ==> !Stops(b[..limit], k)
        invariant r == (if r == None then None else Some(if b[j] == BEL then j + 1 else j + 2))
        invariant r.Some? ==> Stops(b[..limit], j)
        decreases limit - j, if r == None then 1 else 0
      {
        if b[j] == BEL {
          r := Some(j + 1);
        } else if b[j] == ESC && j + 1 < limit && b[j + 1] == BACKSLASH {
          r := Some(j + 2);
        } else {
          j := j + 1;
        }
      }
      forall e | i <= e <= |b| ensures Escape(b[i..e]) <==> r == Some(e) {
        CommandEnds(b, i, limit, j, e);
      }
      return;
    }
    var j := i + 1;
    while j < limit && 0x20 <= b[j] <= 0x2f
      invariant i + 1 <= j <= limit && forall k :: i + 1 <= k < j ==> 0x20 <= b[k] <= 0x2f
    {
      j := j + 1;
    }
    forall e | i <= e <= |b| ensures Escape(b[i..e]) <==> e == j + 1 && j < limit {
      OtherEnds(b, i, limit, j, e);
    }
    return if j < limit then Some(j + 1) else None;
  }

  /** The end of the line a byte is on, or of the text (bytes.IndexAny). */
  method LineEnd(b: seq<Byte>, i: nat) returns (limit: nat)
    requires i < |b| && b[i] == ESC
    ensures i < limit <= |b| && (forall k :: i <= k < limit ==> !EndsLine(b[k]))
    ensures limit < |b| ==> EndsLine(b[limit])
  {
    limit := i + 1;
    while limit < |b| && !EndsLine(b[limit])
      invariant i < limit <= |b| && forall k :: i <= k < limit ==> !EndsLine(b[k])
    {
      limit := limit + 1;
    }
  }

  /** One byte, or one escape sequence, more. */
  lemma {:induction false} StripStep(b: seq<Byte>, i: nat, r: Option<nat>)
    requires i < |b| && forall e :: i <= e <= |b| ==> (Escape(b[i..e]) <==> r == Some(e))
    requires r.Some? ==> i + 2 <= r.value <= |b|
    ensures Stripped(b[i..]) == if r.Some? then Stripped(b[r.value..]) else [b[i]] + Stripped(b[i + 1..])
  {
    hide Escape;
    var t := b[i..];
    forall e: nat | e <= |t| ensures EscapeAt(t, e) <==> r == Some(i + e) {
      assert t[..e] == b[i..i + e];
    }
    if r.Some? {
      StrippedEscape(t, r.value - i);
      assert t[r.value - i..] == b[r.value..];
    } else {
      assert t[0] == b[i] && t[1..] == b[i + 1..];
    }
  }

  /** A lone byte at the end begins nothing. */
  lemma {:induction false} KeptByte(b: seq<Byte>, i: nat)
    requires i < |b| && (b[i] != ESC || i + 1 == |b|)
    ensures forall e :: i <= e <= |b| ==> !Escape(b[i..e])
  {
    forall e | i <= e <= |b| ensures !Escape(b[i..e]) {
      if e > i {
        assert b[i..e][0] == b[i];
      }
    }
  }

  lemma {:induction false} Appended(a: seq<Byte>, x: Byte, rest: seq<Byte>)
    ensures a + ([x] + rest) == (a + [x]) + rest
  {
  }

  /** StripANSI */
  method StripANSI(b: seq<Byte>) returns (out: seq<Byte>)
    ensures out == Stripped(b)
  {
    hide Escape, Stripped;
    if ESC !in b {
      NothingToStrip(b);
      return b;
    }
    out := [];
    var i := 0;
    while i < |b|
      invariant i <= |b| && out + Stripped(b[i..]) == Stripped(b)
    {
      ghost var before := out;
      if b[i] != ESC || i + 1 >= |b| {
        KeptByte(b, i);
        StripStep(b, i, None);
        out := out + [b[i]];
        Appended(before, b[i], Stripped(b[i + 1..]));
        i := i + 1;
      } else {
        var limit := LineEnd(b, i);
        var end := EscapeEnd(b, i, limit);
        StripStep(b, i, end);
        if end.None? {
          // Unterminated: the byte stays, the rest is not eaten.
          out := out + [b[i]];
          Appended(before, b[i], Stripped(b[i + 1..]));
          i := i + 1;
        } else {
          i := end.value;
        }
      }
    }
    NothingLeft(b);
  }

  lemma {:induction false} NothingLeft(b: seq<Byte>)
    ensures Stripped(b[|b|..]) == []
  {
  }

  // ----- a record before a parser sees it -----

  /** The bytes a record is read from: its escape sequences come off unless they are text, then the carriage return
      of its line ending, then the byte order mark of the first record (prepareRecord). */
  ghost function PreparedBytes(raw: seq<Byte>, sep: Byte, num: nat, keepEscapes: bool): seq<Byte> {
    var s := if keepEscapes then raw else Stripped(raw);
    var line := if sep == LF && s != [] && s[|s| - 1] == CR then s[..|s| - 1] else s;
    if num == 1 && BOM <= line then line[|BOM|..] else line
  }

  method PrepareRecord(raw: seq<Byte>, sep: Byte, num: nat, keepEscapes: bool) returns (text: seq<Byte>)
    ensures text == PreparedBytes(raw, sep, num, keepEscapes)
  {
    hide Stripped, Escape;
    text := raw;
    if !keepEscapes {
      NothingToStripUnlessEscaped(raw);
      if ESC in raw {
        text := StripANSI(raw);
      }
    }
    if sep == LF && text != [] && text[|text| - 1] == CR {
      text := text[..|text| - 1];
    }
    if num == 1 && BOM <= text {
      text := text[|BOM|..];
    }
  }

  /** Bytes with no escape sequence to take off. */
  predicate Unescaped(raw: seq<Byte>, keepEscapes: bool) {
    keepEscapes || ESC !in raw
  }

  /** A line less the carriage return at its end. */
  function WithoutReturn(s: seq<Byte>, sep: Byte): seq<Byte> {
    if sep == LF && s != [] && s[|s| - 1] == CR then s[..|s| - 1] else s
  }

  lemma {:induction false} ReturnGoes(line: seq<Byte>, sep: Byte, returned: bool)
    requires returned ==> sep == LF
    requires !returned && sep == LF && line != [] ==> line[|line| - 1] != CR
    ensures WithoutReturn(line + (if returned then [CR] else []), sep) == line
  {
    if returned {
      var s := line + [CR];
      assert s[|s| - 1] == CR && s[..|s| - 1] == line;
    } else {
      assert line + [] == line;
    }
  }

  lemma {:induction false} NoEscapeIn(a: seq<Byte>, b: seq<Byte>, keepEscapes: bool)
    requires Unescaped(a, keepEscapes) && Unescaped(b, keepEscapes)
    ensures Unescaped(a + b, keepEscapes)
  {
  }

  /** A record with no escape sequence in it is read as it is, less one carriage return where its lines end with a line feed, and
      less the byte order mark that the first record begins with. */
  lemma {:induction false} RecordIsItsText(text: seq<Byte>, sep: Byte, num: nat, keepEscapes: bool, marked: bool, returned: bool)
    requires Unescaped(text, keepEscapes) && (marked ==> num == 1) && (returned ==> sep == LF)
    requires !marked && num == 1 ==> !(BOM <= text)
    requires !returned && sep == LF && text != [] ==> text[|text| - 1] != CR
    ensures PreparedBytes((if marked then BOM else []) + text + (if returned then [CR] else []), sep, num, keepEscapes) == text
  {
    hide Stripped, Unescaped, WithoutReturn;
    var front, back := if marked then BOM else [], if returned then [CR] else [];
    var line := front + text;
    MarksAreNoEscapes(keepEscapes);
    NoEscapeIn(front, text, keepEscapes);
    NoEscapeIn(line, back, keepEscapes);
    StrippedUnlessKept(line + back, keepEscapes);
    LastOfLine(text, marked, sep);
    ReturnGoes(line, sep, returned);
    ReturnIsTaken(line + back, sep, num, keepEscapes);
    if marked {
      assert line[..|BOM|] == BOM && line[|BOM|..] == text;
    } else {
      assert line == text;
    }
  }

  lemma {:induction false} MarksAreNoEscapes(keepEscapes: bool)
    ensures Unescaped([], keepEscapes) && Unescaped(BOM, keepEscapes) && Unescaped([CR], keepEscapes)
  {
  }

  lemma {:induction false} LastOfLine(text: seq<Byte>, marked: bool, sep: Byte)
    ensures
      var line := (if marked then BOM else []) + text;
      line != [] && line[|line| - 1] == CR ==> text != [] && text[|text| - 1] == CR
  {
    assert BOM[2] == 0xBF;
  }

  lemma {:induction false} StrippedUnlessKept(raw: seq<Byte>, keepEscapes: bool)
    requires Unescaped(raw, keepEscapes)
    ensures keepEscapes || Stripped(raw) == raw
  {
    hide Stripped;
    NothingToStripUnlessEscaped(raw);
  }

  lemma {:induction false} ReturnIsTaken(raw: seq<Byte>, sep: Byte, num: nat, keepEscapes: bool)
    requires keepEscapes || Stripped(raw) == raw
    ensures
      var line := WithoutReturn(raw, sep);
      PreparedBytes(raw, sep, num, keepEscapes) == if num == 1 && BOM <= line then line[|BOM|..] else line
  {
    hide Stripped;
  }

  lemma {:induction false} NothingToStripUnlessEscaped(raw: seq<Byte>)
    ensures ESC !in raw ==> Stripped(raw) == raw
  {
    if ESC !in raw {
      NothingToStrip(raw);
    }
  }

  lemma {:induction false} StrippedIsOfTheText(b: seq<Byte>, x: Byte)
    requires x in Stripped(b)
    ensures x in b
    decreases |b|
  {
    hide Escape;
    if e: nat :| EscapeAt(b, e) {
      NotEmpty(b, e);
      StrippedEscape(b, e);
      StrippedIsOfTheText(b[e..], x);
    } else if x != b[0] {
      StrippedIsOfTheText(b[1..], x);
    }
  }
}
