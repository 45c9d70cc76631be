/**
 Reading JSON text by the grammar of RFC 8259 (values by sections 2 to 6, strings by section 7), and that it undoes
 what the writer does (pkg/jsonutil/object.go, Encode).
 */
module JsonText {
  import opened Lines
  import opened Json
  import opened Texts
  import opened Writer

  // ----- the grammar -----

  predicate WhiteSpace(c: char) {
    c == ' ' || c == '\t' || c == '\n' || c == '\r'
  }

  function Skip(s: string): (rest: string)
    ensures |rest| <= |s|
    ensures rest != "" ==> !WhiteSpace(rest[0])
  {
    if s != "" && WhiteSpace(s[0]) then Skip(s[1..]) else s
  }

  /** The value of a hex digit, or 16. */
  function HexValue(c: char): (n: nat)
    ensures n <= 16
  {
    if '0' <= c <= '9' then (c - '0') as nat
    else if 'a' <= c <= 'f' then 10 + (c - 'a') as nat
    else if 'A' <= c <= 'F' then 10 + (c - 'A') as nat
    else 16
  }

  /** The number four hex digits write. */
  function FourHex(s: string): Outcome<nat> {
    if |s| < 4 || HexValue(s[0]) > 15 || HexValue(s[1]) > 15 || HexValue(s[2]) > 15 || HexValue(s[3]) > 15 then Refused
    else Ok(HexValue(s[0]) * 0x1000 + HexValue(s[1]) * 0x100 + HexValue(s[2]) * 16 + HexValue(s[3]))
  }

  predicate HighSurrogate(n: nat) {
    0xD800 <= n < 0xDC00
  }

  predicate LowSurrogate(n: nat) {
    0xDC00 <= n < 0xE000
  }

  /** The character of an escape, behind its backslash, and the text behind the escape. */
  function ReadEscape(s: string): (r: Outcome<(char, string)>)
    ensures r.Ok? ==> |r.value.1| < |s|
  {
    if s == "" then Refused
    else if s[0] == '"' || s[0] == '\\' || s[0] == '/' then Ok((s[0], s[1..]))
    else if s[0] == 'b' then Ok(('\U{08}', s[1..]))
    else if s[0] == 'f' then Ok(('\U{0C}', s[1..]))
    else if s[0] == 'n' then Ok(('\n', s[1..]))
    else if s[0] == 'r' then Ok(('\r', s[1..]))
    else if s[0] == 't' then Ok(('\t', s[1..]))
    else if s[0] != 'u' then Refused
    else
      var n :- FourHex(s[1..]);
      if HighSurrogate(n) then
        if |s| < 7 || s[5..7] != "\\u" then Refused
        else
          var low :- FourHex(s[7..]);
          if !LowSurrogate(low) then Refused
          else Ok(((0x10000 + (n - 0xD800) * 0x400 + (low - 0xDC00)) as char, s[11..]))
      else if LowSurrogate(n) then Refused
      else Ok((n as char, s[5..]))
  }

  /** The characters of a string up to its closing quote, and the text behind it. */
  function ReadChars(s: string): (r: Outcome<(string, string)>)
    ensures r.Ok? ==> |r.value.1| < |s|
    decreases |s|
  {
    if s == "" || s[0] < ' ' then Refused
    else if s[0] == '"' then Ok(("", s[1..]))
    else if s[0] != '\\' then
      var more :- ReadChars(s[1..]);
      Ok(([s[0]] + more.0, more.1))
    else
      var e :- ReadEscape(s[1..]);
      var more :- ReadChars(e.1);
      Ok(([e.0] + more.0, more.1))
  }

  predicate NumberChar(c: char) {
    '0' <= c <= '9' || c == '-' || c == '+' || c == '.' || c == 'e' || c == 'E'
  }

  function NumberStop(s: string): (n: nat)
    ensures n <= |s|
    ensures s != "" && NumberChar(s[0]) ==> n > 0
  {
    if s == "" || !NumberChar(s[0]) then 0 else 1 + NumberStop(s[1..])
  }

  predicate IsDigit(c: char) {
    '0' <= c <= '9'
  }

  /** How many digits a text begins with. */
  function Digits(s: string): (n: nat)
    ensures n <= |s|
    ensures forall i :: 0 <= i < n ==> IsDigit(s[i])
    ensures n < |s| ==> !IsDigit(s[n])
  {
    if s == "" || !IsDigit(s[0]) then 0 else 1 + Digits(s[1..])
  }

  /** A number (section 6): a sign, an integer without a leading zero, a fraction and an exponent. */
  predicate IsNumber(s: string) {
    IsUnsigned(if s != "" && s[0] == '-' then s[1..] else s)
  }

  predicate IsUnsigned(s: string) {
    var n := Digits(s);
    n > 0 && (s[0] == '0' ==> n == 1) && IsFraction(s[n..])
  }

  predicate IsFraction(s: string) {
    if s != "" && s[0] == '.' then
      var n := Digits(s[1..]);
      n > 0 && IsExponent(s[n + 1..])
    else IsExponent(s)
  }

  predicate IsExponent(s: string) {
    s == "" ||
    ((s[0] == 'e' || s[0] == 'E') &&
     var t := if |s| > 1 && (s[1] == '+' || s[1] == '-') then s[2..] else s[1..];
     t != "" && Digits(t) == |t|)
  }

  /** A value, and the text behind it. */
  function ReadValue(s: string, number: string -> Outcome<real>): (r: Outcome<(Json, string)>)
    ensures r.Ok? ==> |r.value.1| < |s|
    decreases |s|, 1
  {
    var t := Skip(s);
    if t == "" then Refused
    else if t[0] == '"' then
      var text :- ReadChars(t[1..]);
      Ok((Str(text.0), text.1))
    else if t[0] == '[' then
      if Skip(t[1..]) != "" && Skip(t[1..])[0] == ']' then Ok((Arr([]), Skip(t[1..])[1..]))
      else
        var items :- ReadItems(t[1..], number);
        Ok((Arr(items.0), items.1))
    else if t[0] == '{' then
      if Skip(t[1..]) != "" && Skip(t[1..])[0] == '}' then Ok((Obj([]), Skip(t[1..])[1..]))
      else
        var members :- ReadMembers(t[1..], number);
        Ok((Obj(members.0), members.1))
    else if "null" <= t then Ok((Null, t[4..]))
    else if "true" <= t then Ok((Bool(true), t[4..]))
    else if "false" <= t then Ok((Bool(false), t[5..]))
    else if t[0] == '-' || '0' <= t[0] <= '9' then
      var text := t[..NumberStop(t)];
      if !IsNumber(text) then Refused
      else
        var x :- number(text);
        Ok((Number(x), t[NumberStop(t)..]))
    else Refused
  }

  /** The elements of an array up to its closing bracket. */
  function ReadItems(s: string, number: string -> Outcome<real>): (r: Outcome<(seq<Json>, string)>)
    ensures r.Ok? ==> |r.value.1| < |s|
    decreases |s|, 2
  {
    var v :- ReadValue(s, number);
    var t := Skip(v.1);
    if t == "" then Refused
    else if t[0] == ']' then Ok(([v.0], t[1..]))
    else if t[0] != ',' then Refused
    else
      var more :- ReadItems(t[1..], number);
      Ok(([v.0] + more.0, more.1))
  }

  /** The members of an object up to its closing brace. */
  function ReadMembers(s: string, number: string -> Outcome<real>): (r: Outcome<(seq<Member>, string)>)
    ensures r.Ok? ==> |r.value.1| < |s|
    decreases |s|, 2
  {
    var t := Skip(s);
    if t == "" || t[0] != '"' then Refused
    else
      var key :- ReadChars(t[1..]);
      var u := Skip(key.1);
      if u == "" || u[0] != ':' then Refused
      else
        var v :- ReadValue(u[1..], number);
        var w := Skip(v.1);
        if w == "" then Refused
        else if w[0] == '}' then Ok(([Member(key.0, v.0)], w[1..]))
        else if w[0] != ',' then Refused
        else
          var more :- ReadMembers(w[1..], number);
          Ok(([Member(key.0, v.0)] + more.0, more.1))
  }

  /** A whole text: one value with nothing but white space around it. */
  function Read(s: string, number: string -> Outcome<real>): Outcome<Json> {
    var v :- ReadValue(s, number);
    if Skip(v.1) == "" then Ok(v.0) else Refused
  }

  // ----- strings read back -----

  /** A number below 2^16 is its four hex digits. */
  lemma {:induction false} Nibbles(n: nat)
    requires n < 0x10000
    ensures n / 0x1000 < 16 && n / 0x100 % 16 < 16 && n / 16 % 16 < 16
    ensures n / 0x1000 * 0x1000 + n / 0x100 % 16 * 0x100 + n / 16 % 16 * 16 + n % 16 == n
  {
    var p := n / 16;
    var q := p / 16;
    assert n / 0x100 == q && n / 0x1000 == q / 16;
  }

  lemma {:induction false} HexReadsBack(c: char, rest: string)
    requires c < '\U{10000}'
    ensures FourHex(UnicodeEscape(c)[2..] + rest) == Ok(c as int)
  {
    hide HexValue, Hex;
    var n: nat := c as int;
    Nibbles(n);
    var a, b, d, e := n / 0x1000, n / 0x100 % 16, n / 16 % 16, n % 16;
    HexDigit(a);
    HexDigit(b);
    HexDigit(d);
    HexDigit(e);
    assert n % 0x10000 == n;
    var digits := [Hex(a), Hex(b), Hex(d), Hex(e)];
    assert UnicodeEscape(c) == "\\u" + digits;
    assert UnicodeEscape(c)[2..] == digits;
    FourDigits(digits + rest, a, b, d, e);
  }

  lemma {:induction false} FourDigits(s: string, a: nat, b: nat, d: nat, e: nat)
    requires |s| >= 4 && a < 16 && b < 16 && d < 16 && e < 16
    requires HexValue(s[0]) == a && HexValue(s[1]) == b && HexValue(s[2]) == d && HexValue(s[3]) == e
    ensures FourHex(s) == Ok(a * 0x1000 + b * 0x100 + d * 16 + e)
  {
    hide HexValue;
  }

  lemma {:induction false} HexDigit(n: nat)
    requires n < 16
    ensures HexValue(Hex(n)) == n
  {
  }

  /** What one character is written as reads back as that character. */
  lemma {:induction false} EscapeReadsBack(c: char, rest: string)
    ensures ReadChars(EscapeOf(c) + rest) ==
      var more := ReadChars(rest);
      if more.Refused? then Refused else Ok(([c] + more.value.0, more.value.1))
  {
    hide ReadEscape, UnicodeEscape;
    var s := EscapeOf(c) + rest;
    if Verbatim(c) {
      assert s[1..] == rest;
    } else {
      EscapeStarts(c);
      assert s[0] == '\\' && s[1..] == EscapeOf(c)[1..] + rest;
      EscapeIsRead(c, rest);
    }
  }

  lemma {:induction false} EscapeStarts(c: char)
    requires !Verbatim(c)
    ensures |EscapeOf(c)| > 1 && EscapeOf(c)[0] == '\\'
  {
    hide Hex;
  }

  lemma {:induction false} EscapeIsRead(c: char, rest: string)
    requires !Verbatim(c) && |EscapeOf(c)| > 1
    ensures ReadEscape(EscapeOf(c)[1..] + rest) == Ok((c, rest))
  {
    hide FourHex, Hex;
    var s := EscapeOf(c)[1..] + rest;
    if |EscapeOf(c)| == 2 {
      assert s[1..] == rest;
    } else {
      HexReadsBack(c, rest);
      var u := UnicodeEscape(c);
      assert s[0] == 'u' && s[1..] == u[2..] + rest && s[5..] == rest;
    }
  }

  lemma {:induction false} EscapedReadsBack(s: string, rest: string)
    ensures ReadChars(Escaped(s) + ("\"" + rest)) == Ok((s, rest))
  {
    hide EscapeOf;
    if s == "" {
      assert ("\"" + rest)[1..] == rest;
      assert Escaped(s) + ("\"" + rest) == "\"" + rest;
    } else {
      EscapedReadsBack(s[1..], rest);
      EscapeReadsBack(s[0], Escaped(s[1..]) + ("\"" + rest));
      assert EscapeOf(s[0]) + (Escaped(s[1..]) + ("\"" + rest)) == Escaped(s) + ("\"" + rest);
      assert [s[0]] + s[1..] == s;
    }
  }

  lemma {:induction false} StringReadsBack(s: string, rest: string)
    ensures WrittenString(s) + rest != "" && (WrittenString(s) + rest)[0] == '"'
    ensures ReadChars((WrittenString(s) + rest)[1..]) == Ok((s, rest))
  {
    hide Escaped, ReadChars;
    EscapedReadsBack(s, rest);
    assert (WrittenString(s) + rest)[1..] == Escaped(s) + ("\"" + rest);
  }

  // ----- values read back -----

  predicate NumberText(s: string) {
    forall i :: 0 <= i < |s| ==> NumberChar(s[i])
  }

  lemma {:induction false} NumberTexts(s: string, n: nat)
    requires n <= |s| && NumberText(s[..n]) && NumberText(s[n..])
    ensures NumberText(s)
  {
    hide NumberChar;
    forall i | 0 <= i < |s| ensures NumberChar(s[i]) {
      if i < n {
        assert s[..n][i] == s[i];
      } else {
        assert s[n..][i - n] == s[i];
      }
    }
  }

  lemma {:induction false} DigitsText(s: string)
    ensures NumberText(s[..Digits(s)])
  {
  }

  /** A number is made of number characters and begins with a digit or a minus. */
  lemma {:induction false} NumberChars(s: string)
    requires IsNumber(s)
    ensures s != "" && (s[0] == '-' || IsDigit(s[0])) && NumberText(s)
  {
    hide IsFraction, NumberText, Digits;
    assert s != "" by {
      NoNumber();
    }
    var t := if s[0] == '-' then s[1..] else s;
    var n := Digits(t);
    DigitsText(t);
    FractionChars(t[n..]);
    NumberTexts(t, n);
    if s[0] == '-' {
      OneNumberChar(s);
      NumberTexts(s, 1);
    }
  }

  lemma {:induction false} NoNumber()
    ensures !IsNumber("")
  {
  }

  lemma {:induction false} OneNumberChar(s: string)
    requires s != "" && NumberChar(s[0])
    ensures NumberText(s[..1])
  {
  }

  lemma {:induction false} FractionChars(s: string)
    requires IsFraction(s)
    ensures NumberText(s)
  {
    hide IsExponent, NumberText, Digits;
    if s != "" && s[0] == '.' {
      var n := Digits(s[1..]);
      DigitsText(s[1..]);
      ExponentChars(s[n + 1..]);
      assert s[1..][n..] == s[n + 1..];
      NumberTexts(s[1..], n);
      OneNumberChar(s);
      NumberTexts(s, 1);
    } else {
      ExponentChars(s);
    }
  }

  lemma {:induction false} ExponentChars(s: string)
    requires IsExponent(s)
    ensures NumberText(s)
  {
    if s != "" {
      var k := if |s| > 1 && (s[1] == '+' || s[1] == '-') then 2 else 1;
      DigitsText(s[k..]);
      assert s[k..][..|s| - k] == s[k..];
      NumberTexts(s, k);
    }
  }

  /** An integer as it is written (strconv.AppendInt). */
  function IntegerText(n: int): string {
    if n < 0 then "-" + DigitsOf(-n) else DigitsOf(n)
  }

  lemma {:induction false} DigitsAreDigits(n: nat)
    ensures Digits(DigitsOf(n)) == |DigitsOf(n)| && (DigitsOf(n)[0] == '0' <==> n == 0)
  {
    if n < 10 {
      assert DigitsOf(n)[1..] == "";
    } else {
      DigitsAreDigits(n / 10);
      DigitsSnoc(DigitsOf(n / 10), "0123456789"[n % 10]);
      assert n / 10 > 0;
    }
  }

  lemma {:induction false} DigitsSnoc(s: string, c: char)
    requires Digits(s) == |s| && IsDigit(c)
    ensures Digits(s + [c]) == |s| + 1
  {
    if s == "" {
      assert s + [c] == [c] && [c][1..] == "";
    } else {
      assert (s + [c])[1..] == s[1..] + [c];
      DigitsSnoc(s[1..], c);
    }
  }

  /** Every integer is written as a number of the grammar. */
  lemma {:induction false} IntegerIsNumber(n: int)
    ensures IsNumber(IntegerText(n))
  {
    var m := if n < 0 then -n else n;
    DigitsAreDigits(m);
    var digits := DigitsOf(m);
    assert digits[|digits|..] == "" && ("-" + digits)[1..] == digits;
    if m == 0 {
      assert digits == "0";
    }
  }

  /** The shortest decimal of a float less a zero its exponent begins with: e-09 is written e-9 (writeFloat). */
  function Tidied(b: string): string {
    var n := |b|;
    if n >= 4 && b[n - 4] == 'e' && b[n - 3] == '-' && b[n - 2] == '0' then b[..n - 2] + [b[n - 1]] else b
  }

  /** A number stays one. */
  lemma {:induction false} TidiedIsNumber(b: string)
    requires IsNumber(b)
    ensures IsNumber(Tidied(b))
  {
    hide IsUnsigned;
    var n := |b|;
    if n >= 4 && b[n - 4] == 'e' && b[n - 3] == '-' && b[n - 2] == '0' {
      var out := Tidied(b);
      if b[0] == '-' {
        TailTidied(b, out);
        UnsignedTidied(b[1..], out[1..]);
      } else {
        UnsignedTidied(b, out);
      }
    }
  }

  /** The sign stands before what is tidied. */
  lemma {:induction false} TailTidied(s: string, t: string)
    requires TidiesTo(s, t) && s[0] == '-'
    ensures TidiesTo(s[1..], t[1..])
  {
  }

  lemma {:induction false} UnsignedTidied(s: string, t: string)
    requires TidiesTo(s, t) && IsUnsigned(s)
    ensures IsUnsigned(t) && t[0] == s[0]
  {
    hide IsFraction;
    var d := Digits(s);
    assert d <= |s| - 4;
    assert s[..d + 1] == t[..d + 1];
    hide Digits;
    DigitsStay(s, t, d);
    assert TidiesTo(s[d..], t[d..]);
    FractionTidied(s[d..], t[d..]);
  }

  /** Texts that begin alike, one character past the digits, begin with as many. */
  lemma {:induction false} DigitsStay(s: string, t: string, d: nat)
    requires d == Digits(s) && d < |s| && d < |t| && s[..d + 1] == t[..d + 1]
    ensures Digits(t) == d
  {
    assert s[0] == s[..d + 1][0] == t[0];
    if d > 0 {
      assert s[1..][..d] == s[..d + 1][1..] && t[1..][..d] == t[..d + 1][1..];
      DigitsStay(s[1..], t[1..], d - 1);
    }
  }

  predicate TidiesTo(s: string, t: string) {
    |s| >= 4 && s[|s| - 4] == 'e' && s[|s| - 3] == '-' && t == s[..|s| - 2] + [s[|s| - 1]]
  }

  lemma {:induction false} FractionTidied(s: string, t: string)
    requires IsFraction(s) && TidiesTo(s, t)
    ensures IsFraction(t)
  {
    hide IsExponent;
    if s[0] == '.' {
      var d := Digits(s[1..]);
      assert s[|s| - 4] == s[1..][|s| - 5];
      assert d <= |s| - 5;
      assert s[1..][..d + 1] == t[1..][..d + 1];
      DigitsStay(s[1..], t[1..], d);
      assert t[d + 1..] == s[d + 1..][..|s| - d - 3] + [s[|s| - 1]];
      ExponentTidied(s[d + 1..], t[d + 1..]);
    } else {
      ExponentTidied(s, t);
    }
  }

  lemma {:induction false} ExponentTidied(s: string, t: string)
    requires IsExponent(s) && TidiesTo(s, t)
    ensures IsExponent(t)
  {
    ExponentDigits(s);
    assert !IsDigit('e') && !IsDigit('-');
    assert |s| == 4;
    assert t == [s[0], s[1], s[3]];
    assert t[2..] == [s[3]] && [s[3]][1..] == "";
  }

  /** Behind the letter and the sign of an exponent there are digits alone. */
  lemma {:induction false} ExponentDigits(s: string)
    requires IsExponent(s) && s != ""
    ensures
      var k := if |s| > 1 && (s[1] == '+' || s[1] == '-') then 2 else 1;
      |s| > k && forall i :: k <= i < |s| ==> IsDigit(s[i])
  {
    var k := if |s| > 1 && (s[1] == '+' || s[1] == '-') then 2 else 1;
    assert forall i :: k <= i < |s| ==> s[i] == s[k..][i - k];
  }

  /** The numbers of a value are written as numbers of the grammar, and read back. */
  predicate NumbersReadBack(v: Json, write: real -> string, read: string -> Outcome<real>) {
    match v
    case Number(x) => NumberReadsBack(write(x), x, read)
    case Arr(items) => forall i :: 0 <= i < |items| ==> NumbersReadBack(items[i], write, read)
    case Obj(members) => forall i :: 0 <= i < |members| ==> NumbersReadBack(members[i].value, write, read)
    case _ => true
  }

  predicate NumberReadsBack(s: string, x: real, read: string -> Outcome<real>) {
    IsNumber(s) && read(s) == Ok(x)
  }

  lemma {:induction false} ItemNumbers(items: seq<Json>, write: real -> string, read: string -> Outcome<real>)
    requires items != [] && NumbersReadBack(Arr(items), write, read)
    ensures NumbersReadBack(items[0], write, read) && NumbersReadBack(Arr(items[1..]), write, read)
  {
  }

  lemma {:induction false} MemberNumbers(members: seq<Member>, write: real -> string, read: string -> Outcome<real>)
    requires members != [] && NumbersReadBack(Obj(members), write, read)
    ensures NumbersReadBack(members[0].value, write, read) && NumbersReadBack(Obj(members[1..]), write, read)
  {
  }

  predicate Spaces(s: string) {
    forall i :: 0 <= i < |s| ==> WhiteSpace(s[i])
  }

  /** No number runs on into what is behind it. */
  predicate Ends(rest: string) {
    rest == "" || !NumberChar(rest[0])
  }

  lemma {:induction false} SkipSpaces(ws: string, s: string)
    requires Spaces(ws)
    ensures Skip(ws + s) == Skip(s)
  {
    if ws == "" {
      assert ws + s == s;
    } else {
      assert (ws + s)[1..] == ws[1..] + s;
      SkipSpaces(ws[1..], s);
    }
  }

  lemma {:induction false} ValueAfterSpaces(ws: string, s: string, number: string -> Outcome<real>)
    requires Spaces(ws)
    ensures ReadValue(ws + s, number) == ReadValue(s, number)
  {
    hide ReadItems, ReadMembers, ReadChars;
    SkipSpaces(ws, s);
  }

  lemma {:induction false} NumberStops(s: string, rest: string)
    requires (forall i :: 0 <= i < |s| ==> NumberChar(s[i])) && Ends(rest)
    ensures NumberStop(s + rest) == |s|
  {
    if s == "" {
      assert s + rest == rest;
    } else {
      assert (s + rest)[1..] == s[1..] + rest;
      NumberStops(s[1..], rest);
    }
  }

  lemma {:induction false} NewLineIsSpace(indent: string, prefix: string)
    requires Spaces(prefix)
    ensures Spaces(NewLine(indent, prefix))
  {
  }

  /** How a written value begins: not with white space, and not with what closes a container. */
  lemma {:induction false} WrittenStarts(v: Json, write: real -> string, read: string -> Outcome<real>, indent: string, prefix: string)
    requires NumbersReadBack(v, write, read)
    ensures
      var s := Written(v, write, indent, prefix);
      s != "" && !WhiteSpace(s[0]) && s[0] != ']'
  {
    hide WrittenItems, WrittenMembers, NewLine, Escaped;
    if v.Number? {
      assert NumberReadsBack(write(v.value), v.value, read);
      NumberChars(write(v.value));
    }
  }

  /** What is written reads back as the value it was written for, with what is behind it left over. */
  lemma {:induction false} ValueReadsBack(v: Json, write: real -> string, read: string -> Outcome<real>, indent: string, prefix: string,
                                          rest: string)
    requires NumbersReadBack(v, write, read) && Spaces(indent) && Spaces(prefix) && Ends(rest)
    ensures ReadValue(Written(v, write, indent, prefix) + rest, read) == Ok((v, rest))
    decreases v, 1
  {
    hide WrittenItems, WrittenMembers, WrittenString, ReadItems, ReadMembers, ReadChars, NewLine, NumbersReadBack, IsNumber;
    var s := Written(v, write, indent, prefix) + rest;
    WrittenIs(v, write, indent, prefix);
    match v {
      case Null => assert s[4..] == rest;
      case Bool(b) => assert s[if b then 4 else 5..] == rest;
      case Number(x) =>
        NumberBack(x, write, read);
        NumberChars(write(x));
        NumberStops(write(x), rest);
        assert s[..|write(x)|] == write(x) && s[|write(x)|..] == rest;
      case Str(t) => StringReadsBack(t, rest);
      case Arr(items) => ArrayReadsBack(items, write, read, indent, prefix, rest);
      case Obj(members) => ObjectReadsBack(members, write, read, indent, prefix, rest);
    }
  }

  lemma {:induction false} NumberBack(x: real, write: real -> string, read: string -> Outcome<real>)
    requires NumbersReadBack(Number(x), write, read)
    ensures NumberReadsBack(write(x), x, read)
  {
  }

  lemma {:induction false} ArrayReadsBack(items: seq<Json>, write: real -> string, read: string -> Outcome<real>, indent: string, prefix: string,
                                          rest: string)
    requires NumbersReadBack(Arr(items), write, read) && Spaces(indent) && Spaces(prefix) && Ends(rest)
    ensures ReadValue(ArrayText(items, write, indent, prefix) + rest, read) == Ok((Arr(items), rest))
    decreases items, 1
  {
    hide WrittenItems, ReadItems, ReadMembers, ReadChars, NewLine, NumbersReadBack;
    var s := ArrayText(items, write, indent, prefix) + rest;
    var inner := prefix + indent;
    if items == [] {
      NoItems(write, indent, inner);
      assert s == "[" + ("]" + rest);
      assert s[1..] == "]" + rest && ("]" + rest)[1..] == rest;
    } else {
      var nl := NewLine(indent, prefix);
      NewLineIsSpace(indent, prefix);
      ItemsReadBack(items, write, read, indent, inner, nl, rest);
      assert s == "[" + (WrittenItems(items, write, indent, inner) + (nl + ("]" + rest)));
      assert s[1..] == WrittenItems(items, write, indent, inner) + (nl + ("]" + rest));
      ItemsDoNotClose(items, write, read, indent, inner, nl + ("]" + rest));
    }
  }

  /** The text of the elements begins with an element. */
  lemma {:induction false} ItemsDoNotClose(items: seq<Json>, write: real -> string, read: string -> Outcome<real>, indent: string, inner: string,
                                           behind: string)
    requires items != [] && NumbersReadBack(Arr(items), write, read) && Spaces(inner)
    ensures
      var t := Skip(WrittenItems(items, write, indent, inner) + behind);
      t != "" && t[0] != ']'
  {
    hide Written, NewLine, NumbersReadBack;
    ItemNumbers(items, write, read);
    var nl, first := NewLine(indent, inner), Written(items[0], write, indent, inner);
    var more := (if |items| > 1 then "," else "") + WrittenItems(items[1..], write, indent, inner);
    NewLineIsSpace(indent, inner);
    WrittenStarts(items[0], write, read, indent, inner);
    assert WrittenItems(items, write, indent, inner) + behind == nl + (first + (more + behind));
    SkipSpaces(nl, first + (more + behind));
  }

  lemma {:induction false} ItemsReadBack(items: seq<Json>, write: real -> string, read: string -> Outcome<real>, indent: string, inner: string,
                                         nl: string, rest: string)
    requires items != [] && NumbersReadBack(Arr(items), write, read) && Spaces(indent) && Spaces(inner) && Spaces(nl)
    ensures ReadItems(WrittenItems(items, write, indent, inner) + (nl + ("]" + rest)), read) == Ok((items, rest))
    decreases items, 0
  {
    hide Written, NewLine, ReadValue, NumbersReadBack, Spaces;
    ItemNumbers(items, write, read);
    var before, first := NewLine(indent, inner), Written(items[0], write, indent, inner);
    var tail := (if |items| > 1 then "," else "") + WrittenItems(items[1..], write, indent, inner) + (nl + ("]" + rest));
    NewLineIsSpace(indent, inner);
    assert WrittenItems(items, write, indent, inner) + (nl + ("]" + rest)) == before + (first + tail);
    if |items| > 1 {
      assert tail == "," + (WrittenItems(items[1..], write, indent, inner) + (nl + ("]" + rest)));
      ItemsReadBack(items[1..], write, read, indent, inner, nl, rest);
      assert tail[1..] == WrittenItems(items[1..], write, indent, inner) + (nl + ("]" + rest));
      assert [items[0]] + items[1..] == items;
    } else {
      NoItems(write, indent, inner);
      assert items[1..] == [] && items == [items[0]];
      assert tail == nl + ("]" + rest);
      SkipSpaces(nl, "]" + rest);
      assert ("]" + rest)[1..] == rest;
    }
    TailEnds(|items| > 1, tail, nl, "]" + rest);
    ValueReadsBack(items[0], write, read, indent, inner, tail);
    ValueAfterSpaces(before, first + tail, read);
  }

  lemma {:induction false} TailEnds(more: bool, tail: string, nl: string, close: string)
    requires Spaces(nl) && close != "" && !NumberChar(close[0])
    requires if more then tail != "" && tail[0] == ',' else tail == nl + close
    ensures Ends(tail)
  {
    if !more && nl != "" {
      assert tail[0] == nl[0];
    }
  }

  lemma {:induction false} ObjectReadsBack(members: seq<Member>, write: real -> string, read: string -> Outcome<real>, indent: string, prefix: string,
                                           rest: string)
    requires NumbersReadBack(Obj(members), write, read) && Spaces(indent) && Spaces(prefix) && Ends(rest)
    ensures ReadValue(ObjectText(members, write, indent, prefix) + rest, read) == Ok((Obj(members), rest))
    decreases members, 1
  {
    hide WrittenMembers, ReadItems, ReadMembers, ReadChars, NewLine, NumbersReadBack;
    var s := ObjectText(members, write, indent, prefix) + rest;
    var inner := prefix + indent;
    if members == [] {
      NoMembers(write, indent, inner);
      assert s == "{" + ("}" + rest);
      assert s[1..] == "}" + rest && ("}" + rest)[1..] == rest;
    } else {
      var nl := NewLine(indent, prefix);
      NewLineIsSpace(indent, prefix);
      MembersReadBack(members, write, read, indent, inner, nl, rest);
      assert s == "{" + (WrittenMembers(members, write, indent, inner) + (nl + ("}" + rest)));
      assert s[1..] == WrittenMembers(members, write, indent, inner) + (nl + ("}" + rest));
      MembersStart(members, write, indent, inner, nl + ("}" + rest));
    }
  }

  /** The text of the members begins with a key. */
  lemma {:induction false} MembersStart(members: seq<Member>, write: real -> string, indent: string, inner: string, behind: string)
    requires members != [] && Spaces(inner)
    ensures
      var m := members[0];
      var more := (if |members| > 1 then "," else "") + WrittenMembers(members[1..], write, indent, inner) + behind;
      var t := WrittenString(m.key) + (Colon(indent) + (Written(m.value, write, indent, inner) + more));
      && Skip(WrittenMembers(members, write, indent, inner) + behind) == t && t != "" && t[0] == '"'
  {
    hide Written, NewLine, Colon, Escaped;
    var nl, m := NewLine(indent, inner), members[0];
    var more := (if |members| > 1 then "," else "") + WrittenMembers(members[1..], write, indent, inner) + behind;
    var t := WrittenString(m.key) + (Colon(indent) + (Written(m.value, write, indent, inner) + more));
    NewLineIsSpace(indent, inner);
    Regrouped(nl, WrittenString(m.key), Colon(indent), Written(m.value, write, indent, inner), |members| > 1,
              WrittenMembers(members[1..], write, indent, inner), behind);
    SkipSpaces(nl, t);
    assert t[0] == WrittenString(m.key)[0];
  }

  lemma {:induction false} Regrouped(a: string, b: string, c: string, d: string, more: bool, e: string, f: string)
    ensures a + b + c + d + ((if more then "," else "") + e) + f == a + (b + (c + (d + ((if more then "," else "") + e + f))))
  {
  }

  lemma {:induction false} MembersReadBack(members: seq<Member>, write: real -> string, read: string -> Outcome<real>, indent: string, inner: string,
                                           nl: string, rest: string)
    requires members != [] && NumbersReadBack(Obj(members), write, read) && Spaces(indent) && Spaces(inner) && Spaces(nl)
    ensures ReadMembers(WrittenMembers(members, write, indent, inner) + (nl + ("}" + rest)), read) == Ok((members, rest))
    decreases members, 0
  {
    hide Written, NewLine, ReadValue, NumbersReadBack, Spaces, WrittenString, ReadChars, WrittenMembers;
    MemberNumbers(members, write, read);
    var m, close := members[0], nl + ("}" + rest);
    var tail := (if |members| > 1 then "," else "") + WrittenMembers(members[1..], write, indent, inner) + close;
    var value := Written(m.value, write, indent, inner) + tail;
    MembersStart(members, write, indent, inner, close);
    StringReadsBack(m.key, Colon(indent) + value);
    ColonSkipped(indent, value);
    if |members| > 1 {
      assert tail == "," + (WrittenMembers(members[1..], write, indent, inner) + close);
      MembersReadBack(members[1..], write, read, indent, inner, nl, rest);
      assert tail[1..] == WrittenMembers(members[1..], write, indent, inner) + close;
      assert [m] + members[1..] == members;
    } else {
      NoMembers(write, indent, inner);
      assert members[1..] == [] && members == [m];
      assert tail == close;
      SkipSpaces(nl, "}" + rest);
      assert ("}" + rest)[1..] == rest;
    }
    TailEnds(|members| > 1, tail, nl, "}" + rest);
    MemberReadsBack(m, write, read, indent, inner, tail);
  }

  lemma {:induction false} MemberReadsBack(m: Member, write: real -> string, read: string -> Outcome<real>, indent: string, inner: string, tail: string)
    requires NumbersReadBack(m.value, write, read) && Spaces(indent) && Spaces(inner) && Ends(tail)
    ensures
      var u := Colon(indent) + (Written(m.value, write, indent, inner) + tail);
      ReadValue(u[1..], read) == Ok((m.value, tail))
    decreases m, 2
  {
    hide Written, ReadValue, NumbersReadBack;
    var value := Written(m.value, write, indent, inner) + tail;
    ValueReadsBack(m.value, write, read, indent, inner, tail);
    if indent == "" {
      assert (Colon(indent) + value)[1..] == value;
    } else {
      assert (Colon(indent) + value)[1..] == " " + value;
      ValueAfterSpaces(" ", value, read);
    }
  }

  lemma {:induction false} ColonSkipped(indent: string, value: string)
    ensures
      var u := Colon(indent) + value;
      Skip(u) == u && u != "" && u[0] == ':'
  {
  }

  /** Every value reads back from its text, compact or indented. */
  lemma {:induction false} WhatIsWrittenReadsBack(v: Json, write: real -> string, read: string -> Outcome<real>, indent: string)
    requires NumbersReadBack(v, write, read) && Spaces(indent)
    ensures Read(Written(v, write, indent, "") + "\n", read) == Ok(v)
  {
    hide Written, ReadValue, NumbersReadBack;
    ValueReadsBack(v, write, read, indent, "", "\n");
  }

  /** Two values that differ are never written alike. */
  lemma {:induction false} WritingIsInjective(v: Json, w: Json, write: real -> string, read: string -> Outcome<real>, indent: string)
    requires NumbersReadBack(v, write, read) && NumbersReadBack(w, write, read) && Spaces(indent)
    requires Written(v, write, indent, "") == Written(w, write, indent, "")
    ensures v == w
  {
    hide Written, Read, NumbersReadBack;
    WhatIsWrittenReadsBack(v, write, read, indent);
    WhatIsWrittenReadsBack(w, write, read, indent);
  }

  /** Encode: the text with a line break behind it, from which the value reads back. */
  method Encode(v: Json, write: real -> string, ghost read: string -> Outcome<real>, pretty: bool) returns (text: string)
    ensures text == Written(v, write, if pretty then "  " else "", "") + "\n"
    ensures NumbersReadBack(v, write, read) ==> Read(text, read) == Ok(v)
  {
    hide Written, Read, NumbersReadBack;
    var indent := if pretty then "  " else "";
    var buffer := new Buffer();
    buffer.WriteValue(v, write, indent, "", "", "");
    buffer.Put("\n", "", Written(v, write, indent, ""));
    text := buffer.text;
    if NumbersReadBack(v, write, read) {
      WhatIsWrittenReadsBack(v, write, read, indent);
    }
  }

  // ----- the two forms -----

  /** Where a string ends, behind its closing quote. */
  function StringStop(s: string): (n: nat)
    ensures n <= |s|
  {
    if s == "" then 0
    else if s[0] == '"' then 1
    else if s[0] == '\\' && |s| > 1 then 2 + StringStop(s[2..])
    else 1 + StringStop(s[1..])
  }

  /** A text without the white space that stands outside its strings. */
  function Stripped(s: string): string
    decreases |s|
  {
    if s == "" then ""
    else if s[0] == '"' then s[..1 + StringStop(s[1..])] + Stripped(s[1 + StringStop(s[1..])..])
    else if WhiteSpace(s[0]) then Stripped(s[1..])
    else [s[0]] + Stripped(s[1..])
  }

  lemma {:induction false} StrippedSpaces(ws: string, s: string)
    requires Spaces(ws)
    ensures Stripped(ws + s) == Stripped(s)
  {
    if ws == "" {
      assert ws + s == s;
    } else {
      assert (ws + s)[1..] == ws[1..] + s;
      StrippedSpaces(ws[1..], s);
    }
  }

  /** Text without quotes and white space is kept. */
  lemma {:induction false} StrippedPlain(a: string, s: string)
    requires forall i :: 0 <= i < |a| ==> a[i] != '"' && !WhiteSpace(a[i])
    ensures Stripped(a + s) == a + Stripped(s)
  {
    if a == "" {
      assert a + s == s && a + Stripped(s) == Stripped(s);
    } else {
      assert (a + s)[1..] == a[1..] + s;
      StrippedPlain(a[1..], s);
      assert [a[0]] + (a[1..] + Stripped(s)) == a + Stripped(s);
    }
  }

  lemma {:induction false} EscapeStops(c: char, rest: string)
    ensures StringStop(EscapeOf(c) + rest) == |EscapeOf(c)| + StringStop(rest)
  {
    hide Hex;
    var s := EscapeOf(c) + rest;
    if Verbatim(c) {
      assert s[1..] == rest;
    } else if |EscapeOf(c)| == 2 {
      assert s[2..] == rest;
    } else {
      HexIsPlain();
      var u := UnicodeEscape(c);
      assert s == u + rest;
      assert s[2..] == [u[2]] + ([u[3]] + ([u[4]] + ([u[5]] + rest)));
      OneStop(u[2], [u[3]] + ([u[4]] + ([u[5]] + rest)));
      OneStop(u[3], [u[4]] + ([u[5]] + rest));
      OneStop(u[4], [u[5]] + rest);
      OneStop(u[5], rest);
    }
  }

  lemma {:induction false} HexIsPlain()
    ensures forall n: nat :: n < 16 ==> Hex(n) != '"' && Hex(n) != '\\'
  {
  }

  lemma {:induction false} OneStop(c: char, rest: string)
    requires c != '"' && c != '\\'
    ensures StringStop([c] + rest) == 1 + StringStop(rest)
  {
    assert ([c] + rest)[1..] == rest;
  }

  lemma {:induction false} EscapedStops(s: string, rest: string)
    ensures StringStop(Escaped(s) + ("\"" + rest)) == |Escaped(s)| + 1
  {
    hide EscapeOf;
    if s == "" {
      assert Escaped(s) + ("\"" + rest) == "\"" + rest;
    } else {
      EscapedStops(s[1..], rest);
      EscapeStops(s[0], Escaped(s[1..]) + ("\"" + rest));
      assert EscapeOf(s[0]) + (Escaped(s[1..]) + ("\"" + rest)) == Escaped(s) + ("\"" + rest);
    }
  }

  lemma {:induction false} StrippedQuoted(s: string, n: nat)
    requires s != "" && s[0] == '"' && n == 1 + StringStop(s[1..])
    ensures Stripped(s) == s[..n] + Stripped(s[n..])
  {
    hide StringStop;
  }

  /** A string is kept as it is written. */
  lemma {:induction false} StrippedString(t: string, s: string)
    ensures Stripped(WrittenString(t) + s) == WrittenString(t) + Stripped(s)
  {
    hide StringStop, Escaped, Stripped;
    var all, n := WrittenString(t) + s, |WrittenString(t)|;
    EscapedStops(t, s);
    assert all[1..] == Escaped(t) + ("\"" + s);
    assert all[..n] == WrittenString(t) && all[n..] == s;
    StrippedQuoted(all, n);
  }

  /** Without its white space a value's text is the compact one. */
  lemma {:induction false} ValueStripped(v: Json, write: real -> string, read: string -> Outcome<real>, indent: string, prefix: string, s: string)
    requires NumbersReadBack(v, write, read) && Spaces(indent) && Spaces(prefix)
    ensures Stripped(Written(v, write, indent, prefix) + s) == Written(v, write, "", "") + Stripped(s)
    decreases v, 1
  {
    hide WrittenItems, WrittenMembers, WrittenString, NewLine, Stripped, NumbersReadBack, IsNumber;
    WrittenIs(v, write, indent, prefix);
    WrittenIs(v, write, "", "");
    match v {
      case Null => StrippedPlain("null", s);
      case Bool(b) => StrippedPlain(if b then "true" else "false", s);
      case Number(x) =>
        NumberBack(x, write, read);
        NumberChars(write(x));
        StrippedPlain(write(x), s);
      case Str(t) => StrippedString(t, s);
      case Arr(items) =>
        var inner, nl := prefix + indent, if items == [] then "" else NewLine(indent, prefix);
        NewLineIsSpace(indent, prefix);
        Around("[", WrittenItems(items, write, indent, inner), nl, "]", s);
        StrippedPlain("[", WrittenItems(items, write, indent, inner) + (nl + ("]" + s)));
        ItemsStripped(items, write, read, indent, inner, nl + ("]" + s));
        StrippedSpaces(nl, "]" + s);
        StrippedPlain("]", s);
        CompactNewLine();
        Around("[", WrittenItems(items, write, "", ""), "", "]", Stripped(s));
      case Obj(members) =>
        var inner, nl := prefix + indent, if members == [] then "" else NewLine(indent, prefix);
        NewLineIsSpace(indent, prefix);
        Around("{", WrittenMembers(members, write, indent, inner), nl, "}", s);
        StrippedPlain("{", WrittenMembers(members, write, indent, inner) + (nl + ("}" + s)));
        MembersStripped(members, write, read, indent, inner, nl + ("}" + s));
        StrippedSpaces(nl, "}" + s);
        StrippedPlain("}", s);
        CompactNewLine();
        Around("{", WrittenMembers(members, write, "", ""), "", "}", Stripped(s));
    }
  }

  lemma {:induction false} CompactNewLine()
    ensures NewLine("", "") == "" && "" + "" == ""
  {
  }

  lemma {:induction false} Around(a: string, b: string, c: string, d: string, s: string)
    ensures a + b + c + d + s == a + (b + (c + (d + s)))
    ensures c == "" ==> a + b + c + d + s == a + (b + (d + s))
  {
  }

  lemma {:induction false} ItemsStripped(items: seq<Json>, write: real -> string, read: string -> Outcome<real>, indent: string, inner: string,
                                         s: string)
    requires NumbersReadBack(Arr(items), write, read) && Spaces(indent) && Spaces(inner)
    ensures Stripped(WrittenItems(items, write, indent, inner) + s) == WrittenItems(items, write, "", "") + Stripped(s)
    decreases items, 0
  {
    hide Written, NewLine, Stripped, NumbersReadBack;
    NoItems(write, indent, inner);
    NoItems(write, "", "");
    if items == [] {
      assert "" + s == s && "" + Stripped(s) == Stripped(s);
    } else {
      ItemNumbers(items, write, read);
      var nl, first, more := NewLine(indent, inner), Written(items[0], write, indent, inner), WrittenItems(items[1..], write, indent, inner);
      var sep := if |items| > 1 then "," else "";
      NewLineIsSpace(indent, inner);
      assert WrittenItems(items, write, indent, inner) + s == nl + (first + (sep + (more + s)));
      StrippedSpaces(nl, first + (sep + (more + s)));
      ValueStripped(items[0], write, read, indent, inner, sep + (more + s));
      StrippedPlain(sep, more + s);
      ItemsStripped(items[1..], write, read, indent, inner, s);
      CompactNewLine();
      var tight, rest := Written(items[0], write, "", ""), WrittenItems(items[1..], write, "", "");
      assert "" + tight + (sep + rest) + Stripped(s) == tight + (sep + (rest + Stripped(s)));
    }
  }

  lemma {:induction false} MembersStripped(members: seq<Member>, write: real -> string, read: string -> Outcome<real>, indent: string, inner: string,
                                           s: string)
    requires NumbersReadBack(Obj(members), write, read) && Spaces(indent) && Spaces(inner)
    ensures Stripped(WrittenMembers(members, write, indent, inner) + s) == WrittenMembers(members, write, "", "") + Stripped(s)
    decreases members, 0
  {
    hide WrittenMember, Stripped, NumbersReadBack;
    NoMembers(write, indent, inner);
    NoMembers(write, "", "");
    if members == [] {
      assert "" + s == s && "" + Stripped(s) == Stripped(s);
    } else {
      MemberNumbers(members, write, read);
      var first, more := WrittenMember(members[0], write, indent, inner), WrittenMembers(members[1..], write, indent, inner);
      var sep := if |members| > 1 then "," else "";
      assert WrittenMembers(members, write, indent, inner) + s == first + (sep + (more + s));
      MemberStripped(members[0], write, read, indent, inner, sep + (more + s));
      StrippedPlain(sep, more + s);
      MembersStripped(members[1..], write, read, indent, inner, s);
      var tight, rest := WrittenMember(members[0], write, "", ""), WrittenMembers(members[1..], write, "", "");
      assert tight + (sep + rest) + Stripped(s) == tight + (sep + (rest + Stripped(s)));
    }
  }

  lemma {:induction false} MemberStripped(m: Member, write: real -> string, read: string -> Outcome<real>, indent: string, inner: string, s: string)
    requires NumbersReadBack(m.value, write, read) && Spaces(indent) && Spaces(inner)
    ensures Stripped(WrittenMember(m, write, indent, inner) + s) == WrittenMember(m, write, "", "") + Stripped(s)
    decreases m, 2
  {
    hide Written, NewLine, Stripped, NumbersReadBack, WrittenString;
    var nl, key, colon, value := NewLine(indent, inner), WrittenString(m.key), Colon(indent), Written(m.value, write, indent, inner);
    NewLineIsSpace(indent, inner);
    assert WrittenMember(m, write, indent, inner) + s == nl + (key + (colon + (value + s)));
    StrippedSpaces(nl, key + (colon + (value + s)));
    StrippedString(m.key, colon + (value + s));
    StrippedColon(indent, value + s);
    ValueStripped(m.value, write, read, indent, inner, s);
    CompactNewLine();
    var tight := Written(m.value, write, "", "");
    assert "" + key + ":" + tight + Stripped(s) == key + (":" + (tight + Stripped(s)));
  }

  lemma {:induction false} StrippedColon(indent: string, s: string)
    ensures Stripped(Colon(indent) + s) == ":" + Stripped(s)
  {
    hide Stripped;
    if indent == "" {
      StrippedPlain(":", s);
    } else {
      assert ": " + s == ":" + (" " + s);
      StrippedPlain(":", " " + s);
      StrippedSpaces(" ", s);
    }
  }

  /** The indented form is the compact one but for white space outside strings. */
  lemma {:induction false} FormsDifferInSpaceAlone(v: Json, write: real -> string, read: string -> Outcome<real>, indent: string)
    requires NumbersReadBack(v, write, read) && Spaces(indent)
    ensures Stripped(Written(v, write, indent, "")) == Written(v, write, "", "")
  {
    hide Written, NumbersReadBack;
    ValueStripped(v, write, read, indent, "", "");
    assert Written(v, write, indent, "") + "" == Written(v, write, indent, "");
    assert Written(v, write, "", "") + Stripped("") == Written(v, write, "", "");
  }
}
