/**
 Integers as commands print them (pkg/convert/convert.go, Int and Ungroup; pkg/engine/fields.go, convertScalar and wideInt): they are
 read as machine integers, those that are too large for that by their digits, and either way as the number they write.
 */
module Integers {
  import opened Lines
  import opened Texts
  import opened Durations

  // ----- one integer -----

  function Sign(t: string): string {
    if t != "" && t[0] in {'+', '-'} then t[..1] else ""
  }

  function Unsigned(t: string): string {
    t[|Sign(t)|..]
  }

  function SignedValue(sign: string, n: nat): int {
    var value: int := n;
    if sign == "-" then -value else value
  }

  /** What reading a machine integer comes to. */
  datatype Read = Whole(n: int) | TooLarge | NoInteger

  /** strconv.ParseInt of 64 bits. Where other characters follow more digits than that holds it may also say that the
      number is too large, which comes to the same. */
  function ParseInt(t: string): Read {
    if !AllDigits(Unsigned(t)) then NoInteger
    else
      var n := SignedValue(Sign(t), Decimal(Unsigned(t)));
      if -0x8000_0000_0000_0000 <= n < 0x8000_0000_0000_0000 then Whole(n) else TooLarge
  }

  function TrimZeros(s: string): string {
    if s != "" && s[0] == '0' then TrimZeros(s[1..]) else s
  }

  /** The number that digits write, however many they are (wideInt). */
  function WideInt(s: string): Outcome<int> {
    var t := TrimSpace(s);
    var digits := if t != "" && t[0] == '-' then t[1..] else if t != "" && t[0] == '+' then t[1..] else t;
    if !AllDigits(digits) then Refused
    else
      var rest := TrimZeros(digits);
      if rest == "" then Ok(0)
      else Ok(SignedValue(t[..1], Decimal(rest)))
  }

  // ----- groups of digits -----

  predicate WellMade(g: string, first: bool) {
    (if first then 1 <= |g| <= 3 else |g| == 3) && forall j :: 0 <= j < |g| ==> IsDigit(g[j])
  }

  predicate WellGrouped(groups: seq<string>) {
    forall i :: 0 <= i < |groups| ==> WellMade(groups[i], i == 0)
  }

  function Joined(groups: seq<string>): string {
    if groups == [] then "" else Joined(groups[..|groups| - 1]) + groups[|groups| - 1]
  }

  /** The separators between groups of three digits taken out (Ungroup). */
  function Ungroup(s: string, sep: char): Outcome<string> {
    var t := TrimSpace(s);
    if sep !in t then Ok(s)
    else
      var u := Unsigned(t);
      var n := if sep == '.' then |u| else IndexOf(u, '.');
      var groups := SplitOn(u[..n], sep);
      if sep in u[n..] || |groups| < 2 || !WellGrouped(groups) then Refused
      else Ok(Sign(t) + Joined(groups) + u[n..])
  }

  /** An integer field's value (convertScalar). */
  function ReadInt(s: string, sep: Option<char>): Outcome<int> {
    var t :- if sep.None? then Ok(s) else Ungroup(s, sep.value);
    match ParseInt(TrimSpace(t))
    case Whole(n) => Ok(n)
    case TooLarge => WideInt(t)
    case NoInteger => Refused
  }

  // ----- what is read -----

  /** An integer with its sign, if it has one, and nothing else. */
  function Signed(t: string): Outcome<int> {
    if AllDigits(Unsigned(t)) then Ok(SignedValue(Sign(t), Decimal(Unsigned(t)))) else Refused
  }

  lemma {:induction false} ZeroInFront(s: string)
    ensures Decimal("0" + s) == Decimal(s)
  {
    if s == "" {
      assert "0" + s == "0" && "0"[..0] == "";
    } else {
      var n := |s| - 1;
      ZeroInFront(s[..n]);
      assert ("0" + s)[..n + 1] == "0" + s[..n];
    }
  }

  lemma {:induction false} ZerosDoNotCount(s: string)
    ensures Decimal(TrimZeros(s)) == Decimal(s)
  {
    if s != "" && s[0] == '0' {
      ZerosDoNotCount(s[1..]);
      ZeroInFront(s[1..]);
      assert s == "0" + s[1..];
    }
  }

  /** No integer is too large: whichever way it is read, it is the number that its sign and digits write, and nothing
      else is read. */
  lemma {:induction false} ReadsExactly(s: string)
    ensures ReadInt(s, None) == Signed(TrimSpace(s))
  {
    hide TrimSpace, Decimal, AllDigits, TrimZeros;
    var t := TrimSpace(s);
    ZerosDoNotCount(Unsigned(t));
    if Decimal(TrimZeros(Unsigned(t))) != Decimal("") {
      assert TrimZeros(Unsigned(t)) != "";
    }
    NoDigits();
  }

  lemma {:induction false} NoDigits()
    ensures Decimal("") == 0 && !AllDigits("")
  {
  }

  // ----- the number that is written is the one that is read -----

  predicate AllSpace(s: string) {
    forall i :: 0 <= i < |s| ==> IsSpace(s[i])
  }

  lemma {:induction false} TrimmedLeft(before: string, s: string)
    requires AllSpace(before) && s != "" && !IsSpace(s[0])
    ensures TrimLeft(before + s) == s
  {
    if before == "" {
      assert before + s == s;
    } else {
      assert (before + s)[1..] == before[1..] + s;
      TrimmedLeft(before[1..], s);
    }
  }

  lemma {:induction false} TrimmedRight(s: string, after: string)
    requires AllSpace(after) && s != "" && !IsSpace(s[|s| - 1])
    ensures TrimRight(s + after) == s
  {
    if after == "" {
      assert s + after == s;
    } else {
      var n := |after| - 1;
      assert (s + after)[..|s| + n] == s + after[..n];
      TrimmedRight(s, after[..n]);
    }
  }

  lemma {:induction false} Trimmed(before: string, s: string, after: string)
    requires AllSpace(before) && AllSpace(after) && s != "" && !IsSpace(s[0]) && !IsSpace(s[|s| - 1])
    ensures TrimSpace(before + s + after) == s
  {
    assert before + s + after == before + (s + after) && (s + after)[0] == s[0];
    TrimmedLeft(before, s + after);
    TrimmedRight(s, after);
  }

  /** A text of white space alone is blank, and no other text is: there is something that is not trimmed. */
  lemma {:induction false} BlankIsAllSpace(s: string)
    ensures Blank(s) <==> AllSpace(s)
  {
    hide IsSpace;
    if AllSpace(s) {
      SpaceIsTrimmed(s);
    } else {
      var i :| 0 <= i < |s| && !IsSpace(s[i]);
      TrimKeeps(s, i);
    }
  }

  lemma {:induction false} SpaceIsTrimmed(s: string)
    requires AllSpace(s)
    ensures TrimSpace(s) == ""
  {
    hide IsSpace;
    if s != "" {
      SpaceIsTrimmed(s[1..]);
    }
  }

  lemma {:induction false} DigitsReadBack(n: nat)
    ensures AllDigits(DigitsOf(n)) && Decimal(DigitsOf(n)) == n
  {
    var s, digits := DigitsOf(n), "0123456789";
    assert forall k :: 0 <= k < 10 ==> IsDigit(digits[k]) && Digit(digits[k]) == k;
    if n < 10 {
      assert s[..0] == "";
    } else {
      DigitsReadBack(n / 10);
      assert s[..|s| - 1] == DigitsOf(n / 10);
    }
  }

  /** How a number is written: a sign or none, and digits, with zeros in front or not. */
  ghost predicate Writes(t: string, n: int) {
    exists sign, digits :: IsWritten(t, n, sign, digits)
  }

  predicate IsWritten(t: string, n: int, sign: string, digits: string) {
    sign in {"", "+", "-"} && AllDigits(digits) && t == sign + digits && n == SignedValue(sign, Decimal(digits))
  }

  lemma {:induction false} WrittenIsSigned(t: string, n: int, sign: string, digits: string)
    requires IsWritten(t, n, sign, digits)
    ensures Sign(t) == sign && Unsigned(t) == digits && Signed(t) == Ok(n)
    ensures t != "" && !IsSpace(t[0]) && !IsSpace(t[|t| - 1])
  {
    hide Decimal, IsSpace;
    assert t[|sign|..] == digits;
    assert IsDigit(digits[0]) && IsDigit(digits[|digits| - 1]);
    assert t[|t| - 1] == digits[|digits| - 1] && t[0] == if sign == "" then digits[0] else sign[0];
    NoSpaceInNumbers(t[0]);
    NoSpaceInNumbers(t[|t| - 1]);
  }

  lemma {:induction false} NoSpaceInNumbers(c: char)
    requires IsDigit(c) || c in {'+', '-', '.'}
    ensures !IsSpace(c)
  {
  }

  /** A number reads back from any way to write it, whatever white space stands around it. */
  lemma {:induction false} IntegerReadsBack(n: int, t: string, before: string, after: string)
    requires Writes(t, n) && AllSpace(before) && AllSpace(after)
    ensures ReadInt(before + t + after, None) == Ok(n)
  {
    hide ReadInt, TrimSpace, IsSpace, Sign, Unsigned, Signed;
    var sign, digits :| IsWritten(t, n, sign, digits);
    WrittenIsSigned(t, n, sign, digits);
    Trimmed(before, t, after);
    ReadsExactly(before + t + after);
  }

  // ----- digits in groups -----

  /** Digits in groups of three from the right. */
  function Grouped(d: string, sep: char): string {
    if |d| <= 3 then d else Grouped(d[..|d| - 3], sep) + [sep] + d[|d| - 3..]
  }

  function Groups(d: string): seq<string> {
    if |d| <= 3 then [d] else Groups(d[..|d| - 3]) + [d[|d| - 3..]]
  }

  /** A separator is no part of a number. */
  predicate Separates(sep: char) {
    !IsDigit(sep) && sep !in {'+', '-'}
  }

  lemma {:induction false} NoneInDigits(d: string, sep: char)
    requires AllDigits(d) && !IsDigit(sep)
    ensures sep !in d
  {
  }

  /** A text without the separator, behind one, is a part of its own. */
  lemma {:induction false} SplitLast(a: string, b: string, sep: char)
    requires sep !in b
    ensures SplitOn(a + [sep] + b, sep) == SplitOn(a, sep) + [b]
    decreases |a|
  {
    var all := a + [sep] + b;
    var n := IndexOf(a, sep);
    assert forall i :: 0 <= i < |a| ==> all[i] == a[i];
    assert all[|a|] == sep;
    assert IndexOf(all, sep) == n;
    if n == |a| {
      assert all[..n] == a && all[n + 1..] == b;
      assert IndexOf(b, sep) == |b|;
      assert SplitOn(b, sep) == [b];
    } else {
      assert all[n + 1..] == a[n + 1..] + [sep] + b && all[..n] == a[..n];
      SplitLast(a[n + 1..], b, sep);
      assert [a[..n]] + (SplitOn(a[n + 1..], sep) + [b]) == ([a[..n]] + SplitOn(a[n + 1..], sep)) + [b];
    }
  }

  /** Digits in groups are cut into those groups. */
  lemma {:induction false} GroupsAreCut(d: string, sep: char)
    requires AllDigits(d) && !IsDigit(sep)
    ensures SplitOn(Grouped(d, sep), sep) == Groups(d)
  {
    hide SplitOn, IndexOf;
    if |d| <= 3 {
      NoneInDigits(d, sep);
      OnePart(d, sep);
    } else {
      var a, b := d[..|d| - 3], d[|d| - 3..];
      GroupsAreCut(a, sep);
      NoneInDigits(b, sep);
      SplitLast(Grouped(a, sep), b, sep);
    }
  }

  /** They hold the digits. */
  lemma {:induction false} GroupsHoldTheDigits(d: string)
    ensures Joined(Groups(d)) == d && |Groups(d)| >= 1
    ensures |Groups(d)| >= 2 <==> |d| > 3
  {
    if |d| <= 3 {
      assert [d][..0] == [] && "" + d == d;
    } else {
      var a, b := d[..|d| - 3], d[|d| - 3..];
      GroupsHoldTheDigits(a);
      assert (Groups(a) + [b])[..|Groups(a)|] == Groups(a);
      assert a + b == d;
    }
  }

  /** They are well made. */
  lemma {:induction false} GroupsAreWellMade(d: string)
    requires AllDigits(d)
    ensures WellGrouped(Groups(d))
  {
    hide AllDigits;
    if |d| <= 3 {
      DigitsAreWellMade(d);
    } else {
      var a, b := d[..|d| - 3], d[|d| - 3..];
      PartsAreDigits(d, |d| - 3);
      GroupsAreWellMade(a);
      GroupsHoldTheDigits(a);
      DigitsAreWellMade(b);
      OneGroupMore(Groups(a), b);
    }
  }

  lemma {:induction false} DigitsAreWellMade(d: string)
    requires AllDigits(d) && |d| <= 3
    ensures WellMade(d, true) && (|d| == 3 ==> WellMade(d, false))
  {
  }

  lemma {:induction false} PartsAreDigits(d: string, n: nat)
    requires AllDigits(d) && 0 < n < |d|
    ensures AllDigits(d[..n]) && AllDigits(d[n..])
  {
  }

  lemma {:induction false} OneGroupMore(groups: seq<string>, g: string)
    requires WellGrouped(groups) && groups != [] && WellMade(g, false)
    ensures WellGrouped(groups + [g])
  {
    hide IsDigit;
  }

  lemma {:induction false} OnePart(s: string, sep: char)
    requires sep !in s
    ensures SplitOn(s, sep) == [s]
  {
    assert IndexOf(s, sep) == |s|;
  }

  lemma {:induction false} NoDotIn(s: string, sep: char)
    requires forall i :: 0 <= i < |s| ==> IsDigit(s[i]) || s[i] == sep
    ensures sep != '.' ==> IndexOf(s, '.') == |s|
  {
  }

  lemma {:induction false} GroupedIsDigits(d: string, sep: char)
    requires AllDigits(d)
    ensures
      var u := Grouped(d, sep);
      && u != "" && IsDigit(u[0]) && IsDigit(u[|u| - 1])
      && (forall i :: 0 <= i < |u| ==> IsDigit(u[i]) || u[i] == sep)
      && (|d| > 3 ==> sep in u) && (|d| <= 3 ==> u == d)
  {
    if |d| > 3 {
      var a := Grouped(d[..|d| - 3], sep);
      GroupedIsDigits(d[..|d| - 3], sep);
      assert Grouped(d, sep)[|a|] == sep;
    }
  }

  /** What is cut where the separator stands. */
  lemma {:induction false} Ungrouped(s: string, sign: string, digits: string, sep: char)
    requires sign in {"", "+", "-"} && AllDigits(digits) && Separates(sep) && |digits| > 3
    requires TrimSpace(s) == sign + Grouped(digits, sep)
    ensures Ungroup(s, sep) == Ok(sign + digits)
  {
    hide SplitOn, IndexOf, TrimSpace, WellGrouped, Joined, Groups, Grouped, AllDigits;
    var u, t := Grouped(digits, sep), sign + Grouped(digits, sep);
    GroupsAreCut(digits, sep);
    GroupsAreWellMade(digits);
    GroupsHoldTheDigits(digits);
    GroupedIsDigits(digits, sep);
    assert t[|sign|..] == u;
    assert Sign(t) == sign && Unsigned(t) == u;
    InBehind(sign, u, sep);
    NoDotIn(u, sep);
    assert u[..|u|] == u && u[|u|..] == "" && sign + digits + "" == sign + digits;
  }

  lemma {:induction false} InBehind(a: string, b: string, c: char)
    ensures c in a + b <==> c in a || c in b
  {
    assert forall i :: 0 <= i < |b| ==> (a + b)[|a| + i] == b[i];
  }

  /** A number whose digits stand in groups of three reads back too. */
  lemma {:induction false} GroupsReadBack(n: int, sign: string, digits: string, sep: char, before: string, after: string)
    requires IsWritten(sign + digits, n, sign, digits) && Separates(sep) && AllSpace(before) && AllSpace(after)
    ensures ReadInt(before + (sign + Grouped(digits, sep)) + after, Some(sep)) == Ok(n)
  {
    hide TrimSpace, Grouped, Decimal, ReadInt, Ungroup, AllSpace, IsSpace, AllDigits;
    var u, t := Grouped(digits, sep), sign + Grouped(digits, sep);
    var s := before + t + after;
    if |digits| > 3 {
      GroupedEnds(sign, digits, sep);
      Trimmed(before, t, after);
      Ungrouped(s, sign, digits, sep);
      WithoutPadding(n, sign + digits);
      Unseparated(s, sep, sign + digits);
    } else {
      GroupedIsDigits(digits, sep);
      IntegerReadsBack(n, t, before, after);
      WrittenIsSigned(t, n, sign, digits);
      Trimmed(before, t, after);
      NoneInDigits(digits, sep);
      InBehind(sign, digits, sep);
      NotGrouped(s, sep);
      Unseparated(s, sep, s);
    }
  }

  lemma {:induction false} GroupedEnds(sign: string, digits: string, sep: char)
    requires sign in {"", "+", "-"} && AllDigits(digits)
    ensures
      var t := sign + Grouped(digits, sep);
      t != "" && !IsSpace(t[0]) && !IsSpace(t[|t| - 1])
  {
    hide Grouped, IsSpace;
    var u := Grouped(digits, sep);
    var t := sign + u;
    GroupedIsDigits(digits, sep);
    assert t[|t| - 1] == u[|u| - 1] && t[0] == if sign == "" then u[0] else sign[0];
    NoSpaceInNumbers(t[0]);
    NoSpaceInNumbers(t[|t| - 1]);
  }

  lemma {:induction false} WithoutPadding(n: int, t: string)
    requires Writes(t, n)
    ensures ReadInt(t, None) == Ok(n)
  {
    hide ReadInt, Writes;
    assert "" + t + "" == t;
    IntegerReadsBack(n, t, "", "");
  }

  lemma {:induction false} NotGrouped(s: string, sep: char)
    requires sep !in TrimSpace(s)
    ensures Ungroup(s, sep) == Ok(s)
  {
  }

  lemma {:induction false} Unseparated(s: string, sep: char, t: string)
    requires Ungroup(s, sep) == Ok(t)
    ensures ReadInt(s, Some(sep)) == ReadInt(t, None)
  {
    hide Ungroup, ParseInt, WideInt;
  }

  // ----- nothing else is taken for groups -----

  /** The parts with the separator between them. */
  function Between(groups: seq<string>, sep: char): string
    requires groups != []
  {
    var n := |groups| - 1;
    if n == 0 then groups[0] else Between(groups[..n], sep) + [sep] + groups[n]
  }

  lemma {:induction false} BetweenCons(part: string, rest: seq<string>, sep: char)
    requires rest != []
    ensures Between([part] + rest, sep) == part + [sep] + Between(rest, sep)
  {
    var n := |rest| - 1;
    var all := [part] + rest;
    assert all[..n + 1] == [part] + rest[..n];
    if n == 0 {
      assert all[..1] == [part];
    } else {
      BetweenCons(part, rest[..n], sep);
    }
  }

  lemma {:induction false} PartsAreBetween(s: string, sep: char)
    ensures Between(SplitOn(s, sep), sep) == s
    decreases |s|
  {
    hide Between;
    var n := IndexOf(s, sep);
    if n == |s| {
      OneBetween(s, sep);
    } else {
      PartsAreBetween(s[n + 1..], sep);
      BetweenCons(s[..n], SplitOn(s[n + 1..], sep), sep);
      assert s == s[..n] + [sep] + s[n + 1..];
    }
  }

  lemma {:induction false} OneBetween(s: string, sep: char)
    ensures Between([s], sep) == s
  {
  }

  /** Groups that are well made are the digits they hold, in groups. */
  lemma {:induction false} WellMadeIsGrouped(groups: seq<string>, sep: char)
    requires groups != [] && WellGrouped(groups)
    ensures AllDigits(Joined(groups)) && Between(groups, sep) == Grouped(Joined(groups), sep)
    ensures |groups| > 1 ==> |Joined(groups)| > 3
  {
    var n := |groups| - 1;
    var d := Joined(groups);
    if n == 0 {
      assert groups[..0] == [] && d == "" + groups[0] == groups[0];
    } else {
      WellMadeIsGrouped(groups[..n], sep);
      assert d[..|d| - 3] == Joined(groups[..n]) && d[|d| - 3..] == groups[n];
    }
  }

  /** Where the separator stands in a text, it is an integer exactly when it is its digits in groups of three. */
  lemma {:induction false} GroupsExactly(s: string, sep: char)
    requires Separates(sep) && sep in TrimSpace(s)
    ensures
      var t := TrimSpace(s);
      ReadInt(s, Some(sep)).Ok? <==> exists digits :: AllDigits(digits) && |digits| > 3 && Unsigned(t) == Grouped(digits, sep)
  {
    hide TrimSpace, Grouped, Decimal, WellGrouped, Joined, SplitOn, IndexOf, IsSpace, TrimZeros, Between;
    var t := TrimSpace(s);
    SignIsOne(t);
    if digits :| AllDigits(digits) && |digits| > 3 && Unsigned(t) == Grouped(digits, sep) {
      Ungrouped(s, Sign(t), digits, sep);
      WithoutPadding(SignedValue(Sign(t), Decimal(digits)), Sign(t) + digits) by {
        assert IsWritten(Sign(t) + digits, SignedValue(Sign(t), Decimal(digits)), Sign(t), digits);
      }
      Unseparated(s, sep, Sign(t) + digits);
    }
    if ReadInt(s, Some(sep)).Ok? {
      ReadIsGrouped(s, sep);
    }
  }

  lemma {:induction false} SignIsOne(t: string)
    ensures Sign(t) in {"", "+", "-"} && t == Sign(t) + Unsigned(t)
  {
    if t != "" {
      assert t[..1] == [t[0]];
    }
  }

  lemma {:induction false} ReadIsGrouped(s: string, sep: char)
    requires Separates(sep) && sep in TrimSpace(s) && ReadInt(s, Some(sep)).Ok?
    ensures exists digits :: AllDigits(digits) && |digits| > 3 && Unsigned(TrimSpace(s)) == Grouped(digits, sep)
  {
    hide TrimSpace, Grouped, Decimal, WellGrouped, Joined, SplitOn, IndexOf, IsSpace, TrimZeros, Between, ParseInt, WideInt;
    var t := TrimSpace(s);
    var u := Unsigned(t);
    var n := if sep == '.' then |u| else IndexOf(u, '.');
    var groups := SplitOn(u[..n], sep);
    PartsAreBetween(u[..n], sep);
    WellMadeIsGrouped(groups, sep);
    if n < |u| {
      // A fraction is no part of an integer.
      var v := Ungroup(s, sep).value;
      assert v == Sign(t) + Joined(groups) + u[n..];
      assert v[|Sign(t)| + |Joined(groups)|] == '.';
      Unseparated(s, sep, v);
      DotIsNoInteger(v, |Sign(t)| + |Joined(groups)|);
    }
    assert u[..n] == u;
  }

  lemma {:induction false} DotIsNoInteger(v: string, i: nat)
    requires i < |v| && v[i] == '.'
    ensures ReadInt(v, None).Refused?
  {
    hide TrimSpace, Decimal, IsSpace, ReadInt;
    ReadsExactly(v);
    var t := TrimSpace(v);
    NoSpaceInNumbers('.');
    TrimKeeps(v, i);
    var k :| 0 <= k < |t| && t[k] == '.';
    DotInside(t, k);
  }

  lemma {:induction false} DotInside(t: string, k: nat)
    requires k < |t| && t[k] == '.'
    ensures !AllDigits(Unsigned(t))
  {
    if |Sign(t)| > 0 {
      assert t[0] != '.';
    }
    assert Unsigned(t)[k - |Sign(t)|] == '.';
  }

  lemma {:induction false} TrimKeeps(s: string, i: nat)
    requires i < |s| && !IsSpace(s[i])
    ensures s[i] in TrimSpace(s)
  {
    hide IsSpace;
    TrimLeftKeeps(s, i);
    var t := TrimLeft(s);
    var k :| 0 <= k < |t| && t[k] == s[i];
    TrimRightKeeps(t, k);
  }

  lemma {:induction false} TrimLeftKeeps(s: string, i: nat)
    requires i < |s| && !IsSpace(s[i])
    ensures s[i] in TrimLeft(s)
  {
    hide IsSpace;
    if IsSpace(s[0]) {
      TrimLeftKeeps(s[1..], i - 1);
    }
  }

  lemma {:induction false} TrimRightKeeps(s: string, i: nat)
    requires i < |s| && !IsSpace(s[i])
    ensures s[i] in TrimRight(s)
  {
    hide IsSpace;
    if IsSpace(s[|s| - 1]) {
      TrimRightKeeps(s[..|s| - 1], i);
    }
  }
}
