/**
 Lengths of time (pkg/convert/convert.go): the readings of a clock that most rows hold are added up as machine
 integers, and every other spelling as an exact fraction. The two never disagree.
 */
module Durations {
  import opened Lines
  import opened Texts
  import opened Arguments

  /** How a reading of two parts is meant: "h:mm", "m:ss", another layout, or none stated. */
  datatype Layout = HourMinute | MinuteSecond | OtherLayout | NoLayout

  const MAX_SECONDS := 0x20_0000_0000_0000
  const MAX_INT64 := 0x7fff_ffff_ffff_ffff

  predicate IsDigit(c: char) {
    '0' <= c <= '9'
  }

  predicate AllDigits(s: string) {
    s != "" && forall i :: 0 <= i < |s| ==> IsDigit(s[i])
  }

  /** A run of digits with one dot in it (isDecimal). */
  predicate IsDecimal(s: string) {
    var n := IndexOf(s, '.');
    n < |s| && AllDigits(s[..n]) && AllDigits(s[n + 1..])
  }

  function Power10(n: nat): nat {
    if n == 0 then 1 else 10 * Power10(n - 1)
  }

  lemma {:induction false} PowerIsPositive(n: nat)
    ensures Power10(n) > 0
  {
    if n > 0 {
      PowerIsPositive(n - 1);
    }
  }

  /** The exact number a decimal writes (addDecimal). */
  function Exact(s: string): Outcome<real> {
    if AllDigits(s) then Ok(Decimal(s) as real)
    else if IsDecimal(s) then
      var n := IndexOf(s, '.');
      PowerIsPositive(|s| - n - 1);
      Ok(Decimal(s[..n]) as real + Decimal(s[n + 1..]) as real / Power10(|s| - n - 1) as real)
    else Refused
  }

  // ----- the exact reading -----

  /** The unit letter that ends a reading and the rest of it; no letter is '0', another letter is refused. */
  function TrailingUnit(t: string): Outcome<(char, string)> {
    if t == "" || IsDigit(t[|t| - 1]) then Ok(('0', t))
    else if t[|t| - 1] in {'m', 's', 'h'} then Ok((t[|t| - 1], t[..|t| - 1]))
    else Refused
  }

  /** The seconds of each of n parts, the smallest last. */
  function Units(n: nat, last: char, layout: Layout): (units: seq<nat>)
    requires n <= 3
    ensures |units| == n
  {
    var all :=
      if n == 2 && (last == 'm' || (layout.HourMinute? && last == '0')) then [3600, 60]
      else if n == 2 && (last == 's' || last == 'h' || layout.MinuteSecond? || layout.NoLayout?) then [60, 1]
      else if n == 1 then [if last == 'm' then 60 else if last == 'h' then 3600 else 1]
      else [3600, 60, 1];
    all[|all| - n..]
  }

  /** The first n parts added up; every part after the first is under 60. */
  function Added(parts: seq<string>, units: seq<nat>, n: nat): Outcome<real>
    requires n <= |parts| <= |units|
  {
    if n == 0 then Ok(0.0)
    else
      var before :- Added(parts, units, n - 1);
      var x :- Exact(parts[n - 1]);
      if n > 1 && x >= 60.0 then Refused else Ok(before + x * units[n - 1] as real)
  }

  /** The days in front of a clock reading, and the reading. */
  function LeadingDays(t: string): Outcome<(real, string)> {
    var i := IndexOf(t, '-');
    if i == |t| || i == 0 then Ok((0.0, t))
    else if !AllDigits(t[..i]) then Refused
    else Ok((Decimal(t[..i]) as real * 86400.0, t[i + 1..]))
  }

  /** What a colon-separated reading is worth in seconds. */
  function ClockValue(t: string, layout: Layout): Outcome<real> {
    var days :- LeadingDays(t);
    var unit :- TrailingUnit(days.1);
    var parts := SplitOn(unit.1, ':');
    if |parts| > 3 then Refused
    else
      var secs :- Added(parts, Units(|parts|, unit.0, layout), |parts|);
      Ok(days.0 + secs)
  }

  /** parseClock */
  method ParseClock(t: string, layout: Layout) returns (r: Outcome<real>)
    ensures r == ClockValue(t, layout)
  {
    hide IndexOf, AllDigits, Decimal, SplitOn, Exact, Units, IsDigit;
    var total := 0.0;
    var rest := t;
    var i := IndexOf(t, '-');
    if 0 < i < |t| {
      if !AllDigits(t[..i]) {
        return Refused;
      }
      total := total + Decimal(t[..i]) as real * 86400.0;
      rest := t[i + 1..];
    }
    var unit := TrailingUnit(rest);
    if unit.Refused? {
      return Refused;
    }
    var parts := SplitOn(unit.value.1, ':');
    if |parts| > 3 {
      return Refused;
    }
    var units := Units(|parts|, unit.value.0, layout);
    ghost var days := total;
    for k := 0 to |parts|
      invariant Added(parts, units, k).Ok? && total == days + Added(parts, units, k).value
    {
      var x := Exact(parts[k]);
      if x.Refused? || (k > 0 && x.value >= 60.0) {
        NotAdded(parts, units, k + 1);
        return Refused;
      }
      total := total + x.value * units[k] as real;
    }
    r := Ok(total);
  }

  lemma {:induction false} NotAdded(parts: seq<string>, units: seq<nat>, n: nat)
    requires n <= |parts| <= |units| && Added(parts, units, n).Refused?
    ensures Added(parts, units, |parts|).Refused?
    decreases |parts| - n
  {
    if n < |parts| {
      NotAdded(parts, units, n + 1);
    }
  }

  /** The spellings that are not clock readings: days in front of a comma, and numbers with their units. A text
      with no comma has no days in front of one. */
  datatype Spellings = Spellings(afterDays: string -> Option<Outcome<real>>, units: string -> Outcome<real>)

  /** parseDuration */
  function ParseDuration(t: string, layout: Layout, others: Spellings): Outcome<real> {
    if IndexOf(t, ',') < |t| && others.afterDays(t).Some? then others.afterDays(t).value
    else if IndexOf(t, ':') < |t| then ClockValue(t, layout)
    else others.units(t)
  }

  // ----- the fast reading -----

  /** One to twelve digits (smallWhole). */
  function SmallWhole(s: string): Option<nat> {
    if AllDigits(s) && |s| <= 12 then Some(Decimal(s)) else None
  }

  /** The two or three whole parts of a reading; None where they are not such. */
  function ClockNumbers(t: string): (ns: Option<seq<nat>>)
    ensures ns.Some? ==> 2 <= |ns.value| <= 3 && forall k :: 0 < k < |ns.value| ==> ns.value[k] < 60
  {
    var i := IndexOf(t, ':');
    if i == |t| then None
    else
      var rest := t[i + 1..];
      var j := IndexOf(rest, ':');
      var a, b := SmallWhole(t[..i]), SmallWhole(rest[..j]);
      if a.None? || b.None? || b.value >= 60 then None
      else if j == |rest| then Some([a.value, b.value])
      else
        var c := SmallWhole(rest[j + 1..]);
        if c.None? || c.value >= 60 then None else Some([a.value, b.value, c.value])
  }

  /** The parts in seconds. */
  function Weighed(ns: seq<nat>, layout: Layout): nat
    requires 2 <= |ns| <= 3
  {
    if |ns| == 3 then ns[0] * 3600 + ns[1] * 60 + ns[2]
    else if layout.HourMinute? then ns[0] * 3600 + ns[1] * 60
    else ns[0] * 60 + ns[1]
  }

  function ClockParts(t: string, layout: Layout): Option<nat> {
    var ns := ClockNumbers(t);
    if ns.None? then None else Some(Weighed(ns.value, layout))
  }

  /** The reading added up in 64 bits, or nothing where parseDuration is to read it (wholeClock). */
  function WholeClock(t: string, layout: Layout): (n: Option<nat>)
    ensures n.Some? ==> n.value <= MAX_SECONDS
  {
    var i := IndexOf(t, '-');
    var days := if i == |t| then Some(0) else SmallWhole(t[..i]);
    var secs := if days.None? then None else ClockParts(if i == |t| then t else t[i + 1..], layout);
    if secs.None? then None
    else
      var total := secs.value + days.value * 86400;
      if total > MAX_SECONDS then None else Some(total)
  }

  // ----- they agree -----

  lemma {:induction false} DecimalIsBelow(s: string)
    requires AllDigits(s)
    ensures Decimal(s) < Power10(|s|)
  {
    var n := |s| - 1;
    if n > 0 {
      DecimalIsBelow(s[..n]);
    }
  }

  lemma {:induction false} PowersGrow(m: nat, n: nat)
    requires m <= n
    ensures Power10(m) <= Power10(n)
    decreases n - m
  {
    if m < n {
      PowersGrow(m, n - 1);
      PowerIsPositive(n - 1);
    }
  }

  lemma {:induction false} SmallIsSmall(s: string)
    requires SmallWhole(s).Some?
    ensures SmallWhole(s).value < 1_000_000_000_000
  {
    DecimalIsBelow(s);
    PowersGrow(|s|, 12);
    assert Power10(12) == 100_0000 * Power10(6) && Power10(6) == 100_0000;
  }

  /** No sum the fast reading makes on its way runs over 64 bits. */
  lemma {:induction false} SumsFit(t: string, layout: Layout)
    ensures
      var i := IndexOf(t, '-');
      var days := if i == |t| then Some(0) else SmallWhole(t[..i]);
      var secs := ClockParts(if i == |t| then t else t[i + 1..], layout);
      days.Some? && secs.Some? ==> secs.value + days.value * 86400 <= MAX_INT64
  {
    hide SmallWhole, IndexOf;
    var i := IndexOf(t, '-');
    if i < |t| && SmallWhole(t[..i]).Some? {
      SmallIsSmall(t[..i]);
    }
    var u := if i == |t| then t else t[i + 1..];
    if ClockNumbers(u).Some? {
      SmallIsSmall(u[..IndexOf(u, ':')]);
    }
  }

  predicate DigitsOrColons(s: string) {
    forall i :: 0 <= i < |s| ==> IsDigit(s[i]) || s[i] == ':'
  }

  lemma {:induction false} DigitsBesideAColon(a: string, b: string)
    requires DigitsOrColons(a) && DigitsOrColons(b)
    ensures DigitsOrColons(a + ":" + b)
  {
    hide IsDigit;
  }

  lemma {:induction false} SmallIsDigits(s: string)
    requires SmallWhole(s).Some?
    ensures AllDigits(s) && SmallWhole(s).value == Decimal(s) && DigitsOrColons(s) && s != "" && IsDigit(s[|s| - 1])
  {
    hide Decimal;
  }

  /** Where a part of a split text ends, and what is behind it. */
  lemma {:induction false} SplitFirst(t: string)
    ensures
      var i := IndexOf(t, ':');
      && (i < |t| ==> SplitOn(t, ':') == [t[..i]] + SplitOn(t[i + 1..], ':') && t == t[..i] + ":" + t[i + 1..])
      && (i == |t| ==> SplitOn(t, ':') == [t] && t[..i] == t)
  {
    hide IndexOf;
  }

  lemma {:induction false} NoColonInDigits(s: string)
    requires AllDigits(s)
    ensures IndexOf(s, ':') == |s|
  {
    hide IndexOf;
    ColonIsNoDigit();
  }

  /** The parts of a text that stand for these numbers. */
  predicate Stand(parts: seq<string>, ns: seq<nat>) {
    |parts| == |ns| && forall k :: 0 <= k < |ns| ==> SmallWhole(parts[k]) == Some(ns[k])
  }

  /** A text the fast reading answers: its parts, and that nothing but digits and colons is in it. */
  lemma {:induction false} PartsOfClock(t: string)
    requires ClockNumbers(t).Some?
    ensures Stand(SplitOn(t, ':'), ClockNumbers(t).value)
    ensures t != "" && IsDigit(t[|t| - 1]) && DigitsOrColons(t) && IndexOf(t, ':') < |t|
  {
    hide SmallWhole, IsDigit, IndexOf, SplitOn, DigitsOrColons, AllDigits;
    var i := IndexOf(t, ':');
    var rest := t[i + 1..];
    var j := IndexOf(rest, ':');
    SplitFirst(t);
    SplitFirst(rest);
    SmallIsDigits(t[..i]);
    SmallIsDigits(rest[..j]);
    if j < |rest| {
      var third := rest[j + 1..];
      SmallIsDigits(third);
      NoColonInDigits(third);
      SplitFirst(third);
      DigitsBesideAColon(rest[..j], third);
      assert SplitOn(t, ':') == [t[..i], rest[..j], third];
      assert third[|third| - 1] == t[|t| - 1];
    } else {
      assert SplitOn(t, ':') == [t[..i], rest];
      assert rest[|rest| - 1] == t[|t| - 1];
    }
    DigitsBesideAColon(t[..i], rest);
  }

  lemma {:induction false} ColonIsNoDigit()
    ensures !IsDigit(':') && !IsDigit('-') && !IsDigit(',')
  {
  }

  lemma {:induction false} WholeIsExact(s: string)
    requires SmallWhole(s).Some?
    ensures Exact(s) == Ok(SmallWhole(s).value as real)
  {
  }

  /** Seconds in whole units are the same counted in either number type. */
  lemma {:induction false} Scaled(n: nat, unit: nat)
    requires unit in {1, 60, 3600}
    ensures n as real * unit as real == (n * unit) as real
  {
  }

  lemma {:induction false} AddedOnce(parts: seq<string>, units: seq<nat>, n: nat, before: nat)
    requires 0 < n <= |parts| <= |units| && units[n - 1] in {1, 60, 3600}
    requires Added(parts, units, n - 1) == Ok(before as real) && SmallWhole(parts[n - 1]).Some?
    requires n > 1 ==> SmallWhole(parts[n - 1]).value < 60
    ensures Added(parts, units, n) == Ok((before + SmallWhole(parts[n - 1]).value * units[n - 1]) as real)
  {
    hide SmallWhole, Exact;
    var v := SmallWhole(parts[n - 1]).value;
    WholeIsExact(parts[n - 1]);
    assert Exact(parts[n - 1]) == Ok(v as real);
    assert v < 60 ==> v as real < 60.0;
    Scaled(v, units[n - 1]);
  }

  lemma {:induction false} TwoAdded(parts: seq<string>, units: seq<nat>, ns: seq<nat>)
    requires 2 <= |parts| <= |units| && |ns| == |parts| && Stand(parts, ns) && ns[1] < 60
    requires units[0] in {1, 60, 3600} && units[1] in {1, 60, 3600}
    ensures Added(parts, units, 2) == Ok((ns[0] * units[0] + ns[1] * units[1]) as real)
  {
    hide SmallWhole, Added;
    NothingAdded(parts, units);
    AddedOnce(parts, units, 1, 0);
    AddedOnce(parts, units, 2, ns[0] * units[0]);
  }

  lemma {:induction false} ThreeAdded(parts: seq<string>, units: seq<nat>, ns: seq<nat>)
    requires |parts| == 3 == |units| && Stand(parts, ns) && ns[1] < 60 && ns[2] < 60
    requires units[0] in {1, 60, 3600} && units[1] in {1, 60, 3600} && units[2] == 1
    ensures Added(parts, units, 3) == Ok((ns[0] * units[0] + ns[1] * units[1] + ns[2]) as real)
  {
    hide SmallWhole, Added;
    TwoAdded(parts, units, ns);
    AddedOnce(parts, units, 3, ns[0] * units[0] + ns[1] * units[1]);
  }

  lemma {:induction false} UnitsAre(layout: Layout)
    ensures Units(3, '0', layout) == [3600, 60, 1]
    ensures Units(2, '0', layout) == if layout.HourMinute? then [3600, 60] else [60, 1]
  {
  }

  /** The parts are worth the same read exactly. */
  lemma {:induction false} PartsAgree(parts: seq<string>, ns: seq<nat>, layout: Layout)
    requires Stand(parts, ns) && 2 <= |ns| <= 3 && forall k :: 0 < k < |ns| ==> ns[k] < 60
    ensures Added(parts, Units(|parts|, '0', layout), |parts|) == Ok(Weighed(ns, layout) as real)
  {
    hide SmallWhole, Added, Units, Stand;
    UnitsAre(layout);
    assert |parts| == |ns| by {
      StandLength(parts, ns);
    }
    if |parts| == 3 {
      ThreeAdded(parts, [3600, 60, 1], ns);
    } else {
      TwoAdded(parts, Units(2, '0', layout), ns);
    }
  }

  lemma {:induction false} StandLength(parts: seq<string>, ns: seq<nat>)
    requires Stand(parts, ns)
    ensures |parts| == |ns|
  {
  }

  lemma {:induction false} NothingAdded(parts: seq<string>, units: seq<nat>)
    requires |parts| <= |units|
    ensures Added(parts, units, 0) == Ok(0 as real)
  {
  }

  /** Whenever the fast reading answers, the exact one gives the same number of seconds. */
  lemma {:induction false} WholeClockAgrees(t: string, layout: Layout, others: Spellings)
    requires WholeClock(t, layout).Some?
    ensures ParseDuration(t, layout, others) == Ok(WholeClock(t, layout).value as real)
  {
    hide SmallWhole, ClockNumbers, Weighed, SplitOn, Added, Units, IndexOf, DigitsOrColons, IsDigit, Decimal, AllDigits, LeadingDays,
      TrailingUnit, ClockValue, Stand;
    var i := IndexOf(t, '-');
    var u := if i == |t| then t else t[i + 1..];
    var days := if i == |t| then 0 else SmallWhole(t[..i]).value;
    var ns := ClockNumbers(u).value;
    PartsOfClock(u);
    StandLength(SplitOn(u, ':'), ns);
    PartsAgree(SplitOn(u, ':'), ns, layout);
    if i < |t| {
      SmallIsDigits(t[..i]);
    }
    NoComma(t, i, u);
    DaysAreLeading(t, i, u, days);
    NoTrailingUnit(u);
    ClockIsWorth(t, layout, u, days, Weighed(ns, layout));
  }

  lemma {:induction false} DaysAreLeading(t: string, i: nat, u: string, days: nat)
    requires i == IndexOf(t, '-') && u == (if i == |t| then t else t[i + 1..])
    requires if i == |t| then days == 0 else AllDigits(t[..i]) && Decimal(t[..i]) == days
    ensures LeadingDays(t) == Ok((days as real * 86400.0, u))
  {
    hide IndexOf, Decimal;
  }

  lemma {:induction false} NoTrailingUnit(u: string)
    requires u != "" && IsDigit(u[|u| - 1])
    ensures TrailingUnit(u) == Ok(('0', u))
  {
  }

  lemma {:induction false} ClockIsWorth(t: string, layout: Layout, u: string, days: nat, secs: nat)
    requires LeadingDays(t) == Ok((days as real * 86400.0, u)) && TrailingUnit(u) == Ok(('0', u)) && |SplitOn(u, ':')| <= 3
    requires Added(SplitOn(u, ':'), Units(|SplitOn(u, ':')|, '0', layout), |SplitOn(u, ':')|) == Ok(secs as real)
    ensures ClockValue(t, layout) == Ok((secs + days * 86400) as real)
  {
    hide LeadingDays, TrailingUnit, SplitOn, Added, Units;
  }

  /** A clock reading of digits, with days in front perhaps, has a colon and no comma. */
  lemma {:induction false} NoComma(t: string, i: nat, u: string)
    requires i == IndexOf(t, '-') && u == (if i == |t| then t else t[i + 1..]) && DigitsOrColons(u) && IndexOf(u, ':') < |u|
    requires i < |t| ==> AllDigits(t[..i])
    ensures IndexOf(t, ',') == |t| && IndexOf(t, ':') < |t|
  {
    hide IndexOf;
    ColonIsNoDigit();
    var m := IndexOf(u, ':');
    if i < |t| {
      assert t[i + 1 + m] == ':';
      forall k | 0 <= k < |t| ensures t[k] != ',' {
        if k < i {
          assert t[k] == t[..i][k];
        } else if k > i {
          assert t[k] == u[k - i - 1];
        }
      }
    } else {
      assert t[m] == ':';
    }
  }

  // ----- the whole conversion -----

  datatype Length = Seconds(n: nat) | Fraction(x: real)

  /** A length as it is reported: a whole number of seconds where it is one (the end of Duration). */
  function Reported(r: Outcome<real>): Outcome<Length> {
    if r.Refused? || r.value < 0.0 || r.value > MAX_SECONDS as real then Refused
    else if r.value.Floor as real == r.value then Ok(Seconds(r.value.Floor))
    else Ok(Fraction(r.value))
  }

  /** Duration: the fast reading where it answers, and otherwise the exact one. */
  method Duration(t: string, layout: Layout, others: Spellings) returns (r: Outcome<Length>)
    ensures r == Reported(ParseDuration(t, layout, others))
  {
    var n := WholeClock(t, layout);
    if n.Some? {
      WholeClockAgrees(t, layout, others);
      return Ok(Seconds(n.value));
    }
    r := Reported(ParseDuration(t, layout, others));
  }
}
