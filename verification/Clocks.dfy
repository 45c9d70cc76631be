/**
 What the readings of a clock that commands print come to (pkg/convert/convert.go, Duration and parseClock): so many seconds for
 each of their parts.
 */
module Clocks {
  import opened Lines
  import opened Texts
  import opened Durations
  import opened Integers

  // ----- readings of a clock -----

  /** Days in front of a reading, or none. */
  predicate IsFront(front: string, days: nat) {
    (front == "" && days == 0) || (|front| > 1 && AllDigits(front[..|front| - 1]) && front[|front| - 1] == '-' && days == Decimal(front[..|front| - 1]))
  }

  lemma {:induction false} IndexIs(t: string, c: char, i: nat)
    requires i <= |t| && forall k :: 0 <= k < |t| ==> (t[k] == c <==> k == i)
    ensures IndexOf(t, c) == i
  {
    hide IndexOf;
    var j := IndexOf(t, c);
    assert j < |t| ==> t[j] == c;
    assert i < |t| ==> t[i] == c && !(i < j);
  }

  lemma {:induction false} FrontIsDays(front: string, days: nat, u: string)
    requires IsFront(front, days) && u != "" && forall k :: 0 <= k < |u| ==> u[k] != '-' && u[k] != ','
    ensures LeadingDays(front + u) == Ok((days as real * 86400.0, u))
    ensures IndexOf(front + u, ',') == |front + u| && (IndexOf(u, ':') < |u| ==> IndexOf(front + u, ':') < |front + u|)
  {
    hide Decimal;
    var t := front + u;
    var i := if front == "" then |t| else |front| - 1;
    ColonIsNoDigit();
    forall k | 0 <= k < |t| ensures t[k] != ',' && (t[k] == '-' <==> k == i) {
      assert t[k] == if k < |front| - 1 then front[..|front| - 1][k] else if k < |front| then front[k] else u[k - |front|];
    }
    IndexIs(t, '-', i);
    if front == "" {
      assert t == u;
    } else {
      assert t[..i] == front[..|front| - 1] && t[i + 1..] == u;
    }
    var m := IndexOf(u, ':');
    if m < |u| {
      assert t[|front| + m] == ':';
    }
  }

  /** A reading, and the letter of its smallest unit or none. */
  lemma {:induction false} ReadingHasNoFront(u: string, unit: string)
    requires DigitsOrColons(u) && unit in {"", "m", "s", "h"}
    ensures forall k :: 0 <= k < |u + unit| ==> (u + unit)[k] != '-' && (u + unit)[k] != ','
    ensures IndexOf(u, ':') < |u| ==> IndexOf(u + unit, ':') < |u + unit|
  {
    ColonIsNoDigit();
    var t := u + unit;
    assert forall k :: 0 <= k < |t| ==> t[k] == if k < |u| then u[k] else unit[k - |u|];
    var m := IndexOf(u, ':');
    if m < |u| {
      assert t[m] == ':';
    }
  }

  lemma {:induction false} UnitIsTrailing(u: string, unit: string)
    requires u != "" && IsDigit(u[|u| - 1]) && unit in {"", "m", "s", "h"}
    ensures TrailingUnit(u + unit) == Ok((if unit == "" then '0' else unit[0], u))
  {
    var t := u + unit;
    if unit == "" {
      assert t == u;
    } else {
      assert t[|t| - 1] == unit[0] && t[..|t| - 1] == u;
    }
  }

  lemma {:induction false} TwoDigits(a: string, b: string)
    requires AllDigits(a) && AllDigits(b)
    ensures
      var u := a + ":" + b;
      && DigitsOrColons(u) && IndexOf(u, ':') < |u| && SplitOn(u, ':') == [a, b] && IsDigit(u[|u| - 1])
  {
    hide SplitOn;
    ColonIsNoDigit();
    var u := a + ":" + b;
    assert u[|a|] == ':' && u[|u| - 1] == b[|b| - 1];
    NoneInDigits(a, ':');
    NoneInDigits(b, ':');
    OnePart(a, ':');
    SplitLast(a, b, ':');
    assert [a] + [b] == [a, b];
    assert forall k :: 0 <= k < |u| ==> u[k] == if k < |a| then a[k] else if k == |a| then ':' else b[k - |a| - 1];
  }

  lemma {:induction false} ThreeDigits(a: string, b: string, c: string)
    requires AllDigits(a) && AllDigits(b) && AllDigits(c)
    ensures
      var u := a + ":" + b + ":" + c;
      && DigitsOrColons(u) && IndexOf(u, ':') < |u| && SplitOn(u, ':') == [a, b, c] && IsDigit(u[|u| - 1])
  {
    hide SplitOn, AllDigits;
    TwoDigits(a, b);
    LastIsDigit(c);
    var v := a + ":" + b;
    var u := v + ":" + c;
    ColonIsNoDigit();
    assert u[|v|] == ':' && u[|u| - 1] == c[|c| - 1];
    NoneInDigits(c, ':');
    SplitLast(v, c, ':');
    assert [a, b] + [c] == [a, b, c];
    DigitsOrColonsBehind(v, c);
  }

  lemma {:induction false} LastIsDigit(c: string)
    requires AllDigits(c)
    ensures c != "" && IsDigit(c[|c| - 1])
  {
  }

  lemma {:induction false} DigitsOrColonsBehind(v: string, c: string)
    requires DigitsOrColons(v) && AllDigits(c)
    ensures DigitsOrColons(v + ":" + c)
  {
    var u := v + ":" + c;
    assert forall k :: 0 <= k < |u| ==> u[k] == if k < |v| then v[k] else if k == |v| then ':' else c[k - |v| - 1];
  }

  lemma {:induction false} DigitsAreExact(s: string)
    requires AllDigits(s)
    ensures Exact(s) == Ok(Decimal(s) as real)
  {
    hide Decimal;
  }

  lemma {:induction false} AddsUp(parts: seq<string>, units: seq<nat>, n: nat)
    requires n < |parts| <= |units| && AllDigits(parts[n]) && units[n] in {1, 60, 3600}
    ensures
      var before, x := Added(parts, units, n), Decimal(parts[n]);
      Added(parts, units, n + 1) ==
        if before.Refused? || (n > 0 && x >= 60) then Refused else Ok(before.value + (x * units[n]) as real)
  {
    hide Decimal, AllDigits, Exact;
    DigitsAreExact(parts[n]);
    Scaled(Decimal(parts[n]), units[n]);
  }

  /** h:mm:ss is that many hours, minutes and seconds, whatever letter ends it, and more than 59 minutes or seconds are no reading. */
  lemma {:induction false} HoursMinutesSeconds(front: string, days: nat, h: string, m: string, s: string, unit: string, layout: Layout,
                                               others: Spellings)
    requires IsFront(front, days) && AllDigits(h) && AllDigits(m) && AllDigits(s) && unit in {"", "m", "s", "h"}
    ensures ParseDuration(front + (h + ":" + m + ":" + s + unit), layout, others) ==
      if Decimal(m) >= 60 || Decimal(s) >= 60 then Refused
      else Ok((86400 * days + 3600 * Decimal(h) + 60 * Decimal(m) + Decimal(s)) as real)
  {
    hide Decimal, AllDigits, SplitOn, IndexOf, LeadingDays, TrailingUnit, Added, Units, IsFront, DigitsOrColons, IsDigit;
    var u := h + ":" + m + ":" + s;
    var parts, last := [h, m, s], if unit == "" then '0' else unit[0];
    ThreeDigits(h, m, s);
    ReadingHasNoFront(u, unit);
    UnitIsTrailing(u, unit);
    FrontIsDays(front, days, u + unit);
    ThreeUnits(last, layout);
    NothingAdded(parts, [3600, 60, 1]);
    AddsUp(parts, [3600, 60, 1], 0);
    AddsUp(parts, [3600, 60, 1], 1);
    AddsUp(parts, [3600, 60, 1], 2);
  }

  lemma {:induction false} ThreeUnits(last: char, layout: Layout)
    ensures Units(3, last, layout) == [3600, 60, 1]
  {
  }

  /** A reading of two parts is hours and minutes where its letter says so, or where it has none and the layout does; and else
      minutes and seconds. */
  lemma {:induction false} TwoPartReading(front: string, days: nat, a: string, b: string, unit: string, layout: Layout, others: Spellings)
    requires IsFront(front, days) && AllDigits(a) && AllDigits(b) && unit in {"", "m", "s", "h"}
    ensures ParseDuration(front + (a + ":" + b + unit), layout, others) ==
      if Decimal(b) >= 60 then Refused
      else if unit == "m" || (unit == "" && layout.HourMinute?) then Ok((86400 * days + 3600 * Decimal(a) + 60 * Decimal(b)) as real)
      else Ok((86400 * days + 60 * Decimal(a) + Decimal(b)) as real)
  {
    hide Decimal, AllDigits, SplitOn, IndexOf, LeadingDays, TrailingUnit, Added, Units, IsFront, DigitsOrColons, IsDigit;
    var u := a + ":" + b;
    var last := if unit == "" then '0' else unit[0];
    var parts, units := [a, b], if last == 'm' || (last == '0' && layout.HourMinute?) then [3600, 60] else [60, 1];
    TwoDigits(a, b);
    ReadingHasNoFront(u, unit);
    UnitIsTrailing(u, unit);
    FrontIsDays(front, days, u + unit);
    TwoUnits(last, layout);
    NothingAdded(parts, units);
    AddsUp(parts, units, 0);
    AddsUp(parts, units, 1);
  }

  lemma {:induction false} TwoUnits(last: char, layout: Layout)
    requires last in {'0', 'm', 's', 'h'}
    ensures Units(2, last, layout) == if last == 'm' || (last == '0' && layout.HourMinute?) then [3600, 60] else [60, 1]
  {
  }
}
