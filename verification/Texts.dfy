/** The few operations on text that several packages use (strings, strconv). */
module Texts {
  /** The position of the first such character, or the length. */
  function IndexOf(s: string, c: char): (n: nat)
    ensures n <= |s|
    ensures n < |s| ==> s[n] == c
    ensures forall i :: 0 <= i < n ==> s[i] != c
  {
    if s == [] || s[0] == c then 0 else 1 + IndexOf(s[1..], c)
  }

  predicate StartsWith(s: string, prefix: string) {
    prefix <= s
  }

  predicate EndsWith(s: string, suffix: string) {
    |suffix| <= |s| && s[|s| - |suffix|..] == suffix
  }

  function Without(s: string, suffix: string): string {
    if EndsWith(s, suffix) then s[..|s| - |suffix|] else s
  }

  /** strings.Split on one character: always at least one part. */
  function SplitOn(s: string, c: char): (parts: seq<string>)
    ensures parts != []
    decreases |s|
  {
    var n := IndexOf(s, c);
    if n == |s| then [s] else [s[..n]] + SplitOn(s[n + 1..], c)
  }

  function Digit(c: char): nat {
    if '0' <= c <= '9' then (c - '0') as nat else 0
  }

  /** The number a run of digits writes (strconv.Atoi and ParseInt; where it overflows is for their callers to say). */
  function Decimal(s: string): nat {
    if s == [] then 0 else 10 * Decimal(s[..|s| - 1]) + Digit(s[|s| - 1])
  }

  /** The digits of a number (strconv.Itoa). */
  function DigitsOf(n: nat): (s: string)
    ensures s != ""
  {
    if n < 10 then ["0123456789"[n]] else DigitsOf(n / 10) + ["0123456789"[n % 10]]
  }

  /** Numbers written alike are the same number. */
  lemma {:induction false} DigitsApart(m: nat, n: nat)
    requires DigitsOf(m) == DigitsOf(n)
    ensures m == n
  {
    var a, b := DigitsOf(m), DigitsOf(n);
    var digits := "0123456789";
    assert forall i, j :: 0 <= i < j < 10 ==> digits[i] != digits[j];
    assert a[|a| - 1] == digits[m % 10] && b[|b| - 1] == digits[n % 10];
    assert m % 10 == n % 10;
    assert |a| == 1 <==> m < 10;
    assert |b| == 1 <==> n < 10;
    if m >= 10 {
      assert a[..|a| - 1] == DigitsOf(m / 10) && b[..|b| - 1] == DigitsOf(n / 10);
      DigitsApart(m / 10, n / 10);
    }
  }
}
