/**
 The values fields convert to (pkg/engine/fields.go, convertScalar): the number, the truth or the text that was read, and for an
 integer the number its digits write.
 */
module Values {
  import opened Lines
  import opened Json
  import opened Durations
  import opened Integers
  import opened Patterns
  import opened Conversions

  /** The text a rule is applied to is a value: no null, and not the empty one a rule refuses. */
  predicate IsAValue(f: Field, s: string) {
    TrimSpace(s) !in f.nullIf && (f.required ==> TrimSpace(s) != "")
  }

  function Stripped(f: Field, text: string): string {
    if f.strips then f.strip(text) else text
  }

  /** A number, a truth, a time or a text is the one that was read, and refused where that was. */
  lemma {:induction false} ValueIsWhatWasRead(f: Field, text: string, present: set<string>)
    requires IsAValue(f, Stripped(f, text))
    ensures
      var s, r := Stripped(f, text), ConvertRule(f, Some(text), present);
      && (f.kind.IntField? ==> forall v :: r == Ok(Kept(v)) <==> f.whole(s).Ok? && v == Number(f.whole(s).value as real))
      && (f.kind.FloatField? || f.kind.DurationField? ==> forall v :: r == Ok(Kept(v)) <==> f.number(s).Ok? && v == Number(f.number(s).value))
      && (f.kind.BoolField? ==> forall v :: r == Ok(Kept(v)) <==> f.flag(s).Ok? && v == Bool(f.flag(s).value))
      && (f.kind.TimeField? ==> forall v :: r == Ok(Kept(v)) <==> f.time(s).Ok? && v == Str(f.time(s).value))
      && (f.kind.StringField? && f.regex.None? && f.unescape.None? ==> r == Ok(Kept(Str(s))))
  {
    hide ConvertScalar, ConvertText, TrimSpace;
    var s := Stripped(f, text);
    IsConverted(f, s);
    ScalarIsRead(f, s);
    if f.kind.StringField? {
      if f.regex.None? && f.unescape.None? {
        assert StringRules(f, s, present) == Ok(Some(s));
        assert ConvertRule(f, Some(text), present) == ConvertText(f, s);
      }
    } else {
      assert ConvertRule(f, Some(text), present) == ConvertText(f, s);
    }
  }

  lemma {:induction false} IsConverted(f: Field, s: string)
    requires IsAValue(f, s)
    ensures ConvertText(f, s) == if ConvertScalar(f, s).Ok? then Ok(Kept(ConvertScalar(f, s).value)) else Refused
  {
    hide ConvertScalar, TrimSpace;
  }

  lemma {:induction false} ScalarIsRead(f: Field, s: string)
    ensures
      var r := ConvertScalar(f, s);
      && (f.kind.IntField? ==> r == if f.whole(s).Ok? then Ok(Number(f.whole(s).value as real)) else Refused)
      && (f.kind.FloatField? || f.kind.DurationField? ==> r == if f.number(s).Ok? then Ok(Number(f.number(s).value)) else Refused)
      && (f.kind.BoolField? ==> r == if f.flag(s).Ok? then Ok(Bool(f.flag(s).value)) else Refused)
      && (f.kind.TimeField? ==> r == if f.time(s).Ok? then Ok(Str(f.time(s).value)) else Refused)
      && (f.kind.StringField? ==> r == Ok(Str(s)))
  {
    hide ConvertItems, SetEntries, GroupEntries, Spans, TrimSpace;
  }

  /** The field reads integers as convertScalar does. */
  ghost predicate ReadsIntegers(f: Field, sep: Option<char>) {
    f.kind.IntField? && forall s: string :: f.whole(s) == ReadInt(s, sep)
  }

  /** An integer field makes of an integer's text, in any way it can be written and whatever white space stands around it,
      that integer. */
  lemma {:induction false} IntegerIsItsNumber(f: Field, n: int, t: string, before: string, after: string, present: set<string>)
    requires ReadsIntegers(f, None) && !f.strips && Writes(t, n) && AllSpace(before) && AllSpace(after) && t !in f.nullIf
    ensures ConvertRule(f, Some(before + t + after), present) == Ok(Kept(Number(n as real)))
  {
    hide ReadInt, Writes, ConvertRule, TrimSpace;
    var s := before + t + after;
    IntegerReadsBack(n, t, before, after);
    WrittenIsTrimmed(t, n, before, after);
    ValueIsWhatWasRead(f, s, present);
    assert ConvertRule(f, Some(s), present) == Ok(Kept(Number(f.whole(s).value as real)));
  }

  lemma {:induction false} WrittenIsTrimmed(t: string, n: int, before: string, after: string)
    requires Writes(t, n) && AllSpace(before) && AllSpace(after)
    ensures TrimSpace(before + t + after) == t && t != ""
  {
    hide TrimSpace, IsSpace, IsWritten;
    var sign, digits :| IsWritten(t, n, sign, digits);
    WrittenIsSigned(t, n, sign, digits);
    Trimmed(before, t, after);
  }

  /** And of one whose digits stand in groups. */
  lemma {:induction false} GroupedIntegerIsItsNumber(f: Field, n: int, sign: string, digits: string, sep: char, present: set<string>)
    requires ReadsIntegers(f, Some(sep)) && !f.strips && IsWritten(sign + digits, n, sign, digits) && Separates(sep)
    requires IsAValue(f, sign + Grouped(digits, sep))
    ensures ConvertRule(f, Some(sign + Grouped(digits, sep)), present) == Ok(Kept(Number(n as real)))
  {
    hide ReadInt, IsWritten, ConvertRule, TrimSpace, Grouped;
    var s := sign + Grouped(digits, sep);
    assert "" + s + "" == s;
    GroupsReadBack(n, sign, digits, sep, "", "");
    ValueIsWhatWasRead(f, s, present);
    assert ConvertRule(f, Some(s), present) == Ok(Kept(Number(f.whole(s).value as real)));
  }

  // ----- nothing to convert -----

  /** There is nothing to convert: nothing was read, or a string's group took no part, or what is left of the text is one that is
      read as null. */
  predicate NothingIsThere(f: Field, v: Option<string>, present: set<string>) {
    || v.None?
    || (f.kind.StringField? && StringRules(f, Stripped(f, v.value), present) == Ok(None))
    || IsNullText(f, v, present)
  }

  predicate IsNullText(f: Field, v: Option<string>, present: set<string>) {
    && v.Some?
    && if f.kind.StringField? then
         var kept := StringRules(f, Stripped(f, v.value), present);
         kept.Ok? && kept.value.Some? && TrimSpace(kept.value.value) in f.nullIf
       else TrimSpace(Stripped(f, v.value)) in f.nullIf
  }

  /** Only where there is nothing is a value left out or null, left out exactly where the rule says so; and a rule that requires the
      value refuses it then, but for the texts it reads as null. */
  lemma {:induction false} NothingBecomesNull(f: Field, v: Option<string>, present: set<string>)
    requires NothingIsThere(f, v, present)
    ensures ConvertRule(f, v, present) ==
      if f.required && !IsNullText(f, v, present) then Refused else Ok(if f.omits then Omitted else Kept(Null))
  {
    hide ConvertScalar, TrimSpace, StringRules;
  }

  lemma {:induction false} OnlyNothingBecomesNull(f: Field, v: Option<string>, present: set<string>)
    requires ConvertRule(f, v, present) == Ok(Omitted) || ConvertRule(f, v, present) == Ok(Kept(Null))
    ensures NothingIsThere(f, v, present)
  {
    hide ConvertScalar, TrimSpace, StringRules;
    if v.Some? {
      ScalarIsNoNull(f, Stripped(f, v.value));
      if f.kind.StringField? {
        var kept := StringRules(f, Stripped(f, v.value), present);
        if kept.Ok? && kept.value.Some? {
          ScalarIsNoNull(f, kept.value.value);
        }
      }
    }
  }

  lemma {:induction false} ScalarIsNoNull(f: Field, s: string)
    ensures ConvertScalar(f, s) != Ok(Null)
  {
    hide ConvertItems, SetEntries, GroupEntries, Spans, TrimSpace;
  }

  // ----- arrays -----

  /** An array without a rule for its items is its parts, each trimmed, in their order. */
  lemma {:induction false} PlainItems(parts: seq<string>)
    ensures
      var r := ConvertItems(None, parts);
      r.Ok? && |r.value| == |parts| && forall i :: 0 <= i < |parts| ==> r.value[i] == Str(TrimSpace(parts[i]))
  {
    hide TrimSpace;
    if parts != [] {
      PlainItems(parts[..|parts| - 1]);
    }
  }

  /** One with a rule that leaves none out is what the rule makes of each, in their order. */
  lemma {:induction false} RuledItems(items: Field, parts: seq<string>)
    requires !items.omits && ConvertItems(Some(items), parts).Ok?
    ensures
      var r := ConvertItems(Some(items), parts).value;
      |r| == |parts| && forall i :: 0 <= i < |parts| ==> ConvertRule(items, Some(TrimSpace(parts[i])), {}) == Ok(Kept(r[i]))
  {
    hide TrimSpace, ConvertRule;
    if parts != [] {
      var n := |parts| - 1;
      RuledItems(items, parts[..n]);
      LeavesNothingOut(items, TrimSpace(parts[n]));
      assert forall i :: 0 <= i < n ==> parts[..n][i] == parts[i];
    }
  }

  lemma {:induction false} LeavesNothingOut(f: Field, text: string)
    requires !f.omits
    ensures ConvertRule(f, Some(text), {}) != Ok(Omitted)
  {
    hide ConvertScalar, TrimSpace, StringRules;
  }
}
