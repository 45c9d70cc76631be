/**
 Values as JSON text (pkg/jsonutil/object.go, writeValue and writeString), and what reading the text gives back. The
 reader is the grammar of RFC 8259: values by sections 2 to 6, strings by section 7. How a number is written is a
 function; that reading undoes it is what is asked of it.
 */
module Writer {
  import opened Lines
  import opened Json

  // ----- the written form -----

  /** A new line at an indentation, or nothing in compact output (newline). */
  function NewLine(indent: string, prefix: string): string {
    if indent == "" then "" else "\n" + prefix
  }

  function Hex(n: nat): char
    requires n < 16
  {
    "0123456789abcdef"[n]
  }

  /** Four hex digits (writeEscape). */
  function UnicodeEscape(c: char): string {
    var n := c as int % 0x10000;
    "\\u" + [Hex(n / 0x1000), Hex(n / 0x100 % 16), Hex(n / 16 % 16), Hex(n % 16)]
  }

  /** A character that stands for itself in a string. */
  predicate Verbatim(c: char) {
    c >= ' ' && c != '"' && c != '\\' && c != '\U{2028}' && c != '\U{2029}'
  }

  /** How one character of a string is written. */
  function EscapeOf(c: char): string {
    if Verbatim(c) then [c]
    else if c == '\\' || c == '"' then ['\\', c]
    else if c == '\U{08}' then "\\b"
    else if c == '\U{0C}' then "\\f"
    else if c == '\n' then "\\n"
    else if c == '\r' then "\\r"
    else if c == '\t' then "\\t"
    else UnicodeEscape(c)
  }

  function Escaped(s: string): string {
    if s == "" then "" else EscapeOf(s[0]) + Escaped(s[1..])
  }

  function WrittenString(s: string): string {
    "\"" + (Escaped(s) + "\"")
  }

  /** A value at an indentation; no indentation is the compact form. */
  function Written(v: Json, number: real -> string, indent: string, prefix: string): string
    decreases v, 1
  {
    match v
    case Null => "null"
    case Bool(b) => if b then "true" else "false"
    case Number(x) => number(x)
    case Str(s) => WrittenString(s)
    case Arr(items) =>
      if items == [] then "[]" else "[" + (WrittenItems(items, number, indent, prefix + indent) + (NewLine(indent, prefix) + "]"))
    case Obj(members) =>
      if members == [] then "{}" else "{" + (WrittenMembers(members, number, indent, prefix + indent) + (NewLine(indent, prefix) + "}"))
  }

  function WrittenItems(items: seq<Json>, number: real -> string, indent: string, prefix: string): string
    decreases items, 0
  {
    if items == [] then ""
    else
      NewLine(indent, prefix) + Written(items[0], number, indent, prefix)
      + ((if |items| > 1 then "," else "") + WrittenItems(items[1..], number, indent, prefix))
  }

  function Colon(indent: string): string {
    if indent == "" then ":" else ": "
  }

  function WrittenMembers(members: seq<Member>, number: real -> string, indent: string, prefix: string): string
    decreases members, 0
  {
    if members == [] then ""
    else
      WrittenMember(members[0], number, indent, prefix)
      + ((if |members| > 1 then "," else "") + WrittenMembers(members[1..], number, indent, prefix))
  }

  function WrittenMember(m: Member, number: real -> string, indent: string, prefix: string): string
    decreases m, 2
  {
    NewLine(indent, prefix) + WrittenString(m.key) + Colon(indent) + Written(m.value, number, indent, prefix)
  }

  // ----- what no text holds -----

  /** Text that needs no escape. */
  predicate NeedsNoEscape(s: string) {
    forall i :: 0 <= i < |s| ==> s[i] >= ' ' && s[i] !in {'"', '\\', '\U{2028}', '\U{2029}'}
  }

  /** It is written as it is, between quotes. */
  lemma {:induction false} PlainIsItself(s: string)
    requires NeedsNoEscape(s)
    ensures WrittenString(s) == "\"" + s + "\""
  {
    PlainStays(s);
    assert "\"" + (s + "\"") == "\"" + s + "\"";
  }

  lemma {:induction false} PlainStays(s: string)
    requires NeedsNoEscape(s)
    ensures Escaped(s) == s
  {
    if s != "" {
      PlainStays(s[1..]);
      assert s == [s[0]] + s[1..];
    }
  }

  /** No character that ends a line, or that a line has to be looked at for. */
  predicate InOneLine(s: string) {
    forall i :: 0 <= i < |s| ==> s[i] >= ' ' && s[i] != '\U{2028}' && s[i] != '\U{2029}'
  }

  lemma {:induction false} BothInOneLine(a: string, b: string)
    requires InOneLine(a) && InOneLine(b)
    ensures InOneLine(a + b)
  {
  }

  lemma {:induction false} EscapeInOneLine(c: char)
    ensures InOneLine(EscapeOf(c))
  {
    hide Verbatim;
    var digits := "0123456789abcdef";
    assert forall k :: 0 <= k < 16 ==> digits[k] >= ' ' && digits[k] < 'z';
    if Verbatim(c) {
      VerbatimInOneLine(c);
    } else if EscapeOf(c) == UnicodeEscape(c) {
      HexInOneLine(c);
    }
  }

  lemma {:induction false} VerbatimInOneLine(c: char)
    requires Verbatim(c)
    ensures InOneLine([c])
  {
  }

  lemma {:induction false} HexInOneLine(c: char)
    ensures InOneLine(UnicodeEscape(c))
  {
    var digits := "0123456789abcdef";
    assert forall k :: 0 <= k < 16 ==> ' ' <= digits[k] < 'z';
    assert forall n: nat :: n < 16 ==> ' ' <= Hex(n) < 'z';
  }

  lemma {:induction false} StringInOneLine(s: string)
    ensures InOneLine(WrittenString(s))
  {
    EscapedInOneLine(s);
    BothInOneLine(Escaped(s), "\"");
    BothInOneLine("\"", Escaped(s) + "\"");
  }

  lemma {:induction false} EscapedInOneLine(s: string)
    ensures InOneLine(Escaped(s))
  {
    hide EscapeOf;
    if s != "" {
      EscapeInOneLine(s[0]);
      EscapedInOneLine(s[1..]);
      BothInOneLine(EscapeOf(s[0]), Escaped(s[1..]));
    }
  }

  /** The compact form of any value is one line, whatever its texts hold. */
  lemma {:induction false} CompactIsOneLine(v: Json, number: real -> string)
    requires forall x: real :: InOneLine(number(x))
    ensures InOneLine(Written(v, number, "", ""))
    decreases v, 1
  {
    hide WrittenString, WrittenItems, WrittenMembers;
    match v
    case Str(s) => StringInOneLine(s);
    case Arr(items) =>
      ItemsInOneLine(items, number);
      assert "" + "" == "" && NewLine("", "") + "]" == "]";
      BothInOneLine(WrittenItems(items, number, "", ""), "]");
      BothInOneLine("[", WrittenItems(items, number, "", "") + "]");
    case Obj(members) =>
      MembersInOneLine(members, number);
      assert "" + "" == "" && NewLine("", "") + "}" == "}";
      BothInOneLine(WrittenMembers(members, number, "", ""), "}");
      BothInOneLine("{", WrittenMembers(members, number, "", "") + "}");
    case _ =>
  }

  lemma {:induction false} ItemsInOneLine(items: seq<Json>, number: real -> string)
    requires forall x: real :: InOneLine(number(x))
    ensures InOneLine(WrittenItems(items, number, "", ""))
    decreases items, 0
  {
    hide Written, InOneLine;
    NoneInOneLine();
    if items != [] {
      CompactIsOneLine(items[0], number);
      ItemsInOneLine(items[1..], number);
      var comma := if |items| > 1 then "," else "";
      BothInOneLine(comma, WrittenItems(items[1..], number, "", ""));
      assert NewLine("", "") + Written(items[0], number, "", "") == Written(items[0], number, "", "");
      BothInOneLine(Written(items[0], number, "", ""), comma + WrittenItems(items[1..], number, "", ""));
    }
  }

  lemma {:induction false} NoneInOneLine()
    ensures InOneLine("") && InOneLine(",") && InOneLine(":")
  {
  }

  lemma {:induction false} MembersInOneLine(members: seq<Member>, number: real -> string)
    requires forall x: real :: InOneLine(number(x))
    ensures InOneLine(WrittenMembers(members, number, "", ""))
    decreases members, 0
  {
    hide Written, InOneLine, WrittenString;
    NoneInOneLine();
    if members != [] {
      var m := members[0];
      CompactIsOneLine(m.value, number);
      StringInOneLine(m.key);
      MembersInOneLine(members[1..], number);
      BothInOneLine(WrittenString(m.key), ":");
      BothInOneLine(WrittenString(m.key) + ":", Written(m.value, number, "", ""));
      assert WrittenMember(m, number, "", "") == WrittenString(m.key) + ":" + Written(m.value, number, "", "") by {
        assert NewLine("", "") + WrittenString(m.key) == WrittenString(m.key);
      }
      var comma := if |members| > 1 then "," else "";
      BothInOneLine(comma, WrittenMembers(members[1..], number, "", ""));
      BothInOneLine(WrittenMember(m, number, "", ""), comma + WrittenMembers(members[1..], number, "", ""));
    }
  }

  // ----- the writer -----

  lemma {:induction false} Assoc(a: string, b: string, c: string)
    ensures (a + b) + c == a + (b + c)
  {
  }

  class Buffer {
    var text: string

    constructor ()
      ensures text == ""
    {
      text := "";
    }

    /** Append a text; `base` and `done` say what has been appended to what. */
    method Put(s: string, ghost base: string, ghost done: string)
      requires text == base + done
      modifies this
      ensures text == base + (done + s)
    {
      Assoc(base, done, s);
      text := text + s;
    }

    /** writeString: runs of characters that stand for themselves are copied in one piece. */
    method WriteString(s: string, ghost base: string, ghost done: string)
      requires text == base + done
      modifies this
      ensures text == base + (done + WrittenString(s))
    {
      hide EscapeOf, Verbatim, Escaped;
      ghost var mark := text;
      NothingEscaped();
      Put("\"", mark, "");
      assert "" + "\"" == "\"";
      var start := 0;
      assert s[..0] == "" && "\"" + "" == "\"";
      for i := 0 to |s|
        invariant start <= i && forall k :: start <= k < i ==> Verbatim(s[k])
        invariant text == mark + ("\"" + Escaped(s[..start]))
      {
        if Verbatim(s[i]) {
          continue;
        }
        RunEscaped(s, start, i);
        Put(s[start..i], mark, "\"" + Escaped(s[..start]));
        Put(EscapeOf(s[i]), mark, "\"" + Escaped(s[..start]) + s[start..i]);
        Assoc("\"", Escaped(s[..start]), s[start..i]);
        Assoc("\"", Escaped(s[..i]), EscapeOf(s[i]));
        start := i + 1;
      }
      RunEscaped(s, start, |s|);
      Put(s[start..], mark, "\"" + Escaped(s[..start]));
      Put("\"", mark, "\"" + Escaped(s[..start]) + s[start..]);
      assert s[..|s|] == s && s[start..|s|] == s[start..];
      Assoc("\"", Escaped(s[..start]), s[start..]);
      Assoc("\"", Escaped(s), "\"");
      Assoc(base, done, WrittenString(s));
    }

    /** writeValue */
    method WriteValue(v: Json, number: real -> string, indent: string, prefix: string, ghost base: string, ghost done: string)
      requires text == base + done
      modifies this
      ensures text == base + (done + Written(v, number, indent, prefix))
      decreases v, 1
    {
      hide Written, WrittenString;
      WrittenIs(v, number, indent, prefix);
      match v {
        case Null => Put("null", base, done);
        case Bool(b) => Put(if b then "true" else "false", base, done);
        case Number(x) => Put(number(x), base, done);
        case Str(s) => WriteString(s, base, done);
        case Arr(items) => WriteArray(items, number, indent, prefix, base, done);
        case Obj(members) => WriteObject(members, number, indent, prefix, base, done);
      }
    }

    /** The case of an array in writeValue. */
    method WriteArray(items: seq<Json>, number: real -> string, indent: string, prefix: string, ghost base: string, ghost done: string)
      requires text == base + done
      modifies this
      ensures text == base + (done + ArrayText(items, number, indent, prefix))
      decreases items, 0
    {
      hide Written, WrittenItems, NewLine;
      ghost var mark := text;
      Put("[", mark, "");
      var inner := prefix + indent;
      NoItems(number, indent, inner);
      assert items[..0] == [] && "[" + "" == "[" == "" + "[";
      for i := 0 to |items|
        invariant text == mark + ("[" + WrittenItems(items[..i], number, indent, inner))
      {
        ghost var so := WrittenItems(items[..i], number, indent, inner);
        ghost var sep := if i == 0 then "" else ",";
        ItemsSnoc(items[..i], items[i], number, indent, inner);
        assert items[..i + 1] == items[..i] + [items[i]];
        Put(if i == 0 then "" else ",", mark, "[" + so);
        Put(NewLine(indent, inner), mark, "[" + so + sep);
        WriteValue(items[i], number, indent, inner, mark, "[" + so + sep + NewLine(indent, inner));
        FourBehind("[", so, sep, NewLine(indent, inner), Written(items[i], number, indent, inner));
      }
      assert items[..|items|] == items;
      Put(if items == [] then "" else NewLine(indent, prefix), mark, "[" + WrittenItems(items, number, indent, inner));
      Put("]", mark, "[" + WrittenItems(items, number, indent, inner) + if items == [] then "" else NewLine(indent, prefix));
      Assoc(base, done, ArrayText(items, number, indent, prefix));
    }

    /** The case of an object in writeValue. */
    method WriteObject(members: seq<Member>, number: real -> string, indent: string, prefix: string, ghost base: string, ghost done: string)
      requires text == base + done
      modifies this
      ensures text == base + (done + ObjectText(members, number, indent, prefix))
      decreases members, 0
    {
      hide Written, WrittenMembers, NewLine, WrittenString, Colon;
      ghost var mark := text;
      Put("{", mark, "");
      var inner := prefix + indent;
      NoMembers(number, indent, inner);
      assert members[..0] == [] && "{" + "" == "{" == "" + "{";
      for i := 0 to |members|
        invariant text == mark + ("{" + WrittenMembers(members[..i], number, indent, inner))
      {
        var m := members[i];
        ghost var so := WrittenMembers(members[..i], number, indent, inner);
        ghost var sep := if i == 0 then "" else ",";
        MembersSnoc(members[..i], m, number, indent, inner);
        assert members[..i + 1] == members[..i] + [m];
        Put(if i == 0 then "" else ",", mark, "{" + so);
        Put(NewLine(indent, inner), mark, "{" + so + sep);
        ghost var at := "{" + so + sep + NewLine(indent, inner);
        WriteString(m.key, mark, at);
        Put(Colon(indent), mark, at + WrittenString(m.key));
        WriteValue(m.value, number, indent, inner, mark, at + WrittenString(m.key) + Colon(indent));
        SixBehind("{", so, sep, NewLine(indent, inner), WrittenString(m.key), Colon(indent), Written(m.value, number, indent, inner));
      }
      assert members[..|members|] == members;
      Put(if members == [] then "" else NewLine(indent, prefix), mark, "{" + WrittenMembers(members, number, indent, inner));
      Put("}", mark, "{" + WrittenMembers(members, number, indent, inner) + if members == [] then "" else NewLine(indent, prefix));
      Assoc(base, done, ObjectText(members, number, indent, prefix));
    }
  }

  function ArrayText(items: seq<Json>, number: real -> string, indent: string, prefix: string): string {
    "[" + WrittenItems(items, number, indent, prefix + indent) + (if items == [] then "" else NewLine(indent, prefix)) + "]"
  }

  function ObjectText(members: seq<Member>, number: real -> string, indent: string, prefix: string): string {
    "{" + WrittenMembers(members, number, indent, prefix + indent) + (if members == [] then "" else NewLine(indent, prefix)) + "}"
  }

  lemma {:induction false} FourBehind(a: string, b: string, c: string, d: string, e: string)
    ensures a + b + c + d + e == a + (b + c + (d + e))
  {
  }

  lemma {:induction false} SixBehind(a: string, b: string, c: string, d: string, e: string, f: string, g: string)
    ensures a + b + c + d + e + f + g == a + (b + c + (d + e + f + g))
  {
    assert a + b + c + (d + e + f + g) == a + (b + c + (d + e + f + g));
  }

  lemma {:induction false} NothingEscaped()
    ensures Escaped("") == ""
  {
  }

  /** A run of characters that stand for themselves, and the one behind it. */
  lemma {:induction false} RunEscaped(s: string, start: nat, i: nat)
    requires start <= i <= |s| && forall k :: start <= k < i ==> Verbatim(s[k])
    ensures Escaped(s[..i]) == Escaped(s[..start]) + s[start..i]
    ensures i < |s| ==> Escaped(s[..i + 1]) == Escaped(s[..i]) + EscapeOf(s[i])
    decreases i - start
  {
    hide EscapeOf, Verbatim, Escaped;
    if i < |s| {
      EscapedSnoc(s[..i], s[i]);
      assert s[..i + 1] == s[..i] + [s[i]];
    }
    if i > start {
      RunEscaped(s, start, i - 1);
      VerbatimIsItself(s[i - 1]);
      Assoc(Escaped(s[..start]), s[start..i - 1], [s[i - 1]]);
      assert s[start..i - 1] + [s[i - 1]] == s[start..i];
    } else {
      assert s[start..i] == "" && Escaped(s[..i]) + "" == Escaped(s[..i]);
    }
  }

  lemma {:induction false} EscapedSnoc(s: string, c: char)
    ensures Escaped(s + [c]) == Escaped(s) + EscapeOf(c)
  {
    hide EscapeOf;
    if s == "" {
      assert s + [c] == [c];
      assert [c][1..] == "";
    } else {
      assert (s + [c])[1..] == s[1..] + [c];
      EscapedSnoc(s[1..], c);
    }
  }

  lemma {:induction false} VerbatimIsItself(c: char)
    requires Verbatim(c)
    ensures EscapeOf(c) == [c]
  {
  }

  lemma {:induction false} WrittenIs(v: Json, number: real -> string, indent: string, prefix: string)
    ensures v.Null? ==> Written(v, number, indent, prefix) == "null"
    ensures v.Bool? ==> Written(v, number, indent, prefix) == if v.bit then "true" else "false"
    ensures v.Number? ==> Written(v, number, indent, prefix) == number(v.value)
    ensures v.Str? ==> Written(v, number, indent, prefix) == WrittenString(v.text)
    ensures v.Arr? ==> Written(v, number, indent, prefix) == ArrayText(v.items, number, indent, prefix)
    ensures v.Obj? ==> Written(v, number, indent, prefix) == ObjectText(v.members, number, indent, prefix)
  {
    hide WrittenString, WrittenItems, WrittenMembers, NewLine;
    NoItems(number, indent, prefix + indent);
    NoMembers(number, indent, prefix + indent);
    if v.Arr? {
      Enclosed("[", WrittenItems(v.items, number, indent, prefix + indent), NewLine(indent, prefix), "]");
    } else if v.Obj? {
      Enclosed("{", WrittenMembers(v.members, number, indent, prefix + indent), NewLine(indent, prefix), "}");
    }
  }

  lemma {:induction false} Enclosed(a: string, b: string, c: string, d: string)
    ensures a + (b + (c + d)) == a + b + c + d
    ensures b == "" && c == "" ==> a + b + c + d == a + d
    ensures b == "" ==> a + b + "" + d == a + d
  {
  }

  lemma {:induction false} NoItems(number: real -> string, indent: string, prefix: string)
    ensures WrittenItems([], number, indent, prefix) == ""
  {
  }

  lemma {:induction false} NoMembers(number: real -> string, indent: string, prefix: string)
    ensures WrittenMembers([], number, indent, prefix) == ""
  {
  }

  lemma {:induction false} ItemsSnoc(items: seq<Json>, v: Json, number: real -> string, indent: string, prefix: string)
    ensures WrittenItems(items + [v], number, indent, prefix) ==
      WrittenItems(items, number, indent, prefix) + (if items == [] then "" else ",")
      + (NewLine(indent, prefix) + Written(v, number, indent, prefix))
    decreases items
  {
    hide Written, NewLine;
    var all := items + [v];
    var last := NewLine(indent, prefix) + Written(v, number, indent, prefix);
    if items == [] {
      assert all == [v] && all[1..] == [];
      Behind(last, "", "", "");
    } else {
      assert all[1..] == items[1..] + [v] && all[0] == items[0];
      ItemsSnoc(items[1..], v, number, indent, prefix);
      NextBehind(NewLine(indent, prefix) + Written(items[0], number, indent, prefix), |items| > 1, WrittenItems(items[1..], number, indent, prefix), last);
    }
  }

  lemma {:induction false} MembersSnoc(members: seq<Member>, m: Member, number: real -> string, indent: string, prefix: string)
    ensures WrittenMembers(members + [m], number, indent, prefix) ==
      WrittenMembers(members, number, indent, prefix) + (if members == [] then "" else ",") + WrittenMember(m, number, indent, prefix)
    decreases members
  {
    hide WrittenMember;
    var all := members + [m];
    var last := WrittenMember(m, number, indent, prefix);
    if members == [] {
      assert all == [m] && all[1..] == [];
      Behind(last, "", "", "");
    } else {
      assert all[1..] == members[1..] + [m] && all[0] == members[0];
      MembersSnoc(members[1..], m, number, indent, prefix);
      NextBehind(WrittenMember(members[0], number, indent, prefix), |members| > 1, WrittenMembers(members[1..], number, indent, prefix), last);
    }
  }

  lemma {:induction false} Behind(a: string, b: string, c: string, d: string)
    ensures b == "" && c == "" && d == "" ==> a + (b + c) == a && b + c + a == a && a + d == a
  {
  }

  /** One more behind a list: the separator that was missing after its last is there now. */
  lemma {:induction false} NextBehind(first: string, more: bool, rest: string, last: string)
    requires !more ==> rest == ""
    ensures first + ("," + (rest + (if more then "," else "") + last)) == first + ((if more then "," else "") + rest) + "," + last
  {
    if more {
      assert first + ("," + (rest + "," + last)) == first + ("," + rest) + "," + last;
    } else {
      assert rest + "" + last == last && "" + rest == "";
      assert first + ("," + last) == first + "," + last && first + "" == first;
    }
  }
}
