/**
 Indented JSON as lines (pkg/jsonutil/object.go, writeValue): what is inside a list or an object stands on lines of its own, one step
 further in than the brackets around it. The writer, which carries the white space of the line it is at with it, writes those lines.
 */
module Pretty {
  import opened Json
  import opened Writer

  /** The lines of a value: one, or those of what is inside it between two brackets. */
  function LinesOf(v: Json, number: real -> string, indent: string): (lines: seq<string>)
    ensures lines != []
    decreases v, 1
  {
    match v
    case Null => ["null"]
    case Bool(b) => [if b then "true" else "false"]
    case Number(x) => [number(x)]
    case Str(s) => [WrittenString(s)]
    case Arr(items) => if items == [] then ["[]"] else ["["] + Indented(ItemLines(items, number, indent), indent) + ["]"]
    case Obj(members) => if members == [] then ["{}"] else ["{"] + Indented(MemberLines(members, number, indent), indent) + ["}"]
  }

  function Indented(lines: seq<string>, indent: string): (out: seq<string>)
    ensures |out| == |lines| && forall i :: 0 <= i < |lines| ==> out[i] == indent + lines[i]
  {
    seq(|lines|, i requires 0 <= i < |lines| => indent + lines[i])
  }

  function ItemLines(items: seq<Json>, number: real -> string, indent: string): seq<string>
    decreases items, 0
  {
    if items == [] then [] else WithComma(LinesOf(items[0], number, indent), |items| > 1) + ItemLines(items[1..], number, indent)
  }

  function MemberLines(members: seq<Member>, number: real -> string, indent: string): seq<string>
    decreases members, 0
  {
    if members == [] then []
    else
      WithComma(WithKey(members[0].key, LinesOf(members[0].value, number, indent)), |members| > 1)
      + MemberLines(members[1..], number, indent)
  }

  /** The last line takes the comma. */
  function WithComma(lines: seq<string>, more: bool): seq<string>
    requires lines != []
  {
    var n := |lines| - 1;
    if more then lines[..n] + [lines[n] + ","] else lines
  }

  /** The first line takes the key. */
  function WithKey(key: string, lines: seq<string>): (out: seq<string>)
    requires lines != []
    ensures out != []
  {
    [WrittenString(key) + ": " + lines[0]] + lines[1..]
  }

  /** The lines one after the other, each behind a line break and the white space it starts with. */
  function Broken(lines: seq<string>, lead: string): string {
    if lines == [] then "" else lead + (lines[0] + Broken(lines[1..], lead))
  }

  lemma {:induction false} BrokenBoth(a: seq<string>, b: seq<string>, lead: string)
    ensures Broken(a + b, lead) == Broken(a, lead) + Broken(b, lead)
  {
    if a == [] {
      assert a + b == b;
    } else {
      assert (a + b)[1..] == a[1..] + b;
      BrokenBoth(a[1..], b, lead);
    }
  }

  lemma {:induction false} BrokenOnce(line: string, lead: string)
    ensures Broken([line], lead) == lead + line
  {
    assert [line][1..] == [] && line + "" == line;
  }

  /** Lines one step further in stand behind the white space of the line they are at, and that of the step. */
  lemma {:induction false} BrokenIndented(lines: seq<string>, lead: string, indent: string)
    ensures Broken(Indented(lines, indent), lead) == Broken(lines, lead + indent)
  {
    if lines != [] {
      BrokenIndented(lines[1..], lead, indent);
      assert Indented(lines, indent)[1..] == Indented(lines[1..], indent);
      Around(lead, indent, lines[0], Broken(lines[1..], lead + indent));
    }
  }

  lemma {:induction false} Around(a: string, b: string, c: string, d: string)
    ensures a + ((b + c) + d) == (a + b) + (c + d)
  {
  }

  lemma {:induction false} BrokenWithComma(lines: seq<string>, more: bool, lead: string)
    requires lines != []
    ensures Broken(WithComma(lines, more), lead) == Broken(lines, lead) + if more then "," else ""
  {
    var n := |lines| - 1;
    if more {
      BrokenBoth(lines[..n], [lines[n]], lead);
      BrokenBoth(lines[..n], [lines[n] + ","], lead);
      BrokenOnce(lines[n], lead);
      BrokenOnce(lines[n] + ",", lead);
      assert lines[..n] + [lines[n]] == lines;
      Appended(Broken(lines[..n], lead), lead, lines[n], ",");
    } else {
      assert Broken(lines, lead) + "" == Broken(lines, lead);
    }
  }

  lemma {:induction false} Appended(a: string, b: string, c: string, d: string)
    ensures a + (b + (c + d)) == a + (b + c) + d
  {
  }

  lemma {:induction false} BrokenWithKey(key: string, lines: seq<string>, lead: string, text: string)
    requires lines != [] && Broken(lines, lead) == lead + text
    ensures Broken(WithKey(key, lines), lead) == lead + WrittenString(key) + ": " + text
  {
    hide WrittenString;
    var rest := Broken(lines[1..], lead);
    SameBehind(lead, lines[0] + rest, text);
    var first := WrittenString(key) + ": " + lines[0];
    assert WithKey(key, lines)[1..] == lines[1..];
    assert lead + (first + rest) == lead + WrittenString(key) + ": " + (lines[0] + rest);
  }

  lemma {:induction false} SameBehind(a: string, b: string, c: string)
    requires a + b == a + c
    ensures b == c
  {
    assert (a + b)[|a|..] == b && (a + c)[|a|..] == c;
  }

  // ----- the writer writes these lines -----

  /** Indented, a value is written as its lines. */
  lemma {:induction false} WrittenAsLines(v: Json, number: real -> string, indent: string, prefix: string)
    requires indent != ""
    ensures Broken(LinesOf(v, number, indent), "\n" + prefix) == "\n" + prefix + Written(v, number, indent, prefix)
    decreases v, 1
  {
    hide WrittenString, WrittenItems, WrittenMembers, ItemLines, MemberLines, Broken;
    var lead := "\n" + prefix;
    match v {
      case Arr(items) =>
        if items == [] {
          BrokenOnce("[]", lead);
        } else {
          ItemsAsLines(items, number, indent, prefix + indent);
          Bracketed(ItemLines(items, number, indent), "[", "]", indent, prefix);
          assert NewLine(indent, prefix) == lead;
        }
      case Obj(members) =>
        if members == [] {
          BrokenOnce("{}", lead);
        } else {
          MembersAsLines(members, number, indent, prefix + indent);
          Bracketed(MemberLines(members, number, indent), "{", "}", indent, prefix);
          assert NewLine(indent, prefix) == lead;
        }
      case _ =>
        BrokenOnce(LinesOf(v, number, indent)[0], lead);
    }
  }

  lemma {:induction false} Bracketed(lines: seq<string>, open: string, close: string, indent: string, prefix: string)
    ensures
      var lead := "\n" + prefix;
      Broken([open] + Indented(lines, indent) + [close], lead)
        == lead + (open + (Broken(lines, "\n" + (prefix + indent)) + (lead + close)))
  {
    var lead := "\n" + prefix;
    var inner := Indented(lines, indent);
    BrokenBoth([open] + inner, [close], lead);
    BrokenBoth([open], inner, lead);
    BrokenOnce(open, lead);
    BrokenOnce(close, lead);
    BrokenIndented(lines, lead, indent);
    assert lead + indent == "\n" + (prefix + indent);
    InBrackets(lead, open, Broken(lines, lead + indent), lead + close);
  }

  lemma {:induction false} InBrackets(a: string, b: string, c: string, d: string)
    ensures ((a + b) + c) + d == a + (b + (c + d))
  {
  }

  lemma {:induction false} ItemsAsLines(items: seq<Json>, number: real -> string, indent: string, prefix: string)
    requires indent != ""
    ensures Broken(ItemLines(items, number, indent), "\n" + prefix) == WrittenItems(items, number, indent, prefix)
    decreases items, 0
  {
    hide Written, LinesOf, WithComma;
    if items != [] {
      var lead, more := "\n" + prefix, |items| > 1;
      var first := LinesOf(items[0], number, indent);
      WrittenAsLines(items[0], number, indent, prefix);
      ItemsAsLines(items[1..], number, indent, prefix);
      BrokenWithComma(first, more, lead);
      BrokenBoth(WithComma(first, more), ItemLines(items[1..], number, indent), lead);
      assert NewLine(indent, prefix) == lead;
      Behind(lead + Written(items[0], number, indent, prefix), if more then "," else "", WrittenItems(items[1..], number, indent, prefix));
    }
  }

  lemma {:induction false} Behind(a: string, b: string, c: string)
    ensures (a + b) + c == a + (b + c)
  {
  }

  lemma {:induction false} MembersAsLines(members: seq<Member>, number: real -> string, indent: string, prefix: string)
    requires indent != ""
    ensures Broken(MemberLines(members, number, indent), "\n" + prefix) == WrittenMembers(members, number, indent, prefix)
    decreases members, 0
  {
    hide Written, LinesOf, WithComma, WrittenString, WithKey;
    if members != [] {
      var m, lead, more := members[0], "\n" + prefix, |members| > 1;
      var value := LinesOf(m.value, number, indent);
      var first := WithKey(m.key, value);
      WrittenAsLines(m.value, number, indent, prefix);
      MembersAsLines(members[1..], number, indent, prefix);
      BrokenWithKey(m.key, value, lead, Written(m.value, number, indent, prefix));
      BrokenWithComma(first, more, lead);
      BrokenBoth(WithComma(first, more), MemberLines(members[1..], number, indent), lead);
      assert NewLine(indent, prefix) == lead && Colon(indent) == ": ";
      assert WrittenMember(m, number, indent, prefix) == lead + WrittenString(m.key) + ": " + Written(m.value, number, indent, prefix);
      Behind(WrittenMember(m, number, indent, prefix), if more then "," else "", WrittenMembers(members[1..], number, indent, prefix));
    }
  }
}
