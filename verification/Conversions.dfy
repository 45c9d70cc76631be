/**
 What a field rule makes of the text a parser read (pkg/engine/fields.go), and the object a match becomes
 (objectFromMatch in pkg/engine/engine.go). How a number, a time or an escape is written is a function of the
 field; a refusal's words are not modelled.
 */
module Conversions {
  import opened Lines
  import opened Json
  import opened Patterns

  /** Where an expression matched, and what its groups took. */
  datatype Match = Match(from: nat, to: nat, events: seq<Event>)

  datatype Regexp = Regexp(tree: Pattern, find: string -> Option<Match>)

  /** Whatever the expression finds is a match its syntax allows. */
  ghost predicate Faithful(re: Regexp) {
    forall s: string :: FindsWhatItSays(re, s)
  }

  ghost predicate FindsWhatItSays(re: Regexp, s: string) {
    var m := re.find(s);
    m.Some? ==> m.value.from <= m.value.to <= |s| && Derives(re.tree, s[m.value.from..m.value.to], m.value.events)
  }

  datatype FieldKind = StringField | IntField | FloatField | BoolField | TimeField | DurationField | ArrayField | ObjectField

  /** A rule about one value (definition.Field), with the conversions it names. */
  datatype Field = Field(
    kind: FieldKind,
    strips: bool, strip: string -> string,
    nullIf: seq<string>, required: bool, omits: bool,
    regex: Option<Regexp>, group: string, unescape: Option<Unescape>,
    split: string -> seq<string>, items: Option<Field>,
    fields: seq<Rule>,
    whole: string -> Outcome<int>, number: string -> Outcome<real>, flag: string -> Outcome<bool>,
    time: string -> Outcome<string>)

  datatype Rule = Rule(name: string, field: Field)

  datatype Unescape = Unescape(when: string, decode: string -> Option<string>)

  /** The rule about a name, if there is one. */
  function RuleOf(rules: seq<Rule>, name: string): (f: Option<Field>)
    ensures f.Some? ==> exists i :: 0 <= i < |rules| && rules[i] == Rule(name, f.value)
  {
    if rules == [] then None
    else
      var n := |rules| - 1;
      if rules[n].name == name then
        assert rules[n] == Rule(name, rules[n].field);
        Some(rules[n].field)
      else
        var f := RuleOf(rules[..n], name);
        assert f.Some? ==> exists i :: 0 <= i < n && rules[..n][i] == Rule(name, f.value) && rules[i] == Rule(name, f.value);
        f
  }

  /** What came of a value: it is kept, as null perhaps, or its key is left out. */
  datatype Converted = Kept(value: Json) | Omitted

  /** A value that is not there. */
  function Missing(f: Field): Outcome<Converted> {
    if f.required then Refused else Ok(if f.omits then Omitted else Kept(Null))
  }

  /** A value no rule is about. */
  function Plain(v: Option<string>): Outcome<Converted> {
    Ok(Kept(if v.None? then Null else Str(v.value)))
  }

  /** The regex whose one group is the value, then the escapes to undo; no text when the group took no part
      (stringRules). */
  function StringRules(f: Field, s: string, present: set<string>): Outcome<Option<string>> {
    var kept :- GroupText(f, s);
    if kept.None? then Ok(None)
    else if f.unescape.Some? && (f.unescape.value.when == "" || f.unescape.value.when in present) then
      var decoded := f.unescape.value.decode(kept.value);
      if decoded.None? then Refused else Ok(decoded)
    else Ok(kept)
  }

  function GroupText(f: Field, s: string): Outcome<Option<string>> {
    if f.regex.None? then Ok(Some(s))
    else
      var m := f.regex.value.find(s);
      if m.None? then Refused else Ok(Binding(m.value.events, f.group))
  }

  /** What was read, under the rule about it if there is one. */
  function Convert(f: Option<Field>, v: Option<string>, present: set<string>): Outcome<Converted> {
    if f.None? then Plain(v) else ConvertRule(f.value, v, present)
  }

  /** A field rule applied to what was read; nothing was read when there is no text (convertMatched). */
  function ConvertRule(f: Field, v: Option<string>, present: set<string>): Outcome<Converted>
    decreases f, 3
  {
    if v.None? then Missing(f)
    else
      var s := if f.strips then f.strip(v.value) else v.value;
      if f.kind.StringField? then
        var kept :- StringRules(f, s, present);
        if kept.None? then Missing(f) else ConvertText(f, kept.value)
      else ConvertText(f, s)
  }

  function ConvertText(f: Field, s: string): Outcome<Converted>
    decreases f, 2
  {
    var trimmed := TrimSpace(s);
    if trimmed in f.nullIf then Ok(if f.omits then Omitted else Kept(Null))
    else if f.required && trimmed == "" then Refused
    else
      var v :- ConvertScalar(f, s);
      Ok(Kept(v))
  }

  /** convertScalar */
  function ConvertScalar(f: Field, s: string): Outcome<Json>
    decreases f, 1
  {
    match f.kind
    case StringField => Ok(Str(s))
    case IntField =>
      var n :- f.whole(s);
      Ok(Number(n as real))
    case FloatField =>
      var x :- f.number(s);
      Ok(Number(x))
    case DurationField =>
      var x :- f.number(s);
      Ok(Number(x))
    case BoolField =>
      var b :- f.flag(s);
      Ok(Bool(b))
    case TimeField =>
      var t :- f.time(s);
      Ok(Str(t))
    case ArrayField =>
      if s == "" then Ok(Arr([]))
      else
        var items :- ConvertItems(f.items, f.split(s));
        Ok(Arr(items))
    case ObjectField =>
      var m := if f.regex.Some? then f.regex.value.find(s) else None;
      if m.None? || !Spans(s, m.value) then Refused
      else
        var members :- SetEntries(f.fields, GroupEntries(f.regex.value.tree, m.value.events));
        Ok(Obj(members))
  }

  /** The match leaves nothing but white space outside (outside). */
  predicate Spans(s: string, m: Match) {
    m.from <= m.to <= |s| && Blank(s[..m.from]) && Blank(s[m.to..])
  }

  /** convertArray */
  function ConvertItems(items: Option<Field>, parts: seq<string>): Outcome<seq<Json>>
    decreases items, 1, |parts|
  {
    if parts == [] then Ok([])
    else
      var n := |parts| - 1;
      var before :- ConvertItems(items, parts[..n]);
      if items.None? then Ok(before + [Str(TrimSpace(parts[n]))])
      else
        var v :- ConvertRule(items.value, Some(TrimSpace(parts[n])), {});
        Ok(if v.Kept? then before + [v.value] else before)
  }

  /** One key of an object: what was read for it, and the groups that took some text beside it. */
  datatype Entry = Entry(name: string, raw: Option<string>, present: set<string>)

  /** The object of several keys, set one after the other (setMatched). */
  function SetEntries(rules: seq<Rule>, entries: seq<Entry>): Outcome<seq<Member>>
    decreases rules, 0, |entries|
  {
    if entries == [] then Ok([])
    else
      var n := |entries| - 1;
      var before :- SetEntries(rules, entries[..n]);
      var e, rule := entries[n], RuleOf(rules, entries[n].name);
      var v :- if rule.None? then Plain(e.raw) else ConvertRule(rule.value, e.raw, e.present);
      Ok(if v.Kept? then SetKey(before, e.name, v.value) else before)
  }

  function GroupNames(p: Pattern): seq<string> {
    seq(|Captures(p)|, i requires 0 <= i < |Captures(p)| => Captures(p)[i].name)
  }

  /** The groups that took part with some text (presentGroups). */
  function PresentGroups(p: Pattern, events: seq<Event>): set<string> {
    set i | 0 <= i < |GroupNames(p)| && Binding(events, GroupNames(p)[i]).Some? && Binding(events, GroupNames(p)[i]).value != ""
      :: GroupNames(p)[i]
  }

  function GroupEntries(p: Pattern, events: seq<Event>): seq<Entry> {
    seq(|GroupNames(p)|, i requires 0 <= i < |GroupNames(p)| =>
      Entry(GroupNames(p)[i], Binding(events, GroupNames(p)[i]), PresentGroups(p, events)))
  }

  /** One alternative of a regex parser, with the values it states. */
  datatype Alternative = Alternative(re: Regexp, values: seq<(string, string)>)

  function ValueEntries(values: seq<(string, string)>): seq<Entry> {
    seq(|values|, i requires 0 <= i < |values| => Entry(values[i].0, Some(values[i].1), {}))
  }

  /** The object a match becomes: the stated values first, then the groups (objectFromMatch). */
  function ObjectFromMatch(a: Alternative, events: seq<Event>, rules: seq<Rule>): Outcome<seq<Member>> {
    SetEntries(rules, ValueEntries(a.values) + GroupEntries(a.re.tree, events))
  }

  // ----- items that take their groups -----

  /** An item whose group took no part in its text, and that no rule refuses, leaves out or makes null on purpose:
      it is read as null all the same. */
  predicate NullItem(items: Field, text: string) {
    && items.kind.StringField? && !items.required && !items.omits && items.nullIf == []
    && GroupText(items, if items.strips then items.strip(text) else text) == Ok(None)
  }

  predicate TakenItem(items: Field, text: string)
    decreases items, 4
  {
    !NullItem(items, text) && TakenRule(items, Some(text), {})
  }

  /** No item in what this text converts to is such a null. */
  predicate TakenScalar(f: Field, s: string)
    decreases f, 1
  {
    match f.kind
    case ArrayField =>
      s != "" && f.items.Some? ==>
        var parts := f.split(s);
        forall i :: 0 <= i < |parts| ==> TakenItem(f.items.value, TrimSpace(parts[i]))
    case ObjectField =>
      var m := if f.regex.Some? then f.regex.value.find(s) else None;
      m.Some? ==> TakenEntries(f.fields, GroupEntries(f.regex.value.tree, m.value.events))
    case _ => true
  }

  predicate TakenRule(f: Field, v: Option<string>, present: set<string>)
    decreases f, 3
  {
    v.Some? && !f.kind.StringField? ==>
      var s := if f.strips then f.strip(v.value) else v.value;
      TrimSpace(s) !in f.nullIf ==> TakenScalar(f, s)
  }

  predicate TakenEntries(rules: seq<Rule>, entries: seq<Entry>)
    decreases rules, 0
  {
    forall k :: 0 <= k < |entries| ==>
      var rule := RuleOf(rules, entries[k].name);
      rule.Some? ==> TakenRule(rule.value, entries[k].raw, entries[k].present)
  }

  predicate TakenEntry(rules: seq<Rule>, e: Entry) {
    var rule := RuleOf(rules, e.name);
    rule.Some? ==> TakenRule(rule.value, e.raw, e.present)
  }

  lemma {:induction false} EachEntryTaken(rules: seq<Rule>, entries: seq<Entry>)
    ensures TakenEntries(rules, entries) <==> forall k :: 0 <= k < |entries| ==> TakenEntry(rules, entries[k])
  {
    hide TakenRule;
  }

  // ----- what the keys of an object came from -----

  ghost predicate EntriesApart(entries: seq<Entry>) {
    forall i, j :: 0 <= i < j < |entries| ==> entries[i].name != entries[j].name
  }

  function Came(rules: seq<Rule>, e: Entry): Outcome<Converted> {
    Convert(RuleOf(rules, e.name), e.raw, e.present)
  }

  /** Every member is what one of the entries came to, and every entry that was kept is a member. */
  lemma {:induction false} EntriesAreMembers(rules: seq<Rule>, entries: seq<Entry>)
    requires EntriesApart(entries) && SetEntries(rules, entries).Ok?
    ensures
      var members := SetEntries(rules, entries).value;
      && (forall i :: 0 <= i < |members| ==> exists k :: 0 <= k < |entries| && MemberOf(rules, entries[k], members[i]))
      && (forall k :: 0 <= k < |entries| ==> Came(rules, entries[k]).Ok?)
      && (forall k :: 0 <= k < |entries| && Came(rules, entries[k]).value.Kept? ==> Get(members, entries[k].name).Some?)
    decreases |entries|
  {
    hide ConvertRule, SetKey, Get;
    if entries != [] {
      var n := |entries| - 1;
      var before, after := SetEntries(rules, entries[..n]).value, SetEntries(rules, entries).value;
      EntriesAreMembers(rules, entries[..n]);
      var v := Came(rules, entries[n]).value;
      if v.Kept? {
        SetIsSet(before, entries[n].name, v.value);
      }
      forall i | 0 <= i < |after| ensures exists k :: 0 <= k < |entries| && MemberOf(rules, entries[k], after[i]) {
        if v.Kept? && after[i] == Member(entries[n].name, v.value) {
          assert MemberOf(rules, entries[n], after[i]);
        } else {
          assert after[i] in before;
          var j :| 0 <= j < |before| && before[j] == after[i];
          var k :| 0 <= k < |entries[..n]| && MemberOf(rules, entries[..n][k], before[j]);
          assert MemberOf(rules, entries[k], after[i]);
        }
      }
      forall k | 0 <= k < |entries| && Came(rules, entries[k]).value.Kept? ensures Get(after, entries[k].name).Some? {
        if k < n {
          assert entries[..n][k] == entries[k];
          if v.Kept? {
            SetThenGet(before, entries[n].name, v.value, entries[k].name);
          }
        } else {
          SetThenGet(before, entries[n].name, v.value, "");
        }
      }
    }
  }

  predicate MemberOf(rules: seq<Rule>, e: Entry, m: Member) {
    e.name == m.key && Came(rules, e) == Ok(Kept(m.value))
  }

  lemma {:induction false} SetIsSet(members: seq<Member>, key: string, v: Json)
    ensures forall i :: 0 <= i < |SetKey(members, key, v)| ==>
      SetKey(members, key, v)[i] == Member(key, v) || SetKey(members, key, v)[i] in members
  {
  }
}
