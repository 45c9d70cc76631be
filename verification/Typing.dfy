/**
 The schema of what a field rule and a match produce (internal/schema/generate.go, value, converted, regexObject),
 and that every value they produce fits it.
 */
module Typing {
  import opened Lines
  import opened Json
  import opened Patterns
  import opened Conversions
  import opened Contracts

  // ----- schemas -----

  const TYPE_ORDER := [ObjectKind, ArrayKind, StringKind, IntegerKind, NumberKind, BooleanKind, NullKind]

  /** The types of a list in their written order, each once (normalizeTypes). */
  function NormalizeTypes(types: seq<Kind>): (out: seq<Kind>)
    ensures forall k :: k in out <==> k in types
  {
    EveryKindIsOrdered();
    PickTypes(TYPE_ORDER, types)
  }

  lemma {:induction false} EveryKindIsOrdered()
    ensures forall k: Kind :: k in TYPE_ORDER
  {
    forall k: Kind ensures k in TYPE_ORDER {
      assert k == TYPE_ORDER[0] || k == TYPE_ORDER[1] || k == TYPE_ORDER[2] || k == TYPE_ORDER[3] || k == TYPE_ORDER[4]
        || k == TYPE_ORDER[5] || k == TYPE_ORDER[6];
    }
  }

  function PickTypes(order: seq<Kind>, types: seq<Kind>): (out: seq<Kind>)
    ensures forall k :: k in out <==> k in order && k in types
  {
    if order == [] then [] else (if order[0] in types then [order[0]] else []) + PickTypes(order[1..], types)
  }

  /** Where a type stands in the written order (typeOrder). */
  function Rank(k: Kind): nat {
    match k
    case ObjectKind => 0
    case ArrayKind => 1
    case StringKind => 2
    case IntegerKind => 3
    case NumberKind => 4
    case BooleanKind => 5
    case NullKind => 6
  }

  /** The types stand in the written order, each once. */
  predicate InOrder(types: seq<Kind>) {
    forall i, j :: 0 <= i < j < |types| ==> Rank(types[i]) < Rank(types[j])
  }

  lemma {:induction false} PickTypesOrdered(order: seq<Kind>, types: seq<Kind>)
    requires InOrder(order)
    ensures InOrder(PickTypes(order, types))
  {
    if order != [] {
      var first, rest := order[0], PickTypes(order[1..], types);
      PickTypesOrdered(order[1..], types);
      forall m | 0 <= m < |rest| ensures Rank(first) < Rank(rest[m]) {
        assert rest[m] in order[1..];
      }
      assert InOrder([first] + rest);
      assert [] + rest == rest;
    }
  }

  lemma {:induction false} PickTypesAlike(order: seq<Kind>, a: seq<Kind>, b: seq<Kind>)
    requires forall k :: k in a <==> k in b
    ensures PickTypes(order, a) == PickTypes(order, b)
  {
    if order != [] {
      PickTypesAlike(order[1..], a, b);
    }
  }

  /** The types stand in the written order, each once, so that two lists that allow the same types come out equal. */
  lemma {:induction false} NormalizedInOrder(types: seq<Kind>, others: seq<Kind>)
    ensures InOrder(NormalizeTypes(types))
    ensures NormalizeTypes(types) == NormalizeTypes(others) <==> forall k :: k in types <==> k in others
  {
    assert Rank(TYPE_ORDER[0]) == 0 && Rank(TYPE_ORDER[1]) == 1 && Rank(TYPE_ORDER[2]) == 2 && Rank(TYPE_ORDER[3]) == 3
      && Rank(TYPE_ORDER[4]) == 4 && Rank(TYPE_ORDER[5]) == 5 && Rank(TYPE_ORDER[6]) == 6;
    assert forall i :: 0 <= i < |TYPE_ORDER| ==> Rank(TYPE_ORDER[i]) == i;
    PickTypesOrdered(TYPE_ORDER, types);
    if forall k :: k in types <==> k in others {
      PickTypesAlike(TYPE_ORDER, types, others);
    }
  }

  function Typed(types: seq<Kind>): Schema {
    Body(types, [], false, [], [], None, None)
  }

  function ListOf(items: Schema): Schema {
    Body([ArrayKind], [], false, [], [], None, Some(items))
  }

  function Nullable(s: Schema): Schema
    requires s.Body?
  {
    s.(types := NormalizeTypes(s.types + [NullKind]))
  }

  // ----- what a rule says -----

  /** A string field whose regex keeps a group the value may leave out (optionalGroup). */
  predicate OptionalGroup(f: Field) {
    f.kind.StringField? && f.regex.Some? &&
    var captures := Captures(f.regex.value.tree);
    var n := Seek(captures, f.group);
    n < |captures| && captures[n].optional
  }

  /** The value reaches the output as the text a group matched (plainString). */
  predicate PlainString(f: Field) {
    f.kind.StringField? && !f.strips && f.nullIf == [] && f.regex.None? && f.unescape.None?
  }

  /** The values a key can have when they are a finite list (fieldEnum). */
  function FieldEnum(values: Option<seq<string>>, f: Option<Field>): Option<seq<string>> {
    if f.None? || PlainString(f.value) then values
    else if !f.value.kind.StringField? || f.value.strips || f.value.nullIf != [] || f.value.unescape.Some? || f.value.regex.None? then None
    else
      var captures := Captures(f.value.regex.value.tree);
      var n := Seek(captures, f.value.group);
      if n < |captures| then UnionEnum(captures[n].values, Some([])) else None
  }

  /** The key may be left out of its object. */
  predicate Omittable(f: Option<Field>, missing: bool) {
    f.Some? && f.value.omits && (missing || f.value.nullIf != [] || OptionalGroup(f.value))
  }

  /** The schema of what a rule makes of a value, which may be missing (value). */
  function ValueSchema(f: Option<Field>, missing: bool): (s: Schema)
    ensures s.Body?
  {
    if f.None? then Typed(if missing then [StringKind, NullKind] else [StringKind])
    else RuleSchema(f.value, missing)
  }

  function RuleSchema(f: Field, missing: bool): (s: Schema)
    ensures s.Body?
    decreases f, 1
  {
    var s := ConvertedSchema(f);
    var nullable := ((missing || OptionalGroup(f)) && !f.required) || f.nullIf != [];
    if nullable && !f.omits then Nullable(s) else s
  }

  /** The schema of a value after its rule, before any question of it being missing (converted). */
  function ConvertedSchema(f: Field): (s: Schema)
    ensures s.Body? && s.types != [] && s.enums == []
    decreases f, 0
  {
    match f.kind
    case IntField => Typed([IntegerKind])
    case FloatField => Typed([NumberKind])
    case DurationField => Typed([NumberKind])
    case BoolField => Typed([BooleanKind])
    case ArrayField =>
      if f.items.None? then ListOf(Typed([StringKind]))
      else
        var items := ConvertedSchema(f.items.value);
        ListOf(if f.items.value.nullIf != [] && !f.items.value.omits then Nullable(items) else items)
    case ObjectField =>
      if f.regex.None? then Typed([ObjectKind]) else ObjectOf([Alternative(f.regex.value, [])], f.fields)
    case _ => Typed([StringKind])
  }

  // ----- what a match says -----

  function StatedCaptures(values: seq<(string, string)>): seq<Capture> {
    seq(|values|, i requires 0 <= i < |values| => Capture(values[i].0, false, Some([values[i].1])))
  }

  /** The keys one alternative gives, the values it states among them. */
  function UsesOf(a: Alternative): seq<Capture> {
    StatedCaptures(a.values) + Captures(a.re.tree)
  }

  function AllUses(alts: seq<Alternative>): seq<Capture> {
    if alts == [] then [] else AllUses(alts[..|alts| - 1]) + UsesOf(alts[|alts| - 1])
  }

  /** How often a name is used. */
  function Uses(captures: seq<Capture>, name: string): nat {
    if captures == [] then 0
    else Uses(captures[..|captures| - 1], name) + if captures[|captures| - 1].name == name then 1 else 0
  }

  function Groups(alts: seq<Alternative>): seq<Capture> {
    Merged(AllUses(alts))
  }

  /** What one key is, with the list of its values when it has one and is never null. */
  function KeySchema(c: Capture, rules: seq<Rule>): (s: Schema)
    ensures s.Body?
    decreases rules, 0
  {
    var f := RuleOf(rules, c.name);
    var s := if f.None? then Typed(if c.optional then [StringKind, NullKind] else [StringKind]) else RuleSchema(f.value, c.optional);
    var enums := FieldEnum(c.values, f);
    if enums.Some? && NullKind !in s.types then s.(enums := enums.value) else s
  }

  /** The object a match becomes (regexObject). */
  function ObjectOf(alts: seq<Alternative>, rules: seq<Rule>): (s: Schema)
    ensures s.Body? && s.types == [ObjectKind] && s.enums == []
    decreases rules, 1
  {
    var groups := Groups(alts);
    Body([ObjectKind], [], true,
         seq(|groups|, i requires 0 <= i < |groups| => Property(groups[i].name, KeySchema(groups[i], rules))),
         RequiredKeys(groups, alts, rules), None, None)
  }

  /** The keys that every alternative has and no rule may leave out. */
  function RequiredKeys(groups: seq<Capture>, alts: seq<Alternative>, rules: seq<Rule>): (names: seq<string>)
    ensures forall name :: name in names ==> exists i :: 0 <= i < |groups| && groups[i].name == name && AlwaysThere(groups[i], alts, rules)
  {
    if groups == [] then []
    else
      var n := |groups| - 1;
      var before := RequiredKeys(groups[..n], alts, rules);
      assert forall name :: name in before ==>
        exists i :: 0 <= i < n && groups[..n][i].name == name && groups[i].name == name && AlwaysThere(groups[i], alts, rules);
      if AlwaysThere(groups[n], alts, rules) then before + [groups[n].name] else before
  }

  predicate AlwaysThere(c: Capture, alts: seq<Alternative>, rules: seq<Rule>) {
    Uses(AllUses(alts), c.name) == |alts| && !Omittable(RuleOf(rules, c.name), c.optional)
  }

  // ----- definitions that make sense -----

  /** Expressions find what they say, a string's group is one its regex has, and an object has a regex. */
  ghost predicate WellFormed(f: Field) {
    && (f.regex.Some? ==> Faithful(f.regex.value))
    && (f.kind.StringField? && f.regex.Some? ==> HasGroup(f.regex.value.tree, f.group))
    && (f.kind.ObjectField? ==> f.regex.Some?)
    && (f.items.Some? ==> WellFormed(f.items.value))
    && WellFormedRules(f.fields)
  }

  ghost predicate WellFormedRules(rules: seq<Rule>) {
    forall i :: 0 <= i < |rules| ==> WellFormed(rules[i].field)
  }

  predicate HasGroup(p: Pattern, name: string) {
    Seek(Captures(p), name) < |Captures(p)|
  }

  ghost predicate NamesApart(names: seq<string>) {
    forall i, j :: 0 <= i < j < |names| ==> names[i] != names[j]
  }

  function NamesOf(captures: seq<Capture>): seq<string> {
    seq(|captures|, i requires 0 <= i < |captures| => captures[i].name)
  }

  /** No value an alternative states has the name of another, or of one of its groups. */
  ghost predicate WellFormedAlternative(a: Alternative) {
    Faithful(a.re) && NamesApart(NamesOf(UsesOf(a)))
  }

  // ----- fitting -----

  lemma {:induction false} WiderFits(c: Contract, s: Schema, v: Json)
    requires s.Body? && s.types != [] && v != Null
    ensures Fits(c, Nullable(s), v) <==> Fits(c, s, v)
  {
    hide NormalizeTypes;
    var wide := Nullable(s);
    assert NormalizeTypes(s.types + [NullKind]) != [] by {
      assert s.types[0] in s.types + [NullKind];
    }
    match v {
      case Obj(members) => SameMembersFit(c, s, wide, members);
      case _ =>
    }
  }

  /** Only the named keys and the others decide whether members fit. */
  lemma {:induction false} SameMembersFit(c: Contract, s: Schema, t: Schema, members: seq<Member>)
    requires Props(s) == Props(t) && Extra(s) == Extra(t) && NamesKeys(s) == NamesKeys(t)
    ensures MembersFit(c, s, members) == MembersFit(c, t, members)
    decreases members
  {
    hide Fits;
    if members != [] {
      SameMembersFit(c, s, t, members[1..]);
    }
  }

  lemma {:induction false} NullFits(c: Contract, s: Schema)
    requires s.Body? && s.enums == []
    ensures Fits(c, Nullable(s), Null)
  {
    assert NullKind in s.types + [NullKind] by {
      assert (s.types + [NullKind])[|s.types|] == NullKind;
    }
  }

  /** Members fit an object that names its keys when each is named and fits what its name says. */
  lemma {:induction false} NamedMembersFit(c: Contract, s: Schema, members: seq<Member>)
    requires s.Body? && s.states && s.extra.None?
    requires forall i :: 0 <= i < |members| ==>
      Lookup(s.properties, members[i].key).Some? && Fits(c, Lookup(s.properties, members[i].key).value, members[i].value)
    ensures MembersFit(c, s, members)
    decreases members
  {
    hide Fits, Lookup;
    if members != [] {
      assert MemberFits(c, s, members[0]);
      assert forall i :: 0 <= i < |members[1..]| ==> members[1..][i] == members[i + 1];
      NamedMembersFit(c, s, members[1..]);
    }
  }

  lemma {:induction false} AllItemsFit(c: Contract, s: Schema, items: seq<Json>)
    requires forall i :: 0 <= i < |items| ==> Fits(c, s, items[i])
    ensures ItemsFit(c, s, items)
  {
    hide Fits;
    if items != [] {
      AllItemsFit(c, s, items[1..]);
    }
  }

  // ----- a converted value fits -----

  /** A converted value fits exactly when no item in it is a null for want of its group. */
  lemma {:induction false} ConvertedFits(c: Contract, f: Field, s: string)
    requires WellFormed(f) && ConvertScalar(f, s).Ok?
    ensures Fits(c, ConvertedSchema(f), ConvertScalar(f, s).value) <==> TakenScalar(f, s)
    ensures ConvertScalar(f, s).value != Null
    decreases f, 1
  {
    hide Convert, ConvertRule, ConvertItems, SetEntries, RuleSchema, ObjectOf, Faithful, WellFormedRules, TakenItem, TakenEntries;
    match f.kind {
      case ArrayField =>
        if s == "" {
          assert ItemsFit(c, Items(ConvertedSchema(f)).value, []);
        } else {
          ConvertedItemsFit(c, f, f.split(s));
        }
      case ObjectField =>
        var m := f.regex.value.find(s).value;
        assert FindsWhatItSays(f.regex.value, s) by {
          FaithfulOn(f.regex.value, s);
        }
        OneAlternative(f.regex.value, m.events);
        MatchFits(c, [Alternative(f.regex.value, [])], 0, s[m.from..m.to], m.events, f.fields);
        assert ValueEntries([]) + GroupEntries(f.regex.value.tree, m.events) == GroupEntries(f.regex.value.tree, m.events);
      case _ =>
    }
  }

  lemma {:induction false} FaithfulOn(re: Regexp, s: string)
    requires Faithful(re)
    ensures FindsWhatItSays(re, s)
  {
  }

  /** A converted array fits exactly when every part takes its item's group. */
  lemma {:induction false} ConvertedItemsFit(c: Contract, f: Field, parts: seq<string>)
    requires WellFormed(f) && f.kind.ArrayField? && ConvertItems(f.items, parts).Ok?
    ensures ItemsFit(c, Items(ConvertedSchema(f)).value, ConvertItems(f.items, parts).value) <==>
      f.items.None? || forall i :: 0 <= i < |parts| ==> TakenItem(f.items.value, TrimSpace(parts[i]))
    decreases f, 0, |parts|
  {
    hide ConvertRule, WellFormed, TakenItem, Fits, ItemsFit, ConvertedSchema, ItemSchema;
    ArraySchema(f);
    ArrayItems(f);
    var schema := Items(ConvertedSchema(f)).value;
    NoItemsFit(c, schema);
    if parts != [] {
      var n := |parts| - 1;
      ConvertedItemsFit(c, f, parts[..n]);
      assert forall i :: 0 <= i < n ==> parts[..n][i] == parts[i];
      var before := ConvertItems(f.items, parts[..n]).value;
      var text := TrimSpace(parts[n]);
      if f.items.None? {
        ItemsFitSnoc(c, schema, before, Str(text));
        NameFits(c, text);
      } else {
        var items := f.items.value;
        ItemFits(c, items, text);
        var v := ConvertRule(items, Some(text), {}).value;
        if v.Kept? {
          ItemsFitSnoc(c, schema, before, v.value);
        }
      }
    }
  }

  lemma {:induction false} ArraySchema(f: Field)
    requires f.kind.ArrayField?
    ensures Items(ConvertedSchema(f)) == Some(if f.items.None? then Typed([StringKind]) else ItemSchema(f.items.value))
  {
    hide Nullable;
  }

  lemma {:induction false} ArrayItems(f: Field)
    requires WellFormed(f)
    ensures f.items.Some? ==> WellFormed(f.items.value)
  {
  }

  lemma {:induction false} NoItemsFit(c: Contract, s: Schema)
    ensures ItemsFit(c, s, [])
  {
  }

  lemma {:induction false} NameFits(c: Contract, key: string)
    ensures Fits(c, Typed([StringKind]), Str(key))
  {
  }

  /** What the items of an array are said to be (converted). */
  function ItemSchema(items: Field): (s: Schema)
    ensures s.Body?
  {
    if items.nullIf != [] && !items.omits then Nullable(ConvertedSchema(items)) else ConvertedSchema(items)
  }

  /** An item that is kept fits exactly when it takes its group; one that is left out took it. */
  lemma {:induction false} ItemFits(c: Contract, items: Field, text: string)
    requires WellFormed(items) && ConvertRule(items, Some(text), {}).Ok?
    ensures
      var v := ConvertRule(items, Some(text), {}).value;
      if v.Kept? then Fits(c, ItemSchema(items), v.value) <==> TakenItem(items, text) else TakenItem(items, text)
    decreases items, 3
  {
    hide WellFormed, ConvertScalar, ConvertedSchema, Fits, OptionalGroup, GroupText, StringRules;
    RuleFits(c, items, Some(text), {}, false);
    NullIsKept(items, text);
    var v := ConvertRule(items, Some(text), {}).value;
    if v.Kept? && RuleSchema(items, false) != ItemSchema(items) {
      if v.value == Null {
        NullFitsNot(c, ConvertedSchema(items));
      } else {
        WiderFits(c, ConvertedSchema(items), v.value);
      }
    }
  }

  lemma {:induction false} NullFitsNot(c: Contract, s: Schema)
    requires s.Body? && s.types != [] && NullKind !in s.types
    ensures !Fits(c, s, Null)
  {
  }

  lemma {:induction false} NullIsNoType(f: Field)
    ensures NullKind !in ConvertedSchema(f).types
  {
  }

  lemma {:induction false} ScalarIsNotNull(f: Field, s: string)
    ensures ConvertScalar(f, s).Ok? ==> ConvertScalar(f, s).value != Null
  {
  }

  /** Where null is no type of the items, an item is null exactly for want of its group. */
  lemma {:induction false} NullIsKept(items: Field, text: string)
    requires WellFormed(items) && ConvertRule(items, Some(text), {}).Ok?
    ensures NullKind !in ConvertedSchema(items).types
    ensures NullItem(items, text) ==> ConvertRule(items, Some(text), {}) == Ok(Kept(Null))
    ensures ConvertRule(items, Some(text), {}) == Ok(Kept(Null)) && items.nullIf == [] ==> NullItem(items, text)
    ensures NullItem(items, text) ==> RuleSchema(items, false) == Nullable(ConvertedSchema(items)) && items.kind.StringField?
  {
    hide WellFormed, ConvertedSchema, GroupText, OptionalGroup, ConvertScalar;
    NullIsNoType(items);
    var s := if items.strips then items.strip(text) else text;
    if items.kind.StringField? {
      var kept := StringRules(items, s, {}).value;
      if kept.None? {
        NoGroupIsOptional(items, s, {});
        DecodedIsText(items, s);
      } else {
        ScalarIsNotNull(items, kept.value);
      }
    } else {
      ScalarIsNotNull(items, s);
    }
  }

  /** No text is left exactly when the group took no part. */
  lemma {:induction false} DecodedIsText(f: Field, s: string)
    ensures StringRules(f, s, {}) == Ok(None) <==> GroupText(f, s) == Ok(None)
  {
    hide GroupText;
  }

  /** What a rule keeps fits the rule's schema exactly when no item in it is a null for want of its group; a rule leaves
      a key out only where the schema does not require it. */
  lemma {:induction false} RuleFits(c: Contract, f: Field, v: Option<string>, present: set<string>, missing: bool)
    requires WellFormed(f) && ConvertRule(f, v, present).Ok? && (v.None? ==> missing)
    ensures ConvertRule(f, v, present).value.Kept? ==>
      (Fits(c, RuleSchema(f, missing), ConvertRule(f, v, present).value.value) <==> TakenRule(f, v, present))
    ensures ConvertRule(f, v, present).value.Omitted? ==> Omittable(Some(f), missing) && TakenRule(f, v, present)
    decreases f, 2
  {
    hide WellFormed, ConvertScalar, ConvertedSchema, Fits, OptionalGroup, StringRules, TakenScalar;
    NullFits(c, ConvertedSchema(f));
    if v.Some? {
      var s := if f.strips then f.strip(v.value) else v.value;
      var kept := if f.kind.StringField? then StringRules(f, s, present).value else Some(s);
      if kept.None? {
        NoGroupIsOptional(f, s, present);
      } else if TrimSpace(kept.value) !in f.nullIf {
        ConvertedFits(c, f, kept.value);
        StringIsTaken(f, kept.value);
        WiderFits(c, ConvertedSchema(f), ConvertScalar(f, kept.value).value);
      }
    }
  }

  lemma {:induction false} StringIsTaken(f: Field, s: string)
    ensures f.kind.StringField? ==> TakenScalar(f, s)
  {
  }

  /** A group that took no part is one the syntax says may be left out. */
  lemma {:induction false} NoGroupIsOptional(f: Field, s: string, present: set<string>)
    requires WellFormed(f) && f.kind.StringField? && StringRules(f, s, present) == Ok(None)
    ensures OptionalGroup(f)
  {
    var re := f.regex.value;
    var m := re.find(s).value;
    FaithfulOn(re, s);
    var captures := Captures(re.tree);
    var n := Seek(captures, f.group);
    CapturesHold(re.tree, s[m.from..m.to], m.events, captures[n]);
  }

  // ----- an object fits -----

  /** What is read for a key agrees with what is said about it. */
  predicate Agrees(g: Capture, raw: Option<string>) {
    (raw.None? ==> g.optional) && (raw.Some? && g.values.Some? ==> raw.value in g.values.value)
  }

  /** The value of a key fits what is said about the key, the list of its values included. */
  lemma {:induction false} KeyFits(c: Contract, g: Capture, e: Entry, rules: seq<Rule>)
    requires WellFormedRules(rules) && g.name == e.name && Agrees(g, e.raw) && Came(rules, e).Ok?
    ensures Came(rules, e).value.Kept? ==> (Fits(c, KeySchema(g, rules), Came(rules, e).value.value) <==> TakenEntry(rules, e))
    ensures Came(rules, e).value.Omitted? ==> Omittable(RuleOf(rules, g.name), g.optional) && TakenEntry(rules, e)
    decreases rules, 3
  {
    hide ConvertRule, RuleSchema, WellFormed, FieldEnum, Omittable, TakenRule;
    var f := RuleOf(rules, g.name);
    if f.None? {
      PlainFits(c, g, e.raw);
    } else {
      RuleFits(c, f.value, e.raw, e.present, g.optional);
      if Came(rules, e).value.Kept? && FieldEnum(g.values, f).Some? && NullKind !in RuleSchema(f.value, g.optional).types {
        EnumHolds(g, f.value, e.raw, e.present);
        ListedStrings(g.values, f.value);
        StringRuleIsTaken(f.value, e.raw, e.present);
        ListedFits(c, RuleSchema(f.value, g.optional), FieldEnum(g.values, f).value, Came(rules, e).value.value);
      }
    }
  }

  lemma {:induction false} StringRuleIsTaken(f: Field, v: Option<string>, present: set<string>)
    ensures f.kind.StringField? ==> TakenRule(f, v, present)
  {
  }

  lemma {:induction false} PlainFits(c: Contract, g: Capture, raw: Option<string>)
    requires Agrees(g, raw)
    ensures FieldEnum(g.values, None) == g.values
    ensures
      var s := Typed(if g.optional then [StringKind, NullKind] else [StringKind]);
      var v := if raw.None? then Null else Str(raw.value);
      Fits(c, if g.values.Some? && NullKind !in s.types then s.(enums := g.values.value) else s, v)
  {
  }

  lemma {:induction false} ListedFits(c: Contract, s: Schema, enums: seq<string>, v: Json)
    requires s.Body? && Fits(c, s, v) && v.Str? && v.text in enums
    ensures Fits(c, s.(enums := enums), v)
  {
  }

  /** Where null is not among the types, a value that is not there is refused or left out. */
  lemma {:induction false} MissingIsNotKept(f: Field, missing: bool)
    requires (missing || OptionalGroup(f)) && NullKind !in RuleSchema(f, missing).types
    ensures Missing(f) != Ok(Kept(Null))
  {
    hide ConvertedSchema, OptionalGroup;
    NullInNullable(ConvertedSchema(f));
  }

  /** What a string field's own regex keeps is one of the texts its group can match. */
  lemma {:induction false} RegexKeepsListed(f: Field, s: string)
    requires WellFormed(f) && f.kind.StringField? && f.regex.Some? && FieldEnum(None, Some(f)).Some?
    requires GroupText(f, s).Ok? && GroupText(f, s).value.Some?
    ensures GroupText(f, s).value.value in FieldEnum(None, Some(f)).value
  {
    hide Faithful;
    var re := f.regex.value;
    var m := re.find(s).value;
    FaithfulOn(re, s);
    var captures := Captures(re.tree);
    CapturesHold(re.tree, s[m.from..m.to], m.events, captures[Seek(captures, f.group)]);
  }

  /** Where a list of values is given and null is not among the types, the value is one of the list. */
  lemma {:induction false} EnumHolds(g: Capture, f: Field, raw: Option<string>, present: set<string>)
    requires WellFormed(f) && Agrees(g, raw) && ConvertRule(f, raw, present).Ok?
    requires FieldEnum(g.values, Some(f)).Some? && NullKind !in RuleSchema(f, g.optional).types
    ensures
      var out := ConvertRule(f, raw, present).value;
      out.Kept? ==> out.value.Str? && out.value.text in FieldEnum(g.values, Some(f)).value
  {
    hide WellFormed, ConvertedSchema, RuleSchema, OptionalGroup, GroupText, FieldEnum, StringRules, ConvertRule;
    ListedStrings(g.values, f);
    if raw.None? {
      NothingRead(f, present);
      MissingIsNotKept(f, g.optional);
    } else {
      StringKept(f, raw.value, present);
      var text := GroupText(f, raw.value).value;
      if text.None? {
        NoGroupIsOptional(f, raw.value, present);
        MissingIsNotKept(f, g.optional);
      } else if f.regex.Some? {
        RegexKeepsListed(f, raw.value);
      } else {
        WithoutRegex(f, raw.value);
      }
    }
  }

  lemma {:induction false} NothingRead(f: Field, present: set<string>)
    ensures ConvertRule(f, None, present) == Missing(f)
  {
  }

  /** A string that is neither trimmed nor unescaped nor null for a word is the text of its group. */
  lemma {:induction false} StringKept(f: Field, s: string, present: set<string>)
    requires f.kind.StringField? && !f.strips && f.nullIf == [] && f.unescape.None? && ConvertRule(f, Some(s), present).Ok?
    ensures GroupText(f, s).Ok? && StringRules(f, s, present) == GroupText(f, s)
    ensures ConvertRule(f, Some(s), present) ==
      if GroupText(f, s).value.None? then Missing(f) else Ok(Kept(Str(GroupText(f, s).value.value)))
  {
    hide GroupText, ConvertText;
    var text := GroupText(f, s).value;
    if text.Some? {
      assert ConvertRule(f, Some(s), present) == ConvertText(f, text.value);
      TextKept(f, text.value);
    }
  }

  lemma {:induction false} TextKept(f: Field, text: string)
    requires f.kind.StringField? && f.nullIf == [] && ConvertText(f, text).Ok?
    ensures ConvertText(f, text) == Ok(Kept(Str(text)))
  {
    assert ConvertScalar(f, text) == Ok(Str(text));
  }

  lemma {:induction false} WithoutRegex(f: Field, s: string)
    requires f.regex.None?
    ensures GroupText(f, s) == Ok(Some(s))
  {
  }

  lemma {:induction false} ListedStrings(values: Option<seq<string>>, f: Field)
    requires FieldEnum(values, Some(f)).Some?
    ensures f.kind.StringField? && !f.strips && f.nullIf == [] && f.unescape.None?
    ensures f.regex.Some? ==> FieldEnum(values, Some(f)) == FieldEnum(None, Some(f))
    ensures f.regex.None? ==> FieldEnum(values, Some(f)) == values
  {
    if f.regex.Some? {
      assert !PlainString(f);
    }
  }

  lemma {:induction false} NullInNullable(s: Schema)
    requires s.Body?
    ensures NullKind in Nullable(s).types
  {
    assert (s.types + [NullKind])[|s.types|] == NullKind;
  }

  lemma {:induction false} RegexOf(f: Field, s: string)
    requires WellFormed(f) && f.regex.Some?
    ensures FindsWhatItSays(f.regex.value, s)
  {
    FaithfulOn(f.regex.value, s);
  }

  // ----- what the alternatives say together -----

  lemma {:induction false} MergeCovers(captures: seq<Capture>, c: Capture, u: Capture)
    requires u == c || Covered(captures, u)
    ensures Covered(Merge(captures, c), u)
  {
    var n, after := Seek(captures, c.name), Merge(captures, c);
    SeekMerged(captures, c, u.name);
    SeekMerged(captures, c, c.name);
  }

  /** What the list says about a name takes this use of it in. */
  predicate Covered(captures: seq<Capture>, u: Capture) {
    var n := Seek(captures, u.name);
    n < |captures| && (u.optional ==> captures[n].optional)
    && (captures[n].values.Some? ==> u.values.Some? && forall x :: x in u.values.value ==> x in captures[n].values.value)
  }

  lemma {:induction false} MergedCovers(captures: seq<Capture>, k: nat)
    requires k < |captures|
    ensures Covered(Merged(captures), captures[k])
  {
    hide Merge, Covered;
    var n := |captures| - 1;
    if k < n {
      MergedCovers(captures[..n], k);
    }
    MergeCovers(Merged(captures[..n]), captures[n], captures[k]);
  }

  /** The uses of one alternative are among those of all. */
  lemma {:induction false} UsesAmongAll(alts: seq<Alternative>, i: nat, k: nat) returns (m: nat)
    requires i < |alts| && k < |UsesOf(alts[i])|
    ensures m < |AllUses(alts)| && AllUses(alts)[m] == UsesOf(alts[i])[k]
  {
    hide UsesOf;
    var n := |alts| - 1;
    if i == n {
      m := |AllUses(alts[..n])| + k;
    } else {
      m := UsesAmongAll(alts[..n], i, k);
    }
  }

  lemma {:induction false} UsesAdd(a: seq<Capture>, b: seq<Capture>, name: string)
    ensures Uses(a + b, name) == Uses(a, name) + Uses(b, name)
  {
    if b == [] {
      assert a + b == a;
    } else {
      var n := |b| - 1;
      assert (a + b)[..|a + b| - 1] == a + b[..n];
      UsesAdd(a, b[..n], name);
    }
  }

  /** Names that are apart are used once each at most. */
  lemma {:induction false} UsedOnce(captures: seq<Capture>, name: string)
    requires NamesApart(NamesOf(captures))
    ensures Uses(captures, name) <= 1
    ensures Uses(captures, name) == 1 ==> exists k :: 0 <= k < |captures| && captures[k].name == name
    ensures Uses(captures, name) == 0 ==> forall k :: 0 <= k < |captures| ==> captures[k].name != name
  {
    if captures != [] {
      var n := |captures| - 1;
      var names := NamesOf(captures);
      forall i, j | 0 <= i < j < n ensures NamesOf(captures[..n])[i] != NamesOf(captures[..n])[j] {
        assert names[i] != names[j];
      }
      UsedOnce(captures[..n], name);
      assert forall k :: 0 <= k < n ==> captures[..n][k] == captures[k] && names[k] != names[n];
    }
  }

  /** A name used as often as there are alternatives is used in each. */
  lemma {:induction false} UsedInEach(alts: seq<Alternative>, name: string, i: nat)
    requires i < |alts| && forall j :: 0 <= j < |alts| ==> NamesApart(NamesOf(UsesOf(alts[j])))
    ensures Uses(AllUses(alts), name) <= |alts|
    ensures Uses(AllUses(alts), name) == |alts| ==> Uses(UsesOf(alts[i]), name) == 1
  {
    hide UsesOf, NamesApart;
    var n := |alts| - 1;
    UsesAdd(AllUses(alts[..n]), UsesOf(alts[n]), name);
    UsedOnce(UsesOf(alts[n]), name);
    if n > 0 {
      UsedInEach(alts[..n], name, if i < n then i else 0);
    } else {
      assert AllUses(alts[..n]) == [];
    }
  }

  lemma {:induction false} OneAlternative(re: Regexp, events: seq<Event>)
    requires Faithful(re)
    ensures WellFormedAlternative(Alternative(re, []))
    ensures forall rules :: ObjectFromMatch(Alternative(re, []), events, rules) == SetEntries(rules, GroupEntries(re.tree, events))
  {
    hide SetEntries;
    var a := Alternative(re, []);
    assert StatedCaptures([]) == [] && UsesOf(a) == Captures(re.tree);
    MergedKeeps(Walked(re.tree, false), events);
    assert NamesApart(NamesOf(UsesOf(a)));
    assert ValueEntries([]) + GroupEntries(re.tree, events) == GroupEntries(re.tree, events);
  }

  /** What is read for each key of an alternative agrees with what all of them say about the key. */
  lemma {:induction false} EntriesAgree(alts: seq<Alternative>, i: nat, text: string, events: seq<Event>, k: nat)
    requires i < |alts| && Derives(alts[i].re.tree, text, events)
    requires k < |UsesOf(alts[i])|
    ensures
      var entries := ValueEntries(alts[i].values) + GroupEntries(alts[i].re.tree, events);
      var groups := Groups(alts);
      var n := Seek(groups, UsesOf(alts[i])[k].name);
      && |entries| == |UsesOf(alts[i])| && entries[k].name == UsesOf(alts[i])[k].name
      && n < |groups| && Agrees(groups[n], entries[k].raw)
  {
    hide Derives, Merged, Walked;
    var u := UsesOf(alts[i])[k];
    var m := UsesAmongAll(alts, i, k);
    MergedCovers(AllUses(alts), m);
    var v := |alts[i].values|;
    if k >= v {
      CapturesHold(alts[i].re.tree, text, events, Captures(alts[i].re.tree)[k - v]);
    }
  }

  lemma {:induction false} LookupKeys(groups: seq<Capture>, rules: seq<Rule>, name: string, props: seq<Property>)
    requires |props| == |groups|
    requires forall i :: 0 <= i < |groups| ==> props[i] == Property(groups[i].name, KeySchema(groups[i], rules))
    requires Seek(groups, name) < |groups|
    ensures Lookup(props, name) == Some(KeySchema(groups[Seek(groups, name)], rules))
    decreases |groups|
  {
    hide KeySchema;
    if groups[0].name != name {
      LookupKeys(groups[1..], rules, name, props[1..]);
    }
  }

  lemma {:induction false} EntriesMatchUses(a: Alternative, events: seq<Event>)
    requires WellFormedAlternative(a)
    ensures
      var entries := ValueEntries(a.values) + GroupEntries(a.re.tree, events);
      && EntriesApart(entries) && |entries| == |UsesOf(a)|
      && forall k :: 0 <= k < |entries| ==> entries[k].name == UsesOf(a)[k].name
  {
    hide Faithful, Captures;
    var entries := ValueEntries(a.values) + GroupEntries(a.re.tree, events);
    var names := NamesOf(UsesOf(a));
    assert forall k :: 0 <= k < |entries| ==> entries[k].name == names[k];
  }

  /** A key the schema requires is one the match gives and no rule leaves out. */
  lemma {:induction false} RequiredIsThere(c: Contract, alts: seq<Alternative>, i: nat, text: string, events: seq<Event>, rules: seq<Rule>,
                                           name: string)
    requires WellFormedRules(rules) && i < |alts| && forall j :: 0 <= j < |alts| ==> WellFormedAlternative(alts[j])
    requires Derives(alts[i].re.tree, text, events) && ObjectFromMatch(alts[i], events, rules).Ok?
    requires name in RequiredKeys(Groups(alts), alts, rules)
    ensures Get(ObjectFromMatch(alts[i], events, rules).value, name).Some?
    decreases rules, 4
  {
    hide Derives, KeySchema, Fits, SetEntries, Lookup, Came, Agrees, UsesOf, WellFormedRules, Get, Faithful, Omittable, Merged, NamesApart, Walked;
    var entries := ValueEntries(alts[i].values) + GroupEntries(alts[i].re.tree, events);
    var groups := Groups(alts);
    var m :| 0 <= m < |groups| && groups[m].name == name && AlwaysThere(groups[m], alts, rules);
    UsedInEach(alts, name, i);
    UsedOnce(UsesOf(alts[i]), name);
    var k :| 0 <= k < |UsesOf(alts[i])| && UsesOf(alts[i])[k].name == name;
    EntriesMatchUses(alts[i], events);
    EntriesAreMembers(rules, entries);
    EntriesAgree(alts, i, text, events, k);
    MergedKeeps(AllUses(alts), events);
    assert Seek(groups, name) == m;
    KeyFits(c, groups[m], entries[k], rules);
  }

  lemma {:induction false} ObjectFits(c: Contract, s: Schema, members: seq<Member>)
    requires s.Body? && s.types == [ObjectKind] && s.enums == [] && s.states && s.extra.None?
    requires forall r :: 0 <= r < |s.required| ==> Get(members, s.required[r]).Some?
    requires forall i :: 0 <= i < |members| ==>
      Lookup(s.properties, members[i].key).Some? && Fits(c, Lookup(s.properties, members[i].key).value, members[i].value)
    ensures Fits(c, s, Obj(members))
  {
    hide Lookup, Get, MembersFit;
    NamedMembersFit(c, s, members) by {
      hide Fits;
    }
  }

  /** What fitting an object that names its keys says about its members. */
  lemma {:induction false} FitsBack(c: Contract, s: Schema, members: seq<Member>)
    requires s.Body? && s.states && s.extra.None? && Fits(c, s, Obj(members))
    ensures forall i :: 0 <= i < |members| ==>
      Lookup(s.properties, members[i].key).Some? && Fits(c, Lookup(s.properties, members[i].key).value, members[i].value)
    ensures forall r :: 0 <= r < |s.required| ==> Get(members, s.required[r]).Some?
  {
    hide Lookup, Get;
    MembersFitBack(c, s, members) by {
      hide Fits;
    }
  }

  lemma {:induction false} MembersFitBack(c: Contract, s: Schema, members: seq<Member>)
    requires s.Body? && s.states && s.extra.None? && MembersFit(c, s, members)
    ensures forall i :: 0 <= i < |members| ==>
      Lookup(s.properties, members[i].key).Some? && Fits(c, Lookup(s.properties, members[i].key).value, members[i].value)
    decreases members
  {
    hide Lookup, Fits;
    if members != [] {
      MembersFitBack(c, s, members[1..]);
      assert forall i :: 1 <= i < |members| ==> members[i] == members[1..][i - 1];
    }
  }

  /** The key of an alternative's entry is described, and what the entry came to fits exactly when it is taken. */
  lemma {:induction false} EntryKeyFits(c: Contract, alts: seq<Alternative>, i: nat, text: string, events: seq<Event>, rules: seq<Rule>, k: nat)
    requires WellFormedRules(rules) && i < |alts| && forall j :: 0 <= j < |alts| ==> WellFormedAlternative(alts[j])
    requires Derives(alts[i].re.tree, text, events) && k < |MatchEntries(alts[i], events)|
    requires Came(rules, MatchEntries(alts[i], events)[k]).Ok?
    ensures
      var s, e := ObjectOf(alts, rules), MatchEntries(alts[i], events)[k];
      var out := Came(rules, e).value;
      && Lookup(s.properties, e.name).Some?
      && (out.Kept? ==> (Fits(c, Lookup(s.properties, e.name).value, out.value) <==> TakenEntry(rules, e)))
      && (out.Omitted? ==> TakenEntry(rules, e))
    decreases rules, 4
  {
    hide Derives, KeySchema, Fits, Groups, Lookup, AlwaysThere, Came, Agrees, UsesOf, WellFormedRules, Faithful, TakenEntry, RequiredKeys;
    var e, groups, s := MatchEntries(alts[i], events)[k], Groups(alts), ObjectOf(alts, rules);
    EntriesMatchUses(alts[i], events);
    EntriesAgree(alts, i, text, events, k);
    KeyFits(c, groups[Seek(groups, e.name)], e, rules);
    LookupKeys(groups, rules, e.name, s.properties);
  }

  function MatchEntries(a: Alternative, events: seq<Event>): seq<Entry> {
    ValueEntries(a.values) + GroupEntries(a.re.tree, events)
  }

  lemma {:induction false} MemberIsOf(rules: seq<Rule>, e: Entry, m: Member)
    requires MemberOf(rules, e, m)
    ensures m.key == e.name && Came(rules, e) == Ok(Kept(m.value))
  {
  }

  /** Every member is what one of the entries came to. */
  lemma {:induction false} EntryOfMember(rules: seq<Rule>, entries: seq<Entry>, j: nat) returns (k: nat)
    requires EntriesApart(entries) && SetEntries(rules, entries).Ok? && j < |SetEntries(rules, entries).value|
    ensures k < |entries|
    ensures
      var m := SetEntries(rules, entries).value[j];
      m.key == entries[k].name && Came(rules, entries[k]) == Ok(Kept(m.value))
  {
    hide Came, SetEntries, MemberOf;
    EntriesAreMembers(rules, entries);
    var members := SetEntries(rules, entries).value;
    assert exists i :: 0 <= i < |entries| && MemberOf(rules, entries[i], members[j]);
    k :| 0 <= k < |entries| && MemberOf(rules, entries[k], members[j]);
    MemberIsOf(rules, entries[k], members[j]);
  }

  /** A member under the name of an entry is what that entry came to. */
  lemma {:induction false} MemberOfEntry(rules: seq<Rule>, entries: seq<Entry>, k: nat) returns (j: nat)
    requires EntriesApart(entries) && SetEntries(rules, entries).Ok? && k < |entries|
    requires Came(rules, entries[k]).Ok? && Came(rules, entries[k]).value.Kept?
    ensures j < |SetEntries(rules, entries).value| && MemberOf(rules, entries[k], SetEntries(rules, entries).value[j])
  {
    hide Came, SetEntries, MemberOf;
    EntriesAreMembers(rules, entries);
    var members := SetEntries(rules, entries).value;
    j := Find(members, entries[k].name);
    assert Get(members, entries[k].name).Some? && j < |members|;
    assert exists m :: 0 <= m < |entries| && MemberOf(rules, entries[m], members[j]);
    var m :| 0 <= m < |entries| && MemberOf(rules, entries[m], members[j]);
    MemberIsOf(rules, entries[m], members[j]);
    assert m == k;
  }

  /** The object of a match fits the schema of its alternatives exactly when no item in it is a null for want of its
      group. */
  lemma {:induction false} MatchFits(c: Contract, alts: seq<Alternative>, i: nat, text: string, events: seq<Event>, rules: seq<Rule>)
    requires WellFormedRules(rules) && i < |alts| && forall j :: 0 <= j < |alts| ==> WellFormedAlternative(alts[j])
    requires Derives(alts[i].re.tree, text, events) && ObjectFromMatch(alts[i], events, rules).Ok?
    ensures Fits(c, ObjectOf(alts, rules), Obj(ObjectFromMatch(alts[i], events, rules).value)) <==>
      TakenEntries(rules, MatchEntries(alts[i], events))
    decreases rules, 7
  {
    hide ObjectOf, Fits, TakenEntries, WellFormedRules, WellFormedAlternative, Derives, SetEntries;
    EachEntryTaken(rules, MatchEntries(alts[i], events));
    if forall k :: 0 <= k < |MatchEntries(alts[i], events)| ==> TakenEntry(rules, MatchEntries(alts[i], events)[k]) {
      TakenMatchFits(c, alts, i, text, events, rules);
    } else if Fits(c, ObjectOf(alts, rules), Obj(ObjectFromMatch(alts[i], events, rules).value)) {
      FittingMatchIsTaken(c, alts, i, text, events, rules);
    }
  }

  /** Every key is described, and every key that is required is there. */
  ghost predicate KeysHold(s: Schema, members: seq<Member>)
    requires s.Body?
  {
    && (forall j :: 0 <= j < |members| ==> Lookup(s.properties, members[j].key).Some?)
    && (forall r :: 0 <= r < |s.required| ==> Get(members, s.required[r]).Some?)
  }

  /** So it is in the object of a match. */
  lemma {:induction false} MatchIsNamed(c: Contract, alts: seq<Alternative>, i: nat, text: string, events: seq<Event>, rules: seq<Rule>)
    requires WellFormedRules(rules) && i < |alts| && forall j :: 0 <= j < |alts| ==> WellFormedAlternative(alts[j])
    requires Derives(alts[i].re.tree, text, events) && ObjectFromMatch(alts[i], events, rules).Ok?
    ensures KeysHold(ObjectOf(alts, rules), ObjectFromMatch(alts[i], events, rules).value)
    decreases rules, 5
  {
    hide Derives, KeySchema, Fits, SetEntries, Groups, Lookup, AlwaysThere, Came, WellFormedRules, Get, Faithful, TakenEntry, Captures;
    var members, s := ObjectFromMatch(alts[i], events, rules).value, ObjectOf(alts, rules);
    EntriesMatchUses(alts[i], events);
    forall j | 0 <= j < |members| ensures Lookup(s.properties, members[j].key).Some? {
      var k := EntryOfMember(rules, MatchEntries(alts[i], events), j);
      EntryKeyFits(c, alts, i, text, events, rules, k);
    }
    forall r | 0 <= r < |s.required| ensures Get(members, s.required[r]).Some? {
      RequiredIsThere(c, alts, i, text, events, rules, s.required[r]);
    }
  }

  lemma {:induction false} TakenMatchFits(c: Contract, alts: seq<Alternative>, i: nat, text: string, events: seq<Event>, rules: seq<Rule>)
    requires WellFormedRules(rules) && i < |alts| && forall j :: 0 <= j < |alts| ==> WellFormedAlternative(alts[j])
    requires Derives(alts[i].re.tree, text, events) && ObjectFromMatch(alts[i], events, rules).Ok?
    requires forall k :: 0 <= k < |MatchEntries(alts[i], events)| ==> TakenEntry(rules, MatchEntries(alts[i], events)[k])
    ensures Fits(c, ObjectOf(alts, rules), Obj(ObjectFromMatch(alts[i], events, rules).value))
    decreases rules, 6
  {
    hide Derives, KeySchema, Fits, SetEntries, Groups, Lookup, AlwaysThere, Came, WellFormedRules, Get, Faithful, TakenEntry, Captures, MemberOf;
    var entries := MatchEntries(alts[i], events);
    EntriesMatchUses(alts[i], events);
    MatchIsNamed(c, alts, i, text, events, rules);
    var members, s := ObjectFromMatch(alts[i], events, rules).value, ObjectOf(alts, rules);
    assert KeysHold(s, members);
    forall j | 0 <= j < |members| ensures Fits(c, Lookup(s.properties, members[j].key).value, members[j].value) {
      var k := EntryOfMember(rules, entries, j);
      EntryKeyFits(c, alts, i, text, events, rules, k);
    }
    ObjectFits(c, s, members);
  }

  lemma {:induction false} FittingMatchIsTaken(c: Contract, alts: seq<Alternative>, i: nat, text: string, events: seq<Event>, rules: seq<Rule>)
    requires WellFormedRules(rules) && i < |alts| && forall j :: 0 <= j < |alts| ==> WellFormedAlternative(alts[j])
    requires Derives(alts[i].re.tree, text, events) && ObjectFromMatch(alts[i], events, rules).Ok?
    requires Fits(c, ObjectOf(alts, rules), Obj(ObjectFromMatch(alts[i], events, rules).value))
    ensures forall k :: 0 <= k < |MatchEntries(alts[i], events)| ==> TakenEntry(rules, MatchEntries(alts[i], events)[k])
    decreases rules, 5
  {
    hide Derives, KeySchema, Fits, SetEntries, Groups, Lookup, AlwaysThere, Came, WellFormedRules, Get, Faithful, TakenEntry, Captures, MemberOf;
    var entries := MatchEntries(alts[i], events);
    var members := ObjectFromMatch(alts[i], events, rules).value;
    EntriesMatchUses(alts[i], events);
    EntriesAreMembers(rules, entries);
    FitsBack(c, ObjectOf(alts, rules), members);
    forall k | 0 <= k < |entries| ensures TakenEntry(rules, entries[k]) {
      EntryKeyFits(c, alts, i, text, events, rules, k);
      if Came(rules, entries[k]).value.Kept? {
        var j := MemberOfEntry(rules, entries, k);
        MemberIsOf(rules, entries[k], members[j]);
      }
    }
  }

  // ----- the object's schema as it is built -----

  /** What has been met of one name: how many alternatives have it, and what they say together. */
  datatype GroupUse = GroupUse(uses: nat, optional: bool, values: Option<seq<string>>)

  /** The names in the order they were met, and what is known of each. */
  ghost predicate Tabled(order: seq<string>, table: map<string, GroupUse>, uses: seq<Capture>) {
    && order == NamesOf(Merged(uses)) && NamesApart(order)
    && (forall name :: name in table <==> name in order)
    && forall i :: 0 <= i < |order| ==>
      table[order[i]] == GroupUse(Uses(uses, order[i]), Merged(uses)[i].optional, Merged(uses)[i].values)
  }

  function NoteUse(table: map<string, GroupUse>, c: Capture): GroupUse {
    if c.name in table then
      GroupUse(table[c.name].uses + 1, table[c.name].optional || c.optional, UnionEnum(table[c.name].values, c.values))
    else GroupUse(1, c.optional, c.values)
  }

  lemma {:induction false} OneMoreUse(uses: seq<Capture>, c: Capture, name: string)
    ensures Uses(uses + [c], name) == Uses(uses, name) + if c.name == name then 1 else 0
    ensures Merged(uses + [c]) == Merge(Merged(uses), c)
  {
    hide Merge;
    assert (uses + [c])[..|uses|] == uses;
  }

  function MergedUse(a: Capture, c: Capture): Capture {
    Capture(c.name, a.optional || c.optional, UnionEnum(a.values, c.values))
  }

  /** Merging one more use adds its name at the end, or changes what is said of it. */
  lemma {:induction false} MergeNames(before: seq<Capture>, c: Capture)
    requires NamesApart(NamesOf(before))
    ensures NamesApart(NamesOf(Merge(before, c)))
    ensures
      var n := Seek(before, c.name);
      && (c.name in NamesOf(before) <==> n < |before|)
      && NamesOf(Merge(before, c)) == (if n < |before| then NamesOf(before) else NamesOf(before) + [c.name])
      && (forall i :: 0 <= i < |before| && i != n ==> Merge(before, c)[i] == before[i] && before[i].name != c.name)
      && (n < |before| ==> NamesOf(before)[n] == c.name && Merge(before, c)[n] == MergedUse(before[n], c))
      && (n == |before| ==> Merge(before, c)[n] == c)
  {
    hide UnionEnum;
    var n, names := Seek(before, c.name), NamesOf(before);
    if n < |before| {
      assert names[n] == c.name;
      forall i | 0 <= i < |before| && i != n ensures before[i].name != c.name {
        assert names[i] != names[n];
      }
      assert NamesOf(Merge(before, c)) == names;
    } else {
      assert forall i :: 0 <= i < |before| ==> names[i] != c.name;
      assert NamesOf(Merge(before, c)) == names + [c.name];
    }
  }

  /** One more use of a name. */
  lemma {:induction false} TableGrows(order: seq<string>, table: map<string, GroupUse>, uses: seq<Capture>, c: Capture)
    requires Tabled(order, table, uses)
    ensures Tabled(if c.name in table then order else order + [c.name], table[c.name := NoteUse(table, c)], uses + [c])
  {
    hide UnionEnum, NamesApart, NamesOf, Merge, Merged, Uses;
    var before := Merged(uses);
    var n := Seek(before, c.name);
    MergeNames(before, c);
    OneMoreUse(uses, c, c.name);
    if n == |before| {
      NotMerged(uses, c.name);
    }
    var later := if c.name in table then order else order + [c.name];
    NamesLength(before);
    NamesLength(Merge(before, c));
    assert |order| == |before| && |later| == |Merge(before, c)|;
    forall i | 0 <= i < |later|
      ensures table[c.name := NoteUse(table, c)][later[i]] ==
        GroupUse(Uses(uses + [c], later[i]), Merged(uses + [c])[i].optional, Merged(uses + [c])[i].values)
    {
      OneMoreUse(uses, c, later[i]);
      if i != n {
        assert order[i] == before[i].name;
      }
    }
  }

  lemma {:induction false} NamesLength(captures: seq<Capture>)
    ensures |NamesOf(captures)| == |captures|
    ensures forall i :: 0 <= i < |captures| ==> NamesOf(captures)[i] == captures[i].name
  {
  }

  /** A name that is not among the merged ones was never used. */
  lemma {:induction false} NotMerged(uses: seq<Capture>, name: string)
    requires Seek(Merged(uses), name) == |Merged(uses)|
    ensures Uses(uses, name) == 0
  {
    hide Merge;
    if uses != [] {
      var n := |uses| - 1;
      SeekMerged(Merged(uses[..n]), uses[n], name);
      SeekMerged(Merged(uses[..n]), uses[n], uses[n].name);
      NotMerged(uses[..n], name);
    }
  }

  /** The uses of one alternative, noted after those before it. */
  method NoteAll(uses: seq<Capture>, order0: seq<string>, table0: map<string, GroupUse>, ghost before: seq<Capture>)
    returns (order: seq<string>, table: map<string, GroupUse>)
    requires Tabled(order0, table0, before)
    ensures Tabled(order, table, before + uses)
  {
    hide Tabled, NoteUse;
    order, table := order0, table0;
    assert before + uses[..0] == before;
    for k := 0 to |uses|
      invariant Tabled(order, table, before + uses[..k])
    {
      var c := uses[k];
      TableGrows(order, table, before + uses[..k], c);
      assert before + uses[..k] + [c] == before + uses[..k + 1];
      var noted := NoteUse(table, c);
      if c.name !in table {
        order := order + [c.name];
      }
      table := table[c.name := noted];
    }
    assert uses[..|uses|] == uses;
  }

  /** Every key of the alternatives, with how many of them have it (the loops of regexObject). */
  method ReadGroups(alts: seq<Alternative>) returns (order: seq<string>, table: map<string, GroupUse>)
    ensures Tabled(order, table, AllUses(alts))
  {
    hide Tabled, Captures;
    order, table := [], map[];
    NothingTabled();
    for i := 0 to |alts|
      invariant Tabled(order, table, AllUses(alts[..i]))
    {
      var captures := ReadCaptures(alts[i].re.tree);
      assert alts[..i + 1][..i] == alts[..i];
      order, table := NoteAll(StatedCaptures(alts[i].values) + captures, order, table, AllUses(alts[..i]));
    }
    assert alts[..|alts|] == alts;
  }

  lemma {:induction false} NothingTabled()
    ensures Tabled([], map[], AllUses([]))
  {
  }

  lemma {:induction false} TableSays(order: seq<string>, table: map<string, GroupUse>, alts: seq<Alternative>, i: nat)
    requires Tabled(order, table, AllUses(alts)) && i < |order|
    ensures |order| == |Groups(alts)| && order[i] in table
    ensures Groups(alts)[i] == Capture(order[i], table[order[i]].optional, table[order[i]].values)
    ensures table[order[i]].uses == Uses(AllUses(alts), order[i])
  {
    hide AllUses, Merged, Uses, NamesOf, NamesApart;
    NamesLength(Groups(alts));
    assert order[i] in order;
  }

  /** regexObject */
  method DescribeObject(alts: seq<Alternative>, rules: seq<Rule>) returns (s: Schema)
    ensures s == ObjectOf(alts, rules)
  {
    hide KeySchema, AllUses, Omittable, Groups, Tabled;
    var order, table := ReadGroups(alts);
    ghost var groups := Groups(alts);
    TabledLength(order, table, alts);
    var props, required := [], [];
    for i := 0 to |order|
      invariant |props| == i && forall k :: 0 <= k < i ==> props[k] == Property(groups[k].name, KeySchema(groups[k], rules))
      invariant required == RequiredKeys(groups[..i], alts, rules)
    {
      var name := order[i];
      TableSays(order, table, alts, i);
      var g := Capture(name, table[name].optional, table[name].values);
      assert groups[..i + 1][..i] == groups[..i];
      props := props + [Property(name, KeySchema(g, rules))];
      if table[name].uses == |alts| && !Omittable(RuleOf(rules, name), g.optional) {
        required := required + [name];
      }
    }
    assert groups[..|order|] == groups;
    s := Body([ObjectKind], [], true, props, required, None, None);
  }

  lemma {:induction false} TabledLength(order: seq<string>, table: map<string, GroupUse>, alts: seq<Alternative>)
    requires Tabled(order, table, AllUses(alts))
    ensures |order| == |Groups(alts)|
  {
    NamesLength(Groups(alts));
  }
}
