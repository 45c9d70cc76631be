/**
 The documents a generated contract describes (internal/schema/generate.go), said of the documents: which keys an object has, which of
 them it must have, and what stands under each. A contract accepts these documents and no others.
 */
module Shapes {
  import opened Lines
  import opened Json
  import opened Patterns
  import opened Conversions
  import opened Contracts
  import opened Typing
  import opened Generation
  import opened NamedOnce
  import Growth

  // ----- what a field's value may be -----

  predicate IsWhole(v: Json) {
    v.Number? && v.value == v.value.Floor as real
  }

  /** A rule lets its value be null: one that may be missing, or that is read as null, and is not left out then. */
  predicate MayBeNull(f: Field, missing: bool) {
    (((missing || OptionalGroup(f)) && !f.required) || f.nullIf != []) && !f.omits
  }

  /** A rule lets its key be left out. */
  predicate MayBeLeftOut(f: Option<Field>, missing: bool) {
    f.Some? && f.value.omits && (missing || f.value.nullIf != [] || OptionalGroup(f.value))
  }

  /** What a field converts to. */
  ghost predicate IsConverted(f: Field, v: Json)
    decreases f, 0
  {
    match f.kind
    case IntField => IsWhole(v)
    case FloatField => v.Number?
    case DurationField => v.Number?
    case BoolField => v.Bool?
    case ArrayField => v.Arr? && forall i :: 0 <= i < |v.items| ==> IsItem(f, v.items[i])
    case ObjectField =>
      if f.regex.None? then v.Obj? else IsMatch([Alternative(f.regex.value, [])], f.fields, v)
    case _ => v.Str?
  }

  ghost predicate IsItem(f: Field, v: Json)
    decreases f, 0, 0
  {
    if f.items.None? then v.Str?
    else IsConverted(f.items.value, v) || (v.Null? && f.items.value.nullIf != [] && !f.items.value.omits)
  }

  /** What a rule makes of a value that may be missing. */
  ghost predicate IsRuled(f: Field, missing: bool, v: Json)
    decreases f, 1
  {
    IsConverted(f, v) || (v.Null? && MayBeNull(f, missing))
  }

  /** What stands under the key of a group: text where no rule is about it, and where the group's texts are a list, and null is
      none of its values, one of them. */
  ghost predicate IsCaptured(g: Capture, rules: seq<Rule>, v: Json)
    decreases rules, 0
  {
    var f := RuleOf(rules, g.name);
    var nullable := if f.None? then g.optional else MayBeNull(f.value, g.optional);
    var listed := FieldEnum(g.values, f);
    && (if f.None? then v.Str? || (v.Null? && g.optional) else IsRuled(f.value, g.optional, v))
    && (listed.Some? && listed.value != [] && !nullable ==> IsListed(v, listed.value))
  }

  /** A name is used by every alternative. */
  ghost predicate InEvery(alts: seq<Alternative>, name: string) {
    forall i :: 0 <= i < |alts| ==> UsesName(alts[i], name)
  }

  ghost predicate UsesName(a: Alternative, name: string) {
    exists k :: 0 <= k < |UsesOf(a)| && UsesOf(a)[k].name == name
  }

  ghost predicate IsGroupOf(groups: seq<Capture>, rules: seq<Rule>, m: Member, k: nat)
    decreases rules, 1
  {
    k < |groups| && groups[k].name == m.key && IsCaptured(groups[k], rules, m.value)
  }

  ghost predicate IsAGroup(groups: seq<Capture>, rules: seq<Rule>, m: Member)
    decreases rules, 2
  {
    exists k: nat :: IsGroupOf(groups, rules, m, k)
  }

  /** The group is in every alternative, and no rule may leave it out. */
  ghost predicate MustBeThere(alts: seq<Alternative>, rules: seq<Rule>, g: Capture) {
    InEvery(alts, g.name) && !MayBeLeftOut(RuleOf(rules, g.name), g.optional)
  }

  /** The object of a match: each of its keys is a group of the alternatives, and a group that all of them have, and that no
      rule may leave out, is one of its keys. */
  ghost predicate IsMatch(alts: seq<Alternative>, rules: seq<Rule>, v: Json)
    decreases rules, 3
  {
    var groups := Groups(alts);
    && v.Obj?
    && (forall i :: 0 <= i < |v.members| ==> IsAGroup(groups, rules, v.members[i]))
    && (forall k :: 0 <= k < |groups| ==> MustBeThere(alts, rules, groups[k]) ==> HasKey(v.members, groups[k].name))
  }

  // ----- objects that name their keys -----

  /** An object that names its keys, each once, is fit by the objects that have the required ones and no others, each with a value
      that fits. */
  lemma {:induction false} ClosedExactly(c: Contract, s: Schema, v: Json)
    requires s.Body? && s.types == [ObjectKind] && s.enums == [] && s.states && s.extra.None? && PropertiesApart(s.properties)
    ensures Fits(c, s, v) <==>
      && v.Obj? && (forall name :: name in s.required ==> HasKey(v.members, name))
      && forall i :: 0 <= i < |v.members| ==> IsNamed(c, s, v.members[i])
  {
    hide Fits, IsAllowed, IsNamed, Growth.NoneIsNamed;
    FitsExactly(c, s, v);
    if v.Obj? {
      assert IsOfType(v, s.types) by { assert s.types[0] == ObjectKind; }
      forall i | 0 <= i < |v.members| ensures IsAllowed(c, s, v.members[i]) <==> IsNamed(c, s, v.members[i]) {
        AllowedIsNamed(c, s, v.members[i]);
      }
    } else {
      OtherIsNoObject(v);
    }
  }

  lemma {:induction false} OtherIsNoObject(v: Json)
    requires !v.Obj?
    ensures !IsOfType(v, [ObjectKind])
  {
    var types := [ObjectKind];
    assert forall k :: k in types ==> k == ObjectKind;
  }

  ghost predicate NamedAs(c: Contract, s: Schema, m: Member, k: nat)
    requires s.Body?
  {
    k < |s.properties| && s.properties[k].name == m.key && Fits(c, s.properties[k].schema, m.value)
  }

  /** One of the properties has the key of the member, and its value fits it. */
  ghost predicate IsNamed(c: Contract, s: Schema, m: Member)
    requires s.Body?
  {
    exists k: nat :: NamedAs(c, s, m, k)
  }

  lemma {:induction false} AllowedIsNamed(c: Contract, s: Schema, m: Member)
    requires s.Body? && s.states && PropertiesApart(s.properties)
    ensures IsNamed(c, s, m) ==> IsAllowed(c, s, m)
    ensures IsAllowed(c, s, m) ==>
      IsNamed(c, s, m)
      || (Growth.NoneIsNamed(s.properties, m.key) && s.extra.Some? && Fits(c, s.extra.value, m.value))
    ensures Growth.NoneIsNamed(s.properties, m.key) && s.extra.Some? && Fits(c, s.extra.value, m.value) ==> IsAllowed(c, s, m)
  {
    hide Fits;
    if k: nat :| NamedAs(c, s, m, k) {
      assert forall i: nat :: IsTheFirst(s.properties, i, m.key) ==> i == k;
    }
    if IsAllowed(c, s, m) && !Growth.NoneIsNamed(s.properties, m.key) {
      var k :| 0 <= k < |s.properties| && s.properties[k].name == m.key;
      assert IsTheFirst(s.properties, k, m.key);
      assert NamedAs(c, s, m, k);
    }
  }

  /** The same where other keys may stand too. */
  lemma {:induction false} OpenExactly(c: Contract, s: Schema, v: Json)
    requires s.Body? && s.types == [ObjectKind] && s.enums == [] && s.states && s.extra.Some? && PropertiesApart(s.properties)
    ensures Fits(c, s, v) <==>
      && v.Obj? && (forall name :: name in s.required ==> HasKey(v.members, name))
      && forall i :: 0 <= i < |v.members| ==>
        || IsNamed(c, s, v.members[i])
        || (Growth.NoneIsNamed(s.properties, v.members[i].key) && Fits(c, s.extra.value, v.members[i].value))
  {
    hide Fits, IsAllowed, IsNamed, Growth.NoneIsNamed;
    FitsExactly(c, s, v);
    if v.Obj? {
      assert IsOfType(v, s.types) by { assert s.types[0] == ObjectKind; }
      forall i | 0 <= i < |v.members|
        ensures IsAllowed(c, s, v.members[i]) <==>
          || IsNamed(c, s, v.members[i])
          || (Growth.NoneIsNamed(s.properties, v.members[i].key) && Fits(c, s.extra.value, v.members[i].value))
      {
        AllowedIsNamed(c, s, v.members[i]);
      }
    } else {
      OtherIsNoObject(v);
    }
  }

  lemma {:induction false} ListExactly(c: Contract, s: Schema, v: Json)
    ensures Fits(c, ListOf(s), v) <==> v.Arr? && forall i :: 0 <= i < |v.items| ==> Fits(c, s, v.items[i])
  {
    hide Fits;
    FitsExactly(c, ListOf(s), v);
    var types := [ArrayKind];
    assert types[0] == ArrayKind && forall k :: k in types ==> k == ArrayKind;
  }

  /** A description of types alone. */
  lemma {:induction false} TypedExactly(c: Contract, types: seq<Kind>, v: Json)
    ensures Fits(c, Typed(types), v) <==> IsOfType(v, types)
  {
    hide Fits;
    FitsExactly(c, Typed(types), v);
    if v.Obj? {
      forall i | 0 <= i < |v.members| ensures IsAllowed(c, Typed(types), v.members[i]) {
      }
    }
  }

  lemma {:induction false} OneTypeExactly(c: Contract, v: Json)
    ensures Fits(c, Typed([StringKind]), v) <==> v.Str?
    ensures Fits(c, Typed([IntegerKind]), v) <==> IsWhole(v)
    ensures Fits(c, Typed([NumberKind]), v) <==> v.Number?
    ensures Fits(c, Typed([BooleanKind]), v) <==> v.Bool?
    ensures Fits(c, Typed([ObjectKind]), v) <==> v.Obj?
    ensures Fits(c, Typed([StringKind, NullKind]), v) <==> v.Str? || v.Null?
  {
    hide Fits;
    TypedExactly(c, [StringKind], v);
    TypedExactly(c, [IntegerKind], v);
    TypedExactly(c, [NumberKind], v);
    TypedExactly(c, [BooleanKind], v);
    TypedExactly(c, [ObjectKind], v);
    TypedExactly(c, [StringKind, NullKind], v);
    OneTypeIs(v);
  }

  lemma {:induction false} OneTypeIs(v: Json)
    ensures IsOfType(v, [StringKind]) <==> v.Str?
    ensures IsOfType(v, [IntegerKind]) <==> IsWhole(v)
    ensures IsOfType(v, [NumberKind]) <==> v.Number?
    ensures IsOfType(v, [BooleanKind]) <==> v.Bool?
    ensures IsOfType(v, [ObjectKind]) <==> v.Obj?
    ensures IsOfType(v, [StringKind, NullKind]) <==> v.Str? || v.Null?
  {
    assert forall k: Kind, t: Kind :: t in [k] <==> t == k;
    assert forall t: Kind :: t in [StringKind, NullKind] <==> t == StringKind || t == NullKind;
  }

  /** Null besides. */
  lemma {:induction false} NullableExactly(c: Contract, s: Schema, v: Json)
    requires s.Body? && s.types != [] && s.enums == []
    ensures Fits(c, Nullable(s), v) <==> Fits(c, s, v) || v.Null?
  {
    hide Fits, NormalizeTypes;
    if v.Null? {
      NullFits(c, s);
    } else {
      WiderFits(c, s, v);
    }
  }

  lemma {:induction false} EnumExactly(c: Contract, s: Schema, enums: seq<string>, v: Json)
    requires s.Body? && s.enums == []
    ensures Fits(c, s.(enums := enums), v) <==> Fits(c, s, v) && (enums != [] ==> IsListed(v, enums))
  {
    hide Fits, IsAllowed;
    FitsExactly(c, s, v);
    FitsExactly(c, s.(enums := enums), v);
    if v.Obj? {
      forall i | 0 <= i < |v.members| ensures IsAllowed(c, s, v.members[i]) == IsAllowed(c, s.(enums := enums), v.members[i]) {
        AllowedAlike(c, s, enums, v.members[i]);
      }
    }
  }

  lemma {:induction false} AllowedAlike(c: Contract, s: Schema, enums: seq<string>, m: Member)
    requires s.Body?
    ensures IsAllowed(c, s, m) == IsAllowed(c, s.(enums := enums), m)
  {
    hide Fits;
  }

  // ----- the names every alternative has -----

  /** An alternative uses a name once. */
  ghost predicate UsesApart(alts: seq<Alternative>) {
    forall i :: 0 <= i < |alts| ==> NamesApart(NamesOf(UsesOf(alts[i])))
  }

  lemma {:induction false} UsedOnce(uses: seq<Capture>, name: string)
    requires NamesApart(NamesOf(uses))
    ensures Uses(uses, name) == if exists k :: 0 <= k < |uses| && uses[k].name == name then 1 else 0
  {
    if uses != [] {
      var n := |uses| - 1;
      var init := uses[..n];
      var names := NamesOf(uses);
      assert forall k :: 0 <= k < n ==> NamesOf(init)[k] == names[k];
      UsedOnce(init, name);
      assert forall k :: 0 <= k < n ==> init[k] == uses[k] && names[k] == uses[k].name;
      if uses[n].name == name {
        assert names[n] == name;
        assert forall k :: 0 <= k < n ==> names[k] != names[n];
      }
    }
  }

  lemma {:induction false} UsedByAll(alts: seq<Alternative>, name: string)
    requires UsesApart(alts)
    ensures Uses(AllUses(alts), name) <= |alts|
    ensures Uses(AllUses(alts), name) == |alts| <==> InEvery(alts, name)
  {
    hide UsesOf, NamesOf, NamesApart, Uses;
    if alts == [] {
      NothingUsed(name);
    } else {
      var n := |alts| - 1;
      var init := alts[..n];
      assert forall i :: 0 <= i < n ==> init[i] == alts[i];
      UsedByAll(init, name);
      UsesAdd(AllUses(init), UsesOf(alts[n]), name);
      UsedOnce(UsesOf(alts[n]), name);
      assert InEvery(alts, name) <==> InEvery(init, name) && UsesName(alts[n], name);
    }
  }

  lemma {:induction false} NothingUsed(name: string)
    ensures Uses([], name) == 0
  {
  }

  lemma {:induction false} RequiredExactly(groups: seq<Capture>, alts: seq<Alternative>, rules: seq<Rule>, name: string)
    ensures name in RequiredKeys(groups, alts, rules) <==>
      exists k :: 0 <= k < |groups| && groups[k].name == name && AlwaysThere(groups[k], alts, rules)
  {
    hide AlwaysThere;
    if groups != [] {
      var n := |groups| - 1;
      RequiredExactly(groups[..n], alts, rules, name);
      if k :| 0 <= k < |groups| && groups[k].name == name && AlwaysThere(groups[k], alts, rules) {
        assert k < n ==> groups[..n][k] == groups[k];
      }
    }
  }

  lemma {:induction false} AlwaysExactly(alts: seq<Alternative>, rules: seq<Rule>, g: Capture)
    requires UsesApart(alts)
    ensures AlwaysThere(g, alts, rules) <==> MustBeThere(alts, rules, g)
  {
    hide InEvery, Uses, AllUses, RuleOf;
    UsedByAll(alts, g.name);
  }

  // ----- a field's schema -----

  lemma {:induction false} ConvertedExactly(c: Contract, f: Field, v: Json)
    ensures Fits(c, ConvertedSchema(f), v) <==> IsConverted(f, v)
    decreases f, 0
  {
    hide Fits, ObjectOf, IsMatch, Typed, ListOf, Nullable, IsWhole, IsItem;
    OneTypeExactly(c, v);
    match f.kind {
      case ArrayField =>
        ArraySchemaIs(f);
        var s := ItemsOf(f);
        ListExactly(c, s, v);
        if v.Arr? {
          forall i | 0 <= i < |v.items| ensures Fits(c, s, v.items[i]) <==> IsItem(f, v.items[i]) {
            ItemExactly(c, f, v.items[i]);
          }
        }
      case ObjectField =>
        if f.regex.Some? {
          var alts := [Alternative(f.regex.value, [])];
          OneApart(f.regex.value);
          MatchExactly(c, alts, f.fields, v);
        }
      case _ =>
    }
  }

  function ItemsOf(f: Field): Schema {
    if f.items.None? then Typed([StringKind])
    else
      var items := ConvertedSchema(f.items.value);
      if f.items.value.nullIf != [] && !f.items.value.omits then Nullable(items) else items
  }

  lemma {:induction false} ArraySchemaIs(f: Field)
    requires f.kind.ArrayField?
    ensures ConvertedSchema(f) == ListOf(ItemsOf(f))
  {
  }

  lemma {:induction false} ItemExactly(c: Contract, f: Field, v: Json)
    ensures Fits(c, ItemsOf(f), v) <==> IsItem(f, v)
    decreases f, 0, 0
  {
    hide Fits, ConvertedSchema, IsConverted, Nullable, Typed;
    if f.items.None? {
      OneTypeExactly(c, v);
    } else {
      ConvertedExactly(c, f.items.value, v);
      NullableExactly(c, ConvertedSchema(f.items.value), v);
    }
  }

  lemma {:induction false} OneApart(re: Regexp)
    ensures UsesApart([Alternative(re, [])])
  {
    hide NamesApart, Captures, NamesOf;
    var a := Alternative(re, []);
    assert StatedCaptures(a.values) == [];
    assert UsesOf(a) == [] + Captures(re.tree) == Captures(re.tree);
    CapturesApart(re.tree);
  }

  lemma {:induction false} CapturesApart(p: Pattern)
    ensures NamesApart(NamesOf(Captures(p)))
  {
    MergedApart(Walked(p, false));
  }

  lemma {:induction false} RuledExactly(c: Contract, f: Field, missing: bool, v: Json)
    ensures Fits(c, RuleSchema(f, missing), v) <==> IsRuled(f, missing, v)
    decreases f, 1
  {
    hide Fits, ConvertedSchema, IsConverted, Nullable;
    ConvertedExactly(c, f, v);
    NullableExactly(c, ConvertedSchema(f), v);
  }

  /** A value under a rule or under none. */
  ghost predicate IsValue(f: Option<Field>, missing: bool, v: Json) {
    if f.None? then v.Str? || (v.Null? && missing) else IsRuled(f.value, missing, v)
  }

  lemma {:induction false} ValueExactly(c: Contract, f: Option<Field>, missing: bool, v: Json)
    ensures Fits(c, ValueSchema(f, missing), v) <==> IsValue(f, missing, v)
  {
    hide Fits, RuleSchema, IsRuled, Typed;
    OneTypeExactly(c, v);
    if f.Some? {
      RuledExactly(c, f.value, missing, v);
    }
  }

  lemma {:induction false} CapturedExactly(c: Contract, g: Capture, rules: seq<Rule>, v: Json)
    ensures Fits(c, KeySchema(g, rules), v) <==> IsCaptured(g, rules, v)
    decreases rules, 0
  {
    hide Fits, RuleSchema, IsRuled, FieldEnum, Typed, IsListed, MayBeNull, RuleOf;
    var f := RuleOf(rules, g.name);
    var s := if f.None? then Typed(if g.optional then [StringKind, NullKind] else [StringKind]) else RuleSchema(f.value, g.optional);
    OneTypeExactly(c, v);
    RuleHasNoEnum(f, g);
    if f.Some? {
      RuledExactly(c, f.value, g.optional, v);
      NullIsAType(f.value, g.optional);
    }
    TypedHas(g.optional);
    if FieldEnum(g.values, f).Some? {
      EnumExactly(c, s, FieldEnum(g.values, f).value, v);
    }
  }

  lemma {:induction false} RuleHasNoEnum(f: Option<Field>, g: Capture)
    ensures
      var s := if f.None? then Typed(if g.optional then [StringKind, NullKind] else [StringKind]) else RuleSchema(f.value, g.optional);
      s.Body? && s.enums == []
  {
    hide ConvertedSchema, NormalizeTypes;
  }

  lemma {:induction false} TypedHas(optional: bool)
    ensures NullKind in Typed(if optional then [StringKind, NullKind] else [StringKind]).types <==> optional
  {
    var both := [StringKind, NullKind];
    assert both[1] == NullKind;
    assert forall k: Kind :: k in [StringKind] <==> k == StringKind;
  }

  /** Null is one of a rule's types exactly when the rule lets its value be null. */
  lemma {:induction false} NullIsAType(f: Field, missing: bool)
    ensures NullKind in RuleSchema(f, missing).types <==> MayBeNull(f, missing)
  {
    hide ConvertedSchema, NormalizeTypes;
    ConvertedIsNoNull(f);
    var s := ConvertedSchema(f);
    assert (s.types + [NullKind])[|s.types|] == NullKind;
  }

  lemma {:induction false} ConvertedIsNoNull(f: Field)
    ensures NullKind !in ConvertedSchema(f).types
  {
    hide ObjectOf, Nullable;
    assert forall k: Kind, t: Kind :: t in [k] <==> t == k;
  }

  // ----- the object of a match -----

  lemma {:induction false} MatchExactly(c: Contract, alts: seq<Alternative>, rules: seq<Rule>, v: Json)
    requires UsesApart(alts)
    ensures Fits(c, ObjectOf(alts, rules), v) <==> IsMatch(alts, rules, v)
    decreases rules, 2
  {
    hide Fits, ObjectOf, Groups, HasKey, UsesApart, IsNamed, IsAGroup, MustBeThere, PropertiesApart;
    var s, groups := ObjectOf(alts, rules), Groups(alts);
    ObjectApart(alts, rules);
    ClosedExactly(c, s, v);
    if v.Obj? {
      forall i | 0 <= i < |v.members| ensures IsNamed(c, s, v.members[i]) <==> IsAGroup(groups, rules, v.members[i]) {
        AGroupExactly(c, alts, rules, v.members[i]);
      }
      AllThereExactly(alts, rules, v.members);
    }
  }

  lemma {:induction false} AGroupExactly(c: Contract, alts: seq<Alternative>, rules: seq<Rule>, m: Member)
    ensures IsNamed(c, ObjectOf(alts, rules), m) <==> IsAGroup(Groups(alts), rules, m)
    decreases rules, 1, 1
  {
    hide NamedAs, IsGroupOf, Groups, ObjectOf;
    forall k: nat ensures NamedAs(c, ObjectOf(alts, rules), m, k) <==> IsGroupOf(Groups(alts), rules, m, k) {
      GroupExactly(c, alts, rules, m, k);
    }
  }

  lemma {:induction false} AllThereExactly(alts: seq<Alternative>, rules: seq<Rule>, members: seq<Member>)
    requires UsesApart(alts)
    ensures
      var groups := Groups(alts);
      (forall name :: name in ObjectOf(alts, rules).required ==> HasKey(members, name))
      <==> (forall k :: 0 <= k < |groups| ==> MustBeThere(alts, rules, groups[k]) ==> HasKey(members, groups[k].name))
  {
    hide HasKey, MustBeThere, AlwaysThere, UsesApart, Groups, RequiredKeys, KeySchema;
    var groups := Groups(alts);
    forall name ensures name in RequiredKeys(groups, alts, rules) <==>
      exists k :: 0 <= k < |groups| && groups[k].name == name && AlwaysThere(groups[k], alts, rules)
    {
      RequiredExactly(groups, alts, rules, name);
    }
    forall k | 0 <= k < |groups| ensures AlwaysThere(groups[k], alts, rules) <==> MustBeThere(alts, rules, groups[k]) {
      AlwaysExactly(alts, rules, groups[k]);
    }
  }

  lemma {:induction false} GroupExactly(c: Contract, alts: seq<Alternative>, rules: seq<Rule>, m: Member, k: nat)
    ensures NamedAs(c, ObjectOf(alts, rules), m, k) <==> IsGroupOf(Groups(alts), rules, m, k)
    decreases rules, 1, 0
  {
    hide Fits, KeySchema, Groups, RequiredKeys, IsCaptured;
    var groups := Groups(alts);
    if k < |groups| {
      CapturedExactly(c, groups[k], rules, m.value);
    }
  }

  lemma {:induction false} ObjectApart(alts: seq<Alternative>, rules: seq<Rule>)
    ensures PropertiesApart(ObjectOf(alts, rules).properties) && ObjectOf(alts, rules).states && ObjectOf(alts, rules).extra.None?
  {
    hide Growth.NamesOnce, ObjectOf;
    ObjectOnce(alts, rules);
    OnceBody(ObjectOf(alts, rules));
    ObjectStates(alts, rules);
  }

  lemma {:induction false} ObjectStates(alts: seq<Alternative>, rules: seq<Rule>)
    ensures ObjectOf(alts, rules).states && ObjectOf(alts, rules).extra.None?
  {
  }

  // ----- rows -----

  /** A key of a row whose columns are given: one of them, with a value its rule makes. */
  ghost predicate IsCell(f: Format, m: Member)
    requires f.Table? || f.Csv?
  {
    exists i: nat :: IsCellOf(f, m, i)
  }

  ghost predicate IsCellOf(f: Format, m: Member, i: nat)
    requires f.Table? || f.Csv?
  {
    i < |f.columns| && f.columns[i] == m.key && IsValue(RuleOf(f.rules, m.key), CellMayBeEmpty(f, i, |f.columns|), m.value)
  }

  /** A leading label that no rule is about. */
  predicate HasLabel(f: Format) {
    f.Table? && f.lead != "" && RuleOf(f.rules, f.lead).None?
  }

  /** A key of a row whose columns the input names: whatever it is, with the value its rule makes, or text, or null; the label is not
      null where its cell cannot be empty. */
  ghost predicate IsNamedCell(f: Format, m: Member)
    requires f.Table? || f.Csv?
  {
    var rule := RuleOf(f.rules, m.key);
    if rule.Some? then IsRuled(rule.value, true, m.value)
    else m.value.Str? || (m.value.Null? && (HasLabel(f) && m.key == f.lead ==> CellMayBeEmpty(f, 0, 1)))
  }

  /** A column no rule may leave out. */
  predicate ColumnMustBeThere(f: Format, i: nat)
    requires (f.Table? || f.Csv?) && i < |f.columns|
  {
    !MayBeLeftOut(RuleOf(f.rules, f.columns[i]), CellMayBeEmpty(f, i, |f.columns|))
  }

  ghost predicate IsRow(f: Format, v: Json)
    requires f.Table? || f.Csv?
  {
    && v.Obj?
    && if f.columns != [] then
         && (forall i :: 0 <= i < |v.members| ==> IsCell(f, v.members[i]))
         && (forall i :: 0 <= i < |f.columns| ==> ColumnMustBeThere(f, i) ==> HasKey(v.members, f.columns[i]))
       else
         && (forall i :: 0 <= i < |v.members| ==> IsNamedCell(f, v.members[i]))
         && (HasLabel(f) ==> HasKey(v.members, f.lead))
  }

  /** The rule about a name is the one that has it. */
  lemma {:induction false} RuleIsTheOne(rules: seq<Rule>, i: nat)
    requires RulesMakeSense(rules) && i < |rules|
    ensures RuleOf(rules, rules[i].name) == Some(rules[i].field)
  {
    hide WellFormedRules, RuleOf, RuleSchema;
    var name := rules[i].name;
    NoRuleIsNamed(rules, false, name);
    assert RuleProperties(rules, false)[i].name == name;
    var k :| 0 <= k < |rules| && rules[k] == Rule(name, RuleOf(rules, name).value);
  }

  lemma {:induction false} NoRuleIsNamed(rules: seq<Rule>, missing: bool, name: string)
    ensures RuleOf(rules, name).None? <==> Growth.NoneIsNamed(RuleProperties(rules, missing), name)
    ensures RuleOf(rules, name).None? <==> Lookup(RuleProperties(rules, missing), name).None?
  {
    hide RuleSchema;
    if rules != [] {
      var n := |rules| - 1;
      NoRuleIsNamed(rules[..n], missing, name);
      var props := RuleProperties(rules, missing);
      assert RuleProperties(rules[..n], missing) == props[..n];
      assert props == props[..n] + [props[n]];
      LookupLater(props[..n], props[n], name);
    } else {
      assert RuleProperties(rules, missing) == [];
    }
  }

  /** The properties of rules name a member exactly when its rule makes its value. */
  lemma {:induction false} RulesExactly(c: Contract, s: Schema, rules: seq<Rule>, missing: bool, m: Member)
    requires RulesMakeSense(rules) && s.Body? && s.properties == RuleProperties(rules, missing)
    ensures IsNamed(c, s, m) <==> RuleOf(rules, m.key).Some? && IsRuled(RuleOf(rules, m.key).value, missing, m.value)
  {
    hide Fits, RuleSchema, IsRuled, RulesMakeSense;
    forall k: nat | k < |rules| ensures NamedAs(c, s, m, k) <==> rules[k].name == m.key && IsRuled(rules[k].field, missing, m.value) {
      RuledExactly(c, rules[k].field, missing, m.value);
    }
    forall k | 0 <= k < |rules| ensures RuleOf(rules, rules[k].name) == Some(rules[k].field) {
      RuleIsTheOne(rules, k);
    }
    if RuleOf(rules, m.key).Some? && IsRuled(RuleOf(rules, m.key).value, missing, m.value) {
      var k :| 0 <= k < |rules| && rules[k] == Rule(m.key, RuleOf(rules, m.key).value);
      assert NamedAs(c, s, m, k);
    }
  }

  lemma {:induction false} CellExactly(c: Contract, f: Format, m: Member)
    requires (f.Table? || f.Csv?) && f.columns != []
    ensures IsNamed(c, RowSchema(f), m) <==> IsCell(f, m)
  {
    hide Fits, ValueSchema, IsValue, CellMayBeEmpty, RequiredColumns;
    var s := RowSchema(f);
    forall k: nat ensures NamedAs(c, s, m, k) <==> IsCellOf(f, m, k) {
      if k < |f.columns| {
        ValueExactly(c, RuleOf(f.rules, f.columns[k]), CellMayBeEmpty(f, k, |f.columns|), m.value);
      }
    }
  }

  lemma {:induction false} RequiredColumnsExactly(f: Format, n: nat, name: string)
    requires (f.Table? || f.Csv?) && n <= |f.columns|
    ensures name in RequiredColumns(f, n) <==> exists i :: 0 <= i < n && f.columns[i] == name && ColumnMustBeThere(f, i)
  {
    hide ColumnIsThere, ColumnMustBeThere;
    if n > 0 {
      RequiredColumnsExactly(f, n - 1, name);
      ColumnIsThereExactly(f, n - 1);
    }
  }

  lemma {:induction false} ColumnIsThereExactly(f: Format, i: nat)
    requires (f.Table? || f.Csv?) && i < |f.columns|
    ensures ColumnIsThere(f, i) <==> ColumnMustBeThere(f, i)
  {
    hide CellMayBeEmpty, RuleOf;
  }

  lemma {:induction false} GivenRowExactly(c: Contract, f: Format, v: Json)
    requires (f.Table? || f.Csv?) && NamesApart(f.columns) && f.columns != []
    ensures Fits(c, RowSchema(f), v) <==> IsRow(f, v)
  {
    hide Fits, ValueSchema, CellMayBeEmpty, IsCell, ColumnMustBeThere, HasKey, IsNamed, RequiredColumns, PropertiesApart, ColumnProperties, HasLabel,
      IsNamedCell;
    var s := RowSchema(f);
    ColumnsOnce(f);
    ClosedExactly(c, s, v);
    if v.Obj? {
      forall i | 0 <= i < |v.members| ensures IsNamed(c, s, v.members[i]) <==> IsCell(f, v.members[i]) {
        CellExactly(c, f, v.members[i]);
      }
      forall name ensures name in s.required <==> exists i :: 0 <= i < |f.columns| && f.columns[i] == name && ColumnMustBeThere(f, i) {
        RequiredColumnsExactly(f, |f.columns|, name);
      }
    }
  }

  lemma {:induction false} NamedRowExactly(c: Contract, f: Format, v: Json)
    requires (f.Table? || f.Csv?) && RulesMakeSense(f.rules) && f.columns == []
    ensures Fits(c, RowSchema(f), v) <==> IsRow(f, v)
  {
    hide Fits, RulesMakeSense, HasKey, IsNamed, PropertiesApart, IsNamedCell, RowSchema, IsCell, ColumnMustBeThere;
    NamedRowApart(f);
    var s := RowSchema(f);
    OpenExactly(c, s, v);
    if v.Obj? {
      forall i | 0 <= i < |v.members|
        ensures IsNamed(c, s, v.members[i]) || (Growth.NoneIsNamed(s.properties, v.members[i].key) && Fits(c, s.extra.value, v.members[i].value))
          <==> IsNamedCell(f, v.members[i])
      {
        NamedCellExactly(c, f, v.members[i]);
      }
    }
  }

  lemma {:induction false} NamedRowApart(f: Format)
    requires (f.Table? || f.Csv?) && RulesMakeSense(f.rules) && f.columns == []
    ensures
      var s := RowSchema(f);
      && PropertiesApart(s.properties) && s.types == [ObjectKind] && s.enums == [] && s.states && s.extra == Some(Typed([StringKind, NullKind]))
      && forall name :: name in s.required <==> HasLabel(f) && name == f.lead
  {
    hide RuleProperties, ValueSchema, RulesMakeSense, Lookup, CellMayBeEmpty, Growth.NamesOnce, PropertiesApart, Growth.AllNameOnce;
    RowOnce(f) by { NoneApartHere(f.columns); }
    OnceBody(RowSchema(f));
    NoRuleIsNamed(f.rules, true, if f.Table? then f.lead else "");
  }

  lemma {:induction false} NoneApartHere(names: seq<string>)
    requires names == []
    ensures NamesApart(names)
  {
  }

  lemma {:induction false} NamedCellExactly(c: Contract, f: Format, m: Member)
    requires (f.Table? || f.Csv?) && RulesMakeSense(f.rules) && f.columns == []
    ensures
      var s := RowSchema(f);
      IsNamed(c, s, m) || (Growth.NoneIsNamed(s.properties, m.key) && Fits(c, Typed([StringKind, NullKind]), m.value)) <==> IsNamedCell(f, m)
  {
    hide Fits, RulesMakeSense, RuleSchema, ValueSchema, CellMayBeEmpty, IsRuled, Typed, RuleProperties, Lookup, RuleOf;
    var s := RowSchema(f);
    var named := RuleProperties(f.rules, true);
    var plain := Body([ObjectKind], [], true, named, [], None, None);
    OneTypeExactly(c, m.value);
    RulesExactly(c, plain, f.rules, true, m);
    NoRuleIsNamed(f.rules, true, m.key);
    if f.Table? {
      NoRuleIsNamed(f.rules, true, f.lead);
    }
    if HasLabel(f) {
      var first := s.properties[0];
      assert s.properties == [first] + named;
      ValueExactly(c, None, CellMayBeEmpty(f, 0, 1), m.value);
      FirstIsNamed(c, s, plain, first, m);
    } else {
      assert s.properties == named;
      SameNamed(c, s, plain, m);
    }
  }

  lemma {:induction false} SameNamed(c: Contract, s: Schema, t: Schema, m: Member)
    requires s.Body? && t.Body? && s.properties == t.properties
    ensures IsNamed(c, s, m) <==> IsNamed(c, t, m)
  {
    hide Fits;
    forall k: nat ensures NamedAs(c, s, m, k) <==> NamedAs(c, t, m, k) {
    }
  }

  lemma {:induction false} FirstIsNamed(c: Contract, s: Schema, t: Schema, p: Property, m: Member)
    requires s.Body? && t.Body? && s.properties == [p] + t.properties
    ensures IsNamed(c, s, m) <==> (p.name == m.key && Fits(c, p.schema, m.value)) || IsNamed(c, t, m)
    ensures Growth.NoneIsNamed(s.properties, m.key) <==> p.name != m.key && Growth.NoneIsNamed(t.properties, m.key)
  {
    hide Fits;
    assert s.properties[0] == p;
    forall k: nat ensures NamedAs(c, s, m, k + 1) <==> NamedAs(c, t, m, k) {
      assert k < |t.properties| ==> s.properties[k + 1] == t.properties[k];
    }
    if k: nat :| NamedAs(c, t, m, k) {
      assert NamedAs(c, s, m, k + 1);
    }
    if k: nat :| NamedAs(c, s, m, k) {
      if k > 0 {
        assert NamedAs(c, t, m, k - 1);
      }
    }
    if p.name == m.key && Fits(c, p.schema, m.value) {
      assert NamedAs(c, s, m, 0);
    }
    assert forall i :: 0 <= i < |t.properties| ==> s.properties[i + 1] == t.properties[i];
    assert forall i :: 1 <= i < |s.properties| ==> s.properties[i] == t.properties[i - 1];
  }

  lemma {:induction false} LastIsNamed(c: Contract, s: Schema, t: Schema, p: Property, m: Member)
    requires s.Body? && t.Body? && s.properties == t.properties + [p]
    ensures IsNamed(c, s, m) <==> (p.name == m.key && Fits(c, p.schema, m.value)) || IsNamed(c, t, m)
  {
    hide Fits;
    var n := |t.properties|;
    assert s.properties[n] == p;
    forall k: nat | k < n ensures NamedAs(c, s, m, k) <==> NamedAs(c, t, m, k) {
      assert s.properties[k] == t.properties[k];
    }
    if p.name == m.key && Fits(c, p.schema, m.value) {
      assert NamedAs(c, s, m, n);
    }
    if k: nat :| NamedAs(c, t, m, k) {
      assert NamedAs(c, s, m, k);
    }
    if k: nat :| NamedAs(c, s, m, k) {
      assert k < n ==> NamedAs(c, t, m, k);
    }
  }

  lemma {:induction false} RowExactly(c: Contract, f: Format, v: Json)
    requires (f.Table? || f.Csv?) && NamesApart(f.columns) && RulesMakeSense(f.rules)
    ensures Fits(c, RowSchema(f), v) <==> IsRow(f, v)
  {
    hide Fits, RowSchema, IsRow, RulesMakeSense;
    if f.columns != [] {
      GivenRowExactly(c, f, v);
    } else {
      NamedRowExactly(c, f, v);
    }
  }

  // ----- entries and maps -----

  /** A value of the type a rule makes, or a null it may be. */
  predicate HasTypeOf(f: Field, v: Json) {
    || (match f.kind
        case IntField => IsWhole(v)
        case FloatField => v.Number?
        case DurationField => v.Number?
        case BoolField => v.Bool?
        case ArrayField => v.Arr?
        case ObjectField => v.Obj?
        case _ => v.Str?)
    || (v.Null? && MayBeNull(f, false))
  }

  /** The value of an entry: text, or of a type that one of the rules makes. */
  predicate IsEntryValue(rules: seq<Rule>, v: Json) {
    v.Str? || exists i :: 0 <= i < |rules| && HasTypeOf(rules[i].field, v)
  }

  predicate IsEntryMember(rules: seq<Rule>, m: Member) {
    (m.key == "name" && m.value.Str?) || (m.key == "value" && IsEntryValue(rules, m.value))
  }

  /** No rule leaves a value out. */
  predicate NoneLeftOut(rules: seq<Rule>) {
    forall i :: 0 <= i < |rules| ==> !MayBeLeftOut(Some(rules[i].field), false)
  }

  predicate EntryIsThere(rules: seq<Rule>, members: seq<Member>) {
    HasKey(members, "name") && (NoneLeftOut(rules) ==> HasKey(members, "value"))
  }

  predicate IsEntry(rules: seq<Rule>, v: Json) {
    v.Obj? && EntryIsThere(rules, v.members) && forall i :: 0 <= i < |v.members| ==> IsEntryMember(rules, v.members[i])
  }

  /** A key of the map, whatever it is: what its rule makes, or text. */
  ghost predicate IsMapped(rules: seq<Rule>, m: Member) {
    if RuleOf(rules, m.key).Some? then IsRuled(RuleOf(rules, m.key).value, false, m.value) else m.value.Str?
  }

  ghost predicate IsMap(rules: seq<Rule>, v: Json) {
    v.Obj? && forall i :: 0 <= i < |v.members| ==> IsMapped(rules, v.members[i])
  }

  ghost predicate IsSections(rules: seq<Rule>, v: Json) {
    v.Obj? && forall i :: 0 <= i < |v.members| ==> IsMap(rules, v.members[i].value)
  }

  lemma {:induction false} OfEither(v: Json, a: seq<Kind>, b: seq<Kind>)
    requires a != [] && b != []
    ensures IsOfType(v, a + b) <==> IsOfType(v, a) || IsOfType(v, b)
  {
    assert forall k: Kind :: k in a + b <==> k in a || k in b;
  }

  lemma {:induction false} OfSame(v: Json, a: seq<Kind>, b: seq<Kind>)
    requires a != [] && forall k :: k in b <==> k in a
    ensures IsOfType(v, a) <==> IsOfType(v, b)
  {
    assert a[0] in b;
  }

  lemma {:induction false} RuleTypesExactly(f: Field, v: Json)
    ensures RuleSchema(f, false).types != []
    ensures IsOfType(v, RuleSchema(f, false).types) <==> HasTypeOf(f, v)
  {
    hide NormalizeTypes, ConvertedSchema, IsOfType;
    var s := ConvertedSchema(f);
    KindTypesExactly(f, v);
    OneTypeIs(v);
    NullIs(v);
    OfEither(v, s.types, [NullKind]);
    var wide := s.types + [NullKind];
    OfSame(v, wide, NormalizeTypes(wide));
    assert s.types[0] in NormalizeTypes(wide);
  }

  lemma {:induction false} NullIs(v: Json)
    ensures IsOfType(v, [NullKind]) <==> v.Null?
  {
    assert forall k: Kind, t: Kind :: t in [k] <==> t == k;
  }

  lemma {:induction false} KindTypesExactly(f: Field, v: Json)
    ensures IsOfType(v, ConvertedSchema(f).types) <==>
      match f.kind
      case IntField => IsWhole(v)
      case FloatField => v.Number?
      case DurationField => v.Number?
      case BoolField => v.Bool?
      case ArrayField => v.Arr?
      case ObjectField => v.Obj?
      case _ => v.Str?
  {
    hide IsOfType, ObjectOf, IsWhole;
    OneTypeIs(v);
    ArrayIs(v);
  }

  lemma {:induction false} ArrayIs(v: Json)
    ensures IsOfType(v, [ArrayKind]) <==> v.Arr?
  {
    assert forall k: Kind, t: Kind :: t in [k] <==> t == k;
  }

  lemma {:induction false} EntryTypesExactly(rules: seq<Rule>, v: Json)
    ensures EntryTypes(rules) != []
    ensures IsOfType(v, EntryTypes(rules)) <==> IsEntryValue(rules, v)
  {
    hide IsOfType, RuleSchema, HasTypeOf;
    if rules == [] {
      OneTypeIs(v);
    } else {
      var n := |rules| - 1;
      EntryTypesExactly(rules[..n], v);
      RuleTypesExactly(rules[n].field, v);
      OfEither(v, EntryTypes(rules[..n]), RuleSchema(rules[n].field, false).types);
      assert forall i :: 0 <= i < n ==> rules[..n][i] == rules[i];
    }
  }

  lemma {:induction false} EntryValueExactly(c: Contract, rules: seq<Rule>, v: Json)
    ensures Fits(c, Typed(NormalizeTypes(EntryTypes(rules))), v) <==> IsEntryValue(rules, v)
  {
    hide Fits, IsOfType, NormalizeTypes, EntryTypes, IsEntryValue;
    EntryTypesExactly(rules, v);
    TypedExactly(c, NormalizeTypes(EntryTypes(rules)), v);
    OfSame(v, EntryTypes(rules), NormalizeTypes(EntryTypes(rules)));
  }

  lemma {:induction false} EntryMemberExactly(c: Contract, rules: seq<Rule>, m: Member)
    ensures IsNamed(c, EntrySchema(rules), m) <==> IsEntryMember(rules, m)
  {
    hide Fits, NormalizeTypes, EntryTypes, IsEntryValue, Typed, SomeOmittable;
    var s := EntrySchema(rules);
    OneTypeExactly(c, m.value);
    EntryValueExactly(c, rules, m.value);
    assert s.properties[0].name == "name" && s.properties[1].name == "value" && |s.properties| == 2;
    if m.key == "name" && m.value.Str? {
      assert NamedAs(c, s, m, 0);
    }
    if m.key == "value" && IsEntryValue(rules, m.value) {
      assert NamedAs(c, s, m, 1);
    }
  }

  lemma {:induction false} EntryRequiredExactly(rules: seq<Rule>, members: seq<Member>)
    ensures (forall name :: name in EntrySchema(rules).required ==> HasKey(members, name)) <==> EntryIsThere(rules, members)
    ensures EntrySchema(rules).types == [ObjectKind] && EntrySchema(rules).enums == [] && EntrySchema(rules).states && EntrySchema(rules).extra.None?
  {
    hide NormalizeTypes, EntryTypes, HasKey, Typed;
    LeftOutExactly(rules);
    var s := EntrySchema(rules);
    assert s.required[0] == "name";
    if NoneLeftOut(rules) {
      assert s.required[1] == "value";
    }
  }

  lemma {:induction false} LeftOutExactly(rules: seq<Rule>)
    ensures SomeOmittable(rules) <==> !NoneLeftOut(rules)
  {
    forall i | 0 <= i < |rules| ensures Omittable(Some(rules[i].field), false) == MayBeLeftOut(Some(rules[i].field), false) {
      OmittableExactly(rules[i].field, false);
    }
    hide Omittable, MayBeLeftOut;
  }

  lemma {:induction false} OmittableExactly(f: Field, missing: bool)
    ensures Omittable(Some(f), missing) == MayBeLeftOut(Some(f), missing)
  {
    hide OptionalGroup;
  }

  lemma {:induction false} EntryExactly(c: Contract, rules: seq<Rule>, v: Json)
    ensures Fits(c, EntrySchema(rules), v) <==> IsEntry(rules, v)
  {
    hide Fits, EntrySchema, IsEntryMember, EntryIsThere, HasKey, IsNamed, PropertiesApart, Growth.NamesOnce, Growth.AllNameOnce;
    EntryOnce(rules);
    OnceBody(EntrySchema(rules));
    EntryRequiredExactly(rules, []);
    ClosedExactly(c, EntrySchema(rules), v);
    if v.Obj? {
      EntryRequiredExactly(rules, v.members);
      forall i | 0 <= i < |v.members| ensures IsNamed(c, EntrySchema(rules), v.members[i]) <==> IsEntryMember(rules, v.members[i]) {
        EntryMemberExactly(c, rules, v.members[i]);
      }
    }
  }

  lemma {:induction false} MapExactly(c: Contract, rules: seq<Rule>, v: Json)
    requires RulesMakeSense(rules)
    ensures Fits(c, MapSchema(rules), v) <==> IsMap(rules, v)
  {
    hide Fits, RuleProperties, IsNamed, PropertiesApart, RulesMakeSense, RuleOf, IsRuled, Growth.NamesOnce, Growth.NoneIsNamed, Typed, HasKey;
    var s := MapSchema(rules);
    RulesOnce(rules, false);
    OpenExactly(c, s, v);
    if v.Obj? {
      forall i | 0 <= i < |v.members|
        ensures IsNamed(c, s, v.members[i]) || (Growth.NoneIsNamed(s.properties, v.members[i].key) && Fits(c, s.extra.value, v.members[i].value))
          <==> IsMapped(rules, v.members[i])
      {
        var m := v.members[i];
        RulesExactly(c, s, rules, false, m);
        NoRuleIsNamed(rules, false, m.key);
        OneTypeExactly(c, m.value);
      }
    }
  }

  lemma {:induction false} SectionsExactly(c: Contract, rules: seq<Rule>, v: Json)
    requires RulesMakeSense(rules)
    ensures Fits(c, SectionsSchema(rules), v) <==> IsSections(rules, v)
  {
    hide Fits, MapSchema, IsMap, RulesMakeSense;
    var s := SectionsSchema(rules);
    FitsExactly(c, s, v);
    if v.Obj? {
      assert s.types[0] == ObjectKind;
      forall i | 0 <= i < |v.members| ensures IsAllowed(c, s, v.members[i]) <==> IsMap(rules, v.members[i].value) {
        MapExactly(c, rules, v.members[i].value);
      }
    } else {
      OtherIsNoObject(v);
    }
  }

  // ----- trees -----

  /** A key of a node's own. */
  ghost predicate IsOwn(node: NodeFormat, m: Member) {
    match node
    case EntryNode(rules) => IsEntryMember(rules, m)
    case MatchNode(alts, rules) => IsAGroup(Groups(alts), rules, m)
  }

  ghost predicate OwnIsThere(node: NodeFormat, members: seq<Member>) {
    match node
    case EntryNode(rules) => EntryIsThere(rules, members)
    case MatchNode(alts, rules) =>
      var groups := Groups(alts);
      forall k :: 0 <= k < |groups| ==> MustBeThere(alts, rules, groups[k]) ==> HasKey(members, groups[k].name)
  }

  /** A node: its own keys, and under "children" a list of nodes, which is always there. */
  ghost predicate IsNode(node: NodeFormat, v: Json)
    decreases v, 1
  {
    && v.Obj? && OwnIsThere(node, v.members) && HasKey(v.members, CHILDREN)
    && forall i :: 0 <= i < |v.members| ==> IsOwn(node, v.members[i]) || IsChildren(node, v.members[i])
  }

  ghost predicate IsChildren(node: NodeFormat, m: Member)
    decreases m, 0
  {
    m.key == CHILDREN && m.value.Arr? && forall i :: 0 <= i < |m.value.items| ==> IsNode(node, m.value.items[i])
  }

  lemma {:induction false} OwnExactly(c: Contract, node: NodeFormat, m: Member)
    ensures IsNamed(c, OwnSchema(node), m) <==> IsOwn(node, m)
  {
    hide Fits, EntrySchema, ObjectOf, Groups, IsAGroup, IsEntryMember, IsNamed;
    match node
    case EntryNode(rules) => EntryMemberExactly(c, rules, m);
    case MatchNode(alts, rules) => AGroupExactly(c, alts, rules, m);
  }

  lemma {:induction false} OwnRequiredExactly(node: NodeFormat, members: seq<Member>)
    requires node.MatchNode? ==> UsesApart(node.alts)
    ensures (forall name :: name in OwnSchema(node).required ==> HasKey(members, name)) <==> OwnIsThere(node, members)
  {
    hide EntrySchema, ObjectOf, Groups, MustBeThere, EntryIsThere, HasKey, UsesApart;
    match node
    case EntryNode(rules) => EntryRequiredExactly(rules, members);
    case MatchNode(alts, rules) => AllThereExactly(alts, rules, members);
  }

  lemma {:induction false} AlternativesApart(alts: seq<Alternative>)
    requires AlternativesMakeSense(alts)
    ensures UsesApart(alts)
  {
    hide NamesApart, Faithful, UsesOf;
  }

  lemma {:induction false} NodeApart(node: NodeFormat, def: string)
    requires NodeMakesSense(node)
    ensures
      var s := NodeSchema(node, def);
      && PropertiesApart(s.properties) && s.types == [ObjectKind] && s.enums == [] && s.states && s.extra.None?
      && s.properties == OwnSchema(node).properties + [Property(CHILDREN, ListOf(Ref(def)))]
      && s.required == OwnSchema(node).required + [CHILDREN]
  {
    hide Growth.NamesOnce, NodeMakesSense, EntrySchema, ObjectOf, PropertiesApart, Growth.AllNameOnce;
    NodeOnce(node, def);
    OnceBody(NodeSchema(node, def));
    if node.EntryNode? {
      EntryRequiredExactly(node.rules, []);
    } else {
      ObjectStates(node.alts, node.rules);
    }
  }

  /** What a name stands for. */
  lemma {:induction false} NamedSchemaFits(c: Contract, name: string, s: Schema, v: Json)
    requires Lookup(c.defs, name) == Some(s) && s.Body?
    ensures Fits(c, Ref(name), v) <==> Fits(c, s, v)
  {
    hide FitsBody;
  }

  lemma {:induction false} NodeExactly(c: Contract, node: NodeFormat, def: string, v: Json)
    requires NodeMakesSense(node) && Lookup(c.defs, def) == Some(NodeSchema(node, def))
    ensures Fits(c, Ref(def), v) <==> IsNode(node, v)
    decreases v, 1
  {
    hide Fits, NodeSchema, IsOwn, OwnIsThere, IsChildren, HasKey, IsNamed, PropertiesApart, NodeMakesSense, OwnSchema, Lookup;
    var s := NodeSchema(node, def);
    NodeApart(node, def);
    NamedSchemaFits(c, def, s, v);
    ClosedExactly(c, s, v);
    if v.Obj? {
      NodeRequiredExactly(node, def, v.members);
      forall i | 0 <= i < |v.members| ensures IsNamed(c, s, v.members[i]) <==> IsOwn(node, v.members[i]) || IsChildren(node, v.members[i]) {
        NodeMemberExactly(c, node, def, v.members[i]);
      }
    }
  }

  lemma {:induction false} NodeRequiredExactly(node: NodeFormat, def: string, members: seq<Member>)
    requires NodeMakesSense(node)
    ensures
      (forall name :: name in NodeSchema(node, def).required ==> HasKey(members, name))
      <==> OwnIsThere(node, members) && HasKey(members, CHILDREN)
  {
    hide NodeSchema, OwnSchema, OwnIsThere, HasKey, AlternativesMakeSense, UsesApart, RulesMakeSense, PropertiesApart, ObjectOf;
    NodeApart(node, def);
    if node.MatchNode? {
      AlternativesApart(node.alts);
    }
    OwnRequiredExactly(node, members);
    var own, all := OwnSchema(node).required, NodeSchema(node, def).required;
    assert forall name :: name in all <==> name in own || name == CHILDREN;
  }

  lemma {:induction false} NodeMemberExactly(c: Contract, node: NodeFormat, def: string, m: Member)
    requires NodeMakesSense(node) && Lookup(c.defs, def) == Some(NodeSchema(node, def))
    ensures IsNamed(c, NodeSchema(node, def), m) <==> IsOwn(node, m) || IsChildren(node, m)
    decreases m, 0
  {
    hide Fits, NodeSchema, OwnSchema, IsNamed, IsOwn, PropertiesApart, NodeMakesSense, Lookup, IsNode;
    NodeApart(node, def);
    OwnExactly(c, node, m);
    LastIsNamed(c, NodeSchema(node, def), OwnSchema(node), Property(CHILDREN, ListOf(Ref(def))), m);
    ListExactly(c, Ref(def), m.value);
    if m.value.Arr? {
      forall i | 0 <= i < |m.value.items| ensures Fits(c, Ref(def), m.value.items[i]) <==> IsNode(node, m.value.items[i]) {
        NodeExactly(c, node, def, m.value.items[i]);
      }
    }
  }

  // ----- any definition -----

  /** The documents a definition describes. */
  ghost predicate IsDocument(f: Format, v: Json)
    decreases f, 1
  {
    match f
    case Table(_, _, _, _, _) => v.Arr? && forall i :: 0 <= i < |v.items| ==> IsRow(f, v.items[i])
    case Csv(_, _) => v.Arr? && forall i :: 0 <= i < |v.items| ==> IsRow(f, v.items[i])
    case PerLine(alts, rules) => v.Arr? && forall i :: 0 <= i < |v.items| ==> IsMatch(alts, rules, v.items[i])
    case WholeInput(alts, rules) => IsMatch(alts, rules, v)
    case Entries(rules) => v.Arr? && forall i :: 0 <= i < |v.items| ==> IsEntry(rules, v.items[i])
    case Mapping(rules) => IsMap(rules, v)
    case Sections(rules) => IsSections(rules, v)
    case Composite(parts) =>
      && v.Obj? && (forall i :: 0 <= i < |parts| ==> HasKey(v.members, parts[i].name))
      && forall i :: 0 <= i < |v.members| ==> IsAPart(parts, v.members[i])
    case Records(block) => v.Arr? && forall i :: 0 <= i < |v.items| ==> IsDocument(block, v.items[i])
    case Forest(node) => v.Arr? && forall i :: 0 <= i < |v.items| ==> IsNode(node, v.items[i])
  }

  /** The key of a part, with a document the part describes. */
  ghost predicate IsAPart(parts: seq<Part>, m: Member)
    decreases parts, 0
  {
    exists k: nat :: k < |parts| && parts[k].name == m.key && IsDocument(parts[k].format, m.value)
  }

  /** What a format is described as is fit by the documents it describes and by no others. */
  lemma {:induction false} DescribedExactly(c: Contract, f: Format, node: string, taken: set<string>, v: Json)
    requires MakesSense(f) && Holds(c, Described(f, node, taken).defs)
    ensures Fits(c, Described(f, node, taken).schema, v) <==> IsDocument(f, v)
    decreases f, 1
  {
    hide Fits, RowSchema, ObjectOf, MapSchema, SectionsSchema, EntrySchema, NodeSchema, ListOf, DescribedParts, NodeMakesSense, RulesMakeSense,
      AlternativesMakeSense, IsRow, IsMatch, IsEntry, IsMap, IsSections, IsNode, UsesApart, FreeName, Holds, HasKey, IsAPart;
    match f {
      case Table(_, _, _, _, _) =>
        ListExactly(c, RowSchema(f), v);
        RowsExactly(c, f, v);
      case Csv(_, _) =>
        ListExactly(c, RowSchema(f), v);
        RowsExactly(c, f, v);
      case PerLine(alts, rules) =>
        ListExactly(c, ObjectOf(alts, rules), v);
        AlternativesApart(alts);
        if v.Arr? {
          forall i | 0 <= i < |v.items| ensures Fits(c, ObjectOf(alts, rules), v.items[i]) <==> IsMatch(alts, rules, v.items[i]) {
            MatchExactly(c, alts, rules, v.items[i]);
          }
        }
      case WholeInput(alts, rules) =>
        AlternativesApart(alts);
        MatchExactly(c, alts, rules, v);
      case Entries(rules) =>
        ListExactly(c, EntrySchema(rules), v);
        if v.Arr? {
          forall i | 0 <= i < |v.items| ensures Fits(c, EntrySchema(rules), v.items[i]) <==> IsEntry(rules, v.items[i]) {
            EntryExactly(c, rules, v.items[i]);
          }
        }
      case Mapping(rules) =>
        MapExactly(c, rules, v);
      case Sections(rules) =>
        SectionsExactly(c, rules, v);
      case Composite(parts) =>
        CompositeExactly(c, parts, node, taken, v);
      case Records(block) =>
        ListExactly(c, Described(block, node, taken).schema, v);
        if v.Arr? {
          forall i | 0 <= i < |v.items|
            ensures Fits(c, Described(block, node, taken).schema, v.items[i]) <==> IsDocument(block, v.items[i])
          {
            DescribedExactly(c, block, node, taken, v.items[i]);
          }
        }
      case Forest(format) =>
        var def := FreeName(node, 1, taken);
        ListExactly(c, Ref(def), v);
        OneHeld(c, def, NodeSchema(format, def));
        if v.Arr? {
          forall i | 0 <= i < |v.items| ensures Fits(c, Ref(def), v.items[i]) <==> IsNode(format, v.items[i]) {
            NodeExactly(c, format, def, v.items[i]);
          }
        }
    }
  }

  lemma {:induction false} OneHeld(c: Contract, name: string, s: Schema)
    requires Holds(c, [Property(name, s)])
    ensures Lookup(c.defs, name) == Some(s)
  {
    hide Lookup;
    assert [Property(name, s)][0].name == name;
  }

  lemma {:induction false} RowsExactly(c: Contract, f: Format, v: Json)
    requires (f.Table? || f.Csv?) && MakesSense(f)
    ensures v.Arr? ==>
      ((forall i :: 0 <= i < |v.items| ==> Fits(c, RowSchema(f), v.items[i])) <==> (forall i :: 0 <= i < |v.items| ==> IsRow(f, v.items[i])))
  {
    hide Fits, RowSchema, IsRow, RulesMakeSense, NamesApart;
    if v.Arr? {
      forall i | 0 <= i < |v.items| ensures Fits(c, RowSchema(f), v.items[i]) <==> IsRow(f, v.items[i]) {
        RowExactly(c, f, v.items[i]);
      }
    }
  }

  lemma {:induction false} CompositeExactly(c: Contract, parts: seq<Part>, node: string, taken: set<string>, v: Json)
    requires MakesSense(Composite(parts)) && Holds(c, DescribedParts(parts, node, taken).defs)
    ensures
      var d := DescribedParts(parts, node, taken);
      Fits(c, Body([ObjectKind], [], true, d.props, d.names, None, None), v) <==>
        && v.Obj? && (forall i :: 0 <= i < |parts| ==> HasKey(v.members, parts[i].name))
        && forall i :: 0 <= i < |v.members| ==> IsAPart(parts, v.members[i])
    decreases parts, 1
  {
    hide Fits, HasKey, IsNamed, IsAPart, PropertiesApart, Holds, DescribedParts, MakesSense, Growth.AllNameOnce;
    var d := DescribedParts(parts, node, taken);
    var s := Body([ObjectKind], [], true, d.props, d.names, None, None);
    PartsMakeSense(parts);
    PartsOnce(parts, node, taken);
    ClosedExactly(c, s, v);
    PartNames(parts, node, taken);
    if v.Obj? {
      forall i | 0 <= i < |v.members| ensures IsNamed(c, s, v.members[i]) <==> IsAPart(parts, v.members[i]) {
        PartMemberExactly(c, parts, node, taken, s, v.members[i]);
      }
    }
  }

  lemma {:induction false} PartsMakeSense(parts: seq<Part>)
    requires MakesSense(Composite(parts))
    ensures forall i, j :: 0 <= i < j < |parts| ==> parts[i].name != parts[j].name
    ensures forall i :: 0 <= i < |parts| ==> MakesSense(parts[i].format)
  {
  }

  lemma {:induction false} PartNames(parts: seq<Part>, node: string, taken: set<string>)
    ensures
      var d := DescribedParts(parts, node, taken);
      forall i :: 0 <= i < |parts| ==> d.names[i] == parts[i].name
  {
    hide Described;
    if parts != [] {
      PartNames(parts[..|parts| - 1], node, taken);
    }
  }

  lemma {:induction false} PartMemberExactly(c: Contract, parts: seq<Part>, node: string, taken: set<string>, s: Schema, m: Member)
    requires forall i :: 0 <= i < |parts| ==> MakesSense(parts[i].format)
    requires s.Body? && Holds(c, DescribedParts(parts, node, taken).defs) && s.properties == DescribedParts(parts, node, taken).props
    ensures IsNamed(c, s, m) <==> IsAPart(parts, m)
    decreases parts, 0
  {
    hide Fits, MakesSense, Described, IsDocument, Holds;
    if parts == [] {
    } else {
      hide IsNamed, IsAPart;
      var n := |parts| - 1;
      var before := DescribedParts(parts[..n], node, taken);
      var last := Described(parts[n].format, node + "_" + parts[n].name, before.taken);
      HoldsBoth(c, before.defs, last.defs);
      var t := s.(properties := before.props);
      PartMemberExactly(c, parts[..n], node, taken, t, m);
      LastIsNamed(c, s, t, Property(parts[n].name, last.schema), m);
      DescribedExactly(c, parts[n].format, node + "_" + parts[n].name, before.taken, m.value);
      LastIsAPart(parts, m);
    }
  }

  lemma {:induction false} LastIsAPart(parts: seq<Part>, m: Member)
    requires parts != []
    ensures
      var n := |parts| - 1;
      IsAPart(parts, m) <==> IsAPart(parts[..n], m) || (parts[n].name == m.key && IsDocument(parts[n].format, m.value))
  {
    hide IsDocument;
    var n := |parts| - 1;
    assert forall k :: 0 <= k < n ==> parts[..n][k] == parts[k];
  }

  /** A generated contract accepts the documents its definition describes, and no others. */
  lemma {:induction false} GeneratedExactly(f: Format, v: Json)
    requires MakesSense(f)
    ensures Fits(Generated(f), Generated(f).top, v) <==> IsDocument(f, v)
  {
    hide Fits, MakesSense, IsDocument, Described, Holds;
    DescribedGivesOut(f, "node", {});
    ApartHolds(Generated(f));
    DescribedExactly(Generated(f), f, "node", {}, v);
  }
}
