/**
 Every generated contract names each key once (internal/schema/generate.go), so an edit that breaks nobody is one the
 comparison lets pass.
 */
module NamedOnce {
  import opened Lines
  import opened Patterns
  import opened Conversions
  import opened Contracts
  import opened Typing
  import opened Generation
  import opened Compatibility
  import opened Growth

  ghost predicate PropertiesApart(props: seq<Property>) {
    forall i, j :: 0 <= i < j < |props| ==> props[i].name != props[j].name
  }

  lemma {:induction false} BodyOnce(s: Schema)
    requires s.Body? && PropertiesApart(s.properties) && AllNameOnce(s.properties)
    requires (s.items.Some? ==> NamesOnce(s.items.value)) && (s.extra.Some? ==> NamesOnce(s.extra.value))
    ensures NamesOnce(s)
  {
    hide AllNameOnce;
  }

  lemma {:induction false} OnceBody(s: Schema)
    requires s.Body? && NamesOnce(s)
    ensures PropertiesApart(s.properties) && AllNameOnce(s.properties)
  {
    hide AllNameOnce;
  }

  lemma {:induction false} TypedOnce(types: seq<Kind>)
    ensures NamesOnce(Typed(types))
  {
  }

  lemma {:induction false} ListOnce(s: Schema)
    ensures NamesOnce(ListOf(s)) <==> NamesOnce(s)
  {
  }

  lemma {:induction false} RetypedOnce(s: Schema, t: Schema)
    requires s.Body? && t.Body? && NamesOnce(s) && t == s.(types := t.types, enums := t.enums)
    ensures NamesOnce(t)
  {
    hide AllNameOnce;
  }

  lemma {:induction false} ConvertedOnce(f: Field)
    ensures NamesOnce(ConvertedSchema(f))
    decreases f, 0
  {
    hide NamesOnce, ObjectOf, NormalizeTypes;
    TypedOnce([StringKind]);
    match f.kind {
      case ArrayField =>
        if f.items.Some? {
          var items := ConvertedSchema(f.items.value);
          ConvertedOnce(f.items.value);
          RetypedOnce(items, Nullable(items));
          ListOnce(items);
          ListOnce(Nullable(items));
        } else {
          ListOnce(Typed([StringKind]));
        }
      case ObjectField =>
        TypedOnce([ObjectKind]);
        if f.regex.Some? {
          ObjectOnce([Alternative(f.regex.value, [])], f.fields);
        }
      case _ =>
        TypedOnce(ConvertedSchema(f).types);
    }
  }

  lemma {:induction false} RuleOnce(f: Field, missing: bool)
    ensures NamesOnce(RuleSchema(f, missing))
    decreases f, 1
  {
    hide NamesOnce, ConvertedSchema, NormalizeTypes;
    ConvertedOnce(f);
    RetypedOnce(ConvertedSchema(f), Nullable(ConvertedSchema(f)));
  }

  lemma {:induction false} KeyOnce(g: Capture, rules: seq<Rule>)
    ensures NamesOnce(KeySchema(g, rules))
    decreases rules, 0
  {
    hide NamesOnce, RuleSchema, FieldEnum;
    var f := RuleOf(rules, g.name);
    var s := if f.None? then Typed(if g.optional then [StringKind, NullKind] else [StringKind]) else RuleSchema(f.value, g.optional);
    if f.Some? {
      RuleOnce(f.value, g.optional);
    } else {
      TypedOnce(s.types);
    }
    RetypedOnce(s, KeySchema(g, rules));
  }

  lemma {:induction false} MergedApart(captures: seq<Capture>)
    ensures NamesApart(NamesOf(Merged(captures)))
  {
    hide Merge, NamesApart, NamesOf;
    if captures == [] {
      NoneApart();
    } else {
      MergedApart(captures[..|captures| - 1]);
      MergeNames(Merged(captures[..|captures| - 1]), captures[|captures| - 1]);
    }
  }

  lemma {:induction false} NoneApart()
    ensures NamesApart(NamesOf([]))
  {
  }

  lemma {:induction false} ObjectOnce(alts: seq<Alternative>, rules: seq<Rule>)
    ensures NamesOnce(ObjectOf(alts, rules))
    decreases rules, 1
  {
    hide NamesOnce, KeySchema, Groups, RequiredKeys, NamesOf;
    var s, groups := ObjectOf(alts, rules), Groups(alts);
    GroupsApart(alts);
    NamesLength(groups);
    forall i | 0 <= i < |s.properties| ensures NamesOnce(s.properties[i].schema) {
      KeyOnce(groups[i], rules);
    }
    assert forall i :: 0 <= i < |s.properties| ==> s.properties[i].name == NamesOf(groups)[i];
    BodyOnce(s);
  }

  lemma {:induction false} GroupsApart(alts: seq<Alternative>)
    ensures NamesApart(NamesOf(Groups(alts)))
  {
    MergedApart(AllUses(alts));
  }

  lemma {:induction false} RulesOnce(rules: seq<Rule>, missing: bool)
    requires RulesMakeSense(rules)
    ensures PropertiesApart(RuleProperties(rules, missing)) && AllNameOnce(RuleProperties(rules, missing))
  {
    hide NamesOnce, RuleSchema, WellFormedRules;
    forall i | 0 <= i < |rules| ensures NamesOnce(RuleSchema(rules[i].field, missing)) {
      RuleOnce(rules[i].field, missing);
    }
  }

  lemma {:induction false} ValueOnce(f: Option<Field>, missing: bool)
    ensures NamesOnce(ValueSchema(f, missing))
  {
    hide NamesOnce, RuleSchema;
    if f.Some? {
      RuleOnce(f.value, missing);
    } else {
      TypedOnce(ValueSchema(f, missing).types);
    }
  }

  lemma {:induction false} RowOnce(f: Format)
    requires (f.Table? || f.Csv?) && NamesApart(f.columns) && RulesMakeSense(f.rules)
    ensures NamesOnce(RowSchema(f))
  {
    hide NamesOnce, RuleProperties, ValueSchema, CellMayBeEmpty, Omittable, Lookup, RulesMakeSense, RequiredColumns, AllNameOnce;
    var s := RowSchema(f);
    TypedOnce([StringKind, NullKind]);
    if f.columns == [] {
      RulesOnce(f.rules, true);
      var named := RuleProperties(f.rules, true);
      if s.properties != named {
        ValueOnce(RuleOf(f.rules, f.lead), CellMayBeEmpty(f, 0, 1));
        FirstOnce(s.properties[0], named);
      }
    } else {
      ColumnsOnce(f);
    }
    BodyOnce(s);
  }

  lemma {:induction false} FirstOnce(p: Property, rest: seq<Property>)
    requires NamesOnce(p.schema) && PropertiesApart(rest) && AllNameOnce(rest) && Lookup(rest, p.name).None?
    ensures PropertiesApart([p] + rest) && AllNameOnce([p] + rest)
  {
    hide NamesOnce;
    var all := [p] + rest;
    assert forall i :: 1 <= i < |all| ==> all[i] == rest[i - 1];
  }

  lemma {:induction false} LastOnce(rest: seq<Property>, p: Property)
    requires NamesOnce(p.schema) && PropertiesApart(rest) && AllNameOnce(rest) && NoneIsNamed(rest, p.name)
    ensures PropertiesApart(rest + [p]) && AllNameOnce(rest + [p])
  {
    hide NamesOnce;
    var all := rest + [p];
    assert forall i :: 0 <= i < |rest| ==> all[i] == rest[i];
  }

  lemma {:induction false} ColumnsOnce(f: Format)
    requires (f.Table? || f.Csv?) && NamesApart(f.columns)
    ensures PropertiesApart(ColumnProperties(f)) && AllNameOnce(ColumnProperties(f))
  {
    hide NamesOnce, ValueSchema, CellMayBeEmpty;
    forall i | 0 <= i < |f.columns| ensures NamesOnce(ColumnProperties(f)[i].schema) {
      ValueOnce(RuleOf(f.rules, f.columns[i]), CellMayBeEmpty(f, i, |f.columns|));
    }
  }

  lemma {:induction false} EntryOnce(rules: seq<Rule>)
    ensures NamesOnce(EntrySchema(rules))
  {
    hide NamesOnce, NormalizeTypes, EntryTypes, SomeOmittable;
    TypedOnce([StringKind]);
    TypedOnce(NormalizeTypes(EntryTypes(rules)));
    BodyOnce(EntrySchema(rules));
  }

  lemma {:induction false} MapOnce(rules: seq<Rule>)
    requires RulesMakeSense(rules)
    ensures NamesOnce(MapSchema(rules)) && NamesOnce(SectionsSchema(rules))
  {
    hide NamesOnce, RuleProperties, RulesMakeSense;
    RulesOnce(rules, false);
    TypedOnce([StringKind]);
    BodyOnce(MapSchema(rules));
    BodyOnce(SectionsSchema(rules));
  }

  lemma {:induction false} NodeOnce(node: NodeFormat, def: string)
    requires NodeMakesSense(node)
    ensures NamesOnce(NodeSchema(node, def))
  {
    hide NamesOnce, ObjectOf, EntrySchema, RulesMakeSense, AlternativesMakeSense, AllNameOnce, Lookup;
    var own := OwnSchema(node);
    if node.EntryNode? {
      EntryOnce(node.rules);
      EntryHasNoChildren(node.rules);
    } else {
      ObjectOnce(node.alts, node.rules);
      ObjectEnds(node.alts, node.rules);
    }
    OnceBody(own);
    RefListOnce(def);
    LastOnce(own.properties, Property(CHILDREN, ListOf(Ref(def))));
    BodyOnce(NodeSchema(node, def));
  }

  lemma {:induction false} EntryHasNoChildren(rules: seq<Rule>)
    ensures NoneIsNamed(EntrySchema(rules).properties, CHILDREN)
    ensures EntrySchema(rules).extra.None? && EntrySchema(rules).items.None?
  {
    hide NormalizeTypes, EntryTypes, SomeOmittable;
    assert "name" != CHILDREN && "value" != CHILDREN;
  }

  lemma {:induction false} ObjectEnds(alts: seq<Alternative>, rules: seq<Rule>)
    ensures ObjectOf(alts, rules).extra.None? && ObjectOf(alts, rules).items.None?
  {
  }

  lemma {:induction false} RefListOnce(def: string)
    ensures NamesOnce(ListOf(Ref(def)))
  {
  }

  lemma {:induction false} BothOnce(a: seq<Property>, b: seq<Property>)
    requires AllNameOnce(a) && AllNameOnce(b)
    ensures AllNameOnce(a + b)
  {
    hide NamesOnce;
  }

  lemma {:induction false} NoneOnce()
    ensures AllNameOnce([]) && PropertiesApart([])
  {
  }

  lemma {:induction false} DescribedOnce(f: Format, node: string, taken: set<string>)
    requires MakesSense(f)
    ensures
      var d := Described(f, node, taken);
      NamesOnce(d.schema) && AllNameOnce(d.defs)
    decreases f, 1
  {
    hide NamesOnce, RowSchema, ObjectOf, MapSchema, SectionsSchema, EntrySchema, NodeSchema, ListOf, DescribedParts, NodeMakesSense, RulesMakeSense,
      AllNameOnce, AlternativesMakeSense, FreeName;
    NoneOnce();
    match f {
      case Table(_, _, _, _, _) =>
        RowOnce(f);
        ListOnce(RowSchema(f));
      case Csv(_, _) =>
        RowOnce(f);
        ListOnce(RowSchema(f));
      case PerLine(alts, rules) =>
        ObjectOnce(alts, rules);
        ListOnce(ObjectOf(alts, rules));
      case WholeInput(alts, rules) =>
        ObjectOnce(alts, rules);
      case Entries(rules) =>
        EntryOnce(rules);
        ListOnce(EntrySchema(rules));
      case Mapping(rules) =>
        MapOnce(rules);
      case Sections(rules) =>
        MapOnce(rules);
      case Composite(parts) =>
        PartsOnce(parts, node, taken);
        var d := DescribedParts(parts, node, taken);
        BodyOnce(Body([ObjectKind], [], true, d.props, d.names, None, None));
      case Records(block) =>
        DescribedOnce(block, node, taken);
        ListOnce(Described(block, node, taken).schema);
      case Forest(format) =>
        var def := FreeName(node, 1, taken);
        NodeOnce(format, def);
        RefListOnce(def);
        OneOnce(Property(def, NodeSchema(format, def)));
    }
  }

  lemma {:induction false} OneOnce(p: Property)
    requires NamesOnce(p.schema)
    ensures AllNameOnce([p])
  {
    hide NamesOnce;
  }

  lemma {:induction false} PartsOnce(parts: seq<Part>, node: string, taken: set<string>)
    requires forall i, j :: 0 <= i < j < |parts| ==> parts[i].name != parts[j].name
    requires forall i :: 0 <= i < |parts| ==> MakesSense(parts[i].format)
    ensures
      var d := DescribedParts(parts, node, taken);
      && PropertiesApart(d.props) && AllNameOnce(d.props) && AllNameOnce(d.defs)
      && forall i :: 0 <= i < |parts| ==> d.props[i].name == parts[i].name
    decreases parts, 0
  {
    hide NamesOnce, AllNameOnce, Described, MakesSense, PropertiesApart;
    if parts == [] {
      NoneOnce();
    } else {
      var n := |parts| - 1;
      var before := DescribedParts(parts[..n], node, taken);
      var last := Described(parts[n].format, node + "_" + parts[n].name, before.taken);
      PartsOnce(parts[..n], node, taken);
      DescribedOnce(parts[n].format, node + "_" + parts[n].name, before.taken);
      LastOnce(before.props, Property(parts[n].name, last.schema));
      BothOnce(before.defs, last.defs);
    }
  }

  /** Every generated contract names each key once. */
  lemma {:induction false} GeneratedNamesOnce(f: Format)
    requires MakesSense(f)
    ensures ContractNamesOnce(Generated(f))
  {
    hide NamesOnce, AllNameOnce, MakesSense, Described;
    DescribedOnce(f, "node", {});
  }

  /** A generated contract is compared with itself, or with what an edit anywhere in it makes of it, without anything
      that breaks. */
  method CompareGenerated(f: Format, next: Contract) returns (changes: seq<Change>)
    requires MakesSense(f) && EditedContract(Generated(f), next)
    ensures NothingBreaks(changes)
  {
    hide MakesSense, ContractNamesOnce, EditedContract, NothingBreaks, Described;
    GeneratedNamesOnce(f);
    var prev := Generate(f);
    changes := CompareEdited(prev, next);
  }
}
