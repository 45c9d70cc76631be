/**
 Two versions of a definition and the contracts generated for them (internal/schema): when a comparison without
 breaking changes means that documents of one version fit the other's contract.
 */
module Evolution {
  import opened Lines
  import opened Json
  import opened Patterns
  import opened Conversions
  import opened Contracts
  import opened Typing
  import opened Generation
  import opened Compatibility
  import opened Endings
  import Growth
  import NamedOnce

  // ----- the shape of what is generated -----

  lemma {:induction false} TypedIsShaped(c: Contract, types: seq<Kind>)
    ensures Shaped(c, Typed(types)) <==> types != [] && (ObjectKind in types ==> StringKind in types)
  {
  }

  lemma {:induction false} NullableIsShaped(c: Contract, s: Schema)
    requires s.Body? && s.types != [] && Shaped(c, s)
    ensures Shaped(c, Nullable(s))
  {
    hide NormalizeTypes;
    assert (s.types + [NullKind])[|s.types|] == NullKind && NullKind in Nullable(s).types;
    assert forall k :: k in s.types + [NullKind] && k != NullKind ==> k in s.types;
    assert forall k :: k in s.types ==> k in s.types + [NullKind];
    assert Props(Nullable(s)) == Props(s);
  }

  lemma {:induction false} ListIsShaped(c: Contract, s: Schema)
    ensures Shaped(c, ListOf(s)) <==> Shaped(c, s)
  {
    hide Lookup;
    assert [ArrayKind][0] == ArrayKind;
    assert Props(ListOf(s)) == [];
  }

  lemma {:induction false} ConvertedIsShaped(c: Contract, f: Field)
    requires WellFormed(f)
    ensures Shaped(c, ConvertedSchema(f))
    decreases f, 0
  {
    hide Shaped, ObjectOf, Faithful;
    match f.kind {
      case ArrayField =>
        if f.items.None? {
          TypedIsShaped(c, [StringKind]);
          ListIsShaped(c, Typed([StringKind]));
        } else {
          var items := ConvertedSchema(f.items.value);
          ConvertedIsShaped(c, f.items.value);
          NullableIsShaped(c, items);
          ListIsShaped(c, items);
          ListIsShaped(c, Nullable(items));
        }
      case ObjectField =>
        ObjectIsShaped(c, [Alternative(f.regex.value, [])], f.fields);
      case _ =>
        TypedIsShaped(c, ConvertedSchema(f).types);
    }
  }

  lemma {:induction false} RuleIsShaped(c: Contract, f: Field, missing: bool)
    requires WellFormed(f)
    ensures Shaped(c, RuleSchema(f, missing))
    decreases f, 1
  {
    hide Shaped, ConvertedSchema, WellFormed;
    ConvertedIsShaped(c, f);
    NullableIsShaped(c, ConvertedSchema(f));
  }

  lemma {:induction false} ListedIsShaped(c: Contract, s: Schema, enums: seq<string>)
    requires s.Body? && Shaped(c, s)
    ensures Shaped(c, s.(enums := enums))
  {
    assert Props(s.(enums := enums)) == Props(s);
  }

  lemma {:induction false} KeyIsShaped(c: Contract, g: Capture, rules: seq<Rule>)
    requires WellFormedRules(rules)
    ensures Shaped(c, KeySchema(g, rules))
    decreases rules, 0
  {
    hide Shaped, RuleSchema, WellFormed, FieldEnum;
    var f := RuleOf(rules, g.name);
    var s := if f.None? then Typed(if g.optional then [StringKind, NullKind] else [StringKind]) else RuleSchema(f.value, g.optional);
    if f.Some? {
      RuleIsShaped(c, f.value, g.optional);
    } else {
      TypedIsShaped(c, s.types);
    }
    if FieldEnum(g.values, f).Some? {
      ListedIsShaped(c, s, FieldEnum(g.values, f).value);
    }
  }

  predicate Names(props: seq<Property>, name: string) {
    exists i :: 0 <= i < |props| && props[i].name == name
  }

  /** An object of named keys, each described, whose required keys are among them. */
  lemma {:induction false} NamedIsShaped(c: Contract, s: Schema)
    requires s.Body? && s.types == [ObjectKind] && s.states && s.items.None? && (s.extra.Some? ==> Shaped(c, s.extra.value))
    requires forall i :: 0 <= i < |s.properties| ==> Shaped(c, s.properties[i].schema)
    requires forall r :: 0 <= r < |s.required| ==> Names(s.properties, s.required[r])
    ensures Shaped(c, s)
  {
    forall r | 0 <= r < |s.required| ensures Lookup(Props(s), s.required[r]).Some? {
      var i :| 0 <= i < |s.properties| && s.properties[i].name == s.required[r];
    }
  }

  lemma {:induction false} ObjectIsShaped(c: Contract, alts: seq<Alternative>, rules: seq<Rule>)
    requires WellFormedRules(rules)
    ensures Shaped(c, ObjectOf(alts, rules))
    decreases rules, 1
  {
    hide Shaped, KeySchema, Groups, AlwaysThere, WellFormed;
    var s, groups := ObjectOf(alts, rules), Groups(alts);
    forall i | 0 <= i < |s.properties| ensures Shaped(c, s.properties[i].schema) {
      KeyIsShaped(c, groups[i], rules);
    }
    forall r | 0 <= r < |s.required| ensures Names(s.properties, s.required[r]) {
      assert s.required[r] in RequiredKeys(groups, alts, rules);
      var i :| 0 <= i < |groups| && groups[i].name == s.required[r] && AlwaysThere(groups[i], alts, rules);
      assert s.properties[i].name == s.required[r];
    }
    NamedIsShaped(c, s);
  }

  lemma {:induction false} RulesAreShaped(c: Contract, rules: seq<Rule>, missing: bool, i: nat)
    requires WellFormedRules(rules) && i < |rules|
    ensures Shaped(c, RuleProperties(rules, missing)[i].schema)
  {
    hide Shaped, RuleSchema, WellFormed;
    RuleIsShaped(c, rules[i].field, missing);
  }

  lemma {:induction false} ValueIsShaped(c: Contract, rules: seq<Rule>, name: string, missing: bool)
    requires WellFormedRules(rules)
    ensures Shaped(c, ValueSchema(RuleOf(rules, name), missing))
  {
    hide Shaped, RuleSchema, WellFormed;
    RuleMakesSense(rules, name);
    if RuleOf(rules, name).Some? {
      RuleIsShaped(c, RuleOf(rules, name).value, missing);
    } else {
      TypedIsShaped(c, [StringKind, NullKind]);
      TypedIsShaped(c, [StringKind]);
    }
  }

  lemma {:induction false} RowIsShaped(c: Contract, f: Format)
    requires (f.Table? || f.Csv?) && WellFormedRules(f.rules)
    ensures Shaped(c, RowSchema(f))
  {
    hide Shaped, RuleProperties, ValueSchema, CellMayBeEmpty, WellFormedRules, Omittable, Lookup;
    var s := RowSchema(f);
    TypedIsShaped(c, [StringKind, NullKind]);
    forall i | 0 <= i < |s.properties| ensures Shaped(c, s.properties[i].schema) {
      if f.columns != [] {
        ValueIsShaped(c, f.rules, f.columns[i], CellMayBeEmpty(f, i, |f.columns|));
      } else {
        if f.Table? {
          ValueIsShaped(c, f.rules, f.lead, CellMayBeEmpty(f, 0, 1));
        }
        PropertiesLength(f.rules, true);
        var named := RuleProperties(f.rules, true);
        if s.properties == named {
          RulesAreShaped(c, f.rules, true, i);
        } else if i > 0 {
          RulesAreShaped(c, f.rules, true, i - 1);
        }
      }
    }
    forall r | 0 <= r < |s.required| ensures Names(s.properties, s.required[r]) {
      if f.columns != [] {
        assert s.required[r] in RequiredColumns(f, |f.columns|);
        var i :| 0 <= i < |f.columns| && f.columns[i] == s.required[r] && ColumnIsThere(f, i);
        assert s.properties[i].name == s.required[r];
      } else {
        assert s.properties[0].name == s.required[r];
      }
    }
    NamedIsShaped(c, s);
  }

  lemma {:induction false} PropertiesLength(rules: seq<Rule>, missing: bool)
    ensures |RuleProperties(rules, missing)| == |rules|
  {
  }

  lemma {:induction false} MapIsShaped(c: Contract, rules: seq<Rule>)
    requires WellFormedRules(rules)
    ensures Shaped(c, MapSchema(rules)) && Shaped(c, SectionsSchema(rules))
  {
    hide Shaped, RuleProperties, WellFormedRules;
    PropertiesLength(rules, false);
    TypedIsShaped(c, [StringKind]);
    forall i | 0 <= i < |rules| ensures Shaped(c, RuleProperties(rules, false)[i].schema) {
      RulesAreShaped(c, rules, false, i);
    }
    NamedIsShaped(c, MapSchema(rules));
    SectionsAreShaped(c, MapSchema(rules));
  }

  lemma {:induction false} SectionsAreShaped(c: Contract, section: Schema)
    requires Shaped(c, section)
    ensures Shaped(c, Body([ObjectKind], [], false, [], [], Some(section), None))
  {
  }

  lemma {:induction false} EntryNames(rules: seq<Rule>)
    ensures
      var s := EntrySchema(rules);
      && s.states && forall r :: 0 <= r < |s.required| ==> Names(s.properties, s.required[r]) && Lookup(s.properties, s.required[r]).Some?
  {
    hide EntryTypes, NormalizeTypes, SomeOmittable;
    var s := EntrySchema(rules);
    assert s.properties[0].name == "name" && s.properties[1].name == "value";
  }

  lemma {:induction false} EntryIsShaped(c: Contract, rules: seq<Rule>)
    ensures Shaped(c, EntrySchema(rules))
  {
    hide EntryTypes, NormalizeTypes, SomeOmittable, Shaped;
    var s := EntrySchema(rules);
    StringIsAnEntryType(rules);
    TypedIsShaped(c, [StringKind]);
    TypedIsShaped(c, NormalizeTypes(EntryTypes(rules)));
    EntryNames(rules);
    NamedIsShaped(c, s);
  }

  lemma {:induction false} NodeIsShaped(c: Contract, node: NodeFormat, def: string)
    requires NodeMakesSense(node) && Lookup(c.defs, def).Some?
    ensures Shaped(c, NodeSchema(node, def))
  {
    hide Shaped, EntrySchema, ObjectOf, RulesMakeSense, AlternativesMakeSense;
    if node.EntryNode? {
      EntryIsShaped(c, node.rules);
      EntryNames(node.rules);
      ChildrenAreShaped(c, EntrySchema(node.rules), def);
    } else {
      RulesOnly(node.rules);
      ObjectIsShaped(c, node.alts, node.rules);
      ObjectNames(c, node.alts, node.rules);
      ChildrenAreShaped(c, ObjectOf(node.alts, node.rules), def);
    }
  }

  lemma {:induction false} ObjectNames(c: Contract, alts: seq<Alternative>, rules: seq<Rule>)
    requires Shaped(c, ObjectOf(alts, rules))
    ensures
      var s := ObjectOf(alts, rules);
      && s.states && forall r :: 0 <= r < |s.required| ==> Lookup(s.properties, s.required[r]).Some?
  {
    hide KeySchema, Groups, AlwaysThere, RequiredKeys;
  }

  lemma {:induction false} RulesOnly(rules: seq<Rule>)
    requires RulesMakeSense(rules)
    ensures WellFormedRules(rules)
  {
  }

  /** The children change nothing about the shape of a node. */
  lemma {:induction false} ChildrenAreShaped(c: Contract, own: Schema, def: string)
    requires own.Body? && own.states && Lookup(c.defs, def).Some?
    requires forall r :: 0 <= r < |own.required| ==> Lookup(own.properties, own.required[r]).Some?
    ensures
      var s := own.(properties := own.properties + [Property(CHILDREN, ListOf(Ref(def)))], required := own.required + [CHILDREN]);
      Shaped(c, own) ==> Shaped(c, s)
  {
    var last := Property(CHILDREN, ListOf(Ref(def)));
    var s := own.(properties := own.properties + [last], required := own.required + [CHILDREN]);
    ListIsShaped(c, Ref(def));
    forall name: string ensures Lookup(s.properties, name).Some? <==> Lookup(own.properties, name).Some? || name == CHILDREN {
      LookupLater(own.properties, last, name);
    }
    if Shaped(c, own) {
      assert Props(own) == own.properties && AllShaped(c, own.properties);
      forall i | 0 <= i < |s.properties| ensures Shaped(c, s.properties[i].schema) {
        assert s.properties[i] == if i < |own.properties| then own.properties[i] else last;
      }
      assert AllShaped(c, s.properties);
    }
  }

  /** What is described has the shape the comparison asks for. */
  lemma {:induction false} DescribedIsShaped(c: Contract, f: Format, node: string, taken: set<string>)
    requires MakesSense(f) && Holds(c, Described(f, node, taken).defs)
    ensures
      var d := Described(f, node, taken);
      Shaped(c, d.schema) && AllShaped(c, d.defs)
    decreases f, 1
  {
    hide Shaped, RowSchema, ObjectOf, MapSchema, SectionsSchema, EntrySchema, NodeSchema, ListOf, DescribedParts, NodeMakesSense,
      RulesMakeSense, NamesApart;
    var d := Described(f, node, taken);
    match f {
      case Table(_, _, _, _, rules) =>
        RulesOnly(rules);
        RowIsShaped(c, f);
        ListIsShaped(c, RowSchema(f));
      case Csv(_, rules) =>
        RulesOnly(rules);
        RowIsShaped(c, f);
        ListIsShaped(c, RowSchema(f));
      case PerLine(alts, rules) =>
        RulesOnly(rules);
        ObjectIsShaped(c, alts, rules);
        ListIsShaped(c, ObjectOf(alts, rules));
      case WholeInput(alts, rules) =>
        RulesOnly(rules);
        ObjectIsShaped(c, alts, rules);
      case Entries(rules) =>
        EntryIsShaped(c, rules);
        ListIsShaped(c, EntrySchema(rules));
      case Mapping(rules) =>
        RulesOnly(rules);
        MapIsShaped(c, rules);
      case Sections(rules) =>
        RulesOnly(rules);
        MapIsShaped(c, rules);
      case Composite(parts) =>
        PartsAreShaped(c, parts, node, taken);
        CompositeIsShaped(c, DescribedParts(parts, node, taken));
      case Records(block) =>
        DescribedIsShaped(c, block, node, taken);
        ListIsShaped(c, Described(block, node, taken).schema);
      case Forest(format) =>
        var def := FreeName(node, 1, taken);
        assert d.defs[0] == Property(def, NodeSchema(format, def));
        NodeIsShaped(c, format, def);
        RefIsShaped(c, def);
        ListIsShaped(c, Ref(def));
    }
  }

  lemma {:induction false} RefIsShaped(c: Contract, def: string)
    ensures Shaped(c, Ref(def)) <==> Lookup(c.defs, def).Some?
  {
  }

  lemma {:induction false} AllShapedBoth(c: Contract, a: seq<Property>, b: seq<Property>)
    ensures AllShaped(c, a + b) <==> AllShaped(c, a) && AllShaped(c, b)
  {
    hide Shaped;
    assert forall i :: 0 <= i < |a| ==> (a + b)[i] == a[i];
    assert forall i :: 0 <= i < |b| ==> (a + b)[|a| + i] == b[i];
  }

  lemma {:induction false} PartsAreShaped(c: Contract, parts: seq<Part>, node: string, taken: set<string>)
    requires forall i :: 0 <= i < |parts| ==> MakesSense(parts[i].format)
    requires Holds(c, DescribedParts(parts, node, taken).defs)
    ensures
      var d := DescribedParts(parts, node, taken);
      && AllShaped(c, d.props) && AllShaped(c, d.defs)
      && (forall i :: 0 <= i < |parts| ==> d.props[i].name == d.names[i])
    decreases parts, 0
  {
    hide Shaped, AllShaped, Described, MakesSense, Holds;
    if parts == [] {
      NoneShaped(c);
    } else {
      var n := |parts| - 1;
      var before := DescribedParts(parts[..n], node, taken);
      var last := Described(parts[n].format, node + "_" + parts[n].name, before.taken);
      HoldsBoth(c, before.defs, last.defs);
      PartsAreShaped(c, parts[..n], node, taken);
      DescribedIsShaped(c, parts[n].format, node + "_" + parts[n].name, before.taken);
      AllShapedBoth(c, before.defs, last.defs);
      AllShapedBoth(c, before.props, [Property(parts[n].name, last.schema)]);
      OneShaped(c, Property(parts[n].name, last.schema));
    }
  }

  lemma {:induction false} NoneShaped(c: Contract)
    ensures AllShaped(c, [])
  {
  }

  lemma {:induction false} OneShaped(c: Contract, p: Property)
    ensures AllShaped(c, [p]) <==> Shaped(c, p.schema)
  {
    hide Shaped;
    assert [p][0] == p;
  }

  lemma {:induction false} CompositeIsShaped(c: Contract, d: PartsDescription)
    requires |d.props| == |d.names| && forall i :: 0 <= i < |d.props| ==> d.props[i].name == d.names[i]
    ensures Shaped(c, Body([ObjectKind], [], true, d.props, d.names, None, None)) <==> AllShaped(c, d.props)
  {
    hide AllShaped;
    var s := Body([ObjectKind], [], true, d.props, d.names, None, None);
    assert Props(s) == d.props;
    assert forall r :: 0 <= r < |d.names| ==> Lookup(d.props, d.props[r].name).Some?;
  }

  /** Every generated contract has the shape the comparison asks for. */
  lemma {:induction false} GeneratedIsWellShaped(f: Format)
    requires MakesSense(f)
    ensures WellShaped(Generated(f))
  {
    hide Shaped, AllShaped, MakesSense;
    DescribedGivesOut(f, "node", {});
    ApartHolds(Generated(f));
    DescribedIsShaped(Generated(f), f, "node", {});
    DefsAreDescriptions(f, "node", {});
  }

  lemma {:induction false} DefsAreDescriptions(f: Format, node: string, taken: set<string>)
    ensures forall i :: 0 <= i < |Described(f, node, taken).defs| ==> Described(f, node, taken).defs[i].schema.Body?
    decreases f, 1
  {
    hide NodeSchema, RowSchema, ObjectOf, MapSchema, EntrySchema, DescribedParts;
    match f {
      case Composite(parts) => PartDefsAreDescriptions(parts, node, taken);
      case Records(block) => DefsAreDescriptions(block, node, taken);
      case _ =>
    }
  }

  lemma {:induction false} PartDefsAreDescriptions(parts: seq<Part>, node: string, taken: set<string>)
    ensures forall i :: 0 <= i < |DescribedParts(parts, node, taken).defs| ==> DescribedParts(parts, node, taken).defs[i].schema.Body?
    decreases parts, 0
  {
    hide Described;
    if parts != [] {
      var n := |parts| - 1;
      PartDefsAreDescriptions(parts[..n], node, taken);
      DefsAreDescriptions(parts[n].format, node + "_" + parts[n].name, DescribedParts(parts[..n], node, taken).taken);
    }
  }

  // ----- comparing generated contracts ends -----

  lemma {:induction false} BodyIsFree(s: Schema)
    requires s.Body? && (s.items.Some? ==> RefFree(s.items.value)) && (s.extra.Some? ==> RefFree(s.extra.value))
    requires forall i :: 0 <= i < |Props(s)| ==> RefFree(Props(s)[i].schema)
    ensures RefFree(s)
  {
    forall i | 0 <= i < |Kids(s)| ensures RefFree(Kids(s)[i]) {
      var n := if s.items.Some? then 1 else 0;
      assert n <= i < n + |Props(s)| ==> Kids(s)[i] == Props(s)[i - n].schema;
    }
  }

  lemma {:induction false} TypedIsFree(types: seq<Kind>)
    ensures RefFree(Typed(types))
  {
    BodyIsFree(Typed(types));
  }

  lemma {:induction false} RetypedIsFree(s: Schema, t: Schema)
    requires s.Body? && t.Body? && RefFree(s) && t == s.(types := t.types, enums := t.enums)
    ensures RefFree(t)
  {
    assert Kids(t) == Kids(s);
  }

  lemma {:induction false} ConvertedIsFree(f: Field)
    ensures RefFree(ConvertedSchema(f))
    decreases f, 0
  {
    hide RefFree, ObjectOf, NormalizeTypes;
    TypedIsFree([StringKind]);
    match f.kind {
      case ArrayField =>
        if f.items.Some? {
          var items := ConvertedSchema(f.items.value);
          ConvertedIsFree(f.items.value);
          RetypedIsFree(items, Nullable(items));
        }
        BodyIsFree(ConvertedSchema(f));
      case ObjectField =>
        TypedIsFree([ObjectKind]);
        if f.regex.Some? {
          ObjectIsFree([Alternative(f.regex.value, [])], f.fields);
        }
      case _ =>
        TypedIsFree(ConvertedSchema(f).types);
    }
  }

  lemma {:induction false} RuleIsFree(f: Field, missing: bool)
    ensures RefFree(RuleSchema(f, missing))
    decreases f, 1
  {
    hide RefFree, ConvertedSchema, NormalizeTypes;
    ConvertedIsFree(f);
    RetypedIsFree(ConvertedSchema(f), Nullable(ConvertedSchema(f)));
  }

  lemma {:induction false} KeyIsFree(g: Capture, rules: seq<Rule>)
    ensures RefFree(KeySchema(g, rules))
    decreases rules, 0
  {
    hide RefFree, RuleSchema, FieldEnum;
    var f := RuleOf(rules, g.name);
    var s := if f.None? then Typed(if g.optional then [StringKind, NullKind] else [StringKind]) else RuleSchema(f.value, g.optional);
    if f.Some? {
      RuleIsFree(f.value, g.optional);
    } else {
      TypedIsFree(s.types);
    }
    RetypedIsFree(s, KeySchema(g, rules));
  }

  lemma {:induction false} ObjectIsFree(alts: seq<Alternative>, rules: seq<Rule>)
    ensures RefFree(ObjectOf(alts, rules))
    decreases rules, 1
  {
    hide RefFree, KeySchema, Groups, RequiredKeys;
    var s, groups := ObjectOf(alts, rules), Groups(alts);
    forall i | 0 <= i < |Props(s)| ensures RefFree(Props(s)[i].schema) {
      KeyIsFree(groups[i], rules);
    }
    BodyIsFree(s);
  }

  lemma {:induction false} EntryIsFree(rules: seq<Rule>)
    ensures RefFree(EntrySchema(rules))
  {
    hide RefFree, NormalizeTypes, EntryTypes, SomeOmittable;
    TypedIsFree([StringKind]);
    TypedIsFree(NormalizeTypes(EntryTypes(rules)));
    BodyIsFree(EntrySchema(rules));
  }

  /** A node of a tree refers to its kind through the list of its children alone. */
  lemma {:induction false} NodeIsANode(node: NodeFormat, def: string)
    ensures IsNode(NodeSchema(node, def))
  {
    hide RefFree, IsRefList, ObjectOf, EntrySchema, Kids, NodeSchema;
    var own, s := OwnSchema(node), NodeSchema(node, def);
    if node.EntryNode? {
      EntryIsFree(node.rules);
    } else {
      ObjectIsFree(node.alts, node.rules);
    }
    OwnStates(node);
    NodeIsAnObject(node, def);
    forall i | 0 <= i < |Kids(s)| ensures RefFree(Kids(s)[i]) || IsRefList(Kids(s)[i]) {
      NodeKid(node, def, i);
      if i < |own.properties| {
        AreKids(own);
        KidIsFree(own, own.properties[i].schema);
      } else {
        ChildrenAreRefs(def);
      }
    }
  }

  lemma {:induction false} NodeIsAnObject(node: NodeFormat, def: string)
    requires OwnSchema(node).types == [ObjectKind]
    ensures NodeSchema(node, def).types == [ObjectKind]
  {
    hide OwnSchema;
  }

  lemma {:induction false} ChildrenAreRefs(def: string)
    ensures IsRefList(ListOf(Ref(def)))
  {
    assert Kids(ListOf(Ref(def))) == [Ref(def)];
  }

  /** What is inside a node: what is inside its own part, and the list of its children. */
  lemma {:induction false} NodeKid(node: NodeFormat, def: string, i: nat)
    requires
      var own := OwnSchema(node);
      own.states && own.extra.None? && own.items.None? && i < |Kids(NodeSchema(node, def))|
    ensures
      var own := OwnSchema(node);
      && own.properties == Props(own) && i <= |own.properties|
      && Kids(NodeSchema(node, def))[i] == if i < |own.properties| then own.properties[i].schema else ListOf(Ref(def))
  {
    hide OwnSchema;
  }

  lemma {:induction false} OwnStates(node: NodeFormat)
    ensures
      var own := OwnSchema(node);
      own.types == [ObjectKind] && own.states && own.extra.None? && own.items.None?
  {
  }

  lemma {:induction false} DefsAreNodes(f: Format, node: string, taken: set<string>)
    ensures forall i :: 0 <= i < |Described(f, node, taken).defs| ==> IsNode(Described(f, node, taken).defs[i].schema)
    decreases f, 1
  {
    hide NodeSchema, RowSchema, ObjectOf, MapSchema, EntrySchema, DescribedParts, IsNode;
    match f {
      case Composite(parts) => PartDefsAreNodes(parts, node, taken);
      case Records(block) => DefsAreNodes(block, node, taken);
      case Forest(format) => NodeIsANode(format, FreeName(node, 1, taken));
      case _ =>
    }
  }

  lemma {:induction false} PartDefsAreNodes(parts: seq<Part>, node: string, taken: set<string>)
    ensures forall i :: 0 <= i < |DescribedParts(parts, node, taken).defs| ==> IsNode(DescribedParts(parts, node, taken).defs[i].schema)
    decreases parts, 0
  {
    hide Described, IsNode;
    if parts != [] {
      var n := |parts| - 1;
      PartDefsAreNodes(parts[..n], node, taken);
      DefsAreNodes(parts[n].format, node + "_" + parts[n].name, DescribedParts(parts[..n], node, taken).taken);
    }
  }

  /** The highest of a contract's schemas. */
  function Highest(c: Contract, n: nat): nat
    requires n <= |c.defs|
  {
    if n == 0 then Height(c.top)
    else
      var rest, last := Highest(c, n - 1), Height(c.defs[n - 1].schema);
      if rest < last then last else rest
  }

  lemma {:induction false} HighestBounds(c: Contract, n: nat)
    requires n <= |c.defs|
    ensures Height(c.top) <= Highest(c, n)
    ensures forall i :: 0 <= i < n ==> Height(c.defs[i].schema) <= Highest(c, n)
  {
    hide Height;
    if n > 0 {
      HighestBounds(c, n - 1);
    }
  }

  /** Every generated contract is one of trees. */
  lemma {:induction false} GeneratedIsOfTrees(f: Format, m: nat)
    requires MakesSense(f) && m >= Highest(Generated(f), |Generated(f).defs|)
    ensures OfTrees(Generated(f), m)
  {
    hide Height, Highest, IsNode, WellShaped, MakesSense, Described;
    GeneratedIsWellShaped(f);
    DefsAreNodes(f, "node", {});
    HighestBounds(Generated(f), |Generated(f).defs|);
  }

  // ----- one version's documents under the other's contract -----

  /** Comparing the contracts of two versions ends. When it finds nothing that breaks, every document the previous
      version makes fits the new contract, and every document the new version makes fits the previous one once the
      keys that one did not have are left out. It finds nothing that breaks where the new contract is the previous one
      with an edit that breaks nobody, or the same. */
  method CompareVersions(prev: Format, next: Format) returns (changes: seq<Change>)
    requires MakesSense(prev) && MakesSense(next)
    ensures NothingBreaks(changes) ==>
      && (forall m :: CutFor(prev, m) && Made(prev, m).Ok? && NothingWanting(prev, m) ==> Fits(Generated(next), Generated(next).top, Made(prev, m).value))
      && (forall m :: CutFor(next, m) && Made(next, m).Ok? && NothingWanting(next, m) ==>
            Fits(Generated(prev), Generated(prev).top, Prune(Generated(prev), Generated(prev).top, Made(next, m).value)))
    ensures Growth.EditedContract(Generated(prev), Generated(next)) ==> NothingBreaks(changes)
  {
    hide Fits, MakesSense, CutFor, Made, Described, NothingWanting, Prune, Shaped, WellShaped, NothingBreaks, Agree, AllGrounded, Ends, After, OfTrees, Highest, Steps,
      Growth.EditedContract, Growth.ContractNamesOnce, Growth.ContractGrows, Agreed;
    var a := Generate(prev);
    var b := Generate(next);
    var m := Highest(a, |a.defs|) + Highest(b, |b.defs|);
    GeneratedIsOfTrees(prev, m);
    GeneratedIsOfTrees(next, m);
    TreesEnd(a, b, m);
    EndsAfter(a, b, {}, Steps(a, b, m), a.top, b.top);
    changes := CompareContracts(a, b);
    if Growth.EditedContract(a, b) {
      NamedOnce.GeneratedNamesOnce(prev);
      Growth.EditedContractGrows(a, b);
      Growth.GrownContractAgrees(a, b);
    }
    if NothingBreaks(changes) {
      GeneratedIsWellShaped(prev);
      GeneratedIsWellShaped(next);
      assert Compatible(a, b);
    }
  }
}
