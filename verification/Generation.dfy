/**
 The output contract of a definition (internal/schema/generate.go, Generate) and the documents its parsers make of
 what they cut and matched (pkg/engine, parse*): every document fits the contract.
 */
module Generation {
  import opened Lines
  import opened Json
  import opened Patterns
  import opened Conversions
  import opened Contracts
  import opened Typing
  import opened Texts

  /** How a table's rows are cut. */
  datatype Split = Whitespace | Delimiter | Aligned | Box

  /** A parser with its field rules, which stand in the order of their names. No columns means the input names
      them; no leading label is the empty one; `minFields` is how many fields a row must have, or 0 for all of them. */
  datatype Format =
    | Table(split: Split, columns: seq<string>, lead: string, minFields: nat, rules: seq<Rule>)
    | Csv(columns: seq<string>, rules: seq<Rule>)
    | PerLine(alts: seq<Alternative>, rules: seq<Rule>)
    | WholeInput(alts: seq<Alternative>, rules: seq<Rule>)
    | Entries(rules: seq<Rule>)
    | Mapping(rules: seq<Rule>)
    | Sections(rules: seq<Rule>)
    | Composite(parts: seq<Part>)
    | Records(block: Format)
    | Forest(node: NodeFormat)

  datatype Part = Part(name: string, format: Format)

  /** What one line of a tree is read with. */
  datatype NodeFormat = MatchNode(alts: seq<Alternative>, rules: seq<Rule>) | EntryNode(rules: seq<Rule>)

  // ----- the contract -----

  function RowColumns(f: Format): seq<string>
    requires f.Table? || f.Csv?
  {
    f.columns
  }

  /** A column can come out with nothing in it (cellMayBeEmpty). */
  predicate CellMayBeEmpty(f: Format, i: nat, n: nat)
    requires f.Table? || f.Csv?
  {
    if f.Csv? then i > 0
    else f.split.Aligned? || f.split.Box? || i >= if f.minFields == 0 then n else f.minFields
  }

  function RuleProperties(rules: seq<Rule>, missing: bool): seq<Property> {
    seq(|rules|, i requires 0 <= i < |rules| => Property(rules[i].name, RuleSchema(rules[i].field, missing)))
  }

  /** One row of a table or a csv (table). */
  function RowSchema(f: Format): (s: Schema)
    requires f.Table? || f.Csv?
    ensures s.Body?
  {
    if f.columns == [] then
      var named := RuleProperties(f.rules, true);
      if f.Table? && f.lead != "" && Lookup(named, f.lead).None? then
        Body([ObjectKind], [], true, [Property(f.lead, ValueSchema(RuleOf(f.rules, f.lead), CellMayBeEmpty(f, 0, 1)))] + named,
             if Omittable(RuleOf(f.rules, f.lead), CellMayBeEmpty(f, 0, 1)) then [] else [f.lead],
             Some(Typed([StringKind, NullKind])), None)
      else Body([ObjectKind], [], true, named, [], Some(Typed([StringKind, NullKind])), None)
    else Body([ObjectKind], [], true, ColumnProperties(f), RequiredColumns(f, |f.columns|), None, None)
  }

  function ColumnProperties(f: Format): seq<Property>
    requires f.Table? || f.Csv?
  {
    seq(|f.columns|, i requires 0 <= i < |f.columns| =>
      Property(f.columns[i], ValueSchema(RuleOf(f.rules, f.columns[i]), CellMayBeEmpty(f, i, |f.columns|))))
  }

  /** The first n columns, less those a rule may leave out. */
  function RequiredColumns(f: Format, n: nat): (names: seq<string>)
    requires (f.Table? || f.Csv?) && n <= |f.columns|
    ensures forall name :: name in names ==> exists i :: 0 <= i < n && f.columns[i] == name && ColumnIsThere(f, i)
  {
    if n == 0 then []
    else if ColumnIsThere(f, n - 1) then RequiredColumns(f, n - 1) + [f.columns[n - 1]]
    else RequiredColumns(f, n - 1)
  }

  predicate ColumnIsThere(f: Format, i: nat)
    requires (f.Table? || f.Csv?) && i < |f.columns|
  {
    !Omittable(RuleOf(f.rules, f.columns[i]), CellMayBeEmpty(f, i, |f.columns|))
  }

  /** Every type a value can have whose rule depends on its key (kvEntry). */
  function EntryTypes(rules: seq<Rule>): seq<Kind> {
    if rules == [] then [StringKind]
    else EntryTypes(rules[..|rules| - 1]) + RuleSchema(rules[|rules| - 1].field, false).types
  }

  predicate SomeOmittable(rules: seq<Rule>) {
    exists i :: 0 <= i < |rules| && Omittable(Some(rules[i].field), false)
  }

  function EntrySchema(rules: seq<Rule>): (s: Schema)
    ensures s.Body?
  {
    Body([ObjectKind], [], true,
         [Property("name", Typed([StringKind])), Property("value", Typed(NormalizeTypes(EntryTypes(rules))))],
         if SomeOmittable(rules) then ["name"] else ["name", "value"], None, None)
  }

  /** An object keyed by what the input printed (mapOf). */
  function MapSchema(rules: seq<Rule>): (s: Schema)
    ensures s.Body?
  {
    Body([ObjectKind], [], true, RuleProperties(rules, false), [], Some(Typed([StringKind])), None)
  }

  function SectionsSchema(rules: seq<Rule>): Schema {
    Body([ObjectKind], [], false, [], [], Some(MapSchema(rules)), None)
  }

  const CHILDREN := "children"

  /** A node, described once and referred to by the name `def` (tree). */
  function NodeSchema(node: NodeFormat, def: string): (s: Schema)
    ensures s.Body?
  {
    var own := OwnSchema(node);
    own.(properties := own.properties + [Property(CHILDREN, ListOf(Ref(def)))], required := own.required + [CHILDREN])
  }

  function OwnSchema(node: NodeFormat): (s: Schema)
    ensures s.Body?
  {
    match node
    case EntryNode(rules) => EntrySchema(rules)
    case MatchNode(alts, rules) => ObjectOf(alts, rules)
  }

  // ----- names of $defs -----

  /** The i-th name to try. */
  function Tried(want: string, i: nat): string {
    if i <= 1 then want else want + "_" + DigitsOf(i)
  }

  /** The first name that is not taken, from the i-th on (defName). A name that was tried is not tried again. */
  function FreeName(want: string, i: nat, taken: set<string>): string
    decreases |taken|
  {
    if Tried(want, i) in taken then FreeName(want, i + 1, taken - {Tried(want, i)}) else Tried(want, i)
  }

  // ----- the whole contract -----

  datatype Description = Description(schema: Schema, defs: seq<Property>, taken: set<string>)

  /** What a parser's result looks like; `node` is the name a tree asks to describe its nodes under (parse). */
  function Described(f: Format, node: string, taken: set<string>): Description
    decreases f, 1
  {
    match f
    case Table(_, _, _, _, _) => Description(ListOf(RowSchema(f)), [], taken)
    case Csv(_, _) => Description(ListOf(RowSchema(f)), [], taken)
    case PerLine(alts, rules) => Description(ListOf(ObjectOf(alts, rules)), [], taken)
    case WholeInput(alts, rules) => Description(ObjectOf(alts, rules), [], taken)
    case Entries(rules) => Description(ListOf(EntrySchema(rules)), [], taken)
    case Mapping(rules) => Description(MapSchema(rules), [], taken)
    case Sections(rules) => Description(SectionsSchema(rules), [], taken)
    case Composite(parts) =>
      var d := DescribedParts(parts, node, taken);
      Description(Body([ObjectKind], [], true, d.props, d.names, None, None), d.defs, d.taken)
    case Records(block) =>
      var d := Described(block, node, taken);
      d.(schema := ListOf(d.schema))
    case Forest(format) =>
      var def := FreeName(node, 1, taken);
      Description(ListOf(Ref(def)), [Property(def, NodeSchema(format, def))], taken + {def})
  }

  datatype PartsDescription = PartsDescription(props: seq<Property>, names: seq<string>, defs: seq<Property>, taken: set<string>)

  /** The parts of a composite, in their order (composite). */
  function DescribedParts(parts: seq<Part>, node: string, taken: set<string>): (d: PartsDescription)
    ensures |d.props| == |d.names| == |parts|
    decreases parts, 0
  {
    if parts == [] then PartsDescription([], [], [], taken)
    else
      var n := |parts| - 1;
      var before := DescribedParts(parts[..n], node, taken);
      var last := Described(parts[n].format, node + "_" + parts[n].name, before.taken);
      PartsDescription(before.props + [Property(parts[n].name, last.schema)], before.names + [parts[n].name],
                       before.defs + last.defs, last.taken)
  }

  /** Generate, the annotations apart. */
  function Generated(f: Format): Contract {
    var d := Described(f, "node", {});
    Contract(d.schema, d.defs)
  }

  /** What one generation shares: the names given out. */
  class Generator {
    var taken: set<string>

    constructor ()
      ensures taken == {}
    {
      taken := {};
    }

    /** A name of its own for a tree's nodes, numbered when the one wanted is taken (defName). */
    method DefName(want: string) returns (name: string)
      modifies this
      ensures name == FreeName(want, 1, old(taken)) && taken == old(taken) + {name} && name !in old(taken)
    {
      name := want;
      var i := 2;
      ghost var left := taken;
      while name in taken
        invariant i >= 2 && name == Tried(want, i - 1) && left <= taken == old(taken)
        invariant FreeName(want, i - 1, left) == FreeName(want, 1, taken)
        invariant forall j :: i - 1 <= j ==> Tried(want, j) in taken ==> Tried(want, j) in left
        decreases |left|
      {
        forall j | i <= j ensures Tried(want, j) != name {
          TriedApart(want, i - 1, j);
        }
        left := left - {name};
        name := Tried(want, i);
        i := i + 1;
      }
      taken := taken + {name};
    }

    /** parse */
    method Parse(f: Format, node: string) returns (schema: Schema, defs: seq<Property>)
      modifies this
      ensures Description(schema, defs, taken) == Described(f, node, old(taken))
      decreases f
    {
      match f {
        case Composite(parts) =>
          var props, names := [], [];
          defs := [];
          for i := 0 to |parts|
            invariant PartsDescription(props, names, defs, taken) == DescribedParts(parts[..i], node, old(taken))
          {
            assert parts[..i + 1][..i] == parts[..i];
            var s, ds := Parse(parts[i].format, node + "_" + parts[i].name);
            props, names, defs := props + [Property(parts[i].name, s)], names + [parts[i].name], defs + ds;
          }
          assert parts[..|parts|] == parts;
          schema := Body([ObjectKind], [], true, props, names, None, None);
        case Records(block) =>
          schema, defs := Parse(block, node);
          schema := ListOf(schema);
        case Forest(format) =>
          var def := DefName(node);
          schema, defs := ListOf(Ref(def)), [Property(def, NodeSchema(format, def))];
        case _ =>
          var d := Described(f, node, taken);
          schema, defs := d.schema, d.defs;
      }
    }
  }

  lemma {:induction false} TriedApart(want: string, i: nat, j: nat)
    requires 1 <= i < j
    ensures Tried(want, i) != Tried(want, j)
  {
    if Tried(want, i) == Tried(want, j) {
      var n := |want| + 1;
      assert Tried(want, j)[n..] == DigitsOf(j);
      assert |Tried(want, j)| > |want|;
      assert Tried(want, i)[n..] == DigitsOf(i);
      DigitsApart(i, j);
    }
  }

  // ----- what the parsers make -----

  /** A line, or an input, that one of the alternatives matched. */
  datatype Hit = Hit(which: nat, text: string, events: seq<Event>)

  /** The cells of one row with the columns they stand under. */
  datatype Row = Row(columns: seq<string>, cells: seq<Option<string>>)

  datatype Branch = Branch(own: Own, children: seq<Branch>)

  datatype Own = OwnHit(hit: Hit) | OwnPair(key: string, value: string)

  datatype Pair = Pair(key: string, value: string)

  /** What was cut out of the input and matched, before any field rule is applied. */
  datatype Material =
    | Rows(rows: seq<Row>)
    | Hits(hits: seq<Hit>)
    | OneHit(hit: Hit)
    | Pairs(pairs: seq<Pair>)
    | SectionPairs(sections: seq<Section>)
    | PartMaterials(parts: seq<Material>)
    | BlockMaterials(blocks: seq<Material>)
    | Branches(branches: seq<Branch>)

  datatype Section = Section(name: string, pairs: seq<Pair>)

  function CellAt(row: Row, i: nat): Option<string> {
    if i < |row.cells| then row.cells[i] else None
  }

  function RowEntries(row: Row): seq<Entry> {
    seq(|row.columns|, i requires 0 <= i < |row.columns| => Entry(row.columns[i], CellAt(row, i), {}))
  }

  /** One record (rowObject, csvRow). */
  function RowMade(rules: seq<Rule>, row: Row): Outcome<Json> {
    var members :- SetEntries(rules, RowEntries(row));
    Ok(Obj(members))
  }

  /** The object a hit becomes (objectFromMatch). */
  function HitMade(alts: seq<Alternative>, rules: seq<Rule>, hit: Hit): Outcome<Json> {
    if hit.which >= |alts| then Refused
    else
      var members :- ObjectFromMatch(alts[hit.which], hit.events, rules);
      Ok(Obj(members))
  }

  /** One {"name": ..., "value": ...} entry (parseKV). */
  function EntryMembers(rules: seq<Rule>, pair: Pair): Outcome<seq<Member>> {
    var v :- Convert(RuleOf(rules, pair.key), Some(pair.value), {});
    Ok(if v.Kept? then [Member("name", Str(pair.key)), Member("value", v.value)] else [Member("name", Str(pair.key))])
  }

  function EntryMade(rules: seq<Rule>, pair: Pair): Outcome<Json> {
    var members :- EntryMembers(rules, pair);
    Ok(Obj(members))
  }

  function PairEntries(pairs: seq<Pair>): seq<Entry> {
    seq(|pairs|, i requires 0 <= i < |pairs| => Entry(pairs[i].key, Some(pairs[i].value), {}))
  }

  function PairsMade(rules: seq<Rule>, pairs: seq<Pair>): Outcome<Json> {
    var members :- SetEntries(rules, PairEntries(pairs));
    Ok(Obj(members))
  }

  function OwnMembers(node: NodeFormat, own: Own): Outcome<seq<Member>> {
    match node
    case EntryNode(rules) => if own.OwnPair? then EntryMembers(rules, Pair(own.key, own.value)) else Refused
    case MatchNode(alts, rules) =>
      if own.OwnHit? && own.hit.which < |alts| then ObjectFromMatch(alts[own.hit.which], own.hit.events, rules) else Refused
  }

  /** A node with the nodes under it (treeNodes). */
  function BranchMade(node: NodeFormat, b: Branch): Outcome<Json>
    decreases b, 1
  {
    var own :- OwnMembers(node, b.own);
    var children :- BranchesMade(node, b.children);
    Ok(Obj(SetKey(own, CHILDREN, Arr(children))))
  }

  function BranchesMade(node: NodeFormat, bs: seq<Branch>): (r: Outcome<seq<Json>>)
    decreases bs, 0
  {
    if bs == [] then Ok([])
    else
      var before :- BranchesMade(node, bs[..|bs| - 1]);
      var last :- BranchMade(node, bs[|bs| - 1]);
      Ok(before + [last])
  }

  function RowsMade(rules: seq<Rule>, rows: seq<Row>): Outcome<seq<Json>> {
    if rows == [] then Ok([])
    else
      var before :- RowsMade(rules, rows[..|rows| - 1]);
      var last :- RowMade(rules, rows[|rows| - 1]);
      Ok(before + [last])
  }

  function HitsMade(alts: seq<Alternative>, rules: seq<Rule>, hits: seq<Hit>): Outcome<seq<Json>> {
    if hits == [] then Ok([])
    else
      var before :- HitsMade(alts, rules, hits[..|hits| - 1]);
      var last :- HitMade(alts, rules, hits[|hits| - 1]);
      Ok(before + [last])
  }

  function EntriesMade(rules: seq<Rule>, pairs: seq<Pair>): Outcome<seq<Json>> {
    if pairs == [] then Ok([])
    else
      var before :- EntriesMade(rules, pairs[..|pairs| - 1]);
      var last :- EntryMade(rules, pairs[|pairs| - 1]);
      Ok(before + [last])
  }

  function SectionsMade(rules: seq<Rule>, sections: seq<Section>): Outcome<seq<Member>> {
    if sections == [] then Ok([])
    else
      var n := |sections| - 1;
      var before :- SectionsMade(rules, sections[..n]);
      var last :- PairsMade(rules, sections[n].pairs);
      Ok(before + [Member(sections[n].name, last)])
  }

  /** The document a parser makes of what was cut for it (parse). */
  function Made(f: Format, m: Material): Outcome<Json>
    decreases m, 1
  {
    match f
    case Table(_, _, _, _, rules) => ListMade(if m.Rows? then RowsMade(rules, m.rows) else Refused)
    case Csv(_, rules) => ListMade(if m.Rows? then RowsMade(rules, m.rows) else Refused)
    case PerLine(alts, rules) => ListMade(if m.Hits? then HitsMade(alts, rules, m.hits) else Refused)
    case WholeInput(alts, rules) => if m.OneHit? then HitMade(alts, rules, m.hit) else Refused
    case Entries(rules) => ListMade(if m.Pairs? then EntriesMade(rules, m.pairs) else Refused)
    case Mapping(rules) => if m.Pairs? then PairsMade(rules, m.pairs) else Refused
    case Sections(rules) => if m.SectionPairs? then ObjectMade(SectionsMade(rules, m.sections)) else Refused
    case Composite(parts) =>
      if m.PartMaterials? && |m.parts| == |parts| then ObjectMade(PartsMade(parts, m.parts)) else Refused
    case Records(block) => ListMade(if m.BlockMaterials? then BlocksMade(block, m.blocks) else Refused)
    case Forest(node) => ListMade(if m.Branches? then BranchesMade(node, m.branches) else Refused)
  }

  function ListMade(items: Outcome<seq<Json>>): Outcome<Json> {
    if items.Refused? then Refused else Ok(Arr(items.value))
  }

  function ObjectMade(members: Outcome<seq<Member>>): Outcome<Json> {
    if members.Refused? then Refused else Ok(Obj(members.value))
  }

  /** Each part under its name (parseComposite). */
  function PartsMade(parts: seq<Part>, ms: seq<Material>): Outcome<seq<Member>>
    requires |parts| == |ms|
    decreases ms, 0
  {
    if ms == [] then Ok([])
    else
      var n := |ms| - 1;
      var before :- PartsMade(parts[..n], ms[..n]);
      var last :- Made(parts[n].format, ms[n]);
      Ok(before + [Member(parts[n].name, last)])
  }

  /** Each block by itself (parseRecords). */
  function BlocksMade(block: Format, ms: seq<Material>): Outcome<seq<Json>>
    decreases ms, 0
  {
    if ms == [] then Ok([])
    else
      var before :- BlocksMade(block, ms[..|ms| - 1]);
      var last :- Made(block, ms[|ms| - 1]);
      Ok(before + [last])
  }

  // ----- what can be cut -----

  ghost predicate RowCut(f: Format, row: Row)
    requires f.Table? || f.Csv?
  {
    && NamesApart(row.columns)
    && (f.columns != [] ==> row.columns == f.columns)
    && forall i :: 0 <= i < |row.columns| && CellAt(row, i).None? ==> CellMayBeEmpty(f, i, |row.columns|)
  }

  ghost predicate HitCut(alts: seq<Alternative>, hit: Hit) {
    hit.which < |alts| && Derives(alts[hit.which].re.tree, hit.text, hit.events)
  }

  ghost predicate PairsApart(pairs: seq<Pair>) {
    forall i, j :: 0 <= i < j < |pairs| ==> pairs[i].key != pairs[j].key
  }

  ghost predicate BranchCut(node: NodeFormat, b: Branch)
    decreases b
  {
    && (node.MatchNode? && b.own.OwnHit? ==> HitCut(node.alts, b.own.hit))
    && forall i :: 0 <= i < |b.children| ==> BranchCut(node, b.children[i])
  }

  /** What the cutters and matchers of a parser can give: every row under the columns the parser has, every match
      one its expression allows, every key of a map once. */
  ghost predicate CutFor(f: Format, m: Material)
    decreases m
  {
    match m
    case Rows(rows) => (f.Table? || f.Csv?) && forall i :: 0 <= i < |rows| ==> RowCut(f, rows[i])
    case Hits(hits) => f.PerLine? && forall i :: 0 <= i < |hits| ==> HitCut(f.alts, hits[i])
    case OneHit(hit) => f.WholeInput? && HitCut(f.alts, hit)
    case Pairs(pairs) => f.Entries? || (f.Mapping? && PairsApart(pairs))
    case SectionPairs(sections) => f.Sections? && forall i :: 0 <= i < |sections| ==> PairsApart(sections[i].pairs)
    case PartMaterials(parts) =>
      f.Composite? && |parts| == |f.parts| && forall i :: 0 <= i < |parts| ==> CutFor(f.parts[i].format, parts[i])
    case BlockMaterials(blocks) => f.Records? && forall i :: 0 <= i < |blocks| ==> CutFor(f.block, blocks[i])
    case Branches(branches) => f.Forest? && forall i :: 0 <= i < |branches| ==> BranchCut(f.node, branches[i])
  }

  // ----- items that take their groups -----

  predicate HitTaken(alts: seq<Alternative>, rules: seq<Rule>, hit: Hit) {
    hit.which < |alts| ==> TakenEntries(rules, MatchEntries(alts[hit.which], hit.events))
  }

  predicate OwnTaken(node: NodeFormat, own: Own) {
    node.MatchNode? && own.OwnHit? ==> HitTaken(node.alts, node.rules, own.hit)
  }

  predicate BranchTaken(node: NodeFormat, b: Branch)
    decreases b
  {
    OwnTaken(node, b.own) && forall i :: 0 <= i < |b.children| ==> BranchTaken(node, b.children[i])
  }

  /** No array in the document has an item that is null for want of its group. An entry says nothing about the items
      of its value, so there it does not matter. */
  predicate Taken(f: Format, m: Material)
    decreases m
  {
    match m
    case Rows(rows) => f.Table? || f.Csv? ==> forall i :: 0 <= i < |rows| ==> TakenEntries(f.rules, RowEntries(rows[i]))
    case Hits(hits) => f.PerLine? ==> forall i :: 0 <= i < |hits| ==> HitTaken(f.alts, f.rules, hits[i])
    case OneHit(hit) => f.WholeInput? ==> HitTaken(f.alts, f.rules, hit)
    case Pairs(pairs) => f.Mapping? ==> TakenEntries(f.rules, PairEntries(pairs))
    case SectionPairs(sections) =>
      f.Sections? ==> forall i :: 0 <= i < |sections| ==> TakenEntries(f.rules, PairEntries(sections[i].pairs))
    case PartMaterials(parts) =>
      f.Composite? && |parts| == |f.parts| ==> forall i :: 0 <= i < |parts| ==> Taken(f.parts[i].format, parts[i])
    case BlockMaterials(blocks) => f.Records? ==> forall i :: 0 <= i < |blocks| ==> Taken(f.block, blocks[i])
    case Branches(branches) => f.Forest? ==> forall i :: 0 <= i < |branches| ==> BranchTaken(f.node, branches[i])
  }

  // ----- rows that have their leading label -----

  /** The contract requires the leading label of every row: the input names the columns, and no rule is about it. */
  predicate LabelRequired(f: Format) {
    f.Table? && f.columns == [] && f.lead != "" && RuleOf(f.rules, f.lead).None?
  }

  predicate IsTheLabel(f: Format, row: Row, k: nat)
    requires f.Table?
  {
    k < |row.columns| && row.columns[k] == f.lead && (CellAt(row, k).Some? || CellMayBeEmpty(f, 0, 1))
  }

  /** The row has a column of the label's name, with a cell where the contract says it has one. */
  predicate LabelStands(f: Format, row: Row)
    requires f.Table? || f.Csv?
  {
    LabelRequired(f) ==> exists k :: 0 <= k < |row.columns| && IsTheLabel(f, row, k)
  }

  /** So has every row in the document. */
  predicate Labelled(f: Format, m: Material)
    decreases m
  {
    match m
    case Rows(rows) => f.Table? || f.Csv? ==> forall i :: 0 <= i < |rows| ==> LabelStands(f, rows[i])
    case PartMaterials(parts) =>
      f.Composite? && |parts| == |f.parts| ==> forall i :: 0 <= i < |parts| ==> Labelled(f.parts[i].format, parts[i])
    case BlockMaterials(blocks) => f.Records? ==> forall i :: 0 <= i < |blocks| ==> Labelled(f.block, blocks[i])
    case _ => true
  }

  /** No item is null for want of its group, and no row is without its label. */
  predicate NothingWanting(f: Format, m: Material) {
    Taken(f, m) && Labelled(f, m)
  }

  // ----- definitions that make sense -----

  ghost predicate RulesMakeSense(rules: seq<Rule>) {
    WellFormedRules(rules) && forall i, j :: 0 <= i < j < |rules| ==> rules[i].name != rules[j].name
  }

  ghost predicate AlternativesMakeSense(alts: seq<Alternative>) {
    forall i :: 0 <= i < |alts| ==> WellFormedAlternative(alts[i])
  }

  ghost predicate NodeMakesSense(node: NodeFormat) {
    && RulesMakeSense(node.rules)
    && (node.MatchNode? ==> AlternativesMakeSense(node.alts) && Lookup(ObjectOf(node.alts, node.rules).properties, CHILDREN).None?)
  }

  /** The definitions that are loaded: rules and columns and parts have names of their own, and no key of a node is
      the one its children go under. */
  ghost predicate MakesSense(f: Format)
    decreases f
  {
    match f
    case Table(_, columns, _, _, rules) => NamesApart(columns) && RulesMakeSense(rules)
    case Csv(columns, rules) => NamesApart(columns) && RulesMakeSense(rules)
    case PerLine(alts, rules) => AlternativesMakeSense(alts) && RulesMakeSense(rules)
    case WholeInput(alts, rules) => AlternativesMakeSense(alts) && RulesMakeSense(rules)
    case Entries(rules) => RulesMakeSense(rules)
    case Mapping(rules) => RulesMakeSense(rules)
    case Sections(rules) => RulesMakeSense(rules)
    case Composite(parts) =>
      && (forall i, j :: 0 <= i < j < |parts| ==> parts[i].name != parts[j].name)
      && forall i :: 0 <= i < |parts| ==> MakesSense(parts[i].format)
    case Records(block) => MakesSense(block)
    case Forest(node) => NodeMakesSense(node)
  }

  // ----- every document fits -----

  /** What is kept of a value fits exactly when no item in it is a null for want of its group. */
  lemma {:induction false} ValueFits(c: Contract, f: Option<Field>, raw: Option<string>, present: set<string>, missing: bool)
    requires (f.Some? ==> WellFormed(f.value)) && Convert(f, raw, present).Ok? && (raw.None? ==> missing)
    ensures
      var out, taken := Convert(f, raw, present).value, f.Some? ==> TakenRule(f.value, raw, present);
      if out.Kept? then Fits(c, ValueSchema(f, missing), out.value) <==> taken else Omittable(f, missing) && taken
  {
    hide WellFormed, ConvertRule, RuleSchema, Omittable, TakenRule;
    if f.Some? {
      RuleFits(c, f.value, raw, present, missing);
    }
  }

  lemma {:induction false} EachMemberFits(c: Contract, s: Schema, members: seq<Member>)
    ensures MembersFit(c, s, members) <==> forall i :: 0 <= i < |members| ==> MemberFits(c, s, members[i])
    decreases members
  {
    hide MemberFits;
    if members != [] {
      EachMemberFits(c, s, members[1..]);
      assert forall i :: 1 <= i < |members| ==> members[i] == members[1..][i - 1];
    }
  }

  lemma {:induction false} KeyedFits(c: Contract, s: Schema, members: seq<Member>)
    requires s.Body? && s.types == [ObjectKind] && s.enums == []
    requires forall r :: 0 <= r < |s.required| ==> Get(members, s.required[r]).Some?
    ensures Fits(c, s, Obj(members)) <==> forall i :: 0 <= i < |members| ==> MemberFits(c, s, members[i])
  {
    EachMemberFits(c, s, members) by {
      hide MemberFits;
    }
    hide MembersFit, MemberFits, Get;
  }

  /** What an entry came to is a member that fits exactly when the entry is taken. */
  ghost predicate EntryFitsAs(c: Contract, s: Schema, rules: seq<Rule>, e: Entry) {
    var out := Came(rules, e);
    out.Ok? && if out.value.Kept? then MemberFits(c, s, Member(e.name, out.value.value)) <==> TakenEntry(rules, e) else TakenEntry(rules, e)
  }

  /** So an object fits exactly when all its entries are taken. */
  lemma {:induction false} SetEntriesFit(c: Contract, s: Schema, rules: seq<Rule>, entries: seq<Entry>)
    requires s.Body? && s.types == [ObjectKind] && s.enums == []
    requires EntriesApart(entries) && SetEntries(rules, entries).Ok?
    requires forall r :: 0 <= r < |s.required| ==> Get(SetEntries(rules, entries).value, s.required[r]).Some?
    requires forall k :: 0 <= k < |entries| ==> EntryFitsAs(c, s, rules, entries[k])
    ensures Fits(c, s, Obj(SetEntries(rules, entries).value)) <==> TakenEntries(rules, entries)
  {
    hide SetEntries, Came, TakenEntry, MemberFits, Fits, Get, TakenEntries;
    var members := SetEntries(rules, entries).value;
    EachEntryTaken(rules, entries);
    KeyedFits(c, s, members);
    if TakenEntries(rules, entries) {
      forall j | 0 <= j < |members| ensures MemberFits(c, s, members[j]) {
        var k := EntryOfMember(rules, entries, j);
        assert EntryFitsAs(c, s, rules, entries[k]) && members[j] == Member(entries[k].name, members[j].value);
      }
    }
    if Fits(c, s, Obj(members)) {
      forall k | 0 <= k < |entries| ensures TakenEntry(rules, entries[k]) {
        assert EntryFitsAs(c, s, rules, entries[k]);
        if Came(rules, entries[k]).value.Kept? {
          var j := MemberOfEntry(rules, entries, k);
          MemberIsOf(rules, entries[k], members[j]);
          assert members[j] == Member(entries[k].name, Came(rules, entries[k]).value.value);
        }
      }
    }
  }

  lemma {:induction false} ListFits(c: Contract, s: Schema, items: seq<Json>)
    ensures Fits(c, ListOf(s), Arr(items)) <==> forall i :: 0 <= i < |items| ==> Fits(c, s, items[i])
  {
    EachItemFits(c, s, items) by {
      hide Fits;
    }
    hide ItemsFit;
  }

  lemma {:induction false} EachItemFits(c: Contract, s: Schema, items: seq<Json>)
    ensures ItemsFit(c, s, items) <==> forall i :: 0 <= i < |items| ==> Fits(c, s, items[i])
    decreases items
  {
    hide Fits;
    if items != [] {
      EachItemFits(c, s, items[1..]);
      assert forall i :: 1 <= i < |items| ==> items[i] == items[1..][i - 1];
    }
  }

  lemma {:induction false} RuleMakesSense(rules: seq<Rule>, name: string)
    requires WellFormedRules(rules)
    ensures RuleOf(rules, name).Some? ==> WellFormed(RuleOf(rules, name).value)
  {
    hide WellFormed;
    var f := RuleOf(rules, name);
    if f.Some? {
      var i :| 0 <= i < |rules| && rules[i] == Rule(name, f.value);
    }
  }

  /** A property names exactly what a rule is about. */
  lemma {:induction false} LookupRules(rules: seq<Rule>, missing: bool, name: string)
    requires RulesMakeSense(rules)
    ensures Lookup(RuleProperties(rules, missing), name) ==
      if RuleOf(rules, name).Some? then Some(RuleSchema(RuleOf(rules, name).value, missing)) else None
  {
    hide RuleSchema, WellFormedRules;
    var props := RuleProperties(rules, missing);
    var found, f := Lookup(props, name), RuleOf(rules, name);
    if found.Some? {
      var i :| 0 <= i < |props| && props[i] == Property(name, found.value);
      NoRule(rules, name, i);
      var j :| 0 <= j < |rules| && rules[j] == Rule(name, f.value);
      assert i == j;
    }
    assert forall j :: 0 <= j < |rules| ==> props[j].name == rules[j].name;
  }

  lemma {:induction false} NoRule(rules: seq<Rule>, name: string, i: nat)
    requires i < |rules| && rules[i].name == name
    ensures RuleOf(rules, name).Some?
  {
    var n := |rules| - 1;
    if rules[n].name != name {
      NoRule(rules[..n], name, i);
    }
  }

  lemma {:induction false} LookupColumns(f: Format, i: nat)
    requires (f.Table? || f.Csv?) && NamesApart(f.columns) && i < |f.columns|
    ensures Lookup(ColumnProperties(f), f.columns[i]) ==
      Some(ValueSchema(RuleOf(f.rules, f.columns[i]), CellMayBeEmpty(f, i, |f.columns|)))
  {
    hide ValueSchema, CellMayBeEmpty;
    var props := ColumnProperties(f);
    var found := Lookup(props, f.columns[i]);
    assert props[i].name == f.columns[i];
    var j :| 0 <= j < |props| && props[j] == Property(f.columns[i], found.value);
    assert f.columns[j] == f.columns[i];
  }

  lemma {:induction false} RowEntriesApart(row: Row)
    requires NamesApart(row.columns)
    ensures EntriesApart(RowEntries(row))
  {
  }

  /** A row under the columns a definition declares. */
  lemma {:induction false} DeclaredRowFits(c: Contract, f: Format, row: Row)
    requires (f.Table? || f.Csv?) && f.columns != [] && NamesApart(f.columns) && RulesMakeSense(f.rules) && RowCut(f, row)
    requires RowMade(f.rules, row).Ok?
    ensures Fits(c, RowSchema(f), RowMade(f.rules, row).value) <==> TakenEntries(f.rules, RowEntries(row))
  {
    hide SetEntries, ConvertRule, Fits, ValueSchema, CellMayBeEmpty, ColumnProperties, Omittable, WellFormedRules, Get, Lookup, RequiredColumns;
    hide TakenEntries, Came, TakenEntry;
    var entries, s := RowEntries(row), RowSchema(f);
    RowEntriesApart(row);
    EntriesAreMembers(f.rules, entries);
    forall k | 0 <= k < |entries| ensures EntryFitsAs(c, s, f.rules, entries[k]) {
      CellFits(c, f, row, k);
      LookupColumns(f, k);
    }
    forall r | 0 <= r < |s.required| ensures Get(SetEntries(f.rules, entries).value, s.required[r]).Some? {
      RequiredCell(c, f, row, s.required[r]);
    }
    SetEntriesFit(c, s, f.rules, entries);
  }

  lemma {:induction false} CellFits(c: Contract, f: Format, row: Row, k: nat)
    requires (f.Table? || f.Csv?) && RulesMakeSense(f.rules) && RowCut(f, row) && k < |row.columns|
    requires Came(f.rules, RowEntries(row)[k]).Ok?
    ensures
      var out, taken := Came(f.rules, RowEntries(row)[k]).value, TakenEntry(f.rules, RowEntries(row)[k]);
      var rule, empty := RuleOf(f.rules, row.columns[k]), CellMayBeEmpty(f, k, |row.columns|);
      if out.Kept? then Fits(c, ValueSchema(rule, empty), out.value) <==> taken else Omittable(rule, empty) && taken
  {
    hide Fits, ValueSchema, CellMayBeEmpty, Omittable, WellFormed, ConvertRule, TakenRule;
    RuleMakesSense(f.rules, row.columns[k]);
    ValueFits(c, RuleOf(f.rules, row.columns[k]), CellAt(row, k), {}, CellMayBeEmpty(f, k, |row.columns|));
  }

  lemma {:induction false} RequiredCell(c: Contract, f: Format, row: Row, name: string)
    requires (f.Table? || f.Csv?) && f.columns != [] && RulesMakeSense(f.rules) && RowCut(f, row)
    requires RowMade(f.rules, row).Ok? && name in RequiredColumns(f, |f.columns|)
    ensures Get(SetEntries(f.rules, RowEntries(row)).value, name).Some?
  {
    hide SetEntries, ConvertRule, Fits, ValueSchema, CellMayBeEmpty, Omittable, WellFormedRules, Get, TakenEntry;
    var entries := RowEntries(row);
    EntriesAreMembers(f.rules, entries);
    var i :| 0 <= i < |f.columns| && f.columns[i] == name && ColumnIsThere(f, i);
    CellFits(c, f, row, i);
    assert entries[i].name == name;
  }

  /** A row under the columns the input names. */
  lemma {:induction false} NamedRowFits(c: Contract, f: Format, row: Row)
    requires (f.Table? || f.Csv?) && f.columns == [] && RulesMakeSense(f.rules) && RowCut(f, row)
    requires RowMade(f.rules, row).Ok?
    ensures Fits(c, RowSchema(f), RowMade(f.rules, row).value) <==> TakenEntries(f.rules, RowEntries(row)) && LabelStands(f, row)
  {
    hide SetEntries, ConvertRule, Fits, WellFormedRules, Get, RowSchema, TakenEntries, Came, TakenEntry;
    var entries, s := RowEntries(row), RowSchema(f);
    if !LabelStands(f, row) {
      WithoutLabel(c, f, row);
      return;
    }
    RowEntriesApart(row);
    EntriesAreMembers(f.rules, entries);
    forall k | 0 <= k < |entries| ensures EntryFitsAs(c, s, f.rules, entries[k]) {
      NamedCellFits(c, f, row, k);
    }
    NamedSchema(f);
    forall r | 0 <= r < |s.required| ensures Get(SetEntries(f.rules, entries).value, s.required[r]).Some? {
      LabelIsThere(c, f, row);
    }
    SetEntriesFit(c, s, f.rules, entries);
  }

  /** What is required of a row under columns the input names is the label at most. */
  lemma {:induction false} NamedSchema(f: Format)
    requires (f.Table? || f.Csv?) && f.columns == [] && RulesMakeSense(f.rules)
    ensures
      var s, named := RowSchema(f), RuleProperties(f.rules, true);
      && s.types == [ObjectKind] && s.enums == [] && s.states && s.required == (if LabelRequired(f) then [f.lead] else [])
      && s.properties == (if LabelRequired(f) then [Property(f.lead, ValueSchema(None, CellMayBeEmpty(f, 0, 1)))] + named else named)
      && s.extra == Some(Typed([StringKind, NullKind]))
  {
    hide RuleProperties, Lookup, CellMayBeEmpty;
    if f.Table? {
      LookupRules(f.rules, true, f.lead);
    }
  }

  /** The label's column is left out of no row. */
  lemma {:induction false} LabelIsThere(c: Contract, f: Format, row: Row)
    requires (f.Table? || f.Csv?) && RulesMakeSense(f.rules) && RowCut(f, row) && RowMade(f.rules, row).Ok?
    requires LabelRequired(f) && LabelStands(f, row)
    ensures Get(SetEntries(f.rules, RowEntries(row)).value, f.lead).Some?
  {
    hide SetEntries, ConvertRule, Fits, WellFormedRules, Get, TakenEntry;
    var entries := RowEntries(row);
    EntriesAreMembers(f.rules, entries);
    var k :| 0 <= k < |row.columns| && IsTheLabel(f, row, k);
    assert entries[k].name == f.lead;
    CellFits(c, f, row, k);
  }

  lemma {:induction false} NamedCellFits(c: Contract, f: Format, row: Row, k: nat)
    requires (f.Table? || f.Csv?) && f.columns == [] && RulesMakeSense(f.rules) && RowCut(f, row) && k < |row.columns|
    requires Came(f.rules, RowEntries(row)[k]).Ok? && LabelStands(f, row)
    ensures EntryFitsAs(c, RowSchema(f), f.rules, RowEntries(row)[k])
  {
    hide ConvertRule, Fits, WellFormed, RuleProperties, RuleSchema, TakenRule, RowSchema, ValueSchema, CellMayBeEmpty;
    var name := row.columns[k];
    NamedSchema(f);
    LookupRules(f.rules, true, name);
    RuleMakesSense(f.rules, name);
    var named := RuleProperties(f.rules, true);
    if LabelRequired(f) {
      var lead := Property(f.lead, ValueSchema(None, CellMayBeEmpty(f, 0, 1)));
      assert ([lead] + named)[1..] == named;
      if name == f.lead {
        var j :| 0 <= j < |row.columns| && IsTheLabel(f, row, j);
        assert row.columns[j] == row.columns[k];
        ValueFits(c, None, CellAt(row, k), {}, CellMayBeEmpty(f, 0, 1));
        assert Lookup(RowSchema(f).properties, name) == Some(lead.schema);
        return;
      }
    }
    assert Lookup(RowSchema(f).properties, name) == Lookup(named, name);
    ValueFits(c, RuleOf(f.rules, name), CellAt(row, k), {}, true);
    NamedValue(name, f.rules);
  }

  lemma {:induction false} MemberIsOfItsSchema(c: Contract, s: Schema, m: Member, x: Schema)
    requires s.Body? && s.states
    requires Lookup(s.properties, m.key) == Some(x) || (Lookup(s.properties, m.key).None? && s.extra == Some(x))
    ensures MemberFits(c, s, m) <==> Fits(c, x, m.value)
  {
    hide Fits;
  }

  lemma {:induction false} NamedValue(name: string, rules: seq<Rule>)
    ensures
      var f := RuleOf(rules, name);
      ValueSchema(f, true) == if f.Some? then RuleSchema(f.value, true) else Typed([StringKind, NullKind])
  {
    hide RuleSchema;
  }

  lemma {:induction false} RequiredIsThere(c: Contract, s: Schema, members: seq<Member>, name: string)
    requires s.Body? && Fits(c, s, Obj(members)) && name in s.required
    ensures Get(members, name).Some?
  {
    hide MembersFit, Get;
  }

  lemma {:induction false} FoundIsThere(members: seq<Member>, name: string)
    requires Get(members, name).Some?
    ensures Find(members, name) < |members| && members[Find(members, name)].key == name
  {
  }

  /** The label's cell is empty, and its value is text for the contract. */
  lemma {:induction false} NullLabel(c: Contract, f: Format, row: Row, k: nat, m: Member)
    requires (f.Table? || f.Csv?) && f.columns == [] && RulesMakeSense(f.rules) && LabelRequired(f) && k < |row.columns|
    requires row.columns[k] == f.lead && !IsTheLabel(f, row, k)
    requires m.key == f.lead && Came(f.rules, RowEntries(row)[k]) == Ok(Kept(m.value))
    ensures !MemberFits(c, RowSchema(f), m)
  {
    hide RowSchema, RuleProperties;
    NamedSchema(f);
    assert m.value == Null;
    assert Lookup(RowSchema(f).properties, f.lead) == Some(Typed([StringKind]));
    NullIsNotText(c);
    MemberIsOfItsSchema(c, RowSchema(f), m, Typed([StringKind]));
  }

  lemma {:induction false} NullIsNotText(c: Contract)
    ensures !Fits(c, Typed([StringKind]), Null)
  {
    assert !TypeFits([StringKind], NullKind);
  }

  /** A row that has no such column, or no cell in it, does not fit. */
  lemma {:induction false} WithoutLabel(c: Contract, f: Format, row: Row)
    requires (f.Table? || f.Csv?) && f.columns == [] && RulesMakeSense(f.rules) && RowCut(f, row)
    requires RowMade(f.rules, row).Ok? && !LabelStands(f, row)
    ensures !Fits(c, RowSchema(f), RowMade(f.rules, row).value)
  {
    hide SetEntries, ConvertRule, WellFormedRules, RowSchema, Came, TakenEntry, MemberFits, Fits, Get;
    var entries, s := RowEntries(row), RowSchema(f);
    var members := SetEntries(f.rules, entries).value;
    RowEntriesApart(row);
    NamedSchema(f);
    if Fits(c, s, Obj(members)) {
      RequiredIsThere(c, s, members, f.lead);
      var j := Find(members, f.lead);
      FoundIsThere(members, f.lead);
      var k := EntryOfMember(f.rules, entries, j);
      assert row.columns[k] == f.lead && !IsTheLabel(f, row, k);
      KeyedFits(c, s, members);
      assert MemberFits(c, s, members[j]);
      NullLabel(c, f, row, k, members[j]);
    }
  }

  lemma {:induction false} RowFits(c: Contract, f: Format, row: Row)
    requires (f.Table? || f.Csv?) && MakesSense(f) && RowCut(f, row) && RowMade(f.rules, row).Ok?
    ensures Fits(c, RowSchema(f), RowMade(f.rules, row).value) <==> TakenEntries(f.rules, RowEntries(row)) && LabelStands(f, row)
  {
    hide Fits, RowSchema, RowMade, RowCut, WellFormedRules, NamesApart, TakenEntries;
    if f.columns == [] {
      NamedRowFits(c, f, row);
    } else {
      DeclaredRowFits(c, f, row);
    }
  }

  lemma {:induction false} RowsFit(c: Contract, f: Format, rows: seq<Row>)
    requires (f.Table? || f.Csv?) && MakesSense(f) && RowsMade(f.rules, rows).Ok?
    requires forall i :: 0 <= i < |rows| ==> RowCut(f, rows[i])
    ensures |RowsMade(f.rules, rows).value| == |rows|
    ensures forall i :: 0 <= i < |rows| ==>
      (Fits(c, RowSchema(f), RowsMade(f.rules, rows).value[i]) <==>
         TakenEntries(f.rules, RowEntries(rows[i])) && LabelStands(f, rows[i]))
    decreases |rows|
  {
    hide Fits, RowSchema, RowMade, RowCut, MakesSense, TakenEntries, RowEntries, LabelStands;
    if rows != [] {
      RowsFit(c, f, rows[..|rows| - 1]);
      RowFits(c, f, rows[|rows| - 1]);
    }
  }

  lemma {:induction false} HitFits(c: Contract, alts: seq<Alternative>, rules: seq<Rule>, hit: Hit)
    requires AlternativesMakeSense(alts) && RulesMakeSense(rules) && HitCut(alts, hit) && HitMade(alts, rules, hit).Ok?
    ensures Fits(c, ObjectOf(alts, rules), HitMade(alts, rules, hit).value) <==> HitTaken(alts, rules, hit)
  {
    hide Fits, ObjectOf, ObjectFromMatch, Derives, WellFormedRules, WellFormedAlternative, TakenEntries;
    MatchFits(c, alts, hit.which, hit.text, hit.events, rules);
  }

  lemma {:induction false} HitsFit(c: Contract, alts: seq<Alternative>, rules: seq<Rule>, hits: seq<Hit>)
    requires AlternativesMakeSense(alts) && RulesMakeSense(rules) && HitsMade(alts, rules, hits).Ok?
    requires forall i :: 0 <= i < |hits| ==> HitCut(alts, hits[i])
    ensures |HitsMade(alts, rules, hits).value| == |hits|
    ensures forall i :: 0 <= i < |hits| ==>
      (Fits(c, ObjectOf(alts, rules), HitsMade(alts, rules, hits).value[i]) <==> HitTaken(alts, rules, hits[i]))
    decreases |hits|
  {
    hide Fits, ObjectOf, HitMade, HitCut, HitTaken, AlternativesMakeSense, RulesMakeSense;
    if hits != [] {
      HitsFit(c, alts, rules, hits[..|hits| - 1]);
      HitFits(c, alts, rules, hits[|hits| - 1]);
    }
  }

  // ----- entries and maps -----

  lemma {:induction false} EntryTypesHave(rules: seq<Rule>, i: nat, k: Kind)
    requires i < |rules| && k in RuleSchema(rules[i].field, false).types
    ensures k in EntryTypes(rules)
  {
    hide RuleSchema;
    var n := |rules| - 1;
    if i < n {
      EntryTypesHave(rules[..n], i, k);
    }
  }

  lemma {:induction false} StringIsAnEntryType(rules: seq<Rule>)
    ensures StringKind in EntryTypes(rules)
  {
    hide RuleSchema;
    if rules != [] {
      StringIsAnEntryType(rules[..|rules| - 1]);
    }
  }

  lemma {:induction false} IntegerIsNumber(rules: seq<Rule>, i: nat, k: Kind)
    requires i < |rules| && TypeFits(RuleSchema(rules[i].field, false).types, k)
    ensures TypeFits(NormalizeTypes(EntryTypes(rules)), k)
  {
    hide RuleSchema, NormalizeTypes;
    var types := RuleSchema(rules[i].field, false).types;
    SomeType(rules[i].field);
    if k in types {
      EntryTypesHave(rules, i, k);
    } else {
      EntryTypesHave(rules, i, NumberKind);
    }
  }

  lemma {:induction false} SomeType(f: Field)
    ensures RuleSchema(f, false).types != []
  {
    hide ConvertedSchema, NormalizeTypes;
    NullInNullable(ConvertedSchema(f));
  }

  lemma {:induction false} ScalarKind(f: Field, s: string)
    ensures ConvertScalar(f, s).Ok? ==> TypeFits(ConvertedSchema(f).types, Contracts.KindOf(ConvertScalar(f, s).value))
  {
    hide ConvertItems, SetEntries, ObjectOf;
  }

  lemma {:induction false} WiderKind(s: Schema, k: Kind)
    requires s.Body? && s.types != [] && TypeFits(s.types, k)
    ensures TypeFits(Nullable(s).types, k) && TypeFits(Nullable(s).types, NullKind)
  {
    hide NormalizeTypes;
    NullInNullable(s);
    assert forall x :: x in s.types ==> x in s.types + [NullKind];
  }

  /** What a rule keeps is of a type its schema has, whatever is in it. */
  lemma {:induction false} RuleKind(f: Field, v: Option<string>, present: set<string>, missing: bool)
    requires WellFormed(f) && ConvertRule(f, v, present).Ok? && (v.None? ==> missing)
    ensures
      var out := ConvertRule(f, v, present).value;
      if out.Kept? then TypeFits(RuleSchema(f, missing).types, Contracts.KindOf(out.value)) else Omittable(Some(f), missing)
  {
    hide WellFormed, ConvertScalar, ConvertedSchema, OptionalGroup, StringRules, TypeFits, Nullable;
    var s := if v.None? then "" else if f.strips then f.strip(v.value) else v.value;
    var kept := if v.None? then None else if f.kind.StringField? then StringRules(f, s, present).value else Some(s);
    if kept.None? {
      if v.Some? {
        NoGroupIsOptional(f, s, present);
      }
      NullKindFits(f);
    } else {
      ScalarKind(f, kept.value);
      NullKindFits(f);
      if TrimSpace(kept.value) !in f.nullIf {
        WiderKind(ConvertedSchema(f), Contracts.KindOf(ConvertScalar(f, kept.value).value));
      }
    }
  }

  lemma {:induction false} NullKindFits(f: Field)
    ensures TypeFits(Nullable(ConvertedSchema(f)).types, NullKind)
  {
    hide ConvertedSchema, NormalizeTypes;
    NullInNullable(ConvertedSchema(f));
  }

  lemma {:induction false} TypedFits(c: Contract, types: seq<Kind>, v: Json)
    requires TypeFits(types, KindOf(v))
    ensures Fits(c, Typed(types), v)
  {
    match v {
      case Obj(members) =>
        EachMemberFits(c, Typed(types), members);
      case _ =>
    }
  }

  /** The value of an entry is of one of the types its schema lists. */
  lemma {:induction false} EntryValueFits(c: Contract, rules: seq<Rule>, pair: Pair)
    requires RulesMakeSense(rules) && Convert(RuleOf(rules, pair.key), Some(pair.value), {}).Ok?
    ensures
      var out := Convert(RuleOf(rules, pair.key), Some(pair.value), {}).value;
      && (out.Kept? ==> Fits(c, Typed(NormalizeTypes(EntryTypes(rules))), out.value))
      && (out.Omitted? ==> SomeOmittable(rules))
  {
    hide Fits, ConvertRule, WellFormed, NormalizeTypes, EntryTypes, RuleSchema, Omittable;
    var f := RuleOf(rules, pair.key);
    var out := Convert(f, Some(pair.value), {}).value;
    RuleMakesSense(rules, pair.key);
    StringIsAnEntryType(rules);
    if f.Some? {
      RuleKind(f.value, Some(pair.value), {}, false);
      var i :| 0 <= i < |rules| && rules[i] == Rule(pair.key, f.value);
      if out.Kept? {
        IntegerIsNumber(rules, i, Contracts.KindOf(out.value));
        TypedFits(c, NormalizeTypes(EntryTypes(rules)), out.value);
      } else {
        assert Omittable(Some(rules[i].field), false);
      }
    } else {
      TypedFits(c, NormalizeTypes(EntryTypes(rules)), out.value);
    }
  }

  lemma {:induction false} EntryMembersFit(c: Contract, rules: seq<Rule>, pair: Pair)
    requires RulesMakeSense(rules) && EntryMembers(rules, pair).Ok?
    ensures
      var members, s := EntryMembers(rules, pair).value, EntrySchema(rules);
      && (forall i :: 0 <= i < |members| ==>
           Lookup(s.properties, members[i].key).Some? && Fits(c, Lookup(s.properties, members[i].key).value, members[i].value))
      && (forall r :: 0 <= r < |s.required| ==> Get(members, s.required[r]).Some?)
  {
    hide Fits, Convert, RulesMakeSense, NormalizeTypes, EntryTypes, SomeOmittable;
    EntryValueFits(c, rules, pair);
    NameFits(c, pair.key);
    var members, s := EntryMembers(rules, pair).value, EntrySchema(rules);
    assert s.properties[1..][0] == s.properties[1];
    assert Lookup(s.properties, "name") == Some(Typed([StringKind]));
    assert Lookup(s.properties, "value") == Some(Typed(NormalizeTypes(EntryTypes(rules)))) by {
      assert Lookup(s.properties[1..], "value") == Some(Typed(NormalizeTypes(EntryTypes(rules))));
    }
    assert Get(members, "name").Some?;
    if |members| == 2 {
      assert Find(members, "value") == 1 by {
        assert members[1..][0] == members[1];
      }
    }
  }

  lemma {:induction false} EntryFits(c: Contract, rules: seq<Rule>, pair: Pair)
    requires RulesMakeSense(rules) && EntryMade(rules, pair).Ok?
    ensures Fits(c, EntrySchema(rules), EntryMade(rules, pair).value)
  {
    hide RulesMakeSense, EntryMembers, EntryTypes, NormalizeTypes, Lookup;
    EntryMembersFit(c, rules, pair);
    ObjectFits(c, EntrySchema(rules), EntryMembers(rules, pair).value) by {
      hide Fits;
    }
  }

  lemma {:induction false} EntriesFit(c: Contract, rules: seq<Rule>, pairs: seq<Pair>)
    requires RulesMakeSense(rules) && EntriesMade(rules, pairs).Ok?
    ensures forall i :: 0 <= i < |EntriesMade(rules, pairs).value| ==> Fits(c, EntrySchema(rules), EntriesMade(rules, pairs).value[i])
    decreases |pairs|
  {
    hide Fits, EntrySchema, EntryMade, RulesMakeSense;
    if pairs != [] {
      EntriesFit(c, rules, pairs[..|pairs| - 1]);
      EntryFits(c, rules, pairs[|pairs| - 1]);
    }
  }

  lemma {:induction false} PairsFit(c: Contract, rules: seq<Rule>, pairs: seq<Pair>)
    requires RulesMakeSense(rules) && PairsApart(pairs) && PairsMade(rules, pairs).Ok?
    ensures Fits(c, MapSchema(rules), PairsMade(rules, pairs).value) <==> TakenEntries(rules, PairEntries(pairs))
  {
    hide SetEntries, ConvertRule, Fits, WellFormedRules, Get, RuleProperties, RuleSchema, TakenEntries, TakenRule;
    var entries, s := PairEntries(pairs), MapSchema(rules);
    assert forall i :: 0 <= i < |entries| ==> entries[i].name == pairs[i].key;
    EntriesAreMembers(rules, entries);
    forall k | 0 <= k < |entries| ensures EntryFitsAs(c, s, rules, entries[k]) {
      LookupRules(rules, false, pairs[k].key);
      RuleMakesSense(rules, pairs[k].key);
      ValueFits(c, RuleOf(rules, pairs[k].key), Some(pairs[k].value), {}, false);
    }
    SetEntriesFit(c, s, rules, entries);
  }

  lemma {:induction false} SectionsFit(c: Contract, rules: seq<Rule>, sections: seq<Section>)
    requires RulesMakeSense(rules) && SectionsMade(rules, sections).Ok?
    requires forall i :: 0 <= i < |sections| ==> PairsApart(sections[i].pairs)
    ensures |SectionsMade(rules, sections).value| == |sections|
    ensures forall i :: 0 <= i < |sections| ==>
      (MemberFits(c, SectionsSchema(rules), SectionsMade(rules, sections).value[i]) <==> TakenEntries(rules, PairEntries(sections[i].pairs)))
    decreases |sections|
  {
    hide Fits, MapSchema, PairsMade, RulesMakeSense, PairsApart, TakenEntries, PairEntries;
    if sections != [] {
      var n := |sections| - 1;
      SectionsFit(c, rules, sections[..n]);
      PairsFit(c, rules, sections[n].pairs);
    }
  }

  // ----- trees -----

  lemma {:induction false} OwnFits(c: Contract, node: NodeFormat, own: Own)
    requires NodeMakesSense(node) && OwnMembers(node, own).Ok?
    requires node.MatchNode? && own.OwnHit? ==> HitCut(node.alts, own.hit)
    ensures
      var members, s := OwnMembers(node, own).value, OwnSchema(node);
      && s.types == [ObjectKind] && s.enums == [] && s.states && s.extra.None? && Lookup(s.properties, CHILDREN).None?
      && ((forall i :: 0 <= i < |members| ==> NamedFits(c, s, members[i])) <==> OwnTaken(node, own))
      && (forall i :: 0 <= i < |members| ==> members[i].key != CHILDREN)
      && (forall r :: 0 <= r < |s.required| ==> Get(members, s.required[r]).Some?)
  {
    hide ObjectFromMatch, Fits, EntryMembers, EntryTypes, NormalizeTypes, RulesMakeSense, AlternativesMakeSense, Get, KeySchema, Groups, HitTaken;
    hide Lookup;
    var members := OwnMembers(node, own).value;
    match node {
      case EntryNode(rules) =>
        EntryMembersFit(c, rules, Pair(own.key, own.value));
        NoChildrenInEntries(rules);
      case MatchNode(alts, rules) =>
        HitFits(c, alts, rules, own.hit);
        HitIsNamed(c, alts, rules, own.hit);
        NamedObject(c, ObjectOf(alts, rules), members);
    }
  }

  lemma {:induction false} HitIsNamed(c: Contract, alts: seq<Alternative>, rules: seq<Rule>, hit: Hit)
    requires AlternativesMakeSense(alts) && RulesMakeSense(rules) && HitCut(alts, hit) && HitMade(alts, rules, hit).Ok?
    ensures KeysHold(ObjectOf(alts, rules), HitMade(alts, rules, hit).value.members)
  {
    hide Fits, ObjectOf, ObjectFromMatch, Derives, WellFormedRules, WellFormedAlternative, Lookup, Get;
    MatchIsNamed(c, alts, hit.which, hit.text, hit.events, rules);
  }

  /** A member is named, and fits what its name says. */
  ghost predicate NamedFits(c: Contract, s: Schema, m: Member)
    requires s.Body?
  {
    Lookup(s.properties, m.key).Some? && Fits(c, Lookup(s.properties, m.key).value, m.value)
  }

  /** An object that names its keys and has those it must fits exactly when each member does. */
  lemma {:induction false} NamedObject(c: Contract, s: Schema, members: seq<Member>)
    requires s.Body? && s.types == [ObjectKind] && s.enums == [] && s.states && s.extra.None?
    requires forall r :: 0 <= r < |s.required| ==> Get(members, s.required[r]).Some?
    ensures Fits(c, s, Obj(members)) <==> forall i :: 0 <= i < |members| ==> NamedFits(c, s, members[i])
  {
    hide Lookup, Get, Fits;
    KeyedFits(c, s, members);
    forall i | 0 <= i < |members| ensures MemberFits(c, s, members[i]) <==> NamedFits(c, s, members[i]) {
      assert Props(s) == s.properties && NamesKeys(s);
    }
  }

  lemma {:induction false} NoChildrenInEntries(rules: seq<Rule>)
    ensures Lookup(EntrySchema(rules).properties, CHILDREN).None?
  {
    hide EntryTypes, NormalizeTypes;
    var props := EntrySchema(rules).properties;
    assert Lookup(props[1..], CHILDREN).None?;
  }

  lemma {:induction false} LookupLater(props: seq<Property>, last: Property, name: string)
    ensures Lookup(props + [last], name) ==
      if Lookup(props, name).Some? then Lookup(props, name) else if last.name == name then Some(last.schema) else None
  {
    if props == [] {
      assert props + [last] == [last] && [last][1..] == [];
    } else {
      assert (props + [last])[1..] == props[1..] + [last];
      LookupLater(props[1..], last, name);
    }
  }

  /** The contract describes the nodes under the name. */
  predicate DescribesNodes(c: Contract, node: NodeFormat, def: string) {
    Lookup(c.defs, def) == Some(NodeSchema(node, def))
  }

  lemma {:induction false} BranchFits(c: Contract, node: NodeFormat, def: string, b: Branch)
    requires NodeMakesSense(node) && DescribesNodes(c, node, def) && BranchCut(node, b) && BranchMade(node, b).Ok?
    ensures Fits(c, Ref(def), BranchMade(node, b).value) <==> BranchTaken(node, b)
    decreases b, 1
  {
    hide OwnMembers, OwnSchema, Fits, NodeMakesSense, HitCut, Get, SetKey, Lookup, ListOf, OwnTaken;
    var own, children := OwnMembers(node, b.own).value, BranchesMade(node, b.children).value;
    var s, last := NodeSchema(node, def), Member(CHILDREN, Arr(children));
    var members := own + [last];
    OwnFits(c, node, b.own);
    BranchesFit(c, node, def, b.children);
    ListFits(c, Ref(def), children);
    SetNewKey(own, CHILDREN, Arr(children));
    forall i | 0 <= i < |own| ensures NamedFits(c, s, members[i]) <==> NamedFits(c, OwnSchema(node), own[i]) {
      LookupLater(OwnSchema(node).properties, Property(CHILDREN, ListOf(Ref(def))), own[i].key);
    }
    LookupLater(OwnSchema(node).properties, Property(CHILDREN, ListOf(Ref(def))), CHILDREN);
    assert members[|own|] == last && NamedFits(c, s, last) == Fits(c, ListOf(Ref(def)), Arr(children));
    forall r | 0 <= r < |s.required| ensures Get(members, s.required[r]).Some? {
      SetThenGet(own, CHILDREN, Arr(children), s.required[r]);
      assert r < |OwnSchema(node).required| ==> s.required[r] == OwnSchema(node).required[r];
    }
    NamedObject(c, s, members);
    RefFits(c, def, s, Obj(members));
  }

  lemma {:induction false} SetNewKey(members: seq<Member>, key: string, v: Json)
    requires forall i :: 0 <= i < |members| ==> members[i].key != key
    ensures SetKey(members, key, v) == members + [Member(key, v)]
  {
  }

  lemma {:induction false} RefFits(c: Contract, def: string, s: Schema, v: Json)
    requires Lookup(c.defs, def) == Some(s) && s.Body?
    ensures Fits(c, Ref(def), v) <==> Fits(c, s, v)
  {
    hide FitsBody;
  }

  lemma {:induction false} BranchesFit(c: Contract, node: NodeFormat, def: string, bs: seq<Branch>)
    requires NodeMakesSense(node) && DescribesNodes(c, node, def) && BranchesMade(node, bs).Ok?
    requires forall i :: 0 <= i < |bs| ==> BranchCut(node, bs[i])
    ensures |BranchesMade(node, bs).value| == |bs|
    ensures forall i :: 0 <= i < |bs| ==> (Fits(c, Ref(def), BranchesMade(node, bs).value[i]) <==> BranchTaken(node, bs[i]))
    decreases bs, 0
  {
    hide Fits, NodeMakesSense, DescribesNodes, BranchMade, BranchCut, BranchTaken;
    if bs != [] {
      var n := |bs| - 1;
      BranchesFit(c, node, def, bs[..n]);
      BranchFits(c, node, def, bs[n]);
    }
  }

  // ----- names given out are names apart -----

  /** The free name is one of those tried, and none that was taken. */
  lemma {:induction false} FreeNameIsTried(want: string, i: nat, left: set<string>) returns (j: nat)
    requires i >= 1
    ensures j >= i && FreeName(want, i, left) == Tried(want, j) && Tried(want, j) !in left
    decreases |left|
  {
    if Tried(want, i) in left {
      j := FreeNameIsTried(want, i + 1, left - {Tried(want, i)});
      TriedApart(want, i, j);
    } else {
      j := i;
    }
  }

  lemma {:induction false} FreeNameIsFree(want: string, taken: set<string>)
    ensures FreeName(want, 1, taken) !in taken
  {
    var j := FreeNameIsTried(want, 1, taken);
  }

  function NamesIn(defs: seq<Property>): set<string> {
    set i | 0 <= i < |defs| :: defs[i].name
  }

  ghost predicate DefsApart(defs: seq<Property>) {
    forall i, j :: 0 <= i < j < |defs| ==> defs[i].name != defs[j].name
  }

  /** The names in use grow by those given out here, none of which was in use or is given out twice. */
  ghost predicate GivenOut(defs: seq<Property>, before: set<string>, after: set<string>) {
    DefsApart(defs) && NamesIn(defs) !! before && after == before + NamesIn(defs)
  }

  lemma {:induction false} GivenOutTogether(a: seq<Property>, b: seq<Property>, before: set<string>, mid: set<string>, after: set<string>)
    requires GivenOut(a, before, mid) && GivenOut(b, mid, after)
    ensures GivenOut(a + b, before, after)
  {
    forall i, j | 0 <= i < j < |a + b| ensures (a + b)[i].name != (a + b)[j].name {
      assert i < |a| ==> a[i].name in NamesIn(a);
      assert j >= |a| ==> b[j - |a|].name in NamesIn(b);
    }
    forall name ensures name in NamesIn(a + b) <==> name in NamesIn(a) || name in NamesIn(b) {
      if name in NamesIn(a) {
        var i :| 0 <= i < |a| && a[i].name == name;
        assert (a + b)[i].name == name;
      }
      if name in NamesIn(b) {
        var i :| 0 <= i < |b| && b[i].name == name;
        assert (a + b)[|a| + i].name == name;
      }
    }
  }

  lemma {:induction false} NoneGivenOut(taken: set<string>)
    ensures GivenOut([], taken, taken)
  {
  }

  lemma {:induction false} DescribedGivesOut(f: Format, node: string, taken: set<string>)
    ensures GivenOut(Described(f, node, taken).defs, taken, Described(f, node, taken).taken)
    decreases f, 1
  {
    hide GivenOut, DescribedParts, RowSchema, ObjectOf, NodeSchema, EntrySchema, MapSchema;
    NoneGivenOut(taken);
    match f {
      case Composite(parts) => PartsGiveOut(parts, node, taken);
      case Records(block) => DescribedGivesOut(block, node, taken);
      case Forest(format) =>
        var def := FreeName(node, 1, taken);
        FreeNameIsFree(node, taken);
        OneGivenOut(Property(def, NodeSchema(format, def)), taken);
      case _ =>
    }
  }

  lemma {:induction false} OneGivenOut(p: Property, taken: set<string>)
    requires p.name !in taken
    ensures GivenOut([p], taken, taken + {p.name})
  {
    assert [p][0].name in NamesIn([p]);
  }

  lemma {:induction false} PartsGiveOut(parts: seq<Part>, node: string, taken: set<string>)
    ensures GivenOut(DescribedParts(parts, node, taken).defs, taken, DescribedParts(parts, node, taken).taken)
    decreases parts, 0
  {
    hide GivenOut, Described;
    NoneGivenOut(taken);
    if parts != [] {
      var n := |parts| - 1;
      var before := DescribedParts(parts[..n], node, taken);
      PartsGiveOut(parts[..n], node, taken);
      DescribedGivesOut(parts[n].format, node + "_" + parts[n].name, before.taken);
      var last := Described(parts[n].format, node + "_" + parts[n].name, before.taken);
      GivenOutTogether(before.defs, last.defs, taken, before.taken, last.taken);
    }
  }

  // ----- the theorem -----

  /** The contract has these descriptions under their names. */
  ghost predicate Holds(c: Contract, defs: seq<Property>) {
    forall i :: 0 <= i < |defs| ==> Lookup(c.defs, defs[i].name) == Some(defs[i].schema)
  }

  lemma {:induction false} HoldsBoth(c: Contract, a: seq<Property>, b: seq<Property>)
    ensures Holds(c, a + b) <==> Holds(c, a) && Holds(c, b)
  {
    hide Lookup;
    assert forall i :: 0 <= i < |a| ==> (a + b)[i] == a[i];
    assert forall i :: 0 <= i < |b| ==> (a + b)[|a| + i] == b[i];
  }

  lemma {:induction false} ApartHolds(c: Contract)
    requires DefsApart(c.defs)
    ensures Holds(c, c.defs)
  {
    forall i | 0 <= i < |c.defs| ensures Lookup(c.defs, c.defs[i].name) == Some(c.defs[i].schema) {
      var found := Lookup(c.defs, c.defs[i].name);
      var j :| 0 <= j < |c.defs| && c.defs[j] == Property(c.defs[i].name, found.value);
      assert j == i;
    }
  }

  /** A document a parser makes of what can be cut for it fits the parser's description exactly when nothing the
      contract counts on is wanting. */
  lemma {:induction false} MadeFits(c: Contract, f: Format, node: string, taken: set<string>, m: Material)
    requires MakesSense(f) && CutFor(f, m) && Made(f, m).Ok? && Holds(c, Described(f, node, taken).defs)
    ensures Fits(c, Described(f, node, taken).schema, Made(f, m).value) <==> NothingWanting(f, m)
    decreases m, 1
  {
    hide TakenEntries, HitTaken, BranchTaken, RowEntries, PairEntries, LabelStands;
    hide Fits, RowCut, HitCut, BranchCut, PairsApart, RowSchema, ObjectOf, NodeSchema, EntrySchema, MapSchema, RowsMade, HitMade,
      HitsMade, EntriesMade, PairsMade, SectionsMade, PartsMade, BlocksMade, BranchesMade, DescribedParts, AlternativesMakeSense,
      RulesMakeSense, NodeMakesSense, NamesApart, ListOf, SectionsSchema;
    match m {
      case Rows(rows) =>
        RowsFit(c, f, rows);
        ListFits(c, RowSchema(f), RowsMade(f.rules, rows).value);
      case Hits(hits) =>
        HitsFit(c, f.alts, f.rules, hits);
        ListFits(c, ObjectOf(f.alts, f.rules), HitsMade(f.alts, f.rules, hits).value);
      case OneHit(hit) =>
        HitFits(c, f.alts, f.rules, hit);
      case Pairs(pairs) =>
        if f.Entries? {
          EntriesFit(c, f.rules, pairs);
          ListFits(c, EntrySchema(f.rules), EntriesMade(f.rules, pairs).value);
        } else {
          PairsFit(c, f.rules, pairs);
        }
      case SectionPairs(sections) =>
        SectionsFit(c, f.rules, sections);
        SectionsKeyed(c, f.rules, SectionsMade(f.rules, sections).value);
      case PartMaterials(parts) =>
        CompositeFits(c, f, node, taken, parts);
      case BlockMaterials(blocks) =>
        BlocksFit(c, f.block, node, taken, blocks);
        ListFits(c, Described(f.block, node, taken).schema, BlocksMade(f.block, blocks).value);
      case Branches(branches) =>
        var def := FreeName(node, 1, taken);
        assert Described(f, node, taken).defs[0] == Property(def, NodeSchema(f.node, def));
        BranchesFit(c, f.node, def, branches);
        ListFits(c, Ref(def), BranchesMade(f.node, branches).value);
    }
  }

  lemma {:induction false} SectionsKeyed(c: Contract, rules: seq<Rule>, members: seq<Member>)
    ensures Fits(c, SectionsSchema(rules), Obj(members)) <==>
      forall i :: 0 <= i < |members| ==> MemberFits(c, SectionsSchema(rules), members[i])
  {
    hide Fits, MemberFits, MapSchema;
    KeyedFits(c, SectionsSchema(rules), members);
  }

  lemma {:induction false} BlocksFit(c: Contract, block: Format, node: string, taken: set<string>, ms: seq<Material>)
    requires MakesSense(block) && BlocksMade(block, ms).Ok? && Holds(c, Described(block, node, taken).defs)
    requires forall i :: 0 <= i < |ms| ==> CutFor(block, ms[i])
    ensures |BlocksMade(block, ms).value| == |ms|
    ensures forall i :: 0 <= i < |ms| ==>
      (Fits(c, Described(block, node, taken).schema, BlocksMade(block, ms).value[i]) <==> NothingWanting(block, ms[i]))
    decreases ms, 0
  {
    hide Fits, Described, Made, MakesSense, CutFor, Holds, NothingWanting;
    if ms != [] {
      BlocksFit(c, block, node, taken, ms[..|ms| - 1]);
      MadeFits(c, block, node, taken, ms[|ms| - 1]);
    }
  }

  /** Each part is there under its name, and fits what is said about it. */
  lemma {:induction false} PartsFit(c: Contract, parts: seq<Part>, node: string, taken: set<string>, ms: seq<Material>)
    requires |parts| == |ms| && PartsMade(parts, ms).Ok? && Holds(c, DescribedParts(parts, node, taken).defs)
    requires forall i :: 0 <= i < |parts| ==> MakesSense(parts[i].format) && CutFor(parts[i].format, ms[i])
    ensures
      var d, members := DescribedParts(parts, node, taken), PartsMade(parts, ms).value;
      && |members| == |parts|
      && forall i :: 0 <= i < |parts| ==>
        && members[i].key == parts[i].name == d.props[i].name == d.names[i]
        && (Fits(c, d.props[i].schema, members[i].value) <==> NothingWanting(parts[i].format, ms[i]))
    decreases ms, 0
  {
    hide Fits, Described, Made, MakesSense, CutFor, Holds, NothingWanting;
    if ms != [] {
      var n := |ms| - 1;
      var before := DescribedParts(parts[..n], node, taken);
      var last := Described(parts[n].format, node + "_" + parts[n].name, before.taken);
      HoldsBoth(c, before.defs, last.defs);
      PartsFit(c, parts[..n], node, taken, ms[..n]);
      MadeFits(c, parts[n].format, node + "_" + parts[n].name, before.taken, ms[n]);
    }
  }

  lemma {:induction false} CompositeFits(c: Contract, f: Format, node: string, taken: set<string>, ms: seq<Material>)
    requires f.Composite? && MakesSense(f) && CutFor(f, PartMaterials(ms)) && Made(f, PartMaterials(ms)).Ok?
    requires Holds(c, Described(f, node, taken).defs)
    ensures Fits(c, Described(f, node, taken).schema, Made(f, PartMaterials(ms)).value) <==>
      forall i :: 0 <= i < |ms| ==> NothingWanting(f.parts[i].format, ms[i])
    decreases ms, 1
  {
    hide NothingWanting, NamedFits;
    hide Fits, DescribedParts, PartsMade, Holds, Lookup, Get;
    var parts := f.parts;
    var d, members := DescribedParts(parts, node, taken), PartsMade(parts, ms).value;
    PartsFit(c, parts, node, taken, ms);
    forall i | 0 <= i < |members|
      ensures Lookup(d.props, members[i].key) == Some(d.props[i].schema) && Get(members, members[i].key).Some?
    {
      PropertyOf(d.props, i);
      MemberIsThere(members, i);
    }
    assert forall r :: 0 <= r < |d.names| ==> d.names[r] == members[r].key;
    var s := Described(f, node, taken).schema;
    NamedObject(c, s, members);
    forall i | 0 <= i < |members| ensures NamedFits(c, s, members[i]) <==> NothingWanting(parts[i].format, ms[i]) {
      NamedFitsIs(c, s, members[i], d.props[i].schema);
    }
  }

  lemma {:induction false} NamedFitsIs(c: Contract, s: Schema, m: Member, x: Schema)
    requires s.Body? && Lookup(s.properties, m.key) == Some(x)
    ensures NamedFits(c, s, m) <==> Fits(c, x, m.value)
  {
  }

  lemma {:induction false} PropertyOf(props: seq<Property>, i: nat)
    requires DefsApart(props) && i < |props|
    ensures Lookup(props, props[i].name) == Some(props[i].schema)
  {
    var found := Lookup(props, props[i].name);
    var j :| 0 <= j < |props| && props[j] == Property(props[i].name, found.value);
    assert j == i;
  }

  lemma {:induction false} MemberIsThere(members: seq<Member>, i: nat)
    requires i < |members|
    ensures Get(members, members[i].key).Some?
  {
  }

  /** A document a definition's parsers make fits the contract generated for the definition exactly when no item of an
      array in it is null for want of its group and no row is without its leading label. */
  lemma {:induction false} EveryDocumentFits(f: Format, m: Material)
    requires MakesSense(f) && CutFor(f, m) && Made(f, m).Ok?
    ensures Fits(Generated(f), Generated(f).top, Made(f, m).value) <==> NothingWanting(f, m)
  {
    hide Fits, MakesSense, CutFor, Made, Described, NothingWanting;
    DescribedGivesOut(f, "node", {});
    ApartHolds(Generated(f));
    MadeFits(Generated(f), f, "node", {}, m);
  }

  /** Generate */
  method Generate(f: Format) returns (c: Contract)
    ensures c == Generated(f)
    ensures MakesSense(f) ==> forall m :: CutFor(f, m) && Made(f, m).Ok? ==> (Fits(c, c.top, Made(f, m).value) <==> NothingWanting(f, m))
  {
    hide Fits, MakesSense, CutFor, Made, Described, NothingWanting;
    var g := new Generator();
    var schema, defs := g.Parse(f, "node");
    c := Contract(schema, defs);
    forall m | MakesSense(f) && CutFor(f, m) && Made(f, m).Ok? ensures Fits(c, c.top, Made(f, m).value) <==> NothingWanting(f, m) {
      EveryDocumentFits(f, m);
    }
  }
}
