/**
 Where an item of an array is null though its schema says it is text (pkg/engine/fields.go, convertArray;
 internal/schema/generate.go, converted): its expression matched and left its group out, which no rule speaks of.
 */
module Untaken {
  import opened Lines
  import opened Json
  import opened Patterns
  import opened Conversions
  import opened Contracts
  import opened Typing
  import opened Generation
  import Texts

  /** An array of texts of which no item is refused, left out or null on purpose fits its schema exactly when every
      item takes its group. */
  lemma {:induction false} ArrayFits(c: Contract, f: Field, s: string)
    requires WellFormed(f) && f.kind.ArrayField? && f.items.Some? && s != "" && ConvertScalar(f, s).Ok?
    requires
      var items := f.items.value;
      items.kind.StringField? && !items.required && !items.omits && items.nullIf == []
    ensures
      var items, parts := f.items.value, f.split(s);
      Fits(c, ConvertedSchema(f), ConvertScalar(f, s).value) <==>
        forall i :: 0 <= i < |parts| ==> GroupText(items, ItemText(items, parts[i])) != Ok(None)
  {
    hide Fits, ConvertScalar, ConvertedSchema, WellFormed, GroupText;
    ConvertedFits(c, f, s);
    var items, parts := f.items.value, f.split(s);
    forall i | 0 <= i < |parts| ensures TakenItem(items, TrimSpace(parts[i])) <==> GroupText(items, ItemText(items, parts[i])) != Ok(None) {
      StringRuleIsTaken(items, Some(TrimSpace(parts[i])), {});
    }
  }

  /** The text an item's rule is applied to. */
  function ItemText(items: Field, part: string): string {
    if items.strips then items.strip(TrimSpace(part)) else TrimSpace(part)
  }

  // ----- definitions none of whose items can be such a null -----

  /** An item whose group may be left out is then refused, left out or null by another rule too. */
  predicate TakesItsGroup(items: Field) {
    OptionalGroup(items) ==> items.required || items.omits || items.nullIf != []
  }

  predicate ItemsTakeGroups(f: Field)
    decreases f
  {
    && (f.items.Some? ==> TakesItsGroup(f.items.value) && ItemsTakeGroups(f.items.value))
    && forall i :: 0 <= i < |f.fields| ==> ItemsTakeGroups(f.fields[i].field)
  }

  predicate RulesTakeGroups(rules: seq<Rule>) {
    forall i :: 0 <= i < |rules| ==> ItemsTakeGroups(rules[i].field)
  }

  lemma {:induction false} ScalarTaken(f: Field, s: string)
    requires WellFormed(f) && ItemsTakeGroups(f)
    ensures TakenScalar(f, s)
    decreases f, 1
  {
    hide WellFormed, Captures;
    FieldsWellFormed(f);
    match f.kind {
      case ArrayField =>
        if s != "" && f.items.Some? {
          var parts := f.split(s);
          forall i | 0 <= i < |parts| ensures TakenItem(f.items.value, TrimSpace(parts[i])) {
            ItemTaken(f.items.value, TrimSpace(parts[i]));
          }
        }
      case ObjectField =>
        if f.regex.Some? && f.regex.value.find(s).Some? {
          EntriesTaken(f.fields, GroupEntries(f.regex.value.tree, f.regex.value.find(s).value.events));
        }
      case _ =>
    }
  }

  lemma {:induction false} FieldsWellFormed(f: Field)
    requires WellFormed(f)
    ensures WellFormedRules(f.fields) && (f.items.Some? ==> WellFormed(f.items.value))
  {
  }

  lemma {:induction false} ItemTaken(items: Field, text: string)
    requires WellFormed(items) && ItemsTakeGroups(items) && TakesItsGroup(items)
    ensures TakenItem(items, text)
    decreases items, 3
  {
    hide WellFormed, OptionalGroup, GroupText, TakenRule, ItemsTakeGroups;
    RuleTaken(items, Some(text), {});
    var s := if items.strips then items.strip(text) else text;
    if NullItem(items, text) {
      NoGroupIsOptional(items, s, {});
    }
  }

  lemma {:induction false} RuleTaken(f: Field, v: Option<string>, present: set<string>)
    requires WellFormed(f) && ItemsTakeGroups(f)
    ensures TakenRule(f, v, present)
    decreases f, 2
  {
    hide WellFormed, TakenScalar, ItemsTakeGroups;
    if v.Some? {
      ScalarTaken(f, if f.strips then f.strip(v.value) else v.value);
    }
  }

  lemma {:induction false} EntriesTaken(rules: seq<Rule>, entries: seq<Entry>)
    requires WellFormedRules(rules) && RulesTakeGroups(rules)
    ensures TakenEntries(rules, entries)
    decreases rules, 2
  {
    hide WellFormed, TakenRule, ItemsTakeGroups;
    forall k | 0 <= k < |entries| && RuleOf(rules, entries[k].name).Some?
      ensures TakenRule(RuleOf(rules, entries[k].name).value, entries[k].raw, entries[k].present)
    {
      var f := RuleOf(rules, entries[k].name).value;
      var i :| 0 <= i < |rules| && rules[i] == Rule(entries[k].name, f);
      RuleTaken(f, entries[k].raw, entries[k].present);
    }
  }

  predicate FormatTakesGroups(f: Format)
    decreases f
  {
    match f
    case Composite(parts) => forall i :: 0 <= i < |parts| ==> FormatTakesGroups(parts[i].format)
    case Records(block) => FormatTakesGroups(block)
    case Forest(node) => RulesTakeGroups(node.rules)
    case _ => RulesTakeGroups(f.rules)
  }

  lemma {:induction false} BranchIsTaken(node: NodeFormat, b: Branch)
    requires NodeMakesSense(node) && RulesTakeGroups(node.rules)
    ensures BranchTaken(node, b)
    decreases b
  {
    hide WellFormedRules, RulesTakeGroups, TakenEntries, AlternativesMakeSense;
    if node.MatchNode? && b.own.OwnHit? && b.own.hit.which < |node.alts| {
      EntriesTaken(node.rules, MatchEntries(node.alts[b.own.hit.which], b.own.hit.events));
    }
    forall i | 0 <= i < |b.children| ensures BranchTaken(node, b.children[i]) {
      BranchIsTaken(node, b.children[i]);
    }
  }

  /** Nothing such a definition's parsers can be given makes an item null for want of its group. */
  lemma {:induction false} AlwaysTaken(f: Format, m: Material)
    requires MakesSense(f) && FormatTakesGroups(f)
    ensures Taken(f, m)
    decreases m
  {
    hide WellFormedRules, RulesTakeGroups, TakenEntries, AlternativesMakeSense, BranchTaken, NodeMakesSense;
    match m {
      case Rows(rows) =>
        if f.Table? || f.Csv? {
          forall i | 0 <= i < |rows| ensures TakenEntries(f.rules, RowEntries(rows[i])) {
            EntriesTaken(f.rules, RowEntries(rows[i]));
          }
        }
      case Hits(hits) =>
        if f.PerLine? {
          forall i | 0 <= i < |hits| ensures HitTaken(f.alts, f.rules, hits[i]) {
            HitIsTaken(f.alts, f.rules, hits[i]);
          }
        }
      case OneHit(hit) =>
        if f.WholeInput? {
          HitIsTaken(f.alts, f.rules, hit);
        }
      case Pairs(pairs) =>
        if f.Mapping? {
          EntriesTaken(f.rules, PairEntries(pairs));
        }
      case SectionPairs(sections) =>
        if f.Sections? {
          forall i | 0 <= i < |sections| ensures TakenEntries(f.rules, PairEntries(sections[i].pairs)) {
            EntriesTaken(f.rules, PairEntries(sections[i].pairs));
          }
        }
      case PartMaterials(parts) =>
        if f.Composite? && |parts| == |f.parts| {
          forall i | 0 <= i < |parts| ensures Taken(f.parts[i].format, parts[i]) {
            AlwaysTaken(f.parts[i].format, parts[i]);
          }
        }
      case BlockMaterials(blocks) =>
        if f.Records? {
          forall i | 0 <= i < |blocks| ensures Taken(f.block, blocks[i]) {
            AlwaysTaken(f.block, blocks[i]);
          }
        }
      case Branches(branches) =>
        if f.Forest? {
          forall i | 0 <= i < |branches| ensures BranchTaken(f.node, branches[i]) {
            BranchIsTaken(f.node, branches[i]);
          }
        }
    }
  }

  lemma {:induction false} HitIsTaken(alts: seq<Alternative>, rules: seq<Rule>, hit: Hit)
    requires WellFormedRules(rules) && RulesTakeGroups(rules)
    ensures HitTaken(alts, rules, hit)
  {
    hide WellFormedRules, RulesTakeGroups, TakenEntries;
    if hit.which < |alts| {
      EntriesTaken(rules, MatchEntries(alts[hit.which], hit.events));
    }
  }

  /** Every document of such a definition fits its contract, if its rows have their leading labels. */
  lemma {:induction false} EveryDocumentOfItFits(f: Format, m: Material)
    requires MakesSense(f) && FormatTakesGroups(f) && CutFor(f, m) && Made(f, m).Ok?
    ensures Fits(Generated(f), Generated(f).top, Made(f, m).value) <==> Labelled(f, m)
  {
    hide Fits, MakesSense, FormatTakesGroups, CutFor, Made, Described, Taken, Labelled;
    AlwaysTaken(f, m);
    EveryDocumentFits(f, m);
  }

  // ----- one that can -----

  /** One letter in a group that may be left out: (?P<x>a)? */
  const OPTIONAL_LETTER := Quest(Group("x", Literal("a", false)))

  function FindLetter(text: string): Option<Match> {
    Some(if text != "" && text[0] == 'a' then Match(0, 1, [Event("x", "a")]) else Match(0, 0, []))
  }

  function Same(text: string): string {
    text
  }

  function AtCommas(text: string): seq<string> {
    Texts.SplitOn(text, ',')
  }

  function NotANumber(text: string): Outcome<int> {
    Refused
  }

  function NotAReal(text: string): Outcome<real> {
    Refused
  }

  function NotAFlag(text: string): Outcome<bool> {
    Refused
  }

  function NotATime(text: string): Outcome<string> {
    Refused
  }

  const LETTER := Field(StringField, false, Same, [], false, false, Some(Regexp(OPTIONAL_LETTER, FindLetter)), "x", None,
                        AtCommas, None, [], NotANumber, NotAReal, NotAFlag, NotATime)

  const LETTERS := Field(ArrayField, false, Same, [], false, false, None, "", None,
                         AtCommas, Some(LETTER), [], NotANumber, NotAReal, NotAFlag, NotATime)

  lemma {:induction false} LettersAreFound()
    ensures Faithful(Regexp(OPTIONAL_LETTER, FindLetter))
  {
    var re := Regexp(OPTIONAL_LETTER, FindLetter);
    forall s: string ensures FindsWhatItSays(re, s) {
      if s != "" && s[0] == 'a' {
        var events := [Event("x", "a")];
        assert s[0..1] == "a" && events[..0] == [];
        assert Derives(Group("x", Literal("a", false)), "a", events);
      } else {
        assert s[0..0] == "";
      }
    }
  }

  lemma {:induction false} LetterIsCaptured()
    ensures Captures(OPTIONAL_LETTER) == [Capture("x", true, Some(["a"]))]
  {
    var lit := Literal("a", false);
    var own := Group("x", lit);
    var capture := Capture("x", true, Some(["a"]));
    assert SubsOf(own)[0] == lit && SubsOf(OPTIONAL_LETTER)[0] == own;
    OneKnown(lit, own, OPTIONAL_LETTER, capture);
    assert [capture][..0] == [];
    assert Merged([]) == [] && Merge([], capture) == [] + [capture];
    assert Merged([capture]) == Merge(Merged([]), capture);
  }

  lemma {:induction false} OneKnown(lit: Pattern, own: Pattern, p: Pattern, capture: Capture)
    requires lit.Literal? && !lit.fold && own == Group("x", lit) && p == Quest(own) && capture == Capture("x", true, Some([lit.text]))
    ensures Walked(p, false) == [capture]
  {
    hide Walked, WalkedFirst;
    WalkedIs(lit, true);
    NoneWalked(lit, true);
    assert SubsOf(own)[0] == lit;
    NoneWalked(own, true);
    NextWalked(own, 0, true);
    WalkedIs(own, true);
    assert Language(lit) == Some([lit.text]);
    assert Walked(own, true) == [capture];
    NoneWalked(p, true);
    NextWalked(p, 0, true);
    WalkedIs(p, false);
    assert SubsOf(p)[0] == own;
  }

  /** The group is left out exactly of the texts that do not begin with the letter. */
  lemma {:induction false} LetterTaken(text: string)
    ensures GroupText(LETTER, text) == if text != "" && text[0] == 'a' then Ok(Some("a")) else Ok(None)
  {
    var events := [Event("x", "a")];
    assert events[|events| - 1] == Event("x", "a");
  }

  /** A map of one key whose value is an array of such items. */
  const TAGS := Mapping([Rule("tags", LETTERS)])

  const TWO_TAGS := Pairs([Pair("tags", "a,b")])

  lemma {:induction false} TagsMakeSense()
    ensures MakesSense(TAGS) && CutFor(TAGS, TWO_TAGS)
  {
    hide Faithful, Captures;
    LettersAreFound();
    LetterIsCaptured();
    assert HasGroup(OPTIONAL_LETTER, "x");
    assert WellFormedRules([]);
    assert WellFormed(LETTER);
    assert WellFormed(LETTERS);
  }

  lemma {:induction false} TwoTags()
    ensures AtCommas("a,b") == ["a", "b"] && TrimSpace("a") == "a" && TrimSpace("b") == "b"
  {
    assert "a,b"[..1] == "a" && "a,b"[1..] == ",b" && "a,b"[2..] == "b" && "b"[1..] == "";
    assert Texts.IndexOf(",b", ',') == 0 && Texts.IndexOf("", ',') == 0;
    assert Texts.IndexOf("a,b", ',') == 1 && Texts.IndexOf("b", ',') == 1;
    assert Texts.SplitOn("b", ',') == ["b"];
    assert ["a"] + ["b"] == ["a", "b"];
    assert TrimLeft("a") == "a" && TrimLeft("b") == "b" && TrimRight("a") == "a" && TrimRight("b") == "b";
  }

  /** A string rule that does no more than keep its group. */
  lemma {:induction false} GroupIsKept(f: Field, text: string)
    requires f.kind.StringField? && !f.strips && f.nullIf == [] && !f.required && !f.omits && f.unescape.None?
    requires GroupText(f, text).Ok?
    ensures
      var kept := GroupText(f, text).value;
      ConvertRule(f, Some(text), {}) == Ok(Kept(if kept.None? then Null else Str(kept.value)))
  {
    hide GroupText;
    var kept := GroupText(f, text).value;
    if kept.Some? {
      assert ConvertScalar(f, kept.value) == Ok(Str(kept.value));
      assert ConvertText(f, kept.value) == Ok(Kept(Str(kept.value)));
    }
  }

  lemma {:induction false} TwoItems(items: Field, a: string, b: string, x: Json, y: Json)
    requires ConvertRule(items, Some(TrimSpace(a)), {}) == Ok(Kept(x)) && ConvertRule(items, Some(TrimSpace(b)), {}) == Ok(Kept(y))
    ensures ConvertItems(Some(items), [a, b]) == Ok([x, y])
  {
    hide ConvertRule, TrimSpace;
    assert [a, b][..1] == [a] && [a][..0] == [];
    assert ConvertItems(Some(items), [a]) == Ok([] + [x]);
    assert [] + [x] == [x] && [x] + [y] == [x, y];
  }

  lemma {:induction false} OneKeyRead(name: string, f: Field, text: string, v: Json)
    requires ConvertRule(f, Some(text), {}) == Ok(Kept(v))
    ensures PairsMade([Rule(name, f)], [Pair(name, text)]) == Ok(Obj([Member(name, v)]))
    ensures TakenEntries([Rule(name, f)], PairEntries([Pair(name, text)])) ==> TakenRule(f, Some(text), {})
  {
    hide ConvertRule, TakenRule;
    var rules, entries := [Rule(name, f)], PairEntries([Pair(name, text)]);
    assert entries == [Entry(name, Some(text), {})] && entries[..0] == [];
    assert RuleOf(rules, name) == Some(f);
    EachEntryTaken(rules, entries);
    assert TakenEntry(rules, entries[0]) == TakenRule(f, Some(text), {});
    assert SetKey([], name, v) == [] + [Member(name, v)];
    assert [] + [Member(name, v)] == [Member(name, v)];
    assert Plain(Some(text)).Ok? && entries[0].name == name;
    assert SetEntries(rules, []) == Ok([]);
    assert SetEntries(rules, entries) == Ok([Member(name, v)]);
  }

  lemma {:induction false} TagsConverted()
    ensures ConvertRule(LETTERS, Some("a,b"), {}) == Ok(Kept(Arr([Str("a"), Null])))
    ensures !TakenRule(LETTERS, Some("a,b"), {})
  {
    hide GroupText, ConvertItems, TrimSpace, TakenItem;
    TwoTags();
    LetterTaken("a");
    LetterTaken("b");
    GroupIsKept(LETTER, "a");
    GroupIsKept(LETTER, "b");
    TwoItems(LETTER, "a", "b", Str("a"), Null);
    SecondIsNull();
    assert LETTERS.split("a,b") == AtCommas("a,b") && |AtCommas("a,b")| == 2;
    ArrayIsKept(LETTERS, "a,b");
  }

  lemma {:induction false} ArrayIsKept(f: Field, s: string)
    requires f.kind.ArrayField? && !f.strips && f.nullIf == [] && !f.required && s != "" && f.items.Some?
    requires ConvertItems(f.items, f.split(s)).Ok?
    ensures ConvertRule(f, Some(s), {}) == Ok(Kept(Arr(ConvertItems(f.items, f.split(s)).value)))
    ensures TakenRule(f, Some(s), {}) <==> forall i :: 0 <= i < |f.split(s)| ==> TakenItem(f.items.value, TrimSpace(f.split(s)[i]))
  {
    hide ConvertItems, TakenItem, TrimSpace;
    var items := ConvertItems(f.items, f.split(s)).value;
    assert ConvertScalar(f, s) == Ok(Arr(items));
    assert ConvertText(f, s) == Ok(Kept(Arr(items)));
  }

  lemma {:induction false} SecondIsNull()
    ensures !TakenItem(LETTER, TrimSpace(AtCommas("a,b")[1]))
  {
    hide GroupText, TrimSpace;
    TwoTags();
    LetterTaken("b");
    assert NullItem(LETTER, "b");
  }

  /** Its document is read, its second tag as null, and does not fit the contract generated for it. */
  lemma {:induction false} ReadAndUnfit()
    ensures Made(TAGS, TWO_TAGS) == Ok(Obj([Member("tags", Arr([Str("a"), Null]))]))
    ensures !Fits(Generated(TAGS), Generated(TAGS).top, Made(TAGS, TWO_TAGS).value)
  {
    hide Fits, Generated, MakesSense, CutFor, PairsMade, TakenRule, TakenEntries, ConvertRule;
    TagsMakeSense();
    TagsConverted();
    OneKeyRead("tags", LETTERS, "a,b", Arr([Str("a"), Null]));
    assert Made(TAGS, TWO_TAGS) == PairsMade(TAGS.rules, TWO_TAGS.pairs);
    EveryDocumentFits(TAGS, TWO_TAGS);
  }
}
