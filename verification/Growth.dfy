/**
 Edits of an output contract that break nobody (internal/schema/compat.go): what a contract may grow into is said here
 without the comparison, and the comparison then reports nothing that breaks.
 */
module Growth {
  import opened Lines
  import opened Contracts
  import opened Compatibility
  import opened Endings

  // ----- edits -----

  ghost predicate SameElements<T(!new)>(a: seq<T>, b: seq<T>) {
    forall x :: x in a <==> x in b
  }

  predicate NoneIsNamed(props: seq<Property>, name: string) {
    forall i :: 0 <= i < |props| ==> props[i].name != name
  }

  /** The same types, values, properties and required keys, in another order. */
  predicate Rearranged(s: Schema, t: Schema) {
    && s.Body? && t.Body?
    && t == s.(types := t.types, enums := t.enums, properties := t.properties, required := t.required)
    && multiset(t.types) == multiset(s.types) && multiset(t.enums) == multiset(s.enums)
    && multiset(t.properties) == multiset(s.properties) && multiset(t.required) == multiset(s.required)
  }

  /** One property more, which is not required, in an object that closes its keys; or in one that does not, as it
      describes them. It may stand anywhere among the others. */
  predicate NamesOneMore(s: Schema, t: Schema, k: nat, p: Property) {
    && s.Body? && s.states && k <= |s.properties|
    && t == s.(properties := s.properties[..k] + [p] + s.properties[k..])
    && NoneIsNamed(s.properties, p.name) && p.name !in s.required
    && (s.extra.Some? ==> p.schema == s.extra.value)
  }

  /** One property less, which is not required and is described as the keys that are not named are. */
  predicate NamesOneLess(s: Schema, t: Schema, k: nat) {
    && s.Body? && s.states && k < |s.properties|
    && t == s.(properties := s.properties[..k] + s.properties[k + 1..])
    && s.properties[k].name !in s.required && s.extra == Some(s.properties[k].schema)
  }

  ghost predicate SmallEdit(s: Schema, t: Schema) {
    Rearranged(s, t) || (exists k: nat, p :: NamesOneMore(s, t, k, p)) || exists k: nat :: NamesOneLess(s, t, k)
  }

  /** A way down into a schema. */
  datatype Way = ToItems | ToOthers | ToKey(at: nat)

  predicate Opens(s: Schema, way: Way) {
    && s.Body?
    && match way
       case ToItems => s.items.Some?
       case ToOthers => s.extra.Some?
       case ToKey(i) => s.states && i < |s.properties|
  }

  function Within(s: Schema, way: Way): (x: Schema)
    requires Opens(s, way)
    ensures x < s
  {
    match way
    case ToItems => s.items.value
    case ToOthers => s.extra.value
    case ToKey(i) => s.properties[i].schema
  }

  function Replaced(s: Schema, way: Way, x: Schema): Schema
    requires Opens(s, way)
  {
    match way
    case ToItems => s.(items := Some(x))
    case ToOthers => s.(extra := Some(x))
    case ToKey(i) => s.(properties := s.properties[i := Property(s.properties[i].name, x)])
  }

  /** One schema somewhere inside is edited, however deep, and nothing else. */
  ghost predicate Edited(s: Schema, t: Schema)
    decreases s
  {
    SmallEdit(s, t) || exists way, x :: Opens(s, way) && Edited(Within(s, way), x) && t == Replaced(s, way, x)
  }

  /** A contract with one schema edited, at its top or in one of its $defs, or none. */
  ghost predicate EditedContract(a: Contract, b: Contract) {
    || a == b
    || (b.defs == a.defs && Edited(a.top, b.top))
    || (b.top == a.top && exists k, x :: 0 <= k < |a.defs| && Edited(a.defs[k].schema, x) && b.defs == a.defs[k := Property(a.defs[k].name, x)])
  }

  /** Every object names each of its keys once. */
  predicate NamesOnce(s: Schema)
    decreases s
  {
    s.Body? ==>
      && (forall i, j :: 0 <= i < j < |s.properties| ==> s.properties[i].name != s.properties[j].name)
      && AllNameOnce(s.properties)
      && (s.extra.Some? ==> NamesOnce(s.extra.value))
      && (s.items.Some? ==> NamesOnce(s.items.value))
  }

  predicate AllNameOnce(props: seq<Property>)
    decreases props
  {
    forall i :: 0 <= i < |props| ==> NamesOnce(props[i].schema)
  }

  predicate ContractNamesOnce(c: Contract) {
    NamesOnce(c.top) && AllNameOnce(c.defs)
  }

  // ----- what a schema may grow into -----

  /** The same types and values; every key that was described is described by what that grew into, and is as required as
      it was; and every key that was not is optional. */
  ghost predicate Grows(s: Schema, t: Schema)
    decreases s, 1
  {
    match s
    case Ref(_) => t == s
    case Body(_, _, _, _, _, extra, items) =>
      && t.Body? && SameElements(s.types, t.types) && SameElements(s.enums, t.enums)
      && items.Some? == t.items.Some? && (items.Some? ==> Grows(items.value, t.items.value))
      && extra.Some? == t.extra.Some? && (extra.Some? ==> Grows(extra.value, t.extra.value))
      && (forall i :: 0 <= i < |Props(s)| ==> KeyGrows(s, t, i))
      && (forall i :: 0 <= i < |Props(t)| ==> KeyIsNew(s, t, i))
  }

  ghost predicate KeyGrows(s: Schema, t: Schema, i: nat)
    requires i < |Props(s)|
    decreases s, 0
  {
    var p, sub := Props(s)[i], Lookup(Props(t), Props(s)[i].name);
    if sub.Some? then Grows(p.schema, sub.value) && IsRequired(s, p.name) == IsRequired(t, p.name)
    else Extra(t).Some? && Grows(p.schema, Extra(t).value) && !IsRequired(s, p.name)
  }

  ghost predicate KeyIsNew(s: Schema, t: Schema, i: nat)
    requires i < |Props(t)|
    decreases s, 0
  {
    var p := Props(t)[i];
    Lookup(Props(s), p.name).Some? || (!IsRequired(t, p.name) && (Extra(s).Some? ==> Grows(Extra(s).value, p.schema)))
  }

  ghost predicate ContractGrows(a: Contract, b: Contract) {
    && Grows(a.top, b.top) && |a.defs| == |b.defs|
    && forall i :: 0 <= i < |a.defs| ==> a.defs[i].name == b.defs[i].name && Grows(a.defs[i].schema, b.defs[i].schema)
  }

  // ----- edits let a contract grow -----

  lemma {:induction false} FoundOnce(props: seq<Property>, k: nat)
    requires k < |props| && forall i, j :: 0 <= i < j < |props| ==> props[i].name != props[j].name
    ensures Lookup(props, props[k].name) == Some(props[k].schema)
  {
    LookupIsFirst(props, props[k].name, k);
  }

  /** The same keys, each described by what its description grew into, and as required as it was. */
  lemma {:induction false} GrowsKeyByKey(s: Schema, t: Schema)
    requires s.Body? && t.Body? && NamesOnce(s) && s.states == t.states && |t.properties| == |s.properties|
    requires SameElements(s.types, t.types) && SameElements(s.enums, t.enums) && t.required == s.required
    requires s.items.Some? == t.items.Some? && (s.items.Some? ==> Grows(s.items.value, t.items.value))
    requires s.extra.Some? == t.extra.Some? && (s.extra.Some? ==> Grows(s.extra.value, t.extra.value))
    requires forall i :: 0 <= i < |s.properties| ==>
      t.properties[i].name == s.properties[i].name && (s.states ==> Grows(s.properties[i].schema, t.properties[i].schema))
    ensures Grows(s, t)
  {
    hide Lookup, SameElements;
    forall i | 0 <= i < |Props(s)| ensures KeyGrows(s, t, i) {
      FoundOnce(t.properties, i);
    }
    forall i | 0 <= i < |Props(t)| ensures KeyIsNew(s, t, i) {
      FoundOnce(s.properties, i);
    }
  }

  /** Nothing grows: a schema that names each key once has itself to grow into. */
  lemma {:induction false} GrowsNot(s: Schema)
    requires NamesOnce(s)
    ensures Grows(s, s)
    decreases s
  {
    if s.Body? {
      forall i | 0 <= i < |s.properties| ensures Grows(s.properties[i].schema, s.properties[i].schema) {
        GrowsNot(s.properties[i].schema);
      }
      if s.items.Some? {
        GrowsNot(s.items.value);
      }
      if s.extra.Some? {
        GrowsNot(s.extra.value);
      }
      hide Grows, NamesOnce;
      GrowsKeyByKey(s, s);
    }
  }

  lemma {:induction false} SameMultisets<T>(a: seq<T>, b: seq<T>)
    requires multiset(a) == multiset(b)
    ensures forall x :: x in a <==> x in b
  {
    forall x ensures x in a <==> x in b {
      assert x in a <==> x in multiset(a);
      assert x in b <==> x in multiset(b);
    }
  }

  /** Another order is no growth. */
  lemma {:induction false} RearrangedGrows(s: Schema, t: Schema)
    requires NamesOnce(s) && Rearranged(s, t)
    ensures Grows(s, t)
  {
    hide Grows, NamesOnce;
    SameMultisets(s.types, t.types);
    SameMultisets(s.enums, t.enums);
    SameMultisets(s.properties, t.properties);
    SameMultisets(s.required, t.required);
    InsideNamesOnce(s);
    if s.items.Some? {
      GrowsNot(s.items.value);
    }
    if s.extra.Some? {
      GrowsNot(s.extra.value);
    }
    forall i | 0 <= i < |Props(s)| ensures KeyGrows(s, t, i) {
      StillFound(s, t, i);
      GrowsNot(Props(s)[i].schema);
    }
    forall i | 0 <= i < |Props(t)| ensures KeyIsNew(s, t, i) {
      assert Props(t)[i] in s.properties;
    }
    GrowsTo(s, t);
  }

  lemma {:induction false} StillFound(s: Schema, t: Schema, i: nat)
    requires s.Body? && t.Body? && NamesOnce(s) && t.states == s.states && i < |Props(s)|
    requires forall p :: p in s.properties <==> p in t.properties
    ensures Lookup(Props(t), Props(s)[i].name) == Some(Props(s)[i].schema)
  {
    hide Lookup;
    var p := Props(s)[i];
    assert p in t.properties;
    var found := Lookup(Props(t), p.name);
    assert found.Some?;
    var j :| 0 <= j < |t.properties| && t.properties[j] == Property(p.name, found.value);
    assert t.properties[j] in s.properties;
    var k :| 0 <= k < |s.properties| && s.properties[k] == t.properties[j];
  }

  lemma {:induction false} InsideNamesOnce(s: Schema)
    requires NamesOnce(s) && s.Body?
    ensures s.items.Some? ==> NamesOnce(s.items.value)
    ensures s.extra.Some? ==> NamesOnce(s.extra.value)
    ensures forall i :: 0 <= i < |s.properties| ==> NamesOnce(s.properties[i].schema)
  {
  }

  lemma {:induction false} GrowsTo(s: Schema, t: Schema)
    requires s.Body? && t.Body? && SameElements(s.types, t.types) && SameElements(s.enums, t.enums)
    requires s.items.Some? == t.items.Some? && (s.items.Some? ==> Grows(s.items.value, t.items.value))
    requires s.extra.Some? == t.extra.Some? && (s.extra.Some? ==> Grows(s.extra.value, t.extra.value))
    requires forall i :: 0 <= i < |Props(s)| ==> KeyGrows(s, t, i)
    requires forall i :: 0 <= i < |Props(t)| ==> KeyIsNew(s, t, i)
    ensures Grows(s, t)
  {
    hide SameElements, KeyGrows, KeyIsNew;
  }

  /** One optional key more is growth. */
  lemma {:induction false} OneMoreGrows(s: Schema, t: Schema, k: nat, p: Property)
    requires NamesOnce(s) && NamesOneMore(s, t, k, p)
    ensures Grows(s, t)
  {
    hide Grows, NamesOnce;
    InsideNamesOnce(s);
    if s.items.Some? {
      GrowsNot(s.items.value);
    }
    if s.extra.Some? {
      GrowsNot(s.extra.value);
    }
    forall i | 0 <= i < |Props(s)| ensures KeyGrows(s, t, i) {
      FoundBesides(s, t, k, p, i);
      GrowsNot(Props(s)[i].schema);
    }
    forall i | 0 <= i < |Props(t)| ensures KeyIsNew(s, t, i) {
      if i != k {
        var j := if i < k then i else i - 1;
        assert Props(t)[i] == s.properties[j];
        FoundNamed(s.properties, j);
      }
    }
    GrowsTo(s, t);
  }

  lemma {:induction false} FoundNamed(props: seq<Property>, j: nat)
    requires j < |props|
    ensures Lookup(props, props[j].name).Some?
  {
  }

  lemma {:induction false} KeysApart(s: Schema)
    requires NamesOnce(s) && s.Body?
    ensures forall i, j :: 0 <= i < j < |s.properties| ==> s.properties[i].name != s.properties[j].name
  {
  }

  lemma {:induction false} FoundBesides(s: Schema, t: Schema, k: nat, p: Property, i: nat)
    requires NamesOnce(s) && NamesOneMore(s, t, k, p) && i < |Props(s)|
    ensures Lookup(Props(t), Props(s)[i].name) == Some(Props(s)[i].schema)
  {
    hide Lookup, NamesOnce;
    KeysApart(s);
    FoundInserted(s.properties, k, p, i);
  }

  lemma {:induction false} FoundInserted(props: seq<Property>, k: nat, p: Property, i: nat)
    requires forall i, j :: 0 <= i < j < |props| ==> props[i].name != props[j].name
    requires NoneIsNamed(props, p.name) && k <= |props| && i < |props|
    ensures Lookup(props[..k] + [p] + props[k..], props[i].name) == Some(props[i].schema)
  {
    hide Lookup;
    var all := props[..k] + [p] + props[k..];
    var j := if i < k then i else i + 1;
    assert all[j] == props[i];
    forall m | 0 <= m < j ensures all[m].name != props[i].name {
      assert all[m] == if m < k then props[m] else if m == k then p else props[m - 1];
    }
    LookupIsFirst(all, props[i].name, j);
  }

  /** So is leaving a key to the description of those that are not named. */
  lemma {:induction false} OneLessGrows(s: Schema, t: Schema, k: nat)
    requires NamesOnce(s) && NamesOneLess(s, t, k)
    ensures Grows(s, t)
  {
    hide Grows, NamesOnce, Lookup;
    InsideNamesOnce(s);
    KeysApart(s);
    GrowsNot(s.extra.value);
    if s.items.Some? {
      GrowsNot(s.items.value);
    }
    forall i | 0 <= i < |Props(s)| ensures KeyGrows(s, t, i) {
      GrowsNot(Props(s)[i].schema);
      FoundWithout(s.properties, k, i);
    }
    forall i | 0 <= i < |Props(t)| ensures KeyIsNew(s, t, i) {
      var j := if i < k then i else i + 1;
      assert Props(t)[i] == s.properties[j];
      FoundNamed(s.properties, j);
    }
    GrowsTo(s, t);
  }

  lemma {:induction false} FoundWithout(props: seq<Property>, k: nat, i: nat)
    requires forall i, j :: 0 <= i < j < |props| ==> props[i].name != props[j].name
    requires k < |props| && i < |props|
    ensures Lookup(props[..k] + props[k + 1..], props[i].name) == if i == k then None else Some(props[i].schema)
  {
    hide Lookup;
    var rest := props[..k] + props[k + 1..];
    assert forall m :: 0 <= m < |rest| ==> rest[m] == props[if m < k then m else m + 1];
    if i == k {
      NotFound(rest, props[i].name);
    } else {
      var j := if i < k then i else i - 1;
      assert rest[j] == props[i];
      LookupIsFirst(rest, props[i].name, j);
    }
  }

  lemma {:induction false} NotFound(props: seq<Property>, name: string)
    requires forall i :: 0 <= i < |props| ==> props[i].name != name
    ensures Lookup(props, name).None?
  {
  }

  lemma {:induction false} SmallEditGrows(s: Schema, t: Schema)
    requires NamesOnce(s) && SmallEdit(s, t)
    ensures Grows(s, t)
  {
    hide Grows, NamesOnce, NamesOneMore, NamesOneLess, Rearranged;
    if Rearranged(s, t) {
      RearrangedGrows(s, t);
    } else if k: nat, p :| NamesOneMore(s, t, k, p) {
      OneMoreGrows(s, t, k, p);
    } else {
      var k: nat :| NamesOneLess(s, t, k);
      OneLessGrows(s, t, k);
    }
  }

  lemma {:induction false} WithinNamesOnce(s: Schema, way: Way)
    requires NamesOnce(s) && Opens(s, way)
    ensures NamesOnce(Within(s, way))
  {
    hide NamesOnce;
    InsideNamesOnce(s);
  }

  lemma {:induction false} EditedGrows(s: Schema, t: Schema)
    requires NamesOnce(s) && Edited(s, t)
    ensures Grows(s, t)
    decreases s
  {
    hide Grows, NamesOnce, SmallEdit, Replaced, Opens;
    if SmallEdit(s, t) {
      SmallEditGrows(s, t);
    } else {
      var way, x :| Opens(s, way) && Edited(Within(s, way), x) && t == Replaced(s, way, x);
      WithinNamesOnce(s, way);
      EditedGrows(Within(s, way), x);
      ReplacedGrows(s, way, x);
    }
  }

  lemma {:induction false} ReplacedGrows(s: Schema, way: Way, x: Schema)
    requires NamesOnce(s) && Opens(s, way) && Grows(Within(s, way), x)
    ensures Grows(s, Replaced(s, way, x))
  {
    hide Grows, NamesOnce;
    InsideNamesOnce(s);
    var t := Replaced(s, way, x);
    if s.items.Some? && way != ToItems {
      GrowsNot(s.items.value);
    }
    if s.extra.Some? && way != ToOthers {
      GrowsNot(s.extra.value);
    }
    forall i | 0 <= i < |s.properties|
      ensures t.properties[i].name == s.properties[i].name && Grows(s.properties[i].schema, t.properties[i].schema)
    {
      if way != ToKey(i) {
        GrowsNot(s.properties[i].schema);
      }
    }
    GrowsKeyByKey(s, t);
  }

  /** An edited contract has grown. */
  lemma {:induction false} EditedContractGrows(a: Contract, b: Contract)
    requires ContractNamesOnce(a) && EditedContract(a, b)
    ensures ContractGrows(a, b)
  {
    hide Grows, NamesOnce, Edited;
    forall i | 0 <= i < |a.defs| ensures Grows(a.defs[i].schema, a.defs[i].schema) {
      GrowsNot(a.defs[i].schema);
    }
    GrowsNot(a.top);
    if b.defs == a.defs && Edited(a.top, b.top) {
      EditedGrows(a.top, b.top);
    } else if a != b {
      var k, x :| 0 <= k < |a.defs| && Edited(a.defs[k].schema, x) && b.defs == a.defs[k := Property(a.defs[k].name, x)];
      EditedGrows(a.defs[k].schema, x);
    }
  }

  // ----- what has grown breaks nothing -----

  /** The names a schema refers to. */
  function RefNames(s: Schema): set<string>
    decreases s, 1
  {
    if s.Ref? then {s.name} else RefNamesIn(s, |Kids(s)|)
  }

  function RefNamesIn(s: Schema, n: nat): set<string>
    requires s.Body? && n <= |Kids(s)|
    decreases s, 0, n
  {
    if n == 0 then {} else RefNamesIn(s, n - 1) + RefNames(Kids(s)[n - 1])
  }

  lemma {:induction false} KidRefersToNoMore(s: Schema, x: Schema)
    requires s.Body? && x in Kids(s)
    ensures RefNames(x) <= RefNames(s)
  {
    hide Kids;
    var i :| 0 <= i < |Kids(s)| && Kids(s)[i] == x;
    KidRefersWithin(s, |Kids(s)|, i);
  }

  lemma {:induction false} KidRefersWithin(s: Schema, n: nat, i: nat)
    requires s.Body? && i < n <= |Kids(s)|
    ensures RefNames(Kids(s)[i]) <= RefNamesIn(s, n)
    decreases n
  {
    hide Kids, RefNames;
    if i < n - 1 {
      KidRefersWithin(s, n - 1, i);
    }
  }

  /** Every name a contract refers to. */
  function AllRefNames(c: Contract, n: nat): set<string>
    requires n <= |c.defs|
  {
    if n == 0 then RefNames(c.top) else AllRefNames(c, n - 1) + RefNames(c.defs[n - 1].schema)
  }

  lemma {:induction false} RefNamesAreAmong(c: Contract, n: nat)
    requires n <= |c.defs|
    ensures RefNames(c.top) <= AllRefNames(c, n)
    ensures forall i :: 0 <= i < n ==> RefNames(c.defs[i].schema) <= AllRefNames(c, n)
  {
    hide RefNames;
    if n > 0 {
      RefNamesAreAmong(c, n - 1);
    }
  }

  /** More than the height of any schema of a contract. */
  function Above(c: Contract, n: nat): (m: nat)
    requires n <= |c.defs|
  {
    if n == 0 then 1 + Height(c.top) else Above(c, n - 1) + Height(c.defs[n - 1].schema)
  }

  lemma {:induction false} AllAreBelow(c: Contract, n: nat)
    requires n <= |c.defs|
    ensures Height(c.top) < Above(c, n)
    ensures forall i :: 0 <= i < n ==> Height(c.defs[i].schema) < Above(c, n)
  {
    hide Height;
    if n > 0 {
      AllAreBelow(c, n - 1);
    }
  }

  /** Each of these names beside itself. */
  function Twins(names: set<string>): set<Pair> {
    set x | x in names :: (x, x)
  }

  /** What stands side by side has grown, and its left hand is inside s. */
  ghost predicate GoesOn(s: Schema, step: Step) {
    Grows(step.0, step.1) && step.0 in Kids(s)
  }

  ghost predicate AllGoOn(s: Schema, steps: seq<Step>) {
    forall i :: 0 <= i < |steps| ==> GoesOn(s, steps[i])
  }

  lemma {:induction false} BothGoOn(s: Schema, first: seq<Step>, rest: seq<Step>)
    requires AllGoOn(s, first) && AllGoOn(s, rest)
    ensures AllGoOn(s, first + rest)
  {
    hide GoesOn;
  }

  lemma {:induction false} BesideGoOn(s: Schema, x: Option<Schema>, y: Option<Schema>)
    requires x.Some? && y.Some? ==> Grows(x.value, y.value) && x.value in Kids(s)
    ensures AllGoOn(s, Beside(x, y))
  {
    hide Grows, Kids;
  }

  /** Whatever stands side by side in two schemas of which one grew into the other has grown too. */
  lemma {:induction false} StepsGrow(s: Schema, t: Schema)
    requires Grows(s, t)
    ensures AllGoOn(s, StepsInside(s, t))
  {
    hide Kids, Lookup, Stops, OldSteps, NewSteps, Grows, Beside, Items, Extra, Props, AllGoOn, Types;
    AreKids(s);
    GrownInside(s, t);
    NoneGoOn(s);
    BesideGoOn(s, Items(s), Items(t));
    BesideGoOn(s, Extra(s), Extra(t));
    var olds, news := OldSteps(s, t, |Props(s)|), NewSteps(s, t, |Props(t)|);
    OldStepsGrow(s, t, |Props(s)|);
    NewStepsGrow(s, t, |Props(t)|);
    BothGoOn(s, olds, news);
    BothGoOn(s, olds + news, Beside(Extra(s), Extra(t)));
    BothGoOn(s, Beside(Items(s), Items(t)), KeySteps(s, t));
  }

  lemma {:induction false} NoneGoOn(s: Schema)
    ensures AllGoOn(s, [])
  {
  }

  lemma {:induction false} GrownInside(s: Schema, t: Schema)
    requires Grows(s, t)
    ensures Items(s).Some? == Items(t).Some? && (Items(s).Some? ==> Grows(Items(s).value, Items(t).value))
    ensures Extra(s).Some? == Extra(t).Some? && (Extra(s).Some? ==> Grows(Extra(s).value, Extra(t).value))
    ensures forall i :: 0 <= i < |Props(s)| ==> KeyGrows(s, t, i)
    ensures forall i :: 0 <= i < |Props(t)| ==> KeyIsNew(s, t, i)
    ensures SameElements(Types(s), Types(t)) && SameElements(Enums(s), Enums(t))
  {
    hide KeyGrows, KeyIsNew;
  }

  lemma {:induction false} OldStepsGrow(s: Schema, t: Schema, n: nat)
    requires Grows(s, t) && n <= |Props(s)|
    ensures AllGoOn(s, OldSteps(s, t, n))
  {
    hide Kids, Lookup, Props, Extra, Grows, AllGoOn, Beside;
    NoneGoOn(s);
    AreKids(s);
    GrownInside(s, t);
    if n > 0 {
      OldStepsGrow(s, t, n - 1);
      var p := Props(s)[n - 1];
      var sub := Lookup(Props(t), p.name);
      assert KeyGrows(s, t, n - 1) && p.schema in Kids(s);
      BesideGoOn(s, Some(p.schema), if sub.Some? then sub else Extra(t));
      BothGoOn(s, OldSteps(s, t, n - 1), OldStep(t, p));
    }
  }

  lemma {:induction false} NewStepsGrow(s: Schema, t: Schema, n: nat)
    requires Grows(s, t) && n <= |Props(t)|
    ensures AllGoOn(s, NewSteps(s, t, n))
  {
    hide Kids, Lookup, Props, Extra, Grows, AllGoOn, Beside;
    NoneGoOn(s);
    AreKids(s);
    GrownInside(s, t);
    if n > 0 {
      NewStepsGrow(s, t, n - 1);
      var p := Props(t)[n - 1];
      assert KeyIsNew(s, t, n - 1);
      if Lookup(Props(s), p.name).None? {
        BesideGoOn(s, Extra(s), Some(p.schema));
      }
      BothGoOn(s, NewSteps(s, t, n - 1), NewStep(s, p));
    }
  }

  lemma {:induction false} SameElementsAreSame(s: Schema, t: Schema)
    requires SameElements(Types(s), Types(t)) && SameElements(Enums(s), Enums(t))
    ensures SameTypes(Types(s), Types(t)) && SameEnums(s, t)
  {
    hide Types, Enums;
    var a, b := Enums(s), Enums(t);
    if a != [] {
      assert a[0] in b;
    }
    if b != [] {
      assert b[0] in a;
    }
  }

  /** A schema agrees with what it has grown into. */
  lemma {:induction false} GrownAgrees(a: Contract, b: Contract, names: set<string>, n: nat, s: Schema, t: Schema)
    requires Grows(s, t) && n > Height(s) && RefNames(s) <= names
    ensures Agree(a, b, Twins(names), n, s, t)
    decreases n, 0
  {
    hide Grows, Bodies, Height;
    if s.Ref? {
      RefGrows(s, t);
    } else {
      BodyGrows(s, t);
      GrownBodiesAgree(a, b, names, n - 1, s, t);
    }
  }

  lemma {:induction false} RefGrows(s: Schema, t: Schema)
    requires Grows(s, t) && s.Ref?
    ensures t == s
  {
  }

  lemma {:induction false} BodyGrows(s: Schema, t: Schema)
    requires Grows(s, t) && s.Body?
    ensures t.Body?
  {
  }

  lemma {:induction false} GrownBodiesAgree(a: Contract, b: Contract, names: set<string>, n: nat, s: Schema, t: Schema)
    requires Grows(s, t) && n >= Height(s) && RefNames(s) <= names
    ensures Bodies(a, b, Twins(names), n, s, t)
    decreases n, 2
  {
    hide Grows, Height, RefNames, Agree, Kids, Lookup, Twins, SameTypes, SameEnums, Types, Enums, Props, Extra, Items;
    var all := Twins(names);
    GrownInside(s, t);
    SameElementsAreSame(s, t);
    AreKids(s);
    forall x, y | x in Kids(s) && Grows(x, y) ensures Agree(a, b, all, n, x, y) {
      KidAgrees(a, b, names, n, s, x, y);
    }
    forall i | 0 <= i < |Props(s)| ensures OldKey(a, b, all, n, s, t, Props(s)[i]) {
      assert KeyGrows(s, t, i);
    }
    forall i | 0 <= i < |Props(t)| ensures NewKey(a, b, all, n, s, t, Props(t)[i]) {
      assert KeyIsNew(s, t, i);
    }
  }

  lemma {:induction false} KidAgrees(a: Contract, b: Contract, names: set<string>, n: nat, s: Schema, x: Schema, y: Schema)
    requires n >= Height(s) && RefNames(s) <= names && x in Kids(s) && Grows(x, y)
    ensures Agree(a, b, Twins(names), n, x, y)
    decreases n, 1
  {
    hide Grows, Agree, Kids, Height, RefNames;
    if s.Body? {
      KidIsLower(s, x);
      KidRefersToNoMore(s, x);
      GrownAgrees(a, b, names, n, x, y);
    } else {
      RefHasNoKids(s);
    }
  }

  lemma {:induction false} RefHasNoKids(s: Schema)
    requires s.Ref?
    ensures Kids(s) == []
  {
  }

  /** What a name stands for grows into what it stands for in the contract that has grown. */
  lemma {:induction false} ResolvedGrows(a: Contract, b: Contract, name: string)
    requires ContractGrows(a, b)
    ensures
      var s, t := Resolve(a, Ref(name)), Resolve(b, Ref(name));
      && Grows(s, t) && (s == Ref(name) || exists k :: 0 <= k < |a.defs| && a.defs[k].schema == s)
  {
    hide Grows;
    NamedAlike(a.defs, b.defs, name);
    if Lookup(a.defs, name).None? {
      RefGrowsNot(name);
    }
  }

  lemma {:induction false} RefGrowsNot(name: string)
    ensures Grows(Ref(name), Ref(name))
  {
  }

  lemma {:induction false} NamedAlike(a: seq<Property>, b: seq<Property>, name: string)
    requires |a| == |b| && forall i :: 0 <= i < |a| ==> a[i].name == b[i].name
    ensures Lookup(a, name).Some? == Lookup(b, name).Some?
    ensures Lookup(a, name).Some? ==>
      exists k :: 0 <= k < |a| && a[k].schema == Lookup(a, name).value && b[k].schema == Lookup(b, name).value
  {
    if a != [] && a[0].name != name {
      NamedAlike(a[1..], b[1..], name);
      if Lookup(a, name).Some? {
        var k :| 0 <= k < |a[1..]| && a[1..][k].schema == Lookup(a, name).value && b[1..][k].schema == Lookup(b, name).value;
        assert a[k + 1] == a[1..][k] && b[k + 1] == b[1..][k];
      }
    }
  }

  /** A contract agrees with what it has grown into. */
  lemma {:induction false} GrownContractAgrees(a: Contract, b: Contract)
    requires ContractGrows(a, b)
    ensures Agreed(a, b)
  {
    hide Grows, Height, RefNames, Agree, Bodies, ContractGrows, Resolve;
    var names, m := AllRefNames(a, |a.defs|), Above(a, |a.defs|);
    RefNamesAreAmong(a, |a.defs|);
    AllAreBelow(a, |a.defs|);
    forall pair | pair in Twins(names) ensures Grounded(a, b, Twins(names), pair) {
      ResolvedGrows(a, b, pair.0);
      var s, t := Resolve(a, Ref(pair.0)), Resolve(b, Ref(pair.1));
      NameIsLow(pair.0);
      GrownBodiesAgree(a, b, names, m, s, t);
    }
    TopsGrow(a, b);
    GrownAgrees(a, b, names, m, a.top, b.top);
  }

  lemma {:induction false} NameIsLow(name: string)
    ensures Height(Ref(name)) == 0 && RefNames(Ref(name)) == {name}
  {
  }

  lemma {:induction false} TopsGrow(a: Contract, b: Contract)
    requires ContractGrows(a, b)
    ensures Grows(a.top, b.top)
  {
  }

  // ----- and comparing it ends -----

  lemma {:induction false} GrownLeadsTo(a: Contract, b: Contract, names: set<string>, n: nat, s: Schema, t: Schema)
    requires Grows(s, t) && n > Height(s) && RefNames(s) <= names
    ensures LeadsTo(a, b, Twins(names), n, s, t)
    decreases n, 0
  {
    hide Grows, AllLeadTo, Height;
    if s.Ref? {
      RefGrows(s, t);
    } else {
      BodyGrows(s, t);
      GrownAllLeadTo(a, b, names, n - 1, s, t);
    }
  }

  lemma {:induction false} GrownAllLeadTo(a: Contract, b: Contract, names: set<string>, n: nat, s: Schema, t: Schema)
    requires Grows(s, t) && n >= Height(s) && RefNames(s) <= names
    ensures AllLeadTo(a, b, Twins(names), n, StepsInside(s, t))
    decreases n, 2
  {
    hide Grows, LeadsTo, Height, RefNames, Kids, StepsInside, Twins;
    StepsGrow(s, t);
    var steps := StepsInside(s, t);
    forall i | 0 <= i < |steps| ensures LeadsTo(a, b, Twins(names), n, steps[i].0, steps[i].1) {
      assert GoesOn(s, steps[i]);
      KidLeadsTo(a, b, names, n, s, steps[i].0, steps[i].1);
    }
  }

  lemma {:induction false} KidLeadsTo(a: Contract, b: Contract, names: set<string>, n: nat, s: Schema, x: Schema, y: Schema)
    requires n >= Height(s) && RefNames(s) <= names && x in Kids(s) && Grows(x, y)
    ensures LeadsTo(a, b, Twins(names), n, x, y)
    decreases n, 1
  {
    hide Grows, LeadsTo, Kids, Height, RefNames;
    if s.Body? {
      KidIsLower(s, x);
      KidRefersToNoMore(s, x);
      GrownLeadsTo(a, b, names, n, x, y);
    } else {
      RefHasNoKids(s);
    }
  }

  /** Comparing a contract with what it has grown into comes back. */
  lemma {:induction false} GrownFinishes(a: Contract, b: Contract)
    requires ContractGrows(a, b)
    ensures Finishes(a, b, {}, a.top, b.top)
  {
    hide Grows, Height, RefNames, LeadsTo, AllLeadTo, ContractGrows, Resolve, StepsInside, Finishes;
    var names, m := AllRefNames(a, |a.defs|), Above(a, |a.defs|);
    RefNamesAreAmong(a, |a.defs|);
    AllAreBelow(a, |a.defs|);
    forall pair | pair in Twins(names) ensures PairLeadsTo(a, b, Twins(names), m, pair) {
      ResolvedGrows(a, b, pair.0);
      var s, t := Resolve(a, Ref(pair.0)), Resolve(b, Ref(pair.1));
      NameIsLow(pair.0);
      GrownAllLeadTo(a, b, names, m, s, t);
    }
    TopsGrow(a, b);
    GrownLeadsTo(a, b, names, m, a.top, b.top);
    assert Closed(a, b, Twins(names), m);
    EndsExactly(a, b, a.top, b.top);
  }

  /** Comparing a contract with one that was made of it by an edit, or with itself, comes back and reports nothing that
      breaks, and nothing but keys that were added. */
  method CompareEdited(prev: Contract, next: Contract) returns (changes: seq<Change>)
    requires ContractNamesOnce(prev) && EditedContract(prev, next)
    ensures NothingBreaks(changes) && forall i :: 0 <= i < |changes| ==> changes[i].kind == Added
  {
    hide ContractNamesOnce, EditedContract, ContractGrows, Agreed, Finishes, WellShaped, Compatible;
    EditedContractGrows(prev, next);
    GrownContractAgrees(prev, next);
    GrownFinishes(prev, next);
    changes := CompareContracts(prev, next);
  }

  // ----- where a key is named twice -----

  lemma {:induction false} UnlikeDisagree(a: Contract, b: Contract, all: set<Pair>, n: nat, s: Schema, t: Schema)
    requires !Followed(s, t, all) && !SameTypes(Types(Resolve(a, s)), Types(Resolve(b, t)))
    ensures !Agree(a, b, all, n, s, t)
  {
  }

  /** A key named twice is compared with the first of its descriptions: such a contract breaks with itself. */
  lemma {:induction false} NamedTwiceBreaks(name: string)
    ensures
      var s := Body([ObjectKind], [], true, [Property(name, Ref("a")), Property(name, Body([StringKind], [], false, [], [], None, None))], [], None, None);
      !Agreed(Contract(s, []), Contract(s, []))
  {
    var u := Body([StringKind], [], false, [], [], None, None);
    var s := Body([ObjectKind], [], true, [Property(name, Ref("a")), Property(name, u)], [], None, None);
    var c := Contract(s, []);
    forall all: set<Pair>, n: nat ensures !Agree(c, c, all, n, s, s) {
      if Agree(c, c, all, n, s, s) {
        LookupIsFirst(Props(s), name, 0);
        assert Resolve(c, s) == s && Bodies(c, c, all, n - 1, s, s);
        assert |Props(s)| == 2 && OldKey(c, c, all, n - 1, s, s, Props(s)[1]);
        assert Agree(c, c, all, n - 1, u, Ref("a"));
        assert Types(u)[0] !in Types(Ref("a"));
        UnlikeDisagree(c, c, all, n - 1, u, Ref("a"));
      }
    }
  }
}
