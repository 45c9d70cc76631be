/**
 Output contracts: the schema of what a definition produces, and whether a document fits it
 (internal/schema/schema.go, internal/schema/validate.go).
 */
module Contracts {
  import opened Lines
  import opened Json

  datatype Kind = ObjectKind | ArrayKind | StringKind | IntegerKind | NumberKind | BooleanKind | NullKind

  /** A subschema: a reference into the $defs of its document, or a description. An empty list of types allows
      any; `states` tells a list of properties, which may be empty, from none at all; and `extra` describes the
      keys that are not named. */
  datatype Schema =
    | Ref(name: string)
    | Body(types: seq<Kind>, enums: seq<string>, states: bool, properties: seq<Property>, required: seq<string>,
           extra: Option<Schema>, items: Option<Schema>)

  datatype Property = Property(name: string, schema: Schema)

  /** A schema with the $defs its references are resolved against. */
  datatype Contract = Contract(top: Schema, defs: seq<Property>)

  // ----- what a schema says; a reference by itself says nothing -----

  function Types(s: Schema): seq<Kind> {
    if s.Ref? then [] else s.types
  }

  function Enums(s: Schema): seq<string> {
    if s.Ref? then [] else s.enums
  }

  function Props(s: Schema): seq<Property> {
    if s.Ref? || !s.states then [] else s.properties
  }

  predicate NamesKeys(s: Schema) {
    s.Body? && s.states
  }

  function Extra(s: Schema): Option<Schema> {
    if s.Ref? then None else s.extra
  }

  function Items(s: Schema): Option<Schema> {
    if s.Ref? then None else s.items
  }

  predicate IsRequired(s: Schema, name: string) {
    s.Body? && name in s.required
  }

  /** The first property of this name (Prop, Def). */
  function Lookup(props: seq<Property>, name: string): (found: Option<Schema>)
    ensures found.Some? ==> exists i :: 0 <= i < |props| && props[i] == Property(name, found.value)
    ensures found.None? ==> forall i :: 0 <= i < |props| ==> props[i].name != name
  {
    if props == [] then None
    else if props[0].name == name then
      assert props[0] == Property(name, props[0].schema);
      Some(props[0].schema)
    else
      var found := Lookup(props[1..], name);
      assert forall i :: 1 <= i < |props| ==> props[i] == props[1..][i - 1];
      found
  }

  /** The property found is the first of its name. */
  lemma {:induction false} LookupIsFirst(props: seq<Property>, name: string, k: nat)
    requires k < |props| && props[k].name == name && forall i :: 0 <= i < k ==> props[i].name != name
    ensures Lookup(props, name) == Some(props[k].schema)
  {
    if k > 0 {
      assert forall i :: 1 <= i < |props| ==> props[i] == props[1..][i - 1];
      LookupIsFirst(props[1..], name, k - 1);
    }
  }

  /** What a reference means: one step, whatever it leads to. */
  function Resolve(c: Contract, s: Schema): Schema {
    if s.Ref? && Lookup(c.defs, s.name).Some? then Lookup(c.defs, s.name).value else s
  }

  predicate Dangling(c: Contract, s: Schema) {
    s.Ref? && Lookup(c.defs, s.name).None?
  }

  // ----- whether a document fits -----

  /** The JSON type of a value; a number with no fractional part is an integer. */
  function KindOf(v: Json): Kind {
    match v
    case Null => NullKind
    case Bool(_) => BooleanKind
    case Number(n) => if n.Floor as real == n then IntegerKind else NumberKind
    case Str(_) => StringKind
    case Arr(_) => ArrayKind
    case Obj(_) => ObjectKind
  }

  predicate TypeFits(types: seq<Kind>, k: Kind) {
    types == [] || k in types || (k == IntegerKind && NumberKind in types)
  }

  function TextOf(v: Json): string {
    if v.Str? then v.text else ""
  }

  /** A document has every key the schema requires. */
  predicate HasRequired(s: Schema, members: seq<Member>) {
    s.Body? ==> forall i :: 0 <= i < |s.required| ==> Get(members, s.required[i]).Some?
  }

  /** A document fits a schema. */
  predicate Fits(c: Contract, s: Schema, v: Json)
    decreases v, 3
  {
    !Dangling(c, s) && FitsBody(c, Resolve(c, s), v)
  }

  predicate FitsBody(c: Contract, s: Schema, v: Json)
    decreases v, 2
  {
    && TypeFits(Types(s), KindOf(v))
    && (Enums(s) == [] || TextOf(v) in Enums(s))
    && match v
       case Obj(members) => HasRequired(s, members) && MembersFit(c, s, members)
       case Arr(items) => Items(s).Some? ==> ItemsFit(c, Items(s).value, items)
       case _ => true
  }

  predicate ItemsFit(c: Contract, s: Schema, items: seq<Json>)
    decreases items, 1
  {
    items == [] || (Fits(c, s, items[0]) && ItemsFit(c, s, items[1..]))
  }

  /** Every key is named, or is one the schema lets through. */
  predicate MembersFit(c: Contract, s: Schema, members: seq<Member>)
    decreases members, 1
  {
    members == [] || (MemberFits(c, s, members[0]) && MembersFit(c, s, members[1..]))
  }

  predicate MemberFits(c: Contract, s: Schema, m: Member)
    decreases m, 0
  {
    var named := Lookup(Props(s), m.key);
    if named.Some? then Fits(c, named.value, m.value)
    else if Extra(s).Some? then Fits(c, Extra(s).value, m.value)
    else !NamesKeys(s)
  }

  // ----- what fitting comes to -----

  /** The value is of one of the types; a whole number is an integer, and a number too. */
  predicate IsOfType(v: Json, types: seq<Kind>) {
    || types == []
    || match v
       case Null => NullKind in types
       case Bool(_) => BooleanKind in types
       case Number(n) => NumberKind in types || (n == n.Floor as real && IntegerKind in types)
       case Str(_) => StringKind in types
       case Arr(_) => ArrayKind in types
       case Obj(_) => ObjectKind in types
  }

  /** The value is one of those that are listed; what is no text counts as the empty one. */
  predicate IsListed(v: Json, enums: seq<string>) {
    exists i :: 0 <= i < |enums| && enums[i] == if v.Str? then v.text else ""
  }

  predicate HasKey(members: seq<Member>, name: string) {
    exists i :: 0 <= i < |members| && members[i].key == name
  }

  /** The i-th property is the first of that name. */
  predicate IsTheFirst(props: seq<Property>, i: nat, name: string) {
    i < |props| && props[i].name == name && forall j :: 0 <= j < i ==> props[j].name != name
  }

  /** The value under a key fits the first property of that name; and where there is none, what describes the keys that
      are not named, or nothing if no key is. */
  ghost predicate IsAllowed(c: Contract, s: Schema, m: Member)
    requires s.Body?
  {
    && (forall i: nat :: s.states && IsTheFirst(s.properties, i, m.key) ==> Fits(c, s.properties[i].schema, m.value))
    && ((!s.states || forall i :: 0 <= i < |s.properties| ==> s.properties[i].name != m.key) ==>
          if s.extra.Some? then Fits(c, s.extra.value, m.value) else !s.states)
  }

  /** A document fits a description exactly when it is of one of its types and one of its values, has every key it
      requires, none it does not allow, and elements that fit. */
  lemma {:induction false} FitsExactly(c: Contract, s: Schema, v: Json)
    requires s.Body?
    ensures Fits(c, s, v) <==>
      && IsOfType(v, s.types)
      && (s.enums != [] ==> IsListed(v, s.enums))
      && (v.Obj? ==> forall name :: name in s.required ==> HasKey(v.members, name))
      && (v.Obj? ==> forall i :: 0 <= i < |v.members| ==> IsAllowed(c, s, v.members[i]))
      && (v.Arr? && s.items.Some? ==> forall i :: 0 <= i < |v.items| ==> Fits(c, s.items.value, v.items[i]))
  {
    hide Fits, MembersFit, ItemsFit, HasRequired, IsAllowed, IsOfType, IsListed, TypeFits, Get;
    FitsUnfolds(c, s, v);
    TypesFitExactly(v, s.types);
    TextIsListed(v, s.enums);
    match v
    case Obj(members) =>
      MembersFitExactly(c, s, members);
      RequiredExactly(s, members);
    case Arr(items) =>
      if s.items.Some? {
        ItemsFitExactly(c, s.items.value, items);
      }
    case _ =>
  }

  lemma {:induction false} FitsUnfolds(c: Contract, s: Schema, v: Json)
    requires s.Body?
    ensures Fits(c, s, v) <==>
      && TypeFits(s.types, KindOf(v))
      && (s.enums == [] || TextOf(v) in s.enums)
      && (v.Obj? ==> HasRequired(s, v.members) && MembersFit(c, s, v.members))
      && (v.Arr? && s.items.Some? ==> ItemsFit(c, s.items.value, v.items))
  {
    hide MembersFit, ItemsFit, HasRequired;
  }

  lemma {:induction false} TypesFitExactly(v: Json, types: seq<Kind>)
    ensures TypeFits(types, KindOf(v)) <==> IsOfType(v, types)
  {
  }

  lemma {:induction false} TextIsListed(v: Json, enums: seq<string>)
    ensures TextOf(v) in enums <==> IsListed(v, enums)
  {
  }

  lemma {:induction false} RequiredExactly(s: Schema, members: seq<Member>)
    requires s.Body?
    ensures HasRequired(s, members) <==> forall name :: name in s.required ==> HasKey(members, name)
  {
    hide Get;
    forall name ensures Get(members, name).Some? <==> HasKey(members, name) {
      KeyIsThere(members, name);
    }
    if HasRequired(s, members) {
      forall name | name in s.required ensures HasKey(members, name) {
        var i :| 0 <= i < |s.required| && s.required[i] == name;
      }
    }
  }

  lemma {:induction false} KeyIsThere(members: seq<Member>, name: string)
    ensures Get(members, name).Some? <==> HasKey(members, name)
  {
    var n := Find(members, name);
  }

  lemma {:induction false} MemberFitsExactly(c: Contract, s: Schema, m: Member)
    requires s.Body?
    ensures MemberFits(c, s, m) <==> IsAllowed(c, s, m)
  {
    hide Fits;
    if Lookup(Props(s), m.key).Some? {
      var found := Lookup(Props(s), m.key).value;
      var k :| 0 <= k < |s.properties| && s.properties[k] == Property(m.key, found);
      var i := FirstOf(s.properties, m.key, k);
      LookupIsFirst(s.properties, m.key, i);
      assert forall j: nat :: IsTheFirst(s.properties, j, m.key) ==> j == i;
    }
  }

  lemma {:induction false} FirstOf(props: seq<Property>, name: string, k: nat) returns (i: nat)
    requires k < |props| && props[k].name == name
    ensures IsTheFirst(props, i, name)
  {
    i := 0;
    while props[i].name != name
      invariant i <= k && forall j :: 0 <= j < i ==> props[j].name != name
      decreases k - i
    {
      i := i + 1;
    }
  }

  lemma {:induction false} MembersFitExactly(c: Contract, s: Schema, members: seq<Member>)
    requires s.Body?
    ensures MembersFit(c, s, members) <==> forall i :: 0 <= i < |members| ==> IsAllowed(c, s, members[i])
  {
    hide MemberFits, IsAllowed;
    if members != [] {
      MemberFitsExactly(c, s, members[0]);
      MembersFitExactly(c, s, members[1..]);
      assert forall i :: 1 <= i < |members| ==> members[i] == members[1..][i - 1];
      assert forall i :: 0 <= i < |members| - 1 ==> members[1..][i] == members[i + 1];
    }
  }

  lemma {:induction false} ItemsFitExactly(c: Contract, s: Schema, items: seq<Json>)
    ensures ItemsFit(c, s, items) <==> forall i :: 0 <= i < |items| ==> Fits(c, s, items[i])
  {
    hide Fits;
    if items != [] {
      ItemsFitExactly(c, s, items[1..]);
      assert forall i :: 1 <= i < |items| ==> items[i] == items[1..][i - 1];
      assert forall i :: 0 <= i < |items| - 1 ==> items[1..][i] == items[i + 1];
    }
  }

  // ----- the checker -----

  /** The checker: every place a document does not fit is appended to one list (validate, validateObject). */
  class Validator {
    const contract: Contract
    var errs: seq<string>

    constructor (contract: Contract)
      ensures this.contract == contract && errs == []
    {
      this.contract, errs := contract, [];
    }

    method Validate(s: Schema, v: Json, path: string)
      modifies this
      ensures old(errs) <= errs && (errs == old(errs) <==> Fits(contract, s, v))
      decreases v, 3
    {
      if Dangling(contract, s) {
        errs := errs + [path];
        return;
      }
      var t := Resolve(contract, s);
      if !TypeFits(Types(t), KindOf(v)) {
        errs := errs + [path];
        return;
      }
      ghost var before := errs;
      if Enums(t) != [] && TextOf(v) !in Enums(t) {
        errs := errs + [path];
      }
      match v
      case Obj(members) =>
        ValidateObject(t, members, path);
      case Arr(items) =>
        if Items(t).Some? {
          for i := 0 to |items|
            invariant before <= errs
            invariant errs == before <==> (Enums(t) == [] || TextOf(v) in Enums(t)) && ItemsFit(contract, Items(t).value, items[..i])
          {
            ItemsFitSnoc(contract, Items(t).value, items[..i], items[i]);
            assert items[..i + 1] == items[..i] + [items[i]];
            Validate(Items(t).value, items[i], path + "[]");
          }
          assert items[..|items|] == items;
        }
      case _ =>
    }

    method ValidateObject(s: Schema, members: seq<Member>, path: string)
      modifies this
      ensures old(errs) <= errs
      ensures errs == old(errs) <==> HasRequired(s, members) && MembersFit(contract, s, members)
      decreases members, 2
    {
      if s.Body? {
        for i := 0 to |s.required|
          invariant old(errs) <= errs
          invariant errs == old(errs) <==> forall j :: 0 <= j < i ==> Get(members, s.required[j]).Some?
        {
          if Get(members, s.required[i]).None? {
            errs := errs + [path];
          }
        }
      }
      ghost var required := HasRequired(s, members);
      for i := 0 to |members|
        invariant old(errs) <= errs
        invariant errs == old(errs) <==> required && MembersFit(contract, s, members[..i])
      {
        var m := members[i];
        MembersFitSnoc(contract, s, members[..i], m);
        assert members[..i + 1] == members[..i] + [m];
        var named := Lookup(Props(s), m.key);
        if named.Some? {
          Validate(named.value, m.value, path + "." + m.key);
        } else if Extra(s).Some? {
          Validate(Extra(s).value, m.value, path + "." + m.key);
        } else if NamesKeys(s) {
          errs := errs + [path];
        }
      }
      assert members[..|members|] == members;
    }
  }

  lemma {:induction false} ItemsFitSnoc(c: Contract, s: Schema, items: seq<Json>, v: Json)
    ensures ItemsFit(c, s, items + [v]) <==> ItemsFit(c, s, items) && Fits(c, s, v)
  {
    hide Fits;
    var all := items + [v];
    if items == [] {
      assert all[1..] == [];
    } else {
      assert all[1..] == items[1..] + [v];
      ItemsFitSnoc(c, s, items[1..], v);
    }
  }

  lemma {:induction false} MembersFitSnoc(c: Contract, s: Schema, members: seq<Member>, m: Member)
    ensures MembersFit(c, s, members + [m]) <==> MembersFit(c, s, members) && MemberFits(c, s, m)
  {
    hide MemberFits;
    var all := members + [m];
    if members == [] {
      assert all[1..] == [];
    } else {
      assert all[1..] == members[1..] + [m];
      MembersFitSnoc(c, s, members[1..], m);
    }
  }
}
