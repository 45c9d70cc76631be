/**
 Which changes to an output contract break somebody (internal/schema/compat.go). The comparison follows two
 recursive schemas side by side and stops at a pair of references it has followed before; what it takes for
 granted there is what it checked there.
 */
module Compatibility {
  import opened Lines
  import opened Json
  import opened Contracts

  datatype ChangeKind = Removed | TypeChanged | Required | Optional | EnumChanged | KeysChanged | Added

  datatype Change = Change(path: string, kind: ChangeKind, breaking: bool)

  /** No change is a breaking one. */
  predicate NothingBreaks(changes: seq<Change>) {
    forall i :: 0 <= i < |changes| ==> !changes[i].breaking
  }

  /** A change breaks somebody unless it is a key that was added. */
  predicate KindsTell(changes: seq<Change>) {
    forall i :: 0 <= i < |changes| ==> (changes[i].breaking <==> changes[i].kind != Added)
  }

  predicate SameTypes(a: seq<Kind>, b: seq<Kind>) {
    (forall i :: 0 <= i < |a| ==> a[i] in b) && (forall i :: 0 <= i < |b| ==> b[i] in a)
  }

  /** The elements of a that b lacks (minus). */
  function Minus(a: seq<string>, b: seq<string>): (out: seq<string>)
    ensures out == [] <==> forall i :: 0 <= i < |a| ==> a[i] in b
  {
    if a == [] then []
    else
      var n := |a| - 1;
      if a[n] in b then Minus(a[..n], b) else Minus(a[..n], b) + [a[n]]
  }

  /** Both limit their values to the same ones, or neither does. */
  predicate SameEnums(s: Schema, t: Schema) {
    (Enums(s) == []) == (Enums(t) == []) && Minus(Enums(s), Enums(t)) == [] && Minus(Enums(t), Enums(s)) == []
  }

  // ----- what a comparison without breaking changes has checked -----

  type Pair = (string, string)

  /** A pair of references already followed. */
  predicate Followed(s: Schema, t: Schema, seen: set<Pair>) {
    s.Ref? && t.Ref? && (s.name, t.name) in seen
  }

  /** The two schemas agree, taking the pairs in `seen` for granted, as far as n steps of the comparison go. */
  ghost predicate Agree(a: Contract, b: Contract, seen: set<Pair>, n: nat, s: Schema, t: Schema)
    decreases n, 0
  {
    Followed(s, t, seen) || (n > 0 && Bodies(a, b, seen, n - 1, Resolve(a, s), Resolve(b, t)))
  }

  ghost predicate Bodies(a: Contract, b: Contract, seen: set<Pair>, n: nat, s: Schema, t: Schema)
    decreases n, 2
  {
    && SameTypes(Types(s), Types(t))
    && SameEnums(s, t)
    && BothAgree(a, b, seen, n, Items(s), Items(t))
    && (forall i :: 0 <= i < |Props(s)| ==> OldKey(a, b, seen, n, s, t, Props(s)[i]))
    && (forall i :: 0 <= i < |Props(t)| ==> NewKey(a, b, seen, n, s, t, Props(t)[i]))
    && BothAgree(a, b, seen, n, Extra(s), Extra(t))
  }

  /** Both are there and agree, or neither is. */
  ghost predicate BothAgree(a: Contract, b: Contract, seen: set<Pair>, n: nat, s: Option<Schema>, t: Option<Schema>)
    decreases n, 1
  {
    s.Some? == t.Some? && (s.Some? && t.Some? ==> Agree(a, b, seen, n, s.value, t.value))
  }

  /** A key the old schema names is as required as it was, and agrees with what the new one makes of it. */
  ghost predicate OldKey(a: Contract, b: Contract, seen: set<Pair>, n: nat, s: Schema, t: Schema, p: Property)
    decreases n, 1
  {
    var sub := Lookup(Props(t), p.name);
    if sub.Some? then
      IsRequired(s, p.name) == IsRequired(t, p.name) && Agree(a, b, seen, n, p.schema, sub.value)
    else Extra(t).Some? && !IsRequired(s, p.name) && Agree(a, b, seen, n, p.schema, Extra(t).value)
  }

  /** A key only the new schema names is not required, and agrees with what the old one made of it. */
  ghost predicate NewKey(a: Contract, b: Contract, seen: set<Pair>, n: nat, s: Schema, t: Schema, p: Property)
    decreases n, 1
  {
    Lookup(Props(s), p.name).None? ==>
      !IsRequired(t, p.name) && (Extra(s).Some? ==> Agree(a, b, seen, n, Extra(s).value, p.schema))
  }

  /** What a pair of references leads to has been checked. */
  ghost predicate Grounded(a: Contract, b: Contract, seen: set<Pair>, pair: Pair) {
    exists n: nat :: Bodies(a, b, seen, n, Resolve(a, Ref(pair.0)), Resolve(b, Ref(pair.1)))
  }

  ghost predicate AllGrounded(a: Contract, b: Contract, seen: set<Pair>, pairs: set<Pair>) {
    forall pair :: pair in pairs ==> Grounded(a, b, seen, pair)
  }

  lemma {:induction false} GroundedTogether(a: Contract, b: Contract, all: set<Pair>, before: set<Pair>, mid: set<Pair>, after: set<Pair>)
    requires AllGrounded(a, b, all, mid - before) && AllGrounded(a, b, all, after - mid)
    ensures AllGrounded(a, b, all, after - before)
  {
    hide Grounded;
    forall pair | pair in after - before ensures Grounded(a, b, all, pair) {
      if pair in mid {
        assert pair in mid - before;
      } else {
        assert pair in after - mid;
      }
    }
  }

  // ----- how the comparison runs -----

  /** Two schemas that stand side by side. */
  type Step = (Schema, Schema)

  function Beside(s: Option<Schema>, t: Option<Schema>): seq<Step> {
    if s.Some? && t.Some? then [(s.value, t.value)] else []
  }

  /** What a key of the old schema is compared with. */
  function OldStep(t: Schema, p: Property): seq<Step> {
    var sub := Lookup(Props(t), p.name);
    Beside(Some(p.schema), if sub.Some? then sub else Extra(t))
  }

  /** What a key of the new schema is compared with. */
  function NewStep(s: Schema, p: Property): seq<Step> {
    if Lookup(Props(s), p.name).Some? then [] else Beside(Extra(s), Some(p.schema))
  }

  function OldSteps(s: Schema, t: Schema, n: nat): seq<Step>
    requires n <= |Props(s)|
  {
    if n == 0 then [] else OldSteps(s, t, n - 1) + OldStep(t, Props(s)[n - 1])
  }

  function NewSteps(s: Schema, t: Schema, n: nat): seq<Step>
    requires n <= |Props(t)|
  {
    if n == 0 then [] else NewSteps(s, t, n - 1) + NewStep(s, Props(t)[n - 1])
  }

  /** What is compared inside two objects, in order (compareObject). */
  function KeySteps(s: Schema, t: Schema): seq<Step> {
    OldSteps(s, t, |Props(s)|) + NewSteps(s, t, |Props(t)|) + Beside(Extra(s), Extra(t))
  }

  /** What is compared inside two schemas, in order. */
  function StepsInside(s: Schema, t: Schema): seq<Step> {
    if Stops(s, t) then [] else Beside(Items(s), Items(t)) + KeySteps(s, t)
  }

  /** The pairs followed once the comparison of two schemas has come back, or None when it has not within n steps. */
  ghost function After(a: Contract, b: Contract, seen: set<Pair>, n: nat, s: Schema, t: Schema): Option<set<Pair>>
    decreases n, 0
  {
    if Followed(s, t, seen) then Some(seen)
    else if n == 0 then None
    else AfterAll(a, b, Noted(s, t, seen), n - 1, StepsInside(Resolve(a, s), Resolve(b, t)))
  }

  /** The same for several comparisons one after the other. */
  ghost function AfterAll(a: Contract, b: Contract, seen: set<Pair>, n: nat, steps: seq<Step>): Option<set<Pair>>
    decreases n, 1, |steps|
  {
    if steps == [] then Some(seen)
    else
      var m := |steps| - 1;
      var before := AfterAll(a, b, seen, n, steps[..m]);
      if before.None? then None else After(a, b, before.value, n, steps[m].0, steps[m].1)
  }

  lemma {:induction false} AfterOne(a: Contract, b: Contract, seen: set<Pair>, n: nat, s: Schema, t: Schema)
    ensures AfterAll(a, b, seen, n, []) == Some(seen)
    ensures AfterAll(a, b, seen, n, [(s, t)]) == After(a, b, seen, n, s, t)
  {
    hide After;
    assert [(s, t)][..0] == [];
  }

  lemma {:induction false} AfterBoth(a: Contract, b: Contract, seen: set<Pair>, n: nat, first: seq<Step>, rest: seq<Step>)
    ensures AfterAll(a, b, seen, n, first + rest) ==
      var before := AfterAll(a, b, seen, n, first);
      if before.None? then None else AfterAll(a, b, before.value, n, rest)
    decreases |rest|
  {
    hide After;
    if rest == [] {
      assert first + rest == first;
    } else {
      var m := |rest| - 1;
      assert (first + rest)[..|first| + m] == first + rest[..m];
      AfterBoth(a, b, seen, n, first, rest[..m]);
    }
  }

  /** A comparison that has come back comes back the same with more steps to take, and forgets no pair. */
  lemma {:induction false} AfterMore(a: Contract, b: Contract, seen: set<Pair>, n: nat, more: nat, s: Schema, t: Schema)
    requires After(a, b, seen, n, s, t).Some? && n <= more
    ensures After(a, b, seen, more, s, t) == After(a, b, seen, n, s, t) && seen <= After(a, b, seen, n, s, t).value
    decreases n, 0
  {
    hide StepsInside, AfterAll, Resolve;
    if !Followed(s, t, seen) {
      AfterAllMore(a, b, Noted(s, t, seen), n - 1, more - 1, StepsInside(Resolve(a, s), Resolve(b, t)));
    }
  }

  lemma {:induction false} AfterAllMore(a: Contract, b: Contract, seen: set<Pair>, n: nat, more: nat, steps: seq<Step>)
    requires AfterAll(a, b, seen, n, steps).Some? && n <= more
    ensures AfterAll(a, b, seen, more, steps) == AfterAll(a, b, seen, n, steps)
    ensures seen <= AfterAll(a, b, seen, n, steps).value
    decreases n, 1, |steps|
  {
    hide After;
    if steps != [] {
      var m := |steps| - 1;
      AfterAllMore(a, b, seen, n, more, steps[..m]);
      AfterMore(a, b, AfterAll(a, b, seen, n, steps[..m]).value, n, more, steps[m].0, steps[m].1);
    }
  }

  // ----- without a bound -----

  /** The comparison comes back. */
  ghost predicate Finishes(a: Contract, b: Contract, seen: set<Pair>, s: Schema, t: Schema) {
    exists n: nat :: After(a, b, seen, n, s, t).Some?
  }

  ghost predicate AllFinish(a: Contract, b: Contract, seen: set<Pair>, steps: seq<Step>) {
    exists n: nat :: AfterAll(a, b, seen, n, steps).Some?
  }

  /** The comparison of two schemas comes back exactly when they are a pair that has been followed, or everything
      compared inside them comes back, one after the other. */
  lemma {:induction false} FinishesInside(a: Contract, b: Contract, seen: set<Pair>, s: Schema, t: Schema)
    ensures Finishes(a, b, seen, s, t) <==>
      Followed(s, t, seen) || AllFinish(a, b, Noted(s, t, seen), StepsInside(Resolve(a, s), Resolve(b, t)))
  {
    hide AfterAll, StepsInside, Resolve;
    var later, steps := Noted(s, t, seen), StepsInside(Resolve(a, s), Resolve(b, t));
    if Followed(s, t, seen) {
      assert After(a, b, seen, 0, s, t).Some?;
    } else {
      if n: nat :| AfterAll(a, b, later, n, steps).Some? {
        assert After(a, b, seen, n + 1, s, t).Some?;
      }
      if n: nat :| After(a, b, seen, n, s, t).Some? {
        assert AfterAll(a, b, later, n - 1, steps).Some?;
      }
    }
  }

  /** Comparisons one after the other come back exactly when the last does after the ones before it have. */
  lemma {:induction false} AllFinishInTurn(a: Contract, b: Contract, seen: set<Pair>, steps: seq<Step>, s: Schema, t: Schema)
    ensures AllFinish(a, b, seen, [])
    ensures AllFinish(a, b, seen, steps + [(s, t)]) <==>
      AllFinish(a, b, seen, steps) &&
      exists n: nat :: AfterAll(a, b, seen, n, steps).Some? && Finishes(a, b, AfterAll(a, b, seen, n, steps).value, s, t)
  {
    hide After;
    var all := steps + [(s, t)];
    assert all[..|steps|] == steps;
    assert AfterAll(a, b, seen, 0, []).Some?;
    if n: nat :| AfterAll(a, b, seen, n, all).Some? {
      assert After(a, b, AfterAll(a, b, seen, n, steps).value, n, s, t).Some?;
    }
    if n: nat :| AfterAll(a, b, seen, n, steps).Some? && Finishes(a, b, AfterAll(a, b, seen, n, steps).value, s, t) {
      var mid := AfterAll(a, b, seen, n, steps).value;
      var k: nat :| After(a, b, mid, k, s, t).Some?;
      var most := n + k;
      AfterAllMore(a, b, seen, n, most, steps);
      AfterMore(a, b, mid, k, most, s, t);
      assert AfterAll(a, b, seen, most, all).Some?;
    }
  }

  // ----- what it takes for a comparison to end -----

  /** Every schema directly inside a schema. */
  function Kids(s: Schema): (kids: seq<Schema>)
    ensures s.Body? ==> forall i :: 0 <= i < |kids| ==> kids[i] < s
  {
    (if Items(s).Some? then [Items(s).value] else [])
    + seq(|Props(s)|, i requires 0 <= i < |Props(s)| => Props(s)[i].schema)
    + (if Extra(s).Some? then [Extra(s).value] else [])
  }

  /** The types have nothing in common to compare. */
  predicate Stops(s: Schema, t: Schema) {
    && !SameTypes(Types(s), Types(t))
    && !(ObjectKind in Types(s) && ObjectKind in Types(t))
    && !(ArrayKind in Types(s) && ArrayKind in Types(t))
  }

  /** The comparison of two schemas goes no deeper than n steps, once the pairs in `seen` have been followed. */
  ghost predicate Ends(a: Contract, b: Contract, seen: set<Pair>, n: nat, s: Schema, t: Schema)
    decreases n, 0
  {
    || Followed(s, t, seen)
    || (n > 0 && (Stops(Resolve(a, s), Resolve(b, t)) || KidsEnd(a, b, Noted(s, t, seen), n - 1, Resolve(a, s), Resolve(b, t))))
  }

  function Noted(s: Schema, t: Schema, seen: set<Pair>): set<Pair> {
    if s.Ref? && t.Ref? then seen + {(s.name, t.name)} else seen
  }

  /** Whatever schemas inside the two are compared, the comparison ends. */
  ghost predicate KidsEnd(a: Contract, b: Contract, seen: set<Pair>, n: nat, s: Schema, t: Schema)
    decreases n, 1
  {
    forall i, j :: 0 <= i < |Kids(s)| && 0 <= j < |Kids(t)| ==> Ends(a, b, seen, n, Kids(s)[i], Kids(t)[j])
  }

  /** The more pairs have been followed, the sooner it ends. */
  lemma {:induction false} EndsSooner(a: Contract, b: Contract, seen: set<Pair>, more: set<Pair>, n: nat, s: Schema, t: Schema)
    requires seen <= more && Ends(a, b, seen, n, s, t)
    ensures Ends(a, b, more, n, s, t)
    decreases n, 0
  {
    hide Stops, Kids, KidsEnd, Resolve;
    if !Followed(s, t, seen) && !Stops(Resolve(a, s), Resolve(b, t)) {
      KidsEndSooner(a, b, Noted(s, t, seen), Noted(s, t, more), n - 1, Resolve(a, s), Resolve(b, t));
    }
  }

  lemma {:induction false} KidsEndSooner(a: Contract, b: Contract, seen: set<Pair>, more: set<Pair>, n: nat, s: Schema, t: Schema)
    requires seen <= more && KidsEnd(a, b, seen, n, s, t)
    ensures KidsEnd(a, b, more, n, s, t)
    decreases n, 1
  {
    hide Kids, Ends;
    forall i, j | 0 <= i < |Kids(s)| && 0 <= j < |Kids(t)| ensures Ends(a, b, more, n, Kids(s)[i], Kids(t)[j]) {
      EndsSooner(a, b, seen, more, n, Kids(s)[i], Kids(t)[j]);
    }
  }

  /** The schemas a comparison takes out of two are among those inside them. */
  lemma {:induction false} TakenEnd(a: Contract, b: Contract, seen: set<Pair>, n: nat, s: Schema, t: Schema, x: Schema, y: Schema)
    requires KidsEnd(a, b, seen, n, s, t) && x in Kids(s) && y in Kids(t)
    ensures Ends(a, b, seen, n, x, y)
  {
    hide Kids, Ends;
    var i :| 0 <= i < |Kids(s)| && Kids(s)[i] == x;
    var j :| 0 <= j < |Kids(t)| && Kids(t)[j] == y;
  }

  lemma {:induction false} AreKids(s: Schema)
    ensures Items(s).Some? ==> Items(s).value in Kids(s)
    ensures Extra(s).Some? ==> Extra(s).value in Kids(s)
    ensures forall i :: 0 <= i < |Props(s)| ==> Props(s)[i].schema in Kids(s)
  {
    var n := if Items(s).Some? then 1 else 0;
    var kids := Kids(s);
    assert Items(s).Some? ==> kids[0] == Items(s).value;
    assert Extra(s).Some? ==> kids[n + |Props(s)|] == Extra(s).value;
    assert forall i :: 0 <= i < |Props(s)| ==> kids[n + i] == Props(s)[i].schema;
  }

  lemma {:induction false} NamedIsAKid(s: Schema, name: string)
    requires Lookup(Props(s), name).Some?
    ensures Lookup(Props(s), name).value in Kids(s)
  {
    hide Lookup, Kids;
    AreKids(s);
    var found := Lookup(Props(s), name);
    var i :| 0 <= i < |Props(s)| && Props(s)[i] == Property(name, found.value);
  }

  /** Where the comparison can only go so deep it comes back. */
  lemma {:induction false} EndsAfter(a: Contract, b: Contract, seen: set<Pair>, n: nat, s: Schema, t: Schema)
    requires Ends(a, b, seen, n, s, t)
    ensures After(a, b, seen, n, s, t).Some?
    decreases n, 0
  {
    hide Kids, KidsEnd, Resolve, AfterAll, Stops;
    var p, q := Resolve(a, s), Resolve(b, t);
    if !Followed(s, t, seen) {
      var steps := StepsInside(p, q);
      AfterOne(a, b, Noted(s, t, seen), n - 1, s, t);
      if !Stops(p, q) {
        StepsAreKids(p, q);
        StepsEndAfter(a, b, Noted(s, t, seen), n - 1, p, q, steps);
      }
    }
  }

  lemma {:induction false} StepsEndAfter(a: Contract, b: Contract, seen: set<Pair>, n: nat, s: Schema, t: Schema, steps: seq<Step>)
    requires KidsEnd(a, b, seen, n, s, t)
    requires forall step :: step in steps ==> step.0 in Kids(s) && step.1 in Kids(t)
    ensures AfterAll(a, b, seen, n, steps).Some?
    decreases n, 1, |steps|
  {
    hide Kids, KidsEnd, Ends, After;
    if steps != [] {
      var m := |steps| - 1;
      StepsEndAfter(a, b, seen, n, s, t, steps[..m]);
      var mid := AfterAll(a, b, seen, n, steps[..m]).value;
      AfterAllMore(a, b, seen, n, n, steps[..m]);
      TakenEnd(a, b, seen, n, s, t, steps[m].0, steps[m].1);
      EndsSooner(a, b, seen, mid, n, steps[m].0, steps[m].1);
      EndsAfter(a, b, mid, n, steps[m].0, steps[m].1);
    }
  }

  lemma {:induction false} StepsAreKids(s: Schema, t: Schema)
    ensures forall step :: step in StepsInside(s, t) ==> step.0 in Kids(s) && step.1 in Kids(t)
  {
    hide Kids, Lookup, Stops, OldSteps, NewSteps;
    AreKids(s);
    AreKids(t);
    OldStepsAreKids(s, t, |Props(s)|);
    NewStepsAreKids(s, t, |Props(t)|);
  }

  lemma {:induction false} OldStepsAreKids(s: Schema, t: Schema, n: nat)
    requires n <= |Props(s)|
    ensures forall step :: step in OldSteps(s, t, n) ==> step.0 in Kids(s) && step.1 in Kids(t)
  {
    hide Kids, Lookup, Props, Extra;
    AreKids(s);
    AreKids(t);
    if n > 0 {
      OldStepsAreKids(s, t, n - 1);
      if Lookup(Props(t), Props(s)[n - 1].name).Some? {
        NamedIsAKid(t, Props(s)[n - 1].name);
      }
    }
  }

  lemma {:induction false} NewStepsAreKids(s: Schema, t: Schema, n: nat)
    requires n <= |Props(t)|
    ensures forall step :: step in NewSteps(s, t, n) ==> step.0 in Kids(s) && step.1 in Kids(t)
  {
    hide Kids, Lookup, Props, Extra;
    AreKids(s);
    AreKids(t);
    if n > 0 {
      NewStepsAreKids(s, t, n - 1);
    }
  }

  // ----- the comparison -----

  /** comparer. A comparison need not come back: `fuel`, which is not part of what is computed, is a number of steps
      within which this one does. */
  class Comparer {
    const prev: Contract
    const next: Contract
    var out: seq<Change>
    var seen: set<Pair>

    constructor (prev: Contract, next: Contract)
      ensures this.prev == prev && this.next == next && out == [] && seen == {}
    {
      this.prev, this.next, out, seen := prev, next, [], {};
    }

    /** What has been added since: changes, and pairs followed. */
    twostate predicate Grew()
      reads this
    {
      old(out) <= out && old(seen) <= seen && (NothingBreaks(out) ==> NothingBreaks(old(out))) && (KindsTell(old(out)) ==> KindsTell(out))
    }

    /** The pairs followed since have been checked, taking those in `all` for granted. */
    twostate predicate Founded(new all: set<Pair>)
      reads this
    {
      AllGrounded(prev, next, all, seen - old(seen))
    }

    method Add(path: string, kind: ChangeKind, breaking: bool)
      modifies this`out
      ensures out == old(out) + [Change(path, kind, breaking)]
      ensures NothingBreaks(out) <==> NothingBreaks(old(out)) && !breaking
      ensures KindsTell(old(out)) && (breaking <==> kind != Added) ==> KindsTell(out)
    {
      ghost var before := out;
      out := out + [Change(path, kind, breaking)];
      assert out[|before|] == Change(path, kind, breaking);
      assert forall i :: 0 <= i < |before| ==> out[i] == before[i];
    }

    /** What these pairs lead to has been checked, taking all of them for granted. */
    ghost predicate Kept(ground: set<Pair>) {
      AllGrounded(prev, next, ground, ground)
    }

    /** compare. `ground` and `k` are any pairs and steps under which the two schemas agree, if there are any. */
    method Compare(ghost fuel: nat, ghost ground: set<Pair>, ghost k: nat, s: Schema, t: Schema, path: string)
      requires After(prev, next, seen, fuel, s, t).Some?
      modifies this
      ensures Grew()
      ensures NothingBreaks(out) ==>
        forall all: set<Pair> :: seen <= all ==> Founded(all) && Agree(prev, next, all, fuel, s, t)
      ensures Kept(ground) && Agree(prev, next, ground, k, s, t) ==> (NothingBreaks(old(out)) ==> NothingBreaks(out))
      ensures After(prev, next, old(seen), fuel, s, t) == Some(seen)
      decreases fuel, 1
    {
      hide NothingBreaks, KindsTell, Bodies, AfterAll, StepsInside;
      if Followed(s, t, seen) {
        return;
      }
      var p, q := Resolve(prev, s), Resolve(next, t);
      ghost var m := 0;
      if Kept(ground) && Agree(prev, next, ground, k, s, t) {
        m := AgreeLeadsTo(prev, next, ground, k, s, t);
      }
      if s.Ref? && t.Ref? {
        var pair := (s.name, t.name);
        ghost var before := seen;
        seen := seen + {pair};
        CompareBodies(fuel - 1, ground, m, p, q, path);
        if NothingBreaks(out) {
          forall all: set<Pair> | seen <= all
            ensures AllGrounded(prev, next, all, seen - before) && Agree(prev, next, all, fuel, s, t)
          {
            assert Bodies(prev, next, all, fuel - 1, p, q);
            assert Grounded(prev, next, all, pair);
            GroundedTogether(prev, next, all, before, before + {pair}, seen);
          }
        }
        return;
      }
      CompareBodies(fuel - 1, ground, m, p, q, path);
    }

    method CompareBodies(ghost fuel: nat, ghost ground: set<Pair>, ghost k: nat, s: Schema, t: Schema, path: string)
      requires AfterAll(prev, next, seen, fuel, StepsInside(s, t)).Some?
      modifies this
      ensures Grew()
      ensures NothingBreaks(out) ==>
        forall all: set<Pair> :: seen <= all ==> Founded(all) && Bodies(prev, next, all, fuel, s, t)
      ensures Kept(ground) && Bodies(prev, next, ground, k, s, t) ==> (NothingBreaks(old(out)) ==> NothingBreaks(out))
      ensures AfterAll(prev, next, old(seen), fuel, StepsInside(s, t)) == Some(seen)
      decreases fuel, 6
    {
      hide NothingBreaks, KindsTell, Bodies, Agree, Grounded, OldKey, NewKey, BothAgree, AfterAll, KeySteps;
      if Bodies(prev, next, ground, k, s, t) {
        BodiesInto(ground, k, s, t);
      }
      AfterOne(prev, next, seen, fuel, s, t);
      if !SameTypes(Types(s), Types(t)) {
        Add(path, TypeChanged, true);
        // Two objects, or two arrays, are still compared inside.
        var objects := ObjectKind in Types(s) && ObjectKind in Types(t);
        var arrays := ArrayKind in Types(s) && ArrayKind in Types(t);
        if !objects && !arrays {
          return;
        }
      }
      CompareEnum(s, t, path);
      AfterBoth(prev, next, seen, fuel, Beside(Items(s), Items(t)), KeySteps(s, t));
      CompareBoth(fuel, ground, k, Items(s), Items(t), path + "[]", TypeChanged);
      ghost var before, mid := old(seen), seen;
      CompareObject(fuel, ground, k, s, t, path);
      if NothingBreaks(out) {
        forall all: set<Pair> | seen <= all
          ensures AllGrounded(prev, next, all, seen - before) && Bodies(prev, next, all, fuel, s, t)
        {
          assert mid <= all;
          GroundedTogether(prev, next, all, before, mid, seen);
          BodiesFrom(all, fuel, s, t);
        }
      }
    }

    lemma {:induction false} BodiesInto(all: set<Pair>, n: nat, s: Schema, t: Schema)
      requires Bodies(prev, next, all, n, s, t)
      ensures SameTypes(Types(s), Types(t)) && SameEnums(s, t)
      ensures BothAgree(prev, next, all, n, Items(s), Items(t))
      ensures forall i :: 0 <= i < |Props(s)| ==> OldKey(prev, next, all, n, s, t, Props(s)[i])
      ensures forall i :: 0 <= i < |Props(t)| ==> NewKey(prev, next, all, n, s, t, Props(t)[i])
      ensures BothAgree(prev, next, all, n, Extra(s), Extra(t))
    {
    }

    lemma {:induction false} BodiesFrom(all: set<Pair>, n: nat, s: Schema, t: Schema)
      requires SameTypes(Types(s), Types(t))
      requires SameEnums(s, t)
      requires BothAgree(prev, next, all, n, Items(s), Items(t))
      requires forall i :: 0 <= i < |Props(s)| ==> OldKey(prev, next, all, n, s, t, Props(s)[i])
      requires forall i :: 0 <= i < |Props(t)| ==> NewKey(prev, next, all, n, s, t, Props(t)[i])
      requires BothAgree(prev, next, all, n, Extra(s), Extra(t))
      ensures Bodies(prev, next, all, n, s, t)
    {
    }

    method CompareEnum(s: Schema, t: Schema, path: string)
      modifies this`out
      ensures old(out) <= out && (NothingBreaks(out) ==> NothingBreaks(old(out))) && (KindsTell(old(out)) ==> KindsTell(out))
      ensures NothingBreaks(out) <==> NothingBreaks(old(out)) && SameEnums(s, t)
    {
      hide NothingBreaks, KindsTell, Minus, Enums;
      if (Enums(s) == []) != (Enums(t) == []) {
        Add(path, EnumChanged, true);
        return;
      }
      if Minus(Enums(s), Enums(t)) != [] {
        Add(path, EnumChanged, true);
      }
      if Minus(Enums(t), Enums(s)) != [] {
        Add(path, EnumChanged, true);
      }
    }

    /** What describes the elements of an array, or the keys that are not named. */
    method CompareBoth(ghost fuel: nat, ghost ground: set<Pair>, ghost k: nat, s: Option<Schema>, t: Option<Schema>, path: string, kind: ChangeKind)
      requires AfterAll(prev, next, seen, fuel, Beside(s, t)).Some? && kind != Added
      modifies this
      ensures Grew()
      ensures NothingBreaks(out) ==>
        forall all: set<Pair> :: seen <= all ==> Founded(all) && BothAgree(prev, next, all, fuel, s, t)
      ensures Kept(ground) && BothAgree(prev, next, ground, k, s, t) ==> (NothingBreaks(old(out)) ==> NothingBreaks(out))
      ensures AfterAll(prev, next, old(seen), fuel, Beside(s, t)) == Some(seen)
      decreases fuel, 2
    {
      hide NothingBreaks, KindsTell, Bodies, Agree, Grounded, After, AfterAll;
      AfterOne(prev, next, seen, fuel, if s.Some? then s.value else Ref(""), if t.Some? then t.value else Ref(""));
      if s.Some? && t.Some? {
        Compare(fuel, ground, k, s.value, t.value, path);
        return;
      }
      if s.Some? || t.Some? {
        Add(path, kind, true);
      }
    }

    /** compareObject */
    method CompareObject(ghost fuel: nat, ghost ground: set<Pair>, ghost k: nat, s: Schema, t: Schema, path: string)
      requires AfterAll(prev, next, seen, fuel, KeySteps(s, t)).Some?
      modifies this
      ensures Grew()
      ensures NothingBreaks(out) ==> forall all: set<Pair> :: seen <= all ==>
        && Founded(all)
        && (forall i :: 0 <= i < |Props(s)| ==> OldKey(prev, next, all, fuel, s, t, Props(s)[i]))
        && (forall i :: 0 <= i < |Props(t)| ==> NewKey(prev, next, all, fuel, s, t, Props(t)[i]))
        && BothAgree(prev, next, all, fuel, Extra(s), Extra(t))
      ensures
        && Kept(ground)
        && (forall i :: 0 <= i < |Props(s)| ==> OldKey(prev, next, ground, k, s, t, Props(s)[i]))
        && (forall i :: 0 <= i < |Props(t)| ==> NewKey(prev, next, ground, k, s, t, Props(t)[i]))
        && BothAgree(prev, next, ground, k, Extra(s), Extra(t))
        ==> (NothingBreaks(old(out)) ==> NothingBreaks(out))
      ensures AfterAll(prev, next, old(seen), fuel, KeySteps(s, t)) == Some(seen)
      decreases fuel, 5
    {
      hide NothingBreaks, KindsTell, OldKey, NewKey, BothAgree, Grounded, Props, Extra, AfterAll, OldSteps, NewSteps, Beside;
      ghost var olds, news := OldSteps(s, t, |Props(s)|), NewSteps(s, t, |Props(t)|);
      AfterBoth(prev, next, seen, fuel, olds + news, Beside(Extra(s), Extra(t)));
      AfterBoth(prev, next, seen, fuel, olds, news);
      CompareOldKeys(fuel, ground, k, s, t, path);
      ghost var before, mid := old(seen), seen;
      CompareNewKeys(fuel, ground, k, s, t, path);
      ghost var mid2 := seen;
      CompareBoth(fuel, ground, k, Extra(s), Extra(t), path + ".*", KeysChanged);
      if NothingBreaks(out) {
        forall all: set<Pair> | seen <= all
          ensures AllGrounded(prev, next, all, seen - before)
          ensures forall i :: 0 <= i < |Props(s)| ==> OldKey(prev, next, all, fuel, s, t, Props(s)[i])
          ensures forall i :: 0 <= i < |Props(t)| ==> NewKey(prev, next, all, fuel, s, t, Props(t)[i])
          ensures BothAgree(prev, next, all, fuel, Extra(s), Extra(t))
        {
          assert mid <= all && mid2 <= all;
          GroundedTogether(prev, next, all, before, mid, mid2);
          GroundedTogether(prev, next, all, before, mid2, seen);
        }
      }
    }

    /** One key more of the old schema; where a key is not done with, the rest is not. */
    lemma {:induction false} AfterOldKey(seen: set<Pair>, n: nat, s: Schema, t: Schema, i: nat)
      requires i < |Props(s)|
      ensures AfterAll(prev, next, seen, n, OldSteps(s, t, i + 1)) ==
        var before := AfterAll(prev, next, seen, n, OldSteps(s, t, i));
        if before.None? then None else AfterAll(prev, next, before.value, n, OldStep(t, Props(s)[i]))
      ensures AfterAll(prev, next, seen, n, OldSteps(s, t, i + 1)).None? ==>
        AfterAll(prev, next, seen, n, OldSteps(s, t, |Props(s)|)).None?
      decreases |Props(s)| - i
    {
      hide AfterAll, OldStep;
      AfterBoth(prev, next, seen, n, OldSteps(s, t, i), OldStep(t, Props(s)[i]));
      if i + 1 < |Props(s)| {
        AfterOldKey(seen, n, s, t, i + 1);
      }
    }

    lemma {:induction false} AfterOldKeysAtFirst(seen: set<Pair>, n: nat, s: Schema, t: Schema)
      ensures AfterAll(prev, next, seen, n, OldSteps(s, t, 0)) == Some(seen)
    {
    }

    /** The keys the old schema names. */
    method CompareOldKeys(ghost fuel: nat, ghost ground: set<Pair>, ghost k: nat, s: Schema, t: Schema, path: string)
      requires AfterAll(prev, next, seen, fuel, OldSteps(s, t, |Props(s)|)).Some?
      modifies this
      ensures Grew()
      ensures NothingBreaks(out) ==> forall all: set<Pair> :: seen <= all ==>
        Founded(all) && forall i :: 0 <= i < |Props(s)| ==> OldKey(prev, next, all, fuel, s, t, Props(s)[i])
      ensures Kept(ground) && (forall i :: 0 <= i < |Props(s)| ==> OldKey(prev, next, ground, k, s, t, Props(s)[i])) ==>
        (NothingBreaks(old(out)) ==> NothingBreaks(out))
      ensures AfterAll(prev, next, old(seen), fuel, OldSteps(s, t, |Props(s)|)) == Some(seen)
      decreases fuel, 4
    {
      hide NothingBreaks, KindsTell, OldKey, Grounded, Props, AfterAll, OldStep, OldSteps;
      AfterOldKeysAtFirst(seen, fuel, s, t);
      for i := 0 to |Props(s)|
        invariant Grew()
        invariant AfterAll(prev, next, old(seen), fuel, OldSteps(s, t, i)) == Some(seen)
        invariant NothingBreaks(out) ==> forall all: set<Pair> :: seen <= all ==>
          && AllGrounded(prev, next, all, seen - old(seen))
          && forall j :: 0 <= j < i ==> OldKey(prev, next, all, fuel, s, t, Props(s)[j])
        invariant Kept(ground) && (forall j :: 0 <= j < |Props(s)| ==> OldKey(prev, next, ground, k, s, t, Props(s)[j])) ==>
          (NothingBreaks(old(out)) ==> NothingBreaks(out))
      {
        ghost var mid := seen;
        AfterOldKey(old(seen), fuel, s, t, i);
        CompareOldKey(fuel, ground, k, s, t, Props(s)[i], path);
        if NothingBreaks(out) {
          forall all: set<Pair> | seen <= all
            ensures AllGrounded(prev, next, all, seen - old(seen))
            ensures forall j :: 0 <= j <= i ==> OldKey(prev, next, all, fuel, s, t, Props(s)[j])
          {
            assert mid <= all;
            GroundedTogether(prev, next, all, old(seen), mid, seen);
          }
        }
      }
    }

    method CompareOldKey(ghost fuel: nat, ghost ground: set<Pair>, ghost k: nat, s: Schema, t: Schema, p: Property, path: string)
      requires p in Props(s)
      requires AfterAll(prev, next, seen, fuel, OldStep(t, p)).Some?
      modifies this
      ensures Grew()
      ensures NothingBreaks(out) ==> forall all: set<Pair> :: seen <= all ==>
        Founded(all) && OldKey(prev, next, all, fuel, s, t, p)
      ensures Kept(ground) && OldKey(prev, next, ground, k, s, t, p) ==> (NothingBreaks(old(out)) ==> NothingBreaks(out))
      ensures AfterAll(prev, next, old(seen), fuel, OldStep(t, p)) == Some(seen)
      decreases fuel, 3
    {
      hide NothingBreaks, KindsTell, Bodies, Agree, Grounded, After, AfterAll;
      AfterOne(prev, next, seen, fuel, s, t);
      var sub, child := Lookup(Props(t), p.name), path + "." + p.name;
      if sub.None? && Extra(t).Some? {
        // The key is still produced when the input names it, now as one the schema does not name.
        if IsRequired(s, p.name) {
          Add(child, Optional, true);
        }
        AfterOne(prev, next, seen, fuel, p.schema, Extra(t).value);
        Compare(fuel, ground, k, p.schema, Extra(t).value, child);
        return;
      }
      if sub.None? {
        Add(child, Removed, true);
        return;
      }
      if IsRequired(s, p.name) && !IsRequired(t, p.name) {
        Add(child, Optional, true);
      } else if !IsRequired(s, p.name) && IsRequired(t, p.name) {
        Add(child, Required, true);
      }
      AfterOne(prev, next, seen, fuel, p.schema, sub.value);
      Compare(fuel, ground, k, p.schema, sub.value, child);
    }

    /** One key more of the new schema; where a key is not done with, the rest is not. */
    lemma {:induction false} AfterNewKey(seen: set<Pair>, n: nat, s: Schema, t: Schema, i: nat)
      requires i < |Props(t)|
      ensures AfterAll(prev, next, seen, n, NewSteps(s, t, i + 1)) ==
        var before := AfterAll(prev, next, seen, n, NewSteps(s, t, i));
        if before.None? then None else AfterAll(prev, next, before.value, n, NewStep(s, Props(t)[i]))
      ensures AfterAll(prev, next, seen, n, NewSteps(s, t, i + 1)).None? ==>
        AfterAll(prev, next, seen, n, NewSteps(s, t, |Props(t)|)).None?
      decreases |Props(t)| - i
    {
      hide AfterAll, NewStep;
      AfterBoth(prev, next, seen, n, NewSteps(s, t, i), NewStep(s, Props(t)[i]));
      if i + 1 < |Props(t)| {
        AfterNewKey(seen, n, s, t, i + 1);
      }
    }

    lemma {:induction false} AfterNewKeysAtFirst(seen: set<Pair>, n: nat, s: Schema, t: Schema)
      ensures AfterAll(prev, next, seen, n, NewSteps(s, t, 0)) == Some(seen)
    {
    }

    /** The keys only the new schema names. */
    method CompareNewKeys(ghost fuel: nat, ghost ground: set<Pair>, ghost k: nat, s: Schema, t: Schema, path: string)
      requires AfterAll(prev, next, seen, fuel, NewSteps(s, t, |Props(t)|)).Some?
      modifies this
      ensures Grew()
      ensures NothingBreaks(out) ==> forall all: set<Pair> :: seen <= all ==>
        Founded(all) && forall i :: 0 <= i < |Props(t)| ==> NewKey(prev, next, all, fuel, s, t, Props(t)[i])
      ensures Kept(ground) && (forall i :: 0 <= i < |Props(t)| ==> NewKey(prev, next, ground, k, s, t, Props(t)[i])) ==>
        (NothingBreaks(old(out)) ==> NothingBreaks(out))
      ensures AfterAll(prev, next, old(seen), fuel, NewSteps(s, t, |Props(t)|)) == Some(seen)
      decreases fuel, 4
    {
      hide NothingBreaks, KindsTell, NewKey, Grounded, Props, AfterAll, NewStep, NewSteps;
      AfterNewKeysAtFirst(seen, fuel, s, t);
      for i := 0 to |Props(t)|
        invariant Grew()
        invariant AfterAll(prev, next, old(seen), fuel, NewSteps(s, t, i)) == Some(seen)
        invariant NothingBreaks(out) ==> forall all: set<Pair> :: seen <= all ==>
          && AllGrounded(prev, next, all, seen - old(seen))
          && forall j :: 0 <= j < i ==> NewKey(prev, next, all, fuel, s, t, Props(t)[j])
        invariant Kept(ground) && (forall j :: 0 <= j < |Props(t)| ==> NewKey(prev, next, ground, k, s, t, Props(t)[j])) ==>
          (NothingBreaks(old(out)) ==> NothingBreaks(out))
      {
        ghost var mid := seen;
        AfterNewKey(old(seen), fuel, s, t, i);
        CompareNewKey(fuel, ground, k, s, t, Props(t)[i], path);
        if NothingBreaks(out) {
          forall all: set<Pair> | seen <= all
            ensures AllGrounded(prev, next, all, seen - old(seen))
            ensures forall j :: 0 <= j <= i ==> NewKey(prev, next, all, fuel, s, t, Props(t)[j])
          {
            assert mid <= all;
            GroundedTogether(prev, next, all, old(seen), mid, seen);
          }
        }
      }
    }

    method CompareNewKey(ghost fuel: nat, ghost ground: set<Pair>, ghost k: nat, s: Schema, t: Schema, p: Property, path: string)
      requires p in Props(t)
      requires AfterAll(prev, next, seen, fuel, NewStep(s, p)).Some?
      modifies this
      ensures Grew()
      ensures NothingBreaks(out) ==> forall all: set<Pair> :: seen <= all ==>
        Founded(all) && NewKey(prev, next, all, fuel, s, t, p)
      ensures Kept(ground) && NewKey(prev, next, ground, k, s, t, p) ==> (NothingBreaks(old(out)) ==> NothingBreaks(out))
      ensures AfterAll(prev, next, old(seen), fuel, NewStep(s, p)) == Some(seen)
      decreases fuel, 3
    {
      hide NothingBreaks, KindsTell, Bodies, Agree, Grounded, After, AfterAll;
      AfterOne(prev, next, seen, fuel, s, t);
      if Lookup(Props(s), p.name).Some? {
        return;
      }
      var child := path + "." + p.name;
      if Extra(s).Some? {
        // The key could already appear when the input named it.
        if IsRequired(t, p.name) {
          Add(child, Required, true);
        }
        AfterOne(prev, next, seen, fuel, Extra(s).value, p.schema);
        Compare(fuel, ground, k, Extra(s).value, p.schema, child);
        return;
      }
      if IsRequired(t, p.name) {
        Add(child, Required, true);
        return;
      }
      Add(child, Added, false);
    }
  }

  // ----- what generated schemas have in common -----

  /** References resolve, a required key is one that is named, and an object says which keys it may have unless
      its value may be a string as well, which no object that says so may. */
  predicate Shaped(c: Contract, s: Schema)
    decreases s
  {
    match s
    case Ref(name) => Lookup(c.defs, name).Some?
    case Body(types, _, states, properties, required, extra, items) =>
      && (if states || extra.Some? then StringKind !in types else types != [] && (ObjectKind in types ==> StringKind in types))
      && (forall i :: 0 <= i < |required| ==> Lookup(Props(s), required[i]).Some?)
      && AllShaped(c, properties)
      && (extra.Some? ==> Shaped(c, extra.value))
      && (items.Some? ==> Shaped(c, items.value))
  }

  predicate AllShaped(c: Contract, props: seq<Property>)
    decreases props
  {
    forall i :: 0 <= i < |props| ==> Shaped(c, props[i].schema)
  }

  /** The $defs are descriptions, and everything in the contract has that shape. */
  predicate WellShaped(c: Contract) {
    && Shaped(c, c.top) && AllShaped(c, c.defs)
    && forall i :: 0 <= i < |c.defs| ==> c.defs[i].schema.Body?
  }

  lemma {:induction false} ResolvedIsShaped(c: Contract, s: Schema)
    requires WellShaped(c) && Shaped(c, s)
    ensures !Dangling(c, s) && Resolve(c, s).Body? && Shaped(c, Resolve(c, s))
  {
  }

  lemma {:induction false} NamedIsShaped(c: Contract, s: Schema, name: string)
    requires Shaped(c, s) && Lookup(Props(s), name).Some?
    ensures Shaped(c, Lookup(Props(s), name).value)
  {
  }

  // ----- documents of the previous version still fit -----

  /** What two schemas that agree lead to. */
  lemma {:induction false} AgreeLeadsTo(a: Contract, b: Contract, all: set<Pair>, n: nat, s: Schema, t: Schema) returns (m: nat)
    requires AllGrounded(a, b, all, all) && Agree(a, b, all, n, s, t)
    ensures Bodies(a, b, all, m, Resolve(a, s), Resolve(b, t))
  {
    hide Bodies;
    if Followed(s, t, all) {
      assert Grounded(a, b, all, (s.name, t.name));
      m :| Bodies(a, b, all, m, Resolve(a, Ref(s.name)), Resolve(b, Ref(t.name)));
    } else {
      m := n - 1;
    }
  }

  lemma {:induction false} Carries(a: Contract, b: Contract, all: set<Pair>, n: nat, s: Schema, t: Schema, v: Json)
    requires WellShaped(a) && WellShaped(b) && AllGrounded(a, b, all, all)
    requires Shaped(a, s) && Shaped(b, t) && Agree(a, b, all, n, s, t)
    requires Fits(a, s, v)
    ensures Fits(b, t, v)
    decreases v, 4
  {
    hide Shaped, WellShaped, Agree, Bodies, FitsBody, AllGrounded;
    ResolvedIsShaped(a, s);
    ResolvedIsShaped(b, t);
    var m := AgreeLeadsTo(a, b, all, n, s, t);
    BodyCarries(a, b, all, m, Resolve(a, s), Resolve(b, t), v);
  }

  lemma {:induction false} BodyCarries(a: Contract, b: Contract, all: set<Pair>, n: nat, s: Schema, t: Schema, v: Json)
    requires WellShaped(a) && WellShaped(b) && AllGrounded(a, b, all, all)
    requires s.Body? && t.Body? && Shaped(a, s) && Shaped(b, t) && Bodies(a, b, all, n, s, t)
    requires FitsBody(a, s, v)
    ensures FitsBody(b, t, v)
    decreases v, 3
  {
    hide WellShaped, Agree, AllGrounded, OldKey, NewKey, MembersFit, ItemsFit, HasRequired;
    AlikeInKind(s, t, v);
    if v.Obj? {
      RequiredStay(a, b, all, n, s, t, v.members);
      MembersCarry(a, b, all, n, s, t, v.members);
    } else if v.Arr? && Items(t).Some? {
      ItemsCarry(a, b, all, n, Items(s).value, Items(t).value, v.items);
    }
  }

  /** Schemas of the same types and values admit the same kinds of value. */
  lemma {:induction false} AlikeInKind(s: Schema, t: Schema, v: Json)
    requires SameTypes(Types(s), Types(t))
    requires SameEnums(s, t)
    ensures TypeFits(Types(s), KindOf(v)) == TypeFits(Types(t), KindOf(v))
    ensures (Enums(s) == [] || TextOf(v) in Enums(s)) == (Enums(t) == [] || TextOf(v) in Enums(t))
  {
    var a, b := Types(s), Types(t);
    forall k: Kind ensures k in a <==> k in b {
      if k in a {
        var i :| 0 <= i < |a| && a[i] == k;
      }
      if k in b {
        var i :| 0 <= i < |b| && b[i] == k;
      }
    }
    assert a == [] <==> b == [] by {
      if a != [] { assert a[0] in b; }
      if b != [] { assert b[0] in a; }
    }
  }

  lemma {:induction false} RequiredStay(a: Contract, b: Contract, all: set<Pair>, n: nat, s: Schema, t: Schema, members: seq<Member>)
    requires s.Body? && t.Body? && Shaped(a, s) && Shaped(b, t) && Bodies(a, b, all, n, s, t)
    requires HasRequired(s, members)
    ensures HasRequired(t, members)
  {
    hide Agree, Get;
    forall i | 0 <= i < |t.required| ensures Get(members, t.required[i]).Some? {
      var name := t.required[i];
      RequiredAlike(a, b, all, n, s, t, name);
      assert name in s.required;
      var j :| 0 <= j < |s.required| && s.required[j] == name;
    }
  }

  /** A key is required by both or by neither. */
  lemma {:induction false} RequiredAlike(a: Contract, b: Contract, all: set<Pair>, n: nat, s: Schema, t: Schema, name: string)
    requires s.Body? && t.Body? && Shaped(a, s) && Shaped(b, t) && Bodies(a, b, all, n, s, t)
    ensures IsRequired(s, name) == IsRequired(t, name)
  {
    hide Agree;
    var was, now := Lookup(Props(s), name), Lookup(Props(t), name);
    if was.Some? {
      var i :| 0 <= i < |Props(s)| && Props(s)[i] == Property(name, was.value);
      assert OldKey(a, b, all, n, s, t, Props(s)[i]);
    } else if now.Some? {
      var i :| 0 <= i < |Props(t)| && Props(t)[i] == Property(name, now.value);
      assert NewKey(a, b, all, n, s, t, Props(t)[i]);
    }
  }

  lemma {:induction false} ItemsCarry(a: Contract, b: Contract, all: set<Pair>, n: nat, s: Schema, t: Schema, items: seq<Json>)
    requires WellShaped(a) && WellShaped(b) && AllGrounded(a, b, all, all)
    requires Shaped(a, s) && Shaped(b, t) && Agree(a, b, all, n, s, t)
    requires ItemsFit(a, s, items)
    ensures ItemsFit(b, t, items)
    decreases items, 1
  {
    hide Shaped, WellShaped, Agree, AllGrounded;
    if items != [] {
      Carries(a, b, all, n, s, t, items[0]);
      ItemsCarry(a, b, all, n, s, t, items[1..]);
    }
  }

  lemma {:induction false} MembersCarry(a: Contract, b: Contract, all: set<Pair>, n: nat, s: Schema, t: Schema, members: seq<Member>)
    requires WellShaped(a) && WellShaped(b) && AllGrounded(a, b, all, all)
    requires s.Body? && t.Body? && Shaped(a, s) && Shaped(b, t) && Bodies(a, b, all, n, s, t) && ObjectFits(s)
    requires MembersFit(a, s, members)
    ensures MembersFit(b, t, members)
    decreases members, 1
  {
    hide Shaped, WellShaped, Bodies, AllGrounded, MemberFits;
    if members != [] {
      MemberCarries(a, b, all, n, s, t, members[0]);
      MembersCarry(a, b, all, n, s, t, members[1..]);
    }
  }

  predicate ObjectFits(s: Schema) {
    TypeFits(Types(s), ObjectKind)
  }

  /** An object says which keys it may have in both, or in neither. */
  lemma {:induction false} OpenAlike(a: Contract, b: Contract, s: Schema, t: Schema)
    requires s.Body? && t.Body? && Shaped(a, s) && Shaped(b, t) && SameTypes(Types(s), Types(t)) && ObjectFits(s)
    ensures NamesKeysOrExtra(s) == NamesKeysOrExtra(t)
  {
    InBoth(s, t, StringKind);
    InBoth(s, t, ObjectKind);
  }

  lemma {:induction false} InBoth(s: Schema, t: Schema, k: Kind)
    requires SameTypes(Types(s), Types(t))
    ensures k in Types(s) <==> k in Types(t)
    ensures Types(s) == [] <==> Types(t) == []
  {
    var a, b := Types(s), Types(t);
    if k in a {
      var i :| 0 <= i < |a| && a[i] == k;
    }
    if k in b {
      var i :| 0 <= i < |b| && b[i] == k;
    }
    if a != [] { assert a[0] in b; }
    if b != [] { assert b[0] in a; }
  }

  /** Which of the two schemas' descriptions a key falls under, and that they agree. */
  lemma {:induction false} KeyAgrees(a: Contract, b: Contract, all: set<Pair>, n: nat, s: Schema, t: Schema, key: string)
    requires s.Body? && t.Body? && Shaped(a, s) && Shaped(b, t) && Bodies(a, b, all, n, s, t)
    ensures
      var was, now := Describes(s, key), Describes(t, key);
      was.Some? ==> now.Some? && Shaped(a, was.value) && Shaped(b, now.value) && Agree(a, b, all, n, was.value, now.value)
  {
    hide Agree;
    var was, now := Lookup(Props(s), key), Lookup(Props(t), key);
    if was.Some? {
      var i :| 0 <= i < |Props(s)| && Props(s)[i] == Property(key, was.value);
      assert OldKey(a, b, all, n, s, t, Props(s)[i]);
      NamedIsShaped(a, s, key);
      if now.Some? {
        NamedIsShaped(b, t, key);
      }
    } else if now.Some? {
      var i :| 0 <= i < |Props(t)| && Props(t)[i] == Property(key, now.value);
      assert NewKey(a, b, all, n, s, t, Props(t)[i]);
      NamedIsShaped(b, t, key);
    }
  }

  /** What describes the value of a key, when anything does. */
  function Describes(s: Schema, key: string): Option<Schema> {
    if Lookup(Props(s), key).Some? then Lookup(Props(s), key) else Extra(s)
  }

  predicate NamesKeysOrExtra(s: Schema) {
    NamesKeys(s) || Extra(s).Some?
  }

  lemma {:induction false} MemberCarries(a: Contract, b: Contract, all: set<Pair>, n: nat, s: Schema, t: Schema, m: Member)
    requires WellShaped(a) && WellShaped(b) && AllGrounded(a, b, all, all)
    requires s.Body? && t.Body? && Shaped(a, s) && Shaped(b, t) && Bodies(a, b, all, n, s, t) && ObjectFits(s)
    requires MemberFits(a, s, m)
    ensures MemberFits(b, t, m)
    decreases m, 5
  {
    hide Shaped, WellShaped, Bodies, Agree, AllGrounded, Lookup;
    SameTypesInBoth(a, b, all, n, s, t);
    OpenAlike(a, b, s, t);
    if Describes(s, m.key).Some? {
      KeyAgrees(a, b, all, n, s, t, m.key);
      Carries(a, b, all, n, Describes(s, m.key).value, Describes(t, m.key).value, m.value);
    } else {
      NoneNamed(t, m.key);
    }
  }

  lemma {:induction false} SameTypesInBoth(a: Contract, b: Contract, all: set<Pair>, n: nat, s: Schema, t: Schema)
    requires Bodies(a, b, all, n, s, t)
    ensures SameTypes(Types(s), Types(t))
  {
  }

  lemma {:induction false} NoneNamed(s: Schema, key: string)
    ensures !NamesKeys(s) ==> Lookup(Props(s), key).None?
  {
  }

  // ----- documents of the new version fit the old one without the keys it added -----

  /** A document less the keys a schema has no place for. */
  function Prune(c: Contract, s: Schema, v: Json): Json
    decreases v, 3
  {
    PruneBody(c, Resolve(c, s), v)
  }

  function PruneBody(c: Contract, s: Schema, v: Json): (pruned: Json)
    ensures KindOf(pruned) == KindOf(v) && TextOf(pruned) == TextOf(v)
    decreases v, 2
  {
    match v
    case Obj(members) => Obj(PruneMembers(c, s, members))
    case Arr(items) => if Items(s).Some? then Arr(PruneItems(c, Items(s).value, items)) else v
    case _ => v
  }

  function PruneItems(c: Contract, s: Schema, items: seq<Json>): seq<Json>
    decreases items, 1
  {
    if items == [] then [] else [Prune(c, s, items[0])] + PruneItems(c, s, items[1..])
  }

  function PruneMembers(c: Contract, s: Schema, members: seq<Member>): seq<Member>
    decreases members, 1
  {
    if members == [] then []
    else
      var kept :=
        if Describes(s, members[0].key).Some? then [PruneMember(c, Describes(s, members[0].key).value, members[0])]
        else if NamesKeys(s) then [] else [members[0]];
      kept + PruneMembers(c, s, members[1..])
  }

  function PruneMember(c: Contract, s: Schema, m: Member): Member
    decreases m, 0
  {
    Member(m.key, Prune(c, s, m.value))
  }

  /** A document that fits is left as it is. */
  lemma {:induction false} FittingStays(c: Contract, s: Schema, v: Json)
    requires Fits(c, s, v)
    ensures Prune(c, s, v) == v
    decreases v, 3
  {
    hide Fits;
    BodyStays(c, Resolve(c, s), v) by {
      FitsItsBody(c, s, v);
    }
  }

  lemma {:induction false} FitsItsBody(c: Contract, s: Schema, v: Json)
    requires Fits(c, s, v)
    ensures FitsBody(c, Resolve(c, s), v)
  {
  }

  lemma {:induction false} BodyStays(c: Contract, s: Schema, v: Json)
    requires FitsBody(c, s, v)
    ensures PruneBody(c, s, v) == v
    decreases v, 2
  {
    hide ItemsFit, MembersFit, PruneItems, PruneMembers;
    match v
    case Obj(members) => MembersStay(c, s, members);
    case Arr(items) =>
      if Items(s).Some? {
        ItemsStay(c, Items(s).value, items);
      }
    case _ =>
  }

  lemma {:induction false} ItemsStay(c: Contract, s: Schema, items: seq<Json>)
    requires ItemsFit(c, s, items)
    ensures PruneItems(c, s, items) == items
    decreases items, 1
  {
    hide Fits, Prune;
    if items != [] {
      FittingStays(c, s, items[0]);
      ItemsStay(c, s, items[1..]);
      assert [items[0]] + items[1..] == items;
    }
  }

  lemma {:induction false} MembersStay(c: Contract, s: Schema, members: seq<Member>)
    requires MembersFit(c, s, members)
    ensures PruneMembers(c, s, members) == members
    decreases members, 1
  {
    hide Fits, Prune, Lookup;
    if members != [] {
      var m := members[0];
      if Describes(s, m.key).Some? {
        FittingStays(c, Describes(s, m.key).value, m.value);
      }
      MembersStay(c, s, members[1..]);
      assert [m] + members[1..] == members;
    }
  }

  /** A key a schema names is never dropped. */
  lemma {:induction false} NamedKeysStay(c: Contract, s: Schema, members: seq<Member>, key: string)
    requires Lookup(Props(s), key).Some?
    ensures Get(members, key).Some? ==> Get(PruneMembers(c, s, members), key).Some?
  {
    hide Prune, Lookup;
    if members != [] && Get(members, key).Some? {
      var pruned := PruneMembers(c, s, members);
      if members[0].key == key {
        assert Describes(s, key).Some?;
        assert pruned[0] == PruneMember(c, Describes(s, key).value, members[0]);
      } else {
        NamedKeysStay(c, s, members[1..], key);
        var rest := PruneMembers(c, s, members[1..]);
        GetBehind(pruned, rest, key);
      }
    }
  }

  lemma {:induction false} GetBehind(members: seq<Member>, rest: seq<Member>, key: string)
    requires |rest| <= |members| && members[|members| - |rest|..] == rest && Get(rest, key).Some?
    ensures Get(members, key).Some?
  {
    var n := Find(rest, key);
    assert members[|members| - |rest| + n] == rest[n];
  }

  lemma {:induction false} CarriesBack(a: Contract, b: Contract, all: set<Pair>, n: nat, s: Schema, t: Schema, v: Json)
    requires WellShaped(a) && WellShaped(b) && AllGrounded(a, b, all, all)
    requires Shaped(a, s) && Shaped(b, t) && Agree(a, b, all, n, s, t)
    requires Fits(b, t, v)
    ensures Fits(a, s, Prune(a, s, v))
    decreases v, 4
  {
    hide Shaped, WellShaped, Agree, Bodies, FitsBody, AllGrounded, PruneBody;
    ResolvedIsShaped(a, s);
    ResolvedIsShaped(b, t);
    var m := AgreeLeadsTo(a, b, all, n, s, t);
    BodyCarriesBack(a, b, all, m, Resolve(a, s), Resolve(b, t), v);
  }

  lemma {:induction false} BodyCarriesBack(a: Contract, b: Contract, all: set<Pair>, n: nat, s: Schema, t: Schema, v: Json)
    requires WellShaped(a) && WellShaped(b) && AllGrounded(a, b, all, all)
    requires s.Body? && t.Body? && Shaped(a, s) && Shaped(b, t) && Bodies(a, b, all, n, s, t)
    requires FitsBody(b, t, v)
    ensures FitsBody(a, s, PruneBody(a, s, v))
    decreases v, 3
  {
    hide WellShaped, Agree, AllGrounded, OldKey, NewKey, MembersFit, ItemsFit, HasRequired;
    AlikeInKind(s, t, v);
    if v.Obj? {
      RequiredGoBack(a, b, all, n, s, t, v.members);
      MembersCarryBack(a, b, all, n, s, t, v.members);
    } else if v.Arr? && Items(s).Some? {
      ItemsCarryBack(a, b, all, n, Items(s).value, Items(t).value, v.items);
    }
  }

  lemma {:induction false} RequiredGoBack(a: Contract, b: Contract, all: set<Pair>, n: nat, s: Schema, t: Schema, members: seq<Member>)
    requires s.Body? && t.Body? && Shaped(a, s) && Shaped(b, t) && Bodies(a, b, all, n, s, t)
    requires HasRequired(t, members)
    ensures HasRequired(s, PruneMembers(a, s, members))
  {
    hide Agree, Get, PruneMembers;
    forall i | 0 <= i < |s.required| ensures Get(PruneMembers(a, s, members), s.required[i]).Some? {
      var name := s.required[i];
      RequiredAlike(a, b, all, n, s, t, name);
      assert name in t.required;
      var j :| 0 <= j < |t.required| && t.required[j] == name;
      NamedKeysStay(a, s, members, name);
    }
  }

  lemma {:induction false} ItemsCarryBack(a: Contract, b: Contract, all: set<Pair>, n: nat, s: Schema, t: Schema, items: seq<Json>)
    requires WellShaped(a) && WellShaped(b) && AllGrounded(a, b, all, all)
    requires Shaped(a, s) && Shaped(b, t) && Agree(a, b, all, n, s, t)
    requires ItemsFit(b, t, items)
    ensures ItemsFit(a, s, PruneItems(a, s, items))
    decreases items, 1
  {
    hide Shaped, WellShaped, Agree, AllGrounded, Prune;
    if items != [] {
      CarriesBack(a, b, all, n, s, t, items[0]);
      ItemsCarryBack(a, b, all, n, s, t, items[1..]);
      var pruned := PruneItems(a, s, items);
      assert pruned[1..] == PruneItems(a, s, items[1..]);
    }
  }

  lemma {:induction false} MembersCarryBack(a: Contract, b: Contract, all: set<Pair>, n: nat, s: Schema, t: Schema, members: seq<Member>)
    requires WellShaped(a) && WellShaped(b) && AllGrounded(a, b, all, all)
    requires s.Body? && t.Body? && Shaped(a, s) && Shaped(b, t) && Bodies(a, b, all, n, s, t) && ObjectFits(s)
    requires MembersFit(b, t, members)
    ensures MembersFit(a, s, PruneMembers(a, s, members))
    decreases members, 1
  {
    hide Shaped, WellShaped, Bodies, AllGrounded, MemberFits, Describes, NamesKeys, Extra;
    if members != [] {
      MembersCarryBack(a, b, all, n, s, t, members[1..]);
      MemberCarriesBack(a, b, all, n, s, t, members[0]);
      var rest := PruneMembers(a, s, members[1..]);
      var kept := Describes(s, members[0].key);
      if kept.Some? {
        var m := PruneMember(a, kept.value, members[0]);
        assert PruneMembers(a, s, members) == [m] + rest;
        assert ([m] + rest)[1..] == rest;
      } else if NamesKeys(s) {
        assert PruneMembers(a, s, members) == rest;
      } else {
        assert PruneMembers(a, s, members) == [members[0]] + rest;
        assert ([members[0]] + rest)[1..] == rest;
      }
    }
  }

  lemma {:induction false} MemberCarriesBack(a: Contract, b: Contract, all: set<Pair>, n: nat, s: Schema, t: Schema, m: Member)
    requires WellShaped(a) && WellShaped(b) && AllGrounded(a, b, all, all)
    requires s.Body? && t.Body? && Shaped(a, s) && Shaped(b, t) && Bodies(a, b, all, n, s, t) && ObjectFits(s)
    requires MemberFits(b, t, m)
    ensures Describes(s, m.key).Some? ==> MemberFits(a, s, PruneMember(a, Describes(s, m.key).value, m))
    ensures Describes(s, m.key).None? ==> NamesKeys(s) || MemberFits(a, s, m)
    decreases m, 5
  {
    hide Shaped, WellShaped, Bodies, Agree, AllGrounded, Lookup, Prune;
    KeyAgrees(a, b, all, n, s, t, m.key);
    if Describes(s, m.key).Some? {
      CarriesBack(a, b, all, n, Describes(s, m.key).value, Describes(t, m.key).value, m.value);
    }
  }

  // ----- what a comparison without breaking changes promises -----

  /** Every document of the previous version fits the new one, and every document of the new version fits the
      previous one once the keys it did not have are left out. */
  ghost predicate Compatible(prev: Contract, next: Contract) {
    && (forall v :: Fits(prev, prev.top, v) ==> Fits(next, next.top, v))
    && (forall v :: Fits(next, next.top, v) ==> Fits(prev, prev.top, Prune(prev, prev.top, v)))
  }

  lemma {:induction false} AgreedIsCompatible(prev: Contract, next: Contract, all: set<Pair>, n: nat)
    requires WellShaped(prev) && WellShaped(next)
    requires AllGrounded(prev, next, all, all) && Agree(prev, next, all, n, prev.top, next.top)
    ensures Compatible(prev, next)
  {
    hide AllGrounded, Agree, Shaped, Fits, Prune;
    forall v | Fits(prev, prev.top, v) ensures Fits(next, next.top, v) {
      Carries(prev, next, all, n, prev.top, next.top, v);
    }
    forall v | Fits(next, next.top, v) ensures Fits(prev, prev.top, Prune(prev, prev.top, v)) {
      CarriesBack(prev, next, all, n, prev.top, next.top, v);
    }
  }

  /** The two contracts agree, what recursion takes for granted having been checked. */
  ghost predicate Agreed(prev: Contract, next: Contract) {
    exists all: set<Pair>, n: nat :: AllGrounded(prev, next, all, all) && Agree(prev, next, all, n, prev.top, next.top)
  }

  /** Compare: the changes from one contract to the next, where the comparison comes back. */
  method CompareContracts(prev: Contract, next: Contract) returns (changes: seq<Change>)
    requires Finishes(prev, next, {}, prev.top, next.top)
    ensures NothingBreaks(changes) && WellShaped(prev) && WellShaped(next) ==> Compatible(prev, next)
    ensures NothingBreaks(changes) <==> Agreed(prev, next)
    ensures KindsTell(changes)
  {
    hide NothingBreaks, KindsTell, WellShaped, Compatible, Agree, AllGrounded, After;
    NoChanges();
    ghost var n: nat :| After(prev, next, {}, n, prev.top, next.top).Some?;
    var c := new Comparer(prev, next);
    ghost var ground: set<Pair>, k: nat := {}, 0;
    if Agreed(prev, next) {
      ground, k :| AllGrounded(prev, next, ground, ground) && Agree(prev, next, ground, k, prev.top, next.top);
    }
    c.Compare(n, ground, k, prev.top, next.top, "$");
    changes := c.out;
    if NothingBreaks(changes) {
      assert c.seen - {} == c.seen && c.seen <= c.seen;
      assert AllGrounded(prev, next, c.seen, c.seen) && Agree(prev, next, c.seen, n, prev.top, next.top);
      if WellShaped(prev) && WellShaped(next) {
        AgreedIsCompatible(prev, next, c.seen, n);
      }
    }
  }

  lemma {:induction false} NoChanges()
    ensures NothingBreaks([]) && KindsTell([])
  {
  }

  // ----- what the promise does not reach -----

  /** An object of one optional key. */
  function OneKeyObject(name: string, s: Schema): Schema {
    Body([ObjectKind], [], true, [Property(name, s)], [], None, None)
  }

  lemma {:induction false} OneMember(c: Contract, s: Schema, m: Member)
    ensures MembersFit(c, s, [m]) == MemberFits(c, s, m)
  {
    hide MemberFits;
    assert [m][0] == m && [m][1..] == [];
    assert MembersFit(c, s, []);
  }

  /** An object that says nothing about its keys, and one that says it has none: the comparison sees no
      difference, and a document with a key fits the first alone. */
  lemma {:induction false} OpenBecomesClosed(key: string, v: Json, n: nat)
    requires n > 0
    ensures
      var open := Contract(Body([ObjectKind], [], false, [], [], None, None), []);
      var closed := Contract(Body([ObjectKind], [], true, [], [], None, None), []);
      && Agree(open, closed, {}, n, open.top, closed.top)
      && Fits(open, open.top, Obj([Member(key, v)])) && !Fits(closed, closed.top, Obj([Member(key, v)]))
      && WellShaped(closed) && !WellShaped(open)
  {
    var open := Contract(Body([ObjectKind], [], false, [], [], None, None), []);
    var closed := Contract(Body([ObjectKind], [], true, [], [], None, None), []);
    var m := Member(key, v);
    OneMember(open, open.top, m);
    OneMember(closed, closed.top, m);
    assert Props(closed.top) == [] && Lookup(Props(closed.top), key).None?;
    assert MemberFits(open, open.top, m);
    assert !MemberFits(closed, closed.top, m);
    assert MembersFit(open, open.top, [m]) && !MembersFit(closed, closed.top, [m]);
    assert FitsBody(open, open.top, Obj([m])) && !FitsBody(closed, closed.top, Obj([m]));
  }

  /** A key required without being named: the comparison does not see that it is new. */
  lemma {:induction false} UnnamedBecomesRequired(key: string, n: nat)
    requires n > 0
    ensures
      var lax := Contract(Body([ObjectKind], [], true, [], [], None, None), []);
      var strict := Contract(Body([ObjectKind], [], true, [], [key], None, None), []);
      && Agree(lax, strict, {}, n, lax.top, strict.top)
      && Fits(lax, lax.top, Obj([])) && !Fits(strict, strict.top, Obj([]))
      && WellShaped(lax) && !WellShaped(strict)
  {
    var strict := Contract(Body([ObjectKind], [], true, [], [key], None, None), []);
    assert strict.top.required[0] == key;
  }

  function LeftLoop(): Contract {
    Contract(Ref("a"), [Property("a", OneKeyObject("x", OneKeyObject("y", Ref("a"))))])
  }

  function RightLoop(): Contract {
    Contract(OneKeyObject("x", Ref("b")), [Property("b", OneKeyObject("y", OneKeyObject("x", Ref("b"))))])
  }

  /** Two contracts whose references never stand side by side: the comparison follows one or the other for ever,
      and never comes back, whatever it has found on the way. */
  lemma {:induction false} NeverEnds(seen: set<Pair>, n: nat)
    ensures After(LeftLoop(), RightLoop(), seen, n, LeftLoop().top, RightLoop().top) == None
  {
    hide After, OneKeyObject;
    LoopsResolve();
    var a, b := LeftLoop(), RightLoop();
    var inner := OneKeyObject("y", Ref("a"));
    OneKeyInside(a, b, seen, n, a.top, b.top, "x", inner, Ref("b"));
    if n > 1 {
      OneKeyInside(a, b, seen, n - 1, inner, Ref("b"), "y", Ref("a"), b.top);
      NeverEnds(seen, n - 2);
    } else if n == 1 {
      OneKeyInside(a, b, seen, 0, inner, Ref("b"), "y", Ref("a"), b.top);
    }
  }

  lemma {:induction false} LoopsNeverFinish()
    ensures !Finishes(LeftLoop(), RightLoop(), {}, LeftLoop().top, RightLoop().top)
  {
    hide After, OneKeyObject;
    forall n: nat ensures After(LeftLoop(), RightLoop(), {}, n, LeftLoop().top, RightLoop().top) == None {
      NeverEnds({}, n);
    }
  }

  /** Two objects of one key of the same name are as far from their end as what the key holds. */
  lemma {:induction false} OneKeyInside(a: Contract, b: Contract, seen: set<Pair>, n: nat, s: Schema, t: Schema, name: string, x: Schema, y: Schema)
    requires Resolve(a, s) == OneKeyObject(name, x) && Resolve(b, t) == OneKeyObject(name, y)
    requires !(s.Ref? && t.Ref?)
    ensures After(a, b, seen, n, s, t) == if n == 0 then None else After(a, b, seen, n - 1, x, y)
  {
    hide StepsInside, OneKeyObject, AfterAll;
    OneStep(name, x, y);
    if n > 0 {
      AfterOne(a, b, seen, n - 1, x, y);
    }
  }

  lemma {:induction false} OneStep(name: string, x: Schema, y: Schema)
    ensures StepsInside(OneKeyObject(name, x), OneKeyObject(name, y)) == [(x, y)]
  {
    var p, q := OneKeyObject(name, x), OneKeyObject(name, y);
    assert Props(p)[0] == Property(name, x) && Props(q)[0] == Property(name, y);
    assert OldSteps(p, q, 0) == [] && NewSteps(p, q, 0) == [];
    assert OldSteps(p, q, 1) == [(x, y)] && NewSteps(p, q, 1) == [];
    assert Types(p)[0] == ObjectKind;
  }

  lemma {:induction false} LoopsResolve()
    ensures Resolve(LeftLoop(), LeftLoop().top) == OneKeyObject("x", OneKeyObject("y", Ref("a")))
    ensures Resolve(RightLoop(), RightLoop().top) == RightLoop().top
    ensures Resolve(RightLoop(), Ref("b")) == OneKeyObject("y", RightLoop().top)
    ensures OneKeyObject("y", Ref("a")).Body? && RightLoop().top.Body?
  {
  }

  /** Both are of the shape that is generated. */
  lemma {:induction false} LoopsAreWellShaped()
    ensures WellShaped(LeftLoop()) && WellShaped(RightLoop())
  {
  }
}
