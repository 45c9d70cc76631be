/**
 Why comparing two generated contracts ends (internal/schema/compat.go, comparer.compare): a tree's nodes refer to
 themselves through a list and nowhere else, so two trees that are followed side by side come to a pair of
 references together, and there are only so many pairs.
 */
module Endings {
  import opened Contracts
  import opened Lines
  import opened Compatibility

  // ----- how deep a schema goes before a reference -----

  function Height(s: Schema): nat
    decreases s, 1
  {
    if s.Ref? then 0 else 1 + HighestKid(s, |Kids(s)|)
  }

  function HighestKid(s: Schema, n: nat): nat
    requires s.Body? && n <= |Kids(s)|
    decreases s, 0, n
  {
    if n == 0 then 0
    else
      var rest, last := HighestKid(s, n - 1), Height(Kids(s)[n - 1]);
      if rest < last then last else rest
  }

  lemma {:induction false} KidIsNoHigher(s: Schema, n: nat, i: nat)
    requires s.Body? && i < n <= |Kids(s)|
    ensures Height(Kids(s)[i]) <= HighestKid(s, n)
    decreases n
  {
    hide Kids, Height;
    if i < n - 1 {
      KidIsNoHigher(s, n - 1, i);
    }
  }

  lemma {:induction false} KidIsLower(s: Schema, x: Schema)
    requires s.Body? && x in Kids(s)
    ensures Height(x) < Height(s)
  {
    hide Kids, HighestKid;
    var i :| 0 <= i < |Kids(s)| && Kids(s)[i] == x;
    KidIsNoHigher(s, |Kids(s)|, i);
  }

  predicate RefFree(s: Schema) {
    s.Body? && forall i :: 0 <= i < |Kids(s)| ==> RefFree(Kids(s)[i])
  }

  lemma {:induction false} KidIsFree(s: Schema, x: Schema)
    requires RefFree(s) && x in Kids(s)
    ensures RefFree(x)
  {
    hide Kids;
  }

  /** A list of references. */
  predicate IsRefList(s: Schema) {
    s.Body? && s.types == [ArrayKind] && |Kids(s)| == 1 && Kids(s)[0].Ref?
  }

  /** A description that refers to anything through lists of its own alone. */
  predicate IsNode(s: Schema) {
    s.Body? && s.types == [ObjectKind] && forall i :: 0 <= i < |Kids(s)| ==> RefFree(Kids(s)[i]) || IsRefList(Kids(s)[i])
  }

  /** A contract whose references lead to nodes, none of its schemas higher than m. */
  predicate OfTrees(c: Contract, m: nat) {
    && WellShaped(c) && Height(c.top) <= m
    && forall i :: 0 <= i < |c.defs| ==> IsNode(c.defs[i].schema) && Height(c.defs[i].schema) <= m
  }

  // ----- what every step brings down -----

  /** What is left of a schema with references in it. */
  function Weight(s: Schema): nat {
    if s.Ref? then 0 else if IsRefList(s) then 1 else 4 * Height(s)
  }

  /** What is left of a comparison before it follows another pair of references. */
  function Left(s: Schema, t: Schema, m: nat): nat {
    if RefFree(s) then Height(s)
    else if RefFree(t) then m + 1 + Height(t)
    else 2 * m + 2 + Weight(s) + Weight(t)
  }

  lemma {:induction false} WeightIsBounded(s: Schema)
    ensures Weight(s) <= 4 * Height(s)
    ensures s.Body? ==> Height(s) > 0
  {
    hide HighestKid, Kids;
  }

  lemma {:induction false} ResolvedIsBounded(c: Contract, m: nat, s: Schema)
    requires OfTrees(c, m) && Shaped(c, s) && Height(s) <= m
    ensures Shaped(c, Resolve(c, s)) && Resolve(c, s).Body? && Height(Resolve(c, s)) <= m
    ensures s.Body? ==> Resolve(c, s) == s
    ensures s.Ref? ==> IsNode(Resolve(c, s)) && s.name in DefNames(c)
  {
    hide Shaped, Height, IsNode, WellShaped;
    ResolvedIsShaped(c, s);
    if s.Ref? {
      var found := Lookup(c.defs, s.name);
      var i :| 0 <= i < |c.defs| && c.defs[i] == Property(s.name, found.value);
    }
  }

  function DefNames(c: Contract): set<string> {
    set i | 0 <= i < |c.defs| :: c.defs[i].name
  }

  lemma {:induction false} KidIsShaped(c: Contract, s: Schema, x: Schema)
    requires s.Body? && Shaped(c, s) && x in Kids(s)
    ensures Shaped(c, x)
  {
    assert Props(s) == (if s.states then s.properties else []);
    if s.states {
      assert AllShaped(c, s.properties);
    }
    var kids := Kids(s);
    var i :| 0 <= i < |kids| && kids[i] == x;
    var n := if Items(s).Some? then 1 else 0;
    if n <= i < n + |Props(s)| {
      assert kids[i] == Props(s)[i - n].schema;
    }
  }

  /** A list of references has one schema in it, and is a list. */
  lemma {:induction false} OnlyKid(s: Schema, x: Schema)
    requires IsRefList(s) && x in Kids(s)
    ensures x.Ref? && Types(s) == [ArrayKind]
  {
    hide Kids;
  }

  lemma {:induction false} NodeKid(s: Schema, x: Schema)
    requires IsNode(s) && x in Kids(s)
    ensures (RefFree(x) || IsRefList(x)) && Types(s) == [ObjectKind]
  {
    hide Kids, RefFree, IsRefList;
  }

  lemma {:induction false} ObjectAgainstList(s: Schema, t: Schema)
    requires (Types(s), Types(t)) in {([ObjectKind], [ArrayKind]), ([ArrayKind], [ObjectKind])}
    ensures Stops(s, t)
  {
    assert Types(s)[0] !in Types(t);
  }

  /** What a step down a schema with references in it leaves of it. */
  lemma {:induction false} LeftOfKid(s: Schema, x: Schema)
    requires s.Body? && x in Kids(s)
    ensures Weight(x) < Weight(s)
    ensures !IsRefList(s) ==> Weight(x) + 4 <= Weight(s)
  {
    hide Kids, Height, IsRefList;
    KidIsLower(s, x);
    WeightIsBounded(x);
    if IsRefList(s) {
      OnlyKid(s, x);
    }
  }

  /** Every step brings down what is left, unless it follows a pair of references. */
  lemma {:induction false} StepDown(a: Contract, b: Contract, m: nat, s: Schema, t: Schema, x: Schema, y: Schema)
    requires OfTrees(a, m) && OfTrees(b, m) && Shaped(a, s) && Shaped(b, t) && Height(s) <= m && Height(t) <= m
    requires !(s.Ref? && t.Ref?) && !Stops(Resolve(a, s), Resolve(b, t)) && x in Kids(Resolve(a, s)) && y in Kids(Resolve(b, t))
    ensures Left(x, y, m) < Left(s, t, m)
  {
    hide OfTrees, Shaped, Height, Weight, RefFree, IsRefList, IsNode, Stops, Kids, Resolve;
    var p, q := Resolve(a, s), Resolve(b, t);
    ResolvedIsBounded(a, m, s);
    ResolvedIsBounded(b, m, t);
    KidIsLower(p, x);
    KidIsLower(q, y);
    FreeIsBody(s);
    FreeIsBody(t);
    if RefFree(s) {
      KidIsFree(s, x);
    } else if RefFree(t) {
      KidIsFree(t, y);
    } else if !RefFree(x) && !RefFree(y) {
      BothHeavy(a, b, s, t, p, q, x, y);
    }
  }

  lemma {:induction false} FreeIsBody(s: Schema)
    ensures RefFree(s) ==> s.Body?
  {
  }

  lemma {:induction false} BothHeavy(a: Contract, b: Contract, s: Schema, t: Schema, p: Schema, q: Schema, x: Schema, y: Schema)
    requires p.Body? && q.Body? && x in Kids(p) && y in Kids(q) && !RefFree(x) && !RefFree(y)
    requires if s.Ref? then IsNode(p) && t.Body? else p == s
    requires if t.Ref? then IsNode(q) && s.Body? else q == t
    requires !Stops(p, q)
    ensures Weight(x) + Weight(y) < Weight(s) + Weight(t)
  {
    hide Height, RefFree, IsRefList, IsNode, Stops, Kids;
    if s.Ref? {
      NodeKid(p, x);
      if IsRefList(t) {
        OnlyKid(t, y);
        ObjectAgainstList(p, q);
      } else {
        LeftOfKid(t, y);
      }
    } else if t.Ref? {
      NodeKid(q, y);
      if IsRefList(s) {
        OnlyKid(s, x);
        ObjectAgainstList(p, q);
      } else {
        LeftOfKid(s, x);
      }
    } else {
      LeftOfKid(s, x);
      LeftOfKid(t, y);
    }
  }

  // ----- the comparison ends -----

  /** Every pair of references there can be. */
  function AllPairs(a: Contract, b: Contract): set<Pair> {
    set x, y | x in DefNames(a) && y in DefNames(b) :: (x, y)
  }

  /** More than is ever left before another pair of references is followed. */
  function Round(m: nat): nat {
    10 * m + 4
  }

  lemma {:induction false} LeftIsBounded(s: Schema, t: Schema, m: nat)
    requires Height(s) <= m && Height(t) <= m
    ensures Left(s, t, m) < Round(m)
  {
    hide Height, RefFree, IsRefList, Weight;
    WeightIsBounded(s);
    WeightIsBounded(t);
  }

  lemma {:induction false} OneLess(pairs: set<Pair>, seen: set<Pair>, p: Pair, round: nat)
    requires p in pairs && p !in seen
    ensures |pairs - (seen + {p})| == |pairs - seen| - 1
    ensures |pairs - (seen + {p})| * round + round == |pairs - seen| * round
  {
    assert pairs - (seen + {p}) == (pairs - seen) - {p};
    assert p in pairs - seen;
    var u := |pairs - seen|;
    assert (u - 1) * round + round == u * round;
  }

  /** A round for each pair that is still to be followed, and what is left of this one, are steps enough. */
  lemma {:induction false} EndsWithin(a: Contract, b: Contract, m: nat, seen: set<Pair>, n: nat, s: Schema, t: Schema)
    requires OfTrees(a, m) && OfTrees(b, m) && Shaped(a, s) && Shaped(b, t) && Height(s) <= m && Height(t) <= m
    requires n > |AllPairs(a, b) - seen| * Round(m) + Left(s, t, m)
    ensures Ends(a, b, seen, n, s, t)
    decreases n
  {
    hide OfTrees, Shaped, Height, Left, Stops, Kids, Resolve, Round, AllPairs;
    var p, q := Resolve(a, s), Resolve(b, t);
    var pairs, later := AllPairs(a, b), Noted(s, t, seen);
    if !Followed(s, t, seen) && !Stops(p, q) {
      ResolvedIsBounded(a, m, s);
      ResolvedIsBounded(b, m, t);
      if s.Ref? && t.Ref? {
        InAllPairs(a, b, s.name, t.name);
        OneLess(pairs, seen, (s.name, t.name), Round(m));
      }
      forall i, j | 0 <= i < |Kids(p)| && 0 <= j < |Kids(q)| ensures Ends(a, b, later, n - 1, Kids(p)[i], Kids(q)[j]) {
        var x, y := Kids(p)[i], Kids(q)[j];
        KidIsShaped(a, p, x);
        KidIsShaped(b, q, y);
        KidIsLower(p, x);
        KidIsLower(q, y);
        if s.Ref? && t.Ref? {
          LeftIsBounded(x, y, m);
        } else {
          StepDown(a, b, m, s, t, x, y);
        }
        EndsWithin(a, b, m, later, n - 1, x, y);
      }
    }
  }

  lemma {:induction false} InAllPairs(a: Contract, b: Contract, x: string, y: string)
    requires x in DefNames(a) && y in DefNames(b)
    ensures (x, y) in AllPairs(a, b)
  {
  }

  /** Steps enough for two contracts of trees. */
  function Steps(a: Contract, b: Contract, m: nat): nat {
    |AllPairs(a, b)| * Round(m) + Round(m)
  }

  /** Comparing two contracts of trees ends. */
  lemma {:induction false} TreesEnd(a: Contract, b: Contract, m: nat)
    requires OfTrees(a, m) && OfTrees(b, m)
    ensures Ends(a, b, {}, Steps(a, b, m), a.top, b.top)
  {
    hide Shaped, Height, Left, Ends, AllPairs, Round, IsNode;
    LeftIsBounded(a.top, b.top, m);
    assert AllPairs(a, b) - {} == AllPairs(a, b);
    EndsWithin(a, b, m, {}, Steps(a, b, m), a.top, b.top);
  }

  // ----- exactly when it ends -----

  predicate BothRefs(s: Schema, t: Schema) {
    s.Ref? && t.Ref?
  }

  /** Going down from two schemas side by side, every way comes to a pair of references among these, or to its end,
      within n steps. No pair is followed here: this looks at the two contracts alone. */
  ghost predicate LeadsTo(a: Contract, b: Contract, pairs: set<Pair>, n: nat, s: Schema, t: Schema)
    decreases n, 0
  {
    if BothRefs(s, t) then (s.name, t.name) in pairs
    else n > 0 && AllLeadTo(a, b, pairs, n - 1, StepsInside(Resolve(a, s), Resolve(b, t)))
  }

  ghost predicate AllLeadTo(a: Contract, b: Contract, pairs: set<Pair>, n: nat, steps: seq<Step>)
    decreases n, 1
  {
    forall i :: 0 <= i < |steps| ==> LeadsTo(a, b, pairs, n, steps[i].0, steps[i].1)
  }

  /** So does every way down from what one of these pairs stands for. */
  ghost predicate PairLeadsTo(a: Contract, b: Contract, pairs: set<Pair>, n: nat, pair: Pair) {
    AllLeadTo(a, b, pairs, n, StepsInside(Resolve(a, Ref(pair.0)), Resolve(b, Ref(pair.1))))
  }

  ghost predicate Closed(a: Contract, b: Contract, pairs: set<Pair>, n: nat) {
    forall pair :: pair in pairs ==> PairLeadsTo(a, b, pairs, n, pair)
  }

  lemma {:induction false} LeadsFurther(a: Contract, b: Contract, pairs: set<Pair>, n: nat, more: nat, s: Schema, t: Schema)
    requires LeadsTo(a, b, pairs, n, s, t) && n <= more
    ensures LeadsTo(a, b, pairs, more, s, t)
    decreases n, 0
  {
    hide AllLeadTo, StepsInside, Resolve;
    if !BothRefs(s, t) {
      AllLeadFurther(a, b, pairs, n - 1, more - 1, StepsInside(Resolve(a, s), Resolve(b, t)));
    }
  }

  lemma {:induction false} AllLeadFurther(a: Contract, b: Contract, pairs: set<Pair>, n: nat, more: nat, steps: seq<Step>)
    requires AllLeadTo(a, b, pairs, n, steps) && n <= more
    ensures AllLeadTo(a, b, pairs, more, steps)
    decreases n, 1
  {
    hide LeadsTo;
    forall i | 0 <= i < |steps| ensures LeadsTo(a, b, pairs, more, steps[i].0, steps[i].1) {
      LeadsFurther(a, b, pairs, n, more, steps[i].0, steps[i].1);
    }
  }

  /** A comparison that has come back has been down every way, and at every pair it followed. */
  lemma {:induction false} BackLeadsTo(a: Contract, b: Contract, seen: set<Pair>, n: nat, s: Schema, t: Schema, pairs: set<Pair>)
    requires After(a, b, seen, n, s, t).Some? && After(a, b, seen, n, s, t).value <= pairs
    ensures LeadsTo(a, b, pairs, n, s, t)
    ensures forall pair :: pair in After(a, b, seen, n, s, t).value - seen ==> PairLeadsTo(a, b, pairs, n, pair)
    decreases n, 0
  {
    hide AllLeadTo, StepsInside, Resolve, AfterAll;
    AfterMore(a, b, seen, n, n, s, t);
    if !Followed(s, t, seen) {
      var later, steps := Noted(s, t, seen), StepsInside(Resolve(a, s), Resolve(b, t));
      BackAllLeadTo(a, b, later, n - 1, steps, pairs);
      AfterAllMore(a, b, later, n - 1, n - 1, steps);
      AllLeadFurther(a, b, pairs, n - 1, n, steps);
      forall pair | pair in After(a, b, seen, n, s, t).value - seen ensures PairLeadsTo(a, b, pairs, n, pair) {
        if pair in later {
          assert pair == (s.name, t.name) && s == Ref(s.name) && t == Ref(t.name);
        } else {
          assert PairLeadsTo(a, b, pairs, n - 1, pair);
          AllLeadFurther(a, b, pairs, n - 1, n, StepsInside(Resolve(a, Ref(pair.0)), Resolve(b, Ref(pair.1))));
        }
      }
    }
  }

  lemma {:induction false} BackAllLeadTo(a: Contract, b: Contract, seen: set<Pair>, n: nat, steps: seq<Step>, pairs: set<Pair>)
    requires AfterAll(a, b, seen, n, steps).Some? && AfterAll(a, b, seen, n, steps).value <= pairs
    ensures AllLeadTo(a, b, pairs, n, steps)
    ensures forall pair :: pair in AfterAll(a, b, seen, n, steps).value - seen ==> PairLeadsTo(a, b, pairs, n, pair)
    decreases n, 1, |steps|
  {
    hide After, LeadsTo, PairLeadsTo;
    if steps != [] {
      var m := |steps| - 1;
      var mid := AfterAll(a, b, seen, n, steps[..m]).value;
      AfterMore(a, b, mid, n, n, steps[m].0, steps[m].1);
      BackAllLeadTo(a, b, seen, n, steps[..m], pairs);
      BackLeadsTo(a, b, mid, n, steps[m].0, steps[m].1, pairs);
      assert forall i :: 0 <= i < m ==> steps[i] == steps[..m][i];
    }
  }

  /** A round for each of the pairs that is still to be followed, and the way to the next one, are steps enough. */
  lemma {:induction false} LeadsBack(a: Contract, b: Contract, pairs: set<Pair>, k: nat, seen: set<Pair>, m: nat, n: nat, s: Schema, t: Schema)
    requires Closed(a, b, pairs, k) && LeadsTo(a, b, pairs, m, s, t)
    requires n > |pairs - seen| * (k + 1) + m
    ensures After(a, b, seen, n, s, t).Some?
    decreases n, 0
  {
    hide AllLeadTo, StepsInside, Resolve, AfterAll;
    var later, steps := Noted(s, t, seen), StepsInside(Resolve(a, s), Resolve(b, t));
    if !Followed(s, t, seen) {
      if BothRefs(s, t) {
        var pair := (s.name, t.name);
        OneLess(pairs, seen, pair, k + 1);
        assert PairLeadsTo(a, b, pairs, k, pair) && s == Ref(pair.0) && t == Ref(pair.1);
        AllLeadBack(a, b, pairs, k, later, k, n - 1, steps);
      } else {
        AllLeadBack(a, b, pairs, k, later, m - 1, n - 1, steps);
      }
    }
  }

  lemma {:induction false} AllLeadBack(a: Contract, b: Contract, pairs: set<Pair>, k: nat, seen: set<Pair>, m: nat, n: nat, steps: seq<Step>)
    requires Closed(a, b, pairs, k) && AllLeadTo(a, b, pairs, m, steps)
    requires n > |pairs - seen| * (k + 1) + m
    ensures AfterAll(a, b, seen, n, steps).Some?
    decreases n, 1, |steps|
  {
    hide After, LeadsTo, Closed;
    if steps != [] {
      var i := |steps| - 1;
      assert forall j :: 0 <= j < i ==> steps[j] == steps[..i][j];
      AllLeadBack(a, b, pairs, k, seen, m, n, steps[..i]);
      AfterAllMore(a, b, seen, n, n, steps[..i]);
      var mid := AfterAll(a, b, seen, n, steps[..i]).value;
      FewerLeft(pairs, seen, mid, k + 1);
      LeadsBack(a, b, pairs, k, mid, m, n, steps[i].0, steps[i].1);
    }
  }

  lemma {:induction false} FewerLeft(pairs: set<Pair>, seen: set<Pair>, more: set<Pair>, round: nat)
    requires seen <= more
    ensures |pairs - more| * round <= |pairs - seen| * round
  {
    var x, y := pairs - more, pairs - seen;
    assert x <= y;
    SubsetIsNoLarger(x, y);
    var u, v := |x|, |y|;
    assert u * round <= v * round;
  }

  lemma {:induction false} SubsetIsNoLarger(x: set<Pair>, y: set<Pair>)
    requires x <= y
    ensures |x| <= |y|
  {
    if x != {} {
      var p :| p in x;
      SubsetIsNoLarger(x - {p}, y - {p});
    }
  }

  /** Compare comes back exactly when, from the two contracts down, it is never far to a pair of references: there
      are pairs such that every way down from the top, and from what each of them stands for, ends or comes to one of
      them within some number of steps. */
  lemma {:induction false} EndsExactly(a: Contract, b: Contract, s: Schema, t: Schema)
    ensures Finishes(a, b, {}, s, t) <==>
      exists pairs: set<Pair>, n: nat :: Closed(a, b, pairs, n) && LeadsTo(a, b, pairs, n, s, t)
  {
    hide After, LeadsTo, PairLeadsTo;
    if n: nat :| After(a, b, {}, n, s, t).Some? {
      var pairs := After(a, b, {}, n, s, t).value;
      BackLeadsTo(a, b, {}, n, s, t, pairs);
      assert pairs - {} == pairs;
      assert Closed(a, b, pairs, n) && LeadsTo(a, b, pairs, n, s, t);
    }
    if pairs: set<Pair>, n: nat :| Closed(a, b, pairs, n) && LeadsTo(a, b, pairs, n, s, t) {
      LeadsBack(a, b, pairs, n, {}, n, |pairs - {}| * (n + 1) + n + 1, s, t);
    }
  }
}
