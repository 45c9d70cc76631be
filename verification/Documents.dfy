/**
 What a planned document comes to once its values are known: which value stands where, how many values it holds
 and how deep it nests (internal/jsonbuild/jsonbuild.go, make, countValues, valueDepth).
 */
module Documents {
  import opened Lines
  import opened Texts
  import opened Json
  import opened Plans

  // ----- the exact measures -----

  /** The values directly inside a value. */
  function Inside(v: Json): (kids: seq<Json>)
    ensures forall i :: 0 <= i < |kids| ==> kids[i] < v
  {
    match v
    case Arr(items) => items
    case Obj(members) => seq(|members|, i requires 0 <= i < |members| => members[i].value)
    case _ => []
  }

  predicate IsContainer(v: Json) {
    v.Arr? || v.Obj?
  }

  /** The values a document holds, itself included. */
  function CountOf(v: Json): nat
    decreases v, 1
  {
    1 + Sum(CountsInside(v))
  }

  function CountsInside(v: Json): seq<nat>
    decreases v, 0
  {
    seq(|Inside(v)|, i requires 0 <= i < |Inside(v)| => CountOf(Inside(v)[i]))
  }

  function Greatest(ns: seq<nat>): nat {
    if ns == [] then 0
    else
      var rest := Greatest(ns[..|ns| - 1]);
      if rest < ns[|ns| - 1] then ns[|ns| - 1] else rest
  }

  /** The most arrays and objects around a scalar of the document. */
  function DepthOf(v: Json): nat
    decreases v, 1
  {
    if IsContainer(v) then 1 + Greatest(DepthsInside(v)) else 0
  }

  function DepthsInside(v: Json): seq<nat>
    decreases v, 0
  {
    seq(|Inside(v)|, i requires 0 <= i < |Inside(v)| => DepthOf(Inside(v)[i]))
  }

  // ----- the measures that stop early -----

  /** An answer that is exact up to the limit, and past it never more than the truth. */
  predicate ExactUpTo(answer: int, truth: int, limit: int) {
    if truth <= limit then answer == truth else limit < answer <= truth
  }

  /** countValues */
  method CountValues(v: Json, limit: int) returns (n: nat)
    ensures ExactUpTo(n, CountOf(v), limit)
    decreases v
  {
    n := 1;
    ghost var counts := CountsInside(v);
    var kids := Inside(v);
    for i := 0 to |kids|
      invariant if n <= limit then n == 1 + Sum(counts[..i]) else n <= 1 + Sum(counts[..i])
    {
      SumSplits(counts, i);
      if n > limit {
        SumGrows(counts, i);
        return;
      }
      var more := CountValues(kids[i], limit - n);
      n := n + more;
    }
    assert counts[..|kids|] == counts;
  }

  /** valueDepth */
  method ValueDepth(v: Json, limit: int) returns (deepest: nat)
    ensures ExactUpTo(deepest, DepthOf(v), limit)
    decreases v
  {
    if !IsContainer(v) {
      return 0;
    }
    if limit <= 0 {
      return 1;
    }
    deepest := 1;
    ghost var depths := DepthsInside(v);
    var kids := Inside(v);
    for i := 0 to |kids|
      invariant ExactUpTo(deepest, 1 + Greatest(depths[..i]), limit)
      invariant deepest <= limit
    {
      GreatestSplits(depths, i);
      var depth := ValueDepth(kids[i], limit - 1);
      if 1 + depth > deepest {
        deepest := 1 + depth;
      }
      if deepest > limit {
        GreatestGrows(depths, i + 1);
        return;
      }
    }
    assert depths[..|kids|] == depths;
  }

  lemma {:induction false} SumSplits(ns: seq<nat>, i: nat)
    requires i < |ns|
    ensures Sum(ns[..i + 1]) == Sum(ns[..i]) + ns[i]
  {
    assert ns[..i + 1][..i] == ns[..i];
  }

  lemma {:induction false} SumGrows(ns: seq<nat>, i: nat)
    requires i <= |ns|
    ensures Sum(ns[..i]) <= Sum(ns)
    decreases |ns| - i
  {
    if i == |ns| {
      assert ns[..i] == ns;
    } else {
      SumSplits(ns, i);
      SumGrows(ns, i + 1);
    }
  }

  lemma {:induction false} GreatestSplits(ns: seq<nat>, i: nat)
    requires i < |ns|
    ensures
      Greatest(ns[..i + 1]) == if Greatest(ns[..i]) < ns[i] then ns[i] else Greatest(ns[..i])
  {
    assert ns[..i + 1][..i] == ns[..i];
  }

  lemma {:induction false} GreatestGrows(ns: seq<nat>, i: nat)
    requires i <= |ns|
    ensures Greatest(ns[..i]) <= Greatest(ns)
    decreases |ns| - i
  {
    if i == |ns| {
      assert ns[..i] == ns;
    } else {
      GreatestSplits(ns, i);
      GreatestGrows(ns, i + 1);
    }
  }

  // ----- the document of a plan -----

  /** The subtrees directly inside a tree. */
  function Kids(t: Tree): (kids: seq<Tree>)
    ensures forall i :: 0 <= i < |kids| ==> kids[i] < t
  {
    match t
    case Leaf(_) => []
    case Table(branches) => seq(|branches|, i requires 0 <= i < |branches| => branches[i].tree)
    case List(elems) => elems
  }

  /** The document, each argument's number replaced by its value (make). */
  function Document(t: Tree, values: seq<Json>): Json {
    match t
    case Leaf(k) => if k < |values| then values[k] else Null
    case Table(branches) =>
      Obj(seq(|branches|, i requires 0 <= i < |branches| => Member(branches[i].key, Document(branches[i].tree, values))))
    case List(elems) => Arr(seq(|elems|, i requires 0 <= i < |elems| => Document(elems[i], values)))
  }

  /** The objects and arrays the locations make (containers). */
  function Containers(t: Tree): nat
    decreases t, 1
  {
    if t.Leaf? then 0 else 1 + Sum(ContainersInside(t))
  }

  function ContainersInside(t: Tree): seq<nat>
    decreases t, 0
  {
    seq(|Kids(t)|, i requires 0 <= i < |Kids(t)| => Containers(Kids(t)[i]))
  }

  function At(ns: seq<nat>, k: nat): nat {
    if k < |ns| then ns[k] else 0
  }

  /** What the arguments in a tree weigh together. */
  function Weight(t: Tree, w: seq<nat>): nat
    decreases t, 1
  {
    if t.Leaf? then At(w, t.place) else Sum(WeightsInside(t, w))
  }

  function WeightsInside(t: Tree, w: seq<nat>): seq<nat>
    decreases t, 0
  {
    seq(|Kids(t)|, i requires 0 <= i < |Kids(t)| => Weight(Kids(t)[i], w))
  }

  /** How deep a tree nests when the arguments' values nest as deep as d says. */
  function Deep(t: Tree, d: seq<nat>): nat
    decreases t, 1
  {
    if t.Leaf? then At(d, t.place) else 1 + Greatest(DeepsInside(t, d))
  }

  function DeepsInside(t: Tree, d: seq<nat>): seq<nat>
    decreases t, 0
  {
    seq(|Kids(t)|, i requires 0 <= i < |Kids(t)| => Deep(Kids(t)[i], d))
  }

  function Counts(values: seq<Json>): seq<nat> {
    seq(|values|, i requires 0 <= i < |values| => CountOf(values[i]))
  }

  function Depths(values: seq<Json>): seq<nat> {
    seq(|values|, i requires 0 <= i < |values| => DepthOf(values[i]))
  }

  // ----- trees that placements make -----

  /** Every number in the tree is that of one of the first n arguments, and no table names a key twice. */
  ghost predicate WellMade(t: Tree, n: nat) {
    match t
    case Leaf(k) => k < n
    case Table(branches) =>
      && (forall i, j :: 0 <= i < j < |branches| ==> branches[i].key != branches[j].key)
      && forall i :: 0 <= i < |branches| ==> WellMade(branches[i].tree, n)
    case List(elems) => forall i :: 0 <= i < |elems| ==> WellMade(elems[i], n)
  }

  /** The position of the subtree a token leads to, or the number of subtrees. */
  function Slot(t: Tree, token: Token): (n: nat)
    ensures n <= |Kids(t)|
  {
    match t
    case Leaf(_) => 0
    case Table(branches) => if token.Append? then |branches| else Seek(branches, token.name)
    case List(elems) =>
      if token.Append? || Decimal(token.name) >= |elems| then |elems| else Decimal(token.name)
  }

  /** Placing changes one subtree or adds one at the end. */
  lemma {:induction false} PutKids(t: Tree, loc: seq<Token>, k: nat)
    requires loc != [] && Put(t, loc, k).Ok?
    ensures !t.Leaf? && Put(t, loc, k).value.Table? == t.Table? && !Put(t, loc, k).value.Leaf?
    ensures
      var n, after := Slot(t, loc[0]), Kids(Put(t, loc, k).value);
      if n < |Kids(t)| then
        |loc| > 1 && |after| == |Kids(t)| && Put(Kids(t)[n], loc[1..], k) == Ok(after[n]) && after == Kids(t)[n := after[n]]
      else |after| == n + 1 && Fresh(loc, k) == Ok(after[n]) && after == Kids(t) + [after[n]]
  {
  }

  lemma {:induction false} OpenedIsEmpty(token: Token, w: seq<nat>, n: nat)
    ensures Weight(Opened(token), w) == 0 && Deep(Opened(token), w) == 1 && Containers(Opened(token)) == 1
    ensures WellMade(Opened(token), n)
  {
    assert WeightsInside(Opened(token), w) == [] && DeepsInside(Opened(token), w) == [];
    assert ContainersInside(Opened(token)) == [];
  }

  /** Placing adds the argument's weight and nothing else. */
  lemma {:induction false} PutWeighs(t: Tree, loc: seq<Token>, k: nat, w: seq<nat>)
    requires loc != [] && Put(t, loc, k).Ok?
    ensures Weight(Put(t, loc, k).value, w) == Weight(t, w) + At(w, k)
    decreases |loc|
  {
    hide Put, Fresh, Kids, Slot;
    PutKids(t, loc, k);
    var after, n := Put(t, loc, k).value, Slot(t, loc[0]);
    var old', new' := WeightsInside(t, w), WeightsInside(after, w);
    if n < |Kids(t)| {
      PutWeighs(Kids(t)[n], loc[1..], k, w);
      assert new' == old'[n := new'[n]];
      SumUpdate(old', n, new'[n]);
    } else {
      FreshWeighs(loc, k, w);
      assert new' == old' + [new'[n]];
      assert new'[..n] == old';
    }
  }

  lemma {:induction false} FreshWeighs(loc: seq<Token>, k: nat, w: seq<nat>)
    requires loc != [] && Fresh(loc, k).Ok?
    ensures Weight(Fresh(loc, k).value, w) == At(w, k)
    decreases |loc|, 0
  {
    hide Put;
    FreshPuts(loc, k);
    if |loc| > 1 {
      OpenedIsEmpty(loc[1], w, 0);
      PutWeighs(Opened(loc[1]), loc[1..], k, w);
    }
  }

  function Max(a: nat, b: nat): nat {
    if a < b then b else a
  }

  /** Placing makes the tree as deep as the argument's location and value together. */
  lemma {:induction false} PutDeepens(t: Tree, loc: seq<Token>, k: nat, d: seq<nat>)
    requires loc != [] && Put(t, loc, k).Ok?
    ensures Deep(Put(t, loc, k).value, d) == Max(Deep(t, d), |loc| + At(d, k))
    decreases |loc|
  {
    hide Put, Fresh, Kids, Slot;
    PutKids(t, loc, k);
    var after, n := Put(t, loc, k).value, Slot(t, loc[0]);
    var old', new' := DeepsInside(t, d), DeepsInside(after, d);
    if n < |Kids(t)| {
      PutDeepens(Kids(t)[n], loc[1..], k, d);
      assert new' == old'[n := new'[n]];
      GreatestRaised(old', n, |loc| - 1 + At(d, k));
    } else {
      FreshDeepens(loc, k, d);
      assert new' == old' + [new'[n]];
      assert new'[..n] == old';
    }
  }

  lemma {:induction false} FreshDeepens(loc: seq<Token>, k: nat, d: seq<nat>)
    requires loc != [] && Fresh(loc, k).Ok?
    ensures Deep(Fresh(loc, k).value, d) == |loc| - 1 + At(d, k)
    decreases |loc|, 0
  {
    hide Put;
    FreshPuts(loc, k);
    if |loc| > 1 {
      OpenedIsEmpty(loc[1], d, 0);
      PutDeepens(Opened(loc[1]), loc[1..], k, d);
    }
  }

  lemma {:induction false} GreatestRaised(ns: seq<nat>, i: nat, x: nat)
    requires i < |ns|
    ensures Greatest(ns[i := Max(ns[i], x)]) == Max(Greatest(ns), x)
  {
    var n := |ns| - 1;
    var after := ns[i := Max(ns[i], x)];
    if i < n {
      GreatestRaised(ns[..n], i, x);
      assert after[..n] == ns[..n][i := Max(ns[i], x)];
    } else {
      assert after[..n] == ns[..n];
    }
  }

  /** Placing keeps a tree well made. */
  lemma {:induction false} PutWellMade(t: Tree, loc: seq<Token>, k: nat, n: nat)
    requires loc != [] && Put(t, loc, k).Ok? && WellMade(t, n) && k < n
    ensures WellMade(Put(t, loc, k).value, n)
    decreases |loc|
  {
    hide Fresh;
    if t.List? {
      if loc[0].Append? {
        FreshWellMade(loc, k, n);
      } else {
        PutWellMade(t.elems[Decimal(loc[0].name)], loc[1..], k, n);
      }
    } else {
      var i := Seek(t.branches, loc[0].name);
      if i < |t.branches| {
        PutWellMade(t.branches[i].tree, loc[1..], k, n);
      } else {
        FreshWellMade(loc, k, n);
      }
    }
  }

  lemma {:induction false} FreshWellMade(loc: seq<Token>, k: nat, n: nat)
    requires loc != [] && Fresh(loc, k).Ok? && k < n
    ensures WellMade(Fresh(loc, k).value, n)
    decreases |loc|, 0
  {
    hide Put;
    FreshPuts(loc, k);
    if |loc| > 1 {
      OpenedIsEmpty(loc[1], [], n);
      PutWellMade(Opened(loc[1]), loc[1..], k, n);
    }
  }

  lemma {:induction false} WellMadeGrows(t: Tree, n: nat, m: nat)
    requires WellMade(t, n) && n <= m
    ensures WellMade(t, m)
  {
    match t {
      case Leaf(_) =>
      case Table(branches) =>
        forall i | 0 <= i < |branches| ensures WellMade(branches[i].tree, m) {
          WellMadeGrows(branches[i].tree, n, m);
        }
      case List(elems) =>
        forall i | 0 <= i < |elems| ensures WellMade(elems[i], m) {
          WellMadeGrows(elems[i], n, m);
        }
    }
  }

  // ----- what the document holds -----

  /** The value at a location of a document. */
  function ValueAt(v: Json, p: seq<Step>): Option<Json>
    decreases |p|
  {
    if p == [] then Some(v)
    else if p[0].Key? && v.Obj? && Get(v.members, p[0].name).Some? then ValueAt(Get(v.members, p[0].name).value, p[1..])
    else if p[0].Index? && v.Arr? && p[0].at < |v.items| then ValueAt(v.items[p[0].at], p[1..])
    else None
  }

  /** What the tree has at a location, the document has there. */
  lemma {:induction false} DocumentFollows(t: Tree, values: seq<Json>, p: seq<Step>)
    requires Sub(t, p).Some?
    ensures ValueAt(Document(t, values), p) == Some(Document(Sub(t, p).value, values))
    decreases |p|
  {
    hide Get;
    if p != [] {
      DocumentFollows(Child(t, p[0]), values, p[1..]);
      if t.Table? {
        GetFollows(t.branches, values, p[0].name);
      }
    }
  }

  lemma {:induction false} GetFollows(branches: seq<Branch>, values: seq<Json>, key: string)
    requires Seek(branches, key) < |branches|
    ensures Get(Document(Table(branches), values).members, key) == Some(Document(branches[Seek(branches, key)].tree, values))
  {
    var members := Document(Table(branches), values).members;
    var n, m := Seek(branches, key), Find(members, key);
    assert members[n].key == key;
    assert m < |members| ==> branches[m].key == members[m].key;
  }

  /** The document holds the containers the locations make and the values the arguments give, and no more. */
  lemma {:induction false} DocumentCounts(t: Tree, values: seq<Json>)
    requires WellMade(t, |values|)
    ensures CountOf(Document(t, values)) == Containers(t) + Weight(t, Counts(values))
  {
    hide CountOf, Containers, Weight, Document;
    if t.Leaf? {
      LeafMeasures(t, values);
    } else {
      var doc := Document(t, values);
      var counts, made, weights := CountsInside(doc), ContainersInside(t), WeightsInside(t, Counts(values));
      KidsOfDocument(t, values);
      forall i | 0 <= i < |Kids(t)| ensures counts[i] == made[i] + weights[i] {
        DocumentCounts(Kids(t)[i], values);
      }
      SumOfSums(counts, made, weights);
      NodeMeasures(t, values);
    }
  }

  lemma {:induction false} LeafMeasures(t: Tree, values: seq<Json>)
    requires t.Leaf? && t.place < |values|
    ensures CountOf(Document(t, values)) == Containers(t) + Weight(t, Counts(values))
    ensures DepthOf(Document(t, values)) == Deep(t, Depths(values))
  {
    hide CountOf, DepthOf;
  }

  lemma {:induction false} NodeMeasures(t: Tree, values: seq<Json>)
    requires !t.Leaf?
    ensures CountOf(Document(t, values)) == 1 + Sum(CountsInside(Document(t, values)))
    ensures DepthOf(Document(t, values)) == 1 + Greatest(DepthsInside(Document(t, values)))
    ensures Containers(t) == 1 + Sum(ContainersInside(t))
    ensures Weight(t, Counts(values)) == Sum(WeightsInside(t, Counts(values)))
    ensures Deep(t, Depths(values)) == 1 + Greatest(DeepsInside(t, Depths(values)))
  {
    hide Sum, Greatest, CountsInside, DepthsInside, ContainersInside, WeightsInside, DeepsInside, Counts, Depths;
  }

  lemma {:induction false} KidsOfDocument(t: Tree, values: seq<Json>)
    requires !t.Leaf?
    ensures |Inside(Document(t, values))| == |Kids(t)|
    ensures forall i :: 0 <= i < |Kids(t)| ==> Inside(Document(t, values))[i] == Document(Kids(t)[i], values)
    ensures forall n :: WellMade(t, n) ==> forall i :: 0 <= i < |Kids(t)| ==> WellMade(Kids(t)[i], n)
  {
  }

  lemma {:induction false} SumOfSums(a: seq<nat>, b: seq<nat>, c: seq<nat>)
    requires |a| == |b| == |c| && forall i :: 0 <= i < |a| ==> a[i] == b[i] + c[i]
    ensures Sum(a) == Sum(b) + Sum(c)
  {
    if a != [] {
      var n := |a| - 1;
      SumOfSums(a[..n], b[..n], c[..n]);
    }
  }

  /** The document nests as deep as the locations and the values together. */
  lemma {:induction false} DocumentDepth(t: Tree, values: seq<Json>)
    requires WellMade(t, |values|)
    ensures DepthOf(Document(t, values)) == Deep(t, Depths(values))
  {
    hide DepthOf, Deep, Document;
    if t.Leaf? {
      LeafMeasures(t, values);
    } else {
      var doc := Document(t, values);
      KidsOfDocument(t, values);
      forall i | 0 <= i < |Kids(t)| ensures DepthsInside(doc)[i] == DeepsInside(t, Depths(values))[i] {
        DocumentDepth(Kids(t)[i], values);
      }
      assert DepthsInside(doc) == DeepsInside(t, Depths(values));
      NodeMeasures(t, values);
    }
  }

  // ----- what the document of accepted arguments comes to -----

  predicate Stepping(locs: seq<seq<Token>>) {
    forall i :: 0 <= i < |locs| ==> locs[i] != []
  }

  /** How deep each argument takes the document: the containers around its value and those in it. */
  function Reaches(locs: seq<seq<Token>>, d: seq<nat>): seq<nat> {
    seq(|locs|, i requires 0 <= i < |locs| => |locs[i]| + At(d, i))
  }

  function First(w: seq<nat>, n: nat): seq<nat> {
    seq(n, i requires 0 <= i < n => At(w, i))
  }

  lemma {:induction false} PutAllMeasures(root: Tree, locs: seq<seq<Token>>, w: seq<nat>)
    requires root in {Table([]), List([])} && Stepping(locs) && PutAll(root, locs).Ok?
    ensures
      var t := PutAll(root, locs).value;
      && !t.Leaf? && WellMade(t, |locs|)
      && Weight(t, w) == Sum(First(w, |locs|))
      && Deep(t, w) == Max(1, Greatest(Reaches(locs, w)))
    decreases |locs|
  {
    hide Weight, Deep, Put, WellMade;
    if locs == [] {
      OpenedIsEmpty(if root.List? then Append else Named("", false), w, 0);
    } else {
      var n := |locs| - 1;
      var before, after := PutAll(root, locs[..n]).value, PutAll(root, locs).value;
      PutAllMeasures(root, locs[..n], w);
      WellMadeGrows(before, n, n + 1);
      PutWellMade(before, locs[n], n, n + 1);
      PutWeighs(before, locs[n], n, w);
      PutDeepens(before, locs[n], n, w);
      PutKids(before, locs[n], n);
      assert First(w, n + 1)[..n] == First(w, n);
      assert Reaches(locs, w)[..n] == Reaches(locs[..n], w);
    }
  }

  /** The document has every argument's value at the argument's location; it holds the containers that locations
      made and the arguments' values, each once; and it nests as deep as the argument that reaches furthest. */
  lemma {:induction false} DocumentIsItsArguments(root: Tree, locs: seq<seq<Token>>, values: seq<Json>)
    requires root in {Table([]), List([])} && Stepping(locs) && PutAll(root, locs).Ok? && |values| == |locs|
    ensures
      var t := PutAll(root, locs).value;
      var doc := Document(t, values);
      && (forall i :: 0 <= i < |locs| ==> ValueAt(doc, Paths(root, locs)[i]) == Some(values[i]))
      && CountOf(doc) == Containers(t) + Sum(Counts(values))
      && DepthOf(doc) == Max(1, Greatest(Reaches(locs, Depths(values))))
  {
    hide PutAll, Paths, ValueAt, CountOf, DepthOf, Containers, Weight, Deep, Reaches, WellMade, Sub;
    var t := PutAll(root, locs).value;
    forall i | 0 <= i < |locs| ensures ValueAt(Document(t, values), Paths(root, locs)[i]) == Some(values[i]) {
      var p := Paths(root, locs)[i];
      EveryPlacementIsKept(root, locs, p);
      DocumentFollows(t, values, p);
    }
    PutAllMeasures(root, locs, Counts(values));
    PutAllMeasures(root, locs, Depths(values));
    assert First(Counts(values), |locs|) == Counts(values);
    DocumentCounts(t, values);
    DocumentDepth(t, values);
  }
}
