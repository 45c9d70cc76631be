/**
 The document a command line describes (internal/jsonbuild/jsonbuild.go): containers that locations open and
 values that arguments give, as a tree whose leaves are the arguments' numbers.
 */
module Plans {
  import opened Lines
  import opened Texts
  import opened Json

  /** One step of a location as it is written: a name, which may also read as an index, or the end of an array. */
  datatype Token = Named(name: string, index: bool) | Append

  /** One step of a location as it was resolved. */
  datatype Step = Key(name: string) | Index(at: nat)

  datatype Tree = Leaf(place: nat) | Table(branches: seq<Branch>) | List(elems: seq<Tree>)

  datatype Branch = Branch(key: string, tree: Tree)

  /** The position of a key, or the number of branches. */
  function Seek(branches: seq<Branch>, key: string): (n: nat)
    ensures n <= |branches|
    ensures n < |branches| ==> branches[n].key == key
    ensures forall i :: 0 <= i < n ==> branches[i].key != key
  {
    if branches == [] || branches[0].key == key then 0 else 1 + Seek(branches[1..], key)
  }

  // ----- placing an argument -----

  /** What stands at the end of the first token when nothing did: the value itself, or the container the second
      token needs with the rest of the location inside (create). */
  function Fresh(loc: seq<Token>, k: nat): Outcome<Tree>
    requires loc != []
    decreases |loc|, 0
  {
    if |loc| == 1 then Ok(Leaf(k))
    else if loc[1].Append? then Put(List([]), loc[1..], k)
    else if loc[1].index then Refused
    else Put(Table([]), loc[1..], k)
  }

  /** The k-th argument placed at a location inside a container (place, intoObject, intoArray). */
  function Put(t: Tree, loc: seq<Token>, k: nat): Outcome<Tree>
    requires loc != []
    decreases |loc|, 2
  {
    match t
    case Leaf(_) => Refused
    case Table(branches) => PutInTable(branches, loc, k)
    case List(elems) => PutInList(elems, loc, k)
  }

  function PutInTable(branches: seq<Branch>, loc: seq<Token>, k: nat): Outcome<Tree>
    requires loc != []
    decreases |loc|, 1
  {
    if loc[0].Append? then Refused
    else
      var n := Seek(branches, loc[0].name);
      if n == |branches| then
        var made :- Fresh(loc, k);
        Ok(Table(branches + [Branch(loc[0].name, made)]))
      else if |loc| == 1 then Refused
      else
        var sub :- Put(branches[n].tree, loc[1..], k);
        Ok(Table(branches[n := Branch(loc[0].name, sub)]))
  }

  function PutInList(elems: seq<Tree>, loc: seq<Token>, k: nat): Outcome<Tree>
    requires loc != []
    decreases |loc|, 1
  {
    if loc[0].Append? then
      var made :- Fresh(loc, k);
      Ok(List(elems + [made]))
    else if !loc[0].index || Decimal(loc[0].name) >= |elems| || |loc| == 1 then Refused
    else
      var sub :- Put(elems[Decimal(loc[0].name)], loc[1..], k);
      Ok(List(elems[Decimal(loc[0].name) := sub]))
  }

  /** The first n arguments placed in their order. */
  function PutAll(root: Tree, locs: seq<seq<Token>>): Outcome<Tree>
    requires forall i :: 0 <= i < |locs| ==> locs[i] != []
  {
    if locs == [] then Ok(root)
    else
      var t :- PutAll(root, locs[..|locs| - 1]);
      Put(t, locs[|locs| - 1], |locs| - 1)
  }

  // ----- where things are -----

  /** The subtree at a resolved location. */
  function Sub(t: Tree, p: seq<Step>): Option<Tree>
    decreases |p|
  {
    if p == [] then Some(t)
    else if !Enters(t, p[0]) then None
    else Sub(Child(t, p[0]), p[1..])
  }

  /** A step leads from this tree to one of its subtrees. */
  predicate Enters(t: Tree, s: Step) {
    match t
    case Leaf(_) => false
    case Table(branches) => s.Key? && Seek(branches, s.name) < |branches|
    case List(elems) => s.Index? && s.at < |elems|
  }

  function Child(t: Tree, s: Step): (c: Tree)
    requires Enters(t, s)
  {
    if t.Table? then t.branches[Seek(t.branches, s.name)].tree else t.elems[s.at]
  }

  /** The argument whose value stands at a location. */
  function LeafAt(t: Tree, p: seq<Step>): Option<nat> {
    var sub := Sub(t, p);
    if sub.Some? && sub.value.Leaf? then Some(sub.value.place) else None
  }

  /** The step a token takes from here: appending goes to the index that is next. */
  function StepOf(t: Tree, token: Token): Step {
    if token.Append? then Index(if t.List? then |t.elems| else 0)
    else if t.List? then Index(Decimal(token.name))
    else Key(token.name)
  }

  /** The container a token needs to be made for it. */
  function Opened(token: Token): Tree {
    if token.Append? then List([]) else Table([])
  }

  /** The location a placement comes to. */
  function PathOf(t: Tree, loc: seq<Token>): (p: seq<Step>)
    ensures |p| == |loc|
    decreases |loc|
  {
    if loc == [] then []
    else
      var s := StepOf(t, loc[0]);
      var next :=
        if Enters(t, s) then Child(t, s) else if |loc| > 1 then Opened(loc[1]) else t;
      [s] + PathOf(next, loc[1..])
  }

  /** One step of placing: the child the first token leads to is the one that changes, or the one that is new. */
  lemma {:induction false} PutSteps(t: Tree, loc: seq<Token>, k: nat)
    requires loc != [] && Put(t, loc, k).Ok?
    ensures !t.Leaf? && !Put(t, loc, k).value.Leaf?
    ensures Enters(Put(t, loc, k).value, StepOf(t, loc[0]))
    ensures
      var s := StepOf(t, loc[0]);
      var child := Child(Put(t, loc, k).value, s);
      if Enters(t, s) then |loc| > 1 && Put(Child(t, s), loc[1..], k) == Ok(child)
      else Fresh(loc, k) == Ok(child)
    ensures forall s :: s != StepOf(t, loc[0]) ==>
      && Enters(Put(t, loc, k).value, s) == Enters(t, s)
      && (Enters(t, s) ==> Child(Put(t, loc, k).value, s) == Child(t, s))
  {
    var after, own := Put(t, loc, k).value, StepOf(t, loc[0]);
    if t.Table? {
      var n := Seek(t.branches, loc[0].name);
      SeekInGrown(t.branches, after.branches, own.name, own.name);
      forall s | s != own
        ensures Enters(after, s) == Enters(t, s) && (Enters(t, s) ==> Child(after, s) == Child(t, s))
      {
        if s.Key? {
          SeekInGrown(t.branches, after.branches, own.name, s.name);
        }
      }
    }
  }

  /** A table that gained or changed one branch finds every other key where it was. */
  lemma {:induction false} SeekInGrown(before: seq<Branch>, after: seq<Branch>, own: string, key: string)
    requires |after| == if Seek(before, own) == |before| then |before| + 1 else |before|
    requires after[Seek(before, own)].key == own
    requires forall i :: 0 <= i < |before| && i != Seek(before, own) ==> after[i] == before[i]
    ensures key == own ==> Seek(after, key) == Seek(before, own)
    ensures key != own ==>
      if Seek(before, key) < |before| then Seek(after, key) == Seek(before, key) else Seek(after, key) == |after|
  {
    var n, m, m' := Seek(before, own), Seek(before, key), Seek(after, key);
    assert key == own || m < |before| ==> after[m].key == key;
    if m' < |after| && m' != n {
      assert after[m'] == before[m'];
    }
  }

  lemma {:induction false} FreshPuts(loc: seq<Token>, k: nat)
    requires loc != []
    ensures Fresh(loc, k) ==
      if |loc| == 1 then Ok(Leaf(k))
      else if loc[1].Named? && loc[1].index then Refused
      else Put(Opened(loc[1]), loc[1..], k)
  {
  }

  lemma {:induction false} NothingUnderALeaf(k: nat, p: seq<Step>)
    ensures LeafAt(Leaf(k), p) == if p == [] then Some(k) else None
  {
  }

  /** Placing an argument puts its number at the location it comes to, where no value stood, and leaves every
      value where it was. */
  lemma {:induction false} PutKeeps(t: Tree, loc: seq<Token>, k: nat, p: seq<Step>)
    requires loc != [] && Put(t, loc, k).Ok?
    ensures LeafAt(Put(t, loc, k).value, p) == if p == PathOf(t, loc) then Some(k) else LeafAt(t, p)
    ensures LeafAt(t, PathOf(t, loc)) == None
    decreases |loc|
  {
    hide Put, Fresh, Enters, Child, StepOf;
    var after, path := Put(t, loc, k).value, PathOf(t, loc);
    var s := StepOf(t, loc[0]);
    PutSteps(t, loc, k);
    var rest := if p == [] then [] else p[1..];
    assert path[0] == s;
    assert p != [] ==> p == [p[0]] + rest;
    if Enters(t, s) {
      PutKeeps(Child(t, s), loc[1..], k, rest);
      assert path[1..] == PathOf(Child(t, s), loc[1..]);
    } else {
      FreshPuts(loc, k);
      assert path[1..] == PathOf(if |loc| > 1 then Opened(loc[1]) else t, loc[1..]);
      if |loc| > 1 {
        PutKeeps(Opened(loc[1]), loc[1..], k, rest);
        NothingInside(loc[1], rest);
      } else {
        NothingUnderALeaf(k, rest);
      }
    }
  }

  /** A container that was just opened holds nothing. */
  lemma {:induction false} NothingInside(token: Token, p: seq<Step>)
    ensures LeafAt(Opened(token), p) == None
  {
  }

  /** The locations the arguments come to, in their order. */
  function Paths(root: Tree, locs: seq<seq<Token>>): (paths: seq<seq<Step>>)
    requires forall i :: 0 <= i < |locs| ==> locs[i] != []
    requires PutAll(root, locs).Ok?
    ensures |paths| == |locs|
  {
    if locs == [] then []
    else
      var n := |locs| - 1;
      Paths(root, locs[..n]) + [PathOf(PutAll(root, locs[..n]).value, locs[n])]
  }

  /** A value stands at a location exactly when it is the argument's that comes to it: no argument moves or
      overwrites another, and no two share a location. */
  lemma {:induction false} EveryPlacementIsKept(root: Tree, locs: seq<seq<Token>>, p: seq<Step>)
    requires root in {Table([]), List([])}
    requires forall i :: 0 <= i < |locs| ==> locs[i] != []
    requires PutAll(root, locs).Ok?
    ensures forall i :: 0 <= i < |locs| ==>
      (LeafAt(PutAll(root, locs).value, p) == Some(i) <==> Paths(root, locs)[i] == p)
    ensures LeafAt(PutAll(root, locs).value, p).Some? ==> LeafAt(PutAll(root, locs).value, p).value < |locs|
    decreases |locs|
  {
    hide Put, PathOf, LeafAt;
    if locs == [] {
      NothingInside(if root.List? then Append else Named("", false), p);
    } else {
      var n := |locs| - 1;
      var before := PutAll(root, locs[..n]).value;
      EveryPlacementIsKept(root, locs[..n], p);
      EveryPlacementIsKept(root, locs[..n], PathOf(before, locs[n]));
      PutKeeps(before, locs[n], n, p);
    }
  }

  /** Where a value stands nothing more can be placed, neither at its location nor inside it. */
  lemma {:induction false} NothingEntersAValue(t: Tree, loc: seq<Token>, k: nat, p: seq<Step>)
    requires LeafAt(t, p).Some? && p != [] && p <= PathOf(t, loc)
    ensures Put(t, loc, k).Refused?
    decreases |loc|
  {
    hide Put, Fresh, Child, StepOf;
    if Put(t, loc, k).Ok? {
      PutSteps(t, loc, k);
      var s := StepOf(t, loc[0]);
      assert PathOf(t, loc)[0] == s && p[0] == s;
      assert Enters(t, s);
      if |p| > 1 {
        assert p[1..] <= PathOf(t, loc)[1..];
        NothingEntersAValue(Child(t, s), loc[1..], k, p[1..]);
      } else {
        assert p[1..] == [] && Sub(t, p) == Sub(Child(t, s), p[1..]);
        PutNeedsAContainer(Child(t, s), loc[1..], k);
      }
    }
  }

  lemma {:induction false} PutNeedsAContainer(t: Tree, loc: seq<Token>, k: nat)
    requires loc != [] && t.Leaf?
    ensures Put(t, loc, k).Refused?
  {
  }
}
