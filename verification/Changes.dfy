/**
 What a planned document looks like after one change to it: the pure side of linking nodes in place
 (internal/jsonbuild/jsonbuild.go, place, intoObject, intoArray).
 */
module Changes {
  import opened Lines
  import opened Texts
  import opened Plans

  /** What a node shows of the tree it stands for. */
  datatype Face = Value(place: nat) | Keys(keys: seq<string>) | Length(len: nat)

  function FaceOf(t: Tree): Face {
    match t
    case Leaf(k) => Value(k)
    case Table(branches) => Keys(seq(|branches|, i requires 0 <= i < |branches| => branches[i].key))
    case List(elems) => Length(|elems|)
  }

  function WithChild(t: Tree, s: Step, x: Tree): (after: Tree)
    requires Enters(t, s)
  {
    if t.Table? then Table(t.branches[Seek(t.branches, s.name) := Branch(s.name, x)]) else List(t.elems[s.at := x])
  }

  function Replace(t: Tree, p: seq<Step>, x: Tree): Tree
    requires Sub(t, p).Some?
    decreases |p|
  {
    if p == [] then x else WithChild(t, p[0], Replace(Child(t, p[0]), p[1..], x))
  }

  /** A container with one more subtree at its end. */
  function Extended(t: Tree, token: Token, x: Tree): Tree
    requires !t.Leaf?
  {
    if t.List? then List(t.elems + [x]) else Table(t.branches + [Branch(if token.Named? then token.name else "", x)])
  }

  lemma {:induction false} WithChildIs(t: Tree, s: Step, x: Tree)
    requires Enters(t, s)
    ensures FaceOf(WithChild(t, s, x)) == FaceOf(t)
    ensures Enters(WithChild(t, s, x), s) && Child(WithChild(t, s, x), s) == x
    ensures forall s' :: Enters(WithChild(t, s, x), s') == Enters(t, s')
    ensures forall s' :: s' != s && Enters(t, s') ==> Child(WithChild(t, s, x), s') == Child(t, s')
  {
    var after := WithChild(t, s, x);
    if t.Table? {
      forall key: string ensures Seek(after.branches, key) == Seek(t.branches, key) {
        SeekInGrown(t.branches, after.branches, s.name, key);
      }
    }
  }

  /** What is under the location is new; what is elsewhere looks as it did. */
  lemma {:induction false} ReplaceShows(t: Tree, p: seq<Step>, x: Tree, q: seq<Step>)
    requires Sub(t, p).Some?
    ensures p <= q ==> Sub(Replace(t, p, x), q) == Sub(x, q[|p|..])
    ensures !(p <= q) ==> Sub(Replace(t, p, x), q).Some? == Sub(t, q).Some?
    ensures !(p <= q) && Sub(t, q).Some? ==> FaceOf(Sub(Replace(t, p, x), q).value) == FaceOf(Sub(t, q).value)
    decreases |p|
  {
    hide FaceOf, WithChild;
    if p == [] {
      assert q[|p|..] == q;
    } else {
      var s, rest := p[0], if q == [] then [] else q[1..];
      assert p == [s] + p[1..];
      assert q != [] ==> q == [q[0]] + rest;
      WithChildIs(t, s, Replace(Child(t, s), p[1..], x));
      ReplaceShows(Child(t, s), p[1..], x, rest);
      assert p <= q ==> p[1..] <= rest && q[|p|..] == rest[|p| - 1..];
      assert q != [] && q[0] == s && p[1..] <= rest ==> p <= q;
    }
  }

  lemma {:induction false} ReplaceTwice(t: Tree, p: seq<Step>, x: Tree, s: Step, y: Tree)
    requires Sub(t, p).Some? && Enters(x, s)
    ensures Sub(Replace(t, p, x), p + [s]) == Some(Child(x, s))
    ensures Replace(Replace(t, p, x), p + [s], y) == Replace(t, p, WithChild(x, s, y))
    decreases |p|
  {
    hide FaceOf;
    ReplaceShows(t, p, x, p + [s]);
    assert (p + [s])[|p|..] == [s];
    if p == [] {
      assert p + [s] == [s];
      assert Sub(Child(x, s), []) == Some(Child(x, s));
    } else {
      var inner := Replace(Child(t, p[0]), p[1..], x);
      assert (p + [s])[1..] == p[1..] + [s];
      ReplaceTwice(Child(t, p[0]), p[1..], x, s, y);
      WithChildIs(t, p[0], inner);
      WithChildTwice(t, p[0], inner, Replace(inner, p[1..] + [s], y));
    }
  }

  lemma {:induction false} WithChildTwice(t: Tree, s: Step, x: Tree, y: Tree)
    requires Enters(t, s)
    ensures Enters(WithChild(t, s, x), s)
    ensures WithChild(WithChild(t, s, x), s, y) == WithChild(t, s, y)
  {
    if t.Table? {
      SeekInGrown(t.branches, WithChild(t, s, x).branches, s.name, s.name);
    }
  }

  // ----- one step of placing -----

  /** A token that this container can take a step with. */
  predicate Takes(t: Tree, token: Token) {
    if t.Table? then token.Named? else t.List? && (token.Append? || (token.index && Enters(t, StepOf(t, token))))
  }

  /** What placing comes to from inside: the rest of the location put in the subtree that has been reached. */
  function Walk(t: Tree, p: seq<Step>, rest: seq<Token>, k: nat): Outcome<Tree>
    requires Sub(t, p).Some? && rest != []
  {
    var sub :- Put(Sub(t, p).value, rest, k);
    Ok(Replace(t, p, sub))
  }

  lemma {:induction false} PutEnters(t: Tree, loc: seq<Token>, k: nat)
    requires loc != [] && Takes(t, loc[0]) && Enters(t, StepOf(t, loc[0]))
    ensures |loc| == 1 ==> Put(t, loc, k).Refused?
    ensures |loc| > 1 ==>
      var s := StepOf(t, loc[0]);
      var sub := Put(Child(t, s), loc[1..], k);
      Put(t, loc, k) == if sub.Refused? then Refused else Ok(WithChild(t, s, sub.value))
  {
  }

  lemma {:induction false} PutOpens(t: Tree, loc: seq<Token>, k: nat)
    requires loc != [] && Takes(t, loc[0]) && !Enters(t, StepOf(t, loc[0]))
    ensures |loc| == 1 ==> Put(t, loc, k) == Ok(Extended(t, loc[0], Leaf(k)))
    ensures |loc| > 1 && loc[1].Named? && loc[1].index ==> Put(t, loc, k).Refused?
    ensures |loc| > 1 && !(loc[1].Named? && loc[1].index) ==>
      var s, grown := StepOf(t, loc[0]), Extended(t, loc[0], Opened(loc[1]));
      var sub := Put(Opened(loc[1]), loc[1..], k);
      && Enters(grown, s) && Child(grown, s) == Opened(loc[1])
      && Put(t, loc, k) == if sub.Refused? then Refused else Ok(WithChild(grown, s, sub.value))
  {
    hide Fresh;
    FreshPuts(loc, k);
    if |loc| > 1 {
      ExtendedIs(t, loc[0], Opened(loc[1]));
      var sub := Put(Opened(loc[1]), loc[1..], k);
      if sub.Ok? {
        ExtendedThenChanged(t, loc[0], Opened(loc[1]), sub.value);
      }
    }
    if t.Table? {
      assert Put(t, loc, k) == PutInTable(t.branches, loc, k);
    } else {
      assert Put(t, loc, k) == PutInList(t.elems, loc, k);
    }
  }

  lemma {:induction false} ExtendedIs(t: Tree, token: Token, x: Tree)
    requires Takes(t, token) && !Enters(t, StepOf(t, token))
    ensures
      var s, after := StepOf(t, token), Extended(t, token, x);
      && Enters(after, s) && Child(after, s) == x
      && (forall s' :: s' != s ==> Enters(after, s') == Enters(t, s'))
      && (forall s' :: s' != s && Enters(t, s') ==> Child(after, s') == Child(t, s'))
  {
    if t.Table? {
      var after := Extended(t, token, x);
      forall key: string
        ensures key == token.name ==> Seek(after.branches, key) == |t.branches|
        ensures key != token.name ==>
          if Seek(t.branches, key) < |t.branches| then Seek(after.branches, key) == Seek(t.branches, key)
          else Seek(after.branches, key) == |after.branches|
      {
        SeekInGrown(t.branches, after.branches, token.name, key);
      }
    }
  }

  lemma {:induction false} ExtendedThenChanged(t: Tree, token: Token, x: Tree, y: Tree)
    requires Takes(t, token) && !Enters(t, StepOf(t, token))
    ensures Enters(Extended(t, token, x), StepOf(t, token))
    ensures WithChild(Extended(t, token, x), StepOf(t, token), y) == Extended(t, token, y)
  {
    ExtendedIs(t, token, x);
    if t.Table? {
      var after := Extended(t, token, x);
      assert after.branches[|t.branches|].key == token.name;
      assert after.branches[|t.branches| := Branch(token.name, y)] == t.branches + [Branch(token.name, y)];
    }
  }

  /** A step that cannot be taken refuses the whole location. */
  lemma {:induction false} StepRefused(t: Tree, p: seq<Step>, rest: seq<Token>, k: nat)
    requires Sub(t, p).Some? && rest != []
    requires
      var sub := Sub(t, p).value;
      || !Takes(sub, rest[0])
      || (Enters(sub, StepOf(sub, rest[0])) && |rest| == 1)
      || (!Enters(sub, StepOf(sub, rest[0])) && |rest| > 1 && rest[1].Named? && rest[1].index)
    ensures Walk(t, p, rest, k).Refused?
  {
    var sub := Sub(t, p).value;
    if !Takes(sub, rest[0]) {
      assert sub.Table? ==> Put(sub, rest, k) == PutInTable(sub.branches, rest, k);
      assert sub.List? ==> Put(sub, rest, k) == PutInList(sub.elems, rest, k);
    } else {
      if Enters(sub, StepOf(sub, rest[0])) {
        PutEnters(sub, rest, k);
      } else {
        PutOpens(sub, rest, k);
      }
    }
  }

  lemma {:induction false} ExtendedFace(t: Tree, token: Token, x: Tree)
    requires Takes(t, token) && !Enters(t, StepOf(t, token))
    ensures t.Table? ==> FaceOf(t).Keys? && token.Named? && FaceOf(Extended(t, token, x)) == Keys(FaceOf(t).keys + [token.name])
    ensures t.List? ==> FaceOf(t).Length? && FaceOf(Extended(t, token, x)) == Length(FaceOf(t).len + 1)
  {
  }

  /** What the keys of a table and the length of a list say about a step. */
  lemma {:induction false} StepInside(t: Tree, token: Token)
    ensures t.Table? && token.Named? ==>
      Takes(t, token) && StepOf(t, token) == Key(token.name)
      && (Enters(t, Key(token.name)) <==> token.name in FaceOf(t).keys)
    ensures t.Table? && token.Append? ==> !Takes(t, token)
    ensures t.List? && token.Append? ==> Takes(t, token) && StepOf(t, token) == Index(|t.elems|) && !Enters(t, Index(|t.elems|))
    ensures t.List? && token.Named? ==>
      && StepOf(t, token) == Index(Decimal(token.name))
      && (Takes(t, token) <==> token.index && Decimal(token.name) < |t.elems|)
      && (Takes(t, token) ==> Enters(t, StepOf(t, token)))
  {
    if t.Table? && token.Named? {
      var n, keys := Seek(t.branches, token.name), FaceOf(t).keys;
      if n < |t.branches| {
        assert keys[n] == token.name;
      }
      forall i | 0 <= i < |keys| && keys[i] == token.name ensures n < |t.branches| {
        assert t.branches[i].key == keys[i];
      }
    }
  }

  /** Going on inside a subtree that is there comes to the same. */
  lemma {:induction false} WalkEnters(t: Tree, p: seq<Step>, rest: seq<Token>, k: nat)
    requires Sub(t, p).Some? && |rest| > 1
    requires Takes(Sub(t, p).value, rest[0]) && Enters(Sub(t, p).value, StepOf(Sub(t, p).value, rest[0]))
    ensures
      var s := StepOf(Sub(t, p).value, rest[0]);
      && Sub(t, p + [s]) == Some(Child(Sub(t, p).value, s))
      && Walk(t, p, rest, k) == Walk(t, p + [s], rest[1..], k)
  {
    hide Put, Takes, StepOf, Child, WithChild, Enters;
    var sub := Sub(t, p).value;
    var s := StepOf(sub, rest[0]);
    PutEnters(sub, rest, k);
    ReplaceItself(t, p);
    ReplaceTwice(t, p, sub, s, Child(sub, s));
    var inner := Put(Child(sub, s), rest[1..], k);
    if inner.Ok? {
      ReplaceTwice(t, p, sub, s, inner.value);
    }
  }

  lemma {:induction false} ReplaceItself(t: Tree, p: seq<Step>)
    requires Sub(t, p).Some?
    ensures Replace(t, p, Sub(t, p).value) == t
    decreases |p|
  {
    if p != [] {
      ReplaceItself(Child(t, p[0]), p[1..]);
    }
  }

  /** Going on inside a container that was just opened comes to the same. */
  lemma {:induction false} WalkOpens(t: Tree, p: seq<Step>, rest: seq<Token>, k: nat)
    requires Sub(t, p).Some? && |rest| > 1 && !(rest[1].Named? && rest[1].index)
    requires Takes(Sub(t, p).value, rest[0]) && !Enters(Sub(t, p).value, StepOf(Sub(t, p).value, rest[0]))
    ensures
      var sub := Sub(t, p).value;
      var s, grown := StepOf(sub, rest[0]), Replace(t, p, Extended(sub, rest[0], Opened(rest[1])));
      && Sub(grown, p + [s]) == Some(Opened(rest[1]))
      && Walk(t, p, rest, k) == Walk(grown, p + [s], rest[1..], k)
  {
    hide Put, StepOf, Child, WithChild, Enters, Extended, Opened;
    var sub := Sub(t, p).value;
    var s, x := StepOf(sub, rest[0]), Extended(sub, rest[0], Opened(rest[1]));
    PutOpens(sub, rest, k);
    var inner := Put(Opened(rest[1]), rest[1..], k);
    ReplaceTwice(t, p, x, s, if inner.Ok? then inner.value else x);
  }

  /** A value, or a container with nothing in it yet. */
  predicate Bare(t: Tree) {
    t.Leaf? || t in {Table([]), List([])}
  }

  lemma {:induction false} SubSplits(t: Tree, p: seq<Step>, q: seq<Step>)
    requires Sub(t, p).Some?
    ensures Sub(t, p + q) == Sub(Sub(t, p).value, q)
    decreases |p|
  {
    if p == [] {
      assert p + q == q;
    } else {
      SubSplits(Child(t, p[0]), p[1..], q);
      assert (p + q)[1..] == p[1..] + q;
    }
  }

  /** A container that gains a subtree at its end changes what is seen there, and nowhere else. */
  lemma {:induction false} ExtendedShows(t: Tree, p: seq<Step>, token: Token, x: Tree, q: seq<Step>)
    requires Sub(t, p).Some? && Bare(x)
    requires Takes(Sub(t, p).value, token) && !Enters(Sub(t, p).value, StepOf(Sub(t, p).value, token))
    ensures
      var sub := Sub(t, p).value;
      var s, after := StepOf(sub, token), Replace(t, p, Extended(sub, token, x));
      && Sub(after, p) == Some(Extended(sub, token, x)) && Sub(t, p + [s]).None?
      && (q == p + [s] ==> Sub(after, q) == Some(x))
      && (q != p + [s] ==> Sub(after, q).Some? == Sub(t, q).Some?)
      && (q != p + [s] && q != p && Sub(t, q).Some? ==> FaceOf(Sub(after, q).value) == FaceOf(Sub(t, q).value))
  {
    hide FaceOf, Enters, Child, StepOf, Extended, Replace;
    var sub := Sub(t, p).value;
    var s, grown := StepOf(sub, token), Extended(sub, token, x);
    ExtendedIs(sub, token, x);
    SubSplits(t, p, [s]);
    ReplaceShows(t, p, grown, p);
    assert p[|p|..] == [];
    ReplaceShows(t, p, grown, q);
    if p <= q {
      var rest := q[|p|..];
      assert q == p + rest;
      SubSplits(t, p, rest);
      if rest != [] {
        assert rest == [rest[0]] + rest[1..];
        if rest[0] == s {
          assert rest[1..] == [] <==> q == p + [s];
          BareEndsHere(x, rest[1..]);
        }
      }
    }
  }

  lemma {:induction false} StepsApart(p: seq<Step>, s: Step, q: seq<Step>, r: Step)
    ensures p + [s] == q + [r] <==> p == q && s == r
  {
    if p + [s] == q + [r] {
      assert (p + [s])[..|p|] == p && (q + [r])[..|q|] == q;
      assert (p + [s])[|p|] == s && (q + [r])[|q|] == r;
    }
  }

  lemma {:induction false} BareEndsHere(x: Tree, p: seq<Step>)
    requires Bare(x)
    ensures Sub(x, p) == if p == [] then Some(x) else None
  {
  }
}
