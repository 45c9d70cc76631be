/**
 The planner itself (internal/jsonbuild/jsonbuild.go): nodes that are linked in place as the arguments come, and
 the documents made from them. `at` maps every resolved location to the node that stands there; that no node
 stands at two is what lets one be changed without the others noticing.
 */
module Planner {
  import opened Lines
  import opened Texts
  import opened Json
  import opened Plans
  import opened Documents
  import opened Changes
  import opened Builds
  import opened Arguments
  import ArgumentText

  // ----- the nodes -----

  function KeySet(keys: seq<string>): set<string> {
    set i | 0 <= i < |keys| :: keys[i]
  }

  lemma {:induction false} KeySetGrows(keys: seq<string>, key: string)
    ensures KeySet(keys + [key]) == KeySet(keys) + {key}
    ensures key in keys <==> key in KeySet(keys)
  {
    assert (keys + [key])[|keys|] == key;
    forall k | k in KeySet(keys) ensures k in KeySet(keys + [key]) {
      var i :| 0 <= i < |keys| && keys[i] == k;
      assert (keys + [key])[i] == k;
    }
  }

  datatype NodeKind = ObjectNode | ArrayNode | ValueNode

  /** One value of the document being planned. */
  class Node {
    const kind: NodeKind
    const place: nat
    var keys: seq<string>
    var members: map<string, Node>
    var elems: seq<Node>

    constructor (kind: NodeKind, place: nat)
      ensures this.kind == kind && this.place == place && keys == [] && members == map[] && elems == []
    {
      this.kind, this.place, keys, members, elems := kind, place, [], map[], [];
    }

    /** The node is what the tree shows here. */
    predicate Shows(f: Face)
      reads this
    {
      match kind
      case ValueNode => f == Value(place) && keys == [] && members == map[] && elems == []
      case ObjectNode => f == Keys(keys) && members.Keys == KeySet(keys) && elems == []
      case ArrayNode => f == Length(|elems|) && keys == [] && members == map[]
    }
  }

  function KindOf(t: Tree): NodeKind {
    match t
    case Leaf(_) => ValueNode
    case Table(_) => ObjectNode
    case List(_) => ArrayNode
  }

  /** What is made at the i-th token of a location when nothing stands there. */
  function Made(loc: seq<Token>, i: nat, k: nat): Tree
    requires i < |loc|
  {
    if i == |loc| - 1 then Leaf(k) else Opened(loc[i + 1])
  }

  /** What the arguments say to make. */
  class Plan {
    const list: bool
    const root: Node
    var places: seq<Placement>
    ghost var tree: Tree
    ghost var at: map<seq<Step>, Node>

    constructor (list: bool)
      ensures Structured() && places == [] && tree == RootOf(list) && this.list == list && fresh(root) && at.Values == {root}
    {
      this.list := list;
      root := new Node(if list then ArrayNode else ObjectNode, 0);
      places := [];
      tree := RootOf(list);
      new;
      at := map[[] := root];
      BareStands(list);
    }

    lemma {:induction false} BareStands(list: bool)
      requires at == map[[] := root] && tree == RootOf(list)
      requires root.kind == (if list then ArrayNode else ObjectNode)
      requires root.keys == [] && root.members == map[] && root.elems == []
      ensures Structured() && at.Values == {root}
    {
      forall p ensures Sub(tree, p).Some? <==> p == [] {
        BareEndsHere(tree, p);
      }
    }

    /** What a node leads to stands one step on. */
    ghost predicate Leads(p: seq<Step>)
      requires p in at
      reads this`at, at[p]
    {
      && (forall key :: key in at[p].members ==> p + [Key(key)] in at && at[p + [Key(key)]] == at[p].members[key])
      && (forall i :: 0 <= i < |at[p].elems| ==> p + [Index(i)] in at && at[p + [Index(i)]] == at[p].elems[i])
    }

    ghost predicate Stands(p: seq<Step>)
      reads this`tree, this`at, at.Values
    {
      p in at && Sub(tree, p).Some? && at[p].Shows(FaceOf(Sub(tree, p).value)) && Leads(p)
    }

    /** The nodes are the tree: one for each location, none for two. */
    ghost predicate Structured()
      reads this`tree, this`at, at.Values
    {
      && [] in at && at[[]] == root
      && (forall p :: Sub(tree, p).Some? ==> p in at)
      && (forall p :: p in at ==> Stands(p))
      && (forall p, q :: p in at && q in at && at[p] == at[q] ==> p == q)
    }

    /** Node `next` has been linked below `cur`, and nothing else has changed. */
    twostate predicate Linked(new p: seq<Step>, cur: Node, new token: Token, new x: Tree, new next: Node)
      reads this, at.Values, cur, next
    {
      && Sub(old(tree), p).Some? && !Sub(old(tree), p).value.Leaf?
      &&
      var sub := Sub(old(tree), p).value;
      var s := StepOf(sub, token);
      && next !in old(at.Values)
      && next.Shows(FaceOf(x))
      && at == old(at)[p + [s] := next]
      && tree == Replace(old(tree), p, Extended(sub, token, x))
      && cur.Shows(FaceOf(Extended(sub, token, x)))
      && (if s.Key? then cur.members == old(cur.members)[s.name := next] && cur.elems == old(cur.elems)
          else cur.elems == old(cur.elems) + [next] && s.at == |old(cur.elems)| && cur.members == old(cur.members))
      && forall n :: n in old(at.Values) && n in at.Values && n != cur ==>
        n.keys == old(n.keys) && n.members == old(n.members) && n.elems == old(n.elems)
    }

    /** The nodes stay at their locations, and a location is taken exactly when the tree has it. */
    twostate lemma LinkedPlaces(new p: seq<Step>, cur: Node, new token: Token, new x: Tree, new next: Node, new q: seq<Step>)
      requires old(Structured()) && old(p in at && at[p] == cur) && Bare(x)
      requires old(Takes(Sub(tree, p).value, token) && !Enters(Sub(tree, p).value, StepOf(Sub(tree, p).value, token)))
      requires Linked(p, cur, token, x, next)
      ensures Sub(tree, q).Some? <==> q in at
      ensures q in at && q == p + [StepOf(Sub(old(tree), p).value, token)] ==> at[q] == next
      ensures q in at && q != p + [StepOf(Sub(old(tree), p).value, token)] ==> old(q in at && at[q] != next) && at[q] == old(at[q])
    {
      hide FaceOf, Takes, Enters, StepOf, Extended, Replace, Sub, Plan.Leads, Node.Shows;
      assert old(Stands(p));
      ExtendedShows(old(tree), p, token, x, q);
      if q in old(at) {
        assert old(Stands(q));
        assert old(at[q]) in old(at.Values);
      }
    }

    /** The new node stands at its location. */
    twostate lemma NewStands(new p: seq<Step>, cur: Node, new token: Token, new x: Tree, new next: Node)
      requires old(Structured()) && old(p in at && at[p] == cur) && Bare(x)
      requires old(Takes(Sub(tree, p).value, token) && !Enters(Sub(tree, p).value, StepOf(Sub(tree, p).value, token)))
      requires Linked(p, cur, token, x, next)
      ensures Stands(p + [StepOf(Sub(old(tree), p).value, token)])
    {
      hide Takes, Enters, StepOf, Extended, Replace, Sub;
      var q := p + [StepOf(Sub(old(tree), p).value, token)];
      assert old(Stands(p));
      ExtendedShows(old(tree), p, token, x, q);
      assert at[q] == next && next.members == map[] && next.elems == [];
    }

    /** Only the node that gained one has changed. */
    twostate lemma LinkedFrame(new p: seq<Step>, cur: Node, new token: Token, new x: Tree, new next: Node, new q: seq<Step>)
      requires old(Structured()) && old(p in at && at[p] == cur) && Bare(x)
      requires old(Takes(Sub(tree, p).value, token) && !Enters(Sub(tree, p).value, StepOf(Sub(tree, p).value, token)))
      requires Linked(p, cur, token, x, next)
      requires q in at && q != p + [StepOf(Sub(old(tree), p).value, token)]
      ensures Sub(old(tree), p).Some? && Sub(tree, q).Some? && Sub(old(tree), q).Some?
      ensures at == old(at)[p + [StepOf(Sub(old(tree), p).value, token)] := next]
      ensures q != p ==>
        && at[q].keys == old(at[q].keys) && at[q].members == old(at[q].members) && at[q].elems == old(at[q].elems)
        && FaceOf(Sub(tree, q).value) == FaceOf(Sub(old(tree), q).value)
      ensures q == p ==>
        && Sub(tree, p).value == Extended(Sub(old(tree), p).value, token, x) && at[p] == cur
        && cur.Shows(FaceOf(Extended(Sub(old(tree), p).value, token, x)))
    {
      hide Takes, Enters, FaceOf, Extended, Replace, Sub, StepOf, Node.Shows;
      assert old(Stands(p));
      LinkedPlaces(p, cur, token, x, next, q);
      assert old(Stands(q));
      ExtendedShows(old(tree), p, token, x, q);
      assert at[q] in at.Values && old(at[q]) in old(at.Values);
    }

    /** The node that gained one stands where it stood. */
    twostate lemma GrownStands(new p: seq<Step>, cur: Node, new token: Token, new x: Tree, new next: Node)
      requires old(Structured()) && old(p in at && at[p] == cur) && Bare(x)
      requires old(Takes(Sub(tree, p).value, token) && !Enters(Sub(tree, p).value, StepOf(Sub(tree, p).value, token)))
      requires Linked(p, cur, token, x, next)
      ensures Stands(p)
    {
      hide Takes, Enters, FaceOf, Extended, Sub, StepOf, Node.Shows;
      assert old(Stands(p)) by {
        assert old(p in at);
      }
      var s := StepOf(Sub(old(tree), p).value, token);
      StepsApart(p, s, p, s);
      LinkedFrame(p, cur, token, x, next, p);
      forall key | key in cur.members ensures p + [Key(key)] in at && at[p + [Key(key)]] == cur.members[key] {
        StepsApart(p, Key(key), p, s);
      }
      forall i | 0 <= i < |cur.elems| ensures p + [Index(i)] in at && at[p + [Index(i)]] == cur.elems[i] {
        StepsApart(p, Index(i), p, s);
      }
    }

    /** Any other node stands where it stood. */
    twostate lemma OtherStands(new p: seq<Step>, cur: Node, new token: Token, new x: Tree, new next: Node, new q: seq<Step>)
      requires old(Structured()) && old(p in at && at[p] == cur) && Bare(x)
      requires old(Takes(Sub(tree, p).value, token) && !Enters(Sub(tree, p).value, StepOf(Sub(tree, p).value, token)))
      requires Linked(p, cur, token, x, next)
      requires q in at && q != p && q != p + [StepOf(Sub(old(tree), p).value, token)]
      ensures Stands(q)
    {
      hide Takes, Enters, FaceOf, Extended, Sub, StepOf, Node.Shows, Plan.Linked;
      var s := StepOf(Sub(old(tree), p).value, token);
      assert old(Stands(q)) by {
        LinkedPlaces(p, cur, token, x, next, q);
      }
      LinkedFrame(p, cur, token, x, next, q);
      SameShows(old(at[q]));
      forall key | key in at[q].members ensures p + [s] != q + [Key(key)] {
        StepsApart(q, Key(key), p, s);
      }
      forall i | 0 <= i < |at[q].elems| ensures p + [s] != q + [Index(i)] {
        StepsApart(q, Index(i), p, s);
      }
    }

    twostate lemma SameShows(n: Node)
      requires n.keys == old(n.keys) && n.members == old(n.members) && n.elems == old(n.elems)
      ensures forall f :: n.Shows(f) == old(n.Shows(f))
    {
    }

    twostate lemma LinkedIsStructured(new p: seq<Step>, cur: Node, new token: Token, new x: Tree, new next: Node)
      requires old(Structured()) && old(p in at && at[p] == cur) && Bare(x)
      requires old(Takes(Sub(tree, p).value, token) && !Enters(Sub(tree, p).value, StepOf(Sub(tree, p).value, token)))
      requires Linked(p, cur, token, x, next)
      ensures Structured()
    {
      hide Takes, Enters, StepOf, Sub, Plan.Stands;
      assert old(Stands(p)) by {
        assert old(p in at);
      }
      var path := p + [StepOf(Sub(old(tree), p).value, token)];
      forall q ensures Sub(tree, q).Some? ==> q in at {
        LinkedPlaces(p, cur, token, x, next, q);
      }
      forall q | q in at ensures Stands(q) {
        if q == path {
          NewStands(p, cur, token, x, next);
        } else if q == p {
          GrownStands(p, cur, token, x, next);
        } else {
          OtherStands(p, cur, token, x, next, q);
        }
      }
      forall q, r | q in at && r in at && at[q] == at[r] ensures q == r {
        LinkedPlaces(p, cur, token, x, next, q);
        LinkedPlaces(p, cur, token, x, next, r);
      }
      LinkedPlaces(p, cur, token, x, next, []);
    }

    /** The node the i-th token leads to: the value itself, or the container the next token needs (create). */
    method Create(loc: seq<Token>, i: nat) returns (r: Outcome<Node>)
      requires i < |loc|
      ensures r.Refused? <==> i + 1 < |loc| && loc[i + 1].Named? && loc[i + 1].index
      ensures r.Ok? ==> fresh(r.value) && r.value.Shows(FaceOf(Made(loc, i, |places|)))
    {
      var node: Node;
      if i == |loc| - 1 {
        node := new Node(ValueNode, |places|);
      } else if loc[i + 1].Append? {
        node := new Node(ArrayNode, 0);
      } else if loc[i + 1].index {
        return Refused;
      } else {
        node := new Node(ObjectNode, 0);
      }
      r := Ok(node);
    }

    /** What a step has come to: a node from which the rest of the location goes on, or a refusal of it all. */
    twostate predicate Stepped(new p: seq<Step>, new loc: seq<Token>, new i: nat, new r: Outcome<Node>)
      requires i < |loc|
      reads this, at.Values
    {
      && Sub(old(tree), p).Some?
      &&
      var whole := Walk(old(tree), p, loc[i..], |places|);
      var q := p + [StepOf(Sub(old(tree), p).value, loc[i])];
      if r.Refused? then whole.Refused?
      else
        && Structured() && q in at && at[q] == r.value && at.Values <= old(at.Values) + {r.value}
        && (if i + 1 < |loc| then Sub(tree, q).Some? && Walk(tree, q, loc[i + 1..], |places|) == whole
            else whole == Ok(tree))
    }

    twostate lemma LinkedSteps(new p: seq<Step>, cur: Node, new loc: seq<Token>, new i: nat, new next: Node)
      requires old(Structured()) && old(p in at && at[p] == cur) && i < |loc|
      requires !(i + 1 < |loc| && loc[i + 1].Named? && loc[i + 1].index)
      requires old(Takes(Sub(tree, p).value, loc[i]) && !Enters(Sub(tree, p).value, StepOf(Sub(tree, p).value, loc[i])))
      requires Linked(p, cur, loc[i], Made(loc, i, |places|), next)
      ensures Stepped(p, loc, i, Ok(next))
    {
      hide Takes, Enters, Sub, Put;
      LinkedIsStructured(p, cur, loc[i], Made(loc, i, |places|), next);
      var rest := loc[i..];
      assert rest[0] == loc[i] && rest[1..] == loc[i + 1..];
      assert old(Stands(p));
      if i + 1 < |loc| {
        assert rest[1] == loc[i + 1];
        WalkOpens(old(tree), p, rest, |places|);
      } else {
        PutOpens(Sub(old(tree), p).value, rest, |places|);
      }
    }

    /** What stands at a location is the node of the subtree there. */
    lemma {:induction false} Standing(p: seq<Step>)
      requires Structured() && p in at
      ensures Sub(tree, p).Some? && at[p].Shows(FaceOf(Sub(tree, p).value)) && Leads(p)
      ensures at[p].kind == KindOf(Sub(tree, p).value)
    {
      hide Sub;
      assert Stands(p);
    }

    /** A step inside an object: to the member the token names, made when it is not there yet (intoObject). */
    method IntoObject(cur: Node, loc: seq<Token>, i: nat, ghost p: seq<Step>) returns (r: Outcome<Node>)
      requires Structured() && p in at && at[p] == cur && cur.kind == ObjectNode && i < |loc|
      modifies this`tree, this`at, cur
      ensures Stepped(p, loc, i, r)
      ensures r.Ok? ==> fresh(r.value) || r.value in old(at.Values)
    {
      hide Takes, Enters, StepOf, Sub, Put, Walk, Replace, Extended, Plan.Structured, Plan.Stands, FaceOf, KeySet;
      Standing(p);
      ghost var sub, rest := Sub(tree, p).value, loc[i..];
      StepInside(sub, loc[i]);
      assert rest[0] == loc[i];
      if loc[i].Append? {
        StepRefused(tree, p, rest, |places|);
        return Refused;
      }
      var name := loc[i].name;
      KeySetGrows(cur.keys, name);
      if name in cur.members {
        if i == |loc| - 1 {
          StepRefused(tree, p, rest, |places|);
          return Refused;
        }
        WalkEnters(tree, p, rest, |places|);
        assert rest[1..] == loc[i + 1..];
        assert p + [Key(name)] in at;
        return Ok(cur.members[name]);
      }
      r := Create(loc, i);
      if r.Refused? {
        assert rest[1] == loc[i + 1];
        StepRefused(tree, p, rest, |places|);
        return;
      }
      ExtendedFace(sub, loc[i], Made(loc, i, |places|));
      cur.keys := cur.keys + [name];
      cur.members := cur.members[name := r.value];
      tree := Replace(tree, p, Extended(sub, loc[i], Made(loc, i, |places|)));
      at := at[p + [Key(name)] := r.value];
      LinkedSteps(p, cur, loc, i, r.value);
    }
  
    /** A step inside an array: past its end, or to an element an earlier argument gave (intoArray). */
    method IntoArray(cur: Node, loc: seq<Token>, i: nat, ghost p: seq<Step>) returns (r: Outcome<Node>)
      requires Structured() && p in at && at[p] == cur && cur.kind == ArrayNode && i < |loc|
      modifies this`tree, this`at, cur
      ensures Stepped(p, loc, i, r)
      ensures r.Ok? ==> fresh(r.value) || r.value in old(at.Values)
    {
      hide Takes, Enters, StepOf, Sub, Put, Walk, Replace, Extended, Plan.Structured, Plan.Stands, FaceOf;
      Standing(p);
      ghost var sub, rest := Sub(tree, p).value, loc[i..];
      StepInside(sub, loc[i]);
      SeesLength(sub);
      assert rest[0] == loc[i];
      if loc[i].Append? {
        r := Create(loc, i);
        if r.Refused? {
          assert rest[1] == loc[i + 1];
          StepRefused(tree, p, rest, |places|);
          return;
        }
        ExtendedFace(sub, loc[i], Made(loc, i, |places|));
        ghost var end := p + [Index(|cur.elems|)];
        cur.elems := cur.elems + [r.value];
        tree := Replace(tree, p, Extended(sub, loc[i], Made(loc, i, |places|)));
        at := at[end := r.value];
        LinkedSteps(p, cur, loc, i, r.value);
      } else if loc[i].index && Decimal(loc[i].name) < |cur.elems| && i < |loc| - 1 {
        WalkEnters(tree, p, rest, |places|);
        assert rest[1..] == loc[i + 1..];
        assert p + [Index(Decimal(loc[i].name))] in at;
        r := Ok(cur.elems[Decimal(loc[i].name)]);
      } else {
        StepRefused(tree, p, rest, |places|);
        r := Refused;
      }
    }

    lemma {:induction false} SeesLength(t: Tree)
      ensures t.List? ==> FaceOf(t) == Length(|t.elems|)
    {
    }

    lemma {:induction false} Outset(loc: seq<Token>, k: nat)
      requires Structured() && loc != []
      ensures [] in at && at[[]] == root && Sub(tree, []).Some? && Walk(tree, [], loc, k) == Put(tree, loc, k)
    {
      hide Put;
    }

    /** Add an argument to the planned document, or find that its location cannot hold it (place). */
    method Place(loc: seq<Token>) returns (ok: bool)
      requires Structured() && loc != []
      modifies this`tree, this`at, at.Values
      ensures ok <==> Put(old(tree), loc, |places|).Ok?
      ensures ok ==> Structured() && tree == Put(old(tree), loc, |places|).value && fresh(at.Values - old(at.Values))
    {
      hide StepOf, Sub, Put, Replace, Plan.Structured, Plan.Stands, FaceOf;
      var cur := root;
      ghost var p, whole := [], Put(tree, loc, |places|);
      assert loc[0..] == loc;
      Outset(loc, |places|);
      for i := 0 to |loc|
        invariant Structured() && p in at && at[p] == cur && Sub(tree, p).Some?
        invariant if i < |loc| then Walk(tree, p, loc[i..], |places|) == whole else whole == Ok(tree)
        invariant fresh(at.Values - old(at.Values))
      {
        Standing(p);
        var r: Outcome<Node>;
        ghost var sub := Sub(tree, p).value;
        ghost var q := p + [StepOf(sub, loc[i])];
        match cur.kind {
          case ValueNode =>
            StepRefused(tree, p, loc[i..], |places|);
            return false;
          case ObjectNode => r := IntoObject(cur, loc, i, p);
          case ArrayNode => r := IntoArray(cur, loc, i, p);
        }
        if r.Refused? {
          return false;
        }
        cur, p := r.value, q;
        Standing(p);
      }
      ok := true;
    }
  
    /** The arguments are all placed, and the nodes are the document they plan. */
    ghost predicate Valid()
      reads this, at.Values
    {
      Structured() && Planned(tree, places, list)
    }

    /** The nodes a node leads to stand for the subtrees of its tree. */
    lemma {:induction false} KidsStand(p: seq<Step>, n: nat, i: nat)
      requires Structured() && p in at && WellMade(Sub(tree, p).value, n) && i < |Kids(Sub(tree, p).value)|
      ensures
        var sub := Sub(tree, p).value;
        && WellMade(Kids(sub)[i], n)
        && (sub.Table? ==>
              var q := p + [Key(sub.branches[i].key)];
              && |at[p].keys| == |sub.branches| && at[p].keys[i] == sub.branches[i].key && at[p].keys[i] in at[p].members
              && q in at && at[q] == at[p].members[at[p].keys[i]] && Sub(tree, q) == Some(Kids(sub)[i]))
        && (sub.List? ==>
              var q := p + [Index(i)];
              && |at[p].elems| == |sub.elems|
              && q in at && at[q] == at[p].elems[i] && Sub(tree, q) == Some(Kids(sub)[i]))
    {
      hide Plan.Structured, Plan.Stands;
      Standing(p);
      var sub := Sub(tree, p).value;
      if sub.Table? {
        var key := sub.branches[i].key;
        assert Seek(sub.branches, key) == i;
        KeySetGrows(at[p].keys, key);
        SubSplits(tree, p, [Key(key)]);
        assert Sub(Child(sub, Key(key)), []) == Some(Kids(sub)[i]);
      } else {
        SubSplits(tree, p, [Index(i)]);
        assert Sub(Child(sub, Index(i)), []) == Some(Kids(sub)[i]);
      }
    }

    /** The objects and arrays the locations make (containers). */
    method CountContainers(node: Node, ghost p: seq<Step>) returns (c: nat)
      requires Structured() && p in at && at[p] == node && Sub(tree, p).Some? && WellMade(Sub(tree, p).value, |places|)
      ensures c == Containers(Sub(tree, p).value)
      decreases Sub(tree, p).value
    {
      hide Sub, Plan.Structured, Plan.Stands, WellMade, Node.Shows, Plan.Leads;
      Standing(p);
      ghost var sub := Sub(tree, p).value;
      ghost var counts := ContainersInside(sub);
      c := 1;
      match node.kind {
        case ValueNode =>
          c := 0;
        case ObjectNode =>
          SeesKeys(p);
          for i := 0 to |node.keys|
            invariant c == 1 + Sum(counts[..i])
          {
            KidsStand(p, |places|, i);
            SumSplits(counts, i);
            var more := CountContainers(node.members[node.keys[i]], p + [Key(node.keys[i])]);
            c := c + more;
          }
          assert counts[..|counts|] == counts;
        case ArrayNode =>
          SeesKeys(p);
          for i := 0 to |node.elems|
            invariant c == 1 + Sum(counts[..i])
          {
            KidsStand(p, |places|, i);
            SumSplits(counts, i);
            var more := CountContainers(node.elems[i], p + [Index(i)]);
            c := c + more;
          }
          assert counts[..|counts|] == counts;
      }
    }

    lemma {:induction false} SeesKeys(p: seq<Step>)
      requires Structured() && p in at
      ensures Sub(tree, p).Some?
      ensures at[p].kind.ObjectNode? ==> |at[p].keys| == |Kids(Sub(tree, p).value)|
      ensures at[p].kind.ArrayNode? ==> |at[p].elems| == |Kids(Sub(tree, p).value)|
      ensures at[p].kind.ValueNode? ==> Sub(tree, p).value == Leaf(at[p].place)
    {
      assert Stands(p);
    }

    /** The document, with its values in place (make). */
    method Make(node: Node, values: seq<Json>, ghost p: seq<Step>) returns (v: Json)
      requires Structured() && p in at && at[p] == node && Sub(tree, p).Some? && WellMade(Sub(tree, p).value, |values|)
      ensures v == Document(Sub(tree, p).value, values)
      decreases Sub(tree, p).value
    {
      hide Sub, Plan.Structured, Plan.Stands, Node.Shows, Plan.Leads, SetKey;
      Standing(p);
      SeesKeys(p);
      ghost var sub := Sub(tree, p).value;
      match node.kind {
        case ValueNode =>
          v := values[node.place];
        case ObjectNode =>
          var members := [];
          for i := 0 to |node.keys|
            invariant members == Document(sub, values).members[..i]
          {
            KidsStand(p, |values|, i);
            var m := Make(node.members[node.keys[i]], values, p + [Key(node.keys[i])]);
            NewKey(sub.branches, values, i);
            members := SetKey(members, node.keys[i], m);
          }
          v := Obj(members);
        case ArrayNode =>
          var items := [];
          for i := 0 to |node.elems|
            invariant items == Document(sub, values).items[..i]
          {
            KidsStand(p, |values|, i);
            var m := Make(node.elems[i], values, p + [Index(i)]);
            items := items + [m];
          }
          v := Arr(items);
      }
    }

    lemma {:induction false} ValidShape()
      requires Valid()
      ensures [] in at && at[[]] == root && Sub(tree, []) == Some(tree) && Structured() && WellMade(tree, |places|)
      ensures Planned(tree, places, list)
    {
      hide PutAll;
      PutAllMeasures(RootOf(list), Locations(places), []);
    }

    /** Read the files and standard input the plan names, in the order the arguments gave them, and make the
        document (Build). */
    method Build(src: Sources) returns (r: Outcome<Json>)
      requires Valid()
      ensures r == Built(tree, places, src)
    {
      hide Plan.Valid, Plan.Structured, Built, Document, Containers, ValueOf, WellMade, Planned, ValuesOf;
      ValidShape();
      var n := CountContainers(root, []);
      var values := ReadValues(places, src, n, tree, list);
      if values.Refused? {
        return Refused;
      }
      var doc := Make(root, values.value, []);
      r := Ok(doc);
    }

    /** Read the files the plan names and leave standard input unread (Fixed). */
    method Fixed(src: Sources) returns (r: Outcome<Template>)
      requires Valid() && OneStdin(places)
      ensures r.Ok? ==> Prepared(r.value, tree, places, src)
      ensures r.Refused? ==> forall v :: Built(tree, places, WithStdin(src, v)).Refused?
    {
      hide Plan.Valid, Plan.Structured, Built, Containers, WellMade, Planned, Prepared, OneStdin;
      ValidShape();
      var n := CountContainers(root, []);
      r := ReadFixed(places, src, n, tree, list);
    }

    /** The document with v as the value of the argument that reads standard input: the one Build makes when that
        is what it reads (With). */
    method With(f: Template, v: Json, ghost src: Sources) returns (r: Outcome<Json>)
      requires Valid() && Prepared(f, tree, places, src)
      ensures r == Built(tree, places, WithStdin(src, v))
    {
      hide Plan.Valid, Plan.Structured, Built, Document, DepthOf, CountOf, Containers, ValueOf, MaxValues, MaxDepth, PutAll, Counts, Sum,
        WellMade, WithStdin, ValuesOf, Planned;
      ValidShape();
      ghost var with := WithStdin(src, v);
      var values := f.values;
      FilledCounts(values, f.slot, v);
      LimitsAside(src, v);
      assert ValuesOf(places, with) == Ok(Filled(values, f.slot, v));
      if f.slot.Some? {
        var slot := f.slot.value;
        ValuesSoFar(places, with, slot);
        var fits := CheckDepth(places[slot], v, f.depth);
        if !fits {
          TooDeep(tree, places, list, with, slot);
          return Refused;
        }
        var more := CountValues(v, f.max);
        if f.counted + more > f.max {
          assert places[..|places|] == places;
          TooMany(tree, places, list, with, |places|);
          return Refused;
        }
        values := values[slot := v];
      }
      NothingRefused(tree, places, list, with);
      var doc := Make(root, values, []);
      r := Ok(doc);
    }
  }

  /** Setting the keys of a table one after the other only ever adds one. */
  lemma {:induction false} NewKey(branches: seq<Branch>, values: seq<Json>, i: nat)
    requires i < |branches| && forall i, j :: 0 <= i < j < |branches| ==> branches[i].key != branches[j].key
    ensures
      var members := Document(Table(branches), values).members;
      SetKey(members[..i], branches[i].key, Document(branches[i].tree, values)) == members[..i + 1]
  {
    var members := Document(Table(branches), values).members;
    var n := Find(members[..i], branches[i].key);
    assert forall j :: 0 <= j < i ==> members[..i][j].key == branches[j].key;
    assert members[..i] + [members[i]] == members[..i + 1];
  }

  // ----- planning -----

  /** Refuse a second argument that reads standard input (oneStdin). */
  method CheckStdin(places: seq<Placement>) returns (ok: bool)
    ensures ok <==> OneStdin(places)
  {
    var taken := false;
    for i := 0 to |places|
      invariant taken <==> exists j :: 0 <= j < i && ReadsStdin(places[j])
      invariant forall j, k :: 0 <= j < k < i ==> !(ReadsStdin(places[j]) && ReadsStdin(places[k]))
    {
      if ReadsStdin(places[i]) {
        if taken {
          return false;
        }
        taken := true;
      }
    }
    ok := true;
  }

  /** A location that cannot be given, or an argument that cannot be read, refuses all of the arguments. */
  lemma {:induction false} RefusedForAll(args: seq<Arg>, list: bool, readJson: string -> Outcome<Json>, i: nat)
    requires i <= |args|
    requires
      var places := ParseArgs(args[..i], list, readJson);
      places.Refused? || PutAll(RootOf(list), Locations(places.value)).Refused?
    ensures
      var places := ParseArgs(args, list, readJson);
      places.Refused? || PutAll(RootOf(list), Locations(places.value)).Refused?
    decreases |args| - i
  {
    hide ParseArg, Put;
    if i == |args| {
      assert args[..i] == args;
    } else {
      assert args[..i + 1][..i] == args[..i];
      var places := ParseArgs(args[..i + 1], list, readJson);
      if places.Ok? {
        assert Locations(places.value)[..i] == Locations(ParseArgs(args[..i], list, readJson).value);
      }
      RefusedForAll(args, list, readJson, i + 1);
    }
  }

  /** Read the arguments and plan the document, before anything is read (Parse). */
  method Parse(args: seq<Arg>, list: bool, readJson: string -> Outcome<Json>) returns (r: Outcome<Plan>)
    ensures
      var places := ParseArgs(args, list, readJson);
      r.Ok? <==> places.Ok? && PutAll(RootOf(list), Locations(places.value)).Ok? && OneStdin(places.value)
    ensures r.Ok? ==>
      && fresh(r.value) && r.value.Valid() && r.value.list == list && OneStdin(r.value.places)
      && ParseArgs(args, list, readJson) == Ok(r.value.places)
    ensures r.Ok? ==> ArgumentText.SayWhatIsWritten(args, list, readJson, r.value.places)
  {
    hide ParseArg, ParseArgs, Put, PutAll, OneStdin, Plan.Structured, ArgumentText.SayWhatIsWritten;
    var plan := new Plan(list);
    NothingPlanned(list, readJson);
    assert args[..0] == [];
    for i := 0 to |args|
      invariant fresh(plan) && fresh(plan.at.Values) && plan.list == list && plan.Structured()
      invariant ParseArgs(args[..i], list, readJson) == Ok(plan.places)
      invariant PutAll(RootOf(list), Locations(plan.places)) == Ok(plan.tree)
    {
      var pl := ParseArg(args[i], list, readJson);
      ParseSnoc(args, list, readJson, i, plan.places, plan.tree);
      if pl.Refused? {
        RefusedForAll(args, list, readJson, i + 1);
        return Refused;
      }
      var ok := plan.Place(pl.value.loc);
      if !ok {
        RefusedForAll(args, list, readJson, i + 1);
        return Refused;
      }
      plan.places := plan.places + [pl.value];
    }
    assert args[..|args|] == args;
    ArgumentText.WrittenIsPlaced(args, list, readJson);
    var once := CheckStdin(plan.places);
    r := if once then Ok(plan) else Refused;
  }

  /** The document the arguments make: what they place, if it can be placed, as it is built. */
  function NewOf(args: seq<Arg>, list: bool, readJson: string -> Outcome<Json>, src: Sources): Outcome<Json> {
    var places :- ParseArgs(args, list, readJson);
    var t :- PutAll(RootOf(list), Locations(places));
    if !OneStdin(places) then Refused else Built(t, places, src)
  }

  /** Plan the arguments and build the document (new.go, cmdNew): whatever is written in an argument stands where it is
      written to, key=text as the text at that key, and the elements of a list in their order. */
  method New(args: seq<Arg>, list: bool, readJson: string -> Outcome<Json>, src: Sources) returns (r: Outcome<Json>)
    ensures r == NewOf(args, list, readJson, src)
    ensures r.Ok? ==> ArgumentText.HoldsWhatIsWritten(r.value, args, list, readJson, src)
    ensures r.Ok? && !list ==> ArgumentText.TextsStand(r.value, args)
    ensures r.Ok? && list && AllPlain(args) ==>
      && r.value.Arr? && |r.value.items| == |args|
      && forall k :: 0 <= k < |args| ==> ElementOf(args[k], readJson, src) == Ok(r.value.items[k])
  {
    hide ParseArg, ParseArgs, PutAll, OneStdin, Plan.Valid, Built, ValueOf, ArgumentText.HoldsWhatIsWritten, ArgumentText.TextsStand,
      ArgumentText.SayWhatIsWritten, ElementOf, AllPlain;
    var planned := Parse(args, list, readJson);
    if planned.Refused? {
      return Refused;
    }
    var plan := planned.value;
    plan.ValidShape();
    r := plan.Build(src);
    if r.Ok? {
      ArgumentText.WrittenStands(args, list, readJson, plan.tree, plan.places, src);
      if !list {
        ArgumentText.TextsStandAtTheirKeys(r.value, args, readJson, src);
      } else if AllPlain(args) {
        ElementsStand(args, readJson, plan.tree, plan.places, src);
      }
    }
  }

  predicate AllPlain(args: seq<Arg>) {
    forall k :: 0 <= k < |args| ==> args[k].form.Plain?
  }

  /** The value a plain element gives. */
  function ElementOf(a: Arg, readJson: string -> Outcome<Json>, src: Sources): Outcome<Json> {
    var pl :- ParseArg(a, true, readJson);
    ValueOf(pl, src)
  }

  lemma {:induction false} ElementsStand(args: seq<Arg>, readJson: string -> Outcome<Json>, t: Tree, places: seq<Placement>, src: Sources)
    requires AllPlain(args)
    requires ParseArgs(args, true, readJson) == Ok(places) && Planned(t, places, true) && Built(t, places, src).Ok?
    ensures
      var doc := Built(t, places, src).value;
      && doc.Arr? && |doc.items| == |args|
      && forall k :: 0 <= k < |args| ==> ElementOf(args[k], readJson, src) == Ok(doc.items[k])
  {
    hide Built, ValueOf, ParseArgs, Planned;
    forall k | 0 <= k < |places| ensures places[k].loc == [Append] && ParseArg(args[k], true, readJson) == Ok(places[k]) {
      ArgumentText.EachIsRead(args, true, readJson, k);
    }
    ArgumentText.ElementsInOrder(t, places, src);
  }

  lemma {:induction false} NothingPlanned(list: bool, readJson: string -> Outcome<Json>)
    ensures ParseArgs([], list, readJson) == Ok([]) && PutAll(RootOf(list), Locations([])) == Ok(RootOf(list))
  {
  }

  lemma {:induction false} ParseSnoc(args: seq<Arg>, list: bool, readJson: string -> Outcome<Json>, i: nat, places: seq<Placement>, t: Tree)
    requires i < |args| && ParseArgs(args[..i], list, readJson) == Ok(places)
    requires PutAll(RootOf(list), Locations(places)) == Ok(t)
    ensures |places| == i
    ensures
      var pl, all := ParseArg(args[i], list, readJson), ParseArgs(args[..i + 1], list, readJson);
      if pl.Refused? then all.Refused?
      else all == Ok(places + [pl.value]) && PutAll(RootOf(list), Locations(places + [pl.value])) == Put(t, pl.value.loc, i)
  {
    hide ParseArg, Put;
    assert args[..i + 1][..i] == args[..i];
    var pl := ParseArg(args[i], list, readJson);
    if pl.Ok? {
      assert Locations(places + [pl.value])[..i] == Locations(places);
    }
  }
}
