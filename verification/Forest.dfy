/**
 Indented lines read as a forest (pkg/engine/tree.go): every line is a node, and its indentation says
 which line it hangs from.
 */
module Forest {
  import opened Lines
  import opened Json

  /** definition.MaxTreeDepth */
  const MAX_TREE_DEPTH := 32

  /** How a definition reads a tree: the forms one level of indentation may take, what a top-level
      line has to match, and the object one line is read into. */
  datatype TreeKind = TreeKind(indent: seq<string>, root: Option<Regex>, node: (string, nat) -> Outcome<Json>)

  /** The object of a line, and the nodes that hang from it. */
  datatype Node = Node(own: Json, children: seq<Node>)

  // ----- the depth of a line -----

  /** The first stated form of one level that opens text (openingUnit). */
  function OpeningUnit(indent: seq<string>, text: string): (unit: Option<string>)
    ensures unit.Some? ==> unit.value != "" && unit.value <= text
  {
    if indent == [] then None
    else if indent[0] != "" && indent[0] <= text then Some(indent[0])
    else OpeningUnit(indent[1..], text)
  }

  predicate Opens(unit: string, text: string) {
    unit != "" && unit <= text
  }

  /** The unit found opens the text and none that is tried before it does; none is found where none opens it. */
  lemma {:induction false} OpeningUnitIsFirst(indent: seq<string>, text: string)
    ensures
      var unit := OpeningUnit(indent, text);
      if unit.None? then forall i :: 0 <= i < |indent| ==> !Opens(indent[i], text)
      else exists k :: 0 <= k < |indent| && indent[k] == unit.value && Opens(indent[k], text)
                       && forall i :: 0 <= i < k ==> !Opens(indent[i], text)
  {
    if indent != [] && !Opens(indent[0], text) {
      var rest := indent[1..];
      OpeningUnitIsFirst(rest, text);
      var unit := OpeningUnit(rest, text);
      assert forall i :: 1 <= i < |indent| ==> indent[i] == rest[i - 1];
      if unit.Some? {
        var k :| 0 <= k < |rest| && rest[k] == unit.value && Opens(rest[k], text)
                 && forall i :: 0 <= i < k ==> !Opens(rest[i], text);
        assert indent[k + 1] == unit.value && forall i :: 0 <= i < k + 1 ==> !Opens(indent[i], text);
      }
    }
  }

  /** Count the levels that open text, `depth` of them read already (treeDepth). */
  function Levels(indent: seq<string>, text: string, depth: nat): Outcome<(nat, string)>
    decreases |text|
  {
    var unit := OpeningUnit(indent, text);
    if unit.None? then
      if text != "" && text[0] in {' ', '\t'} then Refused else Ok((depth, text))
    else
      var rest := text[|unit.value|..];
      var last := unit.value[|unit.value| - 1];
      if depth + 1 > MAX_TREE_DEPTH then Refused
      else if last != ' ' && last != '\t' then Ok((depth + 1, rest))
      else Levels(indent, rest, depth + 1)
  }

  function DepthOf(k: TreeKind, l: Line): Outcome<(nat, string)> {
    Levels(k.indent, l.text, 0)
  }

  // ----- the forest -----

  /** The object a line at this depth is read into, or its refusal. */
  function Own(k: TreeKind, l: Line): Outcome<Json> {
    var d := DepthOf(k, l);
    if d.Refused? then Refused
    else if d.value.0 == 0 && k.root.Some? && !k.root.value(d.value.1) then Refused
    else k.node(d.value.1, l.num)
  }

  /** The nodes at `depth` that open lines, and the lines from the first of a shallower level on
      (treeNodes). */
  function ForestOf(k: TreeKind, lines: seq<Line>, depth: nat): (r: Outcome<(seq<Node>, seq<Line>)>)
    ensures r.Ok? ==> |r.value.1| <= |lines|
    decreases |lines|
  {
    if lines == [] then Ok(([], []))
    else
      var d, own := DepthOf(k, lines[0]), Own(k, lines[0]);
      if d.Refused? then Refused
      else if d.value.0 < depth then Ok(([], lines))
      else if d.value.0 > depth || own.Refused? then Refused
      else
        var below := ForestOf(k, lines[1..], depth + 1);
        if below.Refused? then Refused
        else
          var beside := ForestOf(k, below.value.1, depth);
          if beside.Refused? then Refused
          else Ok(([Node(own.value, below.value.0)] + beside.value.0, beside.value.1))
  }

  /** The object of a node: its own, with its children set under "children". */
  function NodeJson(n: Node): Json
    decreases n, 0
  {
    if n.own.Obj? then Obj(SetKey(n.own.members, "children", Arr(NodesJson(n.children)))) else n.own
  }

  function NodesJson(ns: seq<Node>): (values: seq<Json>)
    ensures |values| == |ns|
    ensures forall i :: 0 <= i < |ns| ==> values[i] == NodeJson(ns[i])
    decreases ns, 1
  {
    if ns == [] then [] else [NodeJson(ns[0])] + NodesJson(ns[1..])
  }

  lemma {:induction false} NodesJsonConcat(a: seq<Node>, b: seq<Node>)
    ensures NodesJson(a + b) == NodesJson(a) + NodesJson(b)
  {
    forall i | 0 <= i < |a + b| ensures NodesJson(a + b)[i] == (NodesJson(a) + NodesJson(b))[i] {
    }
  }

  // ----- which lines make a forest, and what it says -----

  /** A line that can be read at some depth. */
  predicate Readable(k: TreeKind, l: Line) {
    DepthOf(k, l).Ok? && Own(k, l).Ok?
  }

  function Depth(k: TreeKind, l: Line): nat
    requires Readable(k, l)
  {
    DepthOf(k, l).value.0
  }

  /** The line after the i-th is at most one level below it. */
  predicate Steps(k: TreeKind, lines: seq<Line>, i: nat)
    requires i + 1 < |lines| && Readable(k, lines[i]) && Readable(k, lines[i + 1])
  {
    Depth(k, lines[i + 1]) <= Depth(k, lines[i]) + 1
  }

  /** Every line can be read, the first is at `depth`, none is shallower, and none is more than one
      level below the line above it. */
  ghost predicate Hangs(k: TreeKind, lines: seq<Line>, depth: nat) {
    && (forall i :: 0 <= i < |lines| ==> Readable(k, lines[i]) && Depth(k, lines[i]) >= depth)
    && (lines != [] ==> Depth(k, lines[0]) == depth)
    && (forall i :: 0 <= i < |lines| - 1 ==> Steps(k, lines, i))
  }

  /** What a forest says, node by node in the order the lines stand: the object and the depth. */
  function Preorder(ns: seq<Node>, depth: nat): seq<(Json, nat)>
    decreases ns
  {
    if ns == [] then []
    else [(ns[0].own, depth)] + Preorder(ns[0].children, depth + 1) + Preorder(ns[1..], depth)
  }

  /** What lines say, line by line. */
  function Said(k: TreeKind, lines: seq<Line>): seq<(Json, nat)>
    requires forall i :: 0 <= i < |lines| ==> Readable(k, lines[i])
  {
    if lines == [] then []
    else
      assert Readable(k, lines[0]);
      [(Own(k, lines[0]).value, Depth(k, lines[0]))] + Said(k, lines[1..])
  }

  lemma {:induction false} SaidConcat(k: TreeKind, a: seq<Line>, b: seq<Line>)
    requires forall i :: 0 <= i < |a| ==> Readable(k, a[i])
    requires forall i :: 0 <= i < |b| ==> Readable(k, b[i])
    ensures Said(k, a + b) == Said(k, a) + Said(k, b)
  {
    if a == [] {
      assert a + b == b;
    } else {
      assert (a + b)[1..] == a[1..] + b;
      SaidConcat(k, a[1..], b);
    }
  }

  /** A node with what hangs from it, then its siblings, hang together from `depth`. */
  lemma {:induction false} HangsTogether(k: TreeKind, l: Line, below: seq<Line>, beside: seq<Line>, depth: nat)
    requires Readable(k, l) && Depth(k, l) == depth
    requires Hangs(k, below, depth + 1) && Hangs(k, beside, depth)
    ensures Hangs(k, [l] + below + beside, depth)
  {
    hide Own, DepthOf;
    var all := [l] + below + beside;
    forall i | 0 <= i < |all| ensures Readable(k, all[i]) && Depth(k, all[i]) >= depth {
      assert all[i] == if i == 0 then l else if i <= |below| then below[i - 1] else beside[i - |below| - 1];
    }
    forall i | 0 <= i < |all| - 1 ensures Steps(k, all, i) {
      if 0 < i < |below| {
        assert Steps(k, below, i - 1);
      } else if i > |below| {
        assert Steps(k, beside, i - |below| - 1);
      }
    }
  }

  /** What is read as a forest from `depth` on hangs together, ends at a shallower line, and says
      what its lines say in the order they stand. */
  ghost predicate Sound(k: TreeKind, read: seq<Line>, ns: seq<Node>, rest: seq<Line>, depth: nat) {
    && Hangs(k, read, depth)
    && Shallower(k, rest, depth)
    && Preorder(ns, depth) == Said(k, read)
  }

  lemma {:induction false} SoundNode(k: TreeKind, l: Line, below: seq<Line>, beside: seq<Line>, depth: nat,
                  children: seq<Node>, siblings: seq<Node>)
    requires Readable(k, l) && Depth(k, l) == depth
    requires Hangs(k, below, depth + 1) && Preorder(children, depth + 1) == Said(k, below)
    requires Hangs(k, beside, depth) && Preorder(siblings, depth) == Said(k, beside)
    ensures Hangs(k, [l] + below + beside, depth)
    ensures Preorder([Node(Own(k, l).value, children)] + siblings, depth) == Said(k, [l] + below + beside)
  {
    HangsTogether(k, l, below, beside, depth);
    PreorderNode(Node(Own(k, l).value, children), siblings, depth);
    SaidConcat(k, [l] + below, beside);
    SaidConcat(k, [l], below);
    assert Said(k, [l]) == [(Own(k, l).value, depth)] + Said(k, []);
  }

  lemma {:induction false} PreorderNode(n: Node, siblings: seq<Node>, depth: nat)
    ensures Preorder([n] + siblings, depth) ==
      [(n.own, depth)] + Preorder(n.children, depth + 1) + Preorder(siblings, depth)
  {
    assert ([n] + siblings)[1..] == siblings;
  }

  lemma {:induction false} Regroup(lines: seq<Line>, below: seq<Line>, rest: seq<Line>, beside: seq<Line>, last: seq<Line>)
    requires lines != [] && lines[1..] == below + rest && rest == beside + last
    ensures lines == ([lines[0]] + below + beside) + last
  {
    assert lines == [lines[0]] + lines[1..];
  }

  /** One step of the reading, where it succeeds. */
  lemma {:induction false} ForestStep(k: TreeKind, lines: seq<Line>, depth: nat, children: seq<Node>, rest: seq<Line>,
                   siblings: seq<Node>, last: seq<Line>)
    requires lines != [] && Readable(k, lines[0]) && Depth(k, lines[0]) == depth
    requires ForestOf(k, lines[1..], depth + 1) == Ok((children, rest)) && |rest| < |lines|
    requires ForestOf(k, rest, depth) == Ok((siblings, last))
    ensures ForestOf(k, lines, depth) == Ok(([Node(Own(k, lines[0]).value, children)] + siblings, last))
  {
  }

  /** The other way: what a reading that succeeds was made of. */
  lemma {:induction false} ForestParts(k: TreeKind, lines: seq<Line>, depth: nat)
      returns (children: seq<Node>, rest: seq<Line>, siblings: seq<Node>, last: seq<Line>)
    requires lines != [] && DepthOf(k, lines[0]).Ok? && DepthOf(k, lines[0]).value.0 == depth
    requires ForestOf(k, lines, depth).Ok?
    ensures Readable(k, lines[0]) && |rest| < |lines| && |last| <= |rest|
    ensures ForestOf(k, lines[1..], depth + 1) == Ok((children, rest))
    ensures ForestOf(k, rest, depth) == Ok((siblings, last))
    ensures ForestOf(k, lines, depth) == Ok(([Node(Own(k, lines[0]).value, children)] + siblings, last))
  {
    var below := ForestOf(k, lines[1..], depth + 1);
    children, rest := below.value.0, below.value.1;
    var beside := ForestOf(k, rest, depth);
    siblings, last := beside.value.0, beside.value.1;
  }

  lemma {:induction false} ForestSound(k: TreeKind, lines: seq<Line>, depth: nat) returns (read: seq<Line>)
    requires ForestOf(k, lines, depth).Ok?
    ensures
      var (ns, rest) := ForestOf(k, lines, depth).value;
      lines == read + rest && Sound(k, read, ns, rest, depth)
    decreases |lines|
  {
    if lines == [] {
      read := [];
    } else if DepthOf(k, lines[0]).value.0 < depth {
      read := [];
      assert ForestOf(k, lines, depth) == Ok(([], lines));
    } else {
      var children, rest, siblings, last := ForestParts(k, lines, depth);
      hide ForestOf, Own, DepthOf, Said, Preorder, Hangs;
      var below := ForestSound(k, lines[1..], depth + 1);
      var beside := ForestSound(k, rest, depth);
      SoundNode(k, lines[0], below, beside, depth, children, siblings);
      read := [lines[0]] + below + beside;
      Regroup(lines, below, rest, beside, last);
    }
  }

  /** The lines below the first one end at the next line of its own level. */
  function Below(k: TreeKind, lines: seq<Line>, depth: nat): (m: nat)
    requires forall i :: 0 <= i < |lines| ==> Readable(k, lines[i])
    ensures m <= |lines|
    ensures forall i :: 0 <= i < m ==> Depth(k, lines[i]) > depth
    ensures m < |lines| ==> Depth(k, lines[m]) <= depth
  {
    if lines == [] || (assert Readable(k, lines[0]); Depth(k, lines[0]) <= depth) then 0
    else 1 + Below(k, lines[1..], depth)
  }

  /** Lines that hang together split where the lines below the first one end. */
  lemma {:induction false} HangsApart(k: TreeKind, read: seq<Line>, m: nat, depth: nat)
    requires Hangs(k, read, depth) && 1 <= m <= |read|
    requires forall i :: 1 <= i < m ==> Depth(k, read[i]) > depth
    requires m < |read| ==> Depth(k, read[m]) <= depth
    ensures Hangs(k, read[1..m], depth + 1) && Hangs(k, read[m..], depth)
  {
    var below, beside := read[1..m], read[m..];
    assert forall i :: 0 <= i < |below| ==> below[i] == read[i + 1];
    assert forall i :: 0 <= i < |beside| ==> beside[i] == read[m + i];
    forall i | 0 <= i < |below| - 1 ensures Steps(k, below, i) {
      assert Steps(k, read, i + 1);
    }
    forall i | 0 <= i < |beside| - 1 ensures Steps(k, beside, i) {
      assert Steps(k, read, m + i);
    }
    if m < |read| { assert Steps(k, read, m - 1); }
    if m > 1 { assert Steps(k, read, 0); }
  }

  /** Lines that hang together from `depth`, and then end or go shallower, are read as a forest. */
  lemma {:induction false} ForestComplete(k: TreeKind, read: seq<Line>, after: seq<Line>, depth: nat)
    requires Hangs(k, read, depth)
    requires Shallower(k, after, depth)
    ensures ForestOf(k, read + after, depth).Ok? && ForestOf(k, read + after, depth).value.1 == after
    decreases |read|
  {
    if read == [] {
      assert read + after == after;
    } else {
      var m := ChildrenEnd(k, read, after, depth);
      ForestComplete(k, read[1..m], read[m..] + after, depth + 1);
      ForestComplete(k, read[m..], after, depth);
      CompleteStep(k, read, after, m, depth);
    }
  }

  lemma {:induction false} CompleteStep(k: TreeKind, read: seq<Line>, after: seq<Line>, m: nat, depth: nat)
    requires 1 <= m <= |read| && Readable(k, read[0]) && Depth(k, read[0]) == depth
    requires
      var rest := read[m..] + after;
      var below, beside := ForestOf(k, read[1..m] + rest, depth + 1), ForestOf(k, rest, depth);
      below.Ok? && below.value.1 == rest && beside.Ok? && beside.value.1 == after
    ensures ForestOf(k, read + after, depth).Ok? && ForestOf(k, read + after, depth).value.1 == after
  {
    hide ForestOf, Own, DepthOf;
    var all, rest := read + after, read[m..] + after;
    assert all[1..] == read[1..m] + rest;
    ForestStep(k, all, depth, ForestOf(k, read[1..m] + rest, depth + 1).value.0, rest,
               ForestOf(k, rest, depth).value.0, after);
  }

  /** The lines end, or go on above `depth`. */
  ghost predicate Shallower(k: TreeKind, lines: seq<Line>, depth: nat) {
    lines != [] ==> DepthOf(k, lines[0]).Ok? && DepthOf(k, lines[0]).value.0 < depth
  }

  lemma {:induction false} ChildrenEnd(k: TreeKind, read: seq<Line>, after: seq<Line>, depth: nat) returns (m: nat)
    requires Hangs(k, read, depth) && read != [] && Shallower(k, after, depth)
    ensures 1 <= m <= |read| && Readable(k, read[0]) && Depth(k, read[0]) == depth
    ensures Hangs(k, read[1..m], depth + 1) && Hangs(k, read[m..], depth)
    ensures Shallower(k, read[m..] + after, depth + 1)
  {
    assert Readable(k, read[0]);
    m := 1 + Below(k, read[1..], depth);
    HangsApart(k, read, m, depth);
    assert m < |read| ==> (read[m..] + after)[0] == read[m] && Readable(k, read[m]);
  }

  /** The whole of a tree is read exactly when its lines hang together from the top, and then its
      nodes, walked in order, say the lines with their depths: nothing is lost, moved or made up. */
  lemma {:induction false} ForestRoundTrip(k: TreeKind, lines: seq<Line>)
    ensures ForestOf(k, lines, 0).Ok? <==> Hangs(k, lines, 0)
    ensures ForestOf(k, lines, 0).Ok? ==>
      ForestOf(k, lines, 0).value.1 == [] && Preorder(ForestOf(k, lines, 0).value.0, 0) == Said(k, lines)
  {
    if ForestOf(k, lines, 0).Ok? {
      var read := ForestSound(k, lines, 0);
      assert read + [] == read;
    }
    if Hangs(k, lines, 0) {
      ForestComplete(k, lines, [], 0);
      assert lines + [] == lines;
    }
  }

  // ----- reading top-level groups apart -----

  /** More lines that begin a top-level node change nothing above them. */
  lemma {:induction false} AppendBelow(k: TreeKind, a: seq<Line>, b: seq<Line>, depth: nat)
    requires depth > 0
    requires b != [] ==> DepthOf(k, b[0]).Ok? && DepthOf(k, b[0]).value.0 == 0
    ensures ForestOf(k, a + b, depth) ==
      if ForestOf(k, a, depth).Refused? then Refused
      else Ok((ForestOf(k, a, depth).value.0, ForestOf(k, a, depth).value.1 + b))
    decreases |a|
  {
    if a == [] {
      assert a + b == b;
    } else {
      assert (a + b)[1..] == a[1..] + b;
      AppendBelow(k, a[1..], b, depth + 1);
      var r := ForestOf(k, a[1..], depth + 1);
      if r.Ok? {
        AppendBelow(k, r.value.1, b, depth);
      }
    }
  }

  /** A tree read in two at the start of a top-level node is the tree read whole. */
  lemma {:induction false} AppendAtTop(k: TreeKind, a: seq<Line>, b: seq<Line>)
    requires b != [] ==> DepthOf(k, b[0]).Ok? && DepthOf(k, b[0]).value.0 == 0
    ensures ForestOf(k, a + b, 0) ==
      if ForestOf(k, a, 0).Refused? || ForestOf(k, b, 0).Refused? then Refused
      else Ok((ForestOf(k, a, 0).value.0 + ForestOf(k, b, 0).value.0, []))
    decreases |a|
  {
    if a == [] {
      ForestRoundTrip(k, b);
      assert a + b == b;
      if ForestOf(k, b, 0).Ok? {
        assert [] + ForestOf(k, b, 0).value.0 == ForestOf(k, b, 0).value.0;
      }
    } else {
      assert (a + b)[1..] == a[1..] + b;
      AppendBelow(k, a[1..], b, 1);
      var r := ForestOf(k, a[1..], 1);
      if r.Ok? && DepthOf(k, a[0]).Ok? && DepthOf(k, a[0]).value.0 == 0 && Own(k, a[0]).Ok? {
        AppendAtTop(k, r.value.1, b);
        var s, t := ForestOf(k, r.value.1, 0), ForestOf(k, b, 0);
        if s.Ok? && t.Ok? {
          AppendedNode(k, a, b, r.value.0, r.value.1, s.value.0, t.value.0);
        } else {
          assert ForestOf(k, a + b, 0).Refused?;
        }
      } else {
        assert (a + b)[0] == a[0];
        assert ForestOf(k, a + b, 0).Refused? && ForestOf(k, a, 0).Refused?;
      }
    }
  }

  lemma {:induction false} AppendedNode(k: TreeKind, a: seq<Line>, b: seq<Line>, children: seq<Node>, rest: seq<Line>,
                     siblings: seq<Node>, others: seq<Node>)
    requires a != [] && Readable(k, a[0]) && Depth(k, a[0]) == 0 && |rest| < |a|
    requires ForestOf(k, a[1..], 1) == Ok((children, rest))
    requires ForestOf(k, (a + b)[1..], 1) == Ok((children, rest + b))
    requires ForestOf(k, rest, 0).Ok? && ForestOf(k, rest, 0).value.0 == siblings
    requires ForestOf(k, rest + b, 0) == Ok((siblings + others, []))
    ensures ForestOf(k, a, 0).Ok?
    ensures ForestOf(k, a + b, 0) == Ok((ForestOf(k, a, 0).value.0 + others, []))
  {
    hide ForestOf;
    var first := [Node(Own(k, a[0]).value, children)];
    ForestStep(k, a, 0, children, rest, siblings, ForestOf(k, rest, 0).value.1);
    assert (a + b)[0] == a[0];
    ForestStep(k, a + b, 0, children, rest + b, siblings + others, []);
    assert first + (siblings + others) == (first + siblings) + others;
  }
}
