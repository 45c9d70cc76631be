/**
 What an expression's syntax says about where it can match, and when its answer on the first lines of a text
 is final (judge, anchored, hasOp in pkg/selector/watch.go).
 */
module Expressions {
  import opened Lines
  import opened Programs

  /** The parsed form of an expression, simplified. `Chars` is a run of characters, each given by the class
      it may be of; the empty run matches nothing and is the empty expression. */
  datatype Syntax =
    | NoMatch
    | Chars(classes: seq<char -> bool>)
    | Zero(op: Assertion)
    | Capture(sub: Syntax)
    | Concat(subs: seq<Syntax>)
    | Alternate(subs: seq<Syntax>)
    | Star(sub: Syntax)
    | Plus(sub: Syntax)
    | Quest(sub: Syntax)

  // ----- what an expression matches -----

  /** The expression matches the text between two positions. */
  ghost predicate Matches(re: Syntax, text: string, i: nat, j: nat)
    decreases re, 0
  {
    match re
    case NoMatch => false
    case Chars(classes) =>
      j == i + |classes| <= |text| && forall k :: 0 <= k < |classes| ==> classes[k](text[i + k])
    case Zero(op) => i == j <= |text| && op in ContextAt(text, i)
    case Capture(sub) => Matches(sub, text, i, j)
    case Concat(subs) => MatchesAll(subs, text, i, j)
    case Alternate(subs) => MatchesAny(subs, text, i, j)
    case Star(sub) => exists n: nat :: Times(sub, n, text, i, j)
    case Plus(sub) => exists n: nat :: n > 0 && Times(sub, n, text, i, j)
    case Quest(sub) => (i == j <= |text|) || Matches(sub, text, i, j)
  }

  ghost predicate MatchesAll(subs: seq<Syntax>, text: string, i: nat, j: nat)
    decreases subs, 1
  {
    if subs == [] then i == j <= |text|
    else exists k: nat :: Matches(subs[0], text, i, k) && MatchesAll(subs[1..], text, k, j)
  }

  ghost predicate MatchesAny(subs: seq<Syntax>, text: string, i: nat, j: nat)
    decreases subs, 1
  {
    subs != [] && (Matches(subs[0], text, i, j) || MatchesAny(subs[1..], text, i, j))
  }

  ghost predicate Times(sub: Syntax, n: nat, text: string, i: nat, j: nat)
    decreases sub, 1, n
  {
    if n == 0 then i == j <= |text|
    else exists k: nat :: Matches(sub, text, i, k) && Times(sub, n - 1, text, k, j)
  }

  ghost predicate MatchesSomewhere(re: Syntax, text: string) {
    exists i: nat, j: nat :: Matches(re, text, i, j)
  }

  // ----- what the syntax says -----

  /** Whether the expression looks at where the text ends (hasOp for OpEndText). */
  predicate LooksAtEnd(re: Syntax)
    decreases re, 0
  {
    match re
    case Zero(op) => op == EndText
    case Capture(sub) => LooksAtEnd(sub)
    case Concat(subs) => SomeLooksAtEnd(subs)
    case Alternate(subs) => SomeLooksAtEnd(subs)
    case Star(sub) => LooksAtEnd(sub)
    case Plus(sub) => LooksAtEnd(sub)
    case Quest(sub) => LooksAtEnd(sub)
    case _ => false
  }

  predicate SomeLooksAtEnd(subs: seq<Syntax>)
    decreases subs, 1
  {
    subs != [] && (LooksAtEnd(subs[0]) || SomeLooksAtEnd(subs[1..]))
  }

  /** Whether every match starts at the start of the text, as far as the syntax says. */
  predicate Anchored(re: Syntax)
    decreases re, 0
  {
    match re
    case Zero(op) => op == BeginText
    case Capture(sub) => Anchored(sub)
    case Concat(subs) => subs != [] && Anchored(subs[0])
    case Alternate(subs) => subs != [] && AllAnchored(subs)
    case _ => false
  }

  predicate AllAnchored(subs: seq<Syntax>)
    decreases subs, 1
  {
    subs == [] || (Anchored(subs[0]) && AllAnchored(subs[1..]))
  }

  // ----- an anchored expression matches nowhere but at the start -----

  lemma {:induction false} AnchoredStartsAtStart(re: Syntax, text: string, i: nat, j: nat)
    requires Anchored(re) && Matches(re, text, i, j)
    ensures i == 0
    decreases re, 0
  {
    match re
    case Zero(_) =>
    case Capture(sub) => AnchoredStartsAtStart(sub, text, i, j);
    case Concat(subs) =>
      assert MatchesAll(subs, text, i, j);
      var k: nat :| Matches(subs[0], text, i, k) && MatchesAll(subs[1..], text, k, j);
      AnchoredStartsAtStart(subs[0], text, i, k);
    case Alternate(subs) => AnyAnchoredStartsAtStart(subs, text, i, j);
  }

  lemma {:induction false} AnyAnchoredStartsAtStart(subs: seq<Syntax>, text: string, i: nat, j: nat)
    requires AllAnchored(subs) && MatchesAny(subs, text, i, j)
    ensures i == 0
    decreases subs, 1
  {
    if Matches(subs[0], text, i, j) {
      AnchoredStartsAtStart(subs[0], text, i, j);
    } else {
      AnyAnchoredStartsAtStart(subs[1..], text, i, j);
    }
  }

  // ----- a match that does not look at the end stays -----

  /** The text goes on with a line break, or does not go on. */
  predicate GoesOnTo(text: string, longer: string) {
    text <= longer && (|text| < |longer| ==> longer[|text|] == '\n')
  }

  /** A line break reads the way the end of the text does, to every assertion but the end of the text. */
  lemma {:induction false} ContextStays(text: string, longer: string, at: nat)
    requires GoesOnTo(text, longer) && at <= |text|
    ensures forall op :: op in ContextAt(text, at) && op != EndText ==> op in ContextAt(longer, at)
  {
    assert CharAt(longer, at - 1) == CharAt(text, at - 1);
    assert at < |text| ==> CharAt(longer, at) == CharAt(text, at);
  }

  lemma {:induction false} MatchStays(re: Syntax, text: string, longer: string, i: nat, j: nat)
    requires GoesOnTo(text, longer) && !LooksAtEnd(re) && Matches(re, text, i, j)
    ensures Matches(re, longer, i, j)
    decreases re, 0
  {
    match re
    case Chars(classes) =>
    case Zero(op) => ContextStays(text, longer, i);
    case Capture(sub) => MatchStays(sub, text, longer, i, j);
    case Concat(subs) => AllStay(subs, text, longer, i, j);
    case Alternate(subs) => AnyStays(subs, text, longer, i, j);
    case Star(sub) =>
      var n: nat :| Times(sub, n, text, i, j);
      TimesStay(sub, n, text, longer, i, j);
    case Plus(sub) =>
      var n: nat :| n > 0 && Times(sub, n, text, i, j);
      TimesStay(sub, n, text, longer, i, j);
    case Quest(sub) =>
      if Matches(sub, text, i, j) {
        MatchStays(sub, text, longer, i, j);
      }
  }

  lemma {:induction false} AllStay(subs: seq<Syntax>, text: string, longer: string, i: nat, j: nat)
    requires GoesOnTo(text, longer) && !SomeLooksAtEnd(subs) && MatchesAll(subs, text, i, j)
    ensures MatchesAll(subs, longer, i, j)
    decreases subs, 1
  {
    if subs != [] {
      var k: nat :| Matches(subs[0], text, i, k) && MatchesAll(subs[1..], text, k, j);
      MatchStays(subs[0], text, longer, i, k);
      AllStay(subs[1..], text, longer, k, j);
    }
  }

  lemma {:induction false} AnyStays(subs: seq<Syntax>, text: string, longer: string, i: nat, j: nat)
    requires GoesOnTo(text, longer) && !SomeLooksAtEnd(subs) && MatchesAny(subs, text, i, j)
    ensures MatchesAny(subs, longer, i, j)
    decreases subs, 1
  {
    if Matches(subs[0], text, i, j) {
      MatchStays(subs[0], text, longer, i, j);
    } else {
      AnyStays(subs[1..], text, longer, i, j);
    }
  }

  lemma {:induction false} TimesStay(sub: Syntax, n: nat, text: string, longer: string, i: nat, j: nat)
    requires GoesOnTo(text, longer) && !LooksAtEnd(sub) && Times(sub, n, text, i, j)
    ensures Times(sub, n, longer, i, j)
    decreases sub, 1, n
  {
    if n > 0 {
      var k: nat :| Matches(sub, text, i, k) && Times(sub, n - 1, text, k, j);
      MatchStays(sub, text, longer, i, k);
      TimesStay(sub, n - 1, text, longer, k, j);
    }
  }

  // ----- the verdict on one expression -----

  /** An expression as the selector has it: parsed, compiled, and ready to answer. */
  datatype Expr = Expr(tree: Syntax, prog: Prog, answers: string -> bool)

  /** What the regexp library promises: the compiled form and the answers are the ones of the parsed form. */
  ghost predicate Faithful(re: Expr) {
    && re.prog.Valid()
    && (forall text: string :: re.answers(text) <==> MatchesSomewhere(re.tree, text))
    && (forall text: string, j: nat :: Matches(re.tree, text, 0, j) ==> AcceptsFromStart(re.prog, text))
  }

  datatype Decision = Undecided | Fits | Out

  /** The answer on this text is the answer on every text it goes on to. */
  ghost predicate Final(re: Expr, text: string, answer: bool) {
    forall longer: string :: GoesOnTo(text, longer) ==> re.answers(longer) == answer
  }

  lemma {:induction false} FoundIsFinal(re: Expr, text: string)
    requires Faithful(re) && re.answers(text) && !LooksAtEnd(re.tree)
    ensures Final(re, text, true)
  {
    var i: nat, j: nat :| Matches(re.tree, text, i, j);
    forall longer: string | GoesOnTo(text, longer) ensures re.answers(longer) {
      MatchStays(re.tree, text, longer, i, j);
      assert MatchesSomewhere(re.tree, longer);
    }
  }

  lemma {:induction false} ClosedIsFinal(re: Expr, text: string)
    requires Faithful(re) && !re.answers(text) && Anchored(re.tree)
    requires forall rest: string :: !AcceptsFromStart(re.prog, text + "\n" + rest)
    ensures Final(re, text, false)
  {
    forall longer: string | GoesOnTo(text, longer) && longer != text ensures !re.answers(longer) {
      var rest := longer[|text| + 1..];
      assert longer == text + "\n" + rest;
      assert !AcceptsFromStart(re.prog, longer);
      if re.answers(longer) {
        var i: nat, j: nat :| Matches(re.tree, longer, i, j);
        AnchoredStartsAtStart(re.tree, longer, i, j);
      }
    }
  }

  /** judge: whether one expression's answer on text, the first lines of an input that goes on, is final. */
  method Judge(re: Expr, text: string) returns (d: Decision)
    requires re.prog.Valid()
    ensures Faithful(re) ==>
      match d
      case Fits => Final(re, text, true)
      case Out => Final(re, text, false)
      case Undecided => true
  {
    hide Faithful, Final, AcceptsFromStart;
    if re.answers(text) {
      if LooksAtEnd(re.tree) {
        return Undecided;
      }
      if Faithful(re) {
        FoundIsFinal(re, text);
      }
      return Fits;
    }
    // More lines follow the text, so whatever comes next starts with a line break after it.
    if Anchored(re.tree) {
      var viable := Viable(re.prog, text + "\n");
      if !viable {
        if Faithful(re) {
          ClosedIsFinal(re, text);
        }
        return Out;
      }
    }
    return Undecided;
  }
}