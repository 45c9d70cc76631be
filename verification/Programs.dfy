/**
 A compiled expression as a list of instructions, and the run of it over a text that has not ended
 (viable in pkg/selector/watch.go).
 */
module Programs {
  import opened Lines

  // ----- what holds between two characters -----

  /** syntax.EmptyOp */
  datatype Assertion = BeginLine | EndLine | BeginText | EndText | WordBoundary | NoWordBoundary

  predicate IsWordChar(c: char) {
    'a' <= c <= 'z' || 'A' <= c <= 'Z' || '0' <= c <= '9' || c == '_'
  }

  /** What holds between two characters, each of which may be missing (syntax.EmptyOpContext). */
  function Context(before: Option<char>, after: Option<char>): set<Assertion> {
    (if before == None then {BeginText, BeginLine} else if before == Some('\n') then {BeginLine} else {})
    + (if after == None then {EndText, EndLine} else if after == Some('\n') then {EndLine} else {})
    + (if (before.Some? && IsWordChar(before.value)) != (after.Some? && IsWordChar(after.value)) then {WordBoundary}
       else {NoWordBoundary})
  }

  function CharAt(text: string, i: int): Option<char> {
    if 0 <= i < |text| then Some(text[i]) else None
  }

  /** What holds at a position of a text (emptyContext). */
  function ContextAt(text: string, at: nat): set<Assertion> {
    Context(CharAt(text, at - 1), CharAt(text, at))
  }

  // ----- programs -----

  datatype Inst =
    | Fail
    | Alt(out: nat, arg: nat)
    | Nop(out: nat)
    | Empty(ops: set<Assertion>, out: nat)
    | Match
    | Rune(accepts: char -> bool, out: nat)

  datatype Prog = Prog(insts: seq<Inst>, start: nat) {
    predicate Valid() {
      && start < |insts|
      && forall i :: 0 <= i < |insts| ==> Targets(insts[i])
    }

    predicate Targets(inst: Inst) {
      match inst
      case Alt(out, arg) => out < |insts| && arg < |insts|
      case Nop(out) => out < |insts|
      case Empty(_, out) => out < |insts|
      case Rune(_, out) => out < |insts|
      case _ => true
    }
  }

  /** An instruction about to run, and where in the text. */
  datatype State = State(pc: nat, at: nat)

  /** One step of a run. Where `open`, the text goes on past its end, so that an assertion there may be met. */
  predicate Moves(p: Prog, text: string, open: bool, s: State, t: State) {
    && s.pc < |p.insts| && s.at <= |text|
    && match p.insts[s.pc]
       case Alt(out, arg) => t.at == s.at && (t.pc == out || t.pc == arg)
       case Nop(out) => t == State(out, s.at)
       case Empty(ops, out) => t == State(out, s.at) && ((open && s.at == |text|) || ops <= ContextAt(text, s.at))
       case Rune(accepts, out) => s.at < |text| && accepts(text[s.at]) && t == State(out, s.at + 1)
       case _ => false
  }

  /** A run of the program from the start of the text. */
  ghost predicate Run(p: Prog, text: string, open: bool, run: seq<State>) {
    && run != [] && run[0] == State(p.start, 0)
    && forall k :: 0 <= k < |run| - 1 ==> Moves(p, text, open, run[k], run[k + 1])
  }

  /** The program accepts the text from its start, whatever follows where it stops. */
  ghost predicate AcceptsFromStart(p: Prog, text: string) {
    exists run: seq<State> :: Run(p, text, false, run) && EndsIn(p, run[|run| - 1], text, false)
  }

  /** A run ends in a match, or where the text is open, at its end waiting for a character. */
  predicate EndsIn(p: Prog, s: State, text: string, open: bool) {
    && s.pc < |p.insts|
    && (p.insts[s.pc].Match? || (open && s.at == |text| && p.insts[s.pc].Rune?))
  }

  /** A way through the program that text, which goes on, has not closed. */
  ghost predicate OpenWay(p: Prog, text: string) {
    exists run: seq<State> :: Run(p, text, true, run) && EndsIn(p, run[|run| - 1], text, true)
  }

  // ----- no way through is lost -----

  /** A step of a longer text within its beginning is a step of the beginning. */
  lemma {:induction false} MoveWithin(p: Prog, prefix: string, rest: string, s: State, t: State)
    requires Moves(p, prefix + rest, false, s, t) && t.at <= |prefix|
    ensures Moves(p, prefix, true, s, t)
  {
    var text := prefix + rest;
    assert s.at <= t.at;
    assert forall i :: 0 <= i < |prefix| ==> text[i] == prefix[i];
  }

  lemma {:induction false} RunGoesForward(p: Prog, text: string, open: bool, run: seq<State>, j: nat, k: nat)
    requires Run(p, text, open, run) && j <= k < |run|
    ensures run[j].at <= run[k].at
  {
    if j < k {
      RunGoesForward(p, text, open, run, j, k - 1);
      assert Moves(p, text, open, run[k - 1], run[k]);
    }
  }

  /** The part of a run that stays within the beginning of a text. */
  lemma {:induction false} RunWithin(p: Prog, prefix: string, rest: string, run: seq<State>, k: nat)
    requires Run(p, prefix + rest, false, run) && k < |run| && run[k].at <= |prefix|
    ensures Run(p, prefix, true, run[..k + 1])
  {
    forall j | 0 <= j < k ensures Moves(p, prefix, true, run[j], run[j + 1]) {
      RunGoesForward(p, prefix + rest, false, run, j + 1, k);
      MoveWithin(p, prefix, rest, run[j], run[j + 1]);
    }
  }

  /** A text that is accepted leaves a way open through every beginning of it. */
  lemma {:induction false} AcceptedLeavesAWay(p: Prog, prefix: string, rest: string)
    requires AcceptsFromStart(p, prefix + rest)
    ensures OpenWay(p, prefix)
  {
    var text := prefix + rest;
    var run: seq<State> :| Run(p, text, false, run) && EndsIn(p, run[|run| - 1], text, false);
    var n := |run| - 1;
    if run[n].at <= |prefix| {
      RunWithin(p, prefix, rest, run, n);
      assert run[..n + 1] == run;
    } else {
      var k := LastWithin(p, prefix, text, run, n);
      RunWithin(p, prefix, rest, run, k);
      var part := run[..k + 1];
      assert Moves(p, text, false, run[k], run[k + 1]);
      assert part[|part| - 1] == run[k] && EndsIn(p, run[k], prefix, true);
    }
  }

  /** The last state before a run leaves the beginning of a text: it is at the end of it, and takes a
      character. */
  lemma {:induction false} LastWithin(p: Prog, prefix: string, text: string, run: seq<State>, n: nat) returns (k: nat)
    requires Run(p, text, false, run) && n < |run| && run[n].at > |prefix|
    ensures k < n && run[k].at == |prefix| && run[k].pc < |p.insts| && p.insts[run[k].pc].Rune?
  {
    assert n > 0;
    assert Moves(p, text, false, run[n - 1], run[n]);
    if run[n - 1].at > |prefix| {
      k := LastWithin(p, prefix, text, run, n - 1);
    } else {
      k := n - 1;
    }
  }

  // ----- the run of a set of threads -----

  /** A state some open run reaches. */
  ghost predicate Reaches(p: Prog, text: string, s: State) {
    exists run: seq<State> :: Run(p, text, true, run) && run[|run| - 1] == s
  }

  lemma {:induction false} ReachesOn(p: Prog, text: string, s: State, t: State)
    requires Reaches(p, text, s) && Moves(p, text, true, s, t)
    ensures Reaches(p, text, t)
  {
    hide Moves;
    var run: seq<State> :| Run(p, text, true, run) && run[|run| - 1] == s;
    var longer := run + [t];
    assert Run(p, text, true, longer);
    assert longer[|longer| - 1] == t;
  }

  lemma {:induction false} ReachesStart(p: Prog, text: string)
    ensures Reaches(p, text, State(p.start, 0))
  {
    var run := [State(p.start, 0)];
    assert Run(p, text, true, run) && run[|run| - 1] == State(p.start, 0);
  }

  lemma {:induction false} ReachedIsAWay(p: Prog, text: string, s: State)
    requires Reaches(p, text, s) && EndsIn(p, s, text, true)
    ensures OpenWay(p, text)
  {
  }

  /** The instructions q goes on to without taking a character are among these. */
  predicate Follows(p: Prog, text: string, q: nat, at: nat, marked: set<nat>)
    requires q < |p.insts|
  {
    match p.insts[q]
    case Alt(out, arg) => out in marked && arg in marked
    case Nop(out) => out in marked
    case Empty(ops, out) => at == |text| || ops <= ContextAt(text, at) ==> out in marked
    case _ => true
  }

  /** A thread that takes a character is on the list, and one that matches has been noted. */
  predicate Listed(p: Prog, q: nat, list: seq<nat>, matched: bool)
    requires q < |p.insts|
  {
    (p.insts[q].Rune? ==> q in list) && (p.insts[q].Match? ==> matched)
  }

  /** At one position: what the instructions go on to without a character is there, and a match is noted. */
  ghost predicate Settled(p: Prog, text: string, at: nat, marked: set<nat>, matched: bool) {
    forall q :: q in marked ==>
      q < |p.insts| && Follows(p, text, q, at, marked) && (p.insts[q].Match? ==> matched)
  }

  /** From one position to the next: what takes the character goes on. */
  ghost predicate Advances(p: Prog, c: char, marked: set<nat>, next: set<nat>) {
    forall q :: q in marked && q < |p.insts| && p.insts[q].Rune? && p.insts[q].accepts(c) ==> p.insts[q].out in next
  }

  /** The sets of instructions reached at each position so far, none of them lost. */
  ghost predicate Tracked(p: Prog, text: string, seen: seq<set<nat>>, matched: bool) {
    && 0 < |seen| <= |text| + 1 && p.start in seen[0]
    && (forall k :: 0 <= k < |seen| ==> Settled(p, text, k, seen[k], matched))
    && (forall k :: 0 <= k < |seen| - 1 ==> Advances(p, text[k], seen[k], seen[k + 1]))
  }

  /** Every state of an open run is among the ones tracked, as far as they go. */
  lemma {:induction false} TracksEveryRun(p: Prog, text: string, seen: seq<set<nat>>, matched: bool, run: seq<State>, j: nat)
    requires Tracked(p, text, seen, matched) && Run(p, text, true, run) && j < |run| && run[j].at < |seen|
    ensures run[j].pc in seen[run[j].at]
  {
    if j > 0 {
      assert Moves(p, text, true, run[j - 1], run[j]);
      TracksEveryRun(p, text, seen, matched, run, j - 1);
      var s := run[j - 1];
      assert Settled(p, text, s.at, seen[s.at], matched);
      if run[j].at > s.at {
        assert Advances(p, text[s.at], seen[s.at], seen[s.at + 1]);
      }
    }
  }

  /** When no thread takes a character any more and none has matched, no way is open. */
  lemma {:induction false} NoWayIsOpen(p: Prog, text: string, seen: seq<set<nat>>)
    requires Tracked(p, text, seen, false)
    requires forall q :: q in seen[|seen| - 1] && q < |p.insts| ==> !p.insts[q].Rune?
    ensures !OpenWay(p, text)
  {
    if OpenWay(p, text) {
      var run: seq<State> :| Run(p, text, true, run) && EndsIn(p, run[|run| - 1], text, true);
      var n := |run| - 1;
      NeverGetsFurther(p, text, seen, run, n);
      TracksEveryRun(p, text, seen, false, run, n);
    }
  }

  lemma {:induction false} NeverGetsFurther(p: Prog, text: string, seen: seq<set<nat>>, run: seq<State>, j: nat)
    requires Tracked(p, text, seen, false) && Run(p, text, true, run) && j < |run|
    requires forall q :: q in seen[|seen| - 1] && q < |p.insts| ==> !p.insts[q].Rune?
    ensures run[j].at < |seen|
  {
    if j > 0 {
      NeverGetsFurther(p, text, seen, run, j - 1);
      TracksEveryRun(p, text, seen, false, run, j - 1);
      assert Moves(p, text, true, run[j - 1], run[j]);
      assert Settled(p, text, run[j - 1].at, seen[run[j - 1].at], false);
    }
  }

  /** The instructions marked since `before` have all been followed and listed. */
  ghost predicate Done(p: Prog, text: string, at: nat, before: set<nat>, marked: set<nat>, list: seq<nat>, matched: bool) {
    forall q :: q in marked - before ==>
      q < |p.insts| && Follows(p, text, q, at, marked) && Listed(p, q, list, matched)
  }

  lemma {:induction false} DoneTwice(p: Prog, text: string, at: nat, before: set<nat>, mid: set<nat>, marked: set<nat>,
                                     list1: seq<nat>, matched1: bool, list2: seq<nat>, matched2: bool)
    requires Done(p, text, at, before, mid, list1, matched1) && Done(p, text, at, mid, marked, list2, matched2)
    requires mid <= marked && list1 <= list2 && (matched1 ==> matched2)
    ensures Done(p, text, at, before, marked, list2, matched2)
  {
    forall q | q in marked - before
      ensures q < |p.insts| && Follows(p, text, q, at, marked) && Listed(p, q, list2, matched2)
    {
      if q in mid {
        assert q in mid - before;
      } else {
        assert q in marked - mid;
      }
    }
  }

  lemma {:induction false} DoneWith(p: Prog, text: string, at: nat, before: set<nat>, pc: nat, marked: set<nat>,
                                    list: seq<nat>, matched: bool)
    requires Done(p, text, at, before + {pc}, marked, list, matched)
    requires pc < |p.insts| && Follows(p, text, pc, at, marked) && Listed(p, pc, list, matched)
    ensures Done(p, text, at, before, marked, list, matched)
  {
    forall q | q in marked - before
      ensures q < |p.insts| && Follows(p, text, q, at, marked) && Listed(p, q, list, matched)
    {
      if q != pc {
        assert q in marked - (before + {pc});
      }
    }
  }

  /** The threads of one run over a text (viable). */
  class Threads {
    const prog: Prog
    const text: string
    /** The position an instruction was last added at. */
    const onList: array<int>
    var matched: bool

    ghost predicate Valid()
      reads this
    {
      && prog.Valid() && onList.Length == |prog.insts| && (matched ==> OpenWay(prog, text))
    }

    ghost function Marked(at: nat): set<nat>
      reads onList
    {
      set q | 0 <= q < onList.Length && onList[q] == at
    }

    ghost function Unmarked(at: nat): set<nat>
      reads onList
    {
      set q | 0 <= q < onList.Length && onList[q] != at
    }

    ghost predicate AllReached(at: nat)
      reads onList
    {
      forall q :: q in Marked(at) ==> Reaches(prog, text, State(q, at))
    }

    constructor (prog: Prog, text: string)
      requires prog.Valid()
      ensures this.prog == prog && this.text == text && Valid() && !matched && fresh(onList)
      ensures forall q :: 0 <= q < onList.Length ==> onList[q] < 0
    {
      this.prog, this.text, matched := prog, text, false;
      onList := new int[|prog.insts|](_ => -1);
    }

    method Mark(pc: nat, at: nat)
      requires pc < onList.Length && onList[pc] != at
      modifies onList
      ensures Marked(at) == old(Marked(at)) + {pc} && |Unmarked(at)| < old(|Unmarked(at)|)
      ensures forall q :: 0 <= q < onList.Length ==> onList[q] == if q == pc then at else old(onList[q])
    {
      ghost var before, left := Marked(at), Unmarked(at);
      onList[pc] := at;
      assert Marked(at) == before + {pc};
      assert Unmarked(at) == left - {pc};
    }

    /** Follow the instructions that take no character from pc, at one position of the text: every one of them
        is marked, and the ones that take a character are put on the list. */
    method Add(list: seq<nat>, pc: nat, at: nat) returns (out: seq<nat>)
      requires Valid() && pc < |prog.insts| && at <= |text|
      requires Reaches(prog, text, State(pc, at)) && AllReached(at)
      modifies this`matched, onList
      ensures Valid() && AllReached(at) && (old(matched) ==> matched)
      ensures pc in Marked(at) && old(Marked(at)) <= Marked(at) && |Unmarked(at)| <= old(|Unmarked(at)|) && list <= out
      ensures Done(prog, text, at, old(Marked(at)), Marked(at), out, matched)
      ensures forall i :: |list| <= i < |out| ==> out[i] in Marked(at) && prog.insts[out[i]].Rune?
      ensures forall q :: 0 <= q < onList.Length ==> onList[q] == old(onList[q]) || onList[q] == at
      decreases |Unmarked(at)|
    {
      if onList[pc] == at {
        return list;
      }
      hide Reaches, Done, OpenWay;
      ghost var before := Marked(at);
      Mark(pc, at);
      NothingNew(at, list);
      out := list;
      match prog.insts[pc] {
        case Fail =>
        case Alt(o, a) =>
          ReachesOn(prog, text, State(pc, at), State(o, at));
          ReachesOn(prog, text, State(pc, at), State(a, at));
          out := Add(out, o, at);
          ghost var first, list1, matched1 := Marked(at), out, matched;
          out := Add(out, a, at);
          DoneTwice(prog, text, at, before + {pc}, first, Marked(at), list1, matched1, out, matched);
        case Nop(o) =>
          ReachesOn(prog, text, State(pc, at), State(o, at));
          out := Add(out, o, at);
        case Empty(ops, o) =>
          if at == |text| || ops <= ContextAt(text, at) {
            ReachesOn(prog, text, State(pc, at), State(o, at));
            out := Add(out, o, at);
          }
        case Match =>
          ReachedIsAWay(prog, text, State(pc, at));
          matched := true;
        case Rune(_, _) =>
          out := out + [pc];
      }
      DoneWith(prog, text, at, before, pc, Marked(at), out, matched);
    }

    /** Marking one instruction follows none. */
    lemma {:induction false} NothingNew(at: nat, list: seq<nat>)
      ensures Done(prog, text, at, Marked(at), Marked(at), list, matched)
    {
    }

    /** The threads on a list wait for a character at this position, and every thread that does is on it. */
    ghost predicate Waits(list: seq<nat>, marked: set<nat>, at: nat)
      reads this
    {
      && (forall i :: 0 <= i < |list| ==>
            list[i] < |prog.insts| && prog.insts[list[i]].Rune? && Reaches(prog, text, State(list[i], at)))
      && (forall q :: q in marked ==>
            q < |prog.insts| && Follows(prog, text, q, at, marked) && Listed(prog, q, list, matched))
    }

    /** The threads past the next character. */
    method Advance(cur: seq<nat>, at: nat) returns (next: seq<nat>)
      requires Valid() && at < |text|
      requires forall i :: 0 <= i < |cur| ==>
        cur[i] < |prog.insts| && prog.insts[cur[i]].Rune? && Reaches(prog, text, State(cur[i], at))
      requires forall q :: 0 <= q < onList.Length ==> onList[q] <= at
      modifies this`matched, onList
      ensures Valid() && (old(matched) ==> matched)
      ensures forall q :: 0 <= q < onList.Length ==> onList[q] <= at + 1
      ensures Waits(next, Marked(at + 1), at + 1)
      ensures forall i :: 0 <= i < |cur| && prog.insts[cur[i]].accepts(text[at]) ==>
        prog.insts[cur[i]].out in Marked(at + 1)
    {
      hide Reaches, Follows, Listed;
      next := [];
      for i := 0 to |cur|
        invariant Valid() && (old(matched) ==> matched) && AllReached(at + 1)
        invariant forall q :: 0 <= q < onList.Length ==> onList[q] <= at + 1
        invariant Waits(next, Marked(at + 1), at + 1)
        invariant forall j :: 0 <= j < i && prog.insts[cur[j]].accepts(text[at]) ==>
          prog.insts[cur[j]].out in Marked(at + 1)
      {
        if prog.insts[cur[i]].accepts(text[at]) {
          var out := prog.insts[cur[i]].out;
          ReachesOn(prog, text, State(cur[i], at), State(out, at + 1));
          next := AddNext(next, out, at + 1);
        }
      }
    }

    /** Add to a list that is complete, leaving it complete. */
    method AddNext(list: seq<nat>, pc: nat, at: nat) returns (out: seq<nat>)
      requires Valid() && pc < |prog.insts| && at <= |text| && Reaches(prog, text, State(pc, at)) && AllReached(at)
      requires Waits(list, Marked(at), at)
      requires forall q :: 0 <= q < onList.Length ==> onList[q] <= at
      modifies this`matched, onList
      ensures Valid() && AllReached(at) && (old(matched) ==> matched) && Waits(out, Marked(at), at)
      ensures pc in Marked(at) && old(Marked(at)) <= Marked(at)
      ensures forall q :: 0 <= q < onList.Length ==> onList[q] <= at
    {
      hide Reaches;
      ghost var marked, noted := Marked(at), matched;
      out := Add(list, pc, at);
      forall q | q in Marked(at)
        ensures q < |prog.insts| && Follows(prog, text, q, at, Marked(at)) && Listed(prog, q, out, matched)
      {
        if q in marked {
          assert Follows(prog, text, q, at, marked) && Listed(prog, q, list, noted);
        }
      }
    }

    /** Run the threads over the text. */
    method Simulate() returns (viable: bool)
      requires Valid() && !matched && forall q :: 0 <= q < onList.Length ==> onList[q] < 0
      modifies this`matched, onList
      ensures viable <==> OpenWay(prog, text)
    {
      hide OpenWay, Reaches, Follows;
      ReachesStart(prog, text);
      var cur := AddNext([], prog.start, 0);
      ghost var seen := [Marked(0)];
      assert Settled(prog, text, 0, seen[0], matched);
      for i := 0 to |text|
        invariant Valid() && |seen| == i + 1 && Tracked(prog, text, seen, matched) && Waits(cur, seen[i], i)
        invariant forall q :: 0 <= q < onList.Length ==> onList[q] <= i
      {
        if matched {
          return true;
        }
        ghost var waiting := cur;
        cur := Advance(cur, i);
        TracksOn(seen, waiting, Marked(i + 1), cur);
        seen := seen + [Marked(i + 1)];
        if cur == [] {
          NothingWaits(seen, cur);
          return matched;
        }
      }
      if cur == [] {
        NothingWaits(seen, cur);
      } else {
        ReachedIsAWay(prog, text, State(cur[0], |text|));
      }
      return matched || cur != [];
    }

    lemma {:induction false} NothingWaits(seen: seq<set<nat>>, cur: seq<nat>)
      requires Tracked(prog, text, seen, matched) && cur == [] && Waits(cur, seen[|seen| - 1], |seen| - 1)
      ensures !matched ==> !OpenWay(prog, text)
    {
      hide OpenWay, Reaches, Follows;
      if !matched {
        NoWayIsOpen(prog, text, seen);
      }
    }

    /** One more position tracked. */
    lemma {:induction false} TracksOn(seen: seq<set<nat>>, waiting: seq<nat>, marked: set<nat>, cur: seq<nat>)
      requires Tracked(prog, text, seen, false) && |seen| <= |text|
      requires forall q :: q in seen[|seen| - 1] && q < |prog.insts| && prog.insts[q].Rune? ==> q in waiting
      requires forall i :: 0 <= i < |waiting| ==> waiting[i] < |prog.insts| && prog.insts[waiting[i]].Rune?
      requires forall i :: 0 <= i < |waiting| && prog.insts[waiting[i]].accepts(text[|seen| - 1]) ==>
        prog.insts[waiting[i]].out in marked
      requires Waits(cur, marked, |seen|)
      ensures Tracked(prog, text, seen + [marked], matched)
    {
      hide Reaches, Follows;
      var all := seen + [marked];
      assert all[0] == seen[0];
      var n := |seen| - 1;
      assert Settled(prog, text, |seen|, marked, matched);
      assert Advances(prog, text[n], seen[n], marked);
      forall k | 0 <= k < |all| ensures Settled(prog, text, k, all[k], matched) {
        if k < |seen| {
          assert all[k] == seen[k] && Settled(prog, text, k, seen[k], false);
        }
      }
      forall k | 0 <= k < |all| - 1 ensures Advances(prog, text[k], all[k], all[k + 1]) {
        if k < n {
          assert all[k] == seen[k] && all[k + 1] == seen[k + 1] && Advances(prog, text[k], seen[k], seen[k + 1]);
        }
      }
    }
  }

  /** viable: whether some text that begins with this one could still be accepted from its start, as far as
      the text says. */
  method Viable(prog: Prog, text: string) returns (v: bool)
    requires prog.Valid()
    ensures v <==> OpenWay(prog, text)
    ensures !v ==> forall rest: string :: !AcceptsFromStart(prog, text + rest)
  {
    var threads := new Threads(prog, text);
    v := threads.Simulate();
    if !v {
      forall rest: string ensures !AcceptsFromStart(prog, text + rest) {
        if AcceptsFromStart(prog, text + rest) {
          AcceptedLeavesAWay(prog, text, rest);
        }
      }
    }
  }
}