/**
 What the syntax of an expression says about its named groups: whether a match may leave one out, and every
 text one can match when those are few (internal/schema/generate.go, captures and language).
 */
module Patterns {
  import opened Lines

  /** A parsed expression. A group without a name captures for no one; `Any` stands for the operators that
      take one character of any kind. */
  datatype Pattern =
    | NoMatch
    | Literal(text: string, fold: bool)
    | Class(ranges: seq<(char, char)>)
    | Any
    | ZeroWidth
    | Group(name: string, sub: Pattern)
    | Quest(sub: Pattern)
    | Star(sub: Pattern)
    | Plus(sub: Pattern)
    | Repeat(sub: Pattern, min: nat)
    | Concat(subs: seq<Pattern>)
    | Alternate(subs: seq<Pattern>)

  /** A named group and the text it took, in the order in which groups close. */
  datatype Event = Event(name: string, text: string)

  // ----- what an expression can match -----

  /** The expression can match this text with these groups. Where an assertion holds depends on what stands
      around the text, so here it may hold anywhere. */
  ghost predicate Derives(p: Pattern, text: string, events: seq<Event>)
    decreases p, 1
  {
    match p
    case NoMatch => false
    case Literal(lit, fold) => (if fold then |text| == |lit| else text == lit) && events == []
    case Class(ranges) => |text| == 1 && InRanges(ranges, text[0]) && events == []
    case Any => |text| == 1 && events == []
    case ZeroWidth => text == "" && events == []
    case Group(name, sub) =>
      if name == "" then Derives(sub, text, events)
      else events != [] && events[|events| - 1] == Event(name, text) && Derives(sub, text, events[..|events| - 1])
    case Quest(sub) => (text == "" && events == []) || Derives(sub, text, events)
    case Star(sub) => exists n: nat :: DerivesTimes(sub, n, text, events)
    case Plus(sub) => exists n: nat :: n > 0 && DerivesTimes(sub, n, text, events)
    case Repeat(sub, min) => exists n: nat :: n >= min && DerivesTimes(sub, n, text, events)
    case Concat(subs) => DerivesAll(subs, text, events)
    case Alternate(subs) => exists i :: 0 <= i < |subs| && Derives(subs[i], text, events)
  }

  ghost predicate DerivesTimes(sub: Pattern, n: nat, text: string, events: seq<Event>)
    decreases sub, 2, n
  {
    if n == 0 then text == "" && events == []
    else
      exists i: nat, j: nat ::
        Cut(text, events, i, j) && Derives(sub, text[..i], events[..j]) && DerivesTimes(sub, n - 1, text[i..], events[j..])
  }

  ghost predicate DerivesAll(subs: seq<Pattern>, text: string, events: seq<Event>)
    decreases subs, 2
  {
    if subs == [] then text == "" && events == []
    else
      exists i: nat, j: nat ::
        Cut(text, events, i, j) && Derives(subs[0], text[..i], events[..j]) && DerivesAll(subs[1..], text[i..], events[j..])
  }

  predicate Cut(text: string, events: seq<Event>, i: nat, j: nat) {
    i <= |text| && j <= |events|
  }

  predicate InRanges(ranges: seq<(char, char)>, c: char) {
    exists i :: 0 <= i < |ranges| && ranges[i].0 <= c <= ranges[i].1
  }

  /** The text of a group: what it took last. */
  function Binding(events: seq<Event>, name: string): (t: Option<string>)
    ensures t.Some? ==> exists i :: 0 <= i < |events| && events[i] == Event(name, t.value)
    ensures t.None? ==> forall i :: 0 <= i < |events| ==> events[i].name != name
  {
    if events == [] then None
    else
      var n := |events| - 1;
      if events[n].name == name then
        assert events[n] == Event(name, events[n].text);
        Some(events[n].text)
      else
        var t := Binding(events[..n], name);
        assert forall i :: 0 <= i < n ==> events[i] == events[..n][i];
        t
  }

  // ----- finite languages -----

  const MAX_ENUM := 32

  predicate Before(a: string, b: string) {
    if a == "" then b != ""
    else b != "" && (a[0] < b[0] || (a[0] == b[0] && Before(a[1..], b[1..])))
  }

  /** The list with one more value, in order and each once. */
  function Insert(values: seq<string>, v: string): (out: seq<string>)
    ensures forall x :: x in out <==> x == v || x in values
  {
    if values == [] then [v]
    else if values[0] == v then values
    else if Before(v, values[0]) then [v] + values
    else
      var rest := Insert(values[1..], v);
      [values[0]] + rest
  }

  function InsertAll(values: seq<string>, more: seq<string>): (out: seq<string>)
    ensures forall x :: x in out <==> x in values || x in more
  {
    if more == [] then values else Insert(InsertAll(values, more[..|more| - 1]), more[|more| - 1])
  }

  /** Both lists together, when they are not too many (unionEnum). */
  function UnionEnum(a: Option<seq<string>>, b: Option<seq<string>>): (out: Option<seq<string>>)
    ensures out.Some? ==> a.Some? && b.Some? && forall x :: x in out.value <==> x in a.value || x in b.value
  {
    if a.None? || b.None? then None
    else
      var all := InsertAll([], a.value + b.value);
      if |all| > MAX_ENUM then None else Some(all)
  }

  /** The characters of one range, or nothing when there are too many with those listed before. A range over the
      surrogates is always too long. */
  function RangeTexts(out: seq<string>, lo: char, hi: char): Option<seq<string>>
    decreases hi as int - lo as int
  {
    if lo > hi then Some(out)
    else if |out| >= MAX_ENUM then None
    else if lo == hi then Some(out + [[lo]])
    else if lo == '\U{D7FF}' then None
    else RangeTexts(out + [[lo]], (lo as int + 1) as char, hi)
  }

  /** The characters of a class given as ranges (charClass). */
  function ClassTexts(ranges: seq<(char, char)>): Option<seq<string>> {
    if ranges == [] then Some([])
    else
      var n := |ranges| - 1;
      var out := ClassTexts(ranges[..n]);
      if out.None? then None else RangeTexts(out.value, ranges[n].0, ranges[n].1)
  }

  /** Every text of one list followed by every text of the other. */
  function Products(a: seq<string>, b: seq<string>): (out: seq<string>)
    ensures forall x, y :: x in a && y in b ==> x + y in out
  {
    if a == [] then []
    else
      var n := |a| - 1;
      var rest := Products(a[..n], b);
      var out := rest + seq(|b|, i requires 0 <= i < |b| => a[n] + b[i]);
      assert forall x, y :: x in a && y in b ==> x + y in out by {
        forall x, y | x in a && y in b ensures x + y in out {
          if x == a[n] {
            var i :| 0 <= i < |b| && b[i] == y;
            assert out[|rest| + i] == x + y;
          } else {
            assert x in a[..n];
          }
        }
      }
      out
  }

  /** Every text the expression can match, when there are few of them (language). */
  function Language(p: Pattern): Option<seq<string>>
    decreases p, 0
  {
    match p
    case Literal(text, fold) => if fold then None else Some([text])
    case Class(ranges) => ClassTexts(ranges)
    case ZeroWidth => Some([""])
    case Group(_, sub) => Language(sub)
    case Quest(sub) => UnionEnum(Language(sub), Some([""]))
    case Alternate(subs) => Alternatives(subs)
    case Concat(subs) =>
      var all := Concatenation(subs);
      UnionEnum(all, Some([]))
    case _ => None
  }

  function Alternatives(subs: seq<Pattern>): Option<seq<string>>
    decreases subs, 1
  {
    if subs == [] then Some([])
    else
      var n := |subs| - 1;
      var out := Alternatives(subs[..n]);
      if out.None? then None else UnionEnum(out, Language(subs[n]))
  }

  function Concatenation(subs: seq<Pattern>): Option<seq<string>>
    decreases subs, 1
  {
    if subs == [] then Some([""])
    else
      var n := |subs| - 1;
      var out, last := Concatenation(subs[..n]), Language(subs[n]);
      if out.None? || last.None? then None
      else
        var next := Products(out.value, last.value);
        if |next| > MAX_ENUM then None else Some(next)
  }

  // ----- a finite language leaves nothing out -----

  lemma {:induction false} RangeCovers(out: seq<string>, lo: char, hi: char, c: char)
    requires RangeTexts(out, lo, hi).Some?
    ensures forall x :: x in out ==> x in RangeTexts(out, lo, hi).value
    ensures lo <= c <= hi ==> [c] in RangeTexts(out, lo, hi).value
    decreases hi as int - lo as int
  {
    if lo < hi {
      var more := out + [[lo]];
      assert more[|out|] == [lo];
      RangeCovers(more, (lo as int + 1) as char, hi, c);
    } else if lo == hi {
      assert (out + [[lo]])[|out|] == [lo];
    }
  }

  lemma {:induction false} ClassCovers(ranges: seq<(char, char)>, c: char)
    requires ClassTexts(ranges).Some? && InRanges(ranges, c)
    ensures [c] in ClassTexts(ranges).value
  {
    var n := |ranges| - 1;
    RangeCovers(ClassTexts(ranges[..n]).value, ranges[n].0, ranges[n].1, c);
    if !(ranges[n].0 <= c <= ranges[n].1) {
      var i :| 0 <= i < |ranges| && ranges[i].0 <= c <= ranges[i].1;
      assert ranges[..n][i] == ranges[i];
      ClassCovers(ranges[..n], c);
    }
  }

  /** The last part of a sequence of parts, apart from the ones before it. */
  lemma {:induction false} AllSplitsLast(subs: seq<Pattern>, text: string, events: seq<Event>) returns (i: nat, j: nat)
    requires subs != [] && DerivesAll(subs, text, events)
    ensures Cut(text, events, i, j)
    ensures DerivesAll(subs[..|subs| - 1], text[..i], events[..j])
    ensures Derives(subs[|subs| - 1], text[i..], events[j..])
    decreases |subs|
  {
    hide Derives;
    var n := |subs| - 1;
    var i0: nat, j0: nat :| Cut(text, events, i0, j0)
      && Derives(subs[0], text[..i0], events[..j0]) && DerivesAll(subs[1..], text[i0..], events[j0..]);
    if n == 0 {
      i, j := 0, 0;
      assert text[i0..] == "" && events[j0..] == [];
      assert text[..i0] == text[0..] && events[..j0] == events[0..];
      assert subs[..0] == [];
    } else {
      var i1, j1 := AllSplitsLast(subs[1..], text[i0..], events[j0..]);
      i, j := i0 + i1, j0 + j1;
      var before := subs[..n];
      assert before[1..] == subs[1..][..n - 1];
      assert text[..i][..i0] == text[..i0] && events[..j][..j0] == events[..j0];
      assert text[..i][i0..] == text[i0..][..i1] && events[..j][j0..] == events[j0..][..j1];
      assert Cut(text[..i], events[..j], i0, j0);
      assert text[i0..][i1..] == text[i..] && events[j0..][j1..] == events[j..];
      assert subs[1..][n - 1] == subs[n];
    }
  }

  /** A finite language has every text the expression can match. */
  lemma {:induction false} LanguageCovers(p: Pattern, text: string, events: seq<Event>)
    requires Language(p).Some? && Derives(p, text, events)
    ensures text in Language(p).value
    decreases p, 0
  {
    match p {
      case Literal(_, _) =>
      case Class(ranges) =>
        ClassCovers(ranges, text[0]);
        assert text == [text[0]];
      case ZeroWidth =>
      case Group(name, sub) =>
        LanguageCovers(sub, text, if name == "" then events else events[..|events| - 1]);
      case Quest(sub) =>
        if !(text == "" && events == []) {
          LanguageCovers(sub, text, events);
        }
      case Concat(subs) =>
        ConcatenationCovers(subs, text, events);
      case Alternate(subs) =>
        AlternativesCover(subs, text, events);
    }
  }

  lemma {:induction false} ConcatenationCovers(subs: seq<Pattern>, text: string, events: seq<Event>)
    requires Concatenation(subs).Some? && DerivesAll(subs, text, events)
    ensures text in Concatenation(subs).value
    decreases subs, 1
  {
    hide Derives, Language;
    if subs != [] {
      var n := |subs| - 1;
      var i, j := AllSplitsLast(subs, text, events);
      ConcatenationCovers(subs[..n], text[..i], events[..j]);
      LanguageCovers(subs[n], text[i..], events[j..]);
      assert text == text[..i] + text[i..];
    }
  }

  lemma {:induction false} AlternativesCover(subs: seq<Pattern>, text: string, events: seq<Event>)
    requires Alternatives(subs).Some?
    requires exists i :: 0 <= i < |subs| && Derives(subs[i], text, events)
    ensures text in Alternatives(subs).value
    decreases subs, 1
  {
    hide Derives, Language;
    var n := |subs| - 1;
    if Derives(subs[n], text, events) {
      LanguageCovers(subs[n], text, events);
    } else {
      var i :| 0 <= i < |subs| && Derives(subs[i], text, events);
      assert subs[..n][i] == subs[i];
      AlternativesCover(subs[..n], text, events);
    }
  }

  // ----- and lists nothing else -----

  lemma {:induction false} RangeIsTaken(out: seq<string>, lo: char, hi: char, x: string)
    requires RangeTexts(out, lo, hi).Some? && x in RangeTexts(out, lo, hi).value
    ensures x in out || (|x| == 1 && lo <= x[0] <= hi)
    decreases hi as int - lo as int
  {
    if lo < hi {
      RangeIsTaken(out + [[lo]], (lo as int + 1) as char, hi, x);
    }
  }

  lemma {:induction false} ClassIsTaken(ranges: seq<(char, char)>, x: string)
    requires ClassTexts(ranges).Some? && x in ClassTexts(ranges).value
    ensures |x| == 1 && InRanges(ranges, x[0])
  {
    var n := |ranges| - 1;
    var before := ClassTexts(ranges[..n]).value;
    RangeIsTaken(before, ranges[n].0, ranges[n].1, x);
    if x in before {
      ClassIsTaken(ranges[..n], x);
      var i :| 0 <= i < |ranges[..n]| && ranges[..n][i].0 <= x[0] <= ranges[..n][i].1;
      assert ranges[i] == ranges[..n][i];
    }
  }

  lemma {:induction false} ProductIsOfBoth(a: seq<string>, b: seq<string>, z: string) returns (x: string, y: string)
    requires z in Products(a, b)
    ensures x in a && y in b && z == x + y
  {
    var n := |a| - 1;
    var rest := Products(a[..n], b);
    if z in rest {
      x, y := ProductIsOfBoth(a[..n], b, z);
    } else {
      var k :| 0 <= k < |Products(a, b)| && Products(a, b)[k] == z;
      assert k >= |rest|;
      x, y := a[n], b[k - |rest|];
    }
  }

  /** One part more, matched behind the ones before it. */
  lemma {:induction false} AllThenOne(subs: seq<Pattern>, last: Pattern, a: string, ea: seq<Event>, b: string, eb: seq<Event>)
    requires DerivesAll(subs, a, ea) && Derives(last, b, eb)
    ensures DerivesAll(subs + [last], a + b, ea + eb)
    decreases |subs|
  {
    hide Derives;
    var all := subs + [last];
    if subs == [] {
      assert all[0] == last && all[1..] == [];
      var text, events := a + b, ea + eb;
      assert text == b && events == eb;
      assert text[..|text|] == text && events[..|events|] == events;
      assert text[|text|..] == "" && events[|events|..] == [];
      assert DerivesAll([], "", []);
      assert Cut(text, events, |text|, |events|);
    } else {
      var i: nat, j: nat :| Cut(a, ea, i, j) && Derives(subs[0], a[..i], ea[..j]) && DerivesAll(subs[1..], a[i..], ea[j..]);
      assert all[0] == subs[0] && all[1..] == subs[1..] + [last];
      AllThenOne(subs[1..], last, a[i..], ea[j..], b, eb);
      var text, events := a + b, ea + eb;
      assert text[..i] == a[..i] && events[..j] == ea[..j];
      assert text[i..] == a[i..] + b && events[j..] == ea[j..] + eb;
      assert Cut(text, events, i, j);
    }
  }

  /** Every text that is listed is one the expression can match. */
  lemma {:induction false} ListedIsMatched(p: Pattern, text: string) returns (events: seq<Event>)
    requires Language(p).Some? && text in Language(p).value
    ensures Derives(p, text, events)
    decreases p, 0
  {
    hide Products, InsertAll, RangeTexts;
    events := [];
    match p {
      case Literal(_, _) =>
      case Class(ranges) =>
        ClassIsTaken(ranges, text);
      case ZeroWidth =>
      case Group(name, sub) =>
        events := ListedIsMatched(sub, text);
        if name != "" {
          var all := events + [Event(name, text)];
          assert all[..|all| - 1] == events;
          events := all;
        }
      case Quest(sub) =>
        if text in Language(sub).value {
          events := ListedIsMatched(sub, text);
        }
      case Concat(subs) =>
        events := ConcatenationIsMatched(subs, text);
      case Alternate(subs) =>
        var i: nat;
        i, events := AlternativeIsMatched(subs, text);
    }
  }

  lemma {:induction false} ConcatenationIsMatched(subs: seq<Pattern>, text: string) returns (events: seq<Event>)
    requires Concatenation(subs).Some? && text in Concatenation(subs).value
    ensures DerivesAll(subs, text, events)
    decreases subs, 1
  {
    hide Derives, Language;
    if subs == [] {
      events := [];
    } else {
      var n := |subs| - 1;
      var x, y := ProductIsOfBoth(Concatenation(subs[..n]).value, Language(subs[n]).value, text);
      var before := ConcatenationIsMatched(subs[..n], x);
      var last := ListedIsMatched(subs[n], y);
      AllThenOne(subs[..n], subs[n], x, before, y, last);
      assert subs[..n] + [subs[n]] == subs;
      events := before + last;
    }
  }

  lemma {:induction false} AlternativeIsMatched(subs: seq<Pattern>, text: string) returns (i: nat, events: seq<Event>)
    requires Alternatives(subs).Some? && text in Alternatives(subs).value
    ensures i < |subs| && Derives(subs[i], text, events)
    decreases subs, 1
  {
    hide Derives, Language;
    var n := |subs| - 1;
    if text in Alternatives(subs[..n]).value {
      i, events := AlternativeIsMatched(subs[..n], text);
    } else {
      i := n;
      events := ListedIsMatched(subs[n], text);
    }
  }

  /** Where texts are listed they are the ones the expression can match. */
  lemma {:induction false} LanguageExactly(p: Pattern, text: string)
    requires Language(p).Some?
    ensures text in Language(p).value <==> exists events :: Derives(p, text, events)
  {
    hide Derives, Language;
    if text in Language(p).value {
      var events := ListedIsMatched(p, text);
    }
    if events :| Derives(p, text, events) {
      LanguageCovers(p, text, events);
    }
  }

  // ----- what is listed -----

  lemma {:induction false} InsertIsShort(values: seq<string>, v: string)
    ensures |Insert(values, v)| <= |values| + 1
  {
    if values != [] && values[0] != v && !Before(v, values[0]) {
      InsertIsShort(values[1..], v);
    }
  }

  lemma {:induction false} InsertAllIsShort(values: seq<string>, more: seq<string>)
    ensures |InsertAll(values, more)| <= |values| + |more|
  {
    hide Insert;
    if more != [] {
      InsertAllIsShort(values, more[..|more| - 1]);
      InsertIsShort(InsertAll(values, more[..|more| - 1]), more[|more| - 1]);
    }
  }

  function Literals(texts: seq<string>): seq<Pattern> {
    seq(|texts|, i requires 0 <= i < |texts| => Literal(texts[i], false))
  }

  /** A choice of as many texts as may be listed is listed, and so those are its texts. */
  lemma {:induction false} FewTextsAreListed(texts: seq<string>)
    requires |texts| <= MAX_ENUM
    ensures Language(Alternate(Literals(texts))).Some?
    ensures forall text :: text in Language(Alternate(Literals(texts))).value <==> text in texts
    ensures |Language(Alternate(Literals(texts))).value| <= |texts|
  {
    hide InsertAll;
    var subs := Literals(texts);
    if texts == [] {
      assert subs == [];
    } else {
      var n := |texts| - 1;
      FewTextsAreListed(texts[..n]);
      assert subs[..n] == Literals(texts[..n]);
      var before := Alternatives(subs[..n]);
      assert before == Language(Alternate(Literals(texts[..n])));
      assert Language(subs[n]) == Some([texts[n]]);
      InsertAllIsShort([], before.value + [texts[n]]);
      assert texts == texts[..n] + [texts[n]];
    }
  }

  // ----- named groups -----

  /** What the syntax says about one named group: whether a match may leave it out, and its texts when they are
      few. */
  datatype Capture = Capture(name: string, optional: bool, values: Option<seq<string>>)

  /** What is below here may be left out of a match. */
  function Loosened(p: Pattern, optional: bool): bool {
    || optional
    || p.Quest? || p.Star?
    || (p.Alternate? && |p.subs| > 1)
    || (p.Repeat? && p.min == 0)
  }

  function SubsOf(p: Pattern): (subs: seq<Pattern>)
    ensures forall i :: 0 <= i < |subs| ==> subs[i] < p
  {
    match p
    case Group(_, sub) => [sub]
    case Quest(sub) => [sub]
    case Star(sub) => [sub]
    case Plus(sub) => [sub]
    case Repeat(sub, _) => [sub]
    case Concat(subs) => subs
    case Alternate(subs) => subs
    case _ => []
  }

  /** Every named group below a node, in the order in which groups open (the walk of captures). */
  function Walked(p: Pattern, optional: bool): seq<Capture>
    decreases p, 1
  {
    OwnCapture(p, optional) + WalkedFirst(p, |SubsOf(p)|, Loosened(p, optional))
  }

  function OwnCapture(p: Pattern, optional: bool): seq<Capture> {
    if p.Group? && p.name != "" then [Capture(p.name, optional, Language(p.sub))] else []
  }

  lemma {:induction false} WalkedIs(p: Pattern, optional: bool)
    ensures Walked(p, optional) == OwnCapture(p, optional) + WalkedFirst(p, |SubsOf(p)|, Loosened(p, optional))
  {
  }

  function WalkedFirst(p: Pattern, n: nat, optional: bool): seq<Capture>
    requires n <= |SubsOf(p)|
    decreases p, 0, n
  {
    if n == 0 then [] else WalkedFirst(p, n - 1, optional) + Walked(SubsOf(p)[n - 1], optional)
  }

  /** The position of a name, or the number of captures. */
  function Seek(captures: seq<Capture>, name: string): (n: nat)
    ensures n <= |captures|
    ensures n < |captures| ==> captures[n].name == name
    ensures forall i :: 0 <= i < n ==> captures[i].name != name
  {
    if captures == [] || captures[0].name == name then 0 else 1 + Seek(captures[1..], name)
  }

  /** One more use of a name: optional unless every use is required, with the texts of both. */
  function Merge(captures: seq<Capture>, c: Capture): seq<Capture> {
    var n := Seek(captures, c.name);
    if n == |captures| then captures + [c]
    else
      captures[n := Capture(c.name, captures[n].optional || c.optional, UnionEnum(captures[n].values, c.values))]
  }

  function Merged(captures: seq<Capture>): seq<Capture> {
    if captures == [] then [] else Merge(Merged(captures[..|captures| - 1]), captures[|captures| - 1])
  }

  /** The named groups of an expression (captures). */
  function Captures(p: Pattern): seq<Capture> {
    Merged(Walked(p, false))
  }

  ghost predicate Apart(captures: seq<Capture>) {
    forall i, j :: 0 <= i < j < |captures| ==> captures[i].name != captures[j].name
  }

  /** Some group of this name lists the text, or its texts are not listed. */
  predicate Lists(captures: seq<Capture>, e: Event) {
    exists i :: 0 <= i < |captures| && ListsIt(captures[i], e)
  }

  predicate ListsIt(c: Capture, e: Event) {
    c.name == e.name && (c.values.Some? ==> e.text in c.values.value)
  }

  /** Every text a group took is one the syntax lists for it. */
  ghost predicate AllListed(captures: seq<Capture>, events: seq<Event>) {
    forall i :: 0 <= i < |events| ==> Lists(captures, events[i])
  }

  predicate Took(events: seq<Event>, name: string) {
    exists i :: 0 <= i < |events| && events[i].name == name
  }

  /** Every group that is not optional took part. */
  ghost predicate AllTook(captures: seq<Capture>, events: seq<Event>) {
    forall i :: 0 <= i < |captures| && !captures[i].optional ==> Took(events, captures[i].name)
  }

  lemma {:induction false} ListedInMore(a: seq<Capture>, b: seq<Capture>, c: seq<Capture>, events: seq<Event>)
    requires AllListed(b, events)
    ensures AllListed(a + b + c, events)
  {
    forall i | 0 <= i < |events| ensures Lists(a + b + c, events[i]) {
      assert Lists(b, events[i]);
      var k :| 0 <= k < |b| && ListsIt(b[k], events[i]);
      assert (a + b + c)[|a| + k] == b[k];
    }
  }

  lemma {:induction false} ListedTogether(captures: seq<Capture>, a: seq<Event>, b: seq<Event>)
    requires AllListed(captures, a) && AllListed(captures, b)
    ensures AllListed(captures, a + b)
  {
    forall i | 0 <= i < |a + b| ensures Lists(captures, (a + b)[i]) {
      assert (a + b)[i] == if i < |a| then a[i] else b[i - |a|];
    }
  }

  lemma {:induction false} WalkedFirstHas(p: Pattern, n: nat, i: nat, optional: bool) returns (a: seq<Capture>, c: seq<Capture>)
    requires i < n <= |SubsOf(p)|
    ensures WalkedFirst(p, n, optional) == a + Walked(SubsOf(p)[i], optional) + c
    decreases n
  {
    hide Walked, SubsOf;
    if i == n - 1 {
      a, c := WalkedFirst(p, i, optional), [];
    } else {
      var last := Walked(SubsOf(p)[n - 1], optional);
      var a', c' := WalkedFirstHas(p, n - 1, i, optional);
      a, c := a', c' + last;
      assert a' + Walked(SubsOf(p)[i], optional) + c' + last == a' + Walked(SubsOf(p)[i], optional) + (c' + last);
    }
  }

  /** What a part of an expression lists, the expression lists. */
  lemma {:induction false} PartListed(p: Pattern, i: nat, optional: bool, events: seq<Event>)
    requires i < |SubsOf(p)| && AllListed(Walked(SubsOf(p)[i], Loosened(p, optional)), events)
    ensures AllListed(Walked(p, optional), events)
  {
    hide AllListed, Loosened, WalkedFirst, SubsOf, Walked;
    var loose := Loosened(p, optional);
    var a, c := WalkedFirstHas(p, |SubsOf(p)|, i, loose);
    var part := Walked(SubsOf(p)[i], loose);
    WalkedIs(p, optional);
    ListedInMore(OwnCapture(p, optional) + a, part, c, events);
    assert OwnCapture(p, optional) + (a + part + c) == OwnCapture(p, optional) + a + part + c;
  }

  /** Every group that took part in a match is listed with the text it took. */
  lemma {:induction false} MatchIsListed(p: Pattern, text: string, events: seq<Event>, optional: bool)
    requires Derives(p, text, events)
    ensures AllListed(Walked(p, optional), events)
    decreases p, 1
  {
    hide AllListed, Walked;
    var loose := Loosened(p, optional);
    NothingListed(Walked(p, optional));
    match p {
      case Group(name, sub) =>
        var inner := if name == "" then events else events[..|events| - 1];
        MatchIsListed(sub, text, inner, loose);
        PartListed(p, 0, optional, inner);
        if name != "" {
          OwnListed(p, text, events, optional);
          ListedTogether(Walked(p, optional), inner, [Event(name, text)]);
          assert inner + [Event(name, text)] == events;
        }
      case Quest(sub) =>
        if !(text == "" && events == []) {
          MatchIsListed(sub, text, events, loose);
          PartListed(p, 0, optional, events);
        }
      case Star(sub) =>
        var n: nat :| DerivesTimes(sub, n, text, events);
        TimesListed(p, sub, n, text, events, optional);
      case Plus(sub) =>
        var n: nat :| n > 0 && DerivesTimes(sub, n, text, events);
        TimesListed(p, sub, n, text, events, optional);
      case Repeat(sub, min) =>
        var n: nat :| n >= min && DerivesTimes(sub, n, text, events);
        TimesListed(p, sub, n, text, events, optional);
      case Concat(subs) =>
        AllPartsListed(p, 0, text, events, optional);
      case Alternate(subs) =>
        var i :| 0 <= i < |subs| && Derives(subs[i], text, events);
        MatchIsListed(subs[i], text, events, loose);
        PartListed(p, i, optional, events);
      case _ =>
    }
  }

  lemma {:induction false} NothingListed(captures: seq<Capture>)
    ensures AllListed(captures, [])
  {
  }

  lemma {:induction false} OwnListed(p: Pattern, text: string, events: seq<Event>, optional: bool)
    requires p.Group? && p.name != "" && Derives(p, text, events)
    ensures AllListed(Walked(p, optional), [Event(p.name, text)])
  {
    hide WalkedFirst;
    var inner := events[..|events| - 1];
    if Language(p.sub).Some? {
      LanguageCovers(p.sub, text, inner);
    }
    assert ListsIt(Walked(p, optional)[0], Event(p.name, text));
  }

  lemma {:induction false} TimesListed(p: Pattern, sub: Pattern, n: nat, text: string, events: seq<Event>, optional: bool)
    requires SubsOf(p) == [sub] && DerivesTimes(sub, n, text, events)
    ensures AllListed(Walked(p, optional), events)
    decreases p, 0, n
  {
    hide AllListed, Walked, Derives;
    NothingListed(Walked(p, optional));
    assert SubsOf(p)[0] == sub;
    if n > 0 {
      var i: nat, j: nat :| Cut(text, events, i, j)
        && Derives(sub, text[..i], events[..j]) && DerivesTimes(sub, n - 1, text[i..], events[j..]);
      MatchIsListed(sub, text[..i], events[..j], Loosened(p, optional));
      PartListed(p, 0, optional, events[..j]);
      TimesListed(p, sub, n - 1, text[i..], events[j..], optional);
      ListedTogether(Walked(p, optional), events[..j], events[j..]);
      assert events == events[..j] + events[j..];
    }
  }

  lemma {:induction false} AllPartsListed(p: Pattern, k: nat, text: string, events: seq<Event>, optional: bool)
    requires p.Concat? && k <= |p.subs| && DerivesAll(p.subs[k..], text, events)
    ensures AllListed(Walked(p, optional), events)
    decreases p, 0, |p.subs| - k
  {
    hide AllListed, Walked, Derives;
    NothingListed(Walked(p, optional));
    var rest := p.subs[k..];
    if rest != [] {
      var i: nat, j: nat :| Cut(text, events, i, j)
        && Derives(rest[0], text[..i], events[..j]) && DerivesAll(rest[1..], text[i..], events[j..]);
      assert rest[0] == SubsOf(p)[k] && rest[1..] == p.subs[k + 1..];
      MatchIsListed(SubsOf(p)[k], text[..i], events[..j], Loosened(p, optional));
      PartListed(p, k, optional, events[..j]);
      AllPartsListed(p, k + 1, text[i..], events[j..], optional);
      ListedTogether(Walked(p, optional), events[..j], events[j..]);
      assert events == events[..j] + events[j..];
    }
  }

  // ----- groups that cannot be left out -----

  /** Under a node that a match may leave out, every group is optional. */
  lemma {:induction false} LooseIsOptional(p: Pattern, c: Capture)
    requires c in Walked(p, true)
    ensures c.optional
    decreases p, 1
  {
    hide Walked;
    WalkedIs(p, true);
    if c in WalkedFirst(p, |SubsOf(p)|, true) {
      LooseFirst(p, |SubsOf(p)|, c);
    }
  }

  lemma {:induction false} LooseFirst(p: Pattern, n: nat, c: Capture)
    requires n <= |SubsOf(p)| && c in WalkedFirst(p, n, true)
    ensures c.optional
    decreases p, 0, n
  {
    hide Walked, SubsOf;
    if c in WalkedFirst(p, n - 1, true) {
      LooseFirst(p, n - 1, c);
    } else {
      LooseIsOptional(SubsOf(p)[n - 1], c);
    }
  }

  lemma {:induction false} TookMore(captures: seq<Capture>, a: seq<Event>, b: seq<Event>, c: seq<Event>)
    requires AllTook(captures, b)
    ensures AllTook(captures, a + b + c)
  {
    forall i | 0 <= i < |captures| && !captures[i].optional ensures Took(a + b + c, captures[i].name) {
      var k :| 0 <= k < |b| && b[k].name == captures[i].name;
      assert (a + b + c)[|a| + k] == b[k];
    }
  }

  lemma {:induction false} TookTogether(a: seq<Capture>, b: seq<Capture>, events: seq<Event>)
    requires AllTook(a, events) && AllTook(b, events)
    ensures AllTook(a + b, events)
  {
    forall i | 0 <= i < |a + b| && !(a + b)[i].optional ensures Took(events, (a + b)[i].name) {
      assert (a + b)[i] == if i < |a| then a[i] else b[i - |a|];
    }
  }

  lemma {:induction false} OptionalTake(captures: seq<Capture>, events: seq<Event>)
    requires forall c :: c in captures ==> c.optional
    ensures AllTook(captures, events)
  {
    assert forall i :: 0 <= i < |captures| ==> captures[i] in captures;
  }

  /** Every group that is not optional took part in every match. */
  lemma {:induction false} MatchTakesAll(p: Pattern, text: string, events: seq<Event>)
    requires Derives(p, text, events)
    ensures AllTook(Walked(p, false), events)
    decreases p, 1
  {
    hide Walked, AllTook, WalkedFirst;
    WalkedIs(p, false);
    var n := |SubsOf(p)|;
    if Loosened(p, false) {
      forall c | c in WalkedFirst(p, n, true) ensures c.optional {
        LooseFirst(p, n, c);
      }
      OptionalTake(WalkedFirst(p, n, true), events);
      assert OwnCapture(p, false) == [];
      assert [] + WalkedFirst(p, n, true) == WalkedFirst(p, n, true);
      return;
    }
    match p {
      case Group(name, sub) =>
        var inner := if name == "" then events else events[..|events| - 1];
        MatchTakesAll(sub, text, inner);
        OnePart(p, sub);
        TookMore(Walked(sub, false), [], inner, events[|inner|..]);
        assert [] + inner + events[|inner|..] == events;
        OwnTook(p, text, events);
        TookTogether(OwnCapture(p, false), Walked(sub, false), events);
      case Plus(sub) =>
        var k: nat :| k > 0 && DerivesTimes(sub, k, text, events);
        TimesTook(p, sub, k, text, events);
      case Repeat(sub, min) =>
        var k: nat :| k >= min && DerivesTimes(sub, k, text, events);
        TimesTook(p, sub, k, text, events);
      case Concat(subs) =>
        assert subs[..n] == subs;
        PartsTook(p, n, text, events);
        assert [] + WalkedFirst(p, n, false) == WalkedFirst(p, n, false);
      case Alternate(subs) =>
        var i :| 0 <= i < |subs| && Derives(subs[i], text, events);
        MatchTakesAll(subs[i], text, events);
        assert SubsOf(p) == [subs[i]];
        OnePart(p, subs[i]);
        assert [] + Walked(subs[i], false) == Walked(subs[i], false);
      case _ =>
        NoParts(p, events);
    }
  }

  lemma {:induction false} NoParts(p: Pattern, events: seq<Event>)
    requires SubsOf(p) == [] && !p.Group?
    ensures AllTook(Walked(p, false), events)
  {
  }

  lemma {:induction false} OnePart(p: Pattern, sub: Pattern)
    requires SubsOf(p) == [sub] && !Loosened(p, false)
    ensures Walked(p, false) == OwnCapture(p, false) + Walked(sub, false)
  {
    hide Walked;
    WalkedIs(p, false);
    assert SubsOf(p)[0] == sub;
    assert WalkedFirst(p, 0, false) == [];
    assert WalkedFirst(p, 1, false) == [] + Walked(sub, false);
  }

  lemma {:induction false} OwnTook(p: Pattern, text: string, events: seq<Event>)
    requires p.Group? && Derives(p, text, events)
    ensures AllTook(OwnCapture(p, false), events)
  {
    if p.name != "" {
      assert events[|events| - 1].name == p.name;
    }
  }

  lemma {:induction false} TimesTook(p: Pattern, sub: Pattern, k: nat, text: string, events: seq<Event>)
    requires SubsOf(p) == [sub] && !Loosened(p, false) && !p.Group? && k > 0 && DerivesTimes(sub, k, text, events)
    ensures AllTook(Walked(p, false), events)
    decreases p, 0
  {
    hide Walked, AllTook, Derives;
    assert SubsOf(p)[0] == sub;
    var i: nat, j: nat :| Cut(text, events, i, j)
      && Derives(sub, text[..i], events[..j]) && DerivesTimes(sub, k - 1, text[i..], events[j..]);
    MatchTakesAll(sub, text[..i], events[..j]);
    OnePart(p, sub);
    assert [] + Walked(sub, false) == Walked(sub, false);
    TookMore(Walked(sub, false), [], events[..j], events[j..]);
    assert [] + events[..j] + events[j..] == events;
  }

  lemma {:induction false} PartsTook(p: Pattern, n: nat, text: string, events: seq<Event>)
    requires p.Concat? && n <= |p.subs| && DerivesAll(p.subs[..n], text, events)
    ensures AllTook(WalkedFirst(p, n, false), events)
    decreases p, 0, n
  {
    hide Walked, AllTook, Derives, DerivesAll;
    if n == 0 {
      NoneTook(p, events);
    } else {
      var i, j := AllSplitsLast(p.subs[..n], text, events);
      assert p.subs[..n][..n - 1] == p.subs[..n - 1];
      PartsTook(p, n - 1, text[..i], events[..j]);
      assert p.subs[..n][n - 1] == SubsOf(p)[n - 1];
      MatchTakesAll(SubsOf(p)[n - 1], text[i..], events[j..]);
      TookMore(WalkedFirst(p, n - 1, false), [], events[..j], events[j..]);
      TookMore(Walked(SubsOf(p)[n - 1], false), events[..j], events[j..], []);
      assert [] + events[..j] + events[j..] == events && events[..j] + events[j..] + [] == events;
      TookTogether(WalkedFirst(p, n - 1, false), Walked(SubsOf(p)[n - 1], false), events);
    }
  }

  lemma {:induction false} NoneTook(p: Pattern, events: seq<Event>)
    ensures AllTook(WalkedFirst(p, 0, false), events)
  {
  }

  // ----- names used more than once -----

  /** Merging keeps names apart and keeps what was said of each. */
  lemma {:induction false} MergeKeeps(captures: seq<Capture>, c: Capture, events: seq<Event>)
    requires Apart(captures)
    ensures Apart(Merge(captures, c))
    ensures forall e :: Lists(captures, e) || ListsIt(c, e) ==> Lists(Merge(captures, c), e)
    ensures AllTook(captures, events) && (!c.optional ==> Took(events, c.name)) ==> AllTook(Merge(captures, c), events)
  {
    var n, after := Seek(captures, c.name), Merge(captures, c);
    assert forall i :: 0 <= i < |captures| && i != n ==> after[i] == captures[i];
    forall e | Lists(captures, e) || ListsIt(c, e) ensures Lists(after, e) {
      if ListsIt(c, e) {
        assert ListsIt(after[n], e);
      } else {
        var i :| 0 <= i < |captures| && ListsIt(captures[i], e);
        assert ListsIt(after[i], e);
      }
    }
  }

  lemma {:induction false} MergedKeeps(captures: seq<Capture>, events: seq<Event>)
    ensures Apart(Merged(captures))
    ensures forall e :: Lists(captures, e) ==> Lists(Merged(captures), e)
    ensures AllTook(captures, events) ==> AllTook(Merged(captures), events)
  {
    hide Merge;
    if captures != [] {
      var n := |captures| - 1;
      MergedKeeps(captures[..n], events);
      MergeKeeps(Merged(captures[..n]), captures[n], events);
      forall e | Lists(captures, e) ensures Lists(Merged(captures), e) {
        var i :| 0 <= i < |captures| && ListsIt(captures[i], e);
        if i < n {
          assert ListsIt(captures[..n][i], e);
        }
      }
      if AllTook(captures, events) {
        forall i | 0 <= i < n && !captures[..n][i].optional ensures Took(events, captures[..n][i].name) {
          assert captures[..n][i] == captures[i];
        }
        assert !captures[n].optional ==> Took(events, captures[n].name);
      }
    }
  }

  /** In every match, a group that is not optional took some text, and a group whose texts are listed took one of
      them. */
  lemma {:induction false} CapturesHold(p: Pattern, text: string, events: seq<Event>, c: Capture)
    requires Derives(p, text, events) && c in Captures(p)
    ensures !c.optional ==> Binding(events, c.name).Some?
    ensures c.values.Some? && Binding(events, c.name).Some? ==> Binding(events, c.name).value in c.values.value
    ensures Apart(Captures(p))
  {
    hide Walked, Derives, Merged;
    MatchIsListed(p, text, events, false);
    MatchTakesAll(p, text, events);
    MergedKeeps(Walked(p, false), events);
    var k :| 0 <= k < |Captures(p)| && Captures(p)[k] == c;
    var t := Binding(events, c.name);
    if t.Some? {
      var i :| 0 <= i < |events| && events[i] == Event(c.name, t.value);
      assert Lists(Walked(p, false), events[i]);
      var j :| 0 <= j < |Captures(p)| && ListsIt(Captures(p)[j], events[i]);
      assert j == k;
    }
  }

  // ----- the walk as it is done -----

  lemma {:induction false} NoneWalked(p: Pattern, optional: bool)
    ensures WalkedFirst(p, 0, optional) == []
  {
  }

  lemma {:induction false} NextWalked(p: Pattern, i: nat, optional: bool)
    requires i < |SubsOf(p)|
    ensures WalkedFirst(p, i + 1, optional) == WalkedFirst(p, i, optional) + Walked(SubsOf(p)[i], optional)
  {
    hide Walked, SubsOf;
  }

  /** The list the walk over an expression appends to. */
  class Walker {
    var found: seq<Capture>

    constructor ()
      ensures found == []
    {
      found := [];
    }

    method Walk(p: Pattern, optional: bool)
      modifies this
      ensures found == old(found) + Walked(p, optional)
      decreases p
    {
      hide Walked, WalkedFirst, SubsOf, Loosened, Language;
      WalkedIs(p, optional);
      if p.Group? && p.name != "" {
        found := found + [Capture(p.name, optional, Language(p.sub))];
      }
      var loose, subs := Loosened(p, optional), SubsOf(p);
      ghost var own := found;
      NoneWalked(p, loose);
      for i := 0 to |subs|
        invariant found == own + WalkedFirst(p, i, loose)
      {
        NextWalked(p, i, loose);
        Walk(subs[i], loose);
      }
    }
  }

  /** captures, with the positions of the names already met. */
  method ReadCaptures(p: Pattern) returns (merged: seq<Capture>)
    ensures merged == Captures(p)
  {
    hide Walked, Merge;
    var walker := new Walker();
    walker.Walk(p, false);
    var uses := walker.found;
    assert [] + Walked(p, false) == Walked(p, false);
    merged := [];
    var index: map<string, nat> := map[];
    for i := 0 to |uses|
      invariant merged == Merged(uses[..i])
      invariant Indexed(merged, index)
    {
      var c := uses[i];
      assert uses[..i + 1][..i] == uses[..i];
      IndexGrows(merged, index, c);
      if c.name in index {
        var n := index[c.name];
        merged := merged[n := Capture(c.name, merged[n].optional || c.optional, UnionEnum(merged[n].values, c.values))];
      } else {
        index := index[c.name := |merged|];
        merged := merged + [c];
      }
    }
    assert uses[..|uses|] == uses;
  }

  /** The index has the position of every name. */
  ghost predicate Indexed(captures: seq<Capture>, index: map<string, nat>) {
    forall name :: if Seek(captures, name) < |captures| then name in index && index[name] == Seek(captures, name) else name !in index
  }

  lemma {:induction false} SeekMerged(captures: seq<Capture>, c: Capture, name: string)
    ensures |Merge(captures, c)| == if Seek(captures, c.name) < |captures| then |captures| else |captures| + 1
    ensures name == c.name ==> Seek(Merge(captures, c), name) == Seek(captures, c.name)
    ensures name != c.name ==>
      if Seek(captures, name) < |captures| then Seek(Merge(captures, c), name) == Seek(captures, name)
      else Seek(Merge(captures, c), name) == |Merge(captures, c)|
  {
    hide UnionEnum;
    var n, after := Seek(captures, c.name), Merge(captures, c);
    var m, m' := Seek(captures, name), Seek(after, name);
    assert after[n].name == c.name;
    assert forall i :: 0 <= i < |captures| ==> after[i].name == captures[i].name;
    assert m < |captures| ==> after[m].name == name;
  }

  lemma {:induction false} IndexGrows(captures: seq<Capture>, index: map<string, nat>, c: Capture)
    requires Indexed(captures, index)
    ensures
      if c.name in index then
        && index[c.name] < |captures| && Indexed(Merge(captures, c), index)
        && Merge(captures, c) == captures[index[c.name] :=
             Capture(c.name, captures[index[c.name]].optional || c.optional, UnionEnum(captures[index[c.name]].values, c.values))]
      else Merge(captures, c) == captures + [c] && Indexed(captures + [c], index[c.name := |captures|])
  {
    hide UnionEnum, Seek;
    var after := Merge(captures, c);
    var later := if c.name in index then index else index[c.name := |captures|];
    assert Seek(captures, c.name) < |captures| <==> c.name in index;
    forall name
      ensures if Seek(after, name) < |after| then name in later && later[name] == Seek(after, name) else name !in later
    {
      SeekMerged(captures, c, name);
      assert Seek(captures, name) < |captures| <==> name in index;
    }
  }
}
