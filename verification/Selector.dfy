/**
 Which definition describes an input, and when the lines that have come already say so (Select and Watch in
 pkg/selector).
 */
module Selector {
  import opened Lines
  import opened Programs
  import opened Expressions
  import opened Choice
  import opened RecordIO

  const DEFAULT_SIGNATURE_WINDOW := 20
  const MAX_SIGNATURE_WINDOW := 200
  const NEWLINE: Byte := 10
  const NUL: Byte := 0

  /** What is known about the text besides its bytes. `args` is None when the arguments are unknown. */
  datatype Context = Context(parser: string, variant: string, os: string, args: Option<seq<string>>)

  /** Brings one line to the form it is read in; it is told whether it is the first of the input. */
  type Cleaner = (seq<Byte>, bool) -> string

  /** The definitions there are: all of them, the ones a command name reaches, and the one a name and a variant
      mean. */
  datatype Registry = Registry(
    entries: seq<Entry>, variants: string -> seq<Entry>, lookup: (string, string) -> Option<Entry>)

  // ----- the window a signature looks at -----

  function CleanLines(clean: Cleaner, raws: seq<seq<Byte>>): (lines: seq<string>)
    ensures |lines| == |raws|
    ensures forall i :: 0 <= i < |raws| ==> lines[i] == clean(raws[i], i == 0)
  {
    seq(|raws|, i requires 0 <= i < |raws| => clean(raws[i], i == 0))
  }

  /** A cleaner does to a line what is done to the record a parser reads: escape sequences off first, then the
      carriage return, then the byte order mark (signatureWindow, prepareRecord). */
  ghost predicate CleansAsRead(clean: Cleaner, opts: Options) {
    forall raw: seq<Byte>, num: nat :: num >= 1 && RecordText(opts, raw, num).Ok? ==>
      clean(raw, num == 1) == RecordText(opts, raw, num).value
  }

  /** The selector sees the lines the engine will read. */
  lemma {:induction false} SeesWhatIsRead(clean: Cleaner, opts: Options, input: seq<Byte>, i: nat)
    requires CleansAsRead(clean, opts) && opts.sep == NEWLINE
    requires InputLines(opts, input).Ok? && i < |InputLines(opts, input).value|
    ensures CleanLines(clean, RawRecords(input, NEWLINE))[i] == InputLines(opts, input).value[i].text
  {
    LineIsItsRecord(opts, RawRecords(input, NEWLINE), i);
  }

  function LeadingBlanks(lines: seq<string>): (n: nat)
    ensures n <= |lines|
  {
    if lines == [] || !Blank(lines[0]) then 0 else 1 + LeadingBlanks(lines[1..])
  }

  /** The lines up to the last that is not blank. */
  function TrimBlanks(lines: seq<string>): (trimmed: seq<string>)
    ensures trimmed <= lines
  {
    if lines != [] && Blank(lines[|lines| - 1]) then TrimBlanks(lines[..|lines| - 1]) else lines
  }

  /** The leading lines of an input: the blank lines before the text are no part of it, nor are the ones after
      it where the input ends. */
  function WindowOf(clean: Cleaner, input: seq<Byte>): seq<string> {
    var lines := CleanLines(clean, RawRecords(input, NEWLINE));
    var body := lines[LeadingBlanks(lines)..];
    if |body| <= MAX_SIGNATURE_WINDOW then TrimBlanks(body) else body[..MAX_SIGNATURE_WINDOW]
  }

  /** Every line of it has ended. */
  predicate Complete(input: seq<Byte>) {
    input == [] || input[|input| - 1] == NEWLINE
  }

  lemma {:induction false} RecordsConcat(a: seq<Byte>, b: seq<Byte>)
    requires Complete(a)
    ensures RawRecords(a + b, NEWLINE) == RawRecords(a, NEWLINE) + RawRecords(b, NEWLINE)
    decreases |a|
  {
    hide RawRecords, IndexByte;
    NoLength(NEWLINE);
    if a == [] {
      assert a + b == b && RawRecords(a, NEWLINE) + RawRecords(b, NEWLINE) == RawRecords(b, NEWLINE);
    } else {
      var i := IndexByte(a, NEWLINE);
      IndexInBoth(a, b);
      RecordStep(a, NEWLINE);
      RecordStep(a + b, NEWLINE);
      RecordsConcat(a[i + 1..], b);
      var rest := RawRecords(a[i + 1..], NEWLINE);
      assert ([a[..i]] + rest) + RawRecords(b, NEWLINE) == [a[..i]] + (rest + RawRecords(b, NEWLINE));
    }
  }

  lemma {:induction false} IndexInBoth(a: seq<Byte>, b: seq<Byte>)
    requires a != [] && Complete(a)
    ensures
      var i := IndexByte(a, NEWLINE);
      && i < |a| && IndexByte(a + b, NEWLINE) == i && Complete(a[i + 1..])
      && (a + b)[..i] == a[..i] && (a + b)[i + 1..] == a[i + 1..] + b
  {
    hide IndexByte;
    var i := IndexByte(a, NEWLINE);
    IndexIsFirst(a, NEWLINE);
    IndexIs(a + b, NEWLINE, i);
    assert (a + b)[..i] == a[..i] && (a + b)[i + 1..] == a[i + 1..] + b;
    assert a[i + 1..] != [] ==> a[i + 1..][|a| - i - 2] == a[|a| - 1];
  }

  lemma {:induction false} LeadingBlanksStay(a: seq<string>, b: seq<string>)
    requires LeadingBlanks(a) < |a|
    ensures LeadingBlanks(a + b) == LeadingBlanks(a)
  {
    if Blank(a[0]) {
      LeadingBlanksStay(a[1..], b);
      assert (a + b)[1..] == a[1..] + b;
    }
  }

  lemma {:induction false} TrimmedStays(a: seq<string>, b: seq<string>)
    ensures TrimBlanks(a) <= TrimBlanks(a + b)
  {
    if b == [] {
      assert a + b == a;
    } else {
      var n := |b| - 1;
      assert (a + b)[..|a + b| - 1] == a + b[..n];
      TrimmedStays(a, b[..n]);
    }
  }

  /** The window of an input whose lines have all ended begins the window of every input it goes on to. */
  lemma {:induction false} WindowGoesOn(clean: Cleaner, input: seq<Byte>, longer: seq<Byte>)
    requires Complete(input) && input <= longer
    ensures WindowOf(clean, input) <= WindowOf(clean, longer)
  {
    hide RawRecords, TrimBlanks, LeadingBlanks, Blank;
    var more := longer[|input|..];
    assert longer == input + more;
    RecordsConcat(input, more);
    var lines := CleanLines(clean, RawRecords(input, NEWLINE));
    var all := CleanLines(clean, RawRecords(longer, NEWLINE));
    var rest := all[|lines|..];
    assert all == lines + rest;
    var lead := LeadingBlanks(lines);
    if lead < |lines| {
      LeadingBlanksStay(lines, rest);
      BodyGoesOn(lines[lead..], rest);
      assert all[lead..] == lines[lead..] + rest;
    } else {
      NothingTrimmed();
    }
  }

  lemma {:induction false} NothingTrimmed()
    ensures TrimBlanks([]) == []
  {
  }

  lemma {:induction false} BodyGoesOn(body: seq<string>, rest: seq<string>)
    ensures
      var all := body + rest;
      (if |body| <= MAX_SIGNATURE_WINDOW then TrimBlanks(body) else body[..MAX_SIGNATURE_WINDOW])
      <= (if |all| <= MAX_SIGNATURE_WINDOW then TrimBlanks(all) else all[..MAX_SIGNATURE_WINDOW])
  {
    hide TrimBlanks;
    TrimmedStays(body, rest);
  }

  // ----- the text of a window -----

  function WindowSize(s: Signature): (n: nat)
    ensures n > 0
  {
    if s.window == 0 then DEFAULT_SIGNATURE_WINDOW else s.window
  }

  /** The first n lines joined by newlines, or all of them when there are fewer (window.text). */
  function TextOf(w: seq<string>, n: nat): string {
    Join(if n < |w| then w[..n] else w, "\n")
  }

  lemma {:induction false} JoinGoesOn(a: seq<string>, b: seq<string>)
    requires a != []
    ensures GoesOnTo(Join(a, "\n"), Join(a + b, "\n"))
  {
    if b == [] {
      assert a + b == a;
    } else {
      var n := |b| - 1;
      JoinGoesOn(a, b[..n]);
      assert a + b == (a + b[..n]) + [b[n]];
      JoinSnoc(a + b[..n], b[n], "\n");
    }
  }

  lemma {:induction false} TextGoesOn(w: seq<string>, longer: seq<string>, n: nat)
    requires w != [] && w <= longer && n > 0
    ensures |w| >= n ==> TextOf(longer, n) == TextOf(w, n)
    ensures |w| < n ==> GoesOnTo(TextOf(w, |w|), TextOf(longer, n))
  {
    hide Join;
    if |w| >= n {
      assert longer[..n] == w[..n];
      assert w[..|w|] == w && longer[..|longer|] == longer;
    } else {
      var shown := if n < |longer| then longer[..n] else longer;
      JoinGoesOn(w, shown[|w|..]);
      assert shown == w + shown[|w|..];
    }
  }

  // ----- whether a definition describes an input -----

  predicate AllAnswer(res: seq<Expr>, text: string) {
    forall i :: 0 <= i < |res| ==> res[i].answers(text)
  }

  predicate SomeAnswers(res: seq<Expr>, text: string) {
    exists i :: 0 <= i < |res| && res[i].answers(text)
  }

  /** matchSignature */
  predicate Meets(s: Signature, text: string) {
    AllAnswer(s.all, text) && (s.anyOf == [] || SomeAnswers(s.anyOf, text)) && !SomeAnswers(s.none, text)
  }

  /** A signature that says nothing. */
  predicate Says(s: Signature) {
    s.all != [] || s.anyOf != [] || s.none != []
  }

  /** What the system and the arguments rule out, when they are known. */
  predicate Admits(e: Entry, ctx: Context) {
    && (ctx.os == "" || e.os == [] || ctx.os in e.os)
    && (ctx.args.Some? ==> e.takes(ctx.parser, ctx.args.value))
  }

  /** check */
  predicate Check(e: Entry, ctx: Context, nul: bool, w: seq<string>) {
    && !(nul && e.lineByLine)
    && (Says(e.signature) ==> Meets(e.signature, TextOf(w, WindowSize(e.signature))))
    && Admits(e, ctx)
  }

  // ----- when a verdict is final -----

  ghost predicate FaithfulAll(res: seq<Expr>) {
    forall i :: 0 <= i < |res| ==> Faithful(res[i])
  }

  /** The expressions of a definition are what the regexp library promises. */
  ghost predicate FaithfulEntry(e: Entry) {
    FaithfulAll(e.signature.all) && FaithfulAll(e.signature.anyOf) && FaithfulAll(e.signature.none)
  }

  predicate Runnable(res: seq<Expr>) {
    forall i :: 0 <= i < |res| ==> res[i].prog.Valid()
  }

  ghost predicate AllFinal(res: seq<Expr>, text: string, answer: bool) {
    forall i :: 0 <= i < |res| ==> Final(res[i], text, answer)
  }

  ghost predicate SomeFinal(res: seq<Expr>, text: string, answer: bool) {
    exists i :: 0 <= i < |res| && Final(res[i], text, answer)
  }

  /** The judgments on several expressions: how many are still open, and which way the others fell. */
  method JudgeEach(res: seq<Expr>, text: string) returns (yes: bool, no: bool, open: bool)
    requires FaithfulAll(res)
    ensures yes ==> SomeFinal(res, text, true)
    ensures no ==> SomeFinal(res, text, false)
    ensures !yes && !open ==> AllFinal(res, text, false)
    ensures !no && !open ==> AllFinal(res, text, true)
  {
    hide Faithful, Final;
    yes, no, open := false, false, false;
    for i := 0 to |res|
      invariant yes ==> SomeFinal(res, text, true)
      invariant no ==> SomeFinal(res, text, false)
      invariant !yes && !open ==> forall j :: 0 <= j < i ==> Final(res[j], text, false)
      invariant !no && !open ==> forall j :: 0 <= j < i ==> Final(res[j], text, true)
    {
      FaithfulRuns(res[i]);
      var d := Judge(res[i], text);
      match d
      case Fits => yes := true;
      case Out => no := true;
      case Undecided => open := true;
    }
  }

  lemma {:induction false} FaithfulRuns(re: Expr)
    requires Faithful(re)
    ensures re.prog.Valid()
  {
  }

  /** The verdict on this window is the verdict on every window it begins. */
  ghost predicate VerdictStays(e: Entry, ctx: Context, nul: bool, w: seq<string>, ok: bool) {
    forall longer: seq<string> :: w <= longer ==> Check(e, ctx, nul, longer) == ok
  }

  /** What final answers say about a signature, wherever the text goes on to. */
  lemma {:induction false} FinalMeets(s: Signature, text: string, longer: string)
    requires GoesOnTo(text, longer)
    ensures AllFinal(s.all, text, true) ==> AllAnswer(s.all, longer)
    ensures SomeFinal(s.all, text, false) ==> !AllAnswer(s.all, longer)
    ensures SomeFinal(s.anyOf, text, true) ==> SomeAnswers(s.anyOf, longer)
    ensures AllFinal(s.anyOf, text, false) ==> !SomeAnswers(s.anyOf, longer)
    ensures AllFinal(s.none, text, false) ==> !SomeAnswers(s.none, longer)
    ensures SomeFinal(s.none, text, true) ==> SomeAnswers(s.none, longer)
  {
  }

  /** decide: whether one definition's verdict on the lines so far is final, and what it is. */
  method Decide(e: Entry, ctx: Context, nul: bool, w: seq<string>) returns (d: Decision)
    requires FaithfulEntry(e)
    ensures d == Fits ==> VerdictStays(e, ctx, nul, w, true)
    ensures d == Out ==> VerdictStays(e, ctx, nul, w, false)
  {
    if nul && e.lineByLine {
      return Out;
    }
    if !Admits(e, ctx) {
      return Out;
    }
    if !Says(e.signature) {
      return Fits;
    }
    var n := WindowSize(e.signature);
    if |w| >= n {
      FilledWindowStays(e, ctx, nul, w);
      return if Meets(e.signature, TextOf(w, n)) then Fits else Out;
    }
    if w == [] {
      // Nothing is known yet about how the text starts.
      return Undecided;
    }
    d := DecideOpen(e, ctx, nul, w);
  }

  lemma {:induction false} FilledWindowStays(e: Entry, ctx: Context, nul: bool, w: seq<string>)
    requires |w| >= WindowSize(e.signature)
    ensures VerdictStays(e, ctx, nul, w, Check(e, ctx, nul, w))
  {
    hide TextOf, Meets, Admits;
    forall longer: seq<string> | w <= longer ensures Check(e, ctx, nul, longer) == Check(e, ctx, nul, w) {
      TextGoesOn(w, longer, WindowSize(e.signature));
    }
  }

  /** The verdict of a signature whose window the lines do not fill yet. */
  method DecideOpen(e: Entry, ctx: Context, nul: bool, w: seq<string>) returns (d: Decision)
    requires FaithfulEntry(e) && w != [] && |w| < WindowSize(e.signature)
    requires Says(e.signature) && Admits(e, ctx) && !(nul && e.lineByLine)
    ensures d == Fits ==> VerdictStays(e, ctx, nul, w, true)
    ensures d == Out ==> VerdictStays(e, ctx, nul, w, false)
  {
    hide FaithfulAll, AllFinal, SomeFinal, VerdictStays;
    var text := TextOf(w, |w|);
    var s := e.signature;
    var yes, no, open := JudgeEach(s.all, text);
    var undecided := open;
    if no {
      OpenVerdict(e, ctx, nul, w);
      return Out;
    }
    var yes', no', open' := JudgeEach(s.anyOf, text);
    if s.anyOf != [] && !yes' {
      if !open' {
        OpenVerdict(e, ctx, nul, w);
        return Out;
      }
      undecided := true;
    }
    var yes'', no'', open'' := JudgeEach(s.none, text);
    if yes'' {
      OpenVerdict(e, ctx, nul, w);
      return Out;
    }
    if undecided || open'' {
      return Undecided;
    }
    OpenVerdict(e, ctx, nul, w);
    return Fits;
  }

  /** Final answers that no text the lines go on to can meet the signature with. */
  ghost predicate RuledOut(s: Signature, text: string) {
    || SomeFinal(s.all, text, false)
    || (s.anyOf != [] && AllFinal(s.anyOf, text, false))
    || SomeFinal(s.none, text, true)
  }

  /** Final answers that every text the lines go on to meets the signature with. */
  ghost predicate RuledIn(s: Signature, text: string) {
    && AllFinal(s.all, text, true)
    && (s.anyOf == [] || SomeFinal(s.anyOf, text, true))
    && AllFinal(s.none, text, false)
  }

  /** What final answers on the lines so far make of the verdict. */
  lemma {:induction false} OpenVerdict(e: Entry, ctx: Context, nul: bool, w: seq<string>)
    requires w != [] && |w| < WindowSize(e.signature)
    requires Says(e.signature) && Admits(e, ctx) && !(nul && e.lineByLine)
    ensures RuledOut(e.signature, TextOf(w, |w|)) ==> VerdictStays(e, ctx, nul, w, false)
    ensures RuledIn(e.signature, TextOf(w, |w|)) ==> VerdictStays(e, ctx, nul, w, true)
  {
    hide TextOf, Admits, AllFinal, SomeFinal, AllAnswer, SomeAnswers;
    var s, text := e.signature, TextOf(w, |w|);
    forall longer: seq<string> | w <= longer
      ensures GoesOnTo(text, TextOf(longer, WindowSize(s)))
    {
      TextGoesOn(w, longer, WindowSize(s));
    }
    forall longer: string | GoesOnTo(text, longer)
      ensures RuledOut(s, text) ==> !Meets(s, longer)
      ensures RuledIn(s, text) ==> Meets(s, longer)
    {
      FinalMeets(s, text, longer);
    }
  }

  // ----- which definitions are looked at -----

  /** Used only when its parser is named (ExplicitOnly). */
  predicate ExplicitOnly(e: Entry) {
    !e.autoDetectable || !Says(e.signature)
  }

  /** Describes a shape rather than a command (ShapeOnly). */
  predicate ShapeOnly(e: Entry) {
    !e.autoDetectable && !Says(e.signature)
  }

  /** One of the definitions carries a signature (anyClaims). */
  predicate AnyClaims(entries: seq<Entry>) {
    exists i :: 0 <= i < |entries| && Says(entries[i].signature)
  }

  function Searched(ctx: Context, claims: bool): Entry -> bool {
    (e: Entry) => if ctx.parser == "" then !ExplicitOnly(e) else !(claims && ShapeOnly(e))
  }

  /** The definitions a search looks at: every one it may choose on its own, or the variants of one command. */
  function SearchOf(reg: Registry, ctx: Context): seq<Entry> {
    var candidates := if ctx.parser == "" then reg.entries else reg.variants(ctx.parser);
    Where(candidates, Searched(ctx, ctx.parser != "" && ctx.args.None? && AnyClaims(candidates)))
  }

  /** The definitions a selection is between, or nothing when it fails before any text is looked at. */
  function ScopeOf(reg: Registry, ctx: Context): Option<seq<Entry>> {
    if ctx.variant != "" && ctx.parser == "" then None
    else if ctx.parser != "" && reg.variants(ctx.parser) == [] then None
    else if ctx.variant != "" then
      var e := reg.lookup(ctx.parser, ctx.variant);
      if e.None? then None else Some([e.value])
    else Some(SearchOf(reg, ctx))
  }

  /** No two entries share an id, however they are reached. */
  ghost predicate Sound(reg: Registry) {
    Distinct(reg.entries) && forall name :: Distinct(reg.variants(name))
  }

  predicate HasNul(input: seq<Byte>) {
    NUL in input
  }

  /** The definition describes the input. */
  predicate FitsInput(e: Entry, clean: Cleaner, ctx: Context, input: seq<Byte>) {
    Check(e, ctx, HasNul(input), WindowOf(clean, input))
  }

  function Fitting(clean: Cleaner, ctx: Context, input: seq<Byte>): Entry -> bool {
    (e: Entry) => FitsInput(e, clean, ctx, input)
  }

  /** What selecting comes to: the definition in scope that the input fits and that wins, or none. */
  ghost predicate Selected(clean: Cleaner, reg: Registry, ctx: Context, input: seq<Byte>, choice: Option<Entry>) {
    var scope := ScopeOf(reg, ctx);
    if scope.None? then choice == None else Chosen(Where(scope.value, Fitting(clean, ctx, input)), choice)
  }

  lemma {:induction false} ScopeIsDistinct(reg: Registry, ctx: Context)
    requires Sound(reg)
    ensures ScopeOf(reg, ctx).Some? ==> Distinct(ScopeOf(reg, ctx).value)
    ensures Distinct(SearchOf(reg, ctx))
  {
    var candidates := if ctx.parser == "" then reg.entries else reg.variants(ctx.parser);
    WhereIs(candidates, Searched(ctx, ctx.parser != "" && ctx.args.None? && AnyClaims(candidates)));
  }

  /** The leading lines of an input, cleaned one at a time and no further than the window reaches
      (signatureWindow). */
  method ReadWindow(clean: Cleaner, input: seq<Byte>) returns (w: seq<string>)
    ensures w == WindowOf(clean, input)
  {
    hide RawRecords, IndexByte, TrimBlanks, Blank, WindowOf, BodyOf;
    WindowIs(clean, input);
    var rest, first := input, true;
    w := [];
    ghost var done: seq<seq<Byte>> := [];
    ghost var raws := RawRecords(input, NEWLINE);
    NoLength(NEWLINE);
    NoBlanks();
    while rest != [] && |w| < MAX_SIGNATURE_WINDOW
      invariant done + RawRecords(rest, NEWLINE) == raws && first == (done == [])
      invariant w == BodyOf(clean, done) && |w| <= MAX_SIGNATURE_WINDOW
      decreases |rest|
    {
      var i := IndexByte(rest, NEWLINE);
      var raw := rest[..i];
      RecordStep(rest, NEWLINE);
      BodyStep(clean, done, raw);
      ghost var more := if i < |rest| then RawRecords(rest[i + 1..], NEWLINE) else [];
      assert done + ([raw] + more) == (done + [raw]) + more;
      rest := if i < |rest| then rest[i + 1..] else [];
      done := done + [raw];
      var line := clean(raw, first);
      first := false;
      if w != [] || !Blank(line) {
        w := w + [line];
      }
    }
    if rest == [] {
      assert done == raws;
      assert |BodyOf(clean, raws)| <= MAX_SIGNATURE_WINDOW;
      while |w| > 0 && Blank(w[|w| - 1])
        invariant TrimBlanks(w) == TrimBlanks(BodyOf(clean, raws))
        decreases |w|
      {
        TrimStep(w);
        w := w[..|w| - 1];
      }
      TrimStep(w);
    } else {
      BodyGoesPast(clean, done, RawRecords(rest, NEWLINE));
      RecordStep(rest, NEWLINE);
    }
  }

  /** The lines of records, without the blank ones before the text. */
  function BodyOf(clean: Cleaner, raws: seq<seq<Byte>>): seq<string> {
    var lines := CleanLines(clean, raws);
    lines[LeadingBlanks(lines)..]
  }

  lemma {:induction false} TrimStep(w: seq<string>)
    ensures TrimBlanks(w) == if w != [] && Blank(w[|w| - 1]) then TrimBlanks(w[..|w| - 1]) else w
  {
  }

  lemma {:induction false} NoBlanks()
    ensures LeadingBlanks([]) == 0
  {
  }

  lemma {:induction false} LeadingBlanksSnoc(lines: seq<string>, line: string)
    ensures LeadingBlanks(lines + [line]) ==
      if LeadingBlanks(lines) == |lines| && Blank(line) then |lines| + 1 else LeadingBlanks(lines)
  {
    var all := lines + [line];
    if lines == [] {
      assert all[1..] == [];
    } else {
      assert all[1..] == lines[1..] + [line];
      LeadingBlanksSnoc(lines[1..], line);
    }
  }

  /** The window in terms of the body: trimmed where the input ends in it, and cut where it goes on. */
  lemma {:induction false} WindowIs(clean: Cleaner, input: seq<Byte>)
    ensures BodyOf(clean, []) == []
    ensures
      var body := BodyOf(clean, RawRecords(input, NEWLINE));
      WindowOf(clean, input) == if |body| <= MAX_SIGNATURE_WINDOW then TrimBlanks(body) else body[..MAX_SIGNATURE_WINDOW]
  {
    hide RawRecords, TrimBlanks, Blank;
    NoBlanks();
  }

  lemma {:induction false} BodyStep(clean: Cleaner, done: seq<seq<Byte>>, raw: seq<Byte>)
    ensures
      var line := clean(raw, done == []);
      BodyOf(clean, done + [raw]) ==
        if BodyOf(clean, done) == [] && Blank(line) then [] else BodyOf(clean, done) + [line]
  {
    hide LeadingBlanks, Blank;
    var line := clean(raw, done == []);
    var lines := CleanLines(clean, done);
    assert CleanLines(clean, done + [raw]) == lines + [line];
    LeadingBlanksSnoc(lines, line);
  }

  lemma {:induction false} BodyGoesPast(clean: Cleaner, done: seq<seq<Byte>>, more: seq<seq<Byte>>)
    requires BodyOf(clean, done) != []
    ensures BodyOf(clean, done) <= BodyOf(clean, done + more)
    ensures |BodyOf(clean, done + more)| == |BodyOf(clean, done)| + |more|
  {
    hide LeadingBlanks, Blank;
    var lines, all := CleanLines(clean, done), CleanLines(clean, done + more);
    assert all == lines + all[|lines|..];
    LeadingBlanksStay(lines, all[|lines|..]);
  }

  // ----- what is chosen, in the definition's own terms -----

  ghost predicate CarriesASignature(e: Entry) {
    |e.signature.all| + |e.signature.anyOf| + |e.signature.none| > 0
  }

  /** A definition a selection may choose: the one a command and a variant name; without a variant one that a command
      name reaches, though not by its shape alone when nothing is known of the arguments and another of them carries
      a signature; and without a command any that is found on its own and carries a signature. */
  ghost predicate Eligible(reg: Registry, ctx: Context, e: Entry) {
    if ctx.parser == "" then ctx.variant == "" && e in reg.entries && e.autoDetectable && CarriesASignature(e)
    else if ctx.variant != "" then reg.variants(ctx.parser) != [] && reg.lookup(ctx.parser, ctx.variant) == Some(e)
    else
      && e in reg.variants(ctx.parser)
      && (e.autoDetectable || CarriesASignature(e) || ctx.args.Some?
          || forall f :: f in reg.variants(ctx.parser) ==> !CarriesASignature(f))
  }

  /** The leading lines a signature looks at, each but the last with its line break. */
  function LeadingText(clean: Cleaner, input: seq<Byte>, s: Signature): string {
    TextOf(WindowOf(clean, input), if s.window == 0 then 20 else s.window)
  }

  /** What a definition asks of its input: every expression of `all` answers on the leading lines, one of `any` when
      there are any, and none of `none`; a system it is written for, when the system is known; arguments it takes,
      when they are known; and no NUL in what is read line by line. */
  ghost predicate Suits(e: Entry, clean: Cleaner, ctx: Context, input: seq<Byte>) {
    var text := LeadingText(clean, input, e.signature);
    && (forall re :: re in e.signature.all ==> re.answers(text))
    && (e.signature.anyOf != [] ==> exists re :: re in e.signature.anyOf && re.answers(text))
    && (forall re :: re in e.signature.none ==> !re.answers(text))
    && (ctx.os != "" && e.os != [] ==> exists i :: 0 <= i < |e.os| && e.os[i] == ctx.os)
    && (ctx.args.Some? ==> e.takes(ctx.parser, ctx.args.value))
    && (e.lineByLine ==> forall i :: 0 <= i < |input| ==> input[i] != 0)
  }

  /** The choice is the definition that may be chosen and suits the input, and is preferred to every other that does:
      it comes from an earlier registry, or is ranked higher by the author of both. */
  ghost predicate IsTheChoice(clean: Cleaner, reg: Registry, ctx: Context, input: seq<Byte>, e: Entry) {
    && Eligible(reg, ctx, e) && Suits(e, clean, ctx, input)
    && forall f :: Eligible(reg, ctx, f) && Suits(f, clean, ctx, input) && f.id != e.id ==>
         || e.precedence < f.precedence
         || (e.precedence == f.precedence && e.command == f.command && e.priority > f.priority)
  }

  lemma {:induction false} EligibleIsInScope(reg: Registry, ctx: Context, e: Entry)
    ensures Eligible(reg, ctx, e) <==> ScopeOf(reg, ctx).Some? && e in ScopeOf(reg, ctx).value
  {
    var candidates := if ctx.parser == "" then reg.entries else reg.variants(ctx.parser);
    WhereIs(candidates, Searched(ctx, ctx.parser != "" && ctx.args.None? && AnyClaims(candidates)));
    ClaimsAre(candidates);
    hide Where;
  }

  lemma {:induction false} ClaimsAre(entries: seq<Entry>)
    ensures AnyClaims(entries) <==> exists f :: f in entries && CarriesASignature(f)
  {
    if f :| f in entries && CarriesASignature(f) {
      var i :| 0 <= i < |entries| && entries[i] == f;
      assert Says(entries[i].signature);
    }
    if i :| 0 <= i < |entries| && Says(entries[i].signature) {
      assert entries[i] in entries && CarriesASignature(entries[i]);
    }
  }

  lemma {:induction false} SuitsIsFitting(e: Entry, clean: Cleaner, ctx: Context, input: seq<Byte>)
    ensures Suits(e, clean, ctx, input) <==> FitsInput(e, clean, ctx, input)
  {
    hide WindowOf, TextOf;
    var text, s := LeadingText(clean, input, e.signature), e.signature;
    AnswersIn(s.all, text);
    AnswersIn(s.anyOf, text);
    AnswersIn(s.none, text);
  }

  lemma {:induction false} AnswersIn(res: seq<Expr>, text: string)
    ensures AllAnswer(res, text) <==> forall re :: re in res ==> re.answers(text)
    ensures SomeAnswers(res, text) <==> exists re :: re in res && re.answers(text)
    ensures !SomeAnswers(res, text) <==> forall re :: re in res ==> !re.answers(text)
  {
    assert forall i :: 0 <= i < |res| ==> res[i] in res;
  }

  /** So a selection chooses the one definition that is the choice, and nothing where there is none. */
  lemma {:induction false} SelectedIsTheChoice(clean: Cleaner, reg: Registry, ctx: Context, input: seq<Byte>, choice: Option<Entry>)
    requires Sound(reg) && Selected(clean, reg, ctx, input, choice)
    ensures forall e :: choice == Some(e) <==> IsTheChoice(clean, reg, ctx, input, e)
  {
    hide ScopeOf, FitsInput, Where, Suits, Eligible, Distinct;
    var scope := ScopeOf(reg, ctx);
    forall e ensures Eligible(reg, ctx, e) <==> scope.Some? && e in scope.value {
      EligibleIsInScope(reg, ctx, e);
    }
    if scope.Some? {
      var fitting := Where(scope.value, Fitting(clean, ctx, input));
      ScopeIsDistinct(reg, ctx);
      WhereIs(scope.value, Fitting(clean, ctx, input));
      forall e ensures e in fitting <==> Eligible(reg, ctx, e) && Suits(e, clean, ctx, input) {
        SuitsIsFitting(e, clean, ctx, input);
      }
      forall e ensures choice == Some(e) <==> Wins(e, fitting) {
        if Wins(e, fitting) {
          ChosenIsWinner(fitting, choice, e);
        }
      }
      forall e ensures Wins(e, fitting) <==> IsTheChoice(clean, reg, ctx, input, e) {
      }
    }
  }

  /** The lines a signature sees: from the first that is not blank, at most two hundred, and where the input ends in
      them up to the last that is not blank. */
  lemma {:induction false} WindowIsLeading(clean: Cleaner, input: seq<Byte>) returns (from: nat, to: nat)
    ensures
      var lines := CleanLines(clean, RawRecords(input, NEWLINE));
      && from <= to <= |lines| && to - from <= 200 && WindowOf(clean, input) == lines[from..to]
      && (forall i :: 0 <= i < from ==> Blank(lines[i]))
      && (from < to ==> !Blank(lines[from]))
      && (to - from < 200 ==> forall i :: to <= i < |lines| ==> Blank(lines[i]))
      && (to > from && |lines| - from <= 200 ==> !Blank(lines[to - 1]))
  {
    hide RawRecords, Blank, LeadingBlanks, TrimBlanks;
    var lines := CleanLines(clean, RawRecords(input, NEWLINE));
    from := LeadingBlanks(lines);
    BlanksLead(lines);
    var body, w := lines[from..], WindowOf(clean, input);
    to := from + |w|;
    WindowEnds(body, w);
    assert forall i :: from <= i < |lines| ==> lines[i] == body[i - from];
  }

  lemma {:induction false} WindowEnds(body: seq<string>, w: seq<string>)
    requires w == if |body| <= MAX_SIGNATURE_WINDOW then TrimBlanks(body) else body[..MAX_SIGNATURE_WINDOW]
    requires body != [] ==> !Blank(body[0])
    ensures |w| <= 200 && w <= body && (w == [] <==> body == [])
    ensures |w| < 200 ==> forall i :: |w| <= i < |body| ==> Blank(body[i])
    ensures |body| <= 200 && w != [] ==> !Blank(w[|w| - 1])
  {
    hide Blank, TrimBlanks;
    BlanksTrail(body);
  }

  lemma {:induction false} BlanksLead(lines: seq<string>)
    ensures forall i :: 0 <= i < LeadingBlanks(lines) ==> Blank(lines[i])
    ensures LeadingBlanks(lines) < |lines| ==> !Blank(lines[LeadingBlanks(lines)])
  {
    hide Blank;
    if lines != [] && Blank(lines[0]) {
      BlanksLead(lines[1..]);
      assert forall i :: 1 <= i < |lines| ==> lines[i] == lines[1..][i - 1];
    }
  }

  lemma {:induction false} BlanksTrail(lines: seq<string>)
    ensures forall i :: |TrimBlanks(lines)| <= i < |lines| ==> Blank(lines[i])
    ensures TrimBlanks(lines) != [] ==> !Blank(lines[|TrimBlanks(lines)| - 1])
  {
    hide Blank;
    if lines != [] && Blank(lines[|lines| - 1]) {
      BlanksTrail(lines[..|lines| - 1]);
    }
  }

  /** Texts with a line break after each. */
  function Lined(texts: seq<string>): string {
    if texts == [] then "" else Lined(texts[..|texts| - 1]) + texts[|texts| - 1] + "\n"
  }

  /** What an expression is asked of is the first lines of the window, a line break between each and the next. */
  lemma {:induction false} TextIsLines(w: seq<string>, n: nat)
    requires w != [] && n > 0
    ensures TextOf(w, n) + "\n" == Lined(if n < |w| then w[..n] else w)
  {
    JoinIsLined(if n < |w| then w[..n] else w);
  }

  lemma {:induction false} JoinIsLined(texts: seq<string>)
    requires texts != []
    ensures Join(texts, "\n") + "\n" == Lined(texts)
  {
    var n := |texts| - 1;
    if n == 0 {
      assert texts[..0] == [];
    } else {
      JoinIsLined(texts[..n]);
      var before, text := Join(texts[..n], "\n"), texts[n];
      assert before + "\n" + text + "\n" == (before + "\n") + text + "\n";
    }
  }

  // ----- selecting -----

  /** The candidates the input fits. */
  method Matching(clean: Cleaner, ctx: Context, scope: seq<Entry>, input: seq<Byte>) returns (matched: seq<Entry>)
    requires Distinct(scope)
    ensures matched == Where(scope, Fitting(clean, ctx, input)) && Distinct(matched)
    ensures forall e :: e in matched <==> e in scope && Suits(e, clean, ctx, input)
  {
    hide Check, WindowOf, HasNul;
    var w := ReadWindow(clean, input);
    var nul := HasNul(input);
    matched := [];
    assert scope[..0] == [] && scope[..|scope|] == scope;
    for k := 0 to |scope|
      invariant matched == Where(scope[..k], Fitting(clean, ctx, input))
    {
      WhereSnoc(scope[..k], Fitting(clean, ctx, input), scope[k]);
      assert scope[..k + 1] == scope[..k] + [scope[k]];
      if Check(scope[k], ctx, nul, w) {
        matched := matched + [scope[k]];
      }
    }
    WhereIs(scope, Fitting(clean, ctx, input));
    forall e ensures e in matched <==> e in scope && Suits(e, clean, ctx, input) {
      SuitsIsFitting(e, clean, ctx, input);
    }
  }

  /** Select: one definition that fits is the answer, none is an error, and several are settled between. */
  method Select(clean: Cleaner, reg: Registry, ctx: Context, input: seq<Byte>) returns (choice: Option<Entry>)
    requires Sound(reg)
    ensures Selected(clean, reg, ctx, input, choice)
    ensures forall e :: choice == Some(e) <==> IsTheChoice(clean, reg, ctx, input, e)
  {
    hide Where, SearchOf, Distinct, WindowOf, Check, IsTheChoice;
    ScopeIsDistinct(reg, ctx);
    forall c: Option<Entry> | Selected(clean, reg, ctx, input, c)
      ensures forall e :: c == Some(e) <==> IsTheChoice(clean, reg, ctx, input, e)
    {
      SelectedIsTheChoice(clean, reg, ctx, input, c);
    }
    if ctx.variant != "" && ctx.parser == "" {
      return None;
    }
    if ctx.parser != "" && reg.variants(ctx.parser) == [] {
      return None;
    }
    var scope: seq<Entry>;
    if ctx.variant != "" {
      var e := reg.lookup(ctx.parser, ctx.variant);
      if e.None? {
        return None;
      }
      scope := [e.value];
    } else {
      scope := SearchOf(reg, ctx);
    }
    var matched := Matching(clean, ctx, scope, input);
    if matched == [] {
      return None;
    }
    if |matched| == 1 {
      OnlyOneWins(matched);
      return Some(matched[0]);
    }
    choice := Settle(matched);
  }

  lemma {:induction false} OnlyOneWins(matched: seq<Entry>)
    requires |matched| == 1
    ensures Wins(matched[0], matched)
  {
  }

  /** The input goes on: its lines have all ended, and no NUL byte comes that it did not hold already. */
  ghost predicate GoesOn(input: seq<Byte>, longer: seq<Byte>) {
    Complete(input) && input <= longer && HasNul(input) == HasNul(longer)
  }

  /** A verdict on this input that every input it goes on to shares. */
  ghost predicate Settles(e: Entry, clean: Cleaner, ctx: Context, input: seq<Byte>, ok: bool) {
    forall longer: seq<Byte> :: GoesOn(input, longer) ==> FitsInput(e, clean, ctx, longer) == ok
  }

  lemma {:induction false} VerdictSettles(e: Entry, clean: Cleaner, ctx: Context, input: seq<Byte>, ok: bool)
    requires VerdictStays(e, ctx, HasNul(input), WindowOf(clean, input), ok)
    ensures Settles(e, clean, ctx, input, ok)
  {
    hide WindowOf, Check, HasNul;
    forall longer: seq<Byte> | GoesOn(input, longer) ensures FitsInput(e, clean, ctx, longer) == ok {
      WindowGoesOn(clean, input, longer);
    }
  }

  lemma {:induction false} SettlesOn(e: Entry, clean: Cleaner, ctx: Context, input: seq<Byte>, longer: seq<Byte>, ok: bool)
    requires Settles(e, clean, ctx, input, ok) && GoesOn(input, longer)
    ensures Settles(e, clean, ctx, longer, ok)
  {
    hide FitsInput, HasNul;
    forall further: seq<Byte> | GoesOn(longer, further) ensures FitsInput(e, clean, ctx, further) == ok {
      assert GoesOn(input, further);
    }
  }

  // ----- when a selection is final -----

  /** The choice on this input is the choice on every input it goes on to. */
  ghost predicate ChoiceIsFinal(clean: Cleaner, reg: Registry, ctx: Context, input: seq<Byte>) {
    forall longer: seq<Byte>, x: Option<Entry>, y: Option<Entry> ::
      GoesOn(input, longer) && Selected(clean, reg, ctx, input, x) && Selected(clean, reg, ctx, longer, y) ==> x == y
  }

  /** What following a selection has come to: the entries that fit, the ones still open, and the rest out. */
  ghost predicate Sorted(clean: Cleaner, ctx: Context, scope: seq<Entry>, fits: seq<Entry>, open: seq<Entry>, input: seq<Byte>) {
    && Distinct(fits + open)
    && (forall e :: e in fits ==> e in scope && Settles(e, clean, ctx, input, true))
    && (forall e :: e in open ==> e in scope)
    && (forall e :: e in scope && e !in fits && e !in open ==> Settles(e, clean, ctx, input, false))
  }

  /** Where the entries that fit, with the ones still open, leave one answer, the choice is final. */
  lemma {:induction false} SettledIsFinal(clean: Cleaner, ctx: Context, scope: seq<Entry>, fits: seq<Entry>, open: seq<Entry>,
                                          input: seq<Byte>, longer: seq<Byte>, x: Option<Entry>, y: Option<Entry>)
    requires Distinct(scope) && Sorted(clean, ctx, scope, fits, open, input)
    requires open == [] || exists best :: best in fits && Wins(best, fits + open)
    requires GoesOn(input, longer)
    requires Chosen(Where(scope, Fitting(clean, ctx, input)), x) && Chosen(Where(scope, Fitting(clean, ctx, longer)), y)
    ensures x == y
  {
    hide FitsInput, HasNul, Wins, Where, Distinct, Settles;
    var now, later := Where(scope, Fitting(clean, ctx, input)), Where(scope, Fitting(clean, ctx, longer));
    WhereIs(scope, Fitting(clean, ctx, input));
    WhereIs(scope, Fitting(clean, ctx, longer));
    assert GoesOn(input, input);
    Between(clean, ctx, scope, fits, open, input, input);
    Between(clean, ctx, scope, fits, open, input, longer);
    if open == [] {
      assert forall e :: e in now <==> e in later;
      ChoiceIsUnordered(now, x, later, y);
    } else {
      var best :| best in fits && Wins(best, fits + open);
      WinsAmongFewer(best, fits + open, now);
      WinsAmongFewer(best, fits + open, later);
      ChosenIsWinner(now, x, best);
      ChosenIsWinner(later, y, best);
    }
  }

  lemma {:induction false} ChosenIsWinner(entries: seq<Entry>, x: Option<Entry>, best: Entry)
    requires Distinct(entries) && Chosen(entries, x) && Wins(best, entries)
    ensures x == Some(best)
  {
    assert best in entries;
    if x.Some? {
      OneWins(entries, x.value, best);
    }
  }

  /** What a longer input fits is all that fits for good, and nothing beyond that and what is open. */
  lemma {:induction false} Between(clean: Cleaner, ctx: Context, scope: seq<Entry>, fits: seq<Entry>, open: seq<Entry>,
                                   input: seq<Byte>, longer: seq<Byte>)
    requires Sorted(clean, ctx, scope, fits, open, input) && GoesOn(input, longer)
    ensures forall e :: e in fits ==> e in Where(scope, Fitting(clean, ctx, longer))
    ensures forall e :: e in Where(scope, Fitting(clean, ctx, longer)) ==> e in fits || e in open
  {
    hide FitsInput, HasNul, Distinct, Where;
    WhereIs(scope, Fitting(clean, ctx, longer));
    assert GoesOn(input, input);
  }

  /** No entry of one is an entry of the other. */
  ghost predicate Apart(a: seq<Entry>, b: seq<Entry>) {
    forall i, j :: 0 <= i < |a| && 0 <= j < |b| ==> a[i].id != b[j].id
  }

  lemma {:induction false} DistinctTogether(a: seq<Entry>, b: seq<Entry>)
    ensures Distinct(a + b) <==> Distinct(a) && Distinct(b) && Apart(a, b)
  {
    var all := a + b;
    if Distinct(all) {
      assert forall i :: 0 <= i < |a| ==> all[i] == a[i];
      assert forall j :: 0 <= j < |b| ==> all[|a| + j] == b[j];
    }
  }

  /** A selection followed while the leading lines of an input arrive (Watch). */
  class Watcher {
    const clean: Cleaner
    const ctx: Context
    /** The selection fails whatever the text says. */
    const failed: bool

    var fits: seq<Entry>
    var open: seq<Entry>

    ghost const reg: Registry
    ghost const scope: seq<Entry>
    /** The lines looked at last. */
    ghost var seen: Option<seq<Byte>>

    /** What Watch looks at is what Select looks at. */
    ghost predicate Scoped() {
      && Sound(reg) && Distinct(scope) && (failed ==> ScopeOf(reg, ctx).None?)
      && (ScopeOf(reg, ctx).Some? ==> ScopeOf(reg, ctx).value == scope)
      && forall e :: e in scope ==> FaithfulEntry(e)
    }

    ghost predicate Valid()
      reads this
    {
      && Scoped()
      && (failed || match seen
                    case None => fits == [] && open == scope
                    case Some(input) => Complete(input) && Sorted(clean, ctx, scope, fits, open, input))
    }

    constructor (clean: Cleaner, reg: Registry, ctx: Context)
      requires Sound(reg)
      requires forall e :: e in reg.entries ==> FaithfulEntry(e)
      requires forall name, e :: e in reg.variants(name) ==> FaithfulEntry(e)
      requires forall name, variant ::
        reg.lookup(name, variant).Some? ==> FaithfulEntry(reg.lookup(name, variant).value)
      ensures this.clean == clean && this.reg == reg && this.ctx == ctx
      ensures Valid() && seen == None
    {
      hide Distinct, FaithfulEntry, Where, Sound;
      this.clean, this.reg, this.ctx := clean, reg, ctx;
      seen := None;
      var candidates: seq<Entry>, final := [], false;
      if ctx.variant != "" && ctx.parser == "" {
        final := true;
      } else if ctx.variant != "" {
        var e := reg.lookup(ctx.parser, ctx.variant);
        if e.None? {
          final := true;
        } else {
          candidates := [e.value];
        }
      } else if ctx.parser != "" && reg.variants(ctx.parser) == [] {
        final := true;
      } else {
        candidates := SearchOf(reg, ctx);
      }
      failed := final;
      scope := candidates;
      fits, open := [], candidates;
      new;
      WatchedAreSound(reg, ctx);
      FewAreDistinct(candidates);
    }

    /** Given the leading lines read so far, each of them complete, whether the choice they make is the one
        the selection will make however the input goes on. */
    method Look(input: seq<Byte>) returns (settled: bool)
      requires Valid() && Complete(input) && (seen.Some? ==> GoesOn(seen.value, input))
      modifies this
      ensures Valid() && seen == Some(input)
      ensures settled ==> ChoiceIsFinal(clean, reg, ctx, input)
    {
      hide Distinct, FaithfulEntry, Sound, Sorted, HasNul, ScopeOf, ChoiceIsFinal, Complete;
      if failed {
        seen := Some(input);
        FailsAnyway(input);
        return true;
      }
      SortedSoFar(input);
      seen := Some(input);
      DecideOpenOnes(input);
      settled := SettledBetween();
      if settled {
        FinalWhenSettled(input);
      }
    }

    lemma {:induction false} FailsAnyway(input: seq<Byte>)
      requires Scoped() && ScopeOf(reg, ctx).None?
      ensures ChoiceIsFinal(clean, reg, ctx, input)
    {
    }

    /** The entries stand the same way for more lines. */
    lemma {:induction false} SortedSoFar(input: seq<Byte>)
      requires Valid() && !failed && Complete(input) && (seen.Some? ==> GoesOn(seen.value, input))
      ensures Sorted(clean, ctx, scope, fits, open, input)
    {
      hide FaithfulEntry, ScopeOf, FitsInput, Settles;
      if seen.Some? {
        forall e | e in fits ensures Settles(e, clean, ctx, input, true) {
          SettlesOn(e, clean, ctx, seen.value, input, true);
        }
        forall e | e in scope && e !in fits && e !in open ensures Settles(e, clean, ctx, input, false) {
          SettlesOn(e, clean, ctx, seen.value, input, false);
        }
      } else {
        assert fits + open == scope;
      }
    }

    /** Look again at the entries still open: a verdict that is final stays final. */
    method DecideOpenOnes(input: seq<Byte>)
      requires Scoped() && Sorted(clean, ctx, scope, fits, open, input)
      modifies this`fits, this`open
      ensures Sorted(clean, ctx, scope, fits, open, input) && Distinct(fits + open)
    {
      hide FaithfulEntry, Sound, ScopeOf, WindowOf, Settles, Distinct, Apart, HasNul, Check, VerdictStays;
      var w := ReadWindow(clean, input);
      var nul := HasNul(input);
      var still: seq<Entry> := [];
      ghost var before := open;
      DistinctTogether(fits, open);
      NothingApart(fits, open);
      assert open[0..] == open && open[|open|..] == [];
      for k := 0 to |open|
        invariant open == before && Waiting(fits, still, open[k..])
        invariant forall e :: e in fits ==> e in scope && Settles(e, clean, ctx, input, true)
        invariant forall e :: e in still ==> e in scope
        invariant forall e :: e in scope && e !in fits && e !in still && e !in open[k..] ==>
          Settles(e, clean, ctx, input, false)
      {
        var e := open[k];
        assert open[k..] == [e] + open[k + 1..] && e in scope;
        WaitingFirst(fits, still, e, open[k + 1..]);
        var d := Decide(e, ctx, nul, w);
        match d {
          case Fits =>
            VerdictSettles(e, clean, ctx, input, true);
            fits := fits + [e];
          case Undecided =>
            still := still + [e];
          case Out =>
            VerdictSettles(e, clean, ctx, input, false);
        }
      }
      WaitingEnds(fits, still);
      open := still;
    }

    /** The entries that fit, with the ones still open, leave one answer (settledBetween). */
    method SettledBetween() returns (settled: bool)
      requires Distinct(fits + open)
      ensures settled ==> open == [] || exists best :: best in fits && Wins(best, fits + open)
    {
      if open == [] {
        return true;
      }
      if fits == [] {
        return false;
      }
      var best := Settle(fits + open);
      if best.None? {
        return false;
      }
      hide Wins;
      for i := 0 to |fits|
        invariant forall j :: 0 <= j < i ==> fits[j].id != best.value.id
      {
        if fits[i].id == best.value.id {
          WinnerIsAmong(fits + open, best.value, fits[i]);
          return true;
        }
      }
      return false;
    }

    lemma {:induction false} FinalWhenSettled(input: seq<Byte>)
      requires Scoped() && Sorted(clean, ctx, scope, fits, open, input)
      requires open == [] || exists best :: best in fits && Wins(best, fits + open)
      ensures ChoiceIsFinal(clean, reg, ctx, input)
    {
      hide FaithfulEntry, Sound, Sorted, HasNul, Distinct, Chosen, Where, Wins, ScopeOf, GoesOn;
      if ScopeOf(reg, ctx).Some? {
        forall longer: seq<Byte>, x: Option<Entry>, y: Option<Entry> |
          GoesOn(input, longer) && Selected(clean, reg, ctx, input, x) && Selected(clean, reg, ctx, longer, y)
          ensures x == y
        {
          SettledIsFinal(clean, ctx, scope, fits, open, input, longer, x, y);
        }
      }
    }
  }

  lemma {:induction false} WinnerIsAmong(entries: seq<Entry>, best: Entry, e: Entry)
    requires Distinct(entries) && Wins(best, entries) && e in entries && e.id == best.id
    ensures e == best
  {
    SameId(entries, best, e);
  }

  /** Three runs of entries none of which share one. */
  ghost predicate Waiting(fits: seq<Entry>, still: seq<Entry>, rest: seq<Entry>) {
    && Distinct(fits) && Distinct(still) && Distinct(rest)
    && Apart(fits, still) && Apart(fits, rest) && Apart(still, rest)
  }

  lemma {:induction false} NothingApart(fits: seq<Entry>, open: seq<Entry>)
    requires Distinct(fits) && Distinct(open) && Apart(fits, open)
    ensures Waiting(fits, [], open)
  {
  }

  lemma {:induction false} WaitingFirst(fits: seq<Entry>, still: seq<Entry>, e: Entry, rest: seq<Entry>)
    requires Waiting(fits, still, [e] + rest)
    ensures Waiting(fits + [e], still, rest) && Waiting(fits, still + [e], rest) && Waiting(fits, still, rest)
  {
    var all := [e] + rest;
    assert all[0] == e && forall j :: 0 <= j < |rest| ==> all[j + 1] == rest[j];
  }

  lemma {:induction false} WaitingEnds(fits: seq<Entry>, still: seq<Entry>)
    requires Waiting(fits, still, [])
    ensures Distinct(fits + still)
  {
    DistinctTogether(fits, still);
  }

  lemma {:induction false} FewAreDistinct(entries: seq<Entry>)
    ensures |entries| <= 1 ==> Distinct(entries)
  {
  }

  /** The entries a selection looks at are entries of the registry. */
  lemma {:induction false} WatchedAreSound(reg: Registry, ctx: Context)
    requires Sound(reg)
    ensures Distinct(SearchOf(reg, ctx))
    ensures forall e :: e in SearchOf(reg, ctx) ==> e in reg.entries || e in reg.variants(ctx.parser)
  {
    ScopeIsDistinct(reg, ctx);
    var candidates := if ctx.parser == "" then reg.entries else reg.variants(ctx.parser);
    WhereIs(candidates, Searched(ctx, ctx.parser != "" && ctx.args.None? && AnyClaims(candidates)));
  }
}
