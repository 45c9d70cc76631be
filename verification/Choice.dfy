/**
 Which of the definitions a text fits is the one chosen (settle, mostPreferred and breakTie in
 pkg/selector/selector.go).
 */
module Choice {
  import opened Lines
  import opened Expressions

  /** The expressions of a signature, over the first `window` lines; 0 stands for the default. */
  datatype Signature = Signature(window: nat, all: seq<Expr>, anyOf: seq<Expr>, none: seq<Expr>)

  /** A definition as the selector sees it. `id` is its command and variant, which no two entries of a registry
      share; `takes` says whether its argument filter admits arguments given under a command name. */
  datatype Entry = Entry(
    id: string, command: string, precedence: int, priority: int, autoDetectable: bool, lineByLine: bool,
    os: seq<string>, takes: (string, seq<string>) -> bool, signature: Signature)

  ghost predicate Distinct(entries: seq<Entry>) {
    forall i, j :: 0 <= i < j < |entries| ==> entries[i].id != entries[j].id
  }

  /** The entries that are to be kept, in order. */
  function Where(entries: seq<Entry>, keep: Entry -> bool): seq<Entry> {
    if entries == [] then []
    else
      var before := Where(entries[..|entries| - 1], keep);
      if keep(entries[|entries| - 1]) then before + [entries[|entries| - 1]] else before
  }

  lemma {:induction false} WhereSnoc(entries: seq<Entry>, keep: Entry -> bool, e: Entry)
    ensures Where(entries + [e], keep) == if keep(e) then Where(entries, keep) + [e] else Where(entries, keep)
  {
    assert (entries + [e])[..|entries|] == entries;
  }

  lemma {:induction false} WhereIs(entries: seq<Entry>, keep: Entry -> bool)
    ensures forall e :: e in Where(entries, keep) <==> e in entries && keep(e)
    ensures Distinct(entries) ==> Distinct(Where(entries, keep))
  {
    if entries != [] {
      var n := |entries| - 1;
      WhereIs(entries[..n], keep);
      assert entries == entries[..n] + [entries[n]];
      var before := Where(entries[..n], keep);
      if Distinct(entries) {
        forall i | 0 <= i < |before| ensures before[i].id != entries[n].id {
          assert before[i] in entries[..n];
          var j :| 0 <= j < n && entries[..n][j] == before[i];
        }
      }
    }
  }

  // ----- who wins -----

  /** e is preferred to f: it comes from an earlier registry, or the author of both ranked it higher. */
  predicate Over(e: Entry, f: Entry) {
    e.precedence < f.precedence || (e.precedence == f.precedence && e.command == f.command && e.priority > f.priority)
  }

  /** e is one of the entries and is preferred to every other. */
  ghost predicate Wins(e: Entry, entries: seq<Entry>) {
    e in entries && forall f :: f in entries && f.id != e.id ==> Over(e, f)
  }

  /** What a choice among entries comes to: the one that wins, or nothing when none does. */
  ghost predicate Chosen(entries: seq<Entry>, choice: Option<Entry>) {
    match choice
    case Some(e) => Wins(e, entries)
    case None => forall e :: e in entries ==> !Wins(e, entries)
  }

  lemma {:induction false} SameId(entries: seq<Entry>, e: Entry, f: Entry)
    requires Distinct(entries) && e in entries && f in entries && e.id == f.id
    ensures e == f
  {
    var i :| 0 <= i < |entries| && entries[i] == e;
    var j :| 0 <= j < |entries| && entries[j] == f;
    assert !(i < j) && !(j < i);
  }

  /** At most one entry wins. */
  lemma {:induction false} OneWins(entries: seq<Entry>, e: Entry, f: Entry)
    requires Distinct(entries) && Wins(e, entries) && Wins(f, entries)
    ensures e == f
  {
    if e.id == f.id {
      SameId(entries, e, f);
    }
  }

  /** What wins over more entries wins over fewer, as long as it is still among them. */
  lemma {:induction false} WinsAmongFewer(e: Entry, more: seq<Entry>, fewer: seq<Entry>)
    requires Wins(e, more) && e in fewer && forall f :: f in fewer ==> f in more
    ensures Wins(e, fewer)
  {
  }

  /** A choice depends on which entries there are, not on their order. */
  lemma {:induction false} ChoiceIsUnordered(a: seq<Entry>, x: Option<Entry>, b: seq<Entry>, y: Option<Entry>)
    requires Distinct(a) && Chosen(a, x) && Chosen(b, y) && forall e :: e in a <==> e in b
    ensures x == y
  {
    if x.Some? {
      WinsAmongFewer(x.value, a, b);
    }
    if y.Some? {
      WinsAmongFewer(y.value, b, a);
    }
    if x.Some? && y.Some? {
      OneWins(a, x.value, y.value);
    }
  }

  // ----- choosing -----

  function FromRegistry(precedence: int): Entry -> bool {
    (e: Entry) => e.precedence == precedence
  }

  /** The entries of the earliest registry among them (mostPreferred). */
  method MostPreferred(matched: seq<Entry>) returns (out: seq<Entry>)
    requires matched != [] && Distinct(matched)
    ensures out != [] && Distinct(out)
    ensures forall e :: e in out <==> e in matched && forall f :: f in matched ==> e.precedence <= f.precedence
  {
    var best := matched[0].precedence;
    for k := 1 to |matched|
      invariant forall j :: 0 <= j < k ==> best <= matched[j].precedence
      invariant exists j :: 0 <= j < k && matched[j].precedence == best
    {
      if matched[k].precedence < best {
        best := matched[k].precedence;
      }
    }
    assert forall f :: f in matched ==> best <= f.precedence;
    var lowest := best;
    WhereIs(matched, FromRegistry(lowest));
    out := [];
    assert matched[..0] == [] && matched[..|matched|] == matched;
    for k := 0 to |matched|
      invariant out == Where(matched[..k], FromRegistry(lowest))
    {
      WhereSnoc(matched[..k], FromRegistry(lowest), matched[k]);
      assert matched[..k + 1] == matched[..k] + [matched[k]];
      if matched[k].precedence == best {
        out := out + [matched[k]];
      }
    }
    var j :| 0 <= j < |matched| && matched[j].precedence == best;
    assert matched[j] in matched;
  }

  /** Both are variants of one command, and e has the higher priority. */
  predicate Outranks(e: Entry, f: Entry) {
    f.command == e.command && f.priority < e.priority
  }

  /** Some other entry is not outranked by e. */
  ghost predicate Challenged(e: Entry, entries: seq<Entry>) {
    exists f :: f in entries && f.id != e.id && !Outranks(e, f)
  }

  /** detect.priority decides between variants of one command, when one is strictly highest (breakTie). */
  method BreakTie(matched: seq<Entry>) returns (best: Option<Entry>)
    requires matched != [] && Distinct(matched)
    ensures best.Some? ==> best.value in matched
    ensures best.Some? ==> forall f :: f in matched && f.id != best.value.id ==> Outranks(best.value, f)
    ensures best.None? ==> forall e :: e in matched ==> Challenged(e, matched)
  {
    hide Challenged;
    for k := 1 to |matched|
      invariant forall j :: 0 <= j < k ==> matched[j].command == matched[0].command
    {
      if matched[k].command != matched[0].command {
        DifferentCommands(matched, k);
        return None;
      }
    }
    var b, tied := 0, false;
    for k := 1 to |matched|
      invariant b < k && forall j :: 0 <= j < k ==> matched[j].priority <= matched[b].priority
      invariant tied <==> exists j :: 0 <= j < k && j != b && matched[j].priority == matched[b].priority
    {
      if matched[k].priority > matched[b].priority {
        b, tied := k, false;
      } else if matched[k].priority == matched[b].priority {
        tied := true;
      }
    }
    if tied {
      var c :| 0 <= c < |matched| && c != b && matched[c].priority == matched[b].priority;
      TiedAtTheTop(matched, b, c);
      return None;
    }
    return Some(matched[b]);
  }

  lemma {:induction false} DifferentCommands(matched: seq<Entry>, k: nat)
    requires 0 < k < |matched| && Distinct(matched) && matched[k].command != matched[0].command
    ensures forall e :: e in matched ==> Challenged(e, matched)
  {
    forall e | e in matched
      ensures Challenged(e, matched)
    {
      var f := if e.command == matched[0].command then matched[k] else matched[0];
      if f.id == e.id {
        SameId(matched, e, f);
      }
      assert f in matched;
    }
  }

  lemma {:induction false} TiedAtTheTop(matched: seq<Entry>, b: nat, c: nat)
    requires b < |matched| && c < |matched| && b != c && Distinct(matched)
    requires forall j :: 0 <= j < |matched| ==> matched[j].priority <= matched[b].priority
    requires matched[c].priority == matched[b].priority
    ensures forall e :: e in matched ==> Challenged(e, matched)
  {
    assert matched[b].id != matched[c].id;
    forall e | e in matched
      ensures Challenged(e, matched)
    {
      var f := if e.id == matched[b].id then matched[c] else matched[b];
      assert f in matched;
    }
  }

  /** settle: the layering comes first, then detect.priority. */
  method Settle(matched: seq<Entry>) returns (best: Option<Entry>)
    requires matched != [] && Distinct(matched)
    ensures Chosen(matched, best)
  {
    hide Challenged;
    var preferred := MostPreferred(matched);
    assert forall f :: f in matched && f.precedence == preferred[0].precedence ==> f in preferred by {
      assert preferred[0] in preferred;
    }
    if |preferred| == 1 {
      assert preferred[0] in preferred;
      return Some(preferred[0]);
    }
    best := BreakTie(preferred);
    if best.None? {
      forall e | e in matched ensures !Wins(e, matched) {
        NobodyWins(matched, preferred, e);
      }
    }
  }

  lemma {:induction false} NobodyWins(matched: seq<Entry>, preferred: seq<Entry>, e: Entry)
    requires e in matched && preferred != []
    requires forall f :: f in preferred <==> f in matched && forall g :: g in matched ==> f.precedence <= g.precedence
    requires forall e :: e in preferred ==> Challenged(e, preferred)
    ensures !Wins(e, matched)
  {
    if e in preferred {
      assert Challenged(e, preferred);
      SomeChallenger(e, preferred, matched);
    } else {
      var f := preferred[0];
      assert f in preferred && f in matched;
      var g :| g in matched && g.precedence < e.precedence;
      assert f.precedence <= g.precedence && !Over(e, f);
    }
  }

  lemma {:induction false} SomeChallenger(e: Entry, preferred: seq<Entry>, matched: seq<Entry>)
    requires Challenged(e, preferred) && e in preferred
    requires forall f :: f in preferred ==> f in matched && f.precedence <= e.precedence && e.precedence <= f.precedence
    ensures !Wins(e, matched)
  {
    var f :| f in preferred && f.id != e.id && !Outranks(e, f);
    assert f in matched && !Over(e, f);
  }
}
