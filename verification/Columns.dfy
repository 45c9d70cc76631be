/**
 The column names of a csv (pkg/engine/csv.go, csvColumns, csvNumbered, csvRow): names the header repeats are
 numbered, so that no two values of a row stand under one name.
 */
module Columns {
  import opened Lines
  import opened Json
  import opened Texts

  /** How the names of a header line are read: kept as they are or normalised, and then renamed. */
  datatype Heading = Heading(keep: bool, normalize: string -> string, rename: map<string, string>)

  ghost predicate Distinct(names: seq<string>) {
    forall i, j :: 0 <= i < j < |names| ==> names[i] != names[j]
  }

  /** The name a header cell asks for. */
  function Asked(h: Heading, cell: string): string {
    var name := if h.keep then cell else h.normalize(cell);
    var renamed := if name in h.rename then h.rename[name] else name;
    if renamed == "" then "column" else renamed
  }

  function AllAsked(h: Heading, header: seq<string>): seq<string> {
    seq(|header|, i requires 0 <= i < |header| => Asked(h, header[i]))
  }

  function Numbered(name: string, n: nat): string {
    name + "_" + DigitsOf(n)
  }

  /** The first number, from 2 on, that gives a name nobody asked for and that was not given out. */
  ghost predicate FirstFree(name: string, n: nat, asked: seq<string>, given: seq<string>) {
    && n >= 2 && Numbered(name, n) !in asked && Numbered(name, n) !in given
    && forall m: nat :: 2 <= m < n ==> Numbered(name, m) in asked || Numbered(name, m) in given
  }

  /** A name asked for the first time is given as it is, and one asked for again is numbered. */
  ghost predicate GivenAt(asked: seq<string>, names: seq<string>, i: nat)
    requires i < |asked| <= |names|
  {
    if asked[i] !in asked[..i] then names[i] == asked[i]
    else exists n: nat :: FirstFree(asked[i], n, asked, names[..i]) && names[i] == Numbered(asked[i], n)
  }

  ghost predicate Given(asked: seq<string>, names: seq<string>) {
    |names| == |asked| && forall i :: 0 <= i < |asked| ==> GivenAt(asked, names, i)
  }

  // ----- what the names are for -----

  /** A name that stands among those given stands there by having been asked for, or by a number that makes it
      none of those. */
  lemma {:induction false} GivenIsAskedOrNew(asked: seq<string>, names: seq<string>, i: nat)
    requires Given(asked, names) && i < |asked|
    ensures names[i] in asked ==> names[i] == asked[i] && asked[i] !in asked[..i]
  {
    assert GivenAt(asked, names, i);
  }

  /** No two columns have the same name. */
  lemma {:induction false} GivenAreDistinct(asked: seq<string>, names: seq<string>)
    requires Given(asked, names)
    ensures Distinct(names)
  {
    forall i, j | 0 <= i < j < |names| ensures names[i] != names[j] {
      GivenIsAskedOrNew(asked, names, i);
      assert GivenAt(asked, names, j);
      assert names[..j][i] == names[i] && asked[..j][i] == asked[i];
    }
  }

  /** Every name that was asked for is given, to the column that asked first. */
  lemma {:induction false} AskedIsGiven(asked: seq<string>, names: seq<string>, i: nat)
    requires Given(asked, names) && i < |asked|
    ensures exists k :: 0 <= k <= i && names[k] == asked[k] == asked[i] && asked[i] !in asked[..k]
    decreases i
  {
    assert GivenAt(asked, names, i);
    if asked[i] in asked[..i] {
      var j :| 0 <= j < i && asked[j] == asked[i];
      AskedIsGiven(asked, names, j);
    }
  }

  /** A header whose names are distinct keeps them. */
  lemma {:induction false} DistinctAreKept(asked: seq<string>, names: seq<string>)
    requires Given(asked, names)
    ensures names == asked <==> Distinct(asked)
  {
    if Distinct(asked) {
      forall i | 0 <= i < |asked| ensures names[i] == asked[i] {
        assert GivenAt(asked, names, i);
      }
    } else {
      GivenAreDistinct(asked, names);
    }
  }

  /** The names follow from the header: there is one way to give them. */
  lemma {:induction false} GivenIsUnique(asked: seq<string>, names: seq<string>, others: seq<string>, n: nat)
    requires Given(asked, names) && Given(asked, others) && n <= |asked|
    ensures names[..n] == others[..n]
  {
    if n > 0 {
      var i := n - 1;
      GivenIsUnique(asked, names, others, i);
      assert GivenAt(asked, names, i) && GivenAt(asked, others, i);
      if asked[i] in asked[..i] {
        var a: nat :| FirstFree(asked[i], a, asked, names[..i]) && names[i] == Numbered(asked[i], a);
        var b: nat :| FirstFree(asked[i], b, asked, others[..i]) && others[i] == Numbered(asked[i], b);
        assert a == b;
      }
      assert names[..n] == names[..i] + [names[i]] && others[..n] == others[..i] + [others[i]];
    }
  }

  // ----- giving them -----

  /** The first free number from n on. */
  function FreeFrom(name: string, n: nat, used: set<string>): nat
    decreases |used|
  {
    if Numbered(name, n) in used then FreeFrom(name, n + 1, used - {Numbered(name, n)}) else n
  }

  function Names(names: seq<string>): (r: set<string>)
    ensures forall name :: name in r <==> name in names
  {
    set name | name in names
  }

  /** The first n names. */
  function NamesGiven(asked: seq<string>, n: nat): (names: seq<string>)
    requires n <= |asked|
    ensures |names| == n
  {
    if n == 0 then []
    else
      var before, name := NamesGiven(asked, n - 1), asked[n - 1];
      var given := if name !in asked[..n - 1] then name
                   else Numbered(name, FreeFrom(name, 2, Names(asked) + Names(before)));
      before + [given]
  }

  /** The names of the columns a header line names. */
  function Named(h: Heading, header: seq<string>): seq<string> {
    NamesGiven(AllAsked(h, header), |header|)
  }

  lemma {:induction false} FreeFromIsFirst(name: string, n: nat, used: set<string>, left: set<string>)
    requires left <= used
    requires forall m: nat :: m >= n && Numbered(name, m) in used ==> Numbered(name, m) in left
    ensures FreeFrom(name, n, left) >= n && Numbered(name, FreeFrom(name, n, left)) !in used
    ensures forall m: nat :: n <= m < FreeFrom(name, n, left) ==> Numbered(name, m) in used
    decreases |left|
  {
    hide Numbered;
    if Numbered(name, n) in left {
      forall m: nat | m > n ensures Numbered(name, m) != Numbered(name, n) {
        NumberedApart(name, m, n);
      }
      FreeFromIsFirst(name, n + 1, used, left - {Numbered(name, n)});
    }
  }

  lemma {:induction false} NamesGivenBegins(asked: seq<string>, k: nat, n: nat)
    requires k <= n <= |asked|
    ensures NamesGiven(asked, n)[..k] == NamesGiven(asked, k)
  {
    if k < n {
      NamesGivenBegins(asked, k, n - 1);
      assert NamesGiven(asked, n)[..k] == NamesGiven(asked, n - 1)[..k];
    }
  }

  /** The names given are the ones the rule asks for. */
  lemma {:induction false} NamesAreGiven(asked: seq<string>)
    ensures Given(asked, NamesGiven(asked, |asked|))
  {
    var names := NamesGiven(asked, |asked|);
    forall i | 0 <= i < |asked| ensures GivenAt(asked, names, i) {
      NamesGivenBegins(asked, i, |asked|);
      NamesGivenBegins(asked, i + 1, |asked|);
      var before := NamesGiven(asked, i);
      assert names[i] == NamesGiven(asked, i + 1)[i];
      if asked[i] in asked[..i] {
        var used := Names(asked) + Names(before);
        FreeFromIsFirst(asked[i], 2, used, used);
        assert FirstFree(asked[i], FreeFrom(asked[i], 2, used), asked, names[..i]);
      }
    }
  }

  /** Two numbers never give the same name. */
  lemma {:induction false} NumberedApart(name: string, m: nat, n: nat)
    requires m != n
    ensures Numbered(name, m) != Numbered(name, n)
  {
    if Numbered(name, m) == Numbered(name, n) {
      var k := |name| + 1;
      assert Numbered(name, m)[k..] == DigitsOf(m) && Numbered(name, n)[k..] == DigitsOf(n);
      DigitsApart(m, n);
    }
  }

  /** The inner loop: the first number whose name is free. */
  method FreeNumber(name: string, taken: set<string>, given: set<string>) returns (n: nat)
    ensures n >= 2 && Numbered(name, n) !in taken && Numbered(name, n) !in given
    ensures forall m: nat :: 2 <= m < n ==> Numbered(name, m) in taken || Numbered(name, m) in given
  {
    n := 2;
    ghost var left := taken + given;
    while Numbered(name, n) in taken || Numbered(name, n) in given
      invariant n >= 2 && left <= taken + given
      invariant forall m: nat :: 2 <= m < n ==> Numbered(name, m) in taken || Numbered(name, m) in given
      invariant forall m: nat :: m >= n && Numbered(name, m) in taken + given ==> Numbered(name, m) in left
      decreases |left|
    {
      forall m: nat | m > n ensures Numbered(name, m) != Numbered(name, n) {
        NumberedApart(name, m, n);
      }
      left := left - {Numbered(name, n)};
      n := n + 1;
    }
  }

  /** The names the definition states, or those its header line comes to (csvColumns). */
  method CsvColumns(h: Heading, stated: Option<seq<string>>, header: seq<string>) returns (columns: seq<string>)
    ensures columns == NamesOf(h, stated, header)
    ensures stated.None? || stated.value == [] ==> Given(AllAsked(h, header), columns) && Distinct(columns)
  {
    if stated.Some? && stated.value != [] {
      return stated.value;
    }
    var out := new string[|header|];
    for i := 0 to |header|
      invariant forall k :: 0 <= k < i ==> out[k] == Asked(h, header[k])
    {
      var name := header[i];
      if !h.keep {
        name := h.normalize(name);
      }
      if name in h.rename {
        name := h.rename[name];
      }
      if name == "" {
        name := "column";
      }
      out[i] := name;
    }
    ghost var asked := AllAsked(h, header);
    NumberRepeats(out, asked);
    columns := out[..];
    GivenAreDistinct(asked, columns);
    NamesAreGiven(asked);
    GivenIsUnique(asked, columns, Named(h, header), |header|);
    assert columns[..|header|] == columns && Named(h, header)[..|header|] == Named(h, header);
  }

  function NamesOf(h: Heading, stated: Option<seq<string>>, header: seq<string>): seq<string> {
    if stated.Some? && stated.value != [] then stated.value else Named(h, header)
  }

  /** Number the names that repeat, in place. */
  method NumberRepeats(out: array<string>, ghost asked: seq<string>)
    requires out[..] == asked
    modifies out
    ensures Given(asked, out[..])
  {
    var taken: set<string> := {};
    for i := 0 to out.Length
      invariant forall name :: name in taken <==> name in asked[..i]
    {
      taken := taken + {out[i]};
      assert asked[..i + 1] == asked[..i] + [asked[i]];
    }
    assert asked[..out.Length] == asked;
    var given: set<string> := {};
    for i := 0 to out.Length
      invariant out[i..] == asked[i..]
      invariant forall name :: name in given <==> name in out[..i]
      invariant forall k :: 0 <= k < i ==> GivenAt(asked, out[..], k)
    {
      ghost var before := out[..];
      var name := out[i];
      assert name == asked[i] by { assert out[i..][0] == asked[i..][0]; }
      GivenSoFar(asked, before, i);
      if name in given {
        var n := FreeNumber(name, taken, given);
        assert FirstFree(name, n, asked, before[..i]);
        name := Numbered(name, n);
        out[i] := name;
      }
      given := given + {name};
      StepGiven(asked, before, out[..], i);
    }
  }

  /** Among the names given so far, one that was asked for stands where it was asked for first. */
  lemma {:induction false} GivenSoFar(asked: seq<string>, names: seq<string>, i: nat)
    requires i < |asked| == |names|
    requires forall k :: 0 <= k < i ==> GivenAt(asked, names, k)
    ensures asked[i] in names[..i] <==> asked[i] in asked[..i]
  {
    if asked[i] in names[..i] {
      var k :| 0 <= k < i && names[k] == asked[i];
      assert GivenAt(asked, names, k);
      assert asked[..i][k] == asked[k];
    }
    if asked[i] in asked[..i] {
      FirstOf(asked, asked[i], i);
      var k :| 0 <= k < i && asked[k] == asked[i] && asked[k] !in asked[..k];
      assert GivenAt(asked, names, k);
      assert names[..i][k] == names[k];
    }
  }

  lemma {:induction false} FirstOf(asked: seq<string>, name: string, i: nat)
    requires i <= |asked| && name in asked[..i]
    ensures exists k :: 0 <= k < i && asked[k] == name && asked[k] !in asked[..k]
  {
    var k :| 0 <= k < i && asked[k] == name;
    if name in asked[..k] {
      FirstOf(asked, name, k);
    }
  }

  /** Giving one name more leaves the earlier ones right. */
  lemma {:induction false} StepGiven(asked: seq<string>, before: seq<string>, after: seq<string>, i: nat)
    requires i < |asked| == |before| == |after| && before[..i] == after[..i] && before[i + 1..] == after[i + 1..]
    requires before[i..] == asked[i..]
    requires forall k :: 0 <= k < i ==> GivenAt(asked, before, k)
    requires GivenAt(asked, after, i)
    ensures forall k :: 0 <= k <= i ==> GivenAt(asked, after, k)
    ensures after[i + 1..] == asked[i + 1..] && after[..i + 1] == after[..i] + [after[i]]
  {
    assert before[i + 1..] == before[i..][1..] && asked[i + 1..] == asked[i..][1..];
    forall k | 0 <= k < i ensures GivenAt(asked, after, k) {
      assert GivenAt(asked, before, k);
      assert before[..k] == before[..i][..k] && after[..k] == after[..i][..k];
      assert before[k] == before[..i][k] && after[k] == after[..i][k];
    }
  }

  // ----- columns by number -----

  function ByNumber(n: nat): seq<string> {
    seq(n, i requires 0 <= i < n => Numbered("column", i + 1))
  }

  /** csvNumbered */
  method CsvNumbered(n: nat) returns (columns: seq<string>)
    ensures columns == ByNumber(n) && Distinct(columns)
  {
    var out := new string[n];
    for i := 0 to n
      invariant forall k :: 0 <= k < i ==> out[k] == Numbered("column", k + 1)
    {
      out[i] := Numbered("column", i + 1);
    }
    columns := out[..];
    forall i, j | 0 <= i < j < n ensures columns[i] != columns[j] {
      NumberedApart("column", i + 1, j + 1);
    }
  }

  // ----- rows -----

  /** What a field rule makes of a cell: a value, None where the key is left out, or a refusal. A row shorter than the
      columns has no cell for the rest. */
  type Convert = (string, Option<string>) -> Outcome<Option<Json>>

  function Cell(row: seq<string>, i: nat): Option<string> {
    if i < |row| then Some(row[i]) else None
  }

  /** The members of a row's object, column by column. */
  function RowMembers(convert: Convert, columns: seq<string>, row: seq<string>): Outcome<seq<Member>> {
    if columns == [] then Ok([])
    else
      var n := |columns| - 1;
      var before := RowMembers(convert, columns[..n], row);
      var v := convert(columns[n], Cell(row, n));
      if before.Refused? || v.Refused? then Refused
      else if v.value.None? then before
      else Ok(SetKey(before.value, columns[n], v.value.value))
  }

  /** The object of a row; a row with more cells than there are columns is refused. */
  function RowObject(convert: Convert, columns: seq<string>, row: seq<string>): Outcome<Json> {
    if |row| > |columns| then Refused
    else
      var members := RowMembers(convert, columns, row);
      if members.Refused? then Refused else Ok(Obj(members.value))
  }

  /** A row is refused for a cell that cannot be read, and for nothing else. */
  lemma {:induction false} RowIsRead(convert: Convert, columns: seq<string>, row: seq<string>)
    ensures RowMembers(convert, columns, row).Ok? <==>
              forall i :: 0 <= i < |columns| ==> convert(columns[i], Cell(row, i)).Ok?
  {
    if columns != [] {
      RowIsRead(convert, columns[..|columns| - 1], row);
    }
  }

  /** No column no key. */
  lemma {:induction false} NoOtherKeys(convert: Convert, columns: seq<string>, row: seq<string>, key: string)
    requires key !in columns && RowMembers(convert, columns, row).Ok?
    ensures Get(RowMembers(convert, columns, row).value, key) == None
  {
    if columns != [] {
      var n := |columns| - 1;
      NoOtherKeys(convert, columns[..n], row, key);
      var v := convert(columns[n], Cell(row, n)).value;
      if v.Some? {
        SetThenGet(RowMembers(convert, columns[..n], row).value, columns[n], v.value, key);
      }
    }
  }

  /** Every value of a row stands under its own column. */
  lemma {:induction false} EveryValueIsReachable(convert: Convert, columns: seq<string>, row: seq<string>, i: nat)
    requires Distinct(columns) && i < |columns| && RowMembers(convert, columns, row).Ok?
    ensures Ok(Get(RowMembers(convert, columns, row).value, columns[i])) == convert(columns[i], Cell(row, i))
  {
    var n := |columns| - 1;
    var before := RowMembers(convert, columns[..n], row).value;
    var v := convert(columns[n], Cell(row, n)).value;
    if i < n {
      EveryValueIsReachable(convert, columns[..n], row, i);
    } else {
      NoOtherKeys(convert, columns[..n], row, columns[n]);
    }
    if v.Some? {
      SetThenGet(before, columns[n], v.value, columns[i]);
    }
  }

  lemma {:induction false} RowFails(convert: Convert, columns: seq<string>, row: seq<string>, n: nat)
    requires n <= |columns| && RowMembers(convert, columns[..n], row).Refused?
    ensures RowMembers(convert, columns, row).Refused?
  {
    RowIsRead(convert, columns[..n], row);
    RowIsRead(convert, columns, row);
  }

  /** csvRow */
  method CsvRow(convert: Convert, columns: seq<string>, row: seq<string>) returns (r: Outcome<Json>)
    ensures r == RowObject(convert, columns, row)
  {
    if |row| > |columns| {
      return Refused;
    }
    var members: seq<Member> := [];
    for i := 0 to |columns|
      invariant RowMembers(convert, columns[..i], row) == Ok(members)
    {
      assert columns[..i + 1][..i] == columns[..i];
      var v := convert(columns[i], if i < |row| then Some(row[i]) else None);
      if v.Refused? {
        RowFails(convert, columns, row, i + 1);
        return Refused;
      }
      if v.value.Some? {
        members := SetKey(members, columns[i], v.value.value);
      }
    }
    assert columns[..|columns|] == columns;
    return Ok(Obj(members));
  }

  /** A column the caller named is one of the columns (checkColumns). */
  predicate AllKnown(expected: seq<string>, columns: seq<string>) {
    forall name :: name in expected ==> name in columns
  }

  method CheckColumns(expected: seq<string>, columns: seq<string>) returns (ok: bool)
    ensures ok == AllKnown(expected, columns)
  {
    for i := 0 to |expected|
      invariant forall k :: 0 <= k < i ==> expected[k] in columns
    {
      if expected[i] !in columns {
        return false;
      }
    }
    return true;
  }
}
