/**
 What building a planned document comes to (internal/jsonbuild/jsonbuild.go, Build, Fixed.With): the values of
 the arguments, read in their order, in the places the plan has for them, if the document is not too deep and
 does not hold too much.
 */
module Builds {
  import opened Lines
  import opened Json
  import opened Plans
  import opened Documents

  /** How a named file is read: as text less its last line ending, as text, or as data. */
  datatype FileKind = FileText | FileWhole | FileData

  /** What an argument's value is made from. */
  datatype Source = Given(value: Json) | File(kind: FileKind, path: string)

  datatype Placement = Placement(loc: seq<Token>, source: Source)

  predicate ReadsStdin(pl: Placement) {
    pl.source.File? && pl.source.path == "-"
  }

  /** Where values come from, and how much a document may hold. */
  datatype Sources = Sources(
    file: (FileKind, string) -> Outcome<Json>,
    stdin: FileKind -> Outcome<Json>,
    maxValues: int,
    maxDepth: int)

  const DEFAULT_MAX_VALUES := 4 * 1024 * 1024
  const DEFAULT_MAX_DEPTH := 1000

  function MaxValues(src: Sources): (n: nat)
    ensures n >= 1
  {
    if src.maxValues <= 0 then DEFAULT_MAX_VALUES else src.maxValues
  }

  function MaxDepth(src: Sources): (n: nat)
    ensures n >= 1
  {
    if src.maxDepth <= 0 then DEFAULT_MAX_DEPTH else src.maxDepth
  }

  /** The value of an argument (value, read). */
  function ValueOf(pl: Placement, src: Sources): Outcome<Json> {
    match pl.source
    case Given(v) => Ok(v)
    case File(kind, path) => if path == "-" then src.stdin(kind) else src.file(kind, path)
  }

  function Locations(places: seq<Placement>): (locs: seq<seq<Token>>)
    ensures |locs| == |places|
  {
    seq(|places|, i requires 0 <= i < |places| => places[i].loc)
  }

  predicate Located(places: seq<Placement>) {
    forall i :: 0 <= i < |places| ==> places[i].loc != []
  }

  /** The values of the arguments, read in their order. */
  function ValuesOf(places: seq<Placement>, src: Sources): (values: Outcome<seq<Json>>)
    ensures values.Ok? ==> |values.value| == |places|
  {
    if places == [] then Ok([])
    else
      var n := |places| - 1;
      var values :- ValuesOf(places[..n], src);
      var v :- ValueOf(places[n], src);
      Ok(values + [v])
  }

  /** The document that is built. */
  function Built(t: Tree, places: seq<Placement>, src: Sources): Outcome<Json> {
    var values :- ValuesOf(places, src);
    var doc := Document(t, values);
    if DepthOf(doc) > MaxDepth(src) || CountOf(doc) > MaxValues(src) then Refused else Ok(doc)
  }

  /** The same sources, with a record of standard input as its value. */
  function WithStdin(src: Sources, v: Json): Sources {
    src.(stdin := kind => Ok(v))
  }

  /** The values of the first arguments, as far as the loop over them has come. */
  lemma {:induction false} ValuesSoFar(places: seq<Placement>, src: Sources, i: nat)
    requires i <= |places| && ValuesOf(places, src).Ok?
    ensures ValuesOf(places[..i], src) == Ok(ValuesOf(places, src).value[..i])
    ensures i < |places| ==> ValueOf(places[i], src) == Ok(ValuesOf(places, src).value[i])
    decreases |places| - i
  {
    hide ValueOf;
    if i == |places| {
      assert places[..i] == places && ValuesOf(places, src).value[..i] == ValuesOf(places, src).value;
    } else {
      ValuesSoFar(places, src, i + 1);
      assert places[..i + 1][..i] == places[..i];
      var values := ValuesOf(places, src).value;
      assert values[..i + 1][..i] == values[..i];
      assert values[..i + 1][i] == values[i];
    }
  }

  lemma {:induction false} ValuesSnoc(places: seq<Placement>, src: Sources, i: nat)
    requires i < |places|
    ensures
      var before, v := ValuesOf(places[..i], src), ValueOf(places[i], src);
      ValuesOf(places[..i + 1], src) == if before.Refused? || v.Refused? then Refused else Ok(before.value + [v.value])
  {
    assert places[..i + 1][..i] == places[..i];
  }

  // ----- what a refusal on the way says about the whole -----

  lemma {:induction false} GreatestBounds(ns: seq<nat>, limit: nat)
    ensures Greatest(ns) <= limit <==> forall i :: 0 <= i < |ns| ==> ns[i] <= limit
  {
    if ns != [] {
      var n := |ns| - 1;
      GreatestBounds(ns[..n], limit);
      assert ns[..n] + [ns[n]] == ns;
    }
  }

  /** The arguments and what they come to when all of them can be read. */
  predicate Planned(t: Tree, places: seq<Placement>, list: bool) {
    Located(places) && PutAll(RootOf(list), Locations(places)) == Ok(t)
  }

  function RootOf(list: bool): Tree {
    if list then List([]) else Table([])
  }

  /** An argument that reaches too deep makes the document too deep. */
  lemma {:induction false} TooDeep(t: Tree, places: seq<Placement>, list: bool, src: Sources, i: nat)
    requires Planned(t, places, list) && i < |places|
    requires ValueOf(places[i], src).Ok? && |places[i].loc| + DepthOf(ValueOf(places[i], src).value) > MaxDepth(src)
    ensures Built(t, places, src).Refused?
  {
    hide PutAll, DepthOf, CountOf, Document, ValueOf, MaxDepth, MaxValues;
    var all := ValuesOf(places, src);
    if all.Ok? {
      ValuesSoFar(places, src, i);
      DocumentIsItsArguments(RootOf(list), Locations(places), all.value);
      var reaches := Reaches(Locations(places), Depths(all.value));
      GreatestBounds(reaches, MaxDepth(src));
      assert reaches[i] > MaxDepth(src);
    }
  }

  /** Arguments that hold too much together make the document hold too much. */
  lemma {:induction false} TooMany(t: Tree, places: seq<Placement>, list: bool, src: Sources, i: nat)
    requires Planned(t, places, list) && i <= |places|
    requires ValuesOf(places[..i], src).Ok? && Containers(t) + Sum(Counts(ValuesOf(places[..i], src).value)) > MaxValues(src)
    ensures Built(t, places, src).Refused?
  {
    hide PutAll, DepthOf, CountOf, Document, ValueOf, MaxDepth, MaxValues, Containers;
    var all := ValuesOf(places, src);
    if all.Ok? {
      ValuesSoFar(places, src, i);
      DocumentIsItsArguments(RootOf(list), Locations(places), all.value);
      assert Counts(all.value[..i]) == Counts(all.value)[..i];
      SumGrows(Counts(all.value), i);
    }
  }

  /** Arguments none of which was refused make a document that is not. */
  lemma {:induction false} NothingRefused(t: Tree, places: seq<Placement>, list: bool, src: Sources)
    requires Planned(t, places, list) && ValuesOf(places, src).Ok?
    requires forall i :: 0 <= i < |places| ==>
      |places[i].loc| + DepthOf(ValuesOf(places, src).value[i]) <= MaxDepth(src)
    requires Containers(t) + Sum(Counts(ValuesOf(places, src).value)) <= MaxValues(src)
    ensures Built(t, places, src) == Ok(Document(t, ValuesOf(places, src).value))
  {
    hide PutAll, DepthOf, CountOf, Document, ValueOf, Containers, ValuesOf;
    var values := ValuesOf(places, src).value;
    DocumentIsItsArguments(RootOf(list), Locations(places), values);
    GreatestBounds(Reaches(Locations(places), Depths(values)), MaxDepth(src));
  }

  /** No document that is built holds or nests more than it may. */
  lemma {:induction false} BuiltKeepsTheLimits(t: Tree, places: seq<Placement>, list: bool, src: Sources)
    requires Planned(t, places, list) && Built(t, places, src).Ok?
    ensures
      var doc := Built(t, places, src).value;
      && CountOf(doc) <= MaxValues(src) && DepthOf(doc) <= MaxDepth(src)
      && ValuesOf(places, src).Ok?
      && forall i :: 0 <= i < |places| ==>
        && ValueOf(places[i], src).Ok?
        && ValueAt(doc, Paths(RootOf(list), Locations(places))[i]) == Some(ValueOf(places[i], src).value)
  {
    hide PutAll, DepthOf, CountOf, Document, ValueOf, MaxDepth, MaxValues, Paths, ValueAt;
    var values := ValuesOf(places, src).value;
    DocumentIsItsArguments(RootOf(list), Locations(places), values);
    forall i | 0 <= i < |places| ensures ValueOf(places[i], src) == Ok(values[i]) {
      ValuesSoFar(places, src, i);
    }
  }

  lemma {:induction false} ReadingFailed(t: Tree, places: seq<Placement>, src: Sources, i: nat)
    requires i < |places| && ValueOf(places[i], src).Refused?
    ensures Built(t, places, src).Refused?
  {
    hide ValueOf;
    if ValuesOf(places, src).Ok? {
      ValuesSoFar(places, src, i);
    }
  }

  lemma {:induction false} CountsSnoc(values: seq<Json>, v: Json)
    ensures Sum(Counts(values + [v])) == Sum(Counts(values)) + CountOf(v)
  {
    assert Counts(values + [v])[..|values|] == Counts(values);
  }

  // ----- plans whose record comes later -----

  /** At most one argument reads standard input (oneStdin). */
  predicate OneStdin(places: seq<Placement>) {
    forall i, j :: 0 <= i < j < |places| ==> !(ReadsStdin(places[i]) && ReadsStdin(places[j]))
  }

  /** The values read once, and where the record goes (Fixed). */
  datatype Template = Template(values: seq<Json>, slot: Option<nat>, counted: nat, max: nat, depth: nat)

  predicate SlotFits(values: seq<Json>, slot: Option<nat>) {
    slot.Some? ==> slot.value < |values| && values[slot.value] == Null
  }

  function Filled(values: seq<Json>, slot: Option<nat>, v: Json): (all: seq<Json>)
    requires SlotFits(values, slot)
    ensures |all| == |values|
  {
    if slot.Some? then values[slot.value := v] else values
  }

  /** How many values an empty slot stands in for. */
  function Empty(slot: Option<nat>): nat {
    if slot.Some? then 1 else 0
  }

  lemma {:induction false} FilledCounts(values: seq<Json>, slot: Option<nat>, v: Json)
    requires SlotFits(values, slot)
    ensures Sum(Counts(Filled(values, slot, v))) == Sum(Counts(values)) - Empty(slot) + if slot.Some? then CountOf(v) else 0
    ensures slot.Some? ==> Sum(Counts(values)) >= 1
    ensures CountOf(v) >= 1
  {
    if slot.Some? {
      var counts := Counts(values);
      assert CountsInside(Null) == [];
      assert Counts(Filled(values, slot, v)) == counts[slot.value := CountOf(v)];
      SumUpdate(counts, slot.value, CountOf(v));
      SumUpdate(counts, slot.value, 0);
    }
  }

  /** The template holds what every record's document holds besides its record, and that is within the limits. */
  ghost predicate Prepared(f: Template, t: Tree, places: seq<Placement>, src: Sources) {
    && SlotFits(f.values, f.slot) && |f.values| == |places|
    && f.max == MaxValues(src) && f.depth == MaxDepth(src)
    && (forall v :: ValuesOf(places, WithStdin(src, v)) == Ok(Filled(f.values, f.slot, v)))
    && (forall i :: 0 <= i < |places| && f.slot != Some(i) ==> |places[i].loc| + DepthOf(f.values[i]) <= f.depth)
    && f.counted == Containers(t) + Sum(Counts(f.values)) - Empty(f.slot)
    && (f.slot.None? ==> f.counted <= f.max)
  }

  lemma {:induction false} StdinAside(pl: Placement, src: Sources, v: Json)
    ensures ValueOf(pl, WithStdin(src, v)) == if ReadsStdin(pl) then Ok(v) else ValueOf(pl, src)
    ensures MaxValues(WithStdin(src, v)) == MaxValues(src) && MaxDepth(WithStdin(src, v)) == MaxDepth(src)
  {
  }

  /** The values of the first i arguments are these, whatever the record that goes into the slot. */
  ghost predicate Unrecorded(places: seq<Placement>, src: Sources, i: nat, values: seq<Json>, slot: Option<nat>)
    requires i <= |places|
  {
    && SlotFits(values, slot) && |values| == i
    && (slot.Some? ==> ReadsStdin(places[slot.value]))
    && forall v :: ValuesOf(places[..i], WithStdin(src, v)) == Ok(Filled(values, slot, v))
  }

  lemma {:induction false} NoneFilled(places: seq<Placement>, src: Sources)
    ensures Unrecorded(places, src, 0, [], None)
  {
    assert places[..0] == [];
  }

  lemma {:induction false} EnoughPrepared(t: Tree, places: seq<Placement>, src: Sources, values: seq<Json>, slot: Option<nat>, counted: nat)
    requires Unrecorded(places, src, |places|, values, slot)
    requires counted == Containers(t) + Sum(Counts(values)) - Empty(slot) && (slot.None? ==> counted <= MaxValues(src))
    requires forall j :: 0 <= j < |places| && slot != Some(j) ==> |places[j].loc| + DepthOf(values[j]) <= MaxDepth(src)
    ensures Prepared(Template(values, slot, counted, MaxValues(src), MaxDepth(src)), t, places, src)
  {
    hide ValuesOf, Filled, DepthOf, Containers, Sum, Counts, MaxDepth, MaxValues, WithStdin;
    assert places[..|places|] == places;
  }

  lemma {:induction false} TooManyAnyway(t: Tree, places: seq<Placement>, list: bool, src: Sources, i: nat, values: seq<Json>,
                                         slot: Option<nat>, v: Json)
    requires Planned(t, places, list) && i <= |places| && Unrecorded(places, src, i, values, slot)
    requires Containers(t) + Sum(Counts(values)) - Empty(slot) > MaxValues(src)
    ensures Built(t, places, WithStdin(src, v)).Refused?
  {
    hide ValuesOf, DepthOf, Containers, Sum, Counts, MaxDepth, MaxValues, WithStdin, Built, Planned, Filled;
    LimitsAside(src, v);
    FilledCounts(values, slot, v);
    TooMany(t, places, list, WithStdin(src, v), i);
  }

  lemma {:induction false} LimitsAside(src: Sources, v: Json)
    ensures MaxValues(WithStdin(src, v)) == MaxValues(src) && MaxDepth(WithStdin(src, v)) == MaxDepth(src)
  {
  }

  lemma {:induction false} NoCounts()
    ensures Sum([]) == 0 && Counts([]) == []
  {
  }

  /** The step over the argument that reads standard input. */
  lemma {:induction false} SkipSlot(places: seq<Placement>, src: Sources, i: nat, values: seq<Json>, slot: Option<nat>)
    requires OneStdin(places) && i < |places| && ReadsStdin(places[i]) && Unrecorded(places, src, i, values, slot)
    ensures slot.None? && Unrecorded(places, src, i + 1, values + [Null], Some(i))
    ensures Sum(Counts(values + [Null])) == Sum(Counts(values)) + 1
  {
    hide ValueOf, WithStdin, Sum, Counts, ValuesOf;
    forall v ensures ValuesOf(places[..i + 1], WithStdin(src, v)) == Ok(Filled(values + [Null], Some(i), v)) {
      StdinAside(places[i], src, v);
      ValuesSnoc(places, WithStdin(src, v), i);
      assert (values + [Null])[i := v] == values + [v];
    }
    CountsSnoc(values, Null);
    assert CountsInside(Null) == [] && CountOf(Null) == 1 + Sum([]);
    NoCounts();
  }

  /** The step over an argument that reads something else. */
  lemma {:induction false} FillSlot(places: seq<Placement>, src: Sources, i: nat, values: seq<Json>, slot: Option<nat>, read: Json)
    requires i < |places| && !ReadsStdin(places[i]) && ValueOf(places[i], src) == Ok(read)
    requires Unrecorded(places, src, i, values, slot)
    ensures Unrecorded(places, src, i + 1, values + [read], slot)
  {
    hide ValueOf, WithStdin, ValuesOf;
    forall v ensures ValuesOf(places[..i + 1], WithStdin(src, v)) == Ok(Filled(values + [read], slot, v)) {
      StdinAside(places[i], src, v);
      ValuesSnoc(places, WithStdin(src, v), i);
      assert Filled(values + [read], slot, v) == Filled(values, slot, v) + [read];
    }
  }

  /** The containers around a value and those it holds together stay within the limit (checkDepth). */
  method CheckDepth(pl: Placement, v: Json, limit: nat) returns (fits: bool)
    ensures fits <==> |pl.loc| + DepthOf(v) <= limit
  {
    hide DepthOf;
    var outside := |pl.loc|;
    if outside > limit {
      return false;
    }
    var depth := ValueDepth(v, limit - outside);
    fits := depth <= limit - outside;
  }

  /** The values of the arguments, each checked against the limits as it is read (the loop of Build). */
  method ReadValues(places: seq<Placement>, src: Sources, containers: nat, ghost t: Tree, ghost list: bool)
    returns (r: Outcome<seq<Json>>)
    requires Planned(t, places, list) && containers == Containers(t)
    ensures if r.Ok? then r == ValuesOf(places, src) && Built(t, places, src) == Ok(Document(t, r.value)) else Built(t, places, src).Refused?
  {
    hide Built, Document, DepthOf, CountOf, Containers, ValueOf, MaxValues, MaxDepth, PutAll, Counts, Sum, Planned;
    var values, n := [], containers;
    NoCounts();
    EmptyPlan(t, places, list);
    assert places[..0] == [];
    for i := 0 to |places|
      invariant ValuesOf(places[..i], src) == Ok(values)
      invariant n == containers + Sum(Counts(values)) && (i > 0 ==> n <= MaxValues(src))
      invariant forall j :: 0 <= j < i ==> |places[j].loc| + DepthOf(values[j]) <= MaxDepth(src)
    {
      var v := ValueOf(places[i], src);
      if v.Refused? {
        ReadingFailed(t, places, src, i);
        return Refused;
      }
      var fits := CheckDepth(places[i], v.value, MaxDepth(src));
      if !fits {
        TooDeep(t, places, list, src, i);
        return Refused;
      }
      ValuesSnoc(places, src, i);
      CountsSnoc(values, v.value);
      values := values + [v.value];
      var more := CountValues(v.value, MaxValues(src));
      n := n + more;
      if n > MaxValues(src) {
        TooMany(t, places, list, src, i + 1);
        return Refused;
      }
    }
    assert places[..|places|] == places;
    NothingRefused(t, places, list, src);
    r := Ok(values);
  }

  lemma {:induction false} EmptyPlan(t: Tree, places: seq<Placement>, list: bool)
    requires Planned(t, places, list)
    ensures places == [] ==> Containers(t) == 1
  {
    OpenedIsEmpty(Append, [], 0);
    OpenedIsEmpty(Named("", false), [], 0);
  }

  /** The same, leaving standard input unread (the loop of Fixed). */
  method ReadFixed(places: seq<Placement>, src: Sources, containers: nat, ghost t: Tree, ghost list: bool)
    returns (r: Outcome<Template>)
    requires Planned(t, places, list) && OneStdin(places) && containers == Containers(t)
    ensures r.Ok? ==> Prepared(r.value, t, places, src)
    ensures r.Refused? ==> forall v :: Built(t, places, WithStdin(src, v)).Refused?
  {
    hide Built, Document, DepthOf, CountOf, Containers, ValueOf, MaxValues, MaxDepth, PutAll, Counts, Sum, Planned, WithStdin, ReadsStdin, OneStdin, ValuesOf, Filled, SlotFits, Unrecorded;
    var values: seq<Json>, slot: Option<nat> := [], None;
    var counted: int := containers;
    NoCounts();
    EmptyPlan(t, places, list);
    NoneFilled(places, src);
    for i := 0 to |places|
      invariant |values| == i && counted >= 0 && Unrecorded(places, src, i, values, slot)
      invariant counted == containers + Sum(Counts(values)) - Empty(slot)
      invariant i > 0 && slot.None? ==> counted <= MaxValues(src)
      invariant forall j :: 0 <= j < i && slot != Some(j) ==> |places[j].loc| + DepthOf(values[j]) <= MaxDepth(src)
    {
      if ReadsStdin(places[i]) {
        SkipSlot(places, src, i, values, slot);
        slot := Some(i);
        values := values + [Null];
        continue;
      }
      var read := ValueOf(places[i], src);
      if read.Refused? {
        forall v ensures Built(t, places, WithStdin(src, v)).Refused? {
          StdinAside(places[i], src, v);
          ReadingFailed(t, places, WithStdin(src, v), i);
        }
        return Refused;
      }
      var fits := CheckDepth(places[i], read.value, MaxDepth(src));
      if !fits {
        forall v ensures Built(t, places, WithStdin(src, v)).Refused? {
          StdinAside(places[i], src, v);
          TooDeep(t, places, list, WithStdin(src, v), i);
        }
        return Refused;
      }
      FillSlot(places, src, i, values, slot, read.value);
      CountsSnoc(values, read.value);
      values := values + [read.value];
      var more := CountValues(read.value, MaxValues(src));
      counted := counted + more;
      if counted > MaxValues(src) {
        forall v ensures Built(t, places, WithStdin(src, v)).Refused? {
          TooManyAnyway(t, places, list, src, i + 1, values, slot, v);
        }
        return Refused;
      }
    }
    EnoughPrepared(t, places, src, values, slot, counted);
    r := Ok(Template(values, slot, counted, MaxValues(src), MaxDepth(src)));
  }
}
