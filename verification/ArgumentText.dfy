/**
 What can be written as an argument (internal/jsonbuild/jsonbuild.go, parseArg, split, splitElement, operand, location):
 each way to write a location and a value reads back as that location and value, exactly when they can be written so.
 */
module ArgumentText {
  import opened Lines
  import opened Texts
  import opened Json
  import opened Plans
  import opened Documents
  import opened Builds
  import opened Arguments

  // ----- writing -----

  /** A value as it is written behind a location: its text, its JSON, or a file read as text or as data. */
  datatype Written = AsText(text: string) | AsJson(text: string) | FromText(path: string) | FromData(path: string)

  function ValueText(w: Written): string {
    match w
    case AsText(t) => "=" + t
    case AsJson(t) => ":=" + t
    case FromText(path) => "=@" + path
    case FromData(path) => ":=@" + path
  }

  /** The value is written with ":=". */
  predicate Typed(w: Written) {
    w.AsJson? || w.FromData?
  }

  /** What is written: the value where it is JSON at all. */
  function SourceOf(w: Written, readJson: string -> Outcome<Json>): Source
    requires w.AsJson? ==> readJson(w.text).Ok?
  {
    match w
    case AsText(t) => Given(Str(t))
    case AsJson(t) => Given(readJson(t).value)
    case FromText(path) => File(FileText, path)
    case FromData(path) => File(FileData, path)
  }

  /** A text or a JSON that opens with @ would be a file, and a file has to have a path. */
  predicate CanStand(w: Written) {
    match w
    case AsText(t) => t == "" || t[0] != '@'
    case AsJson(t) => t == "" || t[0] != '@'
    case _ => w.path != ""
  }

  function KeyAt(key: string, appends: bool): (loc: seq<Token>)
    ensures loc != []
  {
    [Named(key, false)] + if appends then [Append] else []
  }

  function KeyText(key: string, appends: bool): string {
    key + if appends then "[]" else ""
  }

  /** A key that is not empty, has no "=" in it and does not end in "[]". */
  predicate PlainKey(key: string) {
    key != "" && '=' !in key && !EndsWith(key, "[]")
  }

  /** The operator is told from what stands before it. */
  predicate Apart(before: string, w: Written) {
    '=' !in before && (Typed(w) || !EndsWith(before, ":"))
  }

  // ----- cutting at the operator -----

  lemma {:induction false} CutAt(left: string, value: string)
    requires '=' !in left
    ensures IndexOf(left + "=" + value, '=') == |left|
    ensures (left + "=" + value)[..|left|] == left && (left + "=" + value)[|left| + 1..] == value
  {
    var s := left + "=" + value;
    var i := IndexOf(s, '=');
    assert s[|left|] == '=';
    assert forall k :: 0 <= k < |left| ==> s[k] == left[k] && left[k] in left;
    assert s[..|left|] == left && s[|left| + 1..] == value;
  }

  /** Where "=" stands in what is written before the operator, it is cut there. */
  lemma {:induction false} CutBefore(before: string, rest: string)
    requires '=' in before
    ensures IndexOf(before + rest, '=') < |before|
    ensures (before + rest)[..IndexOf(before + rest, '=')] < before
  {
    var s := before + rest;
    var k :| 0 <= k < |before| && before[k] == '=';
    assert s[k] == '=';
    var i := IndexOf(s, '=');
    assert s[..i] == before[..i];
  }

  lemma {:induction false} WithoutColon(left: string)
    ensures Without(left + ":", ":") == left && EndsWith(left + ":", ":")
    ensures !EndsWith(left, ":") ==> Without(left, ":") == left
    ensures EndsWith(left, ":") ==> |Without(left, ":")| < |left|
  {
    assert (left + ":")[|left|..] == ":" && (left + ":")[..|left|] == left;
  }

  /** What the operand of a written value is. */
  lemma {:induction false} OperandOf(w: Written, readJson: string -> Outcome<Json>)
    requires w.AsJson? ==> readJson(w.text).Ok?
    ensures
      var text := match w case AsText(t) => t case AsJson(t) => t case _ => "@" + w.path;
      && ValueText(w) == (if Typed(w) then ":=" else "=") + text
      && (Operand(text, Typed(w), readJson) == Ok(SourceOf(w, readJson)) <==> CanStand(w))
  {
    match w
    case AsText(t) =>
    case AsJson(t) =>
      assert ":=" + t == ":=" + t;
    case FromText(path) =>
      assert "=@" + path == "=" + ("@" + path) && ("@" + path)[1..] == path;
    case FromData(path) =>
      assert ":=@" + path == ":=" + ("@" + path) && ("@" + path)[1..] == path;
  }

  // ----- an argument of an object -----

  /** What a plain argument is cut into. */
  function PlainOf(left: string, value: string, readJson: string -> Outcome<Json>): Outcome<Placement> {
    var loc :- KeyLocation(Without(left, ":"));
    var source :- Operand(value, EndsWith(left, ":"), readJson);
    Ok(Placement(loc, source))
  }

  lemma {:induction false} PlainIs(text: string, readJson: string -> Outcome<Json>)
    ensures
      var i := IndexOf(text, '=');
      ParseArg(Arg(Plain, text), false, readJson) == if i == |text| then Refused else PlainOf(text[..i], text[i + 1..], readJson)
  {
    hide Pointer, Operand, EndsWith, KeyLocation, KeyOrPointer, Without, StartsWith;
  }

  lemma {:induction false} KeyReadsBack(key: string, appends: bool)
    ensures KeyLocation(KeyText(key, appends)) == Ok(KeyAt(key, appends)) <==> key != "" && !EndsWith(key, "[]")
  {
    var text := KeyText(key, appends);
    if appends {
      assert text[|key|..] == "[]" && text[..|key|] == key;
    } else {
      assert text == key;
    }
  }

  /** No shorter text names the key. */
  lemma {:induction false} ShorterIsAnother(text: string, key: string, appends: bool)
    requires |text| < |KeyText(key, appends)|
    ensures KeyLocation(text) != Ok(KeyAt(key, appends))
  {
    NamedBy(text);
    assert KeyAt(key, appends)[0].name == key && |KeyAt(key, appends)| == if appends then 2 else 1;
    hide KeyLocation, KeyAt;
  }

  lemma {:induction false} NamedBy(text: string)
    ensures KeyLocation(text).Ok? ==>
      var loc := KeyLocation(text).value;
      && loc[0].Named? && |loc| == (if EndsWith(text, "[]") then 2 else 1)
      && |text| == |loc[0].name| + if EndsWith(text, "[]") then 2 else 0
  {
  }

  lemma {:induction false} ShorterIsPlacedElsewhere(left: string, value: string, key: string, appends: bool, readJson: string -> Outcome<Json>)
    requires |Without(left, ":")| < |KeyText(key, appends)|
    ensures
      var read := PlainOf(left, value, readJson);
      read.Ok? ==> read.value.loc != KeyAt(key, appends)
  {
    hide KeyLocation, Operand, EndsWith, Without, KeyText, KeyAt;
    ShorterIsAnother(Without(left, ":"), key, appends);
  }

  /** KEY=TEXT, KEY:=JSON, KEY=@PATH and KEY:=@PATH, with or without [] behind the key: such an argument is that
      location and value exactly when the key is a plain one, the operator can be told from it, and the value is no
      file by its first character. */
  lemma {:induction false} PlainReadsBack(key: string, appends: bool, w: Written, readJson: string -> Outcome<Json>)
    requires w.AsJson? ==> readJson(w.text).Ok?
    ensures
      ParseArg(Arg(Plain, KeyText(key, appends) + ValueText(w)), false, readJson)
        == Ok(Placement(KeyAt(key, appends), SourceOf(w, readJson)))
      <==> PlainKey(key) && (appends || Typed(w) || !EndsWith(key, ":")) && CanStand(w)
  {
    hide KeyLocation, Operand, SourceOf, CanStand, ParseArg, EndsWith, Without, KeyText, KeyAt, ValueText, IndexOf, PlainOf, Typed;
    var before := KeyText(key, appends);
    var all := before + ValueText(w);
    PlainIs(all, readJson);
    SameEquals(key, appends);
    if '=' in before {
      CutBefore(before, ValueText(w));
      var i := IndexOf(all, '=');
      WithoutIsNoLonger(all[..i]);
      ShorterIsPlacedElsewhere(all[..i], all[i + 1..], key, appends, readJson);
    } else {
      CutWritten(before, w, readJson);
      var i := IndexOf(all, '=');
      if !Typed(w) && EndsWith(before, ":") {
        WithoutColon(before);
        ShorterIsPlacedElsewhere(all[..i], all[i + 1..], key, appends, readJson);
      } else {
        KeyReadsBack(key, appends);
        PlainOfKey(all[..i], all[i + 1..], key, appends, w, readJson);
      }
    }
  }

  lemma {:induction false} PlainOfKey(left: string, value: string, key: string, appends: bool, w: Written, readJson: string -> Outcome<Json>)
    requires w.AsJson? ==> readJson(w.text).Ok?
    requires Without(left, ":") == KeyText(key, appends)
    requires Operand(value, EndsWith(left, ":"), readJson) == Ok(SourceOf(w, readJson)) <==> CanStand(w)
    ensures
      PlainOf(left, value, readJson) == Ok(Placement(KeyAt(key, appends), SourceOf(w, readJson)))
      <==> key != "" && !EndsWith(key, "[]") && CanStand(w)
  {
    hide KeyLocation, Operand, SourceOf, CanStand, EndsWith, Without, KeyText, KeyAt;
    KeyReadsBack(key, appends);
  }

  /** What is written is cut at the operator: what stands before it, less the colon of ":=", and the operand. */
  lemma {:induction false} CutWritten(before: string, w: Written, readJson: string -> Outcome<Json>)
    requires '=' !in before && (w.AsJson? ==> readJson(w.text).Ok?)
    ensures
      var all := before + ValueText(w);
      var i := IndexOf(all, '=');
      && i < |all|
      && all[..i] == (if Typed(w) then before + ":" else before)
      && Without(all[..i], ":") == (if Typed(w) then before else Without(before, ":"))
      && EndsWith(all[..i], ":") == (Typed(w) || EndsWith(before, ":"))
      && (Typed(w) || !EndsWith(before, ":") ==>
            (Operand(all[i + 1..], EndsWith(all[..i], ":"), readJson) == Ok(SourceOf(w, readJson)) <==> CanStand(w)))
      && (!Typed(w) && !EndsWith(before, ":") ==> Without(before, ":") == before)
  {
    hide Operand, SourceOf, CanStand, EndsWith, Without, ValueText, IndexOf, Typed;
    var value := match w case AsText(t) => t case AsJson(t) => t case _ => "@" + w.path;
    OperandOf(w, readJson);
    WithoutColon(before);
    var left := if Typed(w) then before + ":" else before;
    Regrouped(before, Typed(w), value);
    ColonIsNoEquals(before);
    CutAt(left, value);
  }

  lemma {:induction false} Regrouped(before: string, typed: bool, value: string)
    ensures before + ((if typed then ":=" else "=") + value) == (if typed then before + ":" else before) + "=" + value
  {
    assert ":=" + value == ":" + ("=" + value);
    assert before + (":" + ("=" + value)) == (before + ":") + ("=" + value);
  }

  lemma {:induction false} ColonIsNoEquals(before: string)
    ensures '=' in before + ":" ==> '=' in before
  {
  }

  lemma {:induction false} WithoutIsNoLonger(left: string)
    ensures |Without(left, ":")| <= |left|
  {
  }

  lemma {:induction false} SameEquals(key: string, appends: bool)
    ensures '=' in KeyText(key, appends) <==> '=' in key
    ensures EndsWith(KeyText(key, appends), ":") <==> !appends && EndsWith(key, ":")
  {
    var text := KeyText(key, appends);
    assert forall i :: 0 <= i < |key| ==> text[i] == key[i];
    if appends {
      assert text[|key|] == '[' && text[|key| + 1] == ']';
      assert text[|text| - 1..] == "]";
    }
  }

  // ----- an argument of a list -----

  /** An element written with an operator is that value exactly when it is no file by its first character. */
  lemma {:induction false} ElementReadsBack(w: Written, readJson: string -> Outcome<Json>)
    requires w.AsJson? ==> readJson(w.text).Ok?
    ensures ParseArg(Arg(Plain, ValueText(w)), true, readJson) == Ok(Placement([Append], SourceOf(w, readJson))) <==> CanStand(w)
  {
    hide Operand, SourceOf, CanStand;
    OperandOf(w, readJson);
    var value := match w case AsText(t) => t case AsJson(t) => t case _ => "@" + w.path;
    if Typed(w) {
      assert (":=" + value)[..2] == ":=" && (":=" + value)[2..] == value;
    } else {
      assert ("=" + value)[0] == '=' && ("=" + value)[1..] == value;
    }
  }

  /** An element that opens with no operator is the text it is, whatever it holds. */
  lemma {:induction false} BareElementReadsBack(text: string, readJson: string -> Outcome<Json>)
    requires !StartsWith(text, ":=")
    ensures ParseArg(Arg(Plain, text), true, readJson) == Ok(Placement([Append], Given(Str(text)))) <==> !StartsWith(text, "=")
  {
  }

  // ----- --path -----

  function PathArgOf(left: string, value: string, readJson: string -> Outcome<Json>): Outcome<Placement> {
    var ptr := Without(left, ":");
    if !StartsWith(ptr, "/") then Refused
    else
      var loc :- Pointer(ptr);
      var source :- Operand(value, EndsWith(left, ":"), readJson);
      Ok(Placement(loc, source))
  }

  lemma {:induction false} PathArgIs(text: string, list: bool, readJson: string -> Outcome<Json>)
    ensures
      var i := IndexOf(text, '=');
      ParseArg(Arg(PathForm, text), list, readJson) == if i == |text| then Refused else PathArgOf(text[..i], text[i + 1..], readJson)
  {
    hide Pointer, Operand, EndsWith, KeyLocation, KeyOrPointer, Without, StartsWith;
  }

  predicate AllWritable(loc: seq<Token>) {
    forall i :: 0 <= i < |loc| ==> Writable(loc[i])
  }

  lemma {:induction false} RenderedReadsBack(loc: seq<Token>)
    requires loc != []
    ensures StartsWith(Render(loc), "/") && (Pointer(Render(loc)) == Ok(loc) <==> AllWritable(loc))
  {
    hide Render, Pointer, Writable;
    RenderReadsBack(loc);
  }

  /** No other pointer names a location. */
  lemma {:induction false} OtherPointer(ptr: string, loc: seq<Token>)
    requires loc != [] && StartsWith(ptr, "/") && ptr != Render(loc)
    ensures Pointer(ptr) != Ok(loc)
  {
    hide Pointer, Render;
    if Pointer(ptr) == Ok(loc) {
      PointerIsRendered(ptr);
    }
  }

  /** --path with a JSON Pointer and any of the operators, in an object or a list: such an argument is that location and value exactly when
      a pointer can write the location, the operator can be told from it, and the value is no file by its first
      character. */
  lemma {:induction false} PathReadsBack(loc: seq<Token>, w: Written, list: bool, readJson: string -> Outcome<Json>)
    requires loc != [] && (w.AsJson? ==> readJson(w.text).Ok?)
    ensures
      ParseArg(Arg(PathForm, Render(loc) + ValueText(w)), list, readJson) == Ok(Placement(loc, SourceOf(w, readJson)))
      <==> AllWritable(loc) && Apart(Render(loc), w) && CanStand(w)
  {
    hide Render, Pointer, Operand, SourceOf, CanStand, ParseArg, EndsWith, Without, AllWritable, ValueText, IndexOf, StartsWith;
    var before := Render(loc);
    var all := before + ValueText(w);
    PathArgIs(all, list, readJson);
    RenderedReadsBack(loc);
    if '=' in before {
      CutBefore(before, ValueText(w));
      var left := all[..IndexOf(all, '=')];
      WithoutIsNoLonger(left);
      if StartsWith(Without(left, ":"), "/") {
        OtherPointer(Without(left, ":"), loc);
      }
    } else {
      CutWritten(before, w, readJson);
      if !Typed(w) && EndsWith(before, ":") {
        WithoutColon(before);
        if StartsWith(Without(before, ":"), "/") {
          OtherPointer(Without(before, ":"), loc);
        }
      }
    }
  }

  // ----- --string and --text-file -----

  function FormOf(whole: bool): Form {
    if whole then TextFileForm else StringForm
  }

  function TextSource(text: string, whole: bool): Source {
    if whole then File(FileWhole, text) else Given(Str(text))
  }

  lemma {:induction false} TextArgIs(text: string, whole: bool, list: bool, readJson: string -> Outcome<Json>)
    ensures
      var i := IndexOf(text, '=');
      ParseArg(Arg(FormOf(whole), text), list, readJson) ==
        if i == |text| || KeyOrPointer(text[..i], list).Refused? || (whole && text[i + 1..] == "") then Refused
        else Ok(Placement(KeyOrPointer(text[..i], list).value, TextSource(text[i + 1..], whole)))
  {
    hide KeyOrPointer, Pointer, Operand, EndsWith, KeyLocation, Without, StartsWith;
  }

  /** --string KEY=TEXT and --text-file KEY=PATH: the text is taken as it is, so of the key alone it depends, which must
      not look like a pointer or like the operator that reads JSON; and a path is not empty. */
  lemma {:induction false} TextReadsBack(key: string, appends: bool, text: string, whole: bool, readJson: string -> Outcome<Json>)
    ensures
      ParseArg(Arg(FormOf(whole), KeyText(key, appends) + "=" + text), false, readJson)
        == Ok(Placement(KeyAt(key, appends), TextSource(text, whole)))
      <==> PlainKey(key) && (appends || !EndsWith(key, ":")) && key[0] != '/' && (whole ==> text != "")
  {
    hide KeyLocation, ParseArg, EndsWith, Without, Pointer, KeyOrPointer, KeyText, KeyAt, IndexOf, TextSource, FormOf;
    var before := KeyText(key, appends);
    var all := before + "=" + text;
    TextArgIs(all, whole, false, readJson);
    SameEquals(key, appends);
    assert all == before + ("=" + text);
    if '=' in before {
      CutBefore(before, "=" + text);
      ShorterIsNoKey(all[..IndexOf(all, '=')], key, appends);
    } else {
      CutAt(before, text);
      KeyOrPointerReadsBack(key, appends);
    }
  }

  lemma {:induction false} ShorterIsNoKey(left: string, key: string, appends: bool)
    requires left < KeyText(key, appends)
    ensures KeyOrPointer(left, false) != Ok(KeyAt(key, appends))
  {
    hide KeyLocation, EndsWith, Pointer, KeyText, KeyAt;
    if StartsWith(left, "/") {
      PointerIsNoKey(left, key, appends);
    } else {
      ShorterIsAnother(left, key, appends);
    }
  }

  lemma {:induction false} KeyOrPointerReadsBack(key: string, appends: bool)
    ensures
      KeyOrPointer(KeyText(key, appends), false) == Ok(KeyAt(key, appends))
      <==> key != "" && !EndsWith(key, "[]") && (appends || !EndsWith(key, ":")) && key[0] != '/'
  {
    hide KeyLocation, EndsWith, Pointer, KeyAt;
    var before := KeyText(key, appends);
    KeyReadsBack(key, appends);
    SameEquals(key, appends);
    if StartsWith(before, "/") {
      PointerIsNoKey(before, key, appends);
      assert before[0] == '/';
    } else if key != "" {
      assert before[0] == key[0];
    }
  }

  lemma {:induction false} EscapeIsNoShorter(name: string)
    ensures |Escape(name)| >= |name|
  {
    if name != "" {
      EscapeIsNoShorter(name[1..]);
    }
  }

  /** A pointer is longer than the key it names. */
  lemma {:induction false} RenderedIsLonger(key: string, appends: bool)
    ensures |Render(KeyAt(key, appends))| > |KeyText(key, appends)|
  {
    hide Escape, Slashed;
    EscapeIsNoShorter(key);
    var rest := if appends then ["-"] else [];
    assert PartsOf(KeyAt(key, appends)) == [Escape(key)] + rest;
    SlashedCons(Escape(key), rest);
    SlashedCons("-", []);
    SlashedStarts([]);
    assert ["-"] + [] == ["-"];
  }

  lemma {:induction false} PointerIsNoKey(ptr: string, key: string, appends: bool)
    requires StartsWith(ptr, "/") && ptr <= KeyText(key, appends)
    ensures Pointer(ptr) != Ok(KeyAt(key, appends))
  {
    hide Pointer, Render, KeyText, KeyAt;
    RenderedIsLonger(key, appends);
    OtherPointer(ptr, KeyAt(key, appends));
  }

  /** The same with a pointer, in an object or a list. */
  lemma {:induction false} TextAtPointerReadsBack(loc: seq<Token>, text: string, whole: bool, list: bool, readJson: string -> Outcome<Json>)
    requires loc != []
    ensures
      ParseArg(Arg(FormOf(whole), Render(loc) + "=" + text), list, readJson) == Ok(Placement(loc, TextSource(text, whole)))
      <==> AllWritable(loc) && '=' !in Render(loc) && !EndsWith(Render(loc), ":") && (whole ==> text != "")
  {
    hide Render, Pointer, ParseArg, EndsWith, AllWritable, KeyLocation;
    var before := Render(loc);
    var all := before + "=" + text;
    TextArgIs(all, whole, list, readJson);
    RenderedReadsBack(loc);
    assert all == before + ("=" + text);
    if '=' in before {
      CutBefore(before, "=" + text);
      var left := all[..IndexOf(all, '=')];
      PrefixOfPointer(left, before, all);
      OtherPointer(left, loc);
    } else {
      CutAt(before, text);
    }
  }

  lemma {:induction false} PrefixOfPointer(left: string, ptr: string, all: string)
    requires StartsWith(ptr, "/") && left < ptr <= all && left == all[..IndexOf(all, '=')]
    ensures StartsWith(left, "/")
  {
    assert all[0] == ptr[0] == '/';
    assert IndexOf(all, '=') > 0 && left[0] == '/';
  }

  /** --string =TEXT and --text-file =PATH append to a list. */
  lemma {:induction false} TextElementReadsBack(text: string, whole: bool, readJson: string -> Outcome<Json>)
    ensures
      ParseArg(Arg(FormOf(whole), "=" + text), true, readJson) == Ok(Placement([Append], TextSource(text, whole)))
      <==> (whole ==> text != "")
  {
    hide ParseArg;
    TextArgIs("=" + text, whole, true, readJson);
    assert ("=" + text)[0] == '=' && ("=" + text)[1..] == text && ("=" + text)[..0] == "";
  }

  // ----- every way to write an argument -----

  /** The ways to write an argument: behind a key with an operator or as text, behind a pointer likewise, and, in a list,
      with an operator, as it is, or as text. */
  datatype Spelling =
    | KeyWith(key: string, appends: bool, w: Written)
    | KeyAsText(key: string, appends: bool, text: string, whole: bool)
    | PointerWith(loc: seq<Token>, w: Written)
    | PointerAsText(loc: seq<Token>, text: string, whole: bool)
    | ElementWith(w: Written)
    | ElementAsText(text: string, whole: bool)
    | Bare(text: string)

  function Spelled(s: Spelling): Arg {
    match s
    case KeyWith(key, appends, w) => Arg(Plain, KeyText(key, appends) + ValueText(w))
    case KeyAsText(key, appends, text, whole) => Arg(FormOf(whole), KeyText(key, appends) + "=" + text)
    case PointerWith(loc, w) => Arg(PathForm, Render(loc) + ValueText(w))
    case PointerAsText(loc, text, whole) => Arg(FormOf(whole), Render(loc) + "=" + text)
    case ElementWith(w) => Arg(Plain, ValueText(w))
    case ElementAsText(text, whole) => Arg(FormOf(whole), "=" + text)
    case Bare(text) => Arg(Plain, text)
  }

  /** There is something to write: JSON that is JSON, a pointer to something, and a key in an object or an element in a
      list; what opens with ":=" is no bare element. */
  predicate HasMeaning(s: Spelling, list: bool, readJson: string -> Outcome<Json>) {
    && (s.KeyWith? || s.PointerWith? || s.ElementWith? ==> s.w.AsJson? ==> readJson(s.w.text).Ok?)
    && (s.PointerWith? || s.PointerAsText? ==> s.loc != [])
    && (s.KeyWith? || s.KeyAsText? ==> !list)
    && (s.ElementWith? || s.ElementAsText? || s.Bare? ==> list)
    && (s.Bare? ==> !StartsWith(s.text, ":="))
  }

  /** The location and the value that is written. */
  function Meant(s: Spelling, list: bool, readJson: string -> Outcome<Json>): (pl: Placement)
    requires HasMeaning(s, list, readJson)
    ensures pl.loc != []
  {
    match s
    case KeyWith(key, appends, w) => Placement(KeyAt(key, appends), SourceOf(w, readJson))
    case KeyAsText(key, appends, text, whole) => Placement(KeyAt(key, appends), TextSource(text, whole))
    case PointerWith(loc, w) => Placement(loc, SourceOf(w, readJson))
    case PointerAsText(loc, text, whole) => Placement(loc, TextSource(text, whole))
    case ElementWith(w) => Placement([Append], SourceOf(w, readJson))
    case ElementAsText(text, whole) => Placement([Append], TextSource(text, whole))
    case Bare(text) => Placement([Append], Given(Str(text)))
  }

  /** It can be written so. */
  predicate CanBeSpelled(s: Spelling) {
    match s
    case KeyWith(key, appends, w) => PlainKey(key) && (appends || Typed(w) || !EndsWith(key, ":")) && CanStand(w)
    case KeyAsText(key, appends, text, whole) =>
      PlainKey(key) && (appends || !EndsWith(key, ":")) && key[0] != '/' && (whole ==> text != "")
    case PointerWith(loc, w) => AllWritable(loc) && Apart(Render(loc), w) && CanStand(w)
    case PointerAsText(loc, text, whole) =>
      AllWritable(loc) && '=' !in Render(loc) && !EndsWith(Render(loc), ":") && (whole ==> text != "")
    case ElementWith(w) => CanStand(w)
    case ElementAsText(text, whole) => whole ==> text != ""
    case Bare(text) => !StartsWith(text, "=")
  }

  /** A location and a value written in any of the ways read back from the argument exactly when they can be written so. */
  lemma {:induction false} SpellingReadsBack(s: Spelling, list: bool, readJson: string -> Outcome<Json>)
    requires HasMeaning(s, list, readJson)
    ensures ParseArg(Spelled(s), list, readJson) == Ok(Meant(s, list, readJson)) <==> CanBeSpelled(s)
  {
    hide ParseArg, KeyText, ValueText, Render, KeyAt, SourceOf, TextSource, CanStand, PlainKey, AllWritable, Apart, EndsWith, FormOf,
      StartsWith;
    match s
    case KeyWith(key, appends, w) => PlainReadsBack(key, appends, w, readJson);
    case KeyAsText(key, appends, text, whole) => TextReadsBack(key, appends, text, whole, readJson);
    case PointerWith(loc, w) => PathReadsBack(loc, w, list, readJson);
    case PointerAsText(loc, text, whole) => TextAtPointerReadsBack(loc, text, whole, list, readJson);
    case ElementWith(w) => ElementReadsBack(w, readJson);
    case ElementAsText(text, whole) => TextElementReadsBack(text, whole, readJson);
    case Bare(text) => BareElementReadsBack(text, readJson);
  }

  // ----- nothing else is read -----

  /** The value that stands behind an operator. */
  function WrittenOf(value: string, json: bool): Written {
    if StartsWith(value, "@") then if json then FromData(value[1..]) else FromText(value[1..])
    else if json then AsJson(value) else AsText(value)
  }

  lemma {:induction false} OperandIsWritten(value: string, json: bool, readJson: string -> Outcome<Json>)
    requires Operand(value, json, readJson).Ok?
    ensures
      var w := WrittenOf(value, json);
      && CanStand(w) && Typed(w) == json && (w.AsJson? ==> readJson(w.text).Ok?)
      && ValueText(w) == (if json then ":=" else "=") + value
      && Operand(value, json, readJson) == Ok(SourceOf(w, readJson))
  {
    if StartsWith(value, "@") {
      assert value == "@" + value[1..];
    }
  }

  lemma {:induction false} KeyIsWritten(text: string)
    requires KeyLocation(text).Ok?
    ensures
      var key, appends := Without(text, "[]"), EndsWith(text, "[]");
      && key != "" && !EndsWith(key, "[]")
      && KeyText(key, appends) == text && KeyLocation(text) == Ok(KeyAt(key, appends))
  {
  }

  /** An argument is cut at its first "=", and a colon before it belongs to the operator. */
  lemma {:induction false} CutIsWritten(all: string)
    requires IndexOf(all, '=') < |all|
    ensures
      var i := IndexOf(all, '=');
      var left := all[..i];
      && '=' !in left && all == left + "=" + all[i + 1..]
      && left == Without(left, ":") + (if EndsWith(left, ":") then ":" else "")
      && (!EndsWith(left, ":") ==> Without(left, ":") == left)
      && '=' !in Without(left, ":")
  {
  }

  /** What is written behind a location with an operator. */
  lemma {:induction false} OperatorIsWritten(all: string, readJson: string -> Outcome<Json>)
    requires IndexOf(all, '=') < |all|
    requires Operand(all[IndexOf(all, '=') + 1..], EndsWith(all[..IndexOf(all, '=')], ":"), readJson).Ok?
    ensures
      var i := IndexOf(all, '=');
      var left := all[..i];
      var w := WrittenOf(all[i + 1..], EndsWith(left, ":"));
      && all == Without(left, ":") + ValueText(w) && Apart(Without(left, ":"), w)
      && (w.AsJson? ==> readJson(w.text).Ok?) && CanStand(w)
      && Operand(all[i + 1..], EndsWith(left, ":"), readJson) == Ok(SourceOf(w, readJson))
  {
    hide Operand, IndexOf, Without, EndsWith, ValueText, CanStand, SourceOf, WrittenOf;
    var i := IndexOf(all, '=');
    var left := all[..i];
    CutIsWritten(all);
    OperandIsWritten(all[i + 1..], EndsWith(left, ":"), readJson);
    Regrouped(Without(left, ":"), EndsWith(left, ":"), all[i + 1..]);
  }

  /** The way an argument that is read was written. */
  function SpellingOf(a: Arg, list: bool): Spelling {
    var i := IndexOf(a.text, '=');
    var left, value := a.text[..i], if i < |a.text| then a.text[i + 1..] else "";
    var before := Without(left, ":");
    if a.form.Plain? && list then
      if StartsWith(a.text, ":=") then ElementWith(WrittenOf(a.text[2..], true))
      else if StartsWith(a.text, "=") then ElementWith(WrittenOf(a.text[1..], false))
      else Bare(a.text)
    else if a.form.Plain? then
      KeyWith(Without(before, "[]"), EndsWith(before, "[]"), WrittenOf(value, EndsWith(left, ":")))
    else if a.form.PathForm? then
      PointerWith(if StartsWith(before, "/") && Pointer(before).Ok? then Pointer(before).value else [], WrittenOf(value, EndsWith(left, ":")))
    else if StartsWith(left, "/") then
      PointerAsText(if Pointer(left).Ok? then Pointer(left).value else [], value, a.form.TextFileForm?)
    else if list then ElementAsText(value, a.form.TextFileForm?)
    else KeyAsText(Without(left, "[]"), EndsWith(left, "[]"), value, a.form.TextFileForm?)
  }

  /** An argument that is read was written in one of the ways, as its location and its value. */
  ghost predicate IsSpelled(a: Arg, list: bool, readJson: string -> Outcome<Json>) {
    var s := SpellingOf(a, list);
    && HasMeaning(s, list, readJson) && CanBeSpelled(s) && a == Spelled(s)
    && ParseArg(a, list, readJson) == Ok(Meant(s, list, readJson))
  }

  lemma {:induction false} KeyIsSpelled(a: Arg, readJson: string -> Outcome<Json>)
    requires a.form.Plain? && ParseArg(a, false, readJson).Ok?
    ensures IsSpelled(a, false, readJson)
  {
    hide Operand, IndexOf, Without, EndsWith, ValueText, CanStand, SourceOf, WrittenOf, KeyLocation, KeyText, KeyAt, ParseArg, Typed, Apart;
    PlainIs(a.text, readJson);
    var i := IndexOf(a.text, '=');
    var left := a.text[..i];
    var before := Without(left, ":");
    OperatorIsWritten(a.text, readJson);
    KeyIsWritten(before);
    var key, appends := Without(before, "[]"), EndsWith(before, "[]");
    SameEquals(key, appends);
    TellsApart(before, WrittenOf(a.text[i + 1..], EndsWith(left, ":")));
  }

  lemma {:induction false} TellsApart(before: string, w: Written)
    requires Apart(before, w)
    ensures '=' !in before && (Typed(w) || !EndsWith(before, ":"))
  {
  }

  lemma {:induction false} PointerIsWritten(ptr: string)
    requires StartsWith(ptr, "/") && Pointer(ptr).Ok?
    ensures Render(Pointer(ptr).value) == ptr && AllWritable(Pointer(ptr).value)
  {
    hide Pointer, Render, AllWritable;
    PointerIsRendered(ptr);
    RenderedReadsBack(Pointer(ptr).value);
  }

  lemma {:induction false} PathIsSpelled(a: Arg, list: bool, readJson: string -> Outcome<Json>)
    requires a.form.PathForm? && ParseArg(a, list, readJson).Ok?
    ensures IsSpelled(a, list, readJson)
  {
    hide Operand, IndexOf, Without, EndsWith, ValueText, CanStand, SourceOf, WrittenOf, Pointer, Render, ParseArg, Apart, AllWritable,
      StartsWith;
    PathArgIs(a.text, list, readJson);
    var left := a.text[..IndexOf(a.text, '=')];
    OperatorIsWritten(a.text, readJson);
    PointerIsWritten(Without(left, ":"));
  }

  lemma {:induction false} TextIsSpelled(a: Arg, list: bool, readJson: string -> Outcome<Json>)
    requires (a.form.StringForm? || a.form.TextFileForm?) && ParseArg(a, list, readJson).Ok?
    ensures IsSpelled(a, list, readJson)
  {
    hide IndexOf, Without, EndsWith, Pointer, Render, ParseArg, AllWritable, KeyLocation, KeyText, KeyAt;
    var whole := a.form.TextFileForm?;
    assert a == Arg(FormOf(whole), a.text);
    TextArgIs(a.text, whole, list, readJson);
    CutIsWritten(a.text);
    var left := a.text[..IndexOf(a.text, '=')];
    if StartsWith(left, "/") {
      PointerIsWritten(left);
    } else if list {
      assert left == "";
    } else {
      KeyIsWritten(left);
      var key, appends := Without(left, "[]"), EndsWith(left, "[]");
      SameEquals(key, appends);
      KeyOrPointerReadsBack(key, appends);
    }
  }

  lemma {:induction false} ElementIsSpelled(a: Arg, readJson: string -> Outcome<Json>)
    requires a.form.Plain? && ParseArg(a, true, readJson).Ok?
    ensures IsSpelled(a, true, readJson)
  {
    hide Operand, IndexOf, WrittenOf, CanStand, SourceOf, ValueText;
    if StartsWith(a.text, ":=") {
      OperandIsWritten(a.text[2..], true, readJson);
      assert a.text == ":=" + a.text[2..];
    } else if StartsWith(a.text, "=") {
      OperandIsWritten(a.text[1..], false, readJson);
      assert a.text == "=" + a.text[1..];
    }
  }

  /** Nothing else is read: an argument is accepted exactly when it is written in one of the ways. */
  lemma {:induction false} AcceptedIsSpelled(a: Arg, list: bool, readJson: string -> Outcome<Json>)
    ensures ParseArg(a, list, readJson).Ok? <==> exists s :: HasMeaning(s, list, readJson) && CanBeSpelled(s) && a == Spelled(s)
  {
    hide ParseArg, HasMeaning, CanBeSpelled, Spelled, Meant;
    if ParseArg(a, list, readJson).Ok? {
      match a.form
      case Plain => if list { ElementIsSpelled(a, readJson); } else { KeyIsSpelled(a, readJson); }
      case PathForm => PathIsSpelled(a, list, readJson);
      case _ => TextIsSpelled(a, list, readJson);
    } else {
      forall s | HasMeaning(s, list, readJson) && CanBeSpelled(s) ensures a != Spelled(s) {
        SpellingReadsBack(s, list, readJson);
      }
    }
  }

  // ----- arguments in their order -----

  /** Some of the arguments is written this way. */
  ghost predicate Writes(args: seq<Arg>, k: nat, s: Spelling, list: bool, readJson: string -> Outcome<Json>) {
    k < |args| && args[k] == Spelled(s) && HasMeaning(s, list, readJson) && CanBeSpelled(s)
  }

  /** Arguments are read one by one. */
  lemma {:induction false} EachIsRead(args: seq<Arg>, list: bool, readJson: string -> Outcome<Json>, k: nat)
    requires k < |args| && ParseArgs(args, list, readJson).Ok?
    ensures ParseArg(args[k], list, readJson) == Ok(ParseArgs(args, list, readJson).value[k])
  {
    hide ParseArg;
    var n := |args| - 1;
    if k < n {
      EachIsRead(args[..n], list, readJson, k);
    }
  }

  /** What is written is what the placements say. */
  ghost predicate SayWhatIsWritten(args: seq<Arg>, list: bool, readJson: string -> Outcome<Json>, places: seq<Placement>) {
    && |places| == |args|
    && forall k: nat, s: Spelling :: Writes(args, k, s, list, readJson) ==> places[k] == Meant(s, list, readJson)
  }

  lemma {:induction false} WrittenIsPlaced(args: seq<Arg>, list: bool, readJson: string -> Outcome<Json>)
    requires ParseArgs(args, list, readJson).Ok?
    ensures SayWhatIsWritten(args, list, readJson, ParseArgs(args, list, readJson).value)
  {
    hide ParseArg, ParseArgs, HasMeaning, Meant, Spelled, CanBeSpelled;
    var places := ParseArgs(args, list, readJson).value;
    forall k: nat, s | Writes(args, k, s, list, readJson) ensures places[k] == Meant(s, list, readJson) {
      EachIsRead(args, list, readJson, k);
      SpellingReadsBack(s, list, readJson);
    }
  }

  // ----- in the document -----

  /** A name leads to a key, or to an element if it is an index; appending leads to an element. */
  predicate Leads(token: Token, s: Step) {
    match token
    case Append => s.Index?
    case Named(name, index) => s == Key(name) || (index && s == Index(Decimal(name)))
  }

  predicate Follows(p: seq<Step>, loc: seq<Token>) {
    |p| == |loc| && forall i :: 0 <= i < |p| ==> Leads(loc[i], p[i])
  }

  lemma {:induction false} FollowsOn(s: Step, p: seq<Step>, token: Token, loc: seq<Token>)
    requires Leads(token, s) && Follows(p, loc)
    ensures Follows([s] + p, [token] + loc)
  {
    hide Leads;
  }

  lemma {:induction false} PlacedWhereItLeads(t: Tree, loc: seq<Token>, k: nat)
    requires loc != [] && Put(t, loc, k).Ok?
    ensures Follows(PathOf(t, loc), loc)
    decreases |loc|
  {
    hide Put, Fresh, Enters, Child, StepOf, Follows;
    var s := StepOf(t, loc[0]);
    PutSteps(t, loc, k);
    FirstLeads(t, loc, k);
    assert loc == [loc[0]] + loc[1..];
    if |loc| == 1 {
      assert PathOf(t, loc) == [s] + [] && loc[1..] == [];
      FollowsOn(s, [], loc[0], []) by { NothingFollows(); }
    } else {
      var next := if Enters(t, s) then Child(t, s) else Opened(loc[1]);
      if !Enters(t, s) {
        FreshPuts(loc, k);
      }
      PlacedWhereItLeads(next, loc[1..], k);
      FollowsOn(s, PathOf(next, loc[1..]), loc[0], loc[1..]);
    }
  }

  lemma {:induction false} NothingFollows()
    ensures Follows([], [])
  {
  }

  lemma {:induction false} FirstLeads(t: Tree, loc: seq<Token>, k: nat)
    requires loc != [] && Put(t, loc, k).Ok?
    ensures Leads(loc[0], StepOf(t, loc[0]))
  {
    hide Fresh;
  }

  /** A value stands in the document where the location leads. */
  ghost predicate StandsAt(doc: Json, loc: seq<Token>, v: Json) {
    exists p :: Follows(p, loc) && ValueAt(doc, p) == Some(v)
  }

  /** Every argument that is written in one of the ways has its value in the document where it was written to. */
  ghost predicate HoldsWhatIsWritten(doc: Json, args: seq<Arg>, list: bool, readJson: string -> Outcome<Json>, src: Sources) {
    forall k: nat, s: Spelling :: Writes(args, k, s, list, readJson) ==>
      var pl := Meant(s, list, readJson);
      ValueOf(pl, src).Ok? && StandsAt(doc, pl.loc, ValueOf(pl, src).value)
  }

  lemma {:induction false} PathsAt(root: Tree, locs: seq<seq<Token>>, k: nat)
    requires forall i :: 0 <= i < |locs| ==> locs[i] != []
    requires PutAll(root, locs).Ok? && k < |locs|
    ensures PutAll(root, locs[..k]).Ok? && Put(PutAll(root, locs[..k]).value, locs[k], k).Ok?
    ensures Paths(root, locs)[k] == PathOf(PutAll(root, locs[..k]).value, locs[k])
    decreases |locs|
  {
    hide Put, PathOf;
    var n := |locs| - 1;
    if k < n {
      PathsAt(root, locs[..n], k);
      assert locs[..n][..k] == locs[..k];
    }
  }

  /** The built document has what is written where it is written to. */
  lemma {:induction false} WrittenStands(args: seq<Arg>, list: bool, readJson: string -> Outcome<Json>, t: Tree, places: seq<Placement>,
                                         src: Sources)
    requires ParseArgs(args, list, readJson) == Ok(places) && Planned(t, places, list) && Built(t, places, src).Ok?
    ensures HoldsWhatIsWritten(Built(t, places, src).value, args, list, readJson, src)
  {
    hide ParseArg, ParseArgs, Built, HasMeaning, Meant, Spelled, CanBeSpelled, ValueOf, ValueAt, Follows, PutAll, Paths;
    var doc := Built(t, places, src).value;
    BuiltKeepsTheLimits(t, places, list, src);
    WrittenIsPlaced(args, list, readJson);
    forall k: nat, s | Writes(args, k, s, list, readJson)
      ensures
        var pl := Meant(s, list, readJson);
        ValueOf(pl, src).Ok? && StandsAt(doc, pl.loc, ValueOf(pl, src).value)
    {
      var locs := Locations(places);
      WritesOne(args, k, s, list, readJson);
      PathsAt(RootOf(list), locs, k);
      PlacedWhereItLeads(PutAll(RootOf(list), locs[..k]).value, locs[k], k);
      var p := Paths(RootOf(list), locs)[k];
      assert Follows(p, places[k].loc) && ValueAt(doc, p) == Some(ValueOf(places[k], src).value);
    }
  }

  lemma {:induction false} WritesOne(args: seq<Arg>, k: nat, s: Spelling, list: bool, readJson: string -> Outcome<Json>)
    requires Writes(args, k, s, list, readJson)
    ensures k < |args| && HasMeaning(s, list, readJson)
  {
  }

  /** What stands at a key is the value of that key, and what is appended to a key is in the list there. */
  lemma {:induction false} StandsAtAKey(doc: Json, key: string, appends: bool, v: Json)
    requires StandsAt(doc, KeyAt(key, appends), v)
    ensures doc.Obj?
    ensures
      var found := Get(doc.members, key);
      if appends then found.Some? && found.value.Arr? && v in found.value.items else found == Some(v)
  {
    hide Get;
    var p :| Follows(p, KeyAt(key, appends)) && ValueAt(doc, p) == Some(v);
    var loc := KeyAt(key, appends);
    assert loc[0] == Named(key, false) && Leads(loc[0], p[0]);
    var rest := p[1..];
    var found := Get(doc.members, key);
    assert ValueAt(found.value, rest) == Some(v);
    if appends {
      assert loc[1] == Append && Leads(loc[1], p[1]);
      assert rest[0] == p[1];
      var items := found.value.items;
      assert ValueAt(items[rest[0].at], rest[1..]) == Some(v);
      assert items[rest[0].at] == v;
    } else {
      assert rest == [];
    }
  }

  /** The argument is key=text, with a key and a text that can be written so. */
  predicate KeyEqualsText(a: Arg, key: string, text: string) {
    a == Arg(Plain, key + "=" + text) && PlainKey(key) && !EndsWith(key, ":") && (text == "" || text[0] != '@')
  }

  /** key=text puts the text at that key of the document, whatever else the document holds. */
  lemma {:induction false} TextStandsAtItsKey(doc: Json, args: seq<Arg>, k: nat, key: string, text: string, readJson: string -> Outcome<Json>,
                                              src: Sources)
    requires HoldsWhatIsWritten(doc, args, false, readJson, src)
    requires k < |args| && KeyEqualsText(args[k], key, text)
    ensures HasText(doc, key, text)
  {
    hide Get, StandsAt, PlainKey, EndsWith;
    var s := KeyWith(key, false, AsText(text));
    assert KeyText(key, false) + ValueText(AsText(text)) == key + "=" + text;
    assert Writes(args, k, s, false, readJson);
    assert Meant(s, false, readJson) == Placement(KeyAt(key, false), Given(Str(text)));
    StandsAtAKey(doc, key, false, Str(text));
  }

  predicate HasText(doc: Json, key: string, text: string) {
    doc.Obj? && Get(doc.members, key) == Some(Str(text))
  }

  /** Every key=text has its text at its key. */
  ghost predicate TextsStand(doc: Json, args: seq<Arg>) {
    forall k: nat, key: string, text: string :: k < |args| && KeyEqualsText(args[k], key, text) ==> HasText(doc, key, text)
  }

  lemma {:induction false} TextsStandAtTheirKeys(doc: Json, args: seq<Arg>, readJson: string -> Outcome<Json>, src: Sources)
    requires HoldsWhatIsWritten(doc, args, false, readJson, src)
    ensures TextsStand(doc, args)
  {
    hide HasText, KeyEqualsText, HoldsWhatIsWritten;
    forall k: nat, key: string, text: string | k < |args| && KeyEqualsText(args[k], key, text) ensures HasText(doc, key, text) {
      TextStandsAtItsKey(doc, args, k, key, text, readJson, src);
    }
  }

  // ----- a list of elements -----

  /** All of the arguments append to the list. */
  predicate AllAppend(places: seq<Placement>) {
    forall k :: 0 <= k < |places| ==> places[k].loc == [Append]
  }

  function Leaves(n: nat): seq<Tree> {
    seq(n, i requires 0 <= i < n => Leaf(i))
  }

  lemma {:induction false} AppendedInOrder(places: seq<Placement>)
    requires AllAppend(places) && Located(places)
    ensures PutAll(List([]), Locations(places)) == Ok(List(Leaves(|places|)))
  {
    if places != [] {
      var n := |places| - 1;
      AppendedInOrder(places[..n]);
      assert |Leaves(n)| == n;
      assert Fresh([Append], n) == Ok(Leaf(n));
      assert Locations(places)[..n] == Locations(places[..n]);
      assert Leaves(n) + [Leaf(n)] == Leaves(n + 1);
    }
  }

  /** A list whose arguments all append is their values in their order. */
  lemma {:induction false} ElementsInOrder(t: Tree, places: seq<Placement>, src: Sources)
    requires Planned(t, places, true) && AllAppend(places) && Built(t, places, src).Ok?
    ensures
      var doc := Built(t, places, src).value;
      && doc.Arr? && |doc.items| == |places|
      && forall k :: 0 <= k < |places| ==> ValueOf(places[k], src) == Ok(doc.items[k])
  {
    hide DepthOf, CountOf, ValueOf, PutAll, MaxDepth, MaxValues;
    AppendedInOrder(places);
    var values := ValuesOf(places, src).value;
    var doc := Built(t, places, src).value;
    forall k | 0 <= k < |places| ensures ValueOf(places[k], src) == Ok(doc.items[k]) {
      ValuesSoFar(places, src, k);
      assert doc.items[k] == Document(Leaf(k), values);
    }
  }
}
