/**
 How an argument of a command line names a location and a value (internal/jsonbuild/jsonbuild.go, parseArg,
 location, pointer, render). A pointer is a JSON Pointer, RFC 6901 sections 3 and 4.
 */
module Arguments {
  import opened Lines
  import opened Texts
  import opened Json
  import opened Plans
  import opened Builds

  datatype Form = Plain | StringForm | TextFileForm | PathForm

  datatype Arg = Arg(form: Form, text: string)

  // ----- pointers -----

  /** A decimal number with no leading zero, the only way a pointer names an array element (isIndex). */
  predicate IsIndex(s: string) {
    s != "" && (|s| > 1 ==> s[0] != '0') && forall i :: 0 <= i < |s| ==> '0' <= s[i] <= '9'
  }

  /** "~1" is "/" and "~0" is "~"; no other "~" is read (unescape). */
  function Unescape(part: string): Outcome<string> {
    if part == "" then Ok("")
    else if part[0] != '~' then
      var rest :- Unescape(part[1..]);
      Ok([part[0]] + rest)
    else if |part| > 1 && part[1] == '0' then
      var rest :- Unescape(part[2..]);
      Ok("~" + rest)
    else if |part| > 1 && part[1] == '1' then
      var rest :- Unescape(part[2..]);
      Ok("/" + rest)
    else Refused
  }

  function Escape(name: string): string {
    if name == "" then ""
    else (if name[0] == '~' then "~0" else if name[0] == '/' then "~1" else [name[0]]) + Escape(name[1..])
  }

  /** One step of a pointer. */
  function TokenOf(part: string): Outcome<Token> {
    var name :- Unescape(part);
    if name == "" then Refused
    else if part == "-" then Ok(Append)
    else if EndsWith(name, "[]") then Refused
    else Ok(Named(name, IsIndex(name)))
  }

  function TokensOf(parts: seq<string>): (tokens: Outcome<seq<Token>>)
    ensures tokens.Ok? ==> |tokens.value| == |parts|
  {
    if parts == [] then Ok([])
    else
      var token :- TokenOf(parts[0]);
      var rest :- TokensOf(parts[1..]);
      Ok([token] + rest)
  }

  /** A JSON Pointer that starts with "/" (pointer). */
  function Pointer(ptr: string): (loc: Outcome<seq<Token>>)
    requires StartsWith(ptr, "/")
    ensures loc.Ok? ==> loc.value != []
  {
    TokensOf(SplitOn(ptr[1..], '/'))
  }

  /** A location written as a JSON Pointer (render). */
  function Render(loc: seq<Token>): string {
    Slashed(PartsOf(loc))
  }

  function Slashed(parts: seq<string>): string {
    if parts == [] then "" else "/" + (parts[0] + Slashed(parts[1..]))
  }

  function PartsOf(loc: seq<Token>): seq<string> {
    seq(|loc|, i requires 0 <= i < |loc| => PartOf(loc[i]))
  }

  function PartOf(token: Token): string {
    if token.Append? then "-" else Escape(token.name)
  }

  /** A token a pointer can write: a name that is not empty, not the sign that appends, and does not end in []. */
  predicate Writable(token: Token) {
    token.Named? ==>
      token.name != "" && token.name != "-" && !EndsWith(token.name, "[]") && token.index == IsIndex(token.name)
  }

  lemma {:induction false} EscapeIsUndone(name: string)
    ensures Unescape(Escape(name)) == Ok(name)
    ensures NoSlash(Escape(name))
    ensures Escape(name) == "-" <==> name == "-"
    ensures Escape(name) == "" <==> name == ""
  {
    if name != "" {
      EscapeIsUndone(name[1..]);
      var head, tail := if name[0] == '~' then "~0" else if name[0] == '/' then "~1" else [name[0]], Escape(name[1..]);
      assert Escape(name) == head + tail;
      assert (head + tail)[|head|..] == tail;
      assert name == [name[0]] + name[1..];
      if Escape(name) == "-" {
        assert |head| == 1 && tail == "";
      }
    }
  }

  lemma {:induction false} UnescapeIsUndone(part: string)
    requires Unescape(part).Ok? && NoSlash(part)
    ensures Escape(Unescape(part).value) == part
  {
    if part != "" {
      var n := if part[0] == '~' then 2 else 1;
      UnescapeIsUndone(part[n..]);
      assert part == part[..n] + part[n..];
      var name := Unescape(part).value;
      assert name[1..] == Unescape(part[n..]).value;
    }
  }

  lemma {:induction false} TokenReadsBack(token: Token)
    ensures TokenOf(PartOf(token)) == Ok(token) <==> Writable(token)
    ensures NoSlash(PartOf(token))
  {
    if token.Named? {
      EscapeIsUndone(token.name);
    } else {
      assert Unescape("-"[1..]) == Ok("");
    }
  }

  lemma {:induction false} TokenIsWritten(part: string)
    requires TokenOf(part).Ok? && NoSlash(part)
    ensures PartOf(TokenOf(part).value) == part && Writable(TokenOf(part).value)
  {
    UnescapeIsUndone(part);
    EscapeIsUndone(Unescape(part).value);
  }

  ghost predicate NoSlash(part: string) {
    forall i :: 0 <= i < |part| ==> part[i] != '/'
  }

  ghost predicate NoSlashes(parts: seq<string>) {
    forall i :: 0 <= i < |parts| ==> NoSlash(parts[i])
  }

  lemma {:induction false} IndexInJoined(part: string, rest: string)
    requires NoSlash(part) && (rest == "" || rest[0] == '/')
    ensures IndexOf(part + rest, '/') == |part|
  {
    var n := IndexOf(part + rest, '/');
    assert forall i :: 0 <= i < |part| ==> (part + rest)[i] == part[i];
    if rest != "" {
      assert (part + rest)[|part|] == rest[0];
    }
  }

  lemma {:induction false} SplitStep(s: string)
    ensures
      var n := IndexOf(s, '/');
      && NoSlash(s[..n])
      && (n == |s| ==> SplitOn(s, '/') == [s])
      && (n < |s| ==> SplitOn(s, '/') == [s[..n]] + SplitOn(s[n + 1..], '/') && s == s[..n] + ("/" + s[n + 1..]))
  {
  }

  lemma {:induction false} SlashedCons(part: string, rest: seq<string>)
    ensures Slashed([part] + rest) == "/" + (part + Slashed(rest))
    ensures NoSlashes([part] + rest) <==> NoSlash(part) && NoSlashes(rest)
  {
    var parts := [part] + rest;
    assert parts[1..] == rest;
    assert NoSlashes(parts) ==> NoSlash(parts[0]);
    assert forall i :: 0 <= i < |rest| ==> parts[i + 1] == rest[i];
    assert forall i :: 1 <= i < |parts| ==> parts[i] == rest[i - 1];
  }

  lemma {:induction false} SplitSlashed(parts: seq<string>)
    requires parts != [] && NoSlashes(parts)
    ensures SplitOn(Slashed(parts)[1..], '/') == parts
  {
    hide NoSlash, NoSlashes, IndexOf, SplitOn, Slashed;
    var part, rest := parts[0], parts[1..];
    assert parts == [part] + rest;
    SlashedCons(part, rest);
    var s := part + Slashed(rest);
    assert ("/" + s)[1..] == s;
    SlashedStarts(rest);
    IndexInJoined(part, Slashed(rest));
    SplitStep(s);
    assert s[..|part|] == part;
    if rest == [] {
      assert s == part;
    } else {
      assert s[|part| + 1..] == Slashed(rest)[1..];
      SplitSlashed(rest);
    }
  }

  lemma {:induction false} SlashedStarts(parts: seq<string>)
    ensures if parts == [] then Slashed(parts) == "" else Slashed(parts) != "" && Slashed(parts)[0] == '/'
  {
  }

  lemma {:induction false} SlashedSplit(s: string)
    ensures NoSlashes(SplitOn(s, '/')) && Slashed(SplitOn(s, '/')) == "/" + s
    decreases |s|
  {
    hide NoSlash, NoSlashes, IndexOf, SplitOn, Slashed;
    var n := IndexOf(s, '/');
    SplitStep(s);
    if n == |s| {
      assert s[..n] == s && [s] + [] == [s];
      SlashedCons(s, []);
      SlashedStarts([]);
      NoneSlashed();
      assert s + "" == s;
    } else {
      SlashedSplit(s[n + 1..]);
      SlashedCons(s[..n], SplitOn(s[n + 1..], '/'));
    }
  }

  lemma {:induction false} NoneSlashed()
    ensures NoSlashes([])
  {
  }

  lemma {:induction false} TokensReadBack(loc: seq<Token>)
    ensures TokensOf(PartsOf(loc)) == Ok(loc) <==> forall i :: 0 <= i < |loc| ==> Writable(loc[i])
  {
    hide TokenOf, Writable, PartOf;
    if loc != [] {
      TokenReadsBack(loc[0]);
      TokensReadBack(loc[1..]);
      assert PartsOf(loc)[1..] == PartsOf(loc[1..]);
      assert loc == [loc[0]] + loc[1..];
      assert forall i :: 1 <= i < |loc| ==> loc[i] == loc[1..][i - 1];
      assert forall i :: 0 <= i < |loc| - 1 ==> loc[1..][i] == loc[i + 1];
    }
  }

  lemma {:induction false} TokensAreWritten(parts: seq<string>)
    requires NoSlashes(parts) && TokensOf(parts).Ok?
    ensures PartsOf(TokensOf(parts).value) == parts
  {
    hide TokenOf, Writable, PartOf;
    if parts != [] {
      TokenIsWritten(parts[0]);
      TokensAreWritten(parts[1..]);
      var loc := TokensOf(parts).value;
      assert loc[1..] == TokensOf(parts[1..]).value;
      assert PartsOf(loc)[1..] == PartsOf(loc[1..]);
      assert parts == [parts[0]] + parts[1..] && PartsOf(loc) == [PartsOf(loc)[0]] + PartsOf(loc)[1..];
    }
  }

  /** A location reads back from the pointer that writes it exactly when a pointer can write all of its tokens. */
  lemma {:induction false} RenderReadsBack(loc: seq<Token>)
    requires loc != []
    ensures StartsWith(Render(loc), "/")
    ensures Pointer(Render(loc)) == Ok(loc) <==> forall i :: 0 <= i < |loc| ==> Writable(loc[i])
  {
    hide Writable, PartOf, TokensOf, SplitOn;
    forall i | 0 <= i < |loc| ensures NoSlash(PartsOf(loc)[i]) {
      TokenReadsBack(loc[i]);
    }
    SplitSlashed(PartsOf(loc));
    TokensReadBack(loc);
  }

  /** A pointer that is read writes itself back: no two pointers name one location. */
  lemma {:induction false} PointerIsRendered(ptr: string)
    requires StartsWith(ptr, "/") && Pointer(ptr).Ok?
    ensures Render(Pointer(ptr).value) == ptr
  {
    hide PartOf, TokensOf, SplitOn, Slashed, PartsOf, NoSlashes;
    SlashedSplit(ptr[1..]);
    TokensAreWritten(SplitOn(ptr[1..], '/'));
    assert ptr == "/" + ptr[1..];
  }

  // ----- arguments -----

  /** What follows the operator: text, JSON, or @ and a path (operand). */
  function Operand(value: string, json: bool, readJson: string -> Outcome<Json>): Outcome<Source> {
    if StartsWith(value, "@") then
      if value == "@" then Refused else Ok(File(if json then FileData else FileText, value[1..]))
    else if !json then Ok(Given(Str(value)))
    else
      var v :- readJson(value);
      Ok(Given(v))
  }

  /** A key with an optional [] at its end. */
  function KeyLocation(key: string): (loc: Outcome<seq<Token>>)
    ensures loc.Ok? ==> loc.value != []
  {
    var name := Without(key, "[]");
    if name == "" || EndsWith(name, "[]") then Refused
    else Ok([Named(name, false)] + if EndsWith(key, "[]") then [Append] else [])
  }

  /** The KEY of --string and --text-file (location). */
  function KeyOrPointer(loc: string, list: bool): (tokens: Outcome<seq<Token>>)
    ensures tokens.Ok? ==> tokens.value != []
  {
    if EndsWith(loc, ":") then Refused
    else if StartsWith(loc, "/") then Pointer(loc)
    else if list then if loc == "" then Ok([Append]) else Refused
    else KeyLocation(loc)
  }

  /** One argument (parseArg). */
  function ParseArg(a: Arg, list: bool, readJson: string -> Outcome<Json>): (pl: Outcome<Placement>)
    ensures pl.Ok? ==> pl.value.loc != []
  {
    var i := IndexOf(a.text, '=');
    if a.form.Plain? && list then
      var source :-
        if StartsWith(a.text, ":=") then Operand(a.text[2..], true, readJson)
        else if StartsWith(a.text, "=") then Operand(a.text[1..], false, readJson)
        else Ok(Given(Str(a.text)));
      Ok(Placement([Append], source))
    else if i == |a.text| then Refused
    else
      var left, value := a.text[..i], a.text[i + 1..];
      match a.form
      case Plain =>
        var loc :- KeyLocation(Without(left, ":"));
        var source :- Operand(value, EndsWith(left, ":"), readJson);
        Ok(Placement(loc, source))
      case StringForm =>
        var loc :- KeyOrPointer(left, list);
        Ok(Placement(loc, Given(Str(value))))
      case TextFileForm =>
        var loc :- KeyOrPointer(left, list);
        if value == "" then Refused else Ok(Placement(loc, File(FileWhole, value)))
      case PathForm =>
        var ptr := Without(left, ":");
        if !StartsWith(ptr, "/") then Refused
        else
          var loc :- Pointer(ptr);
          var source :- Operand(value, EndsWith(left, ":"), readJson);
          Ok(Placement(loc, source))
  }

  /** All of the arguments. */
  function ParseArgs(args: seq<Arg>, list: bool, readJson: string -> Outcome<Json>): (places: Outcome<seq<Placement>>)
    ensures places.Ok? ==> |places.value| == |args| && Located(places.value)
  {
    if args == [] then Ok([])
    else
      var n := |args| - 1;
      var places :- ParseArgs(args[..n], list, readJson);
      var pl :- ParseArg(args[n], list, readJson);
      Ok(places + [pl])
  }
}
