/** Flags of the usage library (lib/src/spec/flag.rs): the usage-string
    grammar `name: -s --long… <arg>`, the usage a flag prints, and the
    rules applied when a flag is read from a spec. */
module SpecFlags {
  import opened Wrappers
  import opened Strings
  import opened UsageSpec
  import opened SpecArgs

  /** `UsageErr::InvalidFlag`: the offending token and the normalised text. */
  datatype FlagError = InvalidFlag(token: string, input: string)

  /** `get_name_from_short_and_long(..).unwrap_or_default()`: the first
      long name, else the first short name, else nothing. */
  function NameFromShortAndLong(short: seq<char>, long: seq<string>): string {
    if long != [] then long[0] else if short != [] then [short[0]] else ""
  }

  /** `SpecFlag::usage`. */
  function FlagUsage(f: Flag): (r: string)
    ensures f.arg.Some? ==> EndsWith(r, " " + ArgUsage(f.arg.value))
    ensures f.arg.None? && f.variadic ==> EndsWith(r, Ellipsis)
  {
    UsageOf(f.name, f.short, f.long, f.variadic, f.arg)
  }

  /** The usage from the fields it depends on. */
  function UsageOf(name: string, short: seq<char>, long: seq<string>, variadic: bool, arg: Option<Arg>): (r: string)
    ensures arg.Some? ==> EndsWith(r, " " + ArgUsage(arg.value))
    ensures arg.None? && variadic ==> EndsWith(r, Ellipsis)
  {
    var head := UsageHead(name, short, long, variadic);
    if arg.Some? then
      EndsWithAppend(head, " " + ArgUsage(arg.value));
      head + (" " + ArgUsage(arg.value))
    else head
  }

  /** The names of the usage, then the ellipsis of a variadic flag. */
  function UsageHead(name: string, short: seq<char>, long: seq<string>, variadic: bool): (r: string)
    ensures variadic ==> EndsWith(r, Ellipsis)
  {
    var derived := NameFromShortAndLong(short, long);
    var parts :=
      (if derived != name then [name + ":"] else [])
      + (if short != [] then ["-" + [short[0]]] else [])
      + (if long != [] then ["--" + long[0]] else []);
    var out := Join(parts, " ");
    if variadic then
      EndsWithAppend(out, Ellipsis);
      out + Ellipsis
    else out
  }

  // ---------------------------------------------------------------------
  // Reading a flag from its usage text
  // ---------------------------------------------------------------------

  /** `...` becomes `…`, and every `…` is set apart by spaces. */
  function Normalize(input: string): string {
    Replace(Replace(input, "...", Ellipsis), Ellipsis, " " + Ellipsis + " ")
  }

  /** Every occurrence of `c` has a space on both sides. */
  predicate Padded(s: string, c: char) {
    forall i :: 0 <= i < |s| && s[i] == c ==> 0 < i < |s| - 1 && s[i - 1] == ' ' && s[i + 1] == ' '
  }

  /** A text of one byte in UTF-8: exactly one ASCII character. Rust's
      `short.len() != 1` counts bytes. */
  predicate OneByte(s: string) {
    |s| == 1 && s[0] < 128 as char
  }

  /** A part written `<..>` or `[..]`. */
  predicate IsArgToken(part: string) {
    (StartsWith(part, "<") && EndsWith(part, ">")) || (StartsWith(part, "[") && EndsWith(part, "]"))
  }

  /** One part of the text; the error carries the token that is reported. */
  function ParsePart(flag: Flag, part: string): Result<Flag, string> {
    if EndsWith(part, ":") then Ok(flag.(name := part[..|part| - 1]))
    else if StartsWith(part, "--") then Ok(flag.(long := flag.long + [part[2..]]))
    else if StartsWith(part, "-") then
      if OneByte(part[1..]) then Ok(flag.(short := flag.short + [part[1]])) else Err(part[1..])
    else if part == Ellipsis then
      if flag.arg.Some? then Ok(flag.(arg := Some(flag.arg.value.(variadic := true))))
      else Ok(flag.(variadic := true))
    else if IsArgToken(part) then Ok(flag.(arg := Some(ArgFromStr(part))))
    else Err(part)
  }

  /** The parts in order, stopping at the first error. */
  function ParseParts(flag: Flag, parts: seq<string>): Result<Flag, string>
    decreases |parts|
  {
    if parts == [] then Ok(flag)
    else
      match ParsePart(flag, parts[0])
      case Err(t) => Err(t)
      case Ok(f) => ParseParts(f, parts[1..])
  }

  /** `FromStr for SpecFlag`. */
  function FlagFromStr(input: string): (r: Result<Flag, FlagError>)
    ensures r.Ok? ==> r.value.usage == FlagUsage(r.value)
    ensures r.Ok? && r.value.long == [] && r.value.short != [] ==> r.value.name != ""
    ensures r.Err? ==> r.error.input == Normalize(input)
  {
    var norm := Normalize(input);
    match ParseParts(DefaultFlag, Words(norm))
    case Err(t) => Err(InvalidFlag(t, norm))
    case Ok(f) =>
      var f := if f.name == "" then f.(name := NameFromShortAndLong(f.short, f.long)) else f;
      Ok(f.(usage := FlagUsage(f)))
  }

  /** The loop of `FromStr for SpecFlag`, part by part. */
  method ParseFlag(input: string) returns (r: Result<Flag, FlagError>)
    ensures r == FlagFromStr(input)
  {
    var norm := Normalize(input);
    var parts := Words(norm);
    var flag := DefaultFlag;
    for i := 0 to |parts|
      invariant ParseParts(flag, parts[i..]) == ParseParts(DefaultFlag, parts)
    {
      assert parts[i..][1..] == parts[i + 1..];
      var step := ApplyPart(flag, parts[i]);
      if step.Err? {
        return Err(InvalidFlag(step.error, norm));
      }
      flag := step.value;
    }
    assert parts[|parts|..] == [];
    if flag.name == "" {
      flag := flag.(name := NameFromShortAndLong(flag.short, flag.long));
    }
    flag := flag.(usage := FlagUsage(flag));
    return Ok(flag);
  }

  /** The body of the loop: one part updates the flag or is refused. */
  method ApplyPart(flag: Flag, part: string) returns (r: Result<Flag, string>)
    ensures r == ParsePart(flag, part)
  {
    var flag := flag;
    if EndsWith(part, ":") {
      flag := flag.(name := part[..|part| - 1]);
    } else if StartsWith(part, "--") {
      flag := flag.(long := flag.long + [part[2..]]);
    } else if StartsWith(part, "-") {
      var short := part[1..];
      if !OneByte(short) {
        return Err(short);
      }
      flag := flag.(short := flag.short + [short[0]]);
    } else if part == Ellipsis {
      if flag.arg.Some? {
        flag := flag.(arg := Some(flag.arg.value.(variadic := true)));
      } else {
        flag := flag.(variadic := true);
      }
    } else if IsArgToken(part) {
      flag := flag.(arg := Some(ArgFromStr(part)));
    } else {
      return Err(part);
    }
    return Ok(flag);
  }

  // ---------------------------------------------------------------------
  // The normalisation
  // ---------------------------------------------------------------------

  /** Replacing a character by itself between spaces sets every occurrence
      of it apart. */
  lemma {:induction false} ReplacePads(s: string, c: char)
    requires c != ' '
    ensures Padded(Replace(s, [c], [' ', c, ' ']), c)
    decreases |s|
  {
    if |s| >= 1 {
      ReplacePads(s[1..], c);
      var rest := Replace(s[1..], [c], [' ', c, ' ']);
      var r := Replace(s, [c], [' ', c, ' ']);
      var pre := if s[..1] == [c] then [' ', c, ' '] else [s[0]];
      assert r == pre + rest;
      assert s[..1] != [c] ==> s[0] != c;
      forall i | 0 <= i < |r| && r[i] == c
        ensures 0 < i < |r| - 1 && r[i - 1] == ' ' && r[i + 1] == ' '
      {
        if i >= |pre| {
          var k := i - |pre|;
          assert rest[k] == c;
          assert 0 < k < |rest| - 1 && rest[k - 1] == ' ' && rest[k + 1] == ' ';
          assert r[i - 1] == rest[k - 1] && r[i + 1] == rest[k + 1];
        }
      }
    }
  }

  /** After normalisation every `…` stands between two spaces, so it is a
      part of its own. */
  lemma NormalizePads(input: string)
    ensures Padded(Normalize(input), Ellipsis[0])
  {
    assert " " + Ellipsis + " " == [' ', Ellipsis[0], ' '];
    ReplacePads(Replace(input, "...", Ellipsis), Ellipsis[0]);
  }

  // ---------------------------------------------------------------------
  // What the parts give, stated part class by part class
  // ---------------------------------------------------------------------

  predicate IsNamePart(p: string) {
    EndsWith(p, ":")
  }

  predicate IsLongPart(p: string) {
    !IsNamePart(p) && StartsWith(p, "--")
  }

  predicate IsShortPart(p: string) {
    !IsNamePart(p) && !StartsWith(p, "--") && StartsWith(p, "-")
  }

  /** A part the grammar refuses: a short name that is not one byte, or a
      part of no class. */
  predicate BadPart(p: string) {
    (IsShortPart(p) && !OneByte(p[1..]))
    || (!IsNamePart(p) && !StartsWith(p, "-") && p != Ellipsis && !IsArgToken(p))
  }

  /** The token reported for a refused part. */
  function BadToken(p: string): string {
    if IsShortPart(p) then p[1..] else p
  }

  /** The long names the parts add, in order. */
  function LongsOf(parts: seq<string>): seq<string> {
    if parts == [] then []
    else (if IsLongPart(parts[0]) then [parts[0][2..]] else []) + LongsOf(parts[1..])
  }

  /** The short names the parts add, in order. */
  function ShortsOf(parts: seq<string>): seq<char> {
    if parts == [] then []
    else (if IsShortPart(parts[0]) && |parts[0]| > 1 then [parts[0][1]] else []) + ShortsOf(parts[1..])
  }

  /** The name after the parts: the last `name:` part wins. */
  function NameOf(parts: seq<string>, current: string): string {
    if parts == [] then current
    else NameOf(parts[1..], if IsNamePart(parts[0]) then parts[0][..|parts[0]| - 1] else current)
  }

  /** The parts fail exactly when one of them is refused, and the token
      reported is the one of the first refused part. */
  lemma {:induction false} PartsError(flag: Flag, parts: seq<string>)
    ensures ParseParts(flag, parts).Err? <==> exists i :: 0 <= i < |parts| && BadPart(parts[i])
    ensures ParseParts(flag, parts).Err? ==>
      exists i :: 0 <= i < |parts| && BadPart(parts[i]) && ParseParts(flag, parts).error == BadToken(parts[i])
        && forall j :: 0 <= j < i ==> !BadPart(parts[j])
    decreases |parts|
  {
    if parts != [] {
      var p := parts[0];
      match ParsePart(flag, p)
      case Err(t) =>
        assert BadPart(p) && t == BadToken(p);
      case Ok(f) =>
        assert !BadPart(p);
        PartsError(f, parts[1..]);
        assert forall i :: 1 <= i < |parts| ==> parts[i] == parts[1..][i - 1];
        if ParseParts(f, parts[1..]).Err? {
          var i :| 0 <= i < |parts[1..]| && BadPart(parts[1..][i])
            && ParseParts(f, parts[1..]).error == BadToken(parts[1..][i])
            && forall j :: 0 <= j < i ==> !BadPart(parts[1..][j]);
          assert BadPart(parts[i + 1]);
        } else {
          forall i | 0 <= i < |parts| ensures !BadPart(parts[i]) {
            if i > 0 {
              assert parts[i] == parts[1..][i - 1];
            }
          }
        }
    }
  }

  /** What one accepted part adds to the long names. */
  lemma PartLongs(flag: Flag, p: string)
    requires ParsePart(flag, p).Ok?
    ensures ParsePart(flag, p).value.long == flag.long + (if IsLongPart(p) then [p[2..]] else [])
  {
    if !IsNamePart(p) && !StartsWith(p, "--") {
      assert ParsePart(flag, p).value.long == flag.long;
    }
  }

  /** What one accepted part adds to the short names. */
  lemma PartShorts(flag: Flag, p: string)
    requires ParsePart(flag, p).Ok?
    ensures ParsePart(flag, p).value.short == flag.short + (if IsShortPart(p) && |p| > 1 then [p[1]] else [])
  {
    var g := ParsePart(flag, p).value;
    if IsShortPart(p) {
      assert g.short == flag.short + [p[1]];
    } else {
      assert g.short == flag.short;
      assert flag.short + [] == flag.short;
    }
  }

  /** A `name:` part renames the flag; no other part does. */
  lemma PartName(flag: Flag, p: string)
    requires ParsePart(flag, p).Ok?
    ensures ParsePart(flag, p).value.name == if IsNamePart(p) then p[..|p| - 1] else flag.name
  {
    if !IsNamePart(p) {
      assert ParsePart(flag, p).value.name == flag.name;
    }
  }

  /** The long and short names are those of the parts, appended in order,
      and the last `name:` part names the flag. */
  lemma {:induction false} PartsNames(flag: Flag, parts: seq<string>)
    ensures ParseParts(flag, parts).Ok? ==>
      && ParseParts(flag, parts).value.long == flag.long + LongsOf(parts)
      && ParseParts(flag, parts).value.short == flag.short + ShortsOf(parts)
      && ParseParts(flag, parts).value.name == NameOf(parts, flag.name)
    decreases |parts|
  {
    if parts != [] && ParsePart(flag, parts[0]).Ok? {
      var p := parts[0];
      var f := ParsePart(flag, p).value;
      assert ParseParts(flag, parts) == ParseParts(f, parts[1..]);
      PartLongs(flag, p);
      PartShorts(flag, p);
      PartName(flag, p);
      PartsNames(f, parts[1..]);
      ConcatAssoc2(flag.long, if IsLongPart(p) then [p[2..]] else [], LongsOf(parts[1..]));
      ConcatAssoc2(flag.short, if IsShortPart(p) && |p| > 1 then [p[1]] else [], ShortsOf(parts[1..]));
    }
  }

  lemma ConcatAssoc2<T>(a: seq<T>, b: seq<T>, c: seq<T>)
    ensures (a + b) + c == a + (b + c)
  {
  }

  /** A text is refused exactly when one of its parts is. */
  lemma FromStrError(input: string)
    ensures FlagFromStr(input).Err? <==>
      exists i :: 0 <= i < |Words(Normalize(input))| && BadPart(Words(Normalize(input))[i])
  {
    PartsError(DefaultFlag, Words(Normalize(input)));
  }

  /** An accepted text gives the long and short names of its parts, in
      order; its last `name:` part names it, and with no name the first
      long, else the first short, names it; the stored usage is the one the
      flag prints. */
  lemma FromStrAccepted(input: string)
    requires FlagFromStr(input).Ok?
    ensures var f := FlagFromStr(input).value;
      var parts := Words(Normalize(input));
      && f.long == LongsOf(parts)
      && f.short == ShortsOf(parts)
      && (NameOf(parts, "") != "" ==> f.name == NameOf(parts, ""))
      && (NameOf(parts, "") == "" && f.long != [] ==> f.name == f.long[0])
      && (NameOf(parts, "") == "" && f.long == [] && f.short != [] ==> f.name == [f.short[0]])
      && (NameOf(parts, "") == "" && f.long == [] && f.short == [] ==> f.name == "")
      && f.usage == FlagUsage(f)
  {
    PartsNames(DefaultFlag, Words(Normalize(input)));
  }

  // ---------------------------------------------------------------------
  // Reading from a spec
  // ---------------------------------------------------------------------

  /** A `default` property value: KDL booleans are stored as text. */
  datatype PropValue = BoolValue(b: bool) | StringValue(s: string)

  /** The text a `default` value is stored as. */
  function DefaultText(v: PropValue): (r: string)
    ensures v.BoolValue? ==> (r == "true" <==> v.b) && (r == "false" <==> !v.b)
    ensures v.StringValue? ==> r == v.s
  {
    match v
    case BoolValue(b) => if b then "true" else "false"
    case StringValue(s) => s
  }

  /** Once the properties are read, a flag with a default is optional; the
      children read afterwards may still set `required`. */
  function RequiredAfterProps(f: Flag): (r: Flag)
    ensures r.default != [] ==> !r.required
    ensures r.default == [] ==> r == f
    ensures r.(required := f.required) == f
  {
    if f.default != [] then f.(required := false) else f
  }

  /** The last steps of `SpecFlag::parse`: the usage is stored, and the first
      line of the help replaces the stored one (absent without help). */
  function FinishParse(f: Flag): (r: Flag)
    ensures r.usage == FlagUsage(r)
    ensures r.helpFirstLine == if f.help.Some? then Some(FirstLine(f.help.value)) else None
    ensures r.name == f.name && r.short == f.short && r.long == f.long && r.arg == f.arg
    ensures r.required == f.required && r.default == f.default && r.variadic == f.variadic
  {
    var f1 := f.(usage := FlagUsage(f));
    f1.(helpFirstLine := if f.help.Some? then Some(FirstLine(f.help.value)) else None)
  }
}
