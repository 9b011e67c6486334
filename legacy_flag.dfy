/** Flags of the first usage crate (src/parse/flag.rs): the usage-string
    grammar `name: -s --long... <arg>` with an ASCII ellipsis, the usage a
    flag prints, and the name a flag gets from its short and long names. */
module LegacyFlags {
  import opened Wrappers
  import opened Strings
  import opened LegacyArgs
  import SpecFlags

  /** `SpecFlag` of the first crate. */
  datatype LegacyFlag = LegacyFlag(
    name: string,
    usage: string,
    help: Option<string>,
    helpLong: Option<string>,
    short: seq<char>,
    long: seq<string>,
    required: bool,
    deprecated: Option<string>,
    variadic: bool,
    hide: bool,
    global: bool,
    count: bool,
    arg: Option<LegacyArg>,
    default: Option<string>)

  /** `SpecFlag::default()`. */
  const DefaultLegacyFlag: LegacyFlag :=
    LegacyFlag("", "", None, None, [], [], false, None, false, false, false, false, None, None)

  /** `get_name_from_short_and_long`: the first long name, else the first
      short name, else none. */
  function NameFromShortAndLong(short: seq<char>, long: seq<string>): (r: Option<string>)
    ensures r.None? <==> short == [] && long == []
    ensures long != [] ==> r == Some(long[0])
    ensures long == [] && short != [] ==> r == Some([short[0]])
  {
    if long != [] then Some(long[0]) else if short != [] then Some([short[0]]) else None
  }

  /** `SpecFlag::usage`: the name when it is not the derived one, the first
      short and the first long name, `...` when variadic, then the
      argument's usage. */
  function LegacyFlagUsage(f: LegacyFlag): (r: string)
    ensures f.arg.Some? ==> EndsWith(r, " " + LegacyArgUsage(f.arg.value))
    ensures f.arg.None? && f.variadic ==> EndsWith(r, Dots)
  {
    var head := LegacyUsageHead(f);
    if f.arg.Some? then
      EndsWithAppend(head, " " + LegacyArgUsage(f.arg.value));
      head + (" " + LegacyArgUsage(f.arg.value))
    else head
  }

  /** The names of the usage, then `...` when variadic. */
  function LegacyUsageHead(f: LegacyFlag): (r: string)
    ensures f.variadic ==> EndsWith(r, Dots)
  {
    var derived := NameFromShortAndLong(f.short, f.long).GetOr("");
    var parts :=
      (if derived != f.name then [f.name + ":"] else [])
      + (if f.short != [] then ["-" + [f.short[0]]] else [])
      + (if f.long != [] then ["--" + f.long[0]] else []);
    var out := Join(parts, " ");
    if f.variadic then
      EndsWithAppend(out, Dots);
      out + Dots
    else out
  }

  // ---------------------------------------------------------------------
  // Reading a flag from its usage text
  // ---------------------------------------------------------------------

  /** Every `...` is set apart by spaces. */
  function PadDots(input: string): string {
    Replace(input, Dots, " ... ")
  }

  /** A refused part: a short name that is not one byte, or a part of no
      class. */
  predicate LegacyBadPart(p: string) {
    (SpecFlags.IsShortPart(p) && !SpecFlags.OneByte(p[1..]))
    || (!SpecFlags.IsNamePart(p) && !StartsWith(p, "-") && p != Dots && !SpecFlags.IsArgToken(p))
  }

  /** One part of the text; the error carries the token that is reported. */
  function LegacyParsePart(flag: LegacyFlag, part: string): Result<LegacyFlag, string> {
    if EndsWith(part, ":") then Ok(flag.(name := part[..|part| - 1]))
    else if StartsWith(part, "--") then Ok(flag.(long := flag.long + [part[2..]]))
    else if StartsWith(part, "-") then
      if SpecFlags.OneByte(part[1..]) then Ok(flag.(short := flag.short + [part[1]])) else Err(part[1..])
    else if part == Dots then Ok(MarkDots(flag))
    else if SpecFlags.IsArgToken(part) then Ok(WithArg(flag, part))
    else Err(part)
  }

  /** A `...` part: the argument seen so far becomes variadic, or the flag
      itself when there is none yet. */
  function MarkDots(flag: LegacyFlag): (r: LegacyFlag)
    ensures flag.arg.Some? ==> r.arg == Some(flag.arg.value.(variadic := true)) && r.variadic == flag.variadic
    ensures flag.arg.None? ==> r.variadic && r.arg.None?
    ensures r.(arg := flag.arg, variadic := flag.variadic) == flag
  {
    if flag.arg.Some? then flag.(arg := Some(flag.arg.value.(variadic := true)))
    else flag.(variadic := true)
  }

  /** A `<..>` or `[..]` part: the flag's argument. */
  function WithArg(flag: LegacyFlag, part: string): (r: LegacyFlag)
    ensures r.arg == Some(LegacyArgFromStr(part))
    ensures r.(arg := flag.arg) == flag
  {
    flag.(arg := Some(LegacyArgFromStr(part)))
  }

  /** The parts in order, stopping at the first error. */
  function LegacyParseParts(flag: LegacyFlag, parts: seq<string>): Result<LegacyFlag, string>
    decreases |parts|
  {
    if parts == [] then Ok(flag)
    else
      match LegacyParsePart(flag, parts[0])
      case Err(t) => Err(t)
      case Ok(f) => LegacyParseParts(f, parts[1..])
  }

  /** `FromStr for SpecFlag`: the parts, then a name derived from the
      short and long names when none was given, then the usage. */
  function LegacyFlagFromStr(input: string): (r: Result<LegacyFlag, SpecFlags.FlagError>)
    ensures r.Ok? ==> r.value.usage == LegacyFlagUsage(r.value)
    ensures r.Ok? && r.value.long == [] && r.value.short != [] ==> r.value.name != ""
    ensures r.Err? ==> r.error.input == PadDots(input)
  {
    var padded := PadDots(input);
    match LegacyParseParts(DefaultLegacyFlag, Words(padded))
    case Err(t) => Err(SpecFlags.InvalidFlag(t, padded))
    case Ok(f) =>
      var f := if f.name == "" then f.(name := NameFromShortAndLong(f.short, f.long).GetOr("")) else f;
      Ok(f.(usage := LegacyFlagUsage(f)))
  }

  /** The loop of `FromStr for SpecFlag`, part by part. */
  method ParseLegacyFlag(input: string) returns (r: Result<LegacyFlag, SpecFlags.FlagError>)
    ensures r == LegacyFlagFromStr(input)
  {
    var padded := Replace(input, "...", " ... ");
    var parts := Words(padded);
    var flag := DefaultLegacyFlag;
    for i := 0 to |parts|
      invariant LegacyParseParts(flag, parts[i..]) == LegacyParseParts(DefaultLegacyFlag, parts)
    {
      assert parts[i..][1..] == parts[i + 1..];
      var part := parts[i];
      if EndsWith(part, ":") {
        flag := flag.(name := part[..|part| - 1]);
      } else if StartsWith(part, "--") {
        flag := flag.(long := flag.long + [part[2..]]);
      } else if StartsWith(part, "-") {
        var short := part[1..];
        if !SpecFlags.OneByte(short) {
          return Err(SpecFlags.InvalidFlag(short, padded));
        }
        flag := flag.(short := flag.short + [short[0]]);
      } else if part == "..." {
        if flag.arg.Some? {
          flag := flag.(arg := Some(flag.arg.value.(variadic := true)));
        } else {
          flag := flag.(variadic := true);
        }
      } else if SpecFlags.IsArgToken(part) {
        flag := flag.(arg := Some(LegacyArgFromStr(part)));
      } else {
        return Err(SpecFlags.InvalidFlag(part, padded));
      }
    }
    assert parts[|parts|..] == [];
    if flag.name == "" {
      flag := flag.(name := NameFromShortAndLong(flag.short, flag.long).GetOr(""));
    }
    flag := flag.(usage := LegacyFlagUsage(flag));
    return Ok(flag);
  }

  // ---------------------------------------------------------------------
  // The padding
  // ---------------------------------------------------------------------

  /** Every `...` stands between two spaces. */
  ghost predicate DotsPadded(s: string) {
    forall i :: OccursAt(s, Dots, i) ==> 0 < i && i + 3 < |s| && s[i - 1] == ' ' && s[i + 3] == ' '
  }

  /** The padded text begins with a dot only where the text does. */
  lemma PadDotsHead(t: string)
    ensures PadDots(t) != [] && PadDots(t)[0] == '.' ==> t != [] && t[0] == '.'
  {
  }

  /** The padded text begins with two dots only where the text does. */
  lemma PadDotsHead2(t: string)
    ensures |PadDots(t)| >= 2 && PadDots(t)[0] == '.' && PadDots(t)[1] == '.' ==> |t| >= 2 && t[0] == '.' && t[1] == '.'
  {
    if |t| >= 3 && t[..3] != Dots {
      assert PadDots(t) == [t[0]] + PadDots(t[1..]);
      PadDotsHead(t[1..]);
    }
  }

  /** An occurrence of `...` at `i` in the padded text has a space on
      each side. */
  lemma {:induction false} PadAt(s: string, i: int)
    ensures var r := PadDots(s);
      OccursAt(r, Dots, i) ==> 0 < i && i + 3 < |r| && r[i - 1] == ' ' && r[i + 3] == ' '
    decreases |s|, 1
  {
    if |s| < 3 {
      assert PadDots(s) == s;
    } else if s[..3] == Dots {
      PadAtDots(s, i);
    } else {
      PadAtOther(s, i);
    }
  }

  /** `PadAt` for a text that begins with `...`. */
  lemma {:induction false} PadAtDots(s: string, i: int)
    requires |s| >= 3 && s[..3] == Dots
    ensures var r := PadDots(s);
      OccursAt(r, Dots, i) ==> 0 < i && i + 3 < |r| && r[i - 1] == ' ' && r[i + 3] == ' '
    decreases |s|, 0
  {
    var r := PadDots(s);
    var rest := PadDots(s[3..]);
    assert r == " ... " + rest;
    if i >= 5 {
      PadAt(s[3..], i - 5);
      if i <= |r| - 3 {
        assert r[i..i + 3] == rest[i - 5..i - 5 + 3];
      }
    } else if i != 1 && 0 <= i <= |r| - 3 {
      var k := if i == 0 then 0 else 4 - i;
      assert r[i..i + 3][k] == ' ';
    }
  }

  /** `PadAt` for a text that does not begin with `...`. */
  lemma {:induction false} PadAtOther(s: string, i: int)
    requires |s| >= 3 && s[..3] != Dots
    ensures var r := PadDots(s);
      OccursAt(r, Dots, i) ==> 0 < i && i + 3 < |r| && r[i - 1] == ' ' && r[i + 3] == ' '
    decreases |s|, 0
  {
    var r := PadDots(s);
    var rest := PadDots(s[1..]);
    assert r == [s[0]] + rest;
    if i >= 1 {
      PadAt(s[1..], i - 1);
      if i <= |r| - 3 {
        assert r[i..i + 3] == rest[i - 1..i - 1 + 3];
      }
    } else if i == 0 {
      PadDotsHead2(s[1..]);
      assert s[..3] == [s[0], s[1], s[2]];
      if |r| >= 3 {
        assert r[..3] == [s[0], rest[0], rest[1]];
      }
    }
  }

  /** After padding, every `...` is a part of its own. */
  lemma PadDotsPads(s: string)
    ensures DotsPadded(PadDots(s))
  {
    forall i ensures OccursAt(PadDots(s), Dots, i) ==> 0 < i && i + 3 < |PadDots(s)| && PadDots(s)[i - 1] == ' ' && PadDots(s)[i + 3] == ' ' {
      PadAt(s, i);
    }
  }

  // ---------------------------------------------------------------------
  // What the parts give
  // ---------------------------------------------------------------------

  /** The token reported for a refused part. */
  lemma LegacyPartError(flag: LegacyFlag, p: string)
    ensures LegacyParsePart(flag, p).Err? <==> LegacyBadPart(p)
    ensures LegacyParsePart(flag, p).Err? ==> LegacyParsePart(flag, p).error == SpecFlags.BadToken(p)
  {
  }

  /** The parts fail exactly when one of them is refused, and the token
      reported is the one of the first refused part. */
  lemma {:induction false} LegacyPartsError(flag: LegacyFlag, parts: seq<string>)
    ensures LegacyParseParts(flag, parts).Err? <==> exists i :: 0 <= i < |parts| && LegacyBadPart(parts[i])
    ensures LegacyParseParts(flag, parts).Err? ==>
      exists i :: 0 <= i < |parts| && LegacyBadPart(parts[i]) && LegacyParseParts(flag, parts).error == SpecFlags.BadToken(parts[i])
        && forall j :: 0 <= j < i ==> !LegacyBadPart(parts[j])
    decreases |parts|
  {
    if parts != [] {
      var p := parts[0];
      LegacyPartError(flag, p);
      if LegacyParsePart(flag, p).Ok? {
        var f := LegacyParsePart(flag, p).value;
        LegacyPartsError(f, parts[1..]);
        assert forall i :: 1 <= i < |parts| ==> parts[i] == parts[1..][i - 1];
        if LegacyParseParts(f, parts[1..]).Err? {
          var i :| 0 <= i < |parts[1..]| && LegacyBadPart(parts[1..][i])
            && LegacyParseParts(f, parts[1..]).error == SpecFlags.BadToken(parts[1..][i])
            && forall j :: 0 <= j < i ==> !LegacyBadPart(parts[1..][j]);
          assert LegacyBadPart(parts[i + 1]);
        } else {
          forall i | 0 <= i < |parts| ensures !LegacyBadPart(parts[i]) {
            if i > 0 {
              assert parts[i] == parts[1..][i - 1];
            }
          }
        }
      }
    }
  }

  /** What one accepted part adds to the long names. */
  lemma LegacyPartLongs(flag: LegacyFlag, p: string)
    requires LegacyParsePart(flag, p).Ok?
    ensures LegacyParsePart(flag, p).value.long == flag.long + (if SpecFlags.IsLongPart(p) then [p[2..]] else [])
  {
    if !SpecFlags.IsLongPart(p) {
      assert LegacyParsePart(flag, p).value.long == flag.long;
      assert flag.long + [] == flag.long;
    }
  }

  /** What one accepted part adds to the short names. */
  lemma LegacyPartShorts(flag: LegacyFlag, p: string)
    requires LegacyParsePart(flag, p).Ok?
    ensures LegacyParsePart(flag, p).value.short == flag.short + (if SpecFlags.IsShortPart(p) && |p| > 1 then [p[1]] else [])
  {
    if !SpecFlags.IsShortPart(p) {
      assert LegacyParsePart(flag, p).value.short == flag.short;
      assert flag.short + [] == flag.short;
    }
  }

  /** A `name:` part renames the flag; no other part does. */
  lemma LegacyPartName(flag: LegacyFlag, p: string)
    requires LegacyParsePart(flag, p).Ok?
    ensures LegacyParsePart(flag, p).value.name == if SpecFlags.IsNamePart(p) then p[..|p| - 1] else flag.name
  {
    if !SpecFlags.IsNamePart(p) {
      assert LegacyParsePart(flag, p).value.name == flag.name;
    }
  }

  /** The long and short names are those of the parts, appended in order,
      and the last `name:` part names the flag. */
  lemma {:induction false} LegacyPartsNames(flag: LegacyFlag, parts: seq<string>)
    ensures LegacyParseParts(flag, parts).Ok? ==>
      && LegacyParseParts(flag, parts).value.long == flag.long + SpecFlags.LongsOf(parts)
      && LegacyParseParts(flag, parts).value.short == flag.short + SpecFlags.ShortsOf(parts)
      && LegacyParseParts(flag, parts).value.name == SpecFlags.NameOf(parts, flag.name)
    decreases |parts|
  {
    if parts != [] && LegacyParsePart(flag, parts[0]).Ok? {
      var p := parts[0];
      var f := LegacyParsePart(flag, p).value;
      assert LegacyParseParts(flag, parts) == LegacyParseParts(f, parts[1..]);
      LegacyPartLongs(flag, p);
      LegacyPartShorts(flag, p);
      LegacyPartName(flag, p);
      LegacyPartsNames(f, parts[1..]);
      SpecFlags.ConcatAssoc2(flag.long, if SpecFlags.IsLongPart(p) then [p[2..]] else [], SpecFlags.LongsOf(parts[1..]));
      SpecFlags.ConcatAssoc2(flag.short, if SpecFlags.IsShortPart(p) && |p| > 1 then [p[1]] else [], SpecFlags.ShortsOf(parts[1..]));
    }
  }

  /** A `...` part makes the argument seen so far variadic, or the flag
      itself when there is none yet. */
  lemma LegacyDotsPart(flag: LegacyFlag)
    ensures LegacyParsePart(flag, Dots) == Ok(MarkDots(flag))
  {
    assert Dots[2] == '.' && Dots[0] == '.';
    NotEndsWithLast(Dots, ":");
    assert Dots[..1] == ".";
  }

  /** A text is refused exactly when one of its parts is; an accepted text
      gives the long and short names of its parts in order, its last
      `name:` part names it, and without one the first long, else the first
      short, names it; the stored usage is the one the flag prints. */
  lemma LegacyFromStrSpec(input: string)
    ensures LegacyFlagFromStr(input).Err? <==>
      exists i :: 0 <= i < |Words(PadDots(input))| && LegacyBadPart(Words(PadDots(input))[i])
    ensures LegacyFlagFromStr(input).Ok? ==>
      var f := LegacyFlagFromStr(input).value;
      var parts := Words(PadDots(input));
      && f.long == SpecFlags.LongsOf(parts)
      && f.short == SpecFlags.ShortsOf(parts)
      && (SpecFlags.NameOf(parts, "") != "" ==> f.name == SpecFlags.NameOf(parts, ""))
      && (SpecFlags.NameOf(parts, "") == "" ==> f.name == NameFromShortAndLong(f.short, f.long).GetOr(""))
      && f.usage == LegacyFlagUsage(f)
  {
    LegacyPartsError(DefaultLegacyFlag, Words(PadDots(input)));
    LegacyPartsNames(DefaultLegacyFlag, Words(PadDots(input)));
  }
}
