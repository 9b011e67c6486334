/** Positional arguments of the first usage crate (src/parse/arg.rs): the
    usage-string grammar `<x>`, `[x]`, `x...` with an ASCII ellipsis, and
    the usage an argument prints. */
module LegacyArgs {
  import opened Wrappers
  import opened Strings
  import SpecArgs

  /** `Arg` of the first crate. */
  datatype LegacyArg = LegacyArg(
    name: string,
    help: Option<string>,
    helpLong: Option<string>,
    required: bool,
    variadic: bool,
    varMin: Option<int>,
    varMax: Option<int>,
    hide: bool,
    default: Option<string>)

  /** `Arg::default()`. */
  const DefaultLegacyArg: LegacyArg := LegacyArg("", None, None, false, false, None, None, false, None)

  const Dots: string := "..."

  /** `From<&str> for Arg`: a required argument named by the text; a
      trailing `...` makes it variadic and is removed, then `[..]` makes it
      optional and `<..>` is dropped. */
  function LegacyArgFromStr(input: string): (r: LegacyArg)
    ensures |r.name| <= |input|
  {
    var arg := DefaultLegacyArg.(name := input, required := true);
    var arg := if EndsWith(input, Dots) then arg.(variadic := true, name := arg.name[..|arg.name| - 3]) else arg;
    var first := SpecArgs.FirstChar(arg.name);
    var last := SpecArgs.LastChar(arg.name);
    if first == '[' && last == ']' then arg.(name := arg.name[1..|arg.name| - 1], required := false)
    else if first == '<' && last == '>' then arg.(name := arg.name[1..|arg.name| - 1])
    else arg
  }

  /** `Arg::usage`. */
  function LegacyArgUsage(a: LegacyArg): (r: string)
    ensures a.variadic ==> EndsWith(r, Dots)
    ensures StartsWith(r, if a.required then "<" else "[")
  {
    var name := if a.required then "<" + a.name + ">" else "[" + a.name + "]";
    if a.variadic then name + Dots else name
  }

  /** An argument is variadic exactly when its text ends with `...`, and
      everything but the name, requiredness and variadicity keeps its
      default. */
  lemma LegacyFromStrFields(input: string)
    ensures LegacyArgFromStr(input).variadic <==> EndsWith(input, Dots)
    ensures LegacyArgFromStr(input).(name := "", required := false, variadic := false) == DefaultLegacyArg
  {
  }

  /** `[x]` is an optional argument named `x`, and `<x>` a required one. */
  lemma LegacyFromStrBracketed(x: string)
    ensures LegacyArgFromStr("[" + x + "]").name == x && !LegacyArgFromStr("[" + x + "]").required
    ensures LegacyArgFromStr("<" + x + ">").name == x && LegacyArgFromStr("<" + x + ">").required
    ensures !LegacyArgFromStr("[" + x + "]").variadic && !LegacyArgFromStr("<" + x + ">").variadic
  {
    var o, r := "[" + x + "]", "<" + x + ">";
    NotEndsWithLast(o, Dots);
    NotEndsWithLast(r, Dots);
    assert o[1..|o| - 1] == x;
    assert r[1..|r| - 1] == x;
  }

  /** A name that is not bracketed and has no trailing `...` is a required
      argument of that very name. */
  lemma LegacyFromStrBare(x: string)
    requires !EndsWith(x, Dots)
    requires !(SpecArgs.FirstChar(x) == '[' && SpecArgs.LastChar(x) == ']')
    requires !(SpecArgs.FirstChar(x) == '<' && SpecArgs.LastChar(x) == '>')
    ensures LegacyArgFromStr(x).name == x && LegacyArgFromStr(x).required && !LegacyArgFromStr(x).variadic
  {
  }

  /** The usage is the name in `<>` when required and `[]` when optional,
      followed by `...` exactly when the argument is variadic. */
  lemma LegacyUsageShape(a: LegacyArg)
    ensures var u := LegacyArgUsage(a); var b := if a.variadic then u[..|u| - 3] else u;
      && EndsWith(u, Dots) == a.variadic
      && |b| == |a.name| + 2 && b[1..|b| - 1] == a.name
      && (a.required ==> b[0] == '<' && b[|b| - 1] == '>')
      && (!a.required ==> b[0] == '[' && b[|b| - 1] == ']')
  {
    var b := if a.required then "<" + a.name + ">" else "[" + a.name + "]";
    NotEndsWithLast(b, Dots);
    if a.variadic {
      EndsWithAppend(b, Dots);
      assert (b + Dots)[..|b + Dots| - 3] == b;
    }
  }

  /** Reading an argument's usage back gives its name, requiredness and
      variadicity, whatever the name: the brackets protect a name that is
      itself bracketed or ends in `...`. */
  lemma LegacyUsageRoundTrip(a: LegacyArg)
    ensures LegacyArgFromStr(LegacyArgUsage(a)).name == a.name
    ensures LegacyArgFromStr(LegacyArgUsage(a)).required == a.required
    ensures LegacyArgFromStr(LegacyArgUsage(a)).variadic == a.variadic
  {
    LegacyUsageShape(a);
  }

  /** A trailing `...` only adds variadicity to what the rest reads as. */
  lemma LegacyFromStrDots(b: string)
    requires !EndsWith(b, Dots)
    ensures LegacyArgFromStr(b + Dots) == LegacyArgFromStr(b).(variadic := true)
  {
    EndsWithAppend(b, Dots);
    assert (b + Dots)[..|b + Dots| - 3] == b;
  }

  /** Printing what was read from a bracketed text gives the text back. */
  lemma LegacyFromStrRoundTrip(x: string, required: bool, variadic: bool)
    ensures var s := (if required then "<" + x + ">" else "[" + x + "]") + (if variadic then Dots else "");
      LegacyArgUsage(LegacyArgFromStr(s)) == s
  {
    var b := if required then "<" + x + ">" else "[" + x + "]";
    NotEndsWithLast(b, Dots);
    LegacyFromStrBracketed(x);
    if variadic {
      LegacyFromStrDots(b);
    } else {
      assert b + "" == b;
    }
  }
}
