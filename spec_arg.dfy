/** Positional arguments of the usage library (lib/src/spec/arg.rs): the
    usage-string grammar `<x>`, `[x]`, `x…`, `<-- x>`, its inverse, and the
    rules applied when an argument is read from a spec. */
module SpecArgs {
  import opened Wrappers
  import opened Strings
  import opened UsageSpec

  /** The one-character ellipsis that marks a variadic argument. */
  const Ellipsis: string := "\U{2026}"

  /** The character `unwrap_or_default` gives for an empty name. */
  const NoChar: char := 0 as char

  /** Strips one trailing `...` or `…`; says whether one was there. */
  function StripEllipsis(name: string): (r: (string, bool))
    ensures r.1 <==> EndsWith(name, "...") || EndsWith(name, Ellipsis)
    ensures EndsWith(name, "...") ==> r.0 + "..." == name
    ensures !EndsWith(name, "...") && EndsWith(name, Ellipsis) ==> r.0 + Ellipsis == name
    ensures !r.1 ==> r.0 == name
    ensures |r.0| <= |name|
  {
    if EndsWith(name, "...") then (name[..|name| - 3], true)
    else if EndsWith(name, Ellipsis) then (name[..|name| - 1], true)
    else (name, false)
  }

  function FirstChar(s: string): char {
    if s == [] then NoChar else s[0]
  }

  function LastChar(s: string): char {
    if s == [] then NoChar else s[|s| - 1]
  }

  /** `From<&str> for SpecArg`: a required argument named by the text; a
      trailing ellipsis makes it variadic, `[..]` optional, `<..>` is
      dropped, and a leading `-- ` inside means it comes after `--`. */
  function ArgFromStr(input: string): (r: Arg)
    ensures r.variadic <==> EndsWith(input, "...") || EndsWith(input, Ellipsis)
    ensures |r.name| <= |input|
  {
    var arg := DefaultArg.(name := input, required := true);
    var stripped := StripEllipsis(arg.name);
    var arg := if stripped.1 then arg.(variadic := true, name := stripped.0) else arg;
    Unbracket(arg)
  }

  /** The brackets and the `-- ` of a name read from text. */
  function Unbracket(arg: Arg): (r: Arg)
    ensures r.variadic == arg.variadic && |r.name| <= |arg.name|
  {
    var first := FirstChar(arg.name);
    var last := LastChar(arg.name);
    var arg :=
      if first == '[' && last == ']' then arg.(name := arg.name[1..|arg.name| - 1], required := false)
      else if first == '<' && last == '>' then arg.(name := arg.name[1..|arg.name| - 1])
      else arg;
    if StartsWith(arg.name, "-- ") then arg.(doubleDash := Required, name := arg.name[3..]) else arg
  }

  /** The name as it appears between the brackets of the usage. */
  function UsageName(a: Arg): string {
    if a.doubleDash == Required then "-- " + a.name else a.name
  }

  /** The bracketed part of the usage. */
  function UsageBody(a: Arg): string {
    if a.required then "<" + UsageName(a) + ">" else "[" + UsageName(a) + "]"
  }

  /** `SpecArg::usage`. */
  function ArgUsage(a: Arg): (r: string)
    ensures a.variadic <==> EndsWith(r, Ellipsis)
    ensures StartsWith(r, if a.required then "<" else "[")
  {
    if a.variadic then UsageBody(a) + Ellipsis else UsageBody(a)
  }

  // ---------------------------------------------------------------------
  // The grammar, case by case
  // ---------------------------------------------------------------------

  /** Everything read from text starts from the defaults, apart from what
      the text sets. */
  lemma FromStrDefaults(input: string)
    ensures ArgFromStr(input).help.None? && ArgFromStr(input).default == []
    ensures ArgFromStr(input).doubleDash in {Optional, Required}
    ensures ArgFromStr(input).usage == "" && !ArgFromStr(input).hide
  {
  }

  /** `[x]` is an optional argument named `x`. */
  lemma FromStrOptional(x: string)
    requires !StartsWith(x, "-- ") && !EndsWith(x + "]", "...")
    ensures ArgFromStr("[" + x + "]").name == x
    ensures !ArgFromStr("[" + x + "]").required
    ensures !ArgFromStr("[" + x + "]").variadic
    ensures ArgFromStr("[" + x + "]").doubleDash == Optional
  {
    var s := "[" + x + "]";
    NotEndsWithLast(s, Ellipsis);
    assert s[1..|s| - 1] == x;
  }

  /** `<x>` is a required argument named `x`. */
  lemma FromStrRequired(x: string)
    requires !StartsWith(x, "-- ")
    ensures ArgFromStr("<" + x + ">").name == x
    ensures ArgFromStr("<" + x + ">").required
    ensures !ArgFromStr("<" + x + ">").variadic
    ensures ArgFromStr("<" + x + ">").doubleDash == Optional
  {
    var s := "<" + x + ">";
    NotEndsWithLast(s, "...");
    NotEndsWithLast(s, Ellipsis);
    assert s[1..|s| - 1] == x;
  }

  /** A bare name is a required argument with that name. */
  lemma FromStrBare(x: string)
    requires !EndsWith(x, "...") && !EndsWith(x, Ellipsis) && !StartsWith(x, "-- ")
    requires !(FirstChar(x) == '[' && LastChar(x) == ']') && !(FirstChar(x) == '<' && LastChar(x) == '>')
    ensures ArgFromStr(x).name == x && ArgFromStr(x).required && !ArgFromStr(x).variadic
    ensures ArgFromStr(x).doubleDash == Optional
  {
  }

  /** After the brackets are gone, a leading `-- ` is removed and marks
      the argument as coming after `--`. */
  lemma FromStrDoubleDash(x: string)
    ensures ArgFromStr("<-- " + x + ">").name == x
    ensures ArgFromStr("<-- " + x + ">").doubleDash == Required
    ensures ArgFromStr("<-- " + x + ">").required
  {
    var s := "<-- " + x + ">";
    NotEndsWithLast(s, "...");
    NotEndsWithLast(s, Ellipsis);
    assert s[1..|s| - 1] == "-- " + x;
    assert ("-- " + x)[3..] == x;
  }

  // ---------------------------------------------------------------------
  // Usage and read-back
  // ---------------------------------------------------------------------

  /** The usage wraps the name in `<>` or `[]` by requiredness, puts `-- `
      before it when the argument comes after `--`, and ends in `…` exactly
      when the argument is variadic. */
  lemma UsageShape(a: Arg)
    ensures var b := UsageBody(a);
      && |b| == |UsageName(a)| + 2 && b[1..|b| - 1] == UsageName(a)
      && (a.required ==> b[0] == '<' && b[|b| - 1] == '>')
      && (!a.required ==> b[0] == '[' && b[|b| - 1] == ']')
    ensures EndsWith(ArgUsage(a), Ellipsis) <==> a.variadic
    ensures a.variadic ==> ArgUsage(a)[..|ArgUsage(a)| - 1] == UsageBody(a)
  {
    var b := UsageBody(a);
    NotEndsWithLast(b, Ellipsis);
    if a.variadic {
      EndsWithAppend(b, Ellipsis);
    }
  }

  /** Stripping the ellipsis from a usage leaves its bracketed part and
      tells whether the argument is variadic. */
  lemma StripUsage(a: Arg)
    ensures StripEllipsis(ArgUsage(a)) == (UsageBody(a), a.variadic)
  {
    var u := ArgUsage(a);
    UsageShape(a);
    NotEndsWithLast(u, "...");
  }

  /** Reading text is stripping the ellipsis, then the brackets. */
  lemma FromStrStripped(input: string)
    ensures ArgFromStr(input)
      == Unbracket(DefaultArg.(name := StripEllipsis(input).0, required := true, variadic := StripEllipsis(input).1))
  {
  }

  /** The brackets of a usage are read back as the requiredness and the
      double-dash mode they print. */
  lemma UnbracketUsage(a: Arg, v: bool)
    requires a.doubleDash == Optional || a.doubleDash == Required
    requires a.doubleDash == Required || !StartsWith(a.name, "-- ")
    ensures var r := Unbracket(DefaultArg.(name := UsageBody(a), required := true, variadic := v));
      r.name == a.name && r.required == a.required && r.variadic == v && r.doubleDash == a.doubleDash
  {
    UsageShape(a);
    var inner := UsageName(a);
    if a.doubleDash == Required {
      StartsWithAppend("-- ", a.name);
      assert inner[3..] == a.name;
    }
  }

  /** Reading an argument's usage back gives its name, requiredness,
      variadicity and double-dash mode, for the modes the grammar can
      express, and for names that do not themselves start with `-- ` unless
      the mode adds one. */
  lemma {:induction false} UsageRoundTrip(a: Arg)
    requires a.doubleDash == Optional || a.doubleDash == Required
    requires a.doubleDash == Required || !StartsWith(a.name, "-- ")
    ensures ArgFromStr(ArgUsage(a)).name == a.name
    ensures ArgFromStr(ArgUsage(a)).required == a.required
    ensures ArgFromStr(ArgUsage(a)).variadic == a.variadic
    ensures ArgFromStr(ArgUsage(a)).doubleDash == a.doubleDash
  {
    StripUsage(a);
    FromStrStripped(ArgUsage(a));
    UnbracketUsage(a, a.variadic);
  }

  // ---------------------------------------------------------------------
  // Reading from a spec
  // ---------------------------------------------------------------------

  /** What `SpecArg::parse` does once the properties and children are read:
      an argument with a default is not required, the usage is stored, and
      the first line of the help is kept. */
  function FinishParse(a: Arg): (r: Arg)
    ensures r.default != [] ==> !r.required
    ensures r.default == [] ==> r.required == a.required
    ensures r.usage == ArgUsage(r)
    ensures r.helpFirstLine == if a.help.Some? then Some(FirstLine(a.help.value)) else a.helpFirstLine
    ensures r.(usage := a.usage, required := a.required, helpFirstLine := a.helpFirstLine) == a
  {
    var a1 := if a.default != [] then a.(required := false) else a;
    var a2 := a1.(usage := ArgUsage(a1));
    if a2.help.Some? then a2.(helpFirstLine := Some(FirstLine(a2.help.value))) else a2
  }

  /** Arguments are compared and hashed by name alone: two arguments with
      the same name are one key of the parser's value map. */
  predicate SameArg(a: Arg, b: Arg) {
    a.name == b.name
  }
}
