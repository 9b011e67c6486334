/** The man-page renderer (lib/src/docs/manpage/renderer.rs). Every step
    appends requests and text lines to a roff document; the document is
    kept as the list of those events, and its textual form (escaping, the
    `roff` crate's output) is not modelled. */
module Manpage {
  import opened Wrappers
  import opened Strings
  import opened UsageSpec
  import opened DocsModels

  datatype Font = Bold | Roman | Italic

  datatype Span = Span(font: Font, text: string)

  /** A roff request (`.TH`, `.SH`, `.TP`, ...) or a line of styled text. */
  datatype Event = Control(name: string, args: seq<string>) | Text(spans: seq<Span>)

  /** A section header. */
  predicate IsHeader(e: Event) {
    e.Control? && e.name == "SH"
  }

  /** The document being written: the events so far. */
  class Roff {
    var events: seq<Event>

    constructor ()
      ensures events == []
    {
      events := [];
    }

    /** `control`. */
    method Request(name: string, args: seq<string>)
      modifies this
      ensures events == old(events) + [Control(name, args)]
    {
      events := events + [Control(name, args)];
    }

    /** `text`. */
    method Line(spans: seq<Span>)
      modifies this
      ensures events == old(events) + [Text(spans)]
    {
      events := events + [Text(spans)];
    }
  }

  // ---------------------------------------------------------------------
  // Lists of events
  // ---------------------------------------------------------------------

  /** Appending to what was already appended. */
  lemma Extend<T>(o: seq<T>, acc: seq<T>, x: seq<T>)
    ensures o + acc + x == o + (acc + x)
  {
  }

  /** Appending a block in two parts. */
  lemma Section<T>(o: seq<T>, acc: seq<T>, head: seq<T>, body: seq<T>)
    ensures o + acc + head + body == o + (acc + (head + body))
  {
  }

  /** Two, three or four events pushed one at a time. */
  lemma Two<T>(o: seq<T>, a: T, b: T)
    ensures o + [a] + [b] == o + [a, b]
  {
  }

  lemma Three<T>(o: seq<T>, a: T, b: T, c: T)
    ensures o + [a] + [b] + [c] == o + [a, b, c]
  {
  }

  lemma Four<T>(o: seq<T>, a: T, b: T, c: T, d: T)
    ensures o + [a] + [b] + [c] + [d] == o + [a, b, c, d]
  {
  }

  /** Appending nothing. */
  lemma Nothing<T>(o: seq<T>, acc: seq<T>)
    ensures o + acc == o + (acc + [])
  {
  }

  /** The events of every item, in order. */
  function ConcatMap<A, B>(f: A -> seq<B>, xs: seq<A>): seq<B> {
    if xs == [] then [] else ConcatMap(f, xs[..|xs| - 1]) + f(xs[|xs| - 1])
  }

  lemma ConcatMapStep<A, B>(f: A -> seq<B>, xs: seq<A>, i: nat)
    requires i < |xs|
    ensures ConcatMap(f, xs[..i + 1]) == ConcatMap(f, xs[..i]) + f(xs[i])
  {
    assert xs[..i + 1][..i] == xs[..i];
  }

  lemma {:induction false} ConcatMapAppend<A, B>(f: A -> seq<B>, a: seq<A>, b: seq<A>)
    ensures ConcatMap(f, a + b) == ConcatMap(f, a) + ConcatMap(f, b)
    decreases |b|
  {
    if b == [] {
      assert a + b == a;
    } else {
      assert (a + b)[..|a + b| - 1] == a + b[..|b| - 1];
      assert (a + b)[|a + b| - 1] == b[|b| - 1];
      ConcatMapAppend(f, a, b[..|b| - 1]);
      Extend(ConcatMap(f, a), ConcatMap(f, b[..|b| - 1]), f(b[|b| - 1]));
    }
  }

  /** Every event of the list comes from one of the items. */
  lemma {:induction false} ConcatMapFrom<A, B>(f: A -> seq<B>, xs: seq<A>, y: B)
    requires y in ConcatMap(f, xs)
    ensures exists i :: 0 <= i < |xs| && y in f(xs[i])
  {
    var init := xs[..|xs| - 1];
    if y !in f(xs[|xs| - 1]) {
      ConcatMapFrom(f, init, y);
      var i :| 0 <= i < |init| && y in f(init[i]);
      assert init[i] == xs[i];
    }
  }

  /** `[x]` when the condition holds, nothing otherwise. */
  function When(c: bool, x: Event): seq<Event> {
    if c then [x] else []
  }

  /** A text line in one font, when there is a text. */
  function Styled(font: Font, t: Option<string>): seq<Event> {
    if t.Some? then [Text([Span(font, t.value)])] else []
  }

  /** A line between `.RS` and `.RE`. */
  function Indented(spans: seq<Span>): seq<Event> {
    [Control("RS", []), Text(spans), Control("RE", [])]
  }

  method RenderIndented(roff: Roff, spans: seq<Span>)
    modifies roff
    ensures roff.events == old(roff.events) + Indented(spans)
  {
    roff.Request("RS", []);
    roff.Line(spans);
    roff.Request("RE", []);
    Three(old(roff.events), Control("RS", []), Text(spans), Control("RE", []));
  }

  function DefaultLine(default: seq<string>): seq<Span> {
    [Span(Italic, "Default: "), Span(Roman, Join(default, ", "))]
  }

  /** The indented list of defaults, when there are any. */
  function DefaultBlock(default: seq<string>): seq<Event> {
    if default == [] then [] else Indented(DefaultLine(default))
  }

  function EnvLine(env: string): seq<Span> {
    [Span(Italic, "Environment: "), Span(Bold, env)]
  }

  function EnvBlock(env: Option<string>): seq<Event> {
    if env.Some? then Indented(EnvLine(env.value)) else []
  }

  function AliasLine(aliases: seq<string>): seq<Span> {
    [Span(Italic, "Aliases: "), Span(Roman, Join(aliases, ", "))]
  }

  function AliasBlock(aliases: seq<string>): seq<Event> {
    if aliases == [] then [] else Indented(AliasLine(aliases))
  }

  // ---------------------------------------------------------------------
  // build_synopsis
  // ---------------------------------------------------------------------

  /** One argument in the synopsis: `<name>` when required, else `[<name>]`,
      then a separate `...` when it takes several values. */
  function ArgParts(arg: DocArg): seq<string> {
    [if arg.required then "<" + arg.name + ">" else "[<" + arg.name + ">]"] + if arg.variadic then ["..."] else []
  }

  function ArgsParts(args: seq<DocArg>): seq<string> {
    ConcatMap(ArgParts, args)
  }

  /** The parts of the synopsis: `[OPTIONS]` when there are flags, the
      arguments, then `<COMMAND>` or `[COMMAND]` when there are subcommands. */
  function SynopsisParts(cmd: DocCommand): seq<string> {
    (if cmd.flags != [] then ["[OPTIONS]"] else [])
    + ArgsParts(cmd.args)
    + (if cmd.subcommands != [] then [if cmd.subcommandRequired then "<COMMAND>" else "[COMMAND]"] else [])
  }

  function Synopsis(cmd: DocCommand): string {
    Join(SynopsisParts(cmd), " ")
  }

  function VariadicCount(args: seq<DocArg>): nat {
    if args == [] then 0 else VariadicCount(args[..|args| - 1]) + if args[|args| - 1].variadic then 1 else 0
  }

  /** There is one part per argument and one more per variadic argument, and
      none of them is the options marker: each starts with `<`, `[<` or `.`. */
  lemma {:induction false} ArgsPartsShape(args: seq<DocArg>)
    ensures |ArgsParts(args)| == |args| + VariadicCount(args)
    ensures forall k :: 0 <= k < |ArgsParts(args)| ==> ArgsParts(args)[k] != "[OPTIONS]"
  {
    if args != [] {
      var arg := args[|args| - 1];
      ArgsPartsShape(args[..|args| - 1]);
      var p := if arg.required then "<" + arg.name + ">" else "[<" + arg.name + ">]";
      assert p[0] == '<' || p[1] == '<';
      assert "[OPTIONS]"[0] == '[' && "[OPTIONS]"[1] == 'O';
      assert p != "[OPTIONS]";
      assert "..." != "[OPTIONS]" by {
        assert "..."[0] == '.';
      }
    }
  }

  /** `[OPTIONS]` leads the synopsis exactly when the command has flags;
      with subcommands the synopsis ends with `<COMMAND>` when one is
      required and `[COMMAND]` otherwise; and the parts are counted by the
      flags, the arguments and the subcommands. */
  lemma SynopsisSpec(cmd: DocCommand)
    ensures var parts := SynopsisParts(cmd);
      && (parts != [] && parts[0] == "[OPTIONS]" <==> cmd.flags != [])
      && (cmd.subcommands != [] ==> parts[|parts| - 1] == (if cmd.subcommandRequired then "<COMMAND>" else "[COMMAND]"))
      && |parts| == (if cmd.flags != [] then 1 else 0) + |cmd.args| + VariadicCount(cmd.args) + (if cmd.subcommands != [] then 1 else 0)
  {
    ArgsPartsShape(cmd.args);
    var parts := SynopsisParts(cmd);
    if cmd.flags == [] && parts != [] {
      if ArgsParts(cmd.args) != [] {
        assert parts[0] == ArgsParts(cmd.args)[0];
      } else {
        assert parts[0] != "[OPTIONS]";
      }
    }
  }

  /** `build_synopsis`, pushing the parts one by one. */
  method BuildSynopsis(cmd: DocCommand) returns (s: string)
    ensures s == Synopsis(cmd)
  {
    var parts := if cmd.flags != [] then ["[OPTIONS]"] else [];
    ghost var head := parts;
    for i := 0 to |cmd.args|
      invariant parts == head + ArgsParts(cmd.args[..i])
    {
      ConcatMapStep(ArgParts, cmd.args, i);
      var arg := cmd.args[i];
      var more := if arg.required then ["<" + arg.name + ">"] else ["[<" + arg.name + ">]"];
      if arg.variadic {
        more := more + ["..."];
      }
      Extend(head, ArgsParts(cmd.args[..i]), more);
      parts := parts + more;
    }
    assert cmd.args[..|cmd.args|] == cmd.args;
    if cmd.subcommands != [] {
      if cmd.subcommandRequired {
        parts := parts + ["<COMMAND>"];
      } else {
        parts := parts + ["[COMMAND]"];
      }
    } else {
      assert parts == parts + [];
    }
    s := Join(parts, " ");
  }

  // ---------------------------------------------------------------------
  // render_flag and render_arg
  // ---------------------------------------------------------------------

  /** The names on a flag's line: every short as `-c`, then every long as
      `--name`. */
  function FlagNames(flag: DocFlag): seq<string> {
    Prefixed("-", Chars(flag.short)) + Prefixed("--", flag.long)
  }

  lemma FlagNamesSpec(flag: DocFlag)
    ensures |FlagNames(flag)| == |flag.short| + |flag.long|
    ensures forall i :: 0 <= i < |flag.short| ==> FlagNames(flag)[i] == "-" + [flag.short[i]]
    ensures forall j :: 0 <= j < |flag.long| ==> FlagNames(flag)[|flag.short| + j] == "--" + flag.long[j]
  {
  }

  /** The flag's line: its names joined by `, ` in bold, then the argument
      name in italics when it takes one. */
  function FlagLine(flag: DocFlag): seq<Span> {
    [Span(Bold, Join(FlagNames(flag), ", "))] + if flag.arg.Some? then [Span(Roman, " "), Span(Italic, "<" + flag.arg.value.name + ">")] else []
  }

  /** The events of `render_flag`: the flag's line, the help (long in
      preference to short), the defaults and the environment variable. */
  function FlagEvents(flag: DocFlag): seq<Event> {
    [Control("TP", []), Text(FlagLine(flag))]
    + Styled(Roman, flag.helpLong.Or(flag.help))
    + DefaultBlock(flag.default)
    + EnvBlock(flag.env)
  }

  /** A flag's entry opens with `.TP` and its names; the defaults line is
      there exactly when the flag has defaults, and an environment line
      exactly when it has an environment variable. */
  lemma FlagEventsSpec(flag: DocFlag)
    ensures FlagEvents(flag)[0] == Control("TP", []) && FlagEvents(flag)[1] == Text(FlagLine(flag))
    ensures Text(DefaultLine(flag.default)) in FlagEvents(flag) <==> flag.default != []
    ensures flag.env.Some? ==> Text(EnvLine(flag.env.value)) in FlagEvents(flag)
    ensures flag.env.None? ==> forall v :: Text(EnvLine(v)) !in FlagEvents(flag)
  {
    var head := [Control("TP", []), Text(FlagLine(flag))] + Styled(Roman, flag.helpLong.Or(flag.help));
    var d := DefaultBlock(flag.default);
    var e := EnvBlock(flag.env);
    assert FlagEvents(flag) == head + d + e;
    var dl := Text(DefaultLine(flag.default));
    assert dl !in head by {
      assert FlagLine(flag)[0].font == Bold;
      assert DefaultLine(flag.default) != FlagLine(flag);
    }
    assert dl !in e by {
      assert "Default: "[0] != "Environment: "[0];
    }
    if flag.default != [] {
      assert d[1] == dl;
    }
    forall v | flag.env.None?
      ensures Text(EnvLine(v)) !in FlagEvents(flag)
    {
      assert EnvLine(v) != FlagLine(flag);
      assert "Default: "[0] != "Environment: "[0];
    }
    if flag.env.Some? {
      assert e[1] == Text(EnvLine(flag.env.value));
    }
  }

  /** The flag's names joined by `, `, collected in two loops. */
  method FlagUsage(flag: DocFlag) returns (usage: string)
    ensures usage == Join(FlagNames(flag), ", ")
  {
    var parts := [];
    for i := 0 to |flag.short|
      invariant |parts| == i
      invariant forall k :: 0 <= k < i ==> parts[k] == "-" + [flag.short[k]]
    {
      parts := parts + ["-" + [flag.short[i]]];
    }
    for j := 0 to |flag.long|
      invariant |parts| == |flag.short| + j
      invariant forall k :: 0 <= k < |flag.short| ==> parts[k] == "-" + [flag.short[k]]
      invariant forall k :: 0 <= k < j ==> parts[|flag.short| + k] == "--" + flag.long[k]
    {
      parts := parts + ["--" + flag.long[j]];
    }
    FlagNamesSpec(flag);
    forall k | 0 <= k < |parts|
      ensures parts[k] == FlagNames(flag)[k]
    {
      if k >= |flag.short| {
        var j := k - |flag.short|;
        assert parts[|flag.short| + j] == "--" + flag.long[j];
      }
    }
    assert parts == FlagNames(flag);
    usage := Join(parts, ", ");
  }

  /** The opening of `render_flag`: `.TP` and the flag's names. */
  method RenderFlagLine(roff: Roff, flag: DocFlag)
    modifies roff
    ensures roff.events == old(roff.events) + [Control("TP", []), Text(FlagLine(flag))]
  {
    ghost var o := roff.events;
    roff.Request("TP", []);
    var usage := FlagUsage(flag);
    var line := [Span(Bold, usage)];
    if flag.arg.Some? {
      line := line + [Span(Roman, " "), Span(Italic, "<" + flag.arg.value.name + ">")];
    }
    assert line == FlagLine(flag);
    roff.Line(line);
    Two(o, Control("TP", []), Text(line));
  }

  /** `render_flag`. */
  method RenderFlag(roff: Roff, flag: DocFlag)
    modifies roff
    ensures roff.events == old(roff.events) + FlagEvents(flag)
  {
    ghost var o := roff.events;
    RenderFlagLine(roff, flag);
    ghost var acc := [Control("TP", []), Text(FlagLine(flag))];
    var help := flag.helpLong.Or(flag.help);
    if help.Some? {
      roff.Line([Span(Roman, help.value)]);
    }
    Extend(o, acc, Styled(Roman, help));
    acc := acc + Styled(Roman, help);
    if flag.default != [] {
      RenderIndented(roff, [Span(Italic, "Default: "), Span(Roman, Join(flag.default, ", "))]);
    }
    Extend(o, acc, DefaultBlock(flag.default));
    acc := acc + DefaultBlock(flag.default);
    if flag.env.Some? {
      RenderIndented(roff, [Span(Italic, "Environment: "), Span(Bold, flag.env.value)]);
    }
    Extend(o, acc, EnvBlock(flag.env));
  }

  predicate Documented(arg: DocArg) {
    arg.help.Some? || arg.helpLong.Some?
  }

  /** Whether some argument has help. */
  predicate AnyDocumented(args: seq<DocArg>) {
    exists i :: 0 <= i < |args| && Documented(args[i])
  }

  /** The events of `render_arg`: nothing for an undocumented argument. */
  function ArgEvents(arg: DocArg): seq<Event> {
    if !Documented(arg) then []
    else
      [Control("TP", []), Text([Span(Bold, "<" + arg.name + ">")])]
      + Styled(Roman, arg.helpLong.Or(arg.help))
      + DefaultBlock(arg.default)
  }

  /** An argument has an entry exactly when it has help, and the entry shows
      the long help in preference to the short one. */
  lemma ArgEventsSpec(arg: DocArg)
    ensures ArgEvents(arg) == [] <==> arg.help.None? && arg.helpLong.None?
    ensures ArgEvents(arg) != [] ==>
      ArgEvents(arg)[0] == Control("TP", []) && ArgEvents(arg)[2] == Text([Span(Roman, if arg.helpLong.Some? then arg.helpLong.value else arg.help.value)])
  {
  }

  method RenderArg(roff: Roff, arg: DocArg)
    modifies roff
    ensures roff.events == old(roff.events) + ArgEvents(arg)
  {
    if arg.help.None? && arg.helpLong.None? {
      return;
    }
    ghost var o := roff.events;
    roff.Request("TP", []);
    roff.Line([Span(Bold, "<" + arg.name + ">")]);
    Two(o, Control("TP", []), Text([Span(Bold, "<" + arg.name + ">")]));
    ghost var acc := [Control("TP", []), Text([Span(Bold, "<" + arg.name + ">")])];
    var help := arg.helpLong.Or(arg.help);
    if help.Some? {
      roff.Line([Span(Roman, help.value)]);
    }
    Extend(o, acc, Styled(Roman, help));
    acc := acc + Styled(Roman, help);
    if arg.default != [] {
      RenderIndented(roff, [Span(Italic, "Default: "), Span(Roman, Join(arg.default, ", "))]);
    }
    Extend(o, acc, DefaultBlock(arg.default));
  }

  method RenderFlags(roff: Roff, flags: seq<DocFlag>)
    modifies roff
    ensures roff.events == old(roff.events) + ConcatMap(FlagEvents, flags)
  {
    for i := 0 to |flags|
      invariant roff.events == old(roff.events) + ConcatMap(FlagEvents, flags[..i])
    {
      ConcatMapStep(FlagEvents, flags, i);
      Extend(old(roff.events), ConcatMap(FlagEvents, flags[..i]), FlagEvents(flags[i]));
      RenderFlag(roff, flags[i]);
    }
    assert flags[..|flags|] == flags;
  }

  method RenderArgs(roff: Roff, args: seq<DocArg>)
    modifies roff
    ensures roff.events == old(roff.events) + ConcatMap(ArgEvents, args)
  {
    for i := 0 to |args|
      invariant roff.events == old(roff.events) + ConcatMap(ArgEvents, args[..i])
    {
      ConcatMapStep(ArgEvents, args, i);
      Extend(old(roff.events), ConcatMap(ArgEvents, args[..i]), ArgEvents(args[i]));
      RenderArg(roff, args[i]);
    }
    assert args[..|args|] == args;
  }

  /** The `any` over the arguments. */
  method HasDocumentedArgs(args: seq<DocArg>) returns (b: bool)
    ensures b <==> AnyDocumented(args)
  {
    b := false;
    for i := 0 to |args|
      invariant b <==> exists j :: 0 <= j < i && Documented(args[j])
    {
      if args[i].help.Some? || args[i].helpLong.Some? {
        b := true;
      }
    }
  }

  // ---------------------------------------------------------------------
  // Examples
  // ---------------------------------------------------------------------

  /** The code of an example, indented by 4 after a break. */
  function CodeBlock(code: string): seq<Event> {
    [Control("PP", []), Control("RS", ["4"]), Text([Span(Roman, code)]), Control("RE", [])]
  }

  /** One example: a break before every example but the first, the header
      in bold, the help, then the code. */
  function ExampleEvents(e: DocExample, first: bool): seq<Event> {
    When(!first, Control("PP", [])) + Styled(Bold, e.header) + Styled(Roman, e.help) + CodeBlock(e.code)
  }

  function ExamplesEvents(es: seq<DocExample>): seq<Event> {
    if es == [] then [] else ExamplesEvents(es[..|es| - 1]) + ExampleEvents(es[|es| - 1], |es| == 1)
  }

  function LaterExample(e: DocExample): seq<Event> {
    ExampleEvents(e, false)
  }

  /** The first example is written without a leading break and every later
      one with it. */
  lemma {:induction false} ExamplesShape(es: seq<DocExample>)
    requires es != []
    ensures ExamplesEvents(es) == ExampleEvents(es[0], true) + ConcatMap(LaterExample, es[1..])
  {
    if |es| > 1 {
      var init := es[..|es| - 1];
      ExamplesShape(init);
      assert es[1..][..|es[1..]| - 1] == init[1..];
      assert init[0] == es[0];
      Extend(ExampleEvents(es[0], true), ConcatMap(LaterExample, init[1..]), LaterExample(es[|es| - 1]));
    } else {
      assert es[..0] == [];
      assert es[1..] == [];
    }
  }

  /** Each example's code is shown. */
  lemma {:induction false} ExamplesShowCode(es: seq<DocExample>)
    ensures forall i :: 0 <= i < |es| ==> Text([Span(Roman, es[i].code)]) in ExamplesEvents(es)
  {
    if es != [] {
      var init := es[..|es| - 1];
      var last := es[|es| - 1];
      ExamplesShowCode(init);
      var pre := When(|es| != 1, Control("PP", [])) + Styled(Bold, last.header) + Styled(Roman, last.help);
      assert ExampleEvents(last, |es| == 1) == pre + CodeBlock(last.code);
      assert Text([Span(Roman, last.code)]) in ExampleEvents(last, |es| == 1) by {
        assert (pre + CodeBlock(last.code))[|pre| + 2] == Text([Span(Roman, last.code)]);
      }
      forall i | 0 <= i < |init|
        ensures Text([Span(Roman, es[i].code)]) in ExamplesEvents(es)
      {
        assert init[i] == es[i];
      }
    }
  }

  method RenderExample(roff: Roff, e: DocExample, first: bool)
    modifies roff
    ensures roff.events == old(roff.events) + ExampleEvents(e, first)
  {
    ghost var o := roff.events;
    if !first {
      roff.Request("PP", []);
    }
    ghost var acc := When(!first, Control("PP", []));
    assert roff.events == o + acc;
    if e.header.Some? {
      roff.Line([Span(Bold, e.header.value)]);
    }
    Extend(o, acc, Styled(Bold, e.header));
    acc := acc + Styled(Bold, e.header);
    if e.help.Some? {
      roff.Line([Span(Roman, e.help.value)]);
    }
    Extend(o, acc, Styled(Roman, e.help));
    acc := acc + Styled(Roman, e.help);
    ghost var o2 := roff.events;
    roff.Request("PP", []);
    roff.Request("RS", ["4"]);
    roff.Line([Span(Roman, e.code)]);
    roff.Request("RE", []);
    Four(o2, Control("PP", []), Control("RS", ["4"]), Text([Span(Roman, e.code)]), Control("RE", []));
    Extend(o, acc, CodeBlock(e.code));
  }

  /** The numbered loop over examples shared by the page, the root command
      and the subcommand details. */
  method RenderExamples(roff: Roff, es: seq<DocExample>)
    modifies roff
    ensures roff.events == old(roff.events) + ExamplesEvents(es)
  {
    for i := 0 to |es|
      invariant roff.events == old(roff.events) + ExamplesEvents(es[..i])
    {
      assert es[..i + 1][..i] == es[..i];
      Extend(old(roff.events), ExamplesEvents(es[..i]), ExampleEvents(es[i], i == 0));
      RenderExample(roff, es[i], i == 0);
    }
    assert es[..|es|] == es;
  }

  // ---------------------------------------------------------------------
  // Subcommand summaries
  // ---------------------------------------------------------------------

  /** The first line of a help text (`lines().next()`), empty when there is
      none. */
  function FirstLine(s: string): string {
    var ls := Lines(s);
    if ls == [] then "" else ls[0]
  }

  lemma {:induction false} SplitOnFirst(s: string, c: char)
    ensures StartsWith(s, SplitOn(s, c)[0])
  {
    if s != [] && s[0] != c {
      SplitOnFirst(s[1..], c);
      var rest := SplitOn(s[1..], c);
      assert ([s[0]] + rest[0])[1..] == rest[0];
    }
  }

  /** The summary line holds no newline and begins the help text; a text
      of one line without a carriage return is its own first line. */
  lemma FirstLineSpec(s: string)
    ensures '\n' !in FirstLine(s)
    ensures StartsWith(s, FirstLine(s))
    ensures '\n' !in s && s != [] && s[|s| - 1] != '\r' ==> FirstLine(s) == s
  {
    SplitOnFirst(s, '\n');
    var parts := SplitOn(s, '\n');
    var p := parts[0];
    if StripCr(p) != p {
      assert StripCr(p) == p[..|p| - 1];
      assert s[..|StripCr(p)|] == p[..|StripCr(p)|];
    }
    if '\n' !in s {
      SplitOnNone(s, '\n');
    }
  }

  /** The events of `render_subcommand_summary`. */
  function SummaryEvents(name: string, cmd: DocCommand): seq<Event> {
    [Control("TP", []), Text([Span(Bold, name)])]
    + Styled(Roman, if cmd.helpLong.Or(cmd.help).Some? then Some(FirstLine(cmd.helpLong.Or(cmd.help).value)) else None)
    + AliasBlock(cmd.aliases)
  }

  method RenderSubcommandSummary(roff: Roff, name: string, cmd: DocCommand)
    modifies roff
    ensures roff.events == old(roff.events) + SummaryEvents(name, cmd)
  {
    ghost var o := roff.events;
    roff.Request("TP", []);
    roff.Line([Span(Bold, name)]);
    Two(o, Control("TP", []), Text([Span(Bold, name)]));
    ghost var acc := [Control("TP", []), Text([Span(Bold, name)])];
    var help := cmd.helpLong.Or(cmd.help);
    ghost var shown := if help.Some? then Some(FirstLine(help.value)) else None;
    if help.Some? {
      var ls := Lines(help.value);
      var firstLine := if ls == [] then "" else ls[0];
      roff.Line([Span(Roman, firstLine)]);
    }
    Extend(o, acc, Styled(Roman, shown));
    acc := acc + Styled(Roman, shown);
    if cmd.aliases != [] {
      RenderIndented(roff, [Span(Italic, "Aliases: "), Span(Roman, Join(cmd.aliases, ", "))]);
    }
    Extend(o, acc, AliasBlock(cmd.aliases));
  }

  // ---------------------------------------------------------------------
  // The walk over the subcommands
  // ---------------------------------------------------------------------

  /** A subcommand reached by the walk, with its full name. */
  datatype Visit = Visit(name: string, cmd: DocCommand)

  /** The name under a prefix: the key alone at the top, else after the
      prefix and a space. */
  function FullName(prefix: string, name: string): string {
    if prefix == "" then name else prefix + " " + name
  }

  /** The walk shared by `render_all_subcommands` and
      `render_subcommand_details`: each subcommand that is not hidden, then
      its own walk; a hidden subcommand is skipped with everything below it. */
  function Walk(cmd: DocCommand, prefix: string): seq<Visit>
    decreases cmd, 1
  {
    WalkSubcommands(cmd.subcommands, prefix)
  }

  function WalkSubcommands(subs: seq<Entry<DocCommand>>, prefix: string): seq<Visit>
    decreases subs, 0
  {
    if subs == [] then []
    else
      var last := subs[|subs| - 1];
      WalkSubcommands(subs[..|subs| - 1], prefix) + WalkOne(last, prefix)
  }

  function WalkOne(e: Entry<DocCommand>, prefix: string): seq<Visit>
    decreases e, 2
  {
    if e.value.hide then []
    else [Visit(FullName(prefix, e.key), e.value)] + Walk(e.value, FullName(prefix, e.key))
  }

  /** No command reached by the walk is hidden, and below a non-empty prefix
      every full name continues it after a space. */
  lemma {:induction false} WalkShown(cmd: DocCommand, prefix: string)
    ensures forall k :: 0 <= k < |Walk(cmd, prefix)| ==> !Walk(cmd, prefix)[k].cmd.hide
    ensures prefix != "" ==> forall k :: 0 <= k < |Walk(cmd, prefix)| ==> StartsWith(Walk(cmd, prefix)[k].name, prefix + " ")
    decreases cmd, 1
  {
    WalkSubcommandsShown(cmd.subcommands, prefix);
  }

  lemma {:induction false} WalkSubcommandsShown(subs: seq<Entry<DocCommand>>, prefix: string)
    ensures forall k :: 0 <= k < |WalkSubcommands(subs, prefix)| ==> !WalkSubcommands(subs, prefix)[k].cmd.hide
    ensures prefix != "" ==> forall k :: 0 <= k < |WalkSubcommands(subs, prefix)| ==> StartsWith(WalkSubcommands(subs, prefix)[k].name, prefix + " ")
    decreases subs, 0
  {
    if subs != [] {
      var last := subs[|subs| - 1];
      WalkSubcommandsShown(subs[..|subs| - 1], prefix);
      assert last in subs;
      WalkOneShown(last, prefix);
    }
  }

  lemma {:induction false} WalkOneShown(e: Entry<DocCommand>, prefix: string)
    ensures forall k :: 0 <= k < |WalkOne(e, prefix)| ==> !WalkOne(e, prefix)[k].cmd.hide
    ensures prefix != "" ==> forall k :: 0 <= k < |WalkOne(e, prefix)| ==> StartsWith(WalkOne(e, prefix)[k].name, prefix + " ")
    decreases e, 2
  {
    if !e.value.hide {
      var full := FullName(prefix, e.key);
      WalkShown(e.value, full);
      if prefix != "" {
        assert StartsWith(full, prefix + " ");
        forall k | 0 <= k < |Walk(e.value, full)|
          ensures StartsWith(Walk(e.value, full)[k].name, prefix + " ")
        {
          var n := Walk(e.value, full)[k].name;
          assert n[..|full|][..|prefix + " "|] == n[..|prefix + " "|];
        }
      }
    }
  }

  /** Every subcommand that is not hidden is reached, under its full name. */
  lemma {:induction false} WalkReachesChildren(subs: seq<Entry<DocCommand>>, prefix: string)
    ensures forall i :: 0 <= i < |subs| && !subs[i].value.hide ==>
      Visit(FullName(prefix, subs[i].key), subs[i].value) in WalkSubcommands(subs, prefix)
    decreases |subs|
  {
    if subs != [] {
      var init := subs[..|subs| - 1];
      WalkReachesChildren(init, prefix);
      assert forall i :: 0 <= i < |init| ==> init[i] == subs[i];
      var last := subs[|subs| - 1];
      if !last.value.hide {
        assert WalkOne(last, prefix)[0] == Visit(FullName(prefix, last.key), last.value);
      }
    }
  }

  function SummaryOf(v: Visit): seq<Event> {
    SummaryEvents(v.name, v.cmd)
  }

  lemma WalkStep(subs: seq<Entry<DocCommand>>, i: nat, prefix: string)
    requires i < |subs|
    ensures WalkSubcommands(subs[..i + 1], prefix) == WalkSubcommands(subs[..i], prefix) + WalkOne(subs[i], prefix)
  {
    assert subs[..i + 1][..i] == subs[..i];
  }

  /** `render_all_subcommands`: the summary of every command the walk
      reaches, in walk order. */
  method RenderAllSubcommands(roff: Roff, cmd: DocCommand, prefix: string)
    modifies roff
    ensures roff.events == old(roff.events) + ConcatMap(SummaryOf, Walk(cmd, prefix))
    decreases cmd, 1
  {
    for i := 0 to |cmd.subcommands|
      invariant roff.events == old(roff.events) + ConcatMap(SummaryOf, WalkSubcommands(cmd.subcommands[..i], prefix))
    {
      var e := cmd.subcommands[i];
      ghost var done := WalkSubcommands(cmd.subcommands[..i], prefix);
      WalkStep(cmd.subcommands, i, prefix);
      ConcatMapAppend(SummaryOf, done, WalkOne(e, prefix));
      Extend(old(roff.events), ConcatMap(SummaryOf, done), ConcatMap(SummaryOf, WalkOne(e, prefix)));
      if !e.value.hide {
        var fullName := FullName(prefix, e.key);
        ghost var mid := roff.events;
        RenderSubcommandSummary(roff, fullName, e.value);
        assert e in cmd.subcommands;
        RenderAllSubcommands(roff, e.value, fullName);
        ConcatMapAppend(SummaryOf, [Visit(fullName, e.value)], Walk(e.value, fullName));
        assert ConcatMap(SummaryOf, [Visit(fullName, e.value)]) == SummaryOf(Visit(fullName, e.value));
        Extend(mid, SummaryEvents(fullName, e.value), ConcatMap(SummaryOf, Walk(e.value, fullName)));
      }
    }
    assert cmd.subcommands[..|cmd.subcommands|] == cmd.subcommands;
  }

  // ---------------------------------------------------------------------
  // Subcommand details
  // ---------------------------------------------------------------------

  /** A subcommand has a detail section when it has flags, an argument with
      help, or examples. */
  predicate HasDetail(cmd: DocCommand) {
    cmd.flags != [] || AnyDocumented(cmd.args) || cmd.examples != []
  }

  /** A bold title and a break, followed by the entries, when the condition
      holds. */
  function Titled(c: bool, title: string, body: seq<Event>): seq<Event> {
    if c then [Text([Span(Bold, title)]), Control("PP", [])] + body else []
  }

  /** The help as a paragraph, when there is help. */
  function HelpParagraph(help: Option<string>): seq<Event> {
    if help.Some? then [Text([Span(Roman, help.value)]), Control("PP", [])] else []
  }

  function UsageLine(name: string, cmd: DocCommand): seq<Event> {
    [Text([Span(Bold, "Usage:"), Span(Roman, " "), Span(Roman, name), Span(Roman, " "), Span(Roman, Synopsis(cmd))]), Control("PP", [])]
  }

  /** The detail section of one subcommand: a header with the upper-cased
      full name, the help, the usage line, then the options, the documented
      arguments and the examples, each under a bold title. */
  function DetailBody(name: string, cmd: DocCommand): seq<Event> {
    [Control("SH", [ToUpper(name)])] + DetailEntries(name, cmd)
  }

  function DetailEntries(name: string, cmd: DocCommand): seq<Event> {
    HelpParagraph(cmd.helpLong.Or(cmd.help))
    + UsageLine(name, cmd)
    + Titled(cmd.flags != [], "Options:", ConcatMap(FlagEvents, cmd.flags))
    + Titled(AnyDocumented(cmd.args), "Arguments:", ConcatMap(ArgEvents, cmd.args))
    + Titled(cmd.examples != [], "Examples:", ExamplesEvents(cmd.examples))
  }

  function DetailEvents(name: string, cmd: DocCommand): seq<Event> {
    if HasDetail(cmd) then DetailBody(name, cmd) else []
  }

  /** A detail section is written exactly for a subcommand with flags, a
      documented argument or examples; it opens with the upper-cased full
      name and holds exactly one section header. */
  lemma DetailSpec(name: string, cmd: DocCommand)
    ensures DetailEvents(name, cmd) != [] <==> HasDetail(cmd)
    ensures HasDetail(cmd) ==> DetailEvents(name, cmd)[0] == Control("SH", [ToUpper(name)])
    ensures forall k :: 0 < k < |DetailEvents(name, cmd)| ==> !IsHeader(DetailEvents(name, cmd)[k])
  {
    if HasDetail(cmd) {
      var rest := DetailEntries(name, cmd);
      EntriesNoHeader(name, cmd);
      assert DetailEvents(name, cmd) == [Control("SH", [ToUpper(name)])] + rest;
      forall k | 0 < k < |DetailEvents(name, cmd)|
        ensures !IsHeader(DetailEvents(name, cmd)[k])
      {
        assert DetailEvents(name, cmd)[k] == rest[k - 1];
      }
    }
  }

  /** No entry of a detail section is a section header. */
  lemma EntriesNoHeader(name: string, cmd: DocCommand)
    ensures forall e :: e in DetailEntries(name, cmd) ==> !IsHeader(e)
  {
    FlagsNoHeader(cmd.flags);
    ArgsNoHeader(cmd.args);
    ExamplesNoHeader(cmd.examples);
  }

  function DetailOf(v: Visit): seq<Event> {
    DetailEvents(v.name, v.cmd)
  }

  /** A bold title line and a break. */
  method RenderTitle(roff: Roff, title: string)
    modifies roff
    ensures roff.events == old(roff.events) + [Text([Span(Bold, title)]), Control("PP", [])]
  {
    roff.Line([Span(Bold, title)]);
    roff.Request("PP", []);
    Two(old(roff.events), Text([Span(Bold, title)]), Control("PP", []));
  }

  /** Writing a titled block, or nothing, after what was written. */
  lemma TitledStep(o: seq<Event>, acc: seq<Event>, c: bool, title: string, body: seq<Event>)
    ensures c ==> o + acc + [Text([Span(Bold, title)]), Control("PP", [])] + body == o + (acc + Titled(c, title, body))
    ensures !c ==> o + acc == o + (acc + Titled(c, title, body))
  {
  }

  /** The entries of one detail section, after its header. */
  method RenderDetailEntries(roff: Roff, name: string, cmd: DocCommand, hasDocumentedArgs: bool)
    requires hasDocumentedArgs == AnyDocumented(cmd.args)
    modifies roff
    ensures roff.events == old(roff.events) + DetailEntries(name, cmd)
  {
    ghost var o := roff.events;
    var help := cmd.helpLong.Or(cmd.help);
    if help.Some? {
      roff.Line([Span(Roman, help.value)]);
      roff.Request("PP", []);
      Two(o, Text([Span(Roman, help.value)]), Control("PP", []));
    }
    ghost var acc := HelpParagraph(help);
    assert roff.events == o + acc;
    var synopsis := BuildSynopsis(cmd);
    roff.Line([Span(Bold, "Usage:"), Span(Roman, " "), Span(Roman, name), Span(Roman, " "), Span(Roman, synopsis)]);
    roff.Request("PP", []);
    ghost var usage := Text([Span(Bold, "Usage:"), Span(Roman, " "), Span(Roman, name), Span(Roman, " "), Span(Roman, synopsis)]);
    Two(o + acc, usage, Control("PP", []));
    Extend(o, acc, [usage, Control("PP", [])]);
    acc := acc + UsageLine(name, cmd);
    var hasFlags := cmd.flags != [];
    if hasFlags {
      RenderTitle(roff, "Options:");
      RenderFlags(roff, cmd.flags);
    }
    TitledStep(o, acc, hasFlags, "Options:", ConcatMap(FlagEvents, cmd.flags));
    acc := acc + Titled(hasFlags, "Options:", ConcatMap(FlagEvents, cmd.flags));
    if hasDocumentedArgs {
      RenderTitle(roff, "Arguments:");
      RenderArgs(roff, cmd.args);
    }
    TitledStep(o, acc, hasDocumentedArgs, "Arguments:", ConcatMap(ArgEvents, cmd.args));
    acc := acc + Titled(hasDocumentedArgs, "Arguments:", ConcatMap(ArgEvents, cmd.args));
    var hasExamples := cmd.examples != [];
    if hasExamples {
      RenderTitle(roff, "Examples:");
      RenderExamples(roff, cmd.examples);
    }
    TitledStep(o, acc, hasExamples, "Examples:", ExamplesEvents(cmd.examples));
  }

  /** The detail section of one subcommand, as written. */
  method RenderDetail(roff: Roff, name: string, cmd: DocCommand)
    modifies roff
    ensures roff.events == old(roff.events) + DetailEvents(name, cmd)
  {
    var hasFlags := cmd.flags != [];
    var hasDocumentedArgs := HasDocumentedArgs(cmd.args);
    var hasExamples := cmd.examples != [];
    if hasFlags || hasDocumentedArgs || hasExamples {
      ghost var o := roff.events;
      roff.Request("SH", [ToUpper(name)]);
      RenderDetailEntries(roff, name, cmd, hasDocumentedArgs);
      Extend(o, [Control("SH", [ToUpper(name)])], DetailEntries(name, cmd));
    } else {
      assert roff.events == old(roff.events) + [];
    }
  }

  /** `render_subcommand_details`: the detail section of every command the
      walk reaches that has one, in walk order. */
  method RenderSubcommandDetails(roff: Roff, cmd: DocCommand, prefix: string)
    modifies roff
    ensures roff.events == old(roff.events) + ConcatMap(DetailOf, Walk(cmd, prefix))
    decreases cmd, 1
  {
    for i := 0 to |cmd.subcommands|
      invariant roff.events == old(roff.events) + ConcatMap(DetailOf, WalkSubcommands(cmd.subcommands[..i], prefix))
    {
      var e := cmd.subcommands[i];
      ghost var done := WalkSubcommands(cmd.subcommands[..i], prefix);
      WalkStep(cmd.subcommands, i, prefix);
      ConcatMapAppend(DetailOf, done, WalkOne(e, prefix));
      Extend(old(roff.events), ConcatMap(DetailOf, done), ConcatMap(DetailOf, WalkOne(e, prefix)));
      if !e.value.hide {
        var fullName := FullName(prefix, e.key);
        ghost var mid := roff.events;
        RenderDetail(roff, fullName, e.value);
        assert e in cmd.subcommands;
        RenderSubcommandDetails(roff, e.value, fullName);
        ConcatMapAppend(DetailOf, [Visit(fullName, e.value)], Walk(e.value, fullName));
        assert ConcatMap(DetailOf, [Visit(fullName, e.value)]) == DetailOf(Visit(fullName, e.value));
        Extend(mid, DetailEvents(fullName, e.value), ConcatMap(DetailOf, Walk(e.value, fullName)));
      }
    }
    assert cmd.subcommands[..|cmd.subcommands|] == cmd.subcommands;
  }

  // ---------------------------------------------------------------------
  // The page
  // ---------------------------------------------------------------------

  /** Rust's `split(pat)` on a text pattern: the pieces between the
      non-overlapping occurrences, left to right. */
  function SplitAll(s: string, pat: string): (r: seq<string>)
    requires pat != []
    ensures |r| >= 1
    ensures Join(r, pat) == s
    decreases |s|
  {
    match SplitOnce(s, pat)
    case None => [s]
    case Some((a, b)) =>
      var rest := SplitAll(b, pat);
      assert Join([a] + rest, pat) == a + pat + Join(rest, pat) by {
        assert ([a] + rest)[1..] == rest;
      }
      [a] + rest
  }

  /** One paragraph, trimmed, followed by a break. */
  function Paragraph(p: string): seq<Event> {
    [Text([Span(Roman, Trim(p))]), Control("PP", [])]
  }

  /** Each `\n\n`-separated paragraph of the text, when there is one. */
  function HelpParagraphs(text: Option<string>): seq<Event> {
    if text.Some? then ConcatMap(Paragraph, SplitAll(text.value, "\n\n")) else []
  }

  /** The options section, when there are flags. */
  function OptionsSection(flags: seq<DocFlag>): seq<Event> {
    if flags == [] then [] else [Control("SH", ["OPTIONS"])] + ConcatMap(FlagEvents, flags)
  }

  /** The arguments: below the root always, at the root under their own
      header and only when one has help. */
  function ArgumentsSection(args: seq<DocArg>, isRoot: bool): seq<Event> {
    if args != [] && (!isRoot || AnyDocumented(args))
    then (if isRoot then [Control("SH", ["ARGUMENTS"])] else []) + ConcatMap(ArgEvents, args)
    else []
  }

  /** The commands section: the summaries of the whole tree from the root,
      when the command has any subcommand. */
  function CommandsSection(root: DocCommand, cmd: DocCommand): seq<Event> {
    if AllSubcommands(cmd) == [] then [] else [Control("SH", ["COMMANDS"])] + ConcatMap(SummaryOf, Walk(root, ""))
  }

  function ExamplesSection(es: seq<DocExample>): seq<Event> {
    if es == [] then [] else [Control("SH", ["EXAMPLES"])] + ExamplesEvents(es)
  }

  /** The events of `render_command`. */
  function CommandEvents(root: DocCommand, cmd: DocCommand, isRoot: bool): seq<Event> {
    OptionsSection(cmd.flags) + ArgumentsSection(cmd.args, isRoot) + CommandsSection(root, cmd) + ExamplesSection(cmd.examples)
  }

  /** No entry of a section holds a section header. */
  lemma FlagsNoHeader(flags: seq<DocFlag>)
    ensures forall e :: e in ConcatMap(FlagEvents, flags) ==> !IsHeader(e)
  {
    forall e | e in ConcatMap(FlagEvents, flags)
      ensures !IsHeader(e)
    {
      ConcatMapFrom(FlagEvents, flags, e);
      var i :| 0 <= i < |flags| && e in FlagEvents(flags[i]);
      FlagNoHeader(flags[i], e);
    }
  }

  lemma ArgsNoHeader(args: seq<DocArg>)
    ensures forall e :: e in ConcatMap(ArgEvents, args) ==> !IsHeader(e)
  {
    forall e | e in ConcatMap(ArgEvents, args)
      ensures !IsHeader(e)
    {
      ConcatMapFrom(ArgEvents, args, e);
      var i :| 0 <= i < |args| && e in ArgEvents(args[i]);
      ArgNoHeader(args[i], e);
    }
  }

  lemma SummariesNoHeader(vs: seq<Visit>)
    ensures forall e :: e in ConcatMap(SummaryOf, vs) ==> !IsHeader(e)
  {
    forall e | e in ConcatMap(SummaryOf, vs)
      ensures !IsHeader(e)
    {
      ConcatMapFrom(SummaryOf, vs, e);
      var i :| 0 <= i < |vs| && e in SummaryOf(vs[i]);
      SummaryNoHeader(vs[i], e);
    }
  }

  lemma FlagNoHeader(flag: DocFlag, e: Event)
    requires e in FlagEvents(flag)
    ensures !IsHeader(e)
  {
    var a := [Control("TP", []), Text(FlagLine(flag))];
    var h := Styled(Roman, flag.helpLong.Or(flag.help));
    var d := DefaultBlock(flag.default);
    var v := EnvBlock(flag.env);
    assert e in a || e in h || e in d || e in v;
  }

  lemma ArgNoHeader(arg: DocArg, e: Event)
    requires e in ArgEvents(arg)
    ensures !IsHeader(e)
  {
    var a := [Control("TP", []), Text([Span(Bold, "<" + arg.name + ">")])];
    var h := Styled(Roman, arg.helpLong.Or(arg.help));
    var d := DefaultBlock(arg.default);
    assert e in a || e in h || e in d;
  }

  lemma SummaryNoHeader(v: Visit, e: Event)
    requires e in SummaryOf(v)
    ensures !IsHeader(e)
  {
    var help := v.cmd.helpLong.Or(v.cmd.help);
    var a := [Control("TP", []), Text([Span(Bold, v.name)])];
    var h := Styled(Roman, if help.Some? then Some(FirstLine(help.value)) else None);
    var d := AliasBlock(v.cmd.aliases);
    assert e in a || e in h || e in d;
  }

  lemma {:induction false} ExamplesNoHeader(es: seq<DocExample>)
    ensures forall e :: e in ExamplesEvents(es) ==> !IsHeader(e)
  {
    if es != [] {
      ExamplesNoHeader(es[..|es| - 1]);
      var x := es[|es| - 1];
      var p := When(|es| != 1, Control("PP", []));
      assert forall e :: e in ExampleEvents(x, |es| == 1) ==> e in p || e in Styled(Bold, x.header) || e in Styled(Roman, x.help) || e in CodeBlock(x.code);
    }
  }

  /** Each section of a command holds its own header and no other. */
  lemma OptionsHeaders(flags: seq<DocFlag>)
    ensures forall e :: e in OptionsSection(flags) && IsHeader(e) ==> e == Control("SH", ["OPTIONS"])
  {
    FlagsNoHeader(flags);
  }

  lemma ArgumentsHeaders(args: seq<DocArg>, isRoot: bool)
    ensures forall e :: e in ArgumentsSection(args, isRoot) && IsHeader(e) ==> isRoot && e == Control("SH", ["ARGUMENTS"])
    ensures isRoot ==> (Control("SH", ["ARGUMENTS"]) in ArgumentsSection(args, isRoot) <==> AnyDocumented(args))
  {
    ArgsNoHeader(args);
    if isRoot && args != [] && AnyDocumented(args) {
      assert ArgumentsSection(args, isRoot)[0] == Control("SH", ["ARGUMENTS"]);
    }
  }

  lemma CommandsHeaders(root: DocCommand, cmd: DocCommand)
    ensures forall e :: e in CommandsSection(root, cmd) && IsHeader(e) ==> e == Control("SH", ["COMMANDS"])
    ensures Control("SH", ["COMMANDS"]) in CommandsSection(root, cmd) <==> cmd.subcommands != []
  {
    AllSubcommandsSpec(cmd);
    SummariesNoHeader(Walk(root, ""));
    if cmd.subcommands != [] {
      assert CommandsSection(root, cmd)[0] == Control("SH", ["COMMANDS"]);
    }
  }

  lemma ExamplesHeaders(es: seq<DocExample>)
    ensures forall e :: e in ExamplesSection(es) && IsHeader(e) ==> e == Control("SH", ["EXAMPLES"])
  {
    ExamplesNoHeader(es);
  }

  /** Below the root the arguments are listed without a header; at the root
      the arguments header is there exactly when an argument has help, and
      the commands header exactly when the command has subcommands. */
  lemma CommandSections(root: DocCommand, cmd: DocCommand, isRoot: bool)
    ensures !isRoot ==> Control("SH", ["ARGUMENTS"]) !in CommandEvents(root, cmd, isRoot)
    ensures isRoot ==> (Control("SH", ["ARGUMENTS"]) in CommandEvents(root, cmd, isRoot) <==> AnyDocumented(cmd.args))
    ensures Control("SH", ["COMMANDS"]) in CommandEvents(root, cmd, isRoot) <==> cmd.subcommands != []
  {
    var opts := OptionsSection(cmd.flags);
    var args := ArgumentsSection(cmd.args, isRoot);
    var subs := CommandsSection(root, cmd);
    var exs := ExamplesSection(cmd.examples);
    assert CommandEvents(root, cmd, isRoot) == opts + args + subs + exs;
    var a := Control("SH", ["ARGUMENTS"]);
    var c := Control("SH", ["COMMANDS"]);
    assert "ARGUMENTS"[0] != "OPTIONS"[0] && "ARGUMENTS"[0] != "COMMANDS"[0] && "ARGUMENTS"[0] != "EXAMPLES"[0];
    assert "COMMANDS"[0] != "OPTIONS"[0] && "COMMANDS"[0] != "EXAMPLES"[0];
    OptionsHeaders(cmd.flags);
    ArgumentsHeaders(cmd.args, isRoot);
    CommandsHeaders(root, cmd);
    ExamplesHeaders(cmd.examples);
    assert IsHeader(a) && IsHeader(c);
    assert a !in opts && a !in subs && a !in exs;
    assert c !in opts && c !in args && c !in exs;
  }

  /** `render_name`: the name and the description, or a stock text. */
  function NameSection(spec: DocSpec): seq<Event> {
    [Control("SH", ["NAME"]), Text([Span(Roman, spec.name + " - " + spec.about.GetOr("No description available"))])]
  }

  function SynopsisSection(spec: DocSpec): seq<Event> {
    [Control("SH", ["SYNOPSIS"]), Text([Span(Bold, spec.bin), Span(Roman, " "), Span(Roman, Synopsis(spec.cmd))])]
  }

  /** The paragraphs of the long or short about text, then those of the
      root command's long or short help. */
  function DescriptionSection(spec: DocSpec): seq<Event> {
    [Control("SH", ["DESCRIPTION"])] + HelpParagraphs(spec.aboutLong.Or(spec.about)) + HelpParagraphs(spec.cmd.helpLong.Or(spec.cmd.help))
  }

  /** The opening of the page: title header (upper-cased name and
      section), name, synopsis and description. */
  function PageHead(spec: DocSpec, section: nat): seq<Event> {
    [Control("TH", [ToUpper(spec.name), NatToString(section)])]
    + NameSection(spec)
    + SynopsisSection(spec)
    + DescriptionSection(spec)
  }

  /** The spec's own examples and the author, closing the page. */
  function PageTail(spec: DocSpec): seq<Event> {
    ExamplesSection(spec.examples)
    + (if spec.author.Some? then [Control("SH", ["AUTHOR"]), Text([Span(Roman, spec.author.value)])] else [])
  }

  /** The whole page: the opening, the root command, the subcommand
      details, then the spec's examples and the author. */
  function PageEvents(spec: DocSpec, section: nat): seq<Event> {
    PageHead(spec, section)
    + (CommandEvents(spec.cmd, spec.cmd, true) + (ConcatMap(DetailOf, Walk(spec.cmd, spec.bin)) + PageTail(spec)))
  }

  /** Each paragraph of a text, trimmed, is on the page in order, and the
      paragraphs joined back with the blank-line separator give the text. */
  lemma HelpParagraphsSpec(text: string)
    ensures var pars := SplitAll(text, "\n\n");
      && Join(pars, "\n\n") == text
      && |HelpParagraphs(Some(text))| == 2 * |pars|
      && forall i :: 0 <= i < |pars| ==> HelpParagraphs(Some(text))[2 * i] == Text([Span(Roman, Trim(pars[i]))])
  {
    ParagraphsAt(SplitAll(text, "\n\n"));
  }

  lemma {:induction false} ParagraphsAt(pars: seq<string>)
    ensures |ConcatMap(Paragraph, pars)| == 2 * |pars|
    ensures forall i :: 0 <= i < |pars| ==> ConcatMap(Paragraph, pars)[2 * i] == Text([Span(Roman, Trim(pars[i]))])
  {
    if pars != [] {
      var init := pars[..|pars| - 1];
      ParagraphsAt(init);
      assert forall i :: 0 <= i < |init| ==> init[i] == pars[i];
    }
  }

  /** The page opens with the title header (upper-cased name and section)
      and the name line, which falls back to a stock text without an about
      text. */
  lemma PageSpec(spec: DocSpec, section: nat)
    ensures PageEvents(spec, section)[..3]
      == [Control("TH", [ToUpper(spec.name), NatToString(section)]),
          Control("SH", ["NAME"]),
          Text([Span(Roman, spec.name + " - " + (if spec.about.Some? then spec.about.value else "No description available"))])]
  {
    var head := PageHead(spec, section);
    assert head == [Control("TH", [ToUpper(spec.name), NatToString(section)])] + NameSection(spec) + SynopsisSection(spec) + DescriptionSection(spec);
    assert PageEvents(spec, section)[..3] == head[..3];
  }

  /** The renderer: the view of the spec and the manual section. */
  class ManpageRenderer {
    const spec: DocSpec
    var section: nat

    /** `ManpageRenderer::new`: section 1. */
    constructor (s: Spec, terminalWidth: nat)
      ensures spec == FromSpec(s, terminalWidth) && section == 1
    {
      spec := FromSpec(s, terminalWidth);
      section := 1;
    }

    /** `with_section`. */
    method WithSection(n: nat)
      requires n < 256
      modifies this
      ensures section == n
    {
      section := n;
    }

    method RenderName(roff: Roff)
      modifies roff
      ensures roff.events == old(roff.events) + NameSection(spec)
    {
      roff.Request("SH", ["NAME"]);
      var description := spec.about.GetOr("No description available");
      roff.Line([Span(Roman, spec.name + " - " + description)]);
      Two(old(roff.events), Control("SH", ["NAME"]), Text([Span(Roman, spec.name + " - " + description)]));
    }

    method RenderSynopsis(roff: Roff)
      modifies roff
      ensures roff.events == old(roff.events) + SynopsisSection(spec)
    {
      roff.Request("SH", ["SYNOPSIS"]);
      var synopsis := BuildSynopsis(spec.cmd);
      roff.Line([Span(Bold, spec.bin), Span(Roman, " "), Span(Roman, synopsis)]);
      Two(old(roff.events), Control("SH", ["SYNOPSIS"]), Text([Span(Bold, spec.bin), Span(Roman, " "), Span(Roman, synopsis)]));
    }

    method RenderParagraphs(roff: Roff, text: Option<string>)
      modifies roff
      ensures roff.events == old(roff.events) + HelpParagraphs(text)
    {
      if text.Some? {
        var pars := SplitAll(text.value, "\n\n");
        for i := 0 to |pars|
          invariant roff.events == old(roff.events) + ConcatMap(Paragraph, pars[..i])
        {
          ConcatMapStep(Paragraph, pars, i);
          Extend(old(roff.events), ConcatMap(Paragraph, pars[..i]), Paragraph(pars[i]));
          ghost var mid := roff.events;
          roff.Line([Span(Roman, Trim(pars[i]))]);
          roff.Request("PP", []);
          Two(mid, Text([Span(Roman, Trim(pars[i]))]), Control("PP", []));
        }
        assert pars[..|pars|] == pars;
      }
    }

    method RenderDescription(roff: Roff)
      modifies roff
      ensures roff.events == old(roff.events) + DescriptionSection(spec)
    {
      ghost var o := roff.events;
      roff.Request("SH", ["DESCRIPTION"]);
      ghost var acc := [Control("SH", ["DESCRIPTION"])];
      RenderParagraphs(roff, spec.aboutLong.Or(spec.about));
      Extend(o, acc, HelpParagraphs(spec.aboutLong.Or(spec.about)));
      acc := acc + HelpParagraphs(spec.aboutLong.Or(spec.about));
      RenderParagraphs(roff, spec.cmd.helpLong.Or(spec.cmd.help));
      Extend(o, acc, HelpParagraphs(spec.cmd.helpLong.Or(spec.cmd.help)));
    }

    /** The arguments part of `render_command`. */
    method RenderArgumentsSection(roff: Roff, args: seq<DocArg>, isRoot: bool)
      modifies roff
      ensures roff.events == old(roff.events) + ArgumentsSection(args, isRoot)
    {
      ghost var o := roff.events;
      var documented := HasDocumentedArgs(args);
      if args != [] && (!isRoot || documented) {
        if isRoot {
          roff.Request("SH", ["ARGUMENTS"]);
          RenderArgs(roff, args);
          Extend(o, [Control("SH", ["ARGUMENTS"])], ConcatMap(ArgEvents, args));
        } else {
          RenderArgs(roff, args);
          assert [] + ConcatMap(ArgEvents, args) == ConcatMap(ArgEvents, args);
        }
      } else {
        assert roff.events == o + [];
      }
    }

    /** The commands part of `render_command`: the whole tree from the
        spec's root, when the command has any subcommand. */
    method RenderCommandsSection(roff: Roff, cmd: DocCommand)
      modifies roff
      ensures roff.events == old(roff.events) + CommandsSection(spec.cmd, cmd)
    {
      ghost var o := roff.events;
      var all := CollectSubcommands(cmd);
      if all != [] {
        roff.Request("SH", ["COMMANDS"]);
        RenderAllSubcommands(roff, spec.cmd, "");
        Extend(o, [Control("SH", ["COMMANDS"])], ConcatMap(SummaryOf, Walk(spec.cmd, "")));
      } else {
        assert roff.events == o + [];
      }
    }

    /** `render_command`, whose command list always walks the spec's root. */
    method RenderCommand(roff: Roff, cmd: DocCommand, isRoot: bool)
      modifies roff
      ensures roff.events == old(roff.events) + CommandEvents(spec.cmd, cmd, isRoot)
    {
      ghost var o := roff.events;
      if cmd.flags != [] {
        roff.Request("SH", ["OPTIONS"]);
        RenderFlags(roff, cmd.flags);
        Extend(o, [Control("SH", ["OPTIONS"])], ConcatMap(FlagEvents, cmd.flags));
      } else {
        assert roff.events == o + [];
      }
      ghost var acc := OptionsSection(cmd.flags);
      assert roff.events == o + acc;
      RenderArgumentsSection(roff, cmd.args, isRoot);
      Extend(o, acc, ArgumentsSection(cmd.args, isRoot));
      acc := acc + ArgumentsSection(cmd.args, isRoot);
      RenderCommandsSection(roff, cmd);
      Extend(o, acc, CommandsSection(spec.cmd, cmd));
      acc := acc + CommandsSection(spec.cmd, cmd);
      ghost var mid := roff.events;
      assert mid == o + acc;
      if cmd.examples != [] {
        roff.Request("SH", ["EXAMPLES"]);
        RenderExamples(roff, cmd.examples);
        Extend(mid, [Control("SH", ["EXAMPLES"])], ExamplesEvents(cmd.examples));
      } else {
        assert roff.events == mid + [];
      }
      Extend(o, acc, ExamplesSection(cmd.examples));
    }

    /** The close of `render`: the spec's examples and the author. */
    method RenderTail(roff: Roff)
      modifies roff
      ensures roff.events == old(roff.events) + PageTail(spec)
    {
      ghost var o := roff.events;
      if spec.examples != [] {
        roff.Request("SH", ["EXAMPLES"]);
        RenderExamples(roff, spec.examples);
        Extend(o, [Control("SH", ["EXAMPLES"])], ExamplesEvents(spec.examples));
      } else {
        assert roff.events == o + [];
      }
      ghost var acc := ExamplesSection(spec.examples);
      assert roff.events == o + acc;
      if spec.author.Some? {
        roff.Request("SH", ["AUTHOR"]);
        roff.Line([Span(Roman, spec.author.value)]);
        Two(o + acc, Control("SH", ["AUTHOR"]), Text([Span(Roman, spec.author.value)]));
        Extend(o, acc, [Control("SH", ["AUTHOR"]), Text([Span(Roman, spec.author.value)])]);
      } else {
        Nothing(o, acc);
      }
    }

    /** `render`: the events of the whole page. */
    method Render() returns (events: seq<Event>)
      ensures events == PageEvents(spec, section)
    {
      var roff := new Roff();
      roff.Request("TH", [ToUpper(spec.name), NatToString(section)]);
      ghost var acc := [Control("TH", [ToUpper(spec.name), NatToString(section)])];
      assert roff.events == acc;
      RenderName(roff);
      acc := acc + NameSection(spec);
      RenderSynopsis(roff);
      acc := acc + SynopsisSection(spec);
      RenderDescription(roff);
      acc := acc + DescriptionSection(spec);
      assert acc == PageHead(spec, section);
      ghost var c := CommandEvents(spec.cmd, spec.cmd, true);
      ghost var d := ConcatMap(DetailOf, Walk(spec.cmd, spec.bin));
      RenderCommand(roff, spec.cmd, true);
      RenderSubcommandDetails(roff, spec.cmd, spec.bin);
      RenderTail(roff);
      Section(acc, c, d, PageTail(spec));
      events := roff.events;
    }
  }
}
