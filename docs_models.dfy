/** The documentation view of a spec (lib/src/docs/models.rs): copies of the
    spec's arguments, flags, examples and commands that also carry layout
    (the width of the usage column and the pre-rendered help) and a
    `rendered` mark that makes the markdown pass run once per node. */
module DocsModels {
  import opened Wrappers
  import opened Strings
  import opened UsageSpec
  import Layout

  datatype DocExample = DocExample(code: string, header: Option<string>, help: Option<string>, lang: string, rendered: bool)

  datatype DocArg = DocArg(
    name: string,
    usage: string,
    help: Option<string>,
    helpLong: Option<string>,
    helpMd: Option<string>,
    helpFirstLine: Option<string>,
    required: bool,
    variadic: bool,
    varMin: Option<nat>,
    varMax: Option<nat>,
    hide: bool,
    default: seq<string>,
    choices: Option<seq<string>>,
    env: Option<string>,
    rendered: bool,
    helpRendered: Option<string>,
    helpIsMultiline: bool,
    usageColWidth: nat)

  datatype DocFlag = DocFlag(
    name: string,
    usage: string,
    help: Option<string>,
    helpLong: Option<string>,
    helpMd: Option<string>,
    helpFirstLine: Option<string>,
    short: seq<char>,
    long: seq<string>,
    required: bool,
    deprecated: Option<string>,
    variadic: bool,
    varMin: Option<nat>,
    varMax: Option<nat>,
    hide: bool,
    global: bool,
    count: bool,
    arg: Option<DocArg>,
    default: seq<string>,
    negate: Option<string>,
    env: Option<string>,
    rendered: bool,
    helpRendered: Option<string>,
    helpIsMultiline: bool,
    usageColWidth: nat)

  datatype DocCommand = DocCommand(
    fullCmd: seq<string>,
    usage: string,
    subcommands: seq<Entry<DocCommand>>,
    args: seq<DocArg>,
    flags: seq<DocFlag>,
    deprecated: Option<string>,
    hide: bool,
    subcommandRequired: bool,
    help: Option<string>,
    helpLong: Option<string>,
    helpMd: Option<string>,
    name: string,
    aliases: seq<string>,
    hiddenAliases: seq<string>,
    beforeHelp: Option<string>,
    beforeHelpLong: Option<string>,
    beforeHelpMd: Option<string>,
    afterHelp: Option<string>,
    afterHelpLong: Option<string>,
    afterHelpMd: Option<string>,
    examples: seq<DocExample>,
    rendered: bool)

  datatype DocSpec = DocSpec(
    name: string,
    bin: string,
    cmd: DocCommand,
    version: Option<string>,
    usage: string,
    sourceCodeLinkTemplate: Option<string>,
    author: Option<string>,
    about: Option<string>,
    aboutLong: Option<string>,
    aboutMd: Option<string>,
    disableHelp: Option<bool>,
    minUsageVersion: Option<string>,
    examples: seq<DocExample>,
    rendered: bool)

  // ---------------------------------------------------------------------
  // The From conversions
  // ---------------------------------------------------------------------

  function FromExample(e: Example): DocExample {
    DocExample(e.code, e.header, e.help, e.lang, false)
  }

  /** The spec's example a view example shows. */
  function ExampleOf(d: DocExample): Example {
    Example(d.code, d.header, d.help, d.lang)
  }

  function FromExamples(es: seq<Example>): (r: seq<DocExample>)
    ensures |r| == |es|
    ensures forall i :: 0 <= i < |es| ==> r[i] == FromExample(es[i])
  {
    if es == [] then [] else FromExamples(es[..|es| - 1]) + [FromExample(es[|es| - 1])]
  }

  /** The conversion keeps every field and starts unrendered. */
  lemma ExampleRoundTrip(e: Example)
    ensures ExampleOf(FromExample(e)) == e && !FromExample(e).rendered
  {
  }

  /** `SpecArg::from`: every field copied, no layout yet. */
  function FromArg(a: Arg): DocArg {
    DocArg(a.name, a.usage, a.help, a.helpLong, a.helpMd, a.helpFirstLine, a.required, a.variadic, a.varMin, a.varMax,
           a.hide, a.default, a.choices, a.env, false, None, false, 0)
  }

  /** The spec's argument a view argument shows; the view has no double-dash
      setting, so it is supplied. */
  function ArgOf(d: DocArg, doubleDash: DoubleDash): Arg {
    Arg(d.name, d.usage, d.help, d.helpLong, d.helpMd, d.helpFirstLine, d.required, doubleDash, d.variadic, d.varMin,
        d.varMax, d.hide, d.default, d.choices, d.env)
  }

  /** The view arguments carry no markdown or layout state yet. */
  predicate FreshArg(d: DocArg) {
    !d.rendered && d.helpRendered.None? && !d.helpIsMultiline && d.usageColWidth == 0
  }

  lemma ArgRoundTrip(a: Arg)
    ensures ArgOf(FromArg(a), a.doubleDash) == a && FreshArg(FromArg(a))
  {
  }

  /** `SpecFlag::from`: every field copied (the flag's argument converted
      too), no layout yet. */
  function FromFlag(f: Flag): DocFlag {
    DocFlag(f.name, f.usage, f.help, f.helpLong, f.helpMd, f.helpFirstLine, f.short, f.long, f.required, f.deprecated,
            f.variadic, f.varMin, f.varMax, f.hide, f.global, f.count, if f.arg.Some? then Some(FromArg(f.arg.value)) else None,
            f.default, f.negate, f.env, false, None, false, 0)
  }

  /** The double-dash setting of a flag's argument, which the view drops. */
  function ArgDoubleDash(f: Flag): DoubleDash {
    if f.arg.Some? then f.arg.value.doubleDash else Automatic
  }

  function FlagOf(d: DocFlag, doubleDash: DoubleDash): Flag {
    Flag(d.name, d.usage, d.help, d.helpLong, d.helpMd, d.helpFirstLine, d.short, d.long, d.required, d.deprecated,
         d.variadic, d.varMin, d.varMax, d.hide, d.global, d.count, if d.arg.Some? then Some(ArgOf(d.arg.value, doubleDash)) else None,
         d.default, d.negate, d.env)
  }

  predicate FreshFlag(d: DocFlag) {
    !d.rendered && d.helpRendered.None? && !d.helpIsMultiline && d.usageColWidth == 0 && (d.arg.Some? ==> FreshArg(d.arg.value))
  }

  lemma FlagRoundTrip(f: Flag)
    ensures FlagOf(FromFlag(f), ArgDoubleDash(f)) == f && FreshFlag(FromFlag(f))
  {
  }

  // ---------------------------------------------------------------------
  // Layout of the help column
  // ---------------------------------------------------------------------

  /** The help shown in the column: the long form, else the short one. */
  function HelpText(help: Option<string>, helpLong: Option<string>): Option<string> {
    helpLong.Or(help)
  }

  /** The layout fields of one argument or flag: the rendered help and
      whether it spans several lines, kept only when the rendering is not
      empty. */
  function HelpLayout(text: Option<string>, terminalWidth: nat, colWidth: nat): (Option<string>, bool) {
    if text.Some? && Layout.RenderHelp(text.value, terminalWidth, colWidth).0 != "" then
      (Some(Layout.RenderHelp(text.value, terminalWidth, colWidth).0), Layout.RenderHelp(text.value, terminalWidth, colWidth).1)
    else (None, false)
  }

  /** The rendered help is present exactly when there is help text and its
      rendering is not empty; it is then that rendering, and it is never
      present for help containing a newline. */
  lemma HelpLayoutSpec(text: Option<string>, terminalWidth: nat, colWidth: nat)
    ensures var (rendered, multiline) := HelpLayout(text, terminalWidth, colWidth);
      && (rendered.Some? <==> text.Some? && Layout.RenderHelp(text.value, terminalWidth, colWidth).0 != "")
      && (rendered.Some? ==> (rendered.value, multiline) == Layout.RenderHelp(text.value, terminalWidth, colWidth) && '\n' !in text.value)
      && (rendered.None? ==> !multiline)
  {
    if text.Some? {
      Layout.RenderHelpSpec(text.value, terminalWidth, colWidth);
    }
  }

  /** One argument of `SpecCommand::from`: converted, then given the help
      layout (long help in preference to short) and the column width. */
  function LaidArg(a: Arg, terminalWidth: nat, colWidth: nat): DocArg {
    var (rendered, multiline) := HelpLayout(HelpText(a.help, a.helpLong), terminalWidth, colWidth);
    FromArg(a).(helpRendered := rendered, helpIsMultiline := multiline, usageColWidth := colWidth)
  }

  function LaidFlag(f: Flag, terminalWidth: nat, colWidth: nat): DocFlag {
    var (rendered, multiline) := HelpLayout(HelpText(f.help, f.helpLong), terminalWidth, colWidth);
    FromFlag(f).(helpRendered := rendered, helpIsMultiline := multiline, usageColWidth := colWidth)
  }

  /** Laying out keeps every field of the argument and marks it unrendered
      with the given column width. */
  lemma LaidArgKeeps(a: Arg, terminalWidth: nat, colWidth: nat)
    ensures ArgOf(LaidArg(a, terminalWidth, colWidth), a.doubleDash) == a
    ensures !LaidArg(a, terminalWidth, colWidth).rendered && LaidArg(a, terminalWidth, colWidth).usageColWidth == colWidth
  {
  }

  lemma LaidFlagKeeps(f: Flag, terminalWidth: nat, colWidth: nat)
    ensures FlagOf(LaidFlag(f, terminalWidth, colWidth), ArgDoubleDash(f)) == f
    ensures !LaidFlag(f, terminalWidth, colWidth).rendered && LaidFlag(f, terminalWidth, colWidth).usageColWidth == colWidth
  {
    var d := LaidFlag(f, terminalWidth, colWidth);
    assert d.arg == FromFlag(f).arg;
    FlagRoundTrip(f);
  }

  function ArgUsages(args: seq<Arg>): (r: seq<string>)
    ensures |r| == |args|
    ensures forall i :: 0 <= i < |args| ==> r[i] == args[i].usage
  {
    if args == [] then [] else ArgUsages(args[..|args| - 1]) + [args[|args| - 1].usage]
  }

  function FlagUsages(flags: seq<Flag>): (r: seq<string>)
    ensures |r| == |flags|
    ensures forall i :: 0 <= i < |flags| ==> r[i] == flags[i].usage
  {
    if flags == [] then [] else FlagUsages(flags[..|flags| - 1]) + [flags[|flags| - 1].usage]
  }

  function LaidArgs(args: seq<Arg>, terminalWidth: nat, colWidth: nat): (r: seq<DocArg>)
    ensures |r| == |args|
    ensures forall i :: 0 <= i < |args| ==> r[i] == LaidArg(args[i], terminalWidth, colWidth)
  {
    if args == [] then [] else LaidArgs(args[..|args| - 1], terminalWidth, colWidth) + [LaidArg(args[|args| - 1], terminalWidth, colWidth)]
  }

  function LaidFlags(flags: seq<Flag>, terminalWidth: nat, colWidth: nat): (r: seq<DocFlag>)
    ensures |r| == |flags|
    ensures forall i :: 0 <= i < |flags| ==> r[i] == LaidFlag(flags[i], terminalWidth, colWidth)
  {
    if flags == [] then [] else LaidFlags(flags[..|flags| - 1], terminalWidth, colWidth) + [LaidFlag(flags[|flags| - 1], terminalWidth, colWidth)]
  }

  /** The usage-column width of a command's arguments: the widest argument
      usage, 0 without arguments. */
  function ArgColumn(args: seq<Arg>): (w: nat)
    ensures forall j :: 0 <= j < |args| ==> |args[j].usage| <= w
    ensures args == [] ==> w == 0
    ensures args != [] ==> exists j :: 0 <= j < |args| && |args[j].usage| == w
  {
    Layout.MaxUsageWidth(ArgUsages(args))
  }

  /** The usage-column width of a command's flags: the widest flag usage. */
  function FlagColumn(flags: seq<Flag>): (w: nat)
    ensures forall j :: 0 <= j < |flags| ==> |flags[j].usage| <= w
    ensures flags == [] ==> w == 0
    ensures flags != [] ==> exists j :: 0 <= j < |flags| && |flags[j].usage| == w
  {
    Layout.MaxUsageWidth(FlagUsages(flags))
  }

  /** A command's arguments, laid out against the widest argument usage. */
  function CommandArgs(args: seq<Arg>, terminalWidth: nat): seq<DocArg> {
    LaidArgs(args, terminalWidth, ArgColumn(args))
  }

  /** A command's flags, laid out against the widest flag usage. */
  function CommandFlags(flags: seq<Flag>, terminalWidth: nat): seq<DocFlag> {
    LaidFlags(flags, terminalWidth, FlagColumn(flags))
  }

  /** `SpecCommand::from`: the arguments and the flags laid out against the
      widest usage of their own kind, the subcommands converted in order. */
  function FromCommand(cmd: Command, terminalWidth: nat): DocCommand
    decreases cmd, 1
  {
    DocCommand(
      cmd.fullCmd, cmd.usage, FromSubcommands(cmd.subcommands, terminalWidth),
      CommandArgs(cmd.args, terminalWidth), CommandFlags(cmd.flags, terminalWidth),
      cmd.deprecated, cmd.hide, cmd.subcommandRequired, cmd.help, cmd.helpLong, cmd.helpMd, cmd.name, cmd.aliases,
      cmd.hiddenAliases, cmd.beforeHelp, cmd.beforeHelpLong, cmd.beforeHelpMd, cmd.afterHelp, cmd.afterHelpLong,
      cmd.afterHelpMd, FromExamples(cmd.examples), false)
  }

  function FromSubcommands(subs: seq<Entry<Command>>, terminalWidth: nat): (r: seq<Entry<DocCommand>>)
    ensures |r| == |subs|
    decreases subs, 0
  {
    if subs == [] then []
    else
      var last := subs[|subs| - 1];
      FromSubcommands(subs[..|subs| - 1], terminalWidth) + [Entry(last.key, FromCommand(last.value, terminalWidth))]
  }

  /** The converted subcommands are the conversions of the spec's, under the
      same keys. */
  lemma {:induction false} FromSubcommandsAt(subs: seq<Entry<Command>>, terminalWidth: nat, i: nat)
    requires i < |subs|
    ensures FromSubcommands(subs, terminalWidth)[i] == Entry(subs[i].key, FromCommand(subs[i].value, terminalWidth))
    decreases |subs|
  {
    if i < |subs| - 1 {
      FromSubcommandsAt(subs[..|subs| - 1], terminalWidth, i);
    }
  }

  /** All arguments of a command share one usage-column width, the widest
      argument usage, and each keeps the spec's fields. */
  lemma ArgColumns(args: seq<Arg>, terminalWidth: nat)
    ensures |CommandArgs(args, terminalWidth)| == |args|
    ensures forall i :: 0 <= i < |args| ==> ArgOf(CommandArgs(args, terminalWidth)[i], args[i].doubleDash) == args[i]
    ensures forall i :: 0 <= i < |args| ==> CommandArgs(args, terminalWidth)[i].usageColWidth == ArgColumn(args)
  {
    LaidArgsKeep(args, terminalWidth, ArgColumn(args));
  }

  lemma LaidArgsKeep(args: seq<Arg>, terminalWidth: nat, w: nat)
    ensures forall i :: 0 <= i < |args| ==>
      ArgOf(LaidArgs(args, terminalWidth, w)[i], args[i].doubleDash) == args[i] &&
      !LaidArgs(args, terminalWidth, w)[i].rendered && LaidArgs(args, terminalWidth, w)[i].usageColWidth == w
  {
    forall i | 0 <= i < |args|
      ensures ArgOf(LaidArgs(args, terminalWidth, w)[i], args[i].doubleDash) == args[i]
      ensures !LaidArgs(args, terminalWidth, w)[i].rendered && LaidArgs(args, terminalWidth, w)[i].usageColWidth == w
    {
      LaidArgKeeps(args[i], terminalWidth, w);
    }
  }

  lemma LaidFlagsKeep(flags: seq<Flag>, terminalWidth: nat, w: nat)
    ensures forall i :: 0 <= i < |flags| ==>
      FlagOf(LaidFlags(flags, terminalWidth, w)[i], ArgDoubleDash(flags[i])) == flags[i] &&
      !LaidFlags(flags, terminalWidth, w)[i].rendered && LaidFlags(flags, terminalWidth, w)[i].usageColWidth == w
  {
    forall i | 0 <= i < |flags|
      ensures FlagOf(LaidFlags(flags, terminalWidth, w)[i], ArgDoubleDash(flags[i])) == flags[i]
      ensures !LaidFlags(flags, terminalWidth, w)[i].rendered && LaidFlags(flags, terminalWidth, w)[i].usageColWidth == w
    {
      LaidFlagKeeps(flags[i], terminalWidth, w);
    }
  }

  /** Flags likewise share the widest flag usage as their column width. */
  lemma FlagColumns(flags: seq<Flag>, terminalWidth: nat)
    ensures |CommandFlags(flags, terminalWidth)| == |flags|
    ensures forall i :: 0 <= i < |flags| ==> FlagOf(CommandFlags(flags, terminalWidth)[i], ArgDoubleDash(flags[i])) == flags[i]
    ensures forall i :: 0 <= i < |flags| ==> CommandFlags(flags, terminalWidth)[i].usageColWidth == FlagColumn(flags)
  {
    LaidFlagsKeep(flags, terminalWidth, FlagColumn(flags));
  }

  /** The tree of view commands is fresh: no node is rendered yet. */
  predicate FreshCommand(c: DocCommand)
    decreases c, 1
  {
    && !c.rendered
    && (forall i :: 0 <= i < |c.examples| ==> !c.examples[i].rendered)
    && (forall i :: 0 <= i < |c.args| ==> !c.args[i].rendered)
    && (forall i :: 0 <= i < |c.flags| ==> !c.flags[i].rendered)
    && FreshSubcommands(c.subcommands)
  }

  predicate FreshSubcommands(subs: seq<Entry<DocCommand>>)
    decreases subs, 0
  {
    subs != [] ==> FreshSubcommands(subs[..|subs| - 1]) && FreshCommand(subs[|subs| - 1].value)
  }

  /** The conversion keeps the spec's subcommand keys and leaves every node
      of the tree unrendered. */
  lemma {:induction false} FromCommandFresh(cmd: Command, terminalWidth: nat)
    ensures FreshCommand(FromCommand(cmd, terminalWidth))
    ensures Keys(FromCommand(cmd, terminalWidth).subcommands) == Keys(cmd.subcommands)
    decreases cmd, 1
  {
    LaidArgsFresh(cmd.args, terminalWidth, ArgColumn(cmd.args));
    LaidFlagsFresh(cmd.flags, terminalWidth, FlagColumn(cmd.flags));
    FromSubcommandsFresh(cmd.subcommands, terminalWidth);
  }

  lemma LaidArgsFresh(args: seq<Arg>, terminalWidth: nat, w: nat)
    ensures forall i :: 0 <= i < |args| ==> !LaidArgs(args, terminalWidth, w)[i].rendered
  {
  }

  lemma LaidFlagsFresh(flags: seq<Flag>, terminalWidth: nat, w: nat)
    ensures forall i :: 0 <= i < |flags| ==> !LaidFlags(flags, terminalWidth, w)[i].rendered
  {
  }

  lemma {:induction false} FromSubcommandsFresh(subs: seq<Entry<Command>>, terminalWidth: nat)
    ensures FreshSubcommands(FromSubcommands(subs, terminalWidth))
    ensures Keys(FromSubcommands(subs, terminalWidth)) == Keys(subs)
    decreases subs, 0
  {
    if subs != [] {
      var init := subs[..|subs| - 1];
      FromSubcommandsFresh(init, terminalWidth);
      assert subs[|subs| - 1] in subs;
      FromCommandFresh(subs[|subs| - 1].value, terminalWidth);
      var r := FromSubcommands(subs, terminalWidth);
      assert r[..|r| - 1] == FromSubcommands(init, terminalWidth);
    }
  }

  /** `Spec::from`: nothing of the converted spec is rendered yet, and the
      root keeps the spec's subcommand keys. */
  function FromSpec(spec: Spec, terminalWidth: nat): (r: DocSpec)
    ensures !r.rendered && FreshCommand(r.cmd)
    ensures Keys(r.cmd.subcommands) == Keys(spec.cmd.subcommands)
    ensures |r.examples| == |spec.examples|
  {
    FromCommandFresh(spec.cmd, terminalWidth);
    DocSpec(spec.name, spec.bin, FromCommand(spec.cmd, terminalWidth), spec.version, spec.usage, spec.sourceCodeLinkTemplate,
            spec.author, spec.about, spec.aboutLong, spec.aboutMd, spec.disableHelp, spec.minUsageVersion,
            FromExamples(spec.examples), false)
  }

  // ---------------------------------------------------------------------
  // all_subcommands
  // ---------------------------------------------------------------------

  /** `all_subcommands`: every command below this one, each followed by its
      own descendants (pre-order). */
  function AllSubcommands(c: DocCommand): seq<DocCommand>
    decreases c, 1
  {
    Descendants(c.subcommands)
  }

  function Descendants(subs: seq<Entry<DocCommand>>): seq<DocCommand>
    decreases subs, 0
  {
    if subs == [] then []
    else
      var last := subs[|subs| - 1].value;
      Descendants(subs[..|subs| - 1]) + [last] + AllSubcommands(last)
  }

  /** The list is empty exactly when there are no subcommands, it starts with
      the first subcommand, and every subcommand, with all its own
      descendants, is in it. */
  lemma {:induction false} AllSubcommandsSpec(c: DocCommand)
    ensures AllSubcommands(c) == [] <==> c.subcommands == []
    ensures c.subcommands != [] ==> AllSubcommands(c)[0] == c.subcommands[0].value
    ensures forall i :: 0 <= i < |c.subcommands| ==> c.subcommands[i].value in AllSubcommands(c)
    ensures forall i, x :: 0 <= i < |c.subcommands| && x in AllSubcommands(c.subcommands[i].value) ==> x in AllSubcommands(c)
    decreases c, 1
  {
    DescendantsSpec(c.subcommands);
  }

  lemma {:induction false} DescendantsSpec(subs: seq<Entry<DocCommand>>)
    ensures Descendants(subs) == [] <==> subs == []
    ensures subs != [] ==> Descendants(subs)[0] == subs[0].value
    ensures forall i :: 0 <= i < |subs| ==> subs[i].value in Descendants(subs)
    ensures forall i, x :: 0 <= i < |subs| && x in AllSubcommands(subs[i].value) ==> x in Descendants(subs)
    decreases subs, 0
  {
    if subs != [] {
      var init := subs[..|subs| - 1];
      DescendantsSpec(init);
      assert forall i :: 0 <= i < |init| ==> init[i] == subs[i];
    }
  }

  /** `all_subcommands`, pushing each subcommand and then extending with its
      descendants. */
  method CollectSubcommands(c: DocCommand) returns (cmds: seq<DocCommand>)
    ensures cmds == AllSubcommands(c)
    decreases c, 1
  {
    cmds := [];
    for i := 0 to |c.subcommands|
      invariant cmds == Descendants(c.subcommands[..i])
    {
      var sub := c.subcommands[i];
      assert sub in c.subcommands;
      assert c.subcommands[..i + 1][..i] == c.subcommands[..i];
      cmds := cmds + [sub.value];
      var below := CollectSubcommands(sub.value);
      cmds := cmds + below;
    }
    assert c.subcommands[..|c.subcommands|] == c.subcommands;
  }

  // ---------------------------------------------------------------------
  // render_md
  // ---------------------------------------------------------------------

  /** The markdown fill of one help field: left as it is when present, else
      the long form (or the short one) with its code fences replaced. */
  function FillMd(md: Option<string>, long: Option<string>, short: Option<string>, fences: string -> string): (r: Option<string>)
    ensures md.Some? ==> r == md
    ensures md.None? && long.Some? ==> r == Some(fences(long.value))
    ensures md.None? && long.None? && short.Some? ==> r == Some(fences(short.value))
    ensures md.None? && long.None? && short.None? ==> r.None?
  {
    if md.Some? then md
    else
      match long.Or(short)
      case Some(h) => Some(fences(h))
      case None => None
  }

  function ExampleMd(e: DocExample, fences: string -> string): DocExample {
    if e.rendered then e
    else e.(rendered := true, help := if e.help.Some? then Some(fences(e.help.value)) else None)
  }

  function ArgMd(a: DocArg, fences: string -> string): DocArg {
    if a.rendered then a else a.(rendered := true, helpMd := FillMd(a.helpMd, a.helpLong, a.help, fences))
  }

  function FlagMd(f: DocFlag, fences: string -> string): DocFlag {
    if f.rendered then f else f.(rendered := true, helpMd := FillMd(f.helpMd, f.helpLong, f.help, fences))
  }

  function ExamplesMd(es: seq<DocExample>, fences: string -> string): (r: seq<DocExample>)
    ensures |r| == |es|
    ensures forall i :: 0 <= i < |es| ==> r[i] == ExampleMd(es[i], fences)
  {
    if es == [] then [] else ExamplesMd(es[..|es| - 1], fences) + [ExampleMd(es[|es| - 1], fences)]
  }

  function ArgsMd(args: seq<DocArg>, fences: string -> string): (r: seq<DocArg>)
    ensures |r| == |args|
    ensures forall i :: 0 <= i < |args| ==> r[i] == ArgMd(args[i], fences)
  {
    if args == [] then [] else ArgsMd(args[..|args| - 1], fences) + [ArgMd(args[|args| - 1], fences)]
  }

  function FlagsMd(flags: seq<DocFlag>, fences: string -> string): (r: seq<DocFlag>)
    ensures |r| == |flags|
    ensures forall i :: 0 <= i < |flags| ==> r[i] == FlagMd(flags[i], fences)
  {
    if flags == [] then [] else FlagsMd(flags[..|flags| - 1], fences) + [FlagMd(flags[|flags| - 1], fences)]
  }

  /** `SpecCommand::render_md`: once per node, fill the three markdown help
      fields that are absent, then the flags, arguments, examples and
      subcommands. */
  function CommandMd(c: DocCommand, fences: string -> string): DocCommand
    decreases c, 1
  {
    if c.rendered then c
    else
      c.(rendered := true,
         beforeHelpMd := FillMd(c.beforeHelpMd, c.beforeHelpLong, c.beforeHelp, fences),
         helpMd := FillMd(c.helpMd, c.helpLong, c.help, fences),
         afterHelpMd := FillMd(c.afterHelpMd, c.afterHelpLong, c.afterHelp, fences),
         flags := FlagsMd(c.flags, fences),
         args := ArgsMd(c.args, fences),
         examples := ExamplesMd(c.examples, fences),
         subcommands := SubcommandsMd(c.subcommands, fences))
  }

  function SubcommandsMd(subs: seq<Entry<DocCommand>>, fences: string -> string): (r: seq<Entry<DocCommand>>)
    ensures |r| == |subs|
    ensures forall i :: 0 <= i < |subs| ==> r[i].key == subs[i].key
    decreases subs, 0
  {
    if subs == [] then []
    else
      var last := subs[|subs| - 1];
      SubcommandsMd(subs[..|subs| - 1], fences) + [Entry(last.key, CommandMd(last.value, fences))]
  }

  /** `Spec::render_md`: once, replace the fences of the markdown about text
      (present or not, it is not filled), then the examples and the command. */
  function SpecMd(s: DocSpec, fences: string -> string): DocSpec {
    if s.rendered then s
    else
      s.(rendered := true,
         aboutMd := if s.aboutMd.Some? then Some(fences(s.aboutMd.value)) else None,
         examples := ExamplesMd(s.examples, fences),
         cmd := CommandMd(s.cmd, fences))
  }

  /** A second markdown pass changes nothing, on every kind of node. */
  lemma MdIdempotent(s: DocSpec, c: DocCommand, f: DocFlag, a: DocArg, e: DocExample, fences: string -> string)
    ensures SpecMd(SpecMd(s, fences), fences) == SpecMd(s, fences)
    ensures CommandMd(CommandMd(c, fences), fences) == CommandMd(c, fences)
    ensures FlagMd(FlagMd(f, fences), fences) == FlagMd(f, fences)
    ensures ArgMd(ArgMd(a, fences), fences) == ArgMd(a, fences)
    ensures ExampleMd(ExampleMd(e, fences), fences) == ExampleMd(e, fences)
  {
  }

  /** Every node of the tree is rendered. */
  predicate DoneCommand(c: DocCommand)
    decreases c, 1
  {
    && c.rendered
    && (forall i :: 0 <= i < |c.examples| ==> c.examples[i].rendered)
    && (forall i :: 0 <= i < |c.args| ==> c.args[i].rendered)
    && (forall i :: 0 <= i < |c.flags| ==> c.flags[i].rendered)
    && DoneSubcommands(c.subcommands)
  }

  predicate DoneSubcommands(subs: seq<Entry<DocCommand>>)
    decreases subs, 0
  {
    subs != [] ==> DoneSubcommands(subs[..|subs| - 1]) && DoneCommand(subs[|subs| - 1].value)
  }

  /** On a fresh tree the markdown pass reaches every node: afterwards all
      of them are rendered. */
  lemma {:induction false} CommandMdDone(c: DocCommand, fences: string -> string)
    requires FreshCommand(c)
    ensures DoneCommand(CommandMd(c, fences))
    decreases c, 1
  {
    SubcommandsMdDone(c.subcommands, fences);
  }

  lemma {:induction false} SubcommandsMdDone(subs: seq<Entry<DocCommand>>, fences: string -> string)
    requires FreshSubcommands(subs)
    ensures DoneSubcommands(SubcommandsMd(subs, fences))
    decreases subs, 0
  {
    if subs != [] {
      var init := subs[..|subs| - 1];
      SubcommandsMdDone(init, fences);
      assert subs[|subs| - 1] in subs;
      CommandMdDone(subs[|subs| - 1].value, fences);
      var r := SubcommandsMd(subs, fences);
      assert r[..|r| - 1] == SubcommandsMd(init, fences);
    }
  }

  /** On an unrendered node the help fields are filled only where absent,
      from the long form in preference to the short, and the subcommands
      keep their keys. */
  lemma CommandMdFills(c: DocCommand, fences: string -> string)
    requires !c.rendered
    ensures var r := CommandMd(c, fences);
      && r.rendered
      && (c.helpMd.Some? ==> r.helpMd == c.helpMd)
      && (c.helpMd.None? ==> r.helpMd == (if c.helpLong.Some? then Some(fences(c.helpLong.value))
                                          else if c.help.Some? then Some(fences(c.help.value)) else None))
      && (c.beforeHelpMd.Some? ==> r.beforeHelpMd == c.beforeHelpMd)
      && (c.afterHelpMd.Some? ==> r.afterHelpMd == c.afterHelpMd)
      && Keys(r.subcommands) == Keys(c.subcommands)
      && r.name == c.name && r.help == c.help && r.helpLong == c.helpLong
  {
    var r := CommandMd(c, fences);
    assert Keys(r.subcommands) == Keys(c.subcommands);
  }

  /** The markdown pass on one flag, in place. */
  method RenderFlagMd(f: DocFlag, fences: string -> string) returns (r: DocFlag)
    ensures r == FlagMd(f, fences)
  {
    if f.rendered {
      return f;
    }
    r := f.(rendered := true);
    if r.helpMd.None? {
      var h := r.helpLong.Or(r.help);
      if h.Some? {
        r := r.(helpMd := Some(fences(h.value)));
      }
    }
  }

  method RenderArgMd(a: DocArg, fences: string -> string) returns (r: DocArg)
    ensures r == ArgMd(a, fences)
  {
    if a.rendered {
      return a;
    }
    r := a.(rendered := true);
    if r.helpMd.None? {
      var h := r.helpLong.Or(r.help);
      if h.Some? {
        r := r.(helpMd := Some(fences(h.value)));
      }
    }
  }

  /** `SpecCommand::render_md` with the loops over the children, each
      rendered in place. */
  method RenderCommandMd(c: DocCommand, fences: string -> string) returns (r: DocCommand)
    ensures r == CommandMd(c, fences)
    decreases c, 1
  {
    if c.rendered {
      return c;
    }
    r := c.(rendered := true,
            beforeHelpMd := FillMd(c.beforeHelpMd, c.beforeHelpLong, c.beforeHelp, fences),
            helpMd := FillMd(c.helpMd, c.helpLong, c.help, fences),
            afterHelpMd := FillMd(c.afterHelpMd, c.afterHelpLong, c.afterHelp, fences));
    var flags := RenderFlagsMd(c.flags, fences);
    var args := RenderArgsMd(c.args, fences);
    var examples := RenderExamplesMd(c.examples, fences);
    var subs := RenderSubcommandsMd(c.subcommands, fences);
    r := r.(flags := flags, args := args, examples := examples, subcommands := subs);
  }

  method RenderFlagsMd(c: seq<DocFlag>, fences: string -> string) returns (flags: seq<DocFlag>)
    ensures flags == FlagsMd(c, fences)
  {
    flags := c;
    for i := 0 to |flags|
      invariant |flags| == |c|
      invariant forall j :: 0 <= j < i ==> flags[j] == FlagMd(c[j], fences)
      invariant forall j :: i <= j < |flags| ==> flags[j] == c[j]
    {
      var f := RenderFlagMd(flags[i], fences);
      flags := flags[i := f];
    }
  }

  method RenderArgsMd(c: seq<DocArg>, fences: string -> string) returns (args: seq<DocArg>)
    ensures args == ArgsMd(c, fences)
  {
    args := c;
    for i := 0 to |args|
      invariant |args| == |c|
      invariant forall j :: 0 <= j < i ==> args[j] == ArgMd(c[j], fences)
      invariant forall j :: i <= j < |args| ==> args[j] == c[j]
    {
      var a := RenderArgMd(args[i], fences);
      args := args[i := a];
    }
  }

  method RenderExamplesMd(c: seq<DocExample>, fences: string -> string) returns (examples: seq<DocExample>)
    ensures examples == ExamplesMd(c, fences)
  {
    examples := c;
    for i := 0 to |examples|
      invariant |examples| == |c|
      invariant forall j :: 0 <= j < i ==> examples[j] == ExampleMd(c[j], fences)
      invariant forall j :: i <= j < |examples| ==> examples[j] == c[j]
    {
      examples := examples[i := ExampleMd(examples[i], fences)];
    }
  }

  /** The loop over the subcommands, each rendered in place. */
  method RenderSubcommandsMd(c: seq<Entry<DocCommand>>, fences: string -> string) returns (subs: seq<Entry<DocCommand>>)
    ensures subs == SubcommandsMd(c, fences)
    decreases c, 0
  {
    subs := c;
    for i := 0 to |subs|
      invariant |subs| == |c|
      invariant forall j :: 0 <= j < i ==> subs[j] == SubcommandsMd(c, fences)[j]
      invariant forall j :: i <= j < |subs| ==> subs[j] == c[j]
    {
      assert c[i] in c;
      SubcommandsMdAt(c, fences, i);
      var sub := RenderCommandMd(subs[i].value, fences);
      subs := subs[i := Entry(subs[i].key, sub)];
    }
  }

  lemma {:induction false} SubcommandsMdAt(subs: seq<Entry<DocCommand>>, fences: string -> string, i: nat)
    requires i < |subs|
    ensures SubcommandsMd(subs, fences)[i] == Entry(subs[i].key, CommandMd(subs[i].value, fences))
    decreases |subs|
  {
    if i < |subs| - 1 {
      SubcommandsMdAt(subs[..|subs| - 1], fences, i);
    }
  }
}
