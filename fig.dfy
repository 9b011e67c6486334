/** The Fig completion spec generated from a usage spec
    (cli/src/cli/generate/fig.rs): a tree of commands, options and
    arguments, the generators attached to arguments, and the walks the
    generator makes over that tree. */
module Fig {
  import opened Wrappers
  import opened Strings
  import opened UsageSpec

  datatype GeneratorKind = EnvVar | CompleteRun

  /** A generator: its kind, the command whose output it post-processes and
      the placeholder it is serialised as. */
  datatype FigGenerator = FigGenerator(kind: GeneratorKind, postProcess: string, templateStr: string)

  datatype FigArg = FigArg(
    name: string,
    description: Option<string>,
    isOptional: bool,
    isVariadic: bool,
    template: Option<string>,
    generators: Option<FigGenerator>,
    suggestions: seq<string>,
    debounce: Option<bool>)

  datatype FigOption = FigOption(names: seq<string>, description: Option<string>, isRepeatable: bool, args: Option<FigArg>)

  datatype FigCommand = FigCommand(
    names: seq<string>,
    description: Option<string>,
    subcommands: seq<FigCommand>,
    options: seq<FigOption>,
    args: seq<FigArg>,
    generateSpec: Option<string>,
    cache: Option<bool>)

  // ---------------------------------------------------------------------
  // Descriptions
  // ---------------------------------------------------------------------

  /** `description_format::serialize` as written: the first character is
      upper-cased; an empty description has no first character, and the
      serialiser panics (None). */
  function CapitalizeAsWritten(s: string): (r: Option<string>)
    ensures r.None? <==> s == []
  {
    if s == [] then None else Some([UpperChar(s[0])] + s[1..])
  }

  /** The description capitalised, the empty description left as it is. */
  function Capitalize(s: string): (r: string)
    ensures |r| == |s|
    ensures s != [] ==> Some(r) == CapitalizeAsWritten(s)
  {
    if s == [] then s else [UpperChar(s[0])] + s[1..]
  }

  /** An empty description makes the written serialiser panic, and an
      argument whose help is the empty text carries such a description. */
  lemma EmptyDescriptionPanics(arg: Arg)
    requires arg.help == Some("")
    ensures ArgFromSpec(arg).description == Some("")
    ensures CapitalizeAsWritten(ArgFromSpec(arg).description.value).None?
  {
  }

  /** Capitalising keeps everything after the first character, upper-cases
      the first, and a second pass changes nothing. */
  lemma CapitalizeSpec(s: string)
    ensures s != [] ==> Capitalize(s)[0] == UpperChar(s[0]) && Capitalize(s)[1..] == s[1..]
    ensures Capitalize(Capitalize(s)) == Capitalize(s)
  {
    if s != [] {
      var c := s[0];
      assert UpperChar(UpperChar(c)) == UpperChar(c);
      assert Capitalize(s)[1..] == s[1..];
    }
  }

  // ---------------------------------------------------------------------
  // Generators
  // ---------------------------------------------------------------------

  function GeneratorName(kind: GeneratorKind): string {
    match kind
    case EnvVar => "envVarGenerator"
    case CompleteRun => "completionGeneratorTemplate"
  }

  /** `create_simple_generator`: the upper-cased generator name as the
      placeholder, nothing to post-process. */
  function SimpleGenerator(kind: GeneratorKind): (g: FigGenerator)
    ensures g.kind == kind && g.postProcess == ""
    ensures |g.templateStr| == |GeneratorName(kind)|
    ensures forall i :: 0 <= i < |g.templateStr| ==> !('a' <= g.templateStr[i] <= 'z')
  {
    FigGenerator(kind, "", ToUpper(GeneratorName(kind)))
  }

  /** `get_generator_text`: the generator's name, called with the quoted
      post-processing command for a completion generator. */
  function GeneratorText(g: FigGenerator): (t: string)
    ensures StartsWith(t, GeneratorName(g.kind))
    ensures g.kind == EnvVar ==> t == GeneratorName(g.kind)
    ensures g.kind == CompleteRun ==> t[|GeneratorName(g.kind)|..] == "(`" + g.postProcess + "`)"
  {
    GeneratorName(g.kind) + (if g.kind == CompleteRun then "(`" + g.postProcess + "`)" else "")
  }

  // ---------------------------------------------------------------------
  // Arguments
  // ---------------------------------------------------------------------

  /** `get_template`: a file picker for names mentioning a file, a folder
      picker for those mentioning a directory, a file picker again for
      those mentioning a path, compared without case. */
  function Template(name: string): (r: Option<string>)
  {
    var lower := ToLower(name);
    if Contains(lower, "file") then Some("filepaths")
    else if Contains(lower, "dir") then Some("folders")
    else if Contains(lower, "path") then Some("filepaths")
    else None
  }

  lemma TemplateSpec(name: string)
    ensures var lower := ToLower(name);
      && (Template(name).Some? <==> Contains(lower, "file") || Contains(lower, "dir") || Contains(lower, "path"))
      && (Template(name) == Some("folders") <==> !Contains(lower, "file") && Contains(lower, "dir"))
      && (Template(name).Some? ==> Template(name).value in ["filepaths", "folders"])
  {
    assert "folders"[0] != "filepaths"[1];
  }

  /** `get_generator`: names mentioning `env_vars` or `env_var` list the
      environment's variables. */
  function Generator(name: string): Option<FigGenerator> {
    var lower := ToLower(name);
    if Contains(lower, "env_vars") then Some(SimpleGenerator(EnvVar))
    else if Contains(lower, "env_var") then Some(SimpleGenerator(EnvVar))
    else None
  }

  /** A text containing a pattern contains the pattern's prefixes. */
  lemma ContainsPrefix(s: string, p: string, q: string)
    requires Contains(s, q) && |p| <= |q| && q[..|p|] == p
    ensures Contains(s, p)
  {
    var i :| 0 <= i <= |s| && OccursAt(s, q, i);
    assert s[i..i + |p|] == q[..|p|];
    assert OccursAt(s, p, i);
  }

  /** The first test is subsumed by the second: a generator is there
      exactly when the name mentions `env_var`, and it lists variables. */
  lemma GeneratorSpec(name: string)
    ensures Generator(name).Some? <==> Contains(ToLower(name), "env_var")
    ensures Generator(name).Some? ==> Generator(name).value.kind == EnvVar
  {
    if Contains(ToLower(name), "env_vars") {
      ContainsPrefix(ToLower(name), "env_var", "env_vars");
    }
  }

  predicate IsBracket(c: char) {
    c == '<' || c == '>' || c == '[' || c == ']'
  }

  /** `get_name`: the name without angle or square brackets, in ASCII
      lower case. */
  function ArgName(name: string): (r: string)
    ensures forall c :: c in r ==> !IsBracket(c) && !('A' <= c <= 'Z')
    ensures |r| <= |name|
  {
    var stripped := RemoveChar(RemoveChar(RemoveChar(RemoveChar(name, '<'), '>'), '['), ']');
    var r := ToLower(stripped);
    assert forall c :: c in stripped ==> !IsBracket(c);
    assert forall c :: c in r ==> !IsBracket(c) && !('A' <= c <= 'Z') by {
      forall c | c in r
        ensures !IsBracket(c) && !('A' <= c <= 'Z')
      {
        var i :| 0 <= i < |r| && r[i] == c;
        assert stripped[i] in stripped;
      }
    }
    RemoveCharShorter(name, '<');
    RemoveCharShorter(RemoveChar(name, '<'), '>');
    RemoveCharShorter(RemoveChar(RemoveChar(name, '<'), '>'), '[');
    RemoveCharShorter(RemoveChar(RemoveChar(RemoveChar(name, '<'), '>'), '['), ']');
    r
  }

  lemma {:induction false} RemoveCharShorter(s: string, c: char)
    ensures |RemoveChar(s, c)| <= |s|
    ensures c !in s ==> RemoveChar(s, c) == s
  {
    if s != [] {
      RemoveCharShorter(s[1..], c);
      if c !in s {
        assert s == [s[0]] + s[1..];
      }
    }
  }

  /** A name already free of brackets and upper-case letters is kept, so
      the name is a fixed point: naming twice is naming once. */
  lemma ArgNameIdempotent(name: string)
    ensures ArgName(ArgName(name)) == ArgName(name)
  {
    var n := ArgName(name);
    RemoveCharShorter(n, '<');
    RemoveCharShorter(n, '>');
    RemoveCharShorter(n, '[');
    RemoveCharShorter(n, ']');
    assert ToLower(n) == n;
  }

  /** `FigArg::parse_from_spec`. */
  function ArgFromSpec(arg: Arg): FigArg {
    FigArg(
      ArgName(arg.name),
      arg.help,
      !arg.required,
      arg.variadic,
      Template(arg.name),
      Generator(arg.name),
      arg.choices.GetOr([]),
      if Generator(arg.name).Some? then Some(true) else None)
  }

  /** An optional argument is one that is not required; debouncing is on
      exactly for an argument with a generator; the suggestions are the
      choices. */
  lemma ArgFromSpecSpec(arg: Arg)
    ensures ArgFromSpec(arg).isOptional <==> !arg.required
    ensures ArgFromSpec(arg).isVariadic == arg.variadic
    ensures ArgFromSpec(arg).debounce.Some? <==> ArgFromSpec(arg).generators.Some?
    ensures ArgFromSpec(arg).debounce.Some? ==> ArgFromSpec(arg).debounce.value
    ensures ArgFromSpec(arg).generators.Some? <==> Contains(ToLower(arg.name), "env_var")
    ensures arg.choices.Some? ==> ArgFromSpec(arg).suggestions == arg.choices.value
    ensures arg.choices.None? ==> ArgFromSpec(arg).suggestions == []
  {
    GeneratorSpec(arg.name);
  }

  /** `update_from_complete`: an existing generator is kept; otherwise a
      completion generator runs the completion's command (nothing when it
      has none) and is serialised as `$name$`. */
  function UpdateFromComplete(a: FigArg, c: Complete): (r: FigArg)
    ensures r.generators.Some?
    ensures r == a.(generators := r.generators)
    ensures a.generators.Some? ==> r == a
    ensures a.generators.None? ==> r.generators.value.kind == CompleteRun
    ensures a.generators.None? ==> r.generators.value.postProcess == (if c.run.Some? then c.run.value else "")
    ensures a.generators.None? ==> r.generators.value.templateStr == "$" + c.name + "$"
  {
    a.(generators := a.generators.Or(Some(FigGenerator(CompleteRun, c.run.GetOr(""), "$" + c.name + "$"))))
  }

  /** `fill_args_complete` for one argument: the completion registered
      under the argument's name, when there is one. */
  function Filled(a: FigArg, completes: seq<Entry<Complete>>): FigArg {
    match Get(completes, a.name)
    case None => a
    case Some(c) => UpdateFromComplete(a, c)
  }

  /** Filling keeps the name and everything but the generator, gives a
      generator to every argument with a completion, and a second fill
      changes nothing. */
  lemma FilledSpec(a: FigArg, completes: seq<Entry<Complete>>)
    ensures Filled(a, completes) == a.(generators := Filled(a, completes).generators)
    ensures Get(completes, a.name).Some? ==> Filled(a, completes).generators.Some?
    ensures Get(completes, a.name).None? ==> Filled(a, completes) == a
    ensures Filled(Filled(a, completes), completes) == Filled(a, completes)
  {
  }

  /** `fill_args_complete`: each argument of the list is updated in place
      from its completion. */
  method FillArgsComplete(args: array<FigArg>, completes: seq<Entry<Complete>>)
    modifies args
    ensures forall i :: 0 <= i < args.Length ==> args[i] == Filled(old(args[i]), completes)
  {
    for i := 0 to args.Length
      invariant forall k :: 0 <= k < i ==> args[k] == Filled(old(args[k]), completes)
      invariant forall k :: i <= k < args.Length ==> args[k] == old(args[k])
    {
      var found := Get(completes, args[i].name);
      if found.Some? {
        args[i] := UpdateFromComplete(args[i], found.value);
      }
    }
  }

  // ---------------------------------------------------------------------
  // Options and commands
  // ---------------------------------------------------------------------

  /** `FigOption::get_names`: the short names, then the long ones. */
  function OptionNames(flag: Flag): (r: seq<string>)
    ensures |r| == |flag.short| + |flag.long|
    ensures forall i :: 0 <= i < |flag.short| ==> r[i] == "-" + [flag.short[i]]
    ensures forall i :: 0 <= i < |flag.long| ==> r[|flag.short| + i] == "--" + flag.long[i]
  {
    Prefixed("-", Chars(flag.short)) + Prefixed("--", flag.long)
  }

  /** `FigOption::parse_from_spec`. */
  function OptionFromSpec(flag: Flag): (o: FigOption)
    ensures o.isRepeatable == flag.variadic
    ensures o.args.Some? <==> flag.arg.Some?
    ensures flag.arg.Some? ==> o.args.value.name == ArgName(flag.arg.value.name)
  {
    FigOption(OptionNames(flag), flag.help, flag.variadic, if flag.arg.Some? then Some(ArgFromSpec(flag.arg.value)) else None)
  }

  /** The translations of the items that are not hidden, in order. */
  function Visible<A, B>(hidden: A -> bool, f: A -> B, xs: seq<A>): seq<B> {
    if xs == [] then []
    else Visible(hidden, f, xs[..|xs| - 1]) + (if hidden(xs[|xs| - 1]) then [] else [f(xs[|xs| - 1])])
  }

  lemma {:induction false} VisibleSpec<A, B>(hidden: A -> bool, f: A -> B, xs: seq<A>)
    ensures forall y :: y in Visible(hidden, f, xs) <==> exists x :: x in xs && !hidden(x) && y == f(x)
    ensures |Visible(hidden, f, xs)| <= |xs|
  {
    if xs != [] {
      var init, last := xs[..|xs| - 1], xs[|xs| - 1];
      VisibleSpec(hidden, f, init);
      assert xs == init + [last];
      assert forall x :: x in xs <==> x in init || x == last;
    }
  }

  function FlagHidden(flag: Flag): bool {
    flag.hide
  }

  function ArgHidden(arg: Arg): bool {
    arg.hide
  }

  /** `get_names`: the command's name, then its aliases. */
  function CommandNames(cmd: Command): (r: seq<string>)
    ensures |r| == 1 + |cmd.aliases| && r[0] == cmd.name && r[1..] == cmd.aliases
  {
    [cmd.name] + cmd.aliases
  }

  /** The mounts' commands, each quoted, joined by commas. */
  function MountCalls(mounts: seq<Mount>): (r: seq<string>)
    ensures |r| == |mounts|
    ensures forall i :: 0 <= i < |mounts| ==> r[i] == "\"" + mounts[i].run + "\""
  {
    if mounts == [] then [] else MountCalls(mounts[..|mounts| - 1]) + ["\"" + mounts[|mounts| - 1].run + "\""]
  }

  /** `FigCommand::parse_from_spec`: nothing for a hidden command; hidden
      subcommands, flags and arguments are left out; mounts become a spec
      generator and switch caching off. */
  function CommandFromSpec(cmd: Command): (r: Option<FigCommand>)
    ensures r.None? <==> cmd.hide
    ensures r.Some? ==> |r.value.subcommands| <= |cmd.subcommands| && |r.value.options| <= |cmd.flags|
    ensures r.Some? ==> |r.value.args| <= |cmd.args|
    decreases cmd, 1
  {
    VisibleSpec(FlagHidden, OptionFromSpec, cmd.flags);
    VisibleSpec(ArgHidden, ArgFromSpec, cmd.args);
    if cmd.hide then None
    else Some(FigCommand(
      CommandNames(cmd),
      cmd.help,
      SubcommandsFromSpec(cmd.subcommands),
      Visible(FlagHidden, OptionFromSpec, cmd.flags),
      Visible(ArgHidden, ArgFromSpec, cmd.args),
      if cmd.mounts != [] then Some("$" + Join(MountCalls(cmd.mounts), ",") + "$") else None,
      if cmd.mounts != [] then Some(false) else None))
  }

  function SubcommandsFromSpec(subs: seq<Entry<Command>>): (r: seq<FigCommand>)
    ensures |r| <= |subs|
    decreases subs, 0
  {
    if subs == [] then []
    else SubcommandsFromSpec(subs[..|subs| - 1]) + SubcommandFromSpec(subs[|subs| - 1])
  }

  function SubcommandFromSpec(e: Entry<Command>): (r: seq<FigCommand>)
    ensures |r| <= 1
    decreases e, 2
  {
    if e.value.hide then []
    else match CommandFromSpec(e.value)
      case Some(c) => [c]
      case None => []
  }

  /** Exactly the subcommands that are not hidden are translated. */
  lemma {:induction false} SubcommandsFromSpecSpec(subs: seq<Entry<Command>>)
    ensures forall c :: c in SubcommandsFromSpec(subs) <==> exists e :: e in subs && !e.value.hide && CommandFromSpec(e.value) == Some(c)
  {
    if subs != [] {
      var init, last := subs[..|subs| - 1], subs[|subs| - 1];
      SubcommandsFromSpecSpec(init);
      assert subs == init + [last];
      assert forall e :: e in subs <==> e in init || e == last;
    }
  }

  /** A hidden command has no Fig command; a shown one is named by its name
      and aliases, and has a spec generator (without caching) exactly when
      it has mounts. */
  lemma CommandFromSpecSpec(cmd: Command)
    ensures CommandFromSpec(cmd).None? <==> cmd.hide
    ensures CommandFromSpec(cmd).Some? ==> var c := CommandFromSpec(cmd).value;
      && c.names == [cmd.name] + cmd.aliases
      && (c.generateSpec.Some? <==> cmd.mounts != [])
      && (c.cache.Some? <==> cmd.mounts != [])
      && (c.cache.Some? ==> !c.cache.value)
  {
  }

  /** A shown command keeps exactly its shown subcommands, flags and
      arguments. */
  lemma CommandChildren(cmd: Command)
    requires !cmd.hide
    ensures forall s :: s in CommandFromSpec(cmd).value.subcommands <==> exists e :: e in cmd.subcommands && !e.value.hide && CommandFromSpec(e.value) == Some(s)
    ensures forall o :: o in CommandFromSpec(cmd).value.options <==> exists f :: f in cmd.flags && !f.hide && o == OptionFromSpec(f)
    ensures forall a :: a in CommandFromSpec(cmd).value.args <==> exists x :: x in cmd.args && !x.hide && a == ArgFromSpec(x)
  {
    var c := CommandFromSpec(cmd).value;
    assert c.subcommands == SubcommandsFromSpec(cmd.subcommands);
    assert c.options == Visible(FlagHidden, OptionFromSpec, cmd.flags);
    assert c.args == Visible(ArgHidden, ArgFromSpec, cmd.args);
    SubcommandsFromSpecSpec(cmd.subcommands);
    VisibleSpec(FlagHidden, OptionFromSpec, cmd.flags);
    VisibleSpec(ArgHidden, ArgFromSpec, cmd.args);
  }

  // ---------------------------------------------------------------------
  // Walks over the Fig tree
  // ---------------------------------------------------------------------

  /** `get_commands`: every command of the tree, each after the commands
      below it. */
  function Commands(c: FigCommand): seq<FigCommand>
    decreases c, 1
  {
    CommandsOf(c.subcommands) + [c]
  }

  function CommandsOf(cs: seq<FigCommand>): seq<FigCommand>
    decreases cs, 0
  {
    if cs == [] then [] else CommandsOf(cs[..|cs| - 1]) + Commands(cs[|cs| - 1])
  }

  /** The command at `k` closes a block that is its own walk: everything
      below it comes just before it. */
  ghost predicate ClosesSubtree(r: seq<FigCommand>, k: int)
    requires 0 <= k < |r|
  {
    |Commands(r[k])| <= k + 1 && r[k + 1 - |Commands(r[k])|..k + 1] == Commands(r[k])
  }

  lemma ClosesLeft(a: seq<FigCommand>, b: seq<FigCommand>, k: int)
    requires 0 <= k < |a| && ClosesSubtree(a, k)
    ensures ClosesSubtree(a + b, k)
  {
    var j := k + 1 - |Commands(a[k])|;
    assert (a + b)[j..k + 1] == a[j..k + 1];
  }

  lemma ClosesRight(a: seq<FigCommand>, b: seq<FigCommand>, k: int)
    requires 0 <= k < |b| && ClosesSubtree(b, k)
    ensures ClosesSubtree(a + b, |a| + k)
  {
    var j := k + 1 - |Commands(b[k])|;
    assert (a + b)[|a| + j..|a| + k + 1] == b[j..k + 1];
  }

  /** Post-order: the walk ends with the command itself, and every command
      in it comes right after the commands below it. */
  lemma {:induction false} CommandsPostOrder(c: FigCommand)
    ensures Commands(c)[|Commands(c)| - 1] == c
    ensures forall k :: 0 <= k < |Commands(c)| ==> ClosesSubtree(Commands(c), k)
    decreases c, 1
  {
    var below := CommandsOf(c.subcommands);
    CommandsOfPostOrder(c.subcommands);
    forall k | 0 <= k < |Commands(c)|
      ensures ClosesSubtree(Commands(c), k)
    {
      if k < |below| {
        ClosesLeft(below, [c], k);
      } else {
        assert Commands(c)[0..k + 1] == Commands(c);
      }
    }
  }

  lemma {:induction false} CommandsOfPostOrder(cs: seq<FigCommand>)
    ensures forall k :: 0 <= k < |CommandsOf(cs)| ==> ClosesSubtree(CommandsOf(cs), k)
    decreases cs, 0
  {
    if cs != [] {
      var init, last := CommandsOf(cs[..|cs| - 1]), Commands(cs[|cs| - 1]);
      CommandsOfPostOrder(cs[..|cs| - 1]);
      CommandsPostOrder(cs[|cs| - 1]);
      forall k | 0 <= k < |CommandsOf(cs)|
        ensures ClosesSubtree(CommandsOf(cs), k)
      {
        if k < |init| {
          ClosesLeft(init, last, k);
        } else {
          ClosesRight(init, last, k - |init|);
        }
      }
    }
  }

  /** `get_args`: the options' arguments, then those of the subcommands,
      then the command's own. */
  function AllArgs(c: FigCommand): seq<FigArg>
    decreases c, 1
  {
    OptionArgs(c.options) + SubcommandArgs(c.subcommands) + c.args
  }

  function OptionArgs(os: seq<FigOption>): seq<FigArg> {
    if os == [] then []
    else OptionArgs(os[..|os| - 1]) + (if os[|os| - 1].args.Some? then [os[|os| - 1].args.value] else [])
  }

  function SubcommandArgs(cs: seq<FigCommand>): seq<FigArg>
    decreases cs, 0
  {
    if cs == [] then [] else SubcommandArgs(cs[..|cs| - 1]) + AllArgs(cs[|cs| - 1])
  }

  /** `get_generators`: those of the subcommands, then those of the
      options' arguments, then those of the command's arguments. */
  function Generators(c: FigCommand): seq<FigGenerator>
    decreases c, 1
  {
    SubcommandGenerators(c.subcommands) + OptionGenerators(c.options) + ArgGenerators(c.args)
  }

  function SubcommandGenerators(cs: seq<FigCommand>): seq<FigGenerator>
    decreases cs, 0
  {
    if cs == [] then [] else SubcommandGenerators(cs[..|cs| - 1]) + Generators(cs[|cs| - 1])
  }

  function OptionGenerators(os: seq<FigOption>): seq<FigGenerator> {
    if os == [] then []
    else
      var o := os[|os| - 1];
      OptionGenerators(os[..|os| - 1]) + (if o.args.Some? && o.args.value.generators.Some? then [o.args.value.generators.value] else [])
  }

  function ArgGenerators(args: seq<FigArg>): seq<FigGenerator> {
    if args == [] then []
    else
      var a := args[|args| - 1];
      ArgGenerators(args[..|args| - 1]) + (if a.generators.Some? then [a.generators.value] else [])
  }

  /** The generator of an argument in the list. */
  ghost predicate OfSomeArg(args: seq<FigArg>, g: FigGenerator) {
    exists a :: a in args && a.generators == Some(g)
  }

  lemma {:induction false} ArgGeneratorsSpec(args: seq<FigArg>)
    ensures forall g :: g in ArgGenerators(args) <==> OfSomeArg(args, g)
  {
    if args != [] {
      var init, last := args[..|args| - 1], args[|args| - 1];
      ArgGeneratorsSpec(init);
      assert args == init + [last];
      assert forall a :: a in args <==> a in init || a == last;
    }
  }

  lemma {:induction false} OptionGeneratorsSpec(os: seq<FigOption>)
    ensures forall g :: g in OptionGenerators(os) <==> OfSomeArg(OptionArgs(os), g)
  {
    if os != [] {
      var init, last := os[..|os| - 1], os[|os| - 1];
      OptionGeneratorsSpec(init);
      var tail := if last.args.Some? then [last.args.value] else [];
      assert OptionArgs(os) == OptionArgs(init) + tail;
      assert forall a :: a in OptionArgs(os) <==> a in OptionArgs(init) || a in tail;
    }
  }

  /** The generators collected over the tree are exactly those of the
      arguments `get_args` hands out for completion. */
  lemma {:induction false} GeneratorsOfArgs(c: FigCommand)
    ensures forall g :: g in Generators(c) <==> OfSomeArg(AllArgs(c), g)
    decreases c, 1
  {
    SubcommandGeneratorsOfArgs(c.subcommands);
    OptionGeneratorsSpec(c.options);
    ArgGeneratorsSpec(c.args);
    var o, s := OptionArgs(c.options), SubcommandArgs(c.subcommands);
    assert AllArgs(c) == o + s + c.args;
    assert forall a :: a in AllArgs(c) <==> a in o || a in s || a in c.args;
  }

  lemma {:induction false} SubcommandGeneratorsOfArgs(cs: seq<FigCommand>)
    ensures forall g :: g in SubcommandGenerators(cs) <==> OfSomeArg(SubcommandArgs(cs), g)
    decreases cs, 0
  {
    if cs != [] {
      var init, last := cs[..|cs| - 1], cs[|cs| - 1];
      SubcommandGeneratorsOfArgs(init);
      GeneratorsOfArgs(last);
      assert forall a :: a in SubcommandArgs(cs) <==> a in SubcommandArgs(init) || a in AllArgs(last);
    }
  }

  // ---------------------------------------------------------------------
  // Filling the tree's arguments from the completions
  // ---------------------------------------------------------------------

  /** The same update applied through the tree: every argument of every
      option and command. */
  function FillArgs(args: seq<FigArg>, completes: seq<Entry<Complete>>): (r: seq<FigArg>)
    ensures |r| == |args|
    ensures forall i :: 0 <= i < |args| ==> r[i] == Filled(args[i], completes)
  {
    if args == [] then [] else FillArgs(args[..|args| - 1], completes) + [Filled(args[|args| - 1], completes)]
  }

  function FillOption(o: FigOption, completes: seq<Entry<Complete>>): FigOption {
    if o.args.Some? then o.(args := Some(Filled(o.args.value, completes))) else o
  }

  function FillOptions(os: seq<FigOption>, completes: seq<Entry<Complete>>): (r: seq<FigOption>)
    ensures |r| == |os|
  {
    if os == [] then [] else FillOptions(os[..|os| - 1], completes) + [FillOption(os[|os| - 1], completes)]
  }

  function FillTree(c: FigCommand, completes: seq<Entry<Complete>>): FigCommand
    decreases c, 1
  {
    c.(options := FillOptions(c.options, completes),
       subcommands := FillSubcommands(c.subcommands, completes),
       args := FillArgs(c.args, completes))
  }

  function FillSubcommands(cs: seq<FigCommand>, completes: seq<Entry<Complete>>): (r: seq<FigCommand>)
    decreases cs, 0
  {
    if cs == [] then [] else FillSubcommands(cs[..|cs| - 1], completes) + [FillTree(cs[|cs| - 1], completes)]
  }

  lemma FillArgsAppend(a: seq<FigArg>, b: seq<FigArg>, completes: seq<Entry<Complete>>)
    ensures FillArgs(a + b, completes) == FillArgs(a, completes) + FillArgs(b, completes)
  {
    var l, r := FillArgs(a + b, completes), FillArgs(a, completes) + FillArgs(b, completes);
    assert |l| == |r|;
    forall i | 0 <= i < |l|
      ensures l[i] == r[i]
    {
      if i >= |a| {
        assert (a + b)[i] == b[i - |a|];
      }
    }
  }

  lemma {:induction false} FillOptionsArgs(os: seq<FigOption>, completes: seq<Entry<Complete>>)
    ensures OptionArgs(FillOptions(os, completes)) == FillArgs(OptionArgs(os), completes)
  {
    if os != [] {
      var init, last := os[..|os| - 1], os[|os| - 1];
      FillOptionsArgs(init, completes);
      var filled := FillOptions(os, completes);
      assert filled[..|filled| - 1] == FillOptions(init, completes);
      var tail := if last.args.Some? then [last.args.value] else [];
      FillArgsAppend(OptionArgs(init), tail, completes);
    }
  }

  /** Updating the list `get_args` returns is updating the tree: the
      arguments of the filled tree are the filled arguments, in order. */
  lemma {:induction false} FillTreeArgs(c: FigCommand, completes: seq<Entry<Complete>>)
    ensures AllArgs(FillTree(c, completes)) == FillArgs(AllArgs(c), completes)
    decreases c, 1
  {
    FillOptionsArgs(c.options, completes);
    FillSubcommandsArgs(c.subcommands, completes);
    FillArgsAppend(OptionArgs(c.options), SubcommandArgs(c.subcommands), completes);
    FillArgsAppend(OptionArgs(c.options) + SubcommandArgs(c.subcommands), c.args, completes);
  }

  lemma {:induction false} FillSubcommandsArgs(cs: seq<FigCommand>, completes: seq<Entry<Complete>>)
    ensures SubcommandArgs(FillSubcommands(cs, completes)) == FillArgs(SubcommandArgs(cs), completes)
    decreases cs, 0
  {
    if cs != [] {
      var init, last := cs[..|cs| - 1], cs[|cs| - 1];
      FillSubcommandsArgs(init, completes);
      FillTreeArgs(last, completes);
      var filled := FillSubcommands(cs, completes);
      assert filled[..|filled| - 1] == FillSubcommands(init, completes);
      FillArgsAppend(SubcommandArgs(init), AllArgs(last), completes);
    }
  }
}
