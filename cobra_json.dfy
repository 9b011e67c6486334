/** The JSON form of a spec that the cobra integration produces
    (integrations/cobra/json.go): plain records mirroring the serialised
    schema, built from the in-memory spec. Subcommands are a map keyed by
    name. Go's nil and empty slices are one value here, as they are in the
    spec these records are built from. */
module CobraJson {
  import opened Wrappers
  import opened Strings
  import opened CobraSpec
  import CobraKdl

  datatype JsonChoices = JsonChoices(choices: seq<string>)

  datatype JsonArg = JsonArg(
    name: string,
    usage: string,
    help: string,
    required: bool,
    hide: bool,
    variadic: bool,
    default: seq<string>,
    choices: Option<JsonChoices>)

  datatype JsonFlag = JsonFlag(
    name: string,
    usage: string,
    help: string,
    short: seq<string>,
    long: seq<string>,
    required: bool,
    hide: bool,
    global: bool,
    count: bool,
    variadic: bool,
    deprecated: string,
    default: seq<string>,
    arg: Option<JsonArg>)

  datatype JsonCommand = JsonCommand(
    fullCmd: seq<string>,
    usage: string,
    subcommands: map<string, JsonCommand>,
    args: seq<JsonArg>,
    flags: seq<JsonFlag>,
    hide: bool,
    subcommandRequired: bool,
    name: string,
    help: string,
    helpLong: string,
    deprecated: string,
    aliases: seq<string>,
    hiddenAliases: seq<string>)

  datatype JsonSpec = JsonSpec(
    name: string,
    bin: string,
    cmd: JsonCommand,
    version: string,
    usage: string,
    about: string,
    aboutLong: string)

  // ---------------------------------------------------------------------
  // Arguments and flags
  // ---------------------------------------------------------------------

  /** `argToJSON`: the fields are copied, the usage is made from the name,
      and the choices keep their values. */
  function ArgJson(a: SpecArg): JsonArg {
    var usage := if a.required then "<" + a.name + ">" else "[" + a.name + "]";
    JsonArg(a.name, usage, a.help, a.required, a.hide, a.variadic, a.default,
      if a.choices.Some? then Some(JsonChoices(a.choices.value.values)) else None)
  }

  /** The usage of an argument is its name between `<` and `>` when it is
      required and between `[` and `]` otherwise, with no ellipsis even when
      it is variadic; its choices are listed exactly when it has some. */
  lemma ArgJsonShape(a: SpecArg)
    ensures var u := ArgJson(a).usage;
      && |u| == |a.name| + 2 && u[1..|u| - 1] == a.name
      && ((u[0] == '<' && u[|u| - 1] == '>') <==> a.required)
      && ((u[0] == '[' && u[|u| - 1] == ']') <==> !a.required)
    ensures ArgJson(a).choices.Some? <==> a.choices.Some?
    ensures a.choices.Some? ==> ArgJson(a).choices.value.choices == a.choices.value.values
  {
  }

  /** The JSON usage of an argument is the KDL usage without the ellipsis
      that marks a variadic argument there. */
  lemma ArgUsageAgainstKdl(a: SpecArg)
    ensures CobraKdl.ArgUsage(a) == ArgJson(a).usage + (if a.variadic then "\U{2026}" else "")
  {
  }

  /** `flagToJSON`: the fields are copied, the names become lists, the
      usage is made from the names and the value's name, and the value
      becomes a JSON argument. */
  function FlagJson(f: SpecFlag): JsonFlag {
    var name := if f.long != "" then f.long else f.short;
    var usage := CobraKdl.FlagName(f);
    var usage := if f.arg.Some? then usage + " <" + f.arg.value.name + ">" else usage;
    JsonFlag(name, usage, f.help,
      if f.short != "" then [f.short] else [],
      if f.long != "" then [f.long] else [],
      f.required, f.hide, f.global, f.count, f.variadic, f.deprecated, f.default,
      if f.arg.Some? then Some(ArgJson(f.arg.value)) else None)
  }

  /** A flag is named by its long name when it has one, else by its short
      one; each of the short and long lists holds that name or nothing. */
  lemma FlagJsonNames(f: SpecFlag)
    ensures FlagJson(f).name == if f.long != "" then f.long else f.short
    ensures FlagJson(f).short == (if f.short != "" then [f.short] else [])
    ensures FlagJson(f).long == (if f.long != "" then [f.long] else [])
  {
  }

  /** A flag's value, when it takes one, is described as an argument. */
  lemma FlagJsonArg(f: SpecFlag)
    ensures FlagJson(f).arg.Some? <==> f.arg.Some?
    ensures f.arg.Some? ==> FlagJson(f).arg.value == ArgJson(f.arg.value)
  {
  }

  /** The usage of a flag spelled out: `-s --long`, `-s` or `--long`, then
      ` <ARG>` when it takes a value. */
  lemma FlagUsageShape(f: SpecFlag)
    ensures FlagJson(f).usage ==
      (if f.short != "" && f.long != "" then "-" + f.short + " --" + f.long
       else if f.short != "" then "-" + f.short
       else if f.long != "" then "--" + f.long
       else "")
      + (if f.arg.Some? then " <" + f.arg.value.name + ">" else "")
  {
    CobraKdl.FlagNameSpelled(f);
  }

  /** The JSON flags, one per flag, in order. */
  function FlagsJson(fs: seq<SpecFlag>): seq<JsonFlag> {
    if fs == [] then [] else FlagsJson(fs[..|fs| - 1]) + [FlagJson(fs[|fs| - 1])]
  }

  lemma {:induction false} FlagsJsonEach(fs: seq<SpecFlag>)
    ensures |FlagsJson(fs)| == |fs|
    ensures forall i :: 0 <= i < |fs| ==> FlagsJson(fs)[i] == FlagJson(fs[i])
  {
    if fs != [] {
      var init := fs[..|fs| - 1];
      FlagsJsonEach(init);
      var r := FlagsJson(fs);
      assert r == FlagsJson(init) + [FlagJson(fs[|fs| - 1])];
      forall i | 0 <= i < |fs| ensures r[i] == FlagJson(fs[i]) {
        if i < |fs| - 1 {
          assert r[i] == FlagsJson(init)[i];
          assert init[i] == fs[i];
        }
      }
    }
  }

  /** The JSON arguments, one per argument, in order. */
  function ArgsJson(args: seq<SpecArg>): seq<JsonArg> {
    if args == [] then [] else ArgsJson(args[..|args| - 1]) + [ArgJson(args[|args| - 1])]
  }

  lemma {:induction false} ArgsJsonEach(args: seq<SpecArg>)
    ensures |ArgsJson(args)| == |args|
    ensures forall i :: 0 <= i < |args| ==> ArgsJson(args)[i] == ArgJson(args[i])
  {
    if args != [] {
      var init := args[..|args| - 1];
      ArgsJsonEach(init);
      var r := ArgsJson(args);
      assert r == ArgsJson(init) + [ArgJson(args[|args| - 1])];
      forall i | 0 <= i < |args| ensures r[i] == ArgJson(args[i]) {
        if i < |args| - 1 {
          assert r[i] == ArgsJson(init)[i];
          assert init[i] == args[i];
        }
      }
    }
  }

  // ---------------------------------------------------------------------
  // Commands
  // ---------------------------------------------------------------------

  /** `commandToJSON` as a value: the command's own fields, its path, and
      its subcommands keyed by name. The usage and the hidden aliases are
      never filled in. */
  function CommandJson(c: SpecCommand, path: seq<string>): JsonCommand
    decreases c, 1
  {
    JsonCommand(path, "", SubcommandsJson(c.cmds, path), ArgsJson(c.args), FlagsJson(c.flags),
      c.hide, c.subcommandRequired, c.name, c.help, c.helpLong, c.deprecated, c.aliases, [])
  }

  /** The subcommand map, filled in order, so that a later sibling replaces
      an earlier one of the same name. Each child's path is the parent's
      path with the child's name appended. */
  function SubcommandsJson(cs: seq<SpecCommand>, path: seq<string>): map<string, JsonCommand>
    decreases cs, 0
  {
    if cs == [] then map[]
    else
      var c := cs[|cs| - 1];
      SubcommandsJson(cs[..|cs| - 1], path)[c.name := CommandJson(c, path + [c.name])]
  }

  /** `toJSON` as a value: the metadata, and a root command with an empty
      path, the spec's name, no aliases, and the root's flags, arguments and
      subcommands. */
  function SpecJson(s: Spec): JsonSpec {
    var root := JsonCommand([], "", SubcommandsJson(s.cmds, []), ArgsJson(s.args), FlagsJson(s.flags),
      false, false, s.name, "", "", "", [], []);
    JsonSpec(s.name, s.bin, root, s.version, "", s.about, s.long)
  }

  // ---------------------------------------------------------------------
  // What the JSON tree says
  // ---------------------------------------------------------------------

  /** The names of some commands. */
  function Names(cs: seq<SpecCommand>): set<string> {
    set i | 0 <= i < |cs| :: cs[i].name
  }

  /** The subcommand map has one key per distinct subcommand name. */
  lemma {:induction false} SubcommandKeys(cs: seq<SpecCommand>, path: seq<string>)
    ensures SubcommandsJson(cs, path).Keys == Names(cs)
  {
    if cs != [] {
      var init := cs[..|cs| - 1];
      SubcommandKeys(init, path);
      assert Names(cs) == Names(init) + {cs[|cs| - 1].name} by {
        forall k | k in Names(cs) ensures k in Names(init) + {cs[|cs| - 1].name} {
          var i :| 0 <= i < |cs| && cs[i].name == k;
          if i < |cs| - 1 {
            assert init[i] == cs[i];
          }
        }
        forall k | k in Names(init) ensures k in Names(cs) {
          var i :| 0 <= i < |init| && init[i].name == k;
          assert cs[i] == init[i];
        }
      }
    }
  }

  /** A subcommand's entry is built from the last sibling with its name. */
  lemma {:induction false} SubcommandLastWins(cs: seq<SpecCommand>, path: seq<string>, j: nat)
    requires j < |cs|
    requires forall i :: j < i < |cs| ==> cs[i].name != cs[j].name
    ensures cs[j].name in SubcommandsJson(cs, path)
    ensures SubcommandsJson(cs, path)[cs[j].name] == CommandJson(cs[j], path + [cs[j].name])
  {
    if j < |cs| - 1 {
      var init := cs[..|cs| - 1];
      assert init[j] == cs[j];
      SubcommandLastWins(init, path, j);
    }
  }

  /** Every command below this one sits at its parent's path extended by
      its own key, is named by that key, and has no hidden aliases. */
  predicate WellFormed(j: JsonCommand)
    decreases j
  {
    && j.hiddenAliases == []
    && forall k :: k in j.subcommands ==>
      && j.subcommands[k].fullCmd == j.fullCmd + [k]
      && j.subcommands[k].name == k
      && WellFormed(j.subcommands[k])
  }

  /** A command's JSON record sits at the path it was given, keeps its
      aliases, and every command below it is well formed. */
  lemma {:induction false} CommandJsonWellFormed(c: SpecCommand, path: seq<string>)
    ensures CommandJson(c, path).fullCmd == path
    ensures CommandJson(c, path).aliases == c.aliases
    ensures WellFormed(CommandJson(c, path))
    decreases c, 1
  {
    SubcommandsWellFormed(c.cmds, path);
  }

  lemma {:induction false} SubcommandsWellFormed(cs: seq<SpecCommand>, path: seq<string>)
    ensures forall k :: k in SubcommandsJson(cs, path) ==>
      && SubcommandsJson(cs, path)[k].fullCmd == path + [k]
      && SubcommandsJson(cs, path)[k].name == k
      && WellFormed(SubcommandsJson(cs, path)[k])
    decreases cs, 0
  {
    if cs != [] {
      var c := cs[|cs| - 1];
      SubcommandsWellFormed(cs[..|cs| - 1], path);
      CommandJsonWellFormed(c, path + [c.name]);
    }
  }

  /** The root has an empty path, the spec's name and no aliases; its
      children sit at one-element paths; the top-level usage is never set. */
  lemma SpecJsonRoot(s: Spec)
    ensures SpecJson(s).cmd.fullCmd == [] && SpecJson(s).cmd.name == s.name
    ensures SpecJson(s).cmd.aliases == [] && SpecJson(s).cmd.hiddenAliases == []
    ensures WellFormed(SpecJson(s).cmd)
    ensures forall k :: k in SpecJson(s).cmd.subcommands ==> SpecJson(s).cmd.subcommands[k].fullCmd == [k]
    ensures SpecJson(s).cmd.subcommands.Keys == Names(s.cmds)
    ensures SpecJson(s).usage == ""
  {
    SubcommandsWellFormed(s.cmds, []);
    SubcommandKeys(s.cmds, []);
  }

  // ---------------------------------------------------------------------
  // Building, step by step
  // ---------------------------------------------------------------------

  /** The flags loop of `toJSON` and `commandToJSON`. */
  method AppendFlags(flags: seq<SpecFlag>) returns (r: seq<JsonFlag>)
    ensures r == FlagsJson(flags)
  {
    r := [];
    for i := 0 to |flags|
      invariant r == FlagsJson(flags[..i])
    {
      assert flags[..i + 1][..i] == flags[..i];
      r := r + [FlagJson(flags[i])];
    }
    assert flags[..|flags|] == flags;
  }

  /** The arguments loop of `toJSON` and `commandToJSON`. */
  method AppendArgs(args: seq<SpecArg>) returns (r: seq<JsonArg>)
    ensures r == ArgsJson(args)
  {
    r := [];
    for i := 0 to |args|
      invariant r == ArgsJson(args[..i])
    {
      assert args[..i + 1][..i] == args[..i];
      r := r + [ArgJson(args[i])];
    }
    assert args[..|args|] == args;
  }

  /** The subcommands loop: each child is converted at a fresh copy of the
      parent's path extended by its name, and stored under its name. */
  method FillSubcommands(cmds: seq<SpecCommand>, path: seq<string>) returns (m: map<string, JsonCommand>)
    ensures m == SubcommandsJson(cmds, path)
    decreases cmds, 0
  {
    m := map[];
    for i := 0 to |cmds|
      invariant m == SubcommandsJson(cmds[..i], path)
    {
      var sub := cmds[i];
      var childPath := path + [sub.name];
      var sc := CommandToJson(sub, childPath);
      assert cmds[..i + 1][..i] == cmds[..i];
      m := m[sub.name := sc];
    }
    assert cmds[..|cmds|] == cmds;
  }

  /** `commandToJSON`. */
  method CommandToJson(cmd: SpecCommand, fullCmd: seq<string>) returns (jc: JsonCommand)
    ensures jc == CommandJson(cmd, fullCmd)
    decreases cmd, 1
  {
    jc := JsonCommand(fullCmd, "", map[], [], [], cmd.hide, cmd.subcommandRequired, cmd.name,
      cmd.help, cmd.helpLong, cmd.deprecated, cmd.aliases, []);
    var flags := AppendFlags(cmd.flags);
    var args := AppendArgs(cmd.args);
    var subs := FillSubcommands(cmd.cmds, fullCmd);
    jc := jc.(flags := flags, args := args, subcommands := subs);
  }

  /** `toJSON`. */
  method ToJson(spec: Spec) returns (js: JsonSpec)
    ensures js == SpecJson(spec)
  {
    js := JsonSpec(spec.name, spec.bin, JsonCommand([], "", map[], [], [], false, false, "", "", "", "", [], []),
      spec.version, "", spec.about, spec.long);
    var root := JsonCommand([], "", map[], [], [], false, false, spec.name, "", "", "", [], []);
    var flags := AppendFlags(spec.flags);
    var args := AppendArgs(spec.args);
    var subs := FillSubcommands(spec.cmds, []);
    root := root.(flags := flags, args := args, subcommands := subs);
    js := js.(cmd := root);
  }
}
