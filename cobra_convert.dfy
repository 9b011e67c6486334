/** Conversion of a cobra command tree into a usage spec
    (integrations/cobra/convert.go). The functions state what each conversion
    produces; the methods build the same values the way the Go code does,
    with append loops and field-by-field assignment. */
module CobraConvert {
  import opened Wrappers
  import opened Strings
  import opened CobraSpec

  /** Cobra's auto-generated commands, which are never converted. */
  predicate IsBuiltinCommand(c: HostCommand) {
    c.name == "help" || c.name == "completion"
  }

  /** Cobra's auto-generated flags, which are never converted. */
  predicate IsBuiltinFlag(f: HostFlag) {
    f.name == "help" || f.name == "version"
  }

  // ---------------------------------------------------------------------
  // Positional arguments from the `Use` line
  // ---------------------------------------------------------------------

  /** One token of a `Use` line: `<x>` is a required argument, `[x]` an
      optional one, a trailing `...` makes it variadic; anything else is not
      an argument. */
  function ParseArgToken(token: string): Option<SpecArg> {
    var variadic := EndsWith(token, "...");
    var t := TrimSuffix(token, "...");
    if StartsWith(t, "<") && EndsWith(t, ">") then
      Some(EmptyArg.(variadic := variadic, required := true, name := TrimPrefix(TrimSuffix(t, ">"), "<")))
    else if StartsWith(t, "[") && EndsWith(t, "]") then
      Some(EmptyArg.(variadic := variadic, required := false, name := TrimPrefix(TrimSuffix(t, "]"), "[")))
    else
      None
  }

  /** A token after the `...` suffix is taken off is an argument exactly when
      it is bracketed by `<>` or `[]`; its name is what lies between the
      brackets, `<>` makes it required, and the suffix makes it variadic. */
  lemma ParseArgTokenForms(token: string)
    ensures var t := if EndsWith(token, "...") then token[..|token| - 3] else token;
      var angled := |t| >= 2 && t[0] == '<' && t[|t| - 1] == '>';
      var squared := |t| >= 2 && t[0] == '[' && t[|t| - 1] == ']';
      && (ParseArgToken(token).Some? <==> angled || squared)
      && (angled || squared ==>
            ParseArgToken(token) ==
            Some(EmptyArg.(name := t[1..|t| - 1], required := angled, variadic := EndsWith(token, "..."))))
  {
    var t := TrimSuffix(token, "...");
    BracketedBy(t, '<', '>');
    BracketedBy(t, '[', ']');
  }

  /** The token a `Use` line carries for an argument. */
  function UseToken(name: string, required: bool, variadic: bool): string {
    (if required then "<" + name + ">" else "[" + name + "]") + (if variadic then "..." else "")
  }

  /** Every argument survives being written as a `Use` token and read back. */
  lemma ParseArgTokenRoundTrip(name: string, required: bool, variadic: bool)
    ensures ParseArgToken(UseToken(name, required, variadic))
         == Some(EmptyArg.(name := name, required := required, variadic := variadic))
  {
    var token := UseToken(name, required, variadic);
    var t := if required then "<" + name + ">" else "[" + name + "]";
    assert token == t + (if variadic then "..." else "");
    assert EndsWith(token, "...") == variadic by {
      if !variadic { assert token[|token| - 1] == t[|t| - 1]; }
    }
    assert TrimSuffix(token, "...") == t by {
      if variadic { assert token[..|token| - 3] == t; }
    }
    assert t[1..|t| - 1] == name;
    BracketedBy(t, '<', '>');
    BracketedBy(t, '[', ']');
  }

  /** `[flags]` and `[options]`, in any letter case. */
  predicate IsFlagsPlaceholder(token: string) {
    var lower := ToLower(token);
    lower == "[flags]" || lower == "[options]"
  }

  /** The arguments a run of tokens declares: placeholders and unrecognised
      tokens are dropped. */
  function ArgsOfTokens(tokens: seq<string>): (r: seq<SpecArg>)
    ensures |r| <= |tokens|
  {
    if tokens == [] then []
    else
      var init := ArgsOfTokens(tokens[..|tokens| - 1]);
      var last := tokens[|tokens| - 1];
      if IsFlagsPlaceholder(last) then init
      else match ParseArgToken(last)
        case None => init
        case Some(a) => init + [a]
  }

  /** The tokens' order is kept: the arguments of a concatenation are the
      concatenation of the arguments. */
  lemma {:induction false} ArgsOfTokensAppend(a: seq<string>, b: seq<string>)
    ensures ArgsOfTokens(a + b) == ArgsOfTokens(a) + ArgsOfTokens(b)
    decreases |b|
  {
    if b != [] {
      var b' := b[..|b| - 1];
      assert (a + b)[..|a + b| - 1] == a + b';
      ArgsOfTokensAppend(a, b');
    } else {
      assert a + b == a;
    }
  }

  /** One token gives its argument, or nothing for a placeholder or an
      unrecognised token. */
  lemma ArgsOfOneToken(t: string)
    ensures ArgsOfTokens([t]) == if IsFlagsPlaceholder(t) || ParseArgToken(t).None? then [] else [ParseArgToken(t).value]
  {
    assert [t][..0] == [];
  }

  /** One more token of a `Use` line adds its argument, if it declares one. */
  lemma TokensSnoc(parts: seq<string>, i: nat)
    requires 1 <= i < |parts|
    ensures var init := ArgsOfTokens(parts[1..i]);
      ArgsOfTokens(parts[1..i + 1]) ==
        if IsFlagsPlaceholder(parts[i]) || ParseArgToken(parts[i]).None? then init
        else init + [ParseArgToken(parts[i]).value]
  {
    assert parts[1..i + 1][..i - 1] == parts[1..i];
  }

  /** The arguments of a whole `Use` line: the first field is the command
      name, and a line with at most one field declares none. */
  function UseArgs(use: string): seq<SpecArg> {
    var parts := Words(use);
    if |parts| <= 1 then [] else ArgsOfTokens(parts[1..])
  }

  /** `parseArgsFromUse`. */
  method ParseArgsFromUse(cmd: HostCommand) returns (args: seq<SpecArg>)
    ensures args == UseArgs(cmd.use)
    ensures |args| < |Words(cmd.use)| || args == []
  {
    var parts := Words(cmd.use);
    if |parts| <= 1 {
      return [];
    }
    args := [];
    for i := 1 to |parts|
      invariant args == ArgsOfTokens(parts[1..i])
    {
      TokensSnoc(parts, i);
      var token := parts[i];
      var lower := ToLower(token);
      if lower == "[flags]" || lower == "[options]" {
        continue;
      }
      var arg := ParseArgToken(token);
      if arg.Some? {
        args := args + [arg.value];
      }
    }
    assert parts[1..|parts|] == parts[1..];
  }

  // ---------------------------------------------------------------------
  // Flags
  // ---------------------------------------------------------------------

  /** The name of a flag's value: the flag name upper-cased with `-` turned
      into `_`. */
  function ArgNameOf(name: string): (r: string)
    ensures |r| == |name|
    ensures '-' !in r
    ensures forall i :: 0 <= i < |r| ==> !('a' <= r[i] <= 'z')
    ensures forall i :: 0 <= i < |r| ==> (name[i] == '-' ==> r[i] == '_')
  {
    ToUpper(ReplaceChar(name, '-', '_'))
  }

  /** Default values that are the zero value of some flag type and are not
      recorded. */
  predicate IsZeroDefault(v: string) {
    v == "" || v == "false" || v == "0" || v == "[]"
  }

  /** The flag `convertFlag` produces: names, help and visibility are
      copied, required comes from the annotation alone, the value depends on
      the pflag type, and only non-zero defaults are kept. */
  function FlagOf(f: HostFlag): SpecFlag {
    var isCount := f.typeName == "count";
    var arg := if f.typeName == "bool" || isCount then None else Some(EmptyArg.(name := ArgNameOf(f.name), required := true));
    var default := if IsZeroDefault(f.defValue) then [] else [f.defValue];
    SpecFlag(f.shorthand, f.name, f.usage, "", f.requiredAnnotation, f.hidden, false, isCount, isCount, f.deprecated, default, arg)
  }

  /** `convertFlag`. */
  method ConvertFlag(f: HostFlag) returns (sf: SpecFlag)
    ensures sf == FlagOf(f)
  {
    // The optional fields are set only when the pflag value is not Go's zero
    // value, which leaves the same field as copying it unconditionally.
    sf := EmptyFlag.(short := f.shorthand, long := f.name, help := f.usage, hide := f.hidden,
      deprecated := f.deprecated, required := f.requiredAnnotation);
    if f.typeName == "bool" {
    } else if f.typeName == "count" {
      sf := sf.(count := true, variadic := true);
    } else {
      sf := sf.(arg := Some(EmptyArg.(name := ArgNameOf(f.name), required := true)));
    }
    if !IsZeroDefault(f.defValue) {
      sf := sf.(default := [f.defValue]);
    }
  }

  /** How a pflag type decides the shape of the converted flag: `bool`
      takes no value, `count` is a variadic counter without a value, every
      other type takes exactly one required value named after the flag; a
      default is recorded exactly when it is not a zero value. */
  lemma FlagShapes(f: HostFlag)
    ensures var sf := FlagOf(f);
      && (sf.arg.None? <==> f.typeName == "bool" || f.typeName == "count")
      && (sf.count <==> f.typeName == "count") && (sf.variadic <==> sf.count)
      && (sf.arg.Some? ==> sf.arg.value.required && sf.arg.value.name == ArgNameOf(f.name))
      && (sf.default == [] <==> f.defValue in {"", "false", "0", "[]"})
      && (sf.default != [] ==> sf.default == [f.defValue])
      && !sf.global && sf.long == f.name && sf.short == f.shorthand
  {
  }

  /** The converted persistent flags: builtins dropped, every flag global. */
  function PersistentFlagsOf(fs: seq<HostFlag>): (r: seq<SpecFlag>)
    ensures |r| <= |fs|
    ensures forall i :: 0 <= i < |r| ==> r[i].global && r[i].long != "help" && r[i].long != "version"
  {
    if fs == [] then []
    else
      var init := PersistentFlagsOf(fs[..|fs| - 1]);
      var f := fs[|fs| - 1];
      if IsBuiltinFlag(f) then init else init + [FlagOf(f).(global := true)]
  }

  /** The names of a flag set, for `Lookup`. */
  function FlagNames(fs: seq<HostFlag>): (r: set<string>)
    ensures forall f :: f in fs ==> f.name in r
    ensures forall n :: n in r ==> exists f :: f in fs && f.name == n
  {
    set f | f in fs :: f.name
  }

  /** The converted local flags: builtins dropped, and on the root a flag
      that is also persistent (by name) dropped too; none is global. */
  function LocalFlagsOf(fs: seq<HostFlag>, persistent: set<string>, isRoot: bool): (r: seq<SpecFlag>)
    ensures |r| <= |fs|
    ensures forall i :: 0 <= i < |r| ==> !r[i].global && r[i].long != "help" && r[i].long != "version"
    ensures isRoot ==> forall i :: 0 <= i < |r| ==> r[i].long !in persistent
  {
    if fs == [] then []
    else
      var init := LocalFlagsOf(fs[..|fs| - 1], persistent, isRoot);
      var f := fs[|fs| - 1];
      if IsBuiltinFlag(f) then init
      else if isRoot && f.name in persistent then init
      else init + [FlagOf(f)]
  }

  /** `convertPersistentFlags`. */
  method ConvertPersistentFlags(cmd: HostCommand) returns (flags: seq<SpecFlag>)
    ensures flags == PersistentFlagsOf(cmd.persistentFlags)
  {
    var fs := cmd.persistentFlags;
    flags := [];
    for i := 0 to |fs|
      invariant flags == PersistentFlagsOf(fs[..i])
    {
      assert fs[..i + 1][..i] == fs[..i];
      var f := fs[i];
      if IsBuiltinFlag(f) {
        continue;
      }
      var sf := ConvertFlag(f);
      sf := sf.(global := true);
      flags := flags + [sf];
    }
    assert fs[..|fs|] == fs;
  }

  /** `convertLocalFlags`. */
  method ConvertLocalFlags(cmd: HostCommand, isRoot: bool) returns (flags: seq<SpecFlag>)
    ensures flags == LocalFlagsOf(cmd.localFlags, FlagNames(cmd.persistentFlags), isRoot)
  {
    var fs := cmd.localFlags;
    var persistent := FlagNames(cmd.persistentFlags);
    flags := [];
    for i := 0 to |fs|
      invariant flags == LocalFlagsOf(fs[..i], persistent, isRoot)
    {
      assert fs[..i + 1][..i] == fs[..i];
      var f := fs[i];
      if IsBuiltinFlag(f) {
        continue;
      }
      if isRoot && f.name in persistent {
        continue;
      }
      var sf := ConvertFlag(f);
      flags := flags + [sf];
    }
    assert fs[..|fs|] == fs;
  }

  // ---------------------------------------------------------------------
  // Commands
  // ---------------------------------------------------------------------

  /** Valid args become the choices of the first argument, if there is one. */
  function ChoicesOnFirst(args: seq<SpecArg>, validArgs: seq<string>): (r: seq<SpecArg>)
    ensures |r| == |args|
    ensures forall i :: 0 < i < |r| ==> r[i] == args[i]
    ensures |r| > 0 ==> r[0] == if |validArgs| > 0 then args[0].(choices := Some(SpecChoices(validArgs))) else args[0]
  {
    if |validArgs| > 0 && |args| > 0 then args[0 := args[0].(choices := Some(SpecChoices(validArgs)))] else args
  }

  /** The flags of a command: persistent first, then local. */
  function CommandFlags(c: HostCommand, isRoot: bool): seq<SpecFlag> {
    PersistentFlagsOf(c.persistentFlags) + LocalFlagsOf(c.localFlags, FlagNames(c.persistentFlags), isRoot)
  }

  /** `convertCommand` as a value: children that are builtins are dropped
      with their whole subtree, and a command with converted children but no
      arguments requires a subcommand. */
  function CommandOf(c: HostCommand): (r: SpecCommand)
    ensures r.name == c.name && r.help == c.short && r.helpLong == c.long
    ensures r.hide == c.hidden && r.deprecated == c.deprecated && r.aliases == c.aliases
    ensures r.args == ChoicesOnFirst(UseArgs(c.use), c.validArgs)
    ensures r.flags == CommandFlags(c, false)
    ensures r.cmds == CommandsOf(c.children)
    ensures r.subcommandRequired <==> |r.cmds| > 0 && |r.args| == 0
    decreases c, 1
  {
    var args := ChoicesOnFirst(UseArgs(c.use), c.validArgs);
    var subs := CommandsOf(c.children);
    SpecCommand(c.name, c.short, c.long, c.hidden, c.deprecated, c.aliases,
      |subs| > 0 && |args| == 0, CommandFlags(c, false), args, subs)
  }

  /** The converted children, in order, without the builtin ones. */
  function CommandsOf(cs: seq<HostCommand>): (r: seq<SpecCommand>)
    ensures |r| <= |cs|
    ensures |r| == 0 <==> forall c :: c in cs ==> IsBuiltinCommand(c)
    ensures forall k :: 0 <= k < |r| ==> r[k].name != "help" && r[k].name != "completion"
    decreases cs, 0
  {
    if cs == [] then []
    else
      var init := CommandsOf(cs[..|cs| - 1]);
      var c := cs[|cs| - 1];
      assert cs == cs[..|cs| - 1] + [c];
      if IsBuiltinCommand(c) then init else init + [CommandOf(c)]
  }

  /** `convertRoot` as a value: the root never requires a subcommand, and a
      local flag that is also persistent is listed once, as global. */
  function RootOf(c: HostCommand): (s: Spec)
    ensures s.name == c.name && s.bin == c.name && s.usage == ""
    ensures s.version == c.version && s.about == c.short && s.long == c.long
    ensures s.flags == CommandFlags(c, true)
    ensures s.args == ChoicesOnFirst(UseArgs(c.use), c.validArgs)
    ensures s.cmds == CommandsOf(c.children)
  {
    Spec(c.name, c.name, c.version, c.short, c.long, "",
      CommandFlags(c, true), ChoicesOnFirst(UseArgs(c.use), c.validArgs), CommandsOf(c.children))
  }

  /** `convertCommand`. */
  method ConvertCommand(cmd: HostCommand) returns (sc: SpecCommand)
    ensures sc == CommandOf(cmd)
    decreases cmd
  {
    // Each optional field is set only when the cobra value is not Go's zero
    // value, which leaves the same field as copying it unconditionally.
    sc := SpecCommand(cmd.name, cmd.short, cmd.long, cmd.hidden, cmd.deprecated, cmd.aliases, false, [], [], []);
    var persistent := ConvertPersistentFlags(cmd);
    var local := ConvertLocalFlags(cmd, false);
    sc := sc.(flags := persistent + local);
    var args := ParseArgsFromUse(cmd);
    sc := sc.(args := args);
    if |cmd.validArgs| > 0 && |sc.args| > 0 {
      sc := sc.(args := sc.args[0 := sc.args[0].(choices := Some(SpecChoices(cmd.validArgs)))]);
    }
    var subcommands: seq<SpecCommand> := [];
    for i := 0 to |cmd.children|
      invariant subcommands == CommandsOf(cmd.children[..i])
    {
      assert cmd.children[..i + 1][..i] == cmd.children[..i];
      var sub := cmd.children[i];
      if IsBuiltinCommand(sub) {
        continue;
      }
      var converted := ConvertCommand(sub);
      subcommands := subcommands + [converted];
    }
    assert cmd.children[..|cmd.children|] == cmd.children;
    if |subcommands| > 0 {
      sc := sc.(cmds := subcommands);
      if |sc.args| == 0 {
        sc := sc.(subcommandRequired := true);
      }
    }
  }

  /** `convertRoot`. */
  method ConvertRoot(cmd: HostCommand) returns (spec: Spec)
    ensures spec == RootOf(cmd)
  {
    spec := Spec(cmd.name, cmd.name, cmd.version, cmd.short, cmd.long, "", [], [], []);
    var persistent := ConvertPersistentFlags(cmd);
    var local := ConvertLocalFlags(cmd, true);
    spec := spec.(flags := persistent + local);
    var args := ParseArgsFromUse(cmd);
    spec := spec.(args := args);
    if |cmd.validArgs| > 0 && |spec.args| > 0 {
      spec := spec.(args := spec.args[0 := spec.args[0].(choices := Some(SpecChoices(cmd.validArgs)))]);
    }
    var cmds: seq<SpecCommand> := [];
    for i := 0 to |cmd.children|
      invariant cmds == CommandsOf(cmd.children[..i])
    {
      assert cmd.children[..i + 1][..i] == cmd.children[..i];
      var sub := cmd.children[i];
      if IsBuiltinCommand(sub) {
        continue;
      }
      var converted := ConvertCommand(sub);
      cmds := cmds + [converted];
    }
    assert cmd.children[..|cmd.children|] == cmd.children;
    spec := spec.(cmds := cmds);
  }

  // ---------------------------------------------------------------------
  // Properties of the converted tree
  // ---------------------------------------------------------------------

  /** No builtin command or flag anywhere below a converted command. */
  predicate NoBuiltins(c: SpecCommand) {
    && (forall i :: 0 <= i < |c.flags| ==> c.flags[i].long != "help" && c.flags[i].long != "version")
    && (forall k :: 0 <= k < |c.cmds| ==>
          c.cmds[k].name != "help" && c.cmds[k].name != "completion" && NoBuiltins(c.cmds[k]))
  }

  lemma {:induction false} CommandHasNoBuiltins(c: HostCommand)
    ensures NoBuiltins(CommandOf(c))
    decreases c, 1
  {
    CommandsHaveNoBuiltins(c.children);
  }

  lemma {:induction false} CommandsHaveNoBuiltins(cs: seq<HostCommand>)
    ensures forall k :: 0 <= k < |CommandsOf(cs)| ==> NoBuiltins(CommandsOf(cs)[k])
    decreases cs, 0
  {
    if cs != [] {
      CommandsHaveNoBuiltins(cs[..|cs| - 1]);
      CommandHasNoBuiltins(cs[|cs| - 1]);
    }
  }

  /** The whole converted tree is free of cobra's builtin commands and
      flags; a builtin child's subtree is never visited. */
  lemma RootHasNoBuiltins(c: HostCommand)
    ensures forall i :: 0 <= i < |RootOf(c).flags| ==> RootOf(c).flags[i].long !in {"help", "version"}
    ensures forall k :: 0 <= k < |RootOf(c).cmds| ==>
      RootOf(c).cmds[k].name !in {"help", "completion"} && NoBuiltins(RootOf(c).cmds[k])
  {
    CommandsHaveNoBuiltins(c.children);
  }

  /** The flags of a command are its global ones followed by its local ones. */
  lemma GlobalFlagsFirst(c: HostCommand, isRoot: bool)
    ensures var fs := CommandFlags(c, isRoot);
      exists g :: 0 <= |g| <= |fs| && g == fs[..|g|] &&
        (forall i :: 0 <= i < |g| ==> fs[i].global) && (forall i :: |g| <= i < |fs| ==> !fs[i].global)
  {
    var fs := CommandFlags(c, isRoot);
    var g := PersistentFlagsOf(c.persistentFlags);
    assert g == fs[..|g|];
  }

  /** Valid args only ever reach the first argument, and only when the `Use`
      line declares one. */
  lemma ChoicesOnlyOnFirst(c: HostCommand)
    ensures var args := CommandOf(c).args;
      && (forall i :: 0 < i < |args| ==> args[i].choices.None?)
      && (|args| > 0 ==> (args[0].choices.Some? <==> |c.validArgs| > 0))
  {
    var parsed := UseArgs(c.use);
    var parts := Words(c.use);
    if |parts| > 1 {
      ArgsHaveNoChoices(parts[1..]);
    }
  }

  lemma {:induction false} ArgsHaveNoChoices(tokens: seq<string>)
    ensures forall i :: 0 <= i < |ArgsOfTokens(tokens)| ==> ArgsOfTokens(tokens)[i].choices.None?
  {
    if tokens != [] {
      ArgsHaveNoChoices(tokens[..|tokens| - 1]);
    }
  }

  // ---------------------------------------------------------------------
  // Behaviour that the repository's own tests expect otherwise
  // ---------------------------------------------------------------------

  /** A string flag whose default is "0" loses its default. */
  lemma StringDefaultZeroDropped(f: HostFlag)
    requires f.typeName == "string" && f.defValue == "0"
    ensures FlagOf(f).default == []
  {
  }

  /** `app [command]` declares an optional positional named `command`. */
  lemma CommandPlaceholderKept()
    ensures UseArgs("app [command]") == [EmptyArg.(name := "command", required := false)]
  {
    CommandPlaceholderWords();
    CommandPlaceholderToken();
  }

  lemma CommandPlaceholderWords()
    ensures Words("app [command]") == ["app", "[command]"]
  {
    WordsJoin(["app", "[command]"]);
    assert Join(["app", "[command]"], " ") == "app [command]";
  }

  lemma CommandPlaceholderToken()
    ensures ArgsOfTokens(["[command]"]) == [EmptyArg.(name := "command", required := false)]
  {
    CommandNotPlaceholder();
    ParseArgTokenRoundTrip("command", false, false);
    assert UseToken("command", false, false) == "[command]";
    ArgsOfOneToken("[command]");
  }

  lemma CommandNotPlaceholder()
    ensures !IsFlagsPlaceholder("[command]")
  {
    var lower := ToLower("[command]");
    assert lower[1] == 'c';
    assert "[flags]"[1] == 'f' && "[options]"[1] == 'o';
  }

  /** A command with converted children and no declared arguments requires a
      subcommand, whether or not it is runnable itself. */
  lemma ParentWithoutArgsRequiresSubcommand(c: HostCommand, k: nat)
    requires k < |c.children| && !IsBuiltinCommand(c.children[k])
    requires |Words(c.use)| <= 1
    ensures CommandOf(c).subcommandRequired
  {
    assert c.children[k] in c.children;
  }
}
