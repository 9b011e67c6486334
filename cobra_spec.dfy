/** The in-memory usage spec that the cobra integration builds, and the part
    of a cobra/pflag command tree that it reads. Go slices are sequences (a
    nil slice and an empty one are both `[]`); Go pointers are options. */
module CobraSpec {
  import opened Wrappers

  /** The values an argument may take. */
  datatype SpecChoices = SpecChoices(values: seq<string>)

  /** A positional argument. */
  datatype SpecArg = SpecArg(
    name: string,
    help: string,
    required: bool,
    variadic: bool,
    hide: bool,
    default: seq<string>,
    choices: Option<SpecChoices>)

  /** A flag or option. */
  datatype SpecFlag = SpecFlag(
    short: string,
    long: string,
    help: string,
    helpLong: string,
    required: bool,
    hide: bool,
    global: bool,
    count: bool,
    variadic: bool,
    deprecated: string,
    default: seq<string>,
    arg: Option<SpecArg>)

  /** A subcommand. */
  datatype SpecCommand = SpecCommand(
    name: string,
    help: string,
    helpLong: string,
    hide: bool,
    deprecated: string,
    aliases: seq<string>,
    subcommandRequired: bool,
    flags: seq<SpecFlag>,
    args: seq<SpecArg>,
    cmds: seq<SpecCommand>)

  /** The root of a CLI definition. */
  datatype Spec = Spec(
    name: string,
    bin: string,
    version: string,
    about: string,
    long: string,
    usage: string,
    flags: seq<SpecFlag>,
    args: seq<SpecArg>,
    cmds: seq<SpecCommand>)

  /** Go's zero values of the structs above. */
  const EmptyArg := SpecArg("", "", false, false, false, [], None)
  const EmptyFlag := SpecFlag("", "", "", "", false, false, false, false, false, "", [], None)

  /** A pflag flag as the converter sees it. `requiredAnnotation` says whether
      the flag carries cobra's one-required-flag annotation; `typeName` is
      `Value.Type()`. */
  datatype HostFlag = HostFlag(
    name: string,
    shorthand: string,
    usage: string,
    hidden: bool,
    deprecated: string,
    requiredAnnotation: bool,
    typeName: string,
    defValue: string)

  /** A cobra command as the converter sees it: `name` is `Name()`,
      `children` is `Commands()`, and the two flag sets are
      `PersistentFlags()` and `LocalFlags()` in visiting order. */
  datatype HostCommand = HostCommand(
    name: string,
    use: string,
    short: string,
    long: string,
    version: string,
    hidden: bool,
    deprecated: string,
    aliases: seq<string>,
    validArgs: seq<string>,
    children: seq<HostCommand>,
    persistentFlags: seq<HostFlag>,
    localFlags: seq<HostFlag>)
}
